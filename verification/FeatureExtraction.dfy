/**
 * The process-feature extractor: a full scan of one session's log and snapshot chain.
 * `Extract` is the specification; the methods are the scans the extractor runs.
 */
module FeatureExtraction {
  import opened Prelude
  import opened TraceTypes

  /** A result row as an observation; a row without a known status is no observation at all. */
  function ToObservation(e: Event): (o: Option<Observation>)
    ensures o.Some? ==> o.value.seqNo == e.seqNo && o.value.at == e.at
  {
    match e.payload
    case ResultPayload(mode, Some(status), passed, total) =>
      Some(Observation(e.seqNo, e.at, mode, status, passed, total,
                       if e.codeVersion.Some? then e.codeVersion.value else 0))
    case _ => None
  }

  function Results(events: seq<Event>): seq<Observation> {
    if events == [] then []
    else
      var e := events[|events| - 1];
      var rest := Results(events[..|events| - 1]);
      if e.kind == TestResult && ToObservation(e).Some? then rest + [ToObservation(e).value] else rest
  }

  /** The observations whose status is one of `wanted`, in order. */
  function Only(results: seq<Observation>, wanted: set<JudgeStatus>): (kept: seq<Observation>)
    ensures |kept| <= |results|
  {
    if results == [] then []
    else
      var last := results[|results| - 1];
      var rest := Only(results[..|results| - 1], wanted);
      if last.status in wanted then rest + [last] else rest
  }

  /** The results that carry a score. */
  function Scored(events: seq<Event>): seq<Observation> {
    Only(Results(events), SCORED)
  }

  /** Time of the last activity answered correctly. */
  function ActivitySuccessAt(events: seq<Event>): Option<int> {
    if events == [] then None
    else
      var e := events[|events| - 1];
      if e.kind == ActivityResponse && e.payload.ClientPayload? && e.payload.correct then Some(e.at)
      else ActivitySuccessAt(events[..|events| - 1])
  }

  /** Length of the longest constant stretch at the end of a list. */
  function TrailingRun<K(==)>(keys: seq<K>): (n: nat)
    ensures n <= |keys|
    ensures keys != [] ==> n >= 1
  {
    if |keys| <= 1 then |keys|
    else if keys[|keys| - 2] == keys[|keys| - 1] then 1 + TrailingRun(keys[..|keys| - 1])
    else 1
  }

  /** The last `n` keys are equal and the one before them differs. */
  ghost predicate IsTrailingRun<K(!new)>(keys: seq<K>, n: nat) {
    && n <= |keys|
    && (keys != [] ==> n >= 1)
    && (forall i :: |keys| - n <= i < |keys| ==> keys[i] == keys[|keys| - 1])
    && (n < |keys| ==> keys[|keys| - n - 1] != keys[|keys| - 1])
  }

  lemma {:induction false} TrailingRunIs<K(!new)>(keys: seq<K>)
    ensures IsTrailingRun(keys, TrailingRun(keys))
  {
    if |keys| > 1 && keys[|keys| - 2] == keys[|keys| - 1] {
      var shorter := keys[..|keys| - 1];
      TrailingRunIs(shorter);
      assert forall i :: 0 <= i < |shorter| ==> shorter[i] == keys[i];
    }
  }

  lemma TrailingRunLongest<K(!new)>(keys: seq<K>, n: nat, m: nat)
    requires IsTrailingRun(keys, n) && IsTrailingRun(keys, m)
    ensures m <= n
  {
  }

  /** There is only one such length. */
  lemma TrailingRunUnique<K(!new)>(keys: seq<K>, n: nat)
    requires IsTrailingRun(keys, n)
    ensures n == TrailingRun(keys)
  {
    TrailingRunIs(keys);
    TrailingRunLongest(keys, n, TrailingRun(keys));
    TrailingRunLongest(keys, TrailingRun(keys), n);
  }

  /** Index of the personal best: the first observation attaining the maximum. */
  function FirstBest(scored: seq<Observation>): (r: Option<nat>)
    ensures r.None? <==> scored == []
    ensures r.Some? ==> r.value < |scored|
  {
    if scored == [] then None
    else
      var r := FirstBest(scored[..|scored| - 1]);
      if r.None? || scored[|scored| - 1].passed > scored[r.value].passed then Some(|scored| - 1) else r
  }

  ghost predicate IsFirstBest(scored: seq<Observation>, k: nat) {
    && k < |scored|
    && (forall i :: 0 <= i < |scored| ==> scored[i].passed <= scored[k].passed)
    && (forall i :: 0 <= i < k ==> scored[i].passed < scored[k].passed)
  }

  lemma {:induction false} FirstBestIs(scored: seq<Observation>)
    requires scored != []
    ensures IsFirstBest(scored, FirstBest(scored).value)
  {
    var before := scored[..|scored| - 1];
    if before != [] {
      FirstBestIs(before);
      assert forall i :: 0 <= i < |before| ==> before[i] == scored[i];
    }
  }

  /** When the student last made progress: the personal best, or a later correct activity. */
  function ProgressAt(scored: seq<Observation>, activitySuccessAt: Option<int>): Option<int> {
    var best := FirstBest(scored);
    var at := if best.Some? then Some(scored[best.value].at) else None;
    if activitySuccessAt.Some? && (at.None? || activitySuccessAt.value > at.value) then activitySuccessAt else at
  }

  /** The code version standing for that moment in the snapshot chain. */
  function ProgressVersion(scored: seq<Observation>, activitySuccessAt: Option<int>, progressAt: Option<int>): nat {
    if activitySuccessAt.Some? && activitySuccessAt == progressAt && scored != [] then
      scored[|scored| - 1].codeVersion
    else
      var best := FirstBest(scored);
      if best.Some? then scored[best.value].codeVersion else 1
  }

  /** Snapshots newer than a version. */
  function Above(snapshots: seq<Snapshot>, version: int): (kept: seq<Snapshot>)
    ensures |kept| <= |snapshots|
  {
    if snapshots == [] then []
    else
      var last := snapshots[|snapshots| - 1];
      var rest := Above(snapshots[..|snapshots| - 1], version);
      if last.version > version then rest + [last] else rest
  }

  /** Snapshots whose change fell into a recognised region. */
  function Tagged(snapshots: seq<Snapshot>): seq<RegionTag> {
    if snapshots == [] then []
    else
      var last := snapshots[|snapshots| - 1].columns.primaryRegion;
      var rest := Tagged(snapshots[..|snapshots| - 1]);
      if last != Other then rest + [last] else rest
  }

  predicate IsLargeChange(cfg: MonitorConfig, s: Snapshot) {
    && s.columns.changeRatio >= cfg.largeChangeRatio
    && s.columns.changeSize >= cfg.largeChangeMinLines
    && s.secondsSinceParent <= cfg.largeChangeWindowSeconds
  }

  predicate HasLargeChangeAbove(cfg: MonitorConfig, snapshots: seq<Snapshot>, version: int) {
    exists i :: 0 <= i < |snapshots| && IsLargeChange(cfg, snapshots[i]) && snapshots[i].version > version
  }

  /** Latest timestamp of a student-activity row. */
  function LastActivityAt(events: seq<Event>): Option<int> {
    if events == [] then None
    else
      var e := events[|events| - 1];
      var r := LastActivityAt(events[..|events| - 1]);
      if e.kind in ACTIVITY_TYPES && (r.None? || e.at > r.value) then Some(e.at) else r
  }

  /** Rows of one kind with a sequence number after the last trigger (all rows if there was none). */
  function CountKindAfter(events: seq<Event>, kind: EventType, after: Option<nat>): nat {
    if events == [] then 0
    else
      var e := events[|events| - 1];
      CountKindAfter(events[..|events| - 1], kind, after)
        + if e.kind == kind && (after.None? || e.seqNo > after.value) then 1 else 0
  }

  lemma {:induction false} CountKindAfterRow(events: seq<Event>, kind: EventType, after: Option<nat>)
    requires CountKindAfter(events, kind, after) > 0
    ensures exists i :: 0 <= i < |events| && events[i].kind == kind && (after.Some? ==> events[i].seqNo > after.value)
  {
    var n := |events| - 1;
    if CountKindAfter(events[..n], kind, after) > 0 {
      CountKindAfterRow(events[..n], kind, after);
      var i :| 0 <= i < n && events[..n][i].kind == kind && (after.Some? ==> events[..n][i].seqNo > after.value);
      assert events[i] == events[..n][i];
    }
  }

  function CountActivityAfter(events: seq<Event>, after: Option<nat>): nat {
    if events == [] then 0
    else
      var e := events[|events| - 1];
      CountActivityAfter(events[..|events| - 1], after)
        + if e.kind in ACTIVITY_TYPES && (after.None? || e.seqNo > after.value) then 1 else 0
  }

  lemma {:induction false} CountActivityAfterRow(events: seq<Event>, after: Option<nat>)
    requires CountActivityAfter(events, after) > 0
    ensures exists i ::
              0 <= i < |events| && events[i].kind in ACTIVITY_TYPES && (after.Some? ==> events[i].seqNo > after.value)
  {
    var n := |events| - 1;
    if CountActivityAfter(events[..n], after) > 0 {
      CountActivityAfterRow(events[..n], after);
      var i :| 0 <= i < n && events[..n][i].kind in ACTIVITY_TYPES
        && (after.Some? ==> events[..n][i].seqNo > after.value);
      assert events[i] == events[..n][i];
    }
  }

  function CountMode(results: seq<Observation>, mode: Mode): nat {
    if results == [] then 0
    else CountMode(results[..|results| - 1], mode) + if results[|results| - 1].mode == mode then 1 else 0
  }

  function Signatures(scored: seq<Observation>): (keys: seq<(JudgeStatus, nat, nat)>)
    ensures |keys| == |scored|
  {
    if scored == [] then [] else Signatures(scored[..|scored| - 1]) + [scored[|scored| - 1].Signature()]
  }

  function Scores(scored: seq<Observation>): (scores: seq<nat>)
    ensures |scores| == |scored|
  {
    if scored == [] then [] else Scores(scored[..|scored| - 1]) + [scored[|scored| - 1].passed]
  }

  function Statuses(results: seq<Observation>): (statuses: seq<JudgeStatus>)
    ensures |statuses| == |results|
  {
    if results == [] then [] else Statuses(results[..|results| - 1]) + [results[|results| - 1].status]
  }

  function ErrorFlags(observed: seq<Observation>): (flags: seq<bool>)
    ensures |flags| == |observed|
  {
    if observed == [] then [] else ErrorFlags(observed[..|observed| - 1]) + [observed[|observed| - 1].status in ERRORS]
  }

  function ConsecutiveErrors(observed: seq<Observation>): nat {
    if observed != [] && observed[|observed| - 1].status in ERRORS then TrailingRun(ErrorFlags(observed)) else 0
  }

  /** Some result scored more than the one just before it. */
  predicate SomewhereRising(window: seq<Observation>) {
    var n := |window|;
    n >= 2 && (window[n - 1].passed > window[n - 2].passed || SomewhereRising(window[..n - 1]))
  }

  predicate ImprovedRecently(scored: seq<Observation>) {
    SomewhereRising(SliceFromMinus(scored, 3))
  }

  function ProgressDelta(scored: seq<Observation>): int {
    if |scored| >= 2 then scored[|scored| - 1].passed - scored[|scored| - 2].passed else 0
  }

  /** Edits newer than the version graded by the first result of a streak of the given length. */
  function EditsInStreak(snapshots: seq<Snapshot>, scored: seq<Observation>, length: nat, progressVersion: nat): nat
    requires length <= |scored|
  {
    var start := if length >= 1 then scored[|scored| - length].codeVersion else progressVersion;
    |Above(Above(snapshots, 1), start)|
  }

  /** Version of the second-last scored result: edits above it produced the last one. */
  function PreviousBoundary(scored: seq<Observation>): nat {
    if |scored| >= 2 then scored[|scored| - 2].codeVersion else 1
  }

  function LastVersion(results: seq<Observation>, default: nat): nat {
    if results == [] then default else results[|results| - 1].codeVersion
  }

  function SeqOf(e: Option<Event>): Option<nat> {
    if e.Some? then Some(e.value.seqNo) else None
  }

  function TimeOf(e: Option<Event>): Option<int> {
    if e.Some? then Some(e.value.at) else None
  }

  function EditsSinceProgress(snapshots: seq<Snapshot>, progressVersion: nat): seq<Snapshot> {
    Above(Above(snapshots, 1), progressVersion)
  }

  function EditsInResultStreak(scored: seq<Observation>, success: Option<int>, snapshots: seq<Snapshot>): nat {
    EditsInStreak(snapshots, scored, TrailingRun(Signatures(scored)),
                  ProgressVersion(scored, success, ProgressAt(scored, success)))
  }

  function ScoresOf(
    cfg: MonitorConfig, scored: seq<Observation>, success: Option<int>, snapshots: seq<Snapshot>): ScoreFeatures
  {
    var progressAt := ProgressAt(scored, success);
    var progressVersion := ProgressVersion(scored, success, progressAt);
    var streak := TrailingRun(Signatures(scored));
    var edits := Above(snapshots, 1);
    var sinceProgress := EditsSinceProgress(snapshots, progressVersion);
    var tagged := Tagged(sinceProgress);
    ScoreFeatures(
      Scores(SliceFromMinus(scored, cfg.recentScoreWindow)),
      streak,
      ProgressDelta(scored),
      ImprovedRecently(scored),
      progressAt,
      TrailingRun(tagged),
      if tagged != [] then Some(tagged[|tagged| - 1]) else None,
      |sinceProgress|,
      EditsInResultStreak(scored, success, snapshots),
      HasLargeChangeAbove(cfg, edits, PreviousBoundary(scored)))
  }

  function ErrorsOf(results: seq<Observation>): ErrorFeatures {
    ErrorFeatures(Statuses(SliceFromMinus(Only(results, ERRORS), 5)), ConsecutiveErrors(Only(results, SCORED + ERRORS)))
  }

  function FirstEditVersion(edits: seq<Snapshot>): nat {
    if edits == [] then 0 else edits[0].version
  }

  function AttemptsOf(cfg: MonitorConfig, results: seq<Observation>, snapshots: seq<Snapshot>): AttemptFeatures {
    var edits := Above(snapshots, 1);
    var unverified := Above(edits, LastVersion(results, 0));
    AttemptFeatures(
      CountMode(results, RunMode), CountMode(results, SubmitMode),
      CountMode(results, RunMode) + CountMode(results, SubmitMode),
      if results == [] then None else Some(results[|results| - 1]),
      |unverified|, HasLargeChangeAbove(cfg, unverified, FirstEditVersion(edits)), |snapshots|)
  }

  function ContextOf(events: seq<Event>): ContextFeatures {
    var trigger := LastOf(events, AgentTrigger);
    ContextFeatures(
      CountKind(events, Undo), CountKind(events, HintRequest), SeqOf(LastOf(events, HintRequest)),
      SeqOf(trigger), TimeOf(trigger),
      CountKindAfter(events, CodeSnapshot, SeqOf(trigger)), CountActivityAfter(events, SeqOf(trigger)))
  }

  function ClocksOf(
    startedAt: int, events: seq<Event>, snapshots: seq<Snapshot>, progressAt: Option<int>, now: int): Clocks
  {
    Clocks(
      SecondsBetween(startedAt, now),
      SecondsBetween(if progressAt.Some? then progressAt.value else startedAt, now),
      SecondsBetween(if snapshots == [] then startedAt else snapshots[|snapshots| - 1].createdAt, now),
      SecondsBetween(LastActivityTime(startedAt, events, snapshots), now))
  }

  /** The process features of a log and its snapshot chain at a moment. Only the clocks read the time. */
  function Extract(
    cfg: MonitorConfig, startedAt: int, events: seq<Event>, snapshots: seq<Snapshot>, now: int): Features
  {
    var results := Results(events);
    var scores := ScoresOf(cfg, Only(results, SCORED), ActivitySuccessAt(events), snapshots);
    Features(
      ClocksOf(startedAt, events, snapshots, scores.lastProgressAt, now),
      scores, ErrorsOf(results), AttemptsOf(cfg, results, snapshots), ContextOf(events))
  }

  /** The idle clock's anchor: latest activity row or newest snapshot, else the session start. */
  function LastActivityTime(startedAt: int, events: seq<Event>, snapshots: seq<Snapshot>): (t: int)
    ensures snapshots != [] ==> snapshots[|snapshots| - 1].createdAt <= t
  {
    var a := LastActivityAt(events);
    if snapshots == [] then (if a.Some? then a.value else startedAt)
    else
      var edited := snapshots[|snapshots| - 1].createdAt;
      if a.Some? then Max(a.value, edited) else edited
  }

  // ------------------------------------------------------------------ the scans

  /** The reversed loop of the trailing-run helper. */
  method ComputeTrailingRun<K(==, !new)>(items: seq<K>) returns (n: nat)
    ensures n == TrailingRun(items)
  {
    if items == [] {
      return 0;
    }
    var last := items[|items| - 1];
    n := 0;
    while n < |items| && items[|items| - 1 - n] == last
      invariant n <= |items|
      invariant forall i :: |items| - n <= i < |items| ==> items[i] == last
    {
      n := n + 1;
    }
    TrailingRunUnique(items, n);
  }

  /** The stall-clock scan: keep the time of each new personal best. */
  method ScanProgressAt(scored: seq<Observation>, activitySuccessAt: Option<int>) returns (at: Option<int>)
    ensures at == ProgressAt(scored, activitySuccessAt)
  {
    at := None;
    var best: int := -1;
    for i := 0 to |scored|
      invariant i == 0 ==> best == -1 && at == None
      invariant i > 0 ==> var b := FirstBest(scored[..i]);
                          b.Some? && best == scored[b.value].passed && at == Some(scored[b.value].at)
    {
      assert scored[..i + 1][..i] == scored[..i];
      if scored[i].passed > best {
        best := scored[i].passed;
        at := Some(scored[i].at);
      }
    }
    assert scored[..|scored|] == scored;
    if activitySuccessAt.Some? && (at.None? || activitySuccessAt.value > at.value) {
      at := activitySuccessAt;
    }
  }

  /** The version scan: keep the version of each new personal best. */
  method ScanProgressVersion(scored: seq<Observation>, activitySuccessAt: Option<int>, progressAt: Option<int>)
    returns (version: nat)
    ensures version == ProgressVersion(scored, activitySuccessAt, progressAt)
  {
    version := 1;
    var best: int := -1;
    for i := 0 to |scored|
      invariant i == 0 ==> best == -1 && version == 1
      invariant i > 0 ==> var b := FirstBest(scored[..i]);
                          b.Some? && best == scored[b.value].passed && version == scored[b.value].codeVersion
    {
      assert scored[..i + 1][..i] == scored[..i];
      if scored[i].passed > best {
        best := scored[i].passed;
        version := scored[i].codeVersion;
      }
    }
    assert scored[..|scored|] == scored;
    if activitySuccessAt.Some? && progressAt.Some? && activitySuccessAt.value == progressAt.value && scored != [] {
      version := scored[|scored| - 1].codeVersion;
    }
  }

  /** The single pass over the rows: results, counters, last hint, last trigger, last correct activity. */
  method ScanEvents(events: seq<Event>)
    returns (results: seq<Observation>, undoCount: nat, hintCount: nat, lastHintSeq: Option<nat>,
             lastTriggerSeq: Option<nat>, lastTriggerAt: Option<int>, activitySuccessAt: Option<int>)
    ensures results == Results(events)
    ensures undoCount == CountKind(events, Undo)
    ensures hintCount == CountKind(events, HintRequest)
    ensures lastHintSeq == SeqOf(LastOf(events, HintRequest))
    ensures lastTriggerSeq == SeqOf(LastOf(events, AgentTrigger))
    ensures lastTriggerAt == TimeOf(LastOf(events, AgentTrigger))
    ensures activitySuccessAt == ActivitySuccessAt(events)
  {
    results := [];
    undoCount, hintCount := 0, 0;
    lastHintSeq, lastTriggerSeq := None, None;
    lastTriggerAt, activitySuccessAt := None, None;
    for i := 0 to |events|
      invariant results == Results(events[..i])
      invariant undoCount == CountKind(events[..i], Undo)
      invariant hintCount == CountKind(events[..i], HintRequest)
      invariant lastHintSeq == SeqOf(LastOf(events[..i], HintRequest))
      invariant lastTriggerSeq == SeqOf(LastOf(events[..i], AgentTrigger))
      invariant lastTriggerAt == TimeOf(LastOf(events[..i], AgentTrigger))
      invariant activitySuccessAt == ActivitySuccessAt(events[..i])
    {
      var e := events[i];
      assert events[..i + 1][..i] == events[..i];
      match e.kind {
        case TestResult =>
          var obs := ToObservation(e);
          if obs.Some? {
            results := results + [obs.value];
          }
        case Undo =>
          undoCount := undoCount + 1;
        case HintRequest =>
          hintCount := hintCount + 1;
          lastHintSeq := Some(e.seqNo);
        case AgentTrigger =>
          lastTriggerSeq := Some(e.seqNo);
          lastTriggerAt := Some(e.at);
        case ActivityResponse =>
          if e.payload.ClientPayload? && e.payload.correct {
            activitySuccessAt := Some(e.at);
          }
        case _ =>
      }
    }
    assert events[..|events|] == events;
  }

  method ScanScores(cfg: MonitorConfig, scored: seq<Observation>, success: Option<int>, snapshots: seq<Snapshot>)
    returns (f: ScoreFeatures)
    ensures f == ScoresOf(cfg, scored, success, snapshots)
  {
    var progressAt := ScanProgressAt(scored, success);
    var progressVersion := ScanProgressVersion(scored, success, progressAt);
    var streak := ComputeTrailingRun(Signatures(scored));
    var edits := Above(snapshots, 1);
    var sinceProgress := EditsSinceProgress(snapshots, progressVersion);
    var tagged := Tagged(sinceProgress);
    var sameRegion := ComputeTrailingRun(tagged);
    f := ScoreFeatures(
      Scores(SliceFromMinus(scored, cfg.recentScoreWindow)), streak, ProgressDelta(scored), ImprovedRecently(scored),
      progressAt, sameRegion, if tagged != [] && sameRegion >= 1 then Some(tagged[|tagged| - 1]) else None,
      |sinceProgress|, EditsInStreak(snapshots, scored, streak, progressVersion),
      HasLargeChangeAbove(cfg, edits, PreviousBoundary(scored)));
  }

  method ScanErrors(results: seq<Observation>) returns (f: ErrorFeatures)
    ensures f == ErrorsOf(results)
  {
    var observed := Only(results, SCORED + ERRORS);
    var consecutive := 0;
    if observed != [] && observed[|observed| - 1].status in ERRORS {
      consecutive := ComputeTrailingRun(ErrorFlags(observed));
    }
    f := ErrorFeatures(Statuses(SliceFromMinus(Only(results, ERRORS), 5)), consecutive);
  }

  /** The extractor itself: one pass over the rows, the two best-score loops, the trailing runs. */
  method ExtractFeatures(cfg: MonitorConfig, startedAt: int, events: seq<Event>, snapshots: seq<Snapshot>, now: int)
    returns (f: Features)
    ensures f == Extract(cfg, startedAt, events, snapshots, now)
  {
    var results, undoCount, hintCount, lastHintSeq, lastTriggerSeq, lastTriggerAt, success := ScanEvents(events);
    var scores := ScanScores(cfg, Only(results, SCORED), success, snapshots);
    var errors := ScanErrors(results);
    var context := ContextFeatures(
      undoCount, hintCount, lastHintSeq, lastTriggerSeq, lastTriggerAt,
      CountKindAfter(events, CodeSnapshot, lastTriggerSeq), CountActivityAfter(events, lastTriggerSeq));
    f := Features(
      ClocksOf(startedAt, events, snapshots, scores.lastProgressAt, now),
      scores, errors, AttemptsOf(cfg, results, snapshots), context);
  }
}
