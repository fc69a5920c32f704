/**
 * What each process feature says about the log and the snapshot chain, in terms of rows, results and
 * versions alone: the clocks and their anchors, streaks, windows of edits, counters.
 */
module FeatureMeanings {
  import opened Prelude
  import opened TraceTypes
  import opened FeatureExtraction
  import opened FeatureLaws
  import opened Monitor
  import opened TraceStore

  // ------------------------------------------------------------------ results and answers

  /** A result row the extractor can read, and what it reads. */
  predicate IsReading(e: Event, o: Observation) {
    && e.kind == TestResult && e.payload.ResultPayload? && e.payload.status == Some(o.status)
    && o.seqNo == e.seqNo && o.at == e.at && o.mode == e.payload.mode
    && o.passed == e.payload.passed && o.total == e.payload.total
    && o.codeVersion == if e.codeVersion.Some? then e.codeVersion.value else 0
  }

  ghost predicate InRowOrder(results: seq<Observation>) {
    forall i, j :: 0 <= i < j < |results| ==> results[i].seqNo < results[j].seqNo
  }

  lemma ReadingIs(e: Event, o: Observation)
    ensures IsReading(e, o) <==> e.kind == TestResult && ToObservation(e) == Some(o)
  {
  }

  /** Row `i` is where the result was read. */
  ghost predicate IsReadAt(events: seq<Event>, o: Observation, i: int) {
    0 <= i < |events| && IsReading(events[i], o)
  }

  lemma ReadEarlierOrLast(init: seq<Event>, last: Event, events: seq<Event>, o: Observation)
    requires events == init + [last]
    ensures (exists i :: IsReadAt(events, o, i)) <==> (exists i :: IsReadAt(init, o, i)) || IsReading(last, o)
  {
    if i :| IsReadAt(init, o, i) {
      assert IsReadAt(events, o, i);
    }
    if IsReading(last, o) {
      assert IsReadAt(events, o, |init|);
    }
    assert forall i :: IsReadAt(events, o, i) ==> IsReadAt(init, o, i) || i == |init|;
  }

  /** The results are the readings of the log's result rows. */
  lemma {:induction false} ResultsAreReadings(events: seq<Event>, o: Observation)
    ensures o in Results(events) <==> exists i :: IsReadAt(events, o, i)
  {
    if events != [] {
      ResultsAreReadings(events[..|events| - 1], o);
      ReadEarlierOrLast(events[..|events| - 1], events[|events| - 1], events, o);
      ReadingIs(events[|events| - 1], o);
    }
  }

  /** Each once, in row order. */
  lemma {:induction false} ResultsInRowOrder(events: seq<Event>)
    requires Numbered(events)
    ensures InRowOrder(Results(events))
    ensures Results(events) != [] ==> Results(events)[|Results(events)| - 1].seqNo <= |events|
  {
    if events != [] {
      ResultsInRowOrder(events[..|events| - 1]);
    }
  }

  /** Selecting by status keeps the order. */
  lemma {:induction false} SelectionInOrder(results: seq<Observation>, wanted: set<JudgeStatus>)
    requires InRowOrder(results)
    ensures InRowOrder(Only(results, wanted))
    ensures Only(results, wanted) != [] ==>
              Only(results, wanted)[|Only(results, wanted)| - 1].seqNo <= results[|results| - 1].seqNo
  {
    if results != [] {
      SelectionInOrder(results[..|results| - 1], wanted);
    }
  }

  predicate IsCorrectAnswer(e: Event) {
    e.kind == ActivityResponse && e.payload.ClientPayload? && e.payload.correct
  }

  /** Row `i` is the last correct answer. */
  ghost predicate IsLastCorrect(events: seq<Event>, i: nat) {
    i < |events| && IsCorrectAnswer(events[i]) && forall j :: i < j < |events| ==> !IsCorrectAnswer(events[j])
  }

  /** The time of the last correct answer, if there is one. */
  lemma {:induction false} LastCorrectAnswer(events: seq<Event>) returns (i: nat)
    ensures ActivitySuccessAt(events).None? <==> forall j :: 0 <= j < |events| ==> !IsCorrectAnswer(events[j])
    ensures ActivitySuccessAt(events).Some? ==>
              IsLastCorrect(events, i) && events[i].at == ActivitySuccessAt(events).value
  {
    if events == [] {
      i := 0;
    } else if IsCorrectAnswer(events[|events| - 1]) {
      i := |events| - 1;
    } else {
      var init := events[..|events| - 1];
      i := LastCorrectAnswer(init);
      assert forall j :: 0 <= j < |init| ==> init[j] == events[j];
    }
  }

  // ------------------------------------------------------------------ clocks

  /** The stall clock counts from the personal best or from a later correct answer. */
  lemma StallClock(
    cfg: MonitorConfig, startedAt: int, events: seq<Event>, snapshots: seq<Snapshot>, now: int, k: nat)
    requires IsFirstBest(Scored(events), k)
    ensures var success, best := ActivitySuccessAt(events), Scored(events)[k].at;
            Extract(cfg, startedAt, events, snapshots, now).clocks.secondsWithoutProgress
            == SecondsBetween(if success.Some? then Max(success.value, best) else best, now)
  {
    AnchorsOf(Scored(events), k, ActivitySuccessAt(events));
    StallClockFrom(cfg, startedAt, events, snapshots, now);
  }

  lemma StallClockFrom(cfg: MonitorConfig, startedAt: int, events: seq<Event>, snapshots: seq<Snapshot>, now: int)
    ensures var anchor := ProgressAt(Scored(events), ActivitySuccessAt(events));
            Extract(cfg, startedAt, events, snapshots, now).clocks.secondsWithoutProgress
            == SecondsBetween(if anchor.Some? then anchor.value else startedAt, now)
  {
  }

  /** Without any score it counts from the last correct answer, else from the start. */
  lemma StallClockWithoutScores(
    cfg: MonitorConfig, startedAt: int, events: seq<Event>, snapshots: seq<Snapshot>, now: int)
    requires Scored(events) == []
    ensures var success := ActivitySuccessAt(events);
            Extract(cfg, startedAt, events, snapshots, now).clocks.secondsWithoutProgress
            == SecondsBetween(if success.Some? then success.value else startedAt, now)
  {
    StallClockFrom(cfg, startedAt, events, snapshots, now);
  }

  predicate IsActivityAt(events: seq<Event>, i: int) {
    0 <= i < |events| && events[i].kind in ACTIVITY_TYPES
  }

  /** When the student last did something: the latest activity row or the newest snapshot, else the start. */
  ghost predicate IsLastActivity(startedAt: int, events: seq<Event>, snapshots: seq<Snapshot>, a: int) {
    && (forall i :: IsActivityAt(events, i) ==> events[i].at <= a)
    && (snapshots != [] ==> snapshots[|snapshots| - 1].createdAt <= a)
    && ((exists i :: IsActivityAt(events, i) && events[i].at == a)
        || (snapshots != [] && a == snapshots[|snapshots| - 1].createdAt)
        || ((forall i :: !IsActivityAt(events, i)) && snapshots == [] && a == startedAt))
  }

  lemma LastActivityMeans(startedAt: int, events: seq<Event>, snapshots: seq<Snapshot>, a: int)
    requires IsLastActivity(startedAt, events, snapshots, a)
    ensures LastActivityTime(startedAt, events, snapshots) == a
  {
    LastActivityIsLatest(events);
    if LastActivityAt(events).Some? {
      var i :| 0 <= i < |events| && events[i].kind in ACTIVITY_TYPES && events[i].at == LastActivityAt(events).value;
      assert IsActivityAt(events, i);
    } else {
      assert forall i :: !IsActivityAt(events, i);
    }
  }

  /** The other three clocks: since the start, since the newest snapshot, since the last activity. */
  lemma OtherClocks(
    cfg: MonitorConfig, startedAt: int, events: seq<Event>, snapshots: seq<Snapshot>, now: int, a: int)
    requires IsLastActivity(startedAt, events, snapshots, a)
    ensures var clocks := Extract(cfg, startedAt, events, snapshots, now).clocks;
            && clocks.elapsedSeconds == SecondsBetween(startedAt, now)
            && clocks.secondsSinceLastEdit
            == SecondsBetween(if snapshots != [] then snapshots[|snapshots| - 1].createdAt else startedAt, now)
            && clocks.secondsSinceLastActivity == SecondsBetween(a, now)
  {
    LastActivityMeans(startedAt, events, snapshots, a);
  }

  // ------------------------------------------------------------------ scores

  lemma {:induction false} SignaturesAt(scored: seq<Observation>)
    ensures forall i :: 0 <= i < |scored| ==> Signatures(scored)[i] == scored[i].Signature()
  {
    if scored != [] {
      SignaturesAt(scored[..|scored| - 1]);
    }
  }

  lemma {:induction false} ScoresAt(scored: seq<Observation>)
    ensures forall i :: 0 <= i < |scored| ==> Scores(scored)[i] == scored[i].passed
  {
    if scored != [] {
      ScoresAt(scored[..|scored| - 1]);
    }
  }

  lemma {:induction false} StatusesAt(results: seq<Observation>)
    ensures forall i :: 0 <= i < |results| ==> Statuses(results)[i] == results[i].status
    ensures forall i :: 0 <= i < |results| ==> ErrorFlags(results)[i] == (results[i].status in ERRORS)
  {
    if results != [] {
      StatusesAt(results[..|results| - 1]);
    }
  }

  /** The last `n` scores are the same result, and the one before them is not. */
  ghost predicate IsSameResultStreak(scored: seq<Observation>, n: nat) {
    && n <= |scored| && (scored != [] ==> n >= 1)
    && (forall i :: |scored| - n <= i < |scored| ==> scored[i].Signature() == scored[|scored| - 1].Signature())
    && (n < |scored| ==> scored[|scored| - n - 1].Signature() != scored[|scored| - 1].Signature())
  }

  /** The last `n` of the student's results are errors, and the one before them is not. */
  ghost predicate IsErrorStreak(observed: seq<Observation>, n: nat) {
    && n <= |observed|
    && (forall i :: |observed| - n <= i < |observed| ==> observed[i].status in ERRORS)
    && (n < |observed| ==> observed[|observed| - n - 1].status !in ERRORS)
  }

  lemma SameResultStreakIs(scored: seq<Observation>)
    ensures IsSameResultStreak(scored, TrailingRun(Signatures(scored)))
  {
    var keys := Signatures(scored);
    TrailingRunIs(keys);
    SignaturesAt(scored);
    assert forall i :: 0 <= i < |scored| ==> keys[i] == scored[i].Signature();
  }

  lemma ErrorStreakIs(observed: seq<Observation>)
    ensures IsErrorStreak(observed, ConsecutiveErrors(observed))
  {
    TrailingRunIs(ErrorFlags(observed));
    StatusesAt(observed);
  }

  predicate RisesAt(scored: seq<Observation>, j: int) {
    1 <= j < |scored| && scored[j].passed > scored[j - 1].passed
  }

  lemma {:induction false} RisingMeans(window: seq<Observation>)
    ensures SomewhereRising(window) <==> exists j :: RisesAt(window, j)
  {
    if |window| >= 2 {
      var init := window[..|window| - 1];
      RisingMeans(init);
      assert forall j :: RisesAt(init, j) ==> RisesAt(window, j);
      assert forall j :: RisesAt(window, j) ==> RisesAt(init, j) || j == |window| - 1;
      assert window[|window| - 1].passed > window[|window| - 2].passed <==> RisesAt(window, |window| - 1);
    }
  }

  lemma RisesBehind(scored: seq<Observation>, d: nat)
    requires d <= |scored|
    ensures (exists j :: RisesAt(scored[d..], j)) <==> exists j :: RisesAt(scored, j) && j > d
  {
    var window := scored[d..];
    if j :| RisesAt(window, j) {
      assert RisesAt(scored, d + j);
    }
    if j :| RisesAt(scored, j) && j > d {
      assert RisesAt(window, j - d);
    }
  }

  /** Among the last three scores one is higher than the score before it. */
  lemma ImprovementIs(scored: seq<Observation>)
    ensures ImprovedRecently(scored) <==> exists j :: RisesAt(scored, j) && j >= |scored| - 2
  {
    var d := Max(|scored| - 3, 0);
    assert SliceFromMinus(scored, 3) == scored[d..];
    RisingMeans(scored[d..]);
    RisesBehind(scored, d);
    assert forall j :: RisesAt(scored, j) ==> (j > d <==> j >= |scored| - 2);
  }

  /** A window of the last `w` elements, for a positive setting, element by element. */
  lemma WindowAt<T>(s: seq<T>, w: int)
    requires w > 0
    ensures var window := SliceFromMinus(s, w);
            && |window| == Min(w, |s|)
            && forall i :: 0 <= i < |window| ==> window[i] == s[|s| - |window| + i]
  {
  }

  /** The newest snapshots on a chain, from the first one after version `v`; version 1 is no edit. */
  function WindowStart(n: nat, v: nat): (start: nat)
    ensures start <= n
  {
    Min(n, Max(1, v))
  }

  ghost predicate IsChain(snapshots: seq<Snapshot>) {
    forall i :: 0 <= i < |snapshots| ==> snapshots[i].version == i + 1
  }

  lemma SuffixMore<T>(s: seq<T>, start: nat)
    requires start < |s|
    ensures s[start..] == s[..|s| - 1][start..] + [s[|s| - 1]]
    ensures s[start..][..|s| - 1 - start] == s[..|s| - 1][start..]
  {
  }

  lemma {:induction false} AboveSuffix(snapshots: seq<Snapshot>, k: nat, v: nat, start: nat)
    requires IsChain(snapshots) && k <= |snapshots| && start == Min(|snapshots|, Max(k, v))
    ensures Above(snapshots[k..], v) == snapshots[start..]
    decreases |snapshots|
  {
    if k < |snapshots| {
      var init := snapshots[..|snapshots| - 1];
      AboveSuffix(init, k, v, Min(|init|, Max(k, v)));
      SuffixMore(snapshots, k);
      if start < |snapshots| {
        SuffixMore(snapshots, start);
      }
    }
  }

  /** The edits newer than a version are the end of the chain. */
  lemma EditsAreSuffix(snapshots: seq<Snapshot>, v: nat)
    requires IsChain(snapshots)
    ensures Above(Above(snapshots, 1), v) == snapshots[WindowStart(|snapshots|, v)..]
  {
    assert snapshots[0..] == snapshots;
    AboveSuffix(snapshots, 0, 1, WindowStart(|snapshots|, 1));
    AboveSuffix(snapshots, Min(1, |snapshots|), v, WindowStart(|snapshots|, v));
  }

  predicate Recognised(s: Snapshot) {
    s.columns.primaryRegion != Other
  }

  /**
   * Region `r` was edited `count` times in a row at the end: from `start` on every recognised edit is in
   * `r`, there are `count` of them, and the edit before `start`, if any, is in another recognised region.
   */
  ghost predicate IsRegionStreak(edits: seq<Snapshot>, r: RegionTag, count: nat, start: nat) {
    && start <= |edits|
    && (forall i :: start <= i < |edits| && Recognised(edits[i]) ==> edits[i].columns.primaryRegion == r)
    && count == HowMany(edits[start..], Recognised)
    && (start > 0 ==> Recognised(edits[start - 1]) && edits[start - 1].columns.primaryRegion != r)
  }

  /** The last recognised edit. */
  ghost predicate IsLastRecognised(edits: seq<Snapshot>, l: nat) {
    l < |edits| && Recognised(edits[l]) && forall i :: l < i < |edits| ==> !Recognised(edits[i])
  }

  lemma StretchGrows(edits: seq<Snapshot>, start: nat)
    requires start < |edits|
    ensures HowMany(edits[start..], Recognised)
         == HowMany(edits[..|edits| - 1][start..], Recognised) + if Recognised(edits[|edits| - 1]) then 1 else 0
  {
    HowManyMore(edits[start..], Recognised);
    assert edits[start..][..|edits[start..]| - 1] == edits[..|edits| - 1][start..];
  }

  lemma {:induction false} NoneRecognised(edits: seq<Snapshot>)
    requires forall i :: 0 <= i < |edits| ==> !Recognised(edits[i])
    ensures HowMany(edits, Recognised) == 0
  {
    if edits == [] {
      HowManyNone(Recognised);
    } else {
      NoneRecognised(edits[..|edits| - 1]);
      HowManyMore(edits, Recognised);
    }
  }

  /** An unrecognised edit, or one more in the same region, leaves the start of the streak where it was. */
  lemma StreakContinues(edits: seq<Snapshot>, r: RegionTag, count: nat, start: nat)
    requires edits != [] && IsRegionStreak(edits[..|edits| - 1], r, count, start)
    requires Recognised(edits[|edits| - 1]) ==> edits[|edits| - 1].columns.primaryRegion == r
    ensures IsRegionStreak(edits, r, count + if Recognised(edits[|edits| - 1]) then 1 else 0, start)
  {
    var init := edits[..|edits| - 1];
    StretchGrows(edits, start);
    assert forall i :: 0 <= i < |init| ==> init[i] == edits[i];
  }

  /** A recognised edit behind the last one of another region starts a streak of its own. */
  lemma StreakRestarts(edits: seq<Snapshot>, l: nat)
    requires edits != [] && Recognised(edits[|edits| - 1]) && IsLastRecognised(edits[..|edits| - 1], l)
    requires edits[l].columns.primaryRegion != edits[|edits| - 1].columns.primaryRegion
    ensures IsRegionStreak(edits, edits[|edits| - 1].columns.primaryRegion, 1, l + 1)
  {
    var init := edits[..|edits| - 1];
    assert forall i :: 0 <= i < |init| ==> init[i] == edits[i];
    StretchGrows(edits, l + 1);
    NoneRecognised(init[l + 1..]);
  }

  lemma StreakBegins(edits: seq<Snapshot>)
    requires edits != [] && Recognised(edits[|edits| - 1])
    requires forall i :: 0 <= i < |edits| - 1 ==> !Recognised(edits[i])
    ensures IsRegionStreak(edits, edits[|edits| - 1].columns.primaryRegion, 1, 0)
  {
    var init := edits[..|edits| - 1];
    StretchGrows(edits, 0);
    NoneRecognised(init[0..]);
  }

  lemma RunMore(tags: seq<RegionTag>, tag: RegionTag)
    ensures TrailingRun(tags + [tag]) == if tags != [] && tags[|tags| - 1] == tag then TrailingRun(tags) + 1 else 1
  {
    assert (tags + [tag])[..|tags|] == tags;
  }

  lemma {:induction false} LastRecognisedIs(edits: seq<Snapshot>) returns (l: nat)
    requires Tagged(edits) != []
    ensures IsLastRecognised(edits, l) && edits[l].columns.primaryRegion == Tagged(edits)[|Tagged(edits)| - 1]
  {
    l := |edits| - 1;
    if !Recognised(edits[l]) {
      l := LastRecognisedIs(edits[..l]);
    }
  }

  /** What the run of tags at the end of the window means for the edits. */
  lemma {:induction false} RegionStreakIs(edits: seq<Snapshot>) returns (start: nat)
    requires Tagged(edits) != []
    ensures IsRegionStreak(edits, Tagged(edits)[|Tagged(edits)| - 1], TrailingRun(Tagged(edits)), start)
  {
    var init, last := edits[..|edits| - 1], edits[|edits| - 1];
    var tags, region := Tagged(init), last.columns.primaryRegion;
    assert Tagged(edits) == if Recognised(last) then tags + [region] else tags;
    if tags == [] {
      NothingTagged(init);
      assert forall i :: 0 <= i < |init| ==> init[i] == edits[i];
      StreakBegins(edits);
      start := 0;
    } else if Recognised(last) && tags[|tags| - 1] != region {
      var l := LastRecognisedIs(init);
      StreakRestarts(edits, l);
      RunMore(tags, region);
      start := l + 1;
    } else {
      start := RegionStreakIs(init);
      StreakContinues(edits, tags[|tags| - 1], TrailingRun(tags), start);
      RunMore(tags, region);
    }
  }

  lemma {:induction false} NothingTagged(edits: seq<Snapshot>)
    ensures Tagged(edits) == [] <==> forall i :: 0 <= i < |edits| ==> !Recognised(edits[i])
  {
    if edits != [] {
      var init := edits[..|edits| - 1];
      NothingTagged(init);
      assert forall i :: 0 <= i < |init| ==> init[i] == edits[i];
    }
  }

  // ------------------------------------------------------------------ the features, group by group

  ghost predicate RecentFit(recent: seq<nat>, scored: seq<Observation>, w: int) {
    && |recent| == Min(w, |scored|)
    && forall i :: 0 <= i < |recent| ==> recent[i] == scored[|scored| - |recent| + i].passed
  }

  lemma RecentScoresFit(scored: seq<Observation>, w: int)
    requires w > 0
    ensures RecentFit(Scores(SliceFromMinus(scored, w)), scored, w)
  {
    ScoresAt(SliceFromMinus(scored, w));
    WindowAt(scored, w);
  }

  /** Streak, trend and recent scores of the scored results, oldest first. */
  ghost predicate ScoresFit(cfg: MonitorConfig, s: ScoreFeatures, scored: seq<Observation>) {
    var n := |scored|;
    && IsSameResultStreak(scored, s.sameResultCount)
    && s.progressDelta == (if n >= 2 then scored[n - 1].passed - scored[n - 2].passed else 0)
    && (s.improvedRecently <==> exists j :: RisesAt(scored, j) && j >= n - 2)
    && (cfg.recentScoreWindow > 0 ==> RecentFit(s.recentScores, scored, cfg.recentScoreWindow))
  }

  /** The change measures at least as much as configured, and was made at least as fast. */
  ghost predicate IsLargeEdit(cfg: MonitorConfig, snapshots: seq<Snapshot>, i: int) {
    && 0 <= i < |snapshots|
    && snapshots[i].columns.changeRatio >= cfg.largeChangeRatio
    && snapshots[i].columns.changeSize >= cfg.largeChangeMinLines
    && snapshots[i].secondsSinceParent <= cfg.largeChangeWindowSeconds
  }

  /** The last recognised region of the edits, and how many edits in a row it was. */
  ghost predicate RegionFits(edits: seq<Snapshot>, region: Option<RegionTag>, count: nat) {
    if region.None? then count == 0 && forall i :: 0 <= i < |edits| ==> !Recognised(edits[i])
    else
      && (exists l: nat :: IsLastRecognised(edits, l) && edits[l].columns.primaryRegion == region.value)
      && exists start: nat :: IsRegionStreak(edits, region.value, count, start)
  }

  /** The edits since progress at `version`: how many, and in which region. */
  ghost predicate ProgressWindowFits(s: ScoreFeatures, version: nat, snapshots: seq<Snapshot>) {
    var start := WindowStart(|snapshots|, version);
    && s.editsSinceProgress == |snapshots| - start
    && RegionFits(snapshots[start..], s.repeatedEditRegion, s.sameRegionEditCount)
  }

  /** The edits since the streak began (since progress if there is none), and those behind the last score but one. */
  ghost predicate ResultWindowsFit(
    cfg: MonitorConfig, s: ScoreFeatures, scored: seq<Observation>, version: nat, snapshots: seq<Snapshot>)
  {
    var n, m := |snapshots|, |scored|;
    && s.sameResultCount <= m
    && s.editsInResultStreak
       == n - WindowStart(n, if s.sameResultCount == 0 then version else scored[m - s.sameResultCount].codeVersion)
    && (s.largeChangeDetected <==>
          var start := WindowStart(n, if m >= 2 then scored[m - 2].codeVersion else 1);
          exists i :: IsLargeEdit(cfg, snapshots, i) && start <= i)
  }

  lemma LargeChangesAbove(cfg: MonitorConfig, snapshots: seq<Snapshot>, k: nat, v: nat)
    requires IsChain(snapshots) && k <= |snapshots|
    ensures HasLargeChangeAbove(cfg, snapshots[k..], v)
       <==> exists i :: IsLargeEdit(cfg, snapshots, i) && i >= k && i >= v
  {
    var edits := snapshots[k..];
    if HasLargeChangeAbove(cfg, edits, v) {
      var i :| 0 <= i < |edits| && IsLargeChange(cfg, edits[i]) && edits[i].version > v;
      assert IsLargeEdit(cfg, snapshots, k + i);
    }
    if i :| IsLargeEdit(cfg, snapshots, i) && i >= k && i >= v {
      assert IsLargeChange(cfg, edits[i - k]);
    }
  }

  lemma RegionOfEdits(edits: seq<Snapshot>)
    ensures var tagged := Tagged(edits);
            RegionFits(edits, if tagged != [] then Some(tagged[|tagged| - 1]) else None, TrailingRun(tagged))
  {
    NothingTagged(edits);
    if Tagged(edits) != [] {
      var l := LastRecognisedIs(edits);
      var start := RegionStreakIs(edits);
    }
  }

  lemma {:induction false} StreakWindow(
    scored: seq<Observation>, success: Option<int>, snapshots: seq<Snapshot>, version: nat, streak: nat)
    requires IsChain(snapshots) && version == ProgressVersion(scored, success, ProgressAt(scored, success))
    requires streak == TrailingRun(Signatures(scored)) && streak <= |scored|
    ensures EditsInResultStreak(scored, success, snapshots)
         == |snapshots|
              - WindowStart(|snapshots|, if streak == 0 then version else scored[|scored| - streak].codeVersion)
  {
    var from := if streak == 0 then version else scored[|scored| - streak].codeVersion;
    EditsAreSuffix(snapshots, from);
  }

  lemma ScoresOfFit(cfg: MonitorConfig, scored: seq<Observation>, success: Option<int>, snapshots: seq<Snapshot>)
    ensures ScoresFit(cfg, ScoresOf(cfg, scored, success, snapshots), scored)
  {
    SameResultStreakIs(scored);
    ImprovementIs(scored);
    if cfg.recentScoreWindow > 0 {
      RecentScoresFit(scored, cfg.recentScoreWindow);
    }
  }

  lemma LargeEditBehind(cfg: MonitorConfig, scored: seq<Observation>, snapshots: seq<Snapshot>)
    requires IsChain(snapshots)
    ensures HasLargeChangeAbove(cfg, Above(snapshots, 1), PreviousBoundary(scored)) <==>
            exists i :: IsLargeEdit(cfg, snapshots, i) && WindowStart(|snapshots|, PreviousBoundary(scored)) <= i
  {
    EditsOnly(snapshots);
    LargeChangesAbove(cfg, snapshots, WindowStart(|snapshots|, 1), PreviousBoundary(scored));
  }

  /** Where each window of the score features comes from. */
  lemma WindowParts(cfg: MonitorConfig, scored: seq<Observation>, success: Option<int>, snapshots: seq<Snapshot>)
    ensures var s := ScoresOf(cfg, scored, success, snapshots);
            var since := EditsSinceProgress(snapshots, ProgressVersion(scored, success, ProgressAt(scored, success)));
            var tagged := Tagged(since);
            && s.editsSinceProgress == |since| && s.sameRegionEditCount == TrailingRun(tagged)
            && s.repeatedEditRegion == (if tagged != [] then Some(tagged[|tagged| - 1]) else None)
            && s.sameResultCount == TrailingRun(Signatures(scored))
            && s.editsInResultStreak == EditsInResultStreak(scored, success, snapshots)
            && s.largeChangeDetected == HasLargeChangeAbove(cfg, Above(snapshots, 1), PreviousBoundary(scored))
  {
  }

  lemma TaggedWindow(s: ScoreFeatures, version: nat, snapshots: seq<Snapshot>, edits: seq<Snapshot>)
    requires edits == snapshots[WindowStart(|snapshots|, version)..]
    requires s.editsSinceProgress == |edits| && s.sameRegionEditCount == TrailingRun(Tagged(edits))
    requires s.repeatedEditRegion == if Tagged(edits) != [] then Some(Tagged(edits)[|Tagged(edits)| - 1]) else None
    ensures ProgressWindowFits(s, version, snapshots)
  {
    RegionOfEdits(edits);
  }

  lemma {:induction false} SinceProgress(
    cfg: MonitorConfig, scored: seq<Observation>, success: Option<int>, snapshots: seq<Snapshot>, version: nat)
    requires IsChain(snapshots) && version == ProgressVersion(scored, success, ProgressAt(scored, success))
    ensures ProgressWindowFits(ScoresOf(cfg, scored, success, snapshots), version, snapshots)
  {
    EditsAreSuffix(snapshots, version);
    WindowParts(cfg, scored, success, snapshots);
    TaggedWindow(ScoresOf(cfg, scored, success, snapshots), version, snapshots, EditsSinceProgress(snapshots, version));
  }

  lemma {:induction false} ResultWindows(
    cfg: MonitorConfig, s: ScoreFeatures, scored: seq<Observation>, version: nat, snapshots: seq<Snapshot>, streak: nat)
    requires streak <= |scored| && s.sameResultCount == streak
    requires s.editsInResultStreak == |snapshots|
               - WindowStart(|snapshots|, if streak == 0 then version else scored[|scored| - streak].codeVersion)
    requires s.largeChangeDetected <==>
             exists i :: IsLargeEdit(cfg, snapshots, i) && WindowStart(|snapshots|, PreviousBoundary(scored)) <= i
    ensures ResultWindowsFit(cfg, s, scored, version, snapshots)
  {
  }

  lemma {:induction false} SinceResults(
    cfg: MonitorConfig, scored: seq<Observation>, success: Option<int>, snapshots: seq<Snapshot>, version: nat)
    requires IsChain(snapshots) && version == ProgressVersion(scored, success, ProgressAt(scored, success))
    ensures ResultWindowsFit(cfg, ScoresOf(cfg, scored, success, snapshots), scored, version, snapshots)
  {
    var streak := TrailingRun(Signatures(scored));
    StreakWindow(scored, success, snapshots, version, streak);
    LargeEditBehind(cfg, scored, snapshots);
    WindowParts(cfg, scored, success, snapshots);
    ResultWindows(cfg, ScoresOf(cfg, scored, success, snapshots), scored, version, snapshots, streak);
  }

  /** Version 1 is the template. */
  lemma EditsOnly(snapshots: seq<Snapshot>)
    requires IsChain(snapshots)
    ensures Above(snapshots, 1) == snapshots[WindowStart(|snapshots|, 1)..]
  {
    assert snapshots[0..] == snapshots;
    AboveSuffix(snapshots, 0, 1, WindowStart(|snapshots|, 1));
  }

  /** Attempts by mode, the last result, and the edits not run since. */
  ghost predicate AttemptsFit(
    cfg: MonitorConfig, a: AttemptFeatures, results: seq<Observation>, snapshots: seq<Snapshot>)
  {
    var n, verified := |snapshots|, if results == [] then 0 else results[|results| - 1].codeVersion;
    && a.runCount == HowMany(results, (o: Observation) => o.mode == RunMode)
    && a.submitCount == HowMany(results, (o: Observation) => o.mode == SubmitMode)
    && a.attemptCount == |results| && a.snapshotCount == n
    && a.lastResult == (if results == [] then None else Some(results[|results| - 1]))
    && a.editsSinceLastResult == n - WindowStart(n, verified)
    && (a.largeChangeUnverified <==> exists i :: IsLargeEdit(cfg, snapshots, i) && i >= 2 && i >= verified)
  }

  lemma {:induction false} CountModeIs(results: seq<Observation>, mode: Mode, p: Observation -> bool)
    requires forall o :: p(o) <==> o.mode == mode
    ensures CountMode(results, mode) == HowMany(results, p)
  {
    if results == [] {
      HowManyNone(p);
    } else {
      CountModeIs(results[..|results| - 1], mode, p);
      HowManyMore(results, p);
    }
  }

  lemma {:induction false} EveryResultIsAnAttempt(results: seq<Observation>)
    ensures CountMode(results, RunMode) + CountMode(results, SubmitMode) == |results|
  {
    if results != [] {
      EveryResultIsAnAttempt(results[..|results| - 1]);
    }
  }

  lemma AttemptsOfFit(cfg: MonitorConfig, results: seq<Observation>, snapshots: seq<Snapshot>)
    requires IsChain(snapshots)
    ensures AttemptsFit(cfg, AttemptsOf(cfg, results, snapshots), results, snapshots)
  {
    CountModeIs(results, RunMode, (o: Observation) => o.mode == RunMode);
    CountModeIs(results, SubmitMode, (o: Observation) => o.mode == SubmitMode);
    EveryResultIsAnAttempt(results);
    UnverifiedEdits(cfg, snapshots, LastVersion(results, 0));
  }

  /** The first edit replaces the template and is no rewrite. */
  lemma UnverifiedEdits(cfg: MonitorConfig, snapshots: seq<Snapshot>, verified: nat)
    requires IsChain(snapshots)
    ensures var edits := Above(snapshots, 1);
            var unverified := Above(edits, verified);
            && |unverified| == |snapshots| - WindowStart(|snapshots|, verified)
            && (HasLargeChangeAbove(cfg, unverified, FirstEditVersion(edits))
                <==> exists i :: IsLargeEdit(cfg, snapshots, i) && i >= 2 && i >= verified)
  {
    EditsOnly(snapshots);
    EditsAreSuffix(snapshots, verified);
    var start := WindowStart(|snapshots|, verified);
    LargeChangesAbove(cfg, snapshots, start, FirstEditVersion(Above(snapshots, 1)));
    if |snapshots| >= 2 {
      assert FirstEditVersion(Above(snapshots, 1)) == 2;
    }
  }

  /** Rows of a kind, and rows behind the last trigger. */
  ghost predicate ContextFits(c: ContextFeatures, events: seq<Event>) {
    && c.undoCount == HowMany(events, (e: Event) => e.kind == Undo)
    && c.hintCount == HowMany(events, (e: Event) => e.kind == HintRequest)
    && IsLastSeq(events, HintRequest, c.lastHintSeq) && IsLastSeq(events, AgentTrigger, c.lastTriggerSeq)
    && (c.lastTriggerAt.Some? <==> c.lastTriggerSeq.Some?)
    && (c.lastTriggerAt.Some? ==>
          exists i :: IsLastRow(events, AgentTrigger, i) && events[i].at == c.lastTriggerAt.value)
    && c.editsSinceLastTrigger
       == HowMany(events, (e: Event) => e.kind == CodeSnapshot && IsNewer(e, c.lastTriggerSeq))
    && c.activitySinceLastTrigger
       == HowMany(events, (e: Event) => e.kind in ACTIVITY_TYPES && IsNewer(e, c.lastTriggerSeq))
  }

  predicate IsNewer(e: Event, seqNo: Option<nat>) {
    seqNo.Some? ==> e.seqNo > seqNo.value
  }

  ghost predicate IsLastRow(events: seq<Event>, kind: EventType, i: int) {
    0 <= i < |events| && events[i].kind == kind && forall j :: i < j < |events| ==> events[j].kind != kind
  }

  ghost predicate IsLastSeq(events: seq<Event>, kind: EventType, seqNo: Option<nat>) {
    if seqNo.None? then forall i :: 0 <= i < |events| ==> events[i].kind != kind
    else exists i :: IsLastRow(events, kind, i) && events[i].seqNo == seqNo.value
  }

  lemma LastSeqIs(events: seq<Event>, kind: EventType)
    ensures IsLastSeq(events, kind, SeqOf(LastOf(events, kind)))
    ensures LastOf(events, kind).Some? ==>
              exists i :: IsLastRow(events, kind, i) && events[i].at == LastOf(events, kind).value.at
  {
    var i := LastOfAt(events, kind);
    assert i >= 0 ==> IsLastRow(events, kind, i);
  }

  lemma {:induction false} CountKindIs(events: seq<Event>, kind: EventType, p: Event -> bool)
    requires forall e :: p(e) <==> e.kind == kind
    ensures CountKind(events, kind) == HowMany(events, p)
  {
    if events == [] {
      HowManyNone(p);
    } else {
      CountKindIs(events[..|events| - 1], kind, p);
      HowManyMore(events, p);
    }
  }

  lemma {:induction false} CountKindAfterIs(events: seq<Event>, kind: EventType, after: Option<nat>, p: Event -> bool)
    requires forall e :: p(e) <==> e.kind == kind && IsNewer(e, after)
    ensures CountKindAfter(events, kind, after) == HowMany(events, p)
  {
    if events == [] {
      HowManyNone(p);
    } else {
      CountKindAfterIs(events[..|events| - 1], kind, after, p);
      HowManyMore(events, p);
    }
  }

  lemma {:induction false} CountActivityAfterIs(events: seq<Event>, after: Option<nat>, p: Event -> bool)
    requires forall e :: p(e) <==> e.kind in ACTIVITY_TYPES && IsNewer(e, after)
    ensures CountActivityAfter(events, after) == HowMany(events, p)
  {
    if events == [] {
      HowManyNone(p);
    } else {
      CountActivityAfterIs(events[..|events| - 1], after, p);
      HowManyMore(events, p);
    }
  }

  lemma ContextOfFits(events: seq<Event>)
    ensures ContextFits(ContextOf(events), events)
  {
    var after := SeqOf(LastOf(events, AgentTrigger));
    LastSeqIs(events, HintRequest);
    LastSeqIs(events, AgentTrigger);
    CountKindIs(events, Undo, (e: Event) => e.kind == Undo);
    CountKindIs(events, HintRequest, (e: Event) => e.kind == HintRequest);
    CountKindAfterIs(events, CodeSnapshot, after, (e: Event) => e.kind == CodeSnapshot && IsNewer(e, after));
    CountActivityAfterIs(events, after, (e: Event) => e.kind in ACTIVITY_TYPES && IsNewer(e, after));
  }

  ghost predicate ErrorsFit(e: ErrorFeatures, observed: seq<Observation>, errors: seq<Observation>) {
    && IsErrorStreak(observed, e.consecutiveErrorCount)
    && |e.recentErrorTypes| == Min(5, |errors|)
    && forall i :: 0 <= i < |e.recentErrorTypes| ==>
         e.recentErrorTypes[i] == errors[|errors| - |e.recentErrorTypes| + i].status
  }

  lemma ErrorsOfFit(results: seq<Observation>)
    ensures ErrorsFit(ErrorsOf(results), Only(results, SCORED + ERRORS), Only(results, ERRORS))
  {
    ErrorStreakIs(Only(results, SCORED + ERRORS));
    StatusesAt(SliceFromMinus(Only(results, ERRORS), 5));
    WindowAt(Only(results, ERRORS), 5);
  }

  /** The version the windows of progress start at, in terms of the personal best `k` and the last correct answer. */
  function AnchorVersion(scored: seq<Observation>, k: nat, success: Option<int>): nat
    requires scored != [] ==> k < |scored|
  {
    if scored == [] then 1
    else if success.Some? && success.value >= scored[k].at then scored[|scored| - 1].codeVersion
    else scored[k].codeVersion
  }

  lemma AnchorVersionIs(scored: seq<Observation>, k: nat, success: Option<int>)
    requires scored != [] ==> IsFirstBest(scored, k)
    ensures ProgressVersion(scored, success, ProgressAt(scored, success)) == AnchorVersion(scored, k, success)
  {
    if scored != [] {
      AnchorsOf(scored, k, success);
    }
  }

  /**
   * The extractor's features of a log and a snapshot chain, each in terms of the rows, the results in row
   * order and the versions; `k` is the personal best, if anything was scored. The clocks are above.
   */
  lemma FeaturesMean(
    cfg: MonitorConfig, startedAt: int, events: seq<Event>, snapshots: seq<Snapshot>, now: int, k: nat)
    requires IsChain(snapshots) && (Scored(events) != [] ==> IsFirstBest(Scored(events), k))
    ensures var f, results, scored := Extract(cfg, startedAt, events, snapshots, now), Results(events), Scored(events);
            && ScoresFit(cfg, f.scores, scored)
            && ProgressWindowFits(f.scores, AnchorVersion(scored, k, ActivitySuccessAt(events)), snapshots)
            && ResultWindowsFit(cfg, f.scores, scored, AnchorVersion(scored, k, ActivitySuccessAt(events)), snapshots)
            && ErrorsFit(f.errors, Only(results, SCORED + ERRORS), Only(results, ERRORS))
            && AttemptsFit(cfg, f.attempts, results, snapshots)
            && ContextFits(f.context, events)
  {
    PartsOf(cfg, startedAt, events, snapshots, now);
    var scored, success := Scored(events), ActivitySuccessAt(events);
    AnchorVersionIs(scored, k, success);
    ScoresOfFit(cfg, scored, success, snapshots);
    SinceProgress(cfg, scored, success, snapshots, AnchorVersion(scored, k, success));
    SinceResults(cfg, scored, success, snapshots, AnchorVersion(scored, k, success));
    ErrorsOfFit(Results(events));
    AttemptsOfFit(cfg, Results(events), snapshots);
    ContextOfFits(events);
  }

  lemma PartsOf(cfg: MonitorConfig, startedAt: int, events: seq<Event>, snapshots: seq<Snapshot>, now: int)
    ensures var f := Extract(cfg, startedAt, events, snapshots, now);
            && f.scores == ScoresOf(cfg, Scored(events), ActivitySuccessAt(events), snapshots)
            && f.errors == ErrorsOf(Results(events))
            && f.attempts == AttemptsOf(cfg, Results(events), snapshots)
            && f.context == ContextOf(events)
  {
  }

  // ------------------------------------------------------------------ what the monitor asks the log

  /** The monitor cools down exactly while its last trigger is recent and no result was recorded behind it. */
  lemma CoolingDownMeans(cfg: MonitorConfig, events: seq<Event>, now: int)
    requires Numbered(events)
    ensures CoolingDown(cfg, events, now) <==>
            exists i :: && IsLastRow(events, AgentTrigger, i) && SecondsBetween(events[i].at, now) < cfg.cooldownSeconds
                        && forall j :: i < j < |events| ==> events[j].kind != TestResult
  {
    var i := LastOfAt(events, AgentTrigger);
    if i >= 0 {
      assert IsLastRow(events, AgentTrigger, i);
      assert HasResultAfter(events, Some(events[i].seqNo)) <==>
        exists j :: i < j < |events| && events[j].kind == TestResult by {
        assert forall j :: 0 <= j < |events| ==> (events[j].seqNo > events[i].seqNo <==> j > i);
      }
    }
  }

  /** A hint is fresh exactly if some hint request has no trigger behind it. */
  lemma HintAfterMeans(events: seq<Event>)
    requires Numbered(events)
    ensures HintAfter(events, LastOf(events, AgentTrigger)) <==>
            exists h :: && 0 <= h < |events| && events[h].kind == HintRequest
                        && forall j :: h < j < |events| ==> events[j].kind != AgentTrigger
  {
    var t := LastOfAt(events, AgentTrigger);
    var h := LastOfAt(events, HintRequest);
    assert forall j :: 0 <= j < |events| ==> events[j].seqNo == j + 1;
    if HintAfter(events, LastOf(events, AgentTrigger)) {
      assert forall j :: h < j < |events| ==> events[j].kind != AgentTrigger;
    }
  }
}
