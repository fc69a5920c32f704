/**
 * Soundness of the "same result without editing" rule: when it sees no edit in the streak, every
 * result of the streak graded the same code, provided runs grade the newest snapshot.
 */
module StreakSoundness {
  import opened Prelude
  import opened TraceTypes
  import opened FeatureExtraction
  import opened TraceStore
  import opened FeatureLaws
  import opened MonitorRuns

  /** Results name versions of the chain. */
  ghost predicate VersionsExist(st: Store) {
    forall i :: 0 <= i < |st.events| && st.events[i].kind == TestResult ==>
      && st.events[i].codeVersion.Some?
      && 1 <= st.events[i].codeVersion.value <= |st.snapshots|
  }

  /** No result grades an older version than a result before it. */
  ghost predicate VersionsOrdered(st: Store)
    requires VersionsExist(st)
  {
    forall i, j :: 0 <= i < j < |st.events| && st.events[i].kind == TestResult && st.events[j].kind == TestResult ==>
      st.events[i].codeVersion.value <= st.events[j].codeVersion.value
  }

  ghost predicate GradesKnown(st: Store) {
    Valid(st) && VersionsExist(st)
  }

  ghost predicate GradesInOrder(st: Store) {
    Valid(st) && VersionsExist(st) && VersionsOrdered(st)
  }

  /** The request does not ask for a version by number. */
  predicate GradesNewest(step: Step) {
    step.Execution? ==> !step.grading.GradeVersion?
  }

  lemma NoResultKeepsOrder(st: Store, next: Store)
    requires GradesInOrder(st) && Valid(next) && Extends(st, next)
    requires forall j :: |st.events| <= j < |next.events| ==> next.events[j].kind != TestResult
    ensures GradesInOrder(next)
  {
  }

  lemma NewestResultKeepsOrder(st: Store, v: Verdict, at: int)
    requires GradesInOrder(st)
    ensures var r := RecordResult(st, v, Some(st.lastCodeVersion), Server, at);
            r.Ok? && GradesInOrder(r.value)
  {
    RecordResultKeeps(st, v, st.lastCodeVersion, at);
  }

  lemma EvaluationKeepsOrder(monitor: Evaluator, st: Store, now: int)
    requires GradesInOrder(st)
    ensures GradesInOrder(EvaluateAndRecord(monitor, st, now))
  {
    var state := monitor(st.startedAt, st.events, st.snapshots, now);
    RecordStateKeeps(st, state, now);
    NoResultKeepsOrder(st, RecordState(st, state, now));
  }

  lemma BatchAddsNoResult(differ: Differ, st: Store, items: seq<Item>, at: int)
    requires Valid(st) && Ingest(differ, st, items, at).Ok?
    ensures var next := Ingest(differ, st, items, at).value;
            && Valid(next) && Extends(st, next)
            && forall j :: |st.events| <= j < |next.events| ==> next.events[j].kind != TestResult
  {
    var next := Ingest(differ, st, items, at).value;
    IngestedRows(differ, st, st.lastCodeVersion, Fresh(KnownIds(st.events), items), at, next);
  }

  lemma StepKeepsOrder(monitor: Evaluator, differ: Differ, st: Store, step: Step)
    requires GradesInOrder(st) && GradesNewest(step)
    ensures GradesInOrder(Apply(monitor, differ, st, step))
  {
    match step
    case Batch(items, at) =>
      if Ingest(differ, st, items, at).Ok? {
        BatchAddsNoResult(differ, st, items, at);
        NoResultKeepsOrder(st, Ingest(differ, st, items, at).value);
      }
    case Execution(grading, verdict, at) =>
      var graded := Grade(differ, st, grading, at);
      if graded.Ok? {
        GradeKeeps(differ, st, grading, at);
        var mid, s := graded.value.0, graded.value.1;
        NoResultKeepsOrder(st, mid);
        if verdict.Some? {
          NewestResultKeepsOrder(mid, verdict.value, at);
          EvaluationKeepsOrder(monitor, RecordResult(mid, verdict.value, Some(s.version), Server, at).value, at);
        }
      }
    case Heartbeat(at) =>
      EvaluationKeepsOrder(monitor, st, at);
    case Intervention(at) =>
      NoResultKeepsOrder(st, Intervene(st, at));
    case Closing(at) =>
      NoResultKeepsOrder(st, Finish(st, at));
  }

  lemma {:induction false} RunKeepsOrder(monitor: Evaluator, differ: Differ, st: Store, steps: seq<Step>)
    requires GradesInOrder(st)
    requires forall i :: 0 <= i < |steps| ==> GradesNewest(steps[i])
    ensures GradesInOrder(RunSteps(monitor, differ, st, steps))
  {
    if steps != [] {
      RunKeepsOrder(monitor, differ, st, steps[..|steps| - 1]);
      StepKeepsOrder(monitor, differ, RunSteps(monitor, differ, st, steps[..|steps| - 1]), steps[|steps| - 1]);
    }
  }

  // ------------------------------------------------------------------ from rows to observations

  /** The row an observation was read from. */
  lemma {:induction false} RowOfResult(events: seq<Event>, r: Observation) returns (i: nat)
    requires r in Results(events)
    ensures i < |events| && events[i].kind == TestResult && ToObservation(events[i]) == Some(r)
  {
    var n := |events| - 1;
    if events[n].kind == TestResult && ToObservation(events[n]) == Some(r) {
      i := n;
    } else {
      i := RowOfResult(events[..n], r);
    }
  }

  /** The first result of the constant stretch at the end. */
  function FirstOfRun(scored: seq<Observation>): Observation
    requires scored != []
  {
    scored[|scored| - TrailingRun(Signatures(scored))]
  }

  /** The first scored result of the current streak. */
  function StreakFirst(events: seq<Event>): Observation
    requires Scored(events) != []
  {
    FirstOfRun(Scored(events))
  }

  /** Results recorded since the streak began, errors included. */
  ghost predicate InStreak(events: seq<Event>, r: Observation)
    requires Scored(events) != []
  {
    r in Results(events) && r.seqNo >= StreakFirst(events).seqNo
  }

  /** No snapshot is newer than the streak's first result exactly when that result graded the newest one. */
  lemma NoEditsMeansNewest(st: Store, v: nat)
    requires Valid(st) && 1 <= v <= |st.snapshots|
    ensures |Above(Above(st.snapshots, 1), v)| == 0 <==> v == |st.snapshots|
  {
    AboveVersion(st.snapshots, 1);
    var edits := st.snapshots[1..];
    if v == |st.snapshots| {
      NoneAbove(edits, v);
    } else {
      assert edits[|edits| - 1].version > v;
    }
  }

  ghost predicate StreakGradesOneVersion(st: Store)
    requires Scored(st.events) != []
  {
    forall r :: InStreak(st.events, r) ==> r.codeVersion == StreakFirst(st.events).codeVersion
  }

  /** "No edits in the streak", as the extractor computes it. */
  predicate NoEditsInStreak(st: Store) {
    EditsInResultStreak(Scored(st.events), ActivitySuccessAt(st.events), st.snapshots) == 0
  }

  lemma NoEditsExtracted(cfg: MonitorConfig, st: Store, now: int)
    ensures NoEditsInStreak(st)
       <==> Extract(cfg, st.startedAt, st.events, st.snapshots, now).scores.editsInResultStreak == 0
  {
    StreakExtracted(cfg, Scored(st.events), ActivitySuccessAt(st.events), st.snapshots);
  }

  lemma StreakExtracted(cfg: MonitorConfig, scored: seq<Observation>, success: Option<int>, snapshots: seq<Snapshot>)
    ensures ScoresOf(cfg, scored, success, snapshots).editsInResultStreak
         == EditsInResultStreak(scored, success, snapshots)
  {
  }

  lemma NoEditsReadsChain(st: Store)
    requires Scored(st.events) != []
    ensures NoEditsInStreak(st)
       <==> |Above(Above(st.snapshots, 1), StreakFirst(st.events).codeVersion)| == 0
  {
    StreakWindow(Scored(st.events), ActivitySuccessAt(st.events), st.snapshots);
  }

  lemma StreakWindow(scored: seq<Observation>, success: Option<int>, snapshots: seq<Snapshot>)
    requires scored != []
    ensures EditsInResultStreak(scored, success, snapshots)
         == |Above(Above(snapshots, 1), scored[|scored| - TrailingRun(Signatures(scored))].codeVersion)|
  {
    var pv := ProgressVersion(scored, success, ProgressAt(scored, success));
    StreakWindowOf(snapshots, scored, TrailingRun(Signatures(scored)), pv);
  }

  lemma StreakWindowOf(snapshots: seq<Snapshot>, scored: seq<Observation>, n: nat, progressVersion: nat)
    requires 1 <= n <= |scored|
    ensures EditsInStreak(snapshots, scored, n, progressVersion)
         == |Above(Above(snapshots, 1), scored[|scored| - n].codeVersion)|
  {
  }

  lemma ResultVersionExists(st: Store, r: Observation)
    requires GradesKnown(st) && r in Results(st.events)
    ensures 1 <= r.codeVersion <= |st.snapshots|
  {
    var i := RowOfResult(st.events, r);
  }

  /** The extractor sees no edits in the streak exactly when the streak's first result graded the newest snapshot. */
  lemma NoEditsIffNewestFirst(st: Store)
    requires GradesKnown(st) && Scored(st.events) != []
    ensures 1 <= StreakFirst(st.events).codeVersion <= |st.snapshots|
    ensures NoEditsInStreak(st) <==> StreakFirst(st.events).codeVersion == |st.snapshots|
  {
    var first := StreakFirst(st.events);
    OnlyExactly(Results(st.events), SCORED, first);
    ResultVersionExists(st, first);
    NoEditsReadsChain(st);
    NoEditsMeansNewest(st, first.codeVersion);
  }

  lemma OrderedStreakNeverGoesBack(st: Store)
    requires GradesInOrder(st) && Scored(st.events) != []
    ensures forall r :: InStreak(st.events, r) ==> StreakFirst(st.events).codeVersion <= r.codeVersion <= |st.snapshots|
  {
    var first := StreakFirst(st.events);
    OnlyExactly(Results(st.events), SCORED, first);
    var i := RowOfResult(st.events, first);
    forall r | InStreak(st.events, r)
      ensures first.codeVersion <= r.codeVersion <= |st.snapshots|
    {
      var j := RowOfResult(st.events, r);
      assert st.events[i].seqNo == i + 1 && st.events[j].seqNo == j + 1;
    }
  }

  /** An ordered log whose streak saw no edits graded the newest code throughout the streak. */
  lemma NoEditsIsNewestCode(st: Store)
    requires GradesInOrder(st) && Scored(st.events) != [] && NoEditsInStreak(st)
    ensures StreakGradesNewestCode(st)
  {
    OrderedStreakNeverGoesBack(st);
    NoEditsIffNewestFirst(st);
  }

  /**
   * In every run whose requests grade the newest snapshot: if the extractor reports no edits in the
   * same-result streak, every result since the streak's first one, errors included, graded the
   * newest snapshot, and so byte-identical code.
   */
  lemma SameResultWithoutEditsIsSameCode(
    cfg: MonitorConfig, monitor: Evaluator, differ: Differ, template: string, at: int, steps: seq<Step>, now: int)
    requires forall i :: 0 <= i < |steps| ==> GradesNewest(steps[i])
    ensures var st := Session(monitor, differ, template, at, steps);
            Scored(st.events) != []
            && Extract(cfg, st.startedAt, st.events, st.snapshots, now).scores.editsInResultStreak == 0
            ==> StreakGradesNewestCode(st)
  {
    OpenValid(differ, template, at);
    RunKeepsOrder(monitor, differ, OpenSession(differ, template, at), steps);
    var st := Session(monitor, differ, template, at, steps);
    NoEditsExtracted(cfg, st, now);
    if Scored(st.events) != [] && NoEditsInStreak(st) {
      NoEditsIsNewestCode(st);
    }
  }

  /** Version `k` holds the newest code, byte for byte. */
  predicate HoldsNewestCode(snapshots: seq<Snapshot>, k: nat) {
    && 1 <= k <= |snapshots|
    && snapshots[k - 1].version == k
    && snapshots[k - 1].code == snapshots[|snapshots| - 1].code
  }

  ghost predicate StreakGradesNewestCode(st: Store)
    requires Scored(st.events) != []
  {
    forall r :: InStreak(st.events, r) ==> HoldsNewestCode(st.snapshots, r.codeVersion)
  }
}
