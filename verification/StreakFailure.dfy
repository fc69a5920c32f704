/**
 * A run in which the "same result without editing" rule speaks although two different codes were
 * graded: edit once, run it, then keep asking for the old version by number.
 */
module StreakFailure {
  import opened Prelude
  import opened TraceTypes
  import opened FeatureExtraction
  import opened Monitor
  import opened TraceStore
  import opened TriggerBounds
  import opened MonitorRuns
  import opened StreakSoundness

  /** Run the edited code once, then version 1 again and again. */
  function OldVersionRun(n: nat, edited: string, v: Verdict, at: int): seq<Step> {
    if n == 0 then []
    else
      OldVersionRun(n - 1, edited, v, at)
        + [Execution(if n == 1 then GradeCode(edited) else GradeVersion(1), Some(v), at)]
  }

  /** Thresholds that ask for a repetition and for time to pass; the shipped ones are among them. */
  predicate Patient(cfg: MonitorConfig) {
    && cfg.sameResultThreshold >= 2 && cfg.sameRegionThreshold >= 1 && cfg.consecutiveErrorThreshold >= 1
    && cfg.noProgressSeconds >= 1 && cfg.pasteSettleSeconds >= 1 && cfg.idleEditSeconds >= 1
  }

  // ------------------------------------------------------------------ the log of such a run

  function GradedVersion(n: nat): nat {
    if n == 1 then 2 else 1
  }

  function Rows(n: nat, v: Verdict, at: int): (rows: seq<Event>)
    ensures |rows| == n + 1
  {
    if n == 0 then [Event(1, SessionStart, Server, None, NoPayload, at, None)]
    else
      Rows(n - 1, v, at) +
      [Event(n + 1, TestResult, Server, Some(GradedVersion(n)),
             ResultPayload(v.mode, Some(v.status), v.passed, v.total), at, None)]
  }

  function Observed(n: nat, v: Verdict, at: int): (results: seq<Observation>)
    ensures |results| == n
  {
    if n == 0 then []
    else Observed(n - 1, v, at) + [Observation(n + 1, at, v.mode, v.status, v.passed, v.total, GradedVersion(n))]
  }

  lemma {:induction false} ResultsOfRows(n: nat, v: Verdict, at: int)
    ensures Results(Rows(n, v, at)) == Observed(n, v, at)
  {
    if n == 0 {
      assert Rows(n, v, at)[..0] == [];
    } else {
      ResultsOfRows(n - 1, v, at);
      assert Rows(n, v, at)[..n] == Rows(n - 1, v, at);
    }
  }

  lemma {:induction false} AllKept(n: nat, v: Verdict, at: int, wanted: set<JudgeStatus>)
    requires v.status in wanted
    ensures Only(Observed(n, v, at), wanted) == Observed(n, v, at)
  {
    if n > 0 {
      AllKept(n - 1, v, at, wanted);
      assert Observed(n, v, at)[..n - 1] == Observed(n - 1, v, at);
    }
  }

  lemma OneMoreSignature(n: nat, v: Verdict, at: int)
    requires n >= 1
    ensures Signatures(Observed(n, v, at)) == Signatures(Observed(n - 1, v, at)) + [(v.status, v.passed, v.total)]
  {
    assert Observed(n, v, at)[..n - 1] == Observed(n - 1, v, at);
  }

  lemma LongerRun(keys: seq<(JudgeStatus, nat, nat)>, key: (JudgeStatus, nat, nat))
    requires keys != [] ==> keys[|keys| - 1] == key
    ensures TrailingRun(keys + [key]) == TrailingRun(keys) + 1
  {
    assert (keys + [key])[..|keys|] == keys;
  }

  lemma {:induction false} OneLongStreak(n: nat, v: Verdict, at: int)
    ensures TrailingRun(Signatures(Observed(n, v, at))) == n
    ensures n >= 1 ==> Signatures(Observed(n, v, at))[n - 1] == (v.status, v.passed, v.total)
  {
    if n > 0 {
      OneLongStreak(n - 1, v, at);
      OneMoreSignature(n, v, at);
      LongerRun(Signatures(Observed(n - 1, v, at)), (v.status, v.passed, v.total));
    }
  }

  lemma {:induction false} ObservedAt(n: nat, v: Verdict, at: int, i: nat)
    requires i < n
    ensures Observed(n, v, at)[i] == Observation(i + 2, at, v.mode, v.status, v.passed, v.total, GradedVersion(i + 1))
  {
    if i < n - 1 {
      ObservedAt(n - 1, v, at, i);
    }
  }

  lemma {:induction false} FlatNeverRises(window: seq<Observation>, passed: nat)
    requires forall i :: 0 <= i < |window| ==> window[i].passed == passed
    ensures !SomewhereRising(window)
  {
    if |window| >= 2 {
      FlatNeverRises(window[..|window| - 1], passed);
    }
  }

  lemma ScoresStandStill(n: nat, v: Verdict, at: int)
    ensures ProgressDelta(Observed(n, v, at)) == 0 && !ImprovedRecently(Observed(n, v, at))
  {
    var scored := Observed(n, v, at);
    forall i: nat | i < n
      ensures scored[i].passed == v.passed
    {
      ObservedAt(n, v, at, i);
    }
    FlatNeverRises(SliceFromMinus(scored, 3), v.passed);
  }

  lemma {:induction false} FirstIsBest(n: nat, v: Verdict, at: int)
    requires n >= 1
    ensures FirstBest(Observed(n, v, at)) == Some(0)
  {
    assert Observed(n, v, at)[..n - 1] == Observed(n - 1, v, at);
    ObservedAt(n, v, at, 0);
    ObservedAt(n, v, at, n - 1);
    if n > 1 {
      FirstIsBest(n - 1, v, at);
    }
  }

  /** Nothing but results after the start row. */
  lemma {:induction false} OnlyResults(n: nat, v: Verdict, at: int)
    ensures LastOf(Rows(n, v, at), AgentTrigger) == None && LastOf(Rows(n, v, at), HintRequest) == None
    ensures ActivitySuccessAt(Rows(n, v, at)) == None
  {
    if n == 0 {
      assert Rows(n, v, at)[..0] == [];
    } else {
      OnlyResults(n - 1, v, at);
      assert Rows(n, v, at)[..n] == Rows(n - 1, v, at);
    }
  }

  // ------------------------------------------------------------------ what the monitor sees

  /** The state after `n` runs, before the monitor spoke. */
  ghost predicate Ran(st: Store, n: nat, template: string, edited: string, v: Verdict, at: int) {
    && Valid(st) && st.startedAt == at && st.events == Rows(n, v, at)
    && |st.snapshots| == 2 && st.snapshots[0].code == template && st.snapshots[1].code == edited
    && st.snapshots[1].createdAt == at
  }

  /** Score features are computed part by part. */
  lemma ScoreParts(cfg: MonitorConfig, scored: seq<Observation>, success: Option<int>, snapshots: seq<Snapshot>)
    ensures var s := ScoresOf(cfg, scored, success, snapshots);
            && s.sameResultCount == TrailingRun(Signatures(scored))
            && s.editsInResultStreak == EditsInResultStreak(scored, success, snapshots)
            && s.progressDelta == ProgressDelta(scored) && s.improvedRecently == ImprovedRecently(scored)
            && s.lastProgressAt == ProgressAt(scored, success)
            && (EditsSinceProgress(snapshots, ProgressVersion(scored, success, ProgressAt(scored, success))) == []
                ==> s.sameRegionEditCount == 0)
  {
  }

  lemma ProgressSeen(n: nat, v: Verdict, at: int)
    requires n >= 1
    ensures ProgressAt(Observed(n, v, at), None) == Some(at)
    ensures ProgressVersion(Observed(n, v, at), None, Some(at)) == 2
  {
    FirstIsBest(n, v, at);
    ObservedAt(n, v, at, 0);
  }

  /** The scores of the run: one streak, no edits in it, no region edited, nothing improving. */
  lemma ScoresSeen(cfg: MonitorConfig, snapshots: seq<Snapshot>, n: nat, v: Verdict, at: int)
    requires n >= 1 && |Above(Above(snapshots, 1), 2)| == 0
    ensures var s := ScoresOf(cfg, Observed(n, v, at), None, snapshots);
            && s.sameResultCount == n && s.editsInResultStreak == 0 && s.sameRegionEditCount == 0
            && s.progressDelta == 0 && !s.improvedRecently && s.lastProgressAt == Some(at)
  {
    OneLongStreak(n, v, at);
    ScoresStandStill(n, v, at);
    ProgressSeen(n, v, at);
    NoEditsSeen(snapshots, n, v, at);
    ScoreParts(cfg, Observed(n, v, at), None, snapshots);
  }

  lemma NoEditsSeen(snapshots: seq<Snapshot>, n: nat, v: Verdict, at: int)
    requires n >= 1 && |Above(Above(snapshots, 1), 2)| == 0
    ensures EditsInResultStreak(Observed(n, v, at), None, snapshots) == 0
  {
    OneLongStreak(n, v, at);
    ObservedAt(n, v, at, 0);
    StreakWindow(Observed(n, v, at), None, snapshots);
  }

  /** Everything the rules read, at the second of the last run. */
  predicate Sees(f: Features, n: nat, v: Verdict) {
    && f.scores.sameResultCount == n && f.scores.editsInResultStreak == 0 && f.scores.sameRegionEditCount == 0
    && f.scores.progressDelta == 0 && !f.scores.improvedRecently
    && f.errors.consecutiveErrorCount == 0
    && f.attempts.lastResult.Some? && f.attempts.lastResult.value.status == v.status
    && f.clocks.secondsWithoutProgress == 0 && f.clocks.secondsSinceLastEdit == 0
    && f.clocks.secondsSinceLastActivity == 0
    && f.context.lastHintSeq == None && f.context.lastTriggerSeq == None && f.context.lastTriggerAt == None
  }

  lemma FeaturesSeen(cfg: MonitorConfig, st: Store, n: nat, template: string, edited: string, v: Verdict, at: int)
    requires n >= 1 && v.status == WrongAnswer && Ran(st, n, template, edited, v, at)
    ensures Sees(Extract(cfg, at, st.events, st.snapshots, at), n, v)
  {
    ListsSeen(n, v, at);
    OnlyResults(n, v, at);
    NoEditsMeansNewest(st, 2);
    ScoresSeen(cfg, st.snapshots, n, v, at);
    PartsSeen(cfg, at, st.events, st.snapshots, at);
  }

  lemma ListsSeen(n: nat, v: Verdict, at: int)
    requires n >= 1 && v.status == WrongAnswer
    ensures Scored(Rows(n, v, at)) == Observed(n, v, at)
    ensures ConsecutiveErrors(Only(Results(Rows(n, v, at)), SCORED + ERRORS)) == 0
    ensures LastResult(Rows(n, v, at)).Some? && LastResult(Rows(n, v, at)).value.status == v.status
  {
    ResultsOfRows(n, v, at);
    AllKept(n, v, at, SCORED);
    AllKept(n, v, at, SCORED + ERRORS);
    ObservedAt(n, v, at, n - 1);
  }

  /** The features are computed part by part. */
  lemma PartsSeen(cfg: MonitorConfig, startedAt: int, events: seq<Event>, snapshots: seq<Snapshot>, now: int)
    requires snapshots != [] && snapshots[|snapshots| - 1].createdAt == now == startedAt
    ensures var f := Extract(cfg, startedAt, events, snapshots, now);
            var results := Results(events);
            && f.scores == ScoresOf(cfg, Scored(events), ActivitySuccessAt(events), snapshots)
            && f.errors.consecutiveErrorCount == ConsecutiveErrors(Only(results, SCORED + ERRORS))
            && f.attempts.lastResult == LastResult(events)
            && (f.scores.lastProgressAt == Some(now) ==> f.clocks.secondsWithoutProgress == 0)
            && f.clocks.secondsSinceLastEdit == 0 && f.clocks.secondsSinceLastActivity == 0
            && f.context.lastHintSeq == SeqOf(LastOf(events, HintRequest))
            && f.context.lastTriggerSeq == SeqOf(LastOf(events, AgentTrigger))
            && f.context.lastTriggerAt == TimeOf(LastOf(events, AgentTrigger))
  {
  }

  /** The verdict on such features: silence below the threshold, repeated failure from it on. */
  lemma VerdictSeen(cfg: MonitorConfig, f: Features, events: seq<Event>, n: nat, v: Verdict, at: int)
    requires Patient(cfg) && v.status == WrongAnswer && Sees(f, n, v)
    ensures Judge(f, events, at, cfg).trigger == if n >= cfg.sameResultThreshold then Some(RepeatedFailure) else None
  {
    VerdictTable(f, cfg);
  }

  // ------------------------------------------------------------------ the run itself

  lemma Edited(differ: Differ, template: string, edited: string, v: Verdict, at: int)
    requires template != edited
    ensures var st := OpenSession(differ, template, at);
            var (mid, s, _) := CreateSnapshot(differ, st, edited, at);
            s.version == 2 && Ran(mid, 0, template, edited, v, at)
  {
    OpenValid(differ, template, at);
    SnapshotKeeps(differ, OpenSession(differ, template, at), edited, at);
  }

  lemma OneMoreRow(st: Store, n: nat, template: string, edited: string, v: Verdict, at: int)
    requires n >= 1 && Ran(st, n - 1, template, edited, v, at)
    ensures var r := RecordResult(st, v, Some(GradedVersion(n)), Server, at);
            r.Ok? && Ran(r.value, n, template, edited, v, at)
  {
    RecordResultKeeps(st, v, GradedVersion(n), at);
  }

  /** The monitor on the state after `n` runs. */
  lemma Spoken(cfg: MonitorConfig, st: Store, n: nat, template: string, edited: string, v: Verdict, at: int)
    requires Patient(cfg) && n >= 1 && v.status == WrongAnswer && Ran(st, n, template, edited, v, at)
    ensures var state := MonitorOf(cfg)(st.startedAt, st.events, st.snapshots, at);
            && Sees(state.features, n, v)
            && state.trigger == if n >= cfg.sameResultThreshold then Some(RepeatedFailure) else None
  {
    FeaturesSeen(cfg, st, n, template, edited, v, at);
    VerdictSeen(cfg, Extract(cfg, at, st.events, st.snapshots, at), st.events, n, v, at);
  }

  function RunOf(
    cfg: MonitorConfig, differ: Differ, template: string, edited: string, v: Verdict, at: int, n: nat): Store
  {
    Session(MonitorOf(cfg), differ, template, at, OldVersionRun(n, edited, v, at))
  }

  /** The `n`-th request writes the `n`-th row and evaluates. */
  lemma NextRun(
    cfg: MonitorConfig, differ: Differ, st: Store, n: nat, template: string, edited: string, v: Verdict, at: int)
    returns (recorded: Store)
    requires n >= 1 && template != edited
    requires if n == 1 then st == OpenSession(differ, template, at) else Ran(st, n - 1, template, edited, v, at)
    ensures Ran(recorded, n, template, edited, v, at)
    ensures Apply(MonitorOf(cfg), differ, st,
                  Execution(if n == 1 then GradeCode(edited) else GradeVersion(1), Some(v), at))
         == EvaluateAndRecord(MonitorOf(cfg), recorded, at)
  {
    var mid := st;
    if n == 1 {
      Edited(differ, template, edited, v, at);
      mid := CreateSnapshot(differ, st, edited, at).0;
    } else {
      SnapshotAtFinds(st, 1);
    }
    OneMoreRow(mid, n, template, edited, v, at);
    recorded := RecordResult(mid, v, Some(GradedVersion(n)), Server, at).value;
  }

  lemma {:induction false} StillSilent(
    cfg: MonitorConfig, differ: Differ, template: string, edited: string, v: Verdict, at: int, n: nat)
    requires Patient(cfg) && template != edited && v.status == WrongAnswer && n < cfg.sameResultThreshold
    ensures if n == 0 then RunOf(cfg, differ, template, edited, v, at, n) == OpenSession(differ, template, at)
            else Ran(RunOf(cfg, differ, template, edited, v, at, n), n, template, edited, v, at)
  {
    if n > 0 {
      StillSilent(cfg, differ, template, edited, v, at, n - 1);
      LastStep(cfg, differ, template, edited, v, at, n);
      var before := RunOf(cfg, differ, template, edited, v, at, n - 1);
      var recorded := NextRun(cfg, differ, before, n, template, edited, v, at);
      Spoken(cfg, recorded, n, template, edited, v, at);
    }
  }

  lemma LastStep(cfg: MonitorConfig, differ: Differ, template: string, edited: string, v: Verdict, at: int, n: nat)
    requires n >= 1
    ensures RunOf(cfg, differ, template, edited, v, at, n)
         == Apply(MonitorOf(cfg), differ, RunOf(cfg, differ, template, edited, v, at, n - 1),
                  Execution(if n == 1 then GradeCode(edited) else GradeVersion(1), Some(v), at))
  {
    var steps := OldVersionRun(n, edited, v, at);
    assert steps[..|steps| - 1] == OldVersionRun(n - 1, edited, v, at);
  }

  /** The recorded verdict: repeated failure, by the rule about unedited code and by no other. */
  ghost predicate SpokeForUneditedCode(cfg: MonitorConfig, e: Event) {
    && e.kind == AgentTrigger && e.payload.TriggerPayload? && e.payload.trigger == RepeatedFailure
    && var f := e.payload.features;
       && f.scores.sameResultCount >= cfg.sameResultThreshold && f.scores.editsInResultStreak == 0
       && f.scores.sameRegionEditCount < cfg.sameRegionThreshold
       && f.errors.consecutiveErrorCount < cfg.consecutiveErrorThreshold
  }

  /** Two results of the streak graded different code. */
  lemma TwoCodes(st: Store, n: nat, template: string, edited: string, v: Verdict, at: int)
    requires n >= 2 && v.status == WrongAnswer && template != edited
    requires Results(st.events) == Observed(n, v, at)
    requires |st.snapshots| == 2 && st.snapshots[0].code == template && st.snapshots[1].code == edited
    ensures Scored(st.events) != [] && !StreakGradesOneVersion(st) && !StreakGradesNewestCode(st)
  {
    AllKept(n, v, at, SCORED);
    OneLongStreak(n, v, at);
    ObservedAt(n, v, at, 0);
    ObservedAt(n, v, at, 1);
    assert StreakFirst(st.events) == Observed(n, v, at)[0];
    assert InStreak(st.events, Observed(n, v, at)[1]);
  }

  /**
   * The rule speaks wrongly: for every patient monitor, any two different codes and any wrong verdict, the
   * run ends in a repeated-failure trigger for unedited code, although two codes were graded.
   */
  lemma OldVersionDefeatsTheRule(
    cfg: MonitorConfig, differ: Differ, template: string, edited: string, v: Verdict, at: int)
    requires Patient(cfg) && template != edited && v.status == WrongAnswer
    ensures var st := RunOf(cfg, differ, template, edited, v, at, cfg.sameResultThreshold);
            && st.events != [] && SpokeForUneditedCode(cfg, st.events[|st.events| - 1])
            && Scored(st.events) != [] && !StreakGradesOneVersion(st) && !StreakGradesNewestCode(st)
  {
    var n := cfg.sameResultThreshold;
    StillSilent(cfg, differ, template, edited, v, at, n - 1);
    LastStep(cfg, differ, template, edited, v, at, n);
    var before := RunOf(cfg, differ, template, edited, v, at, n - 1);
    var recorded := NextRun(cfg, differ, before, n, template, edited, v, at);
    SpokeWrongly(cfg, recorded, n, template, edited, v, at);
  }

  lemma SpokeWrongly(cfg: MonitorConfig, st: Store, n: nat, template: string, edited: string, v: Verdict, at: int)
    requires Patient(cfg) && template != edited && v.status == WrongAnswer
    requires n >= cfg.sameResultThreshold && Ran(st, n, template, edited, v, at)
    ensures var next := EvaluateAndRecord(MonitorOf(cfg), st, at);
            && next.events != [] && SpokeForUneditedCode(cfg, next.events[|next.events| - 1])
            && Scored(next.events) != [] && !StreakGradesOneVersion(next) && !StreakGradesNewestCode(next)
  {
    Spoken(cfg, st, n, template, edited, v, at);
    var state := MonitorOf(cfg)(st.startedAt, st.events, st.snapshots, at);
    RecordedLast(cfg, st, state, n, v, at);
    var next := RecordState(st, state, at);
    ResultsOfRows(n, v, at);
    assert next.events[..|next.events| - 1] == st.events;
    TwoCodes(next, n, template, edited, v, at);
  }

  lemma RecordedLast(cfg: MonitorConfig, st: Store, state: ProcessState, n: nat, v: Verdict, at: int)
    requires Patient(cfg) && n >= cfg.sameResultThreshold
    requires Sees(state.features, n, v) && state.trigger == Some(RepeatedFailure)
    ensures var next := RecordState(st, state, at);
            next.events != [] && SpokeForUneditedCode(cfg, next.events[|next.events| - 1])
  {
  }

  /** With the thresholds as shipped, three runs are enough. */
  lemma ThreeRunsDefeatTheShippedRule(differ: Differ, template: string, edited: string, v: Verdict, at: int)
    requires template != edited && v.status == WrongAnswer
    ensures var steps := [Execution(GradeCode(edited), Some(v), at), Execution(GradeVersion(1), Some(v), at),
                          Execution(GradeVersion(1), Some(v), at)];
            var st := Session(MonitorOf(DEFAULT_CONFIG), differ, template, at, steps);
            && st.events != [] && SpokeForUneditedCode(DEFAULT_CONFIG, st.events[|st.events| - 1])
            && Scored(st.events) != [] && !StreakGradesNewestCode(st)
  {
    OldVersionDefeatsTheRule(DEFAULT_CONFIG, differ, template, edited, v, at);
    ThreeRuns(edited, v, at);
  }

  lemma ThreeRuns(edited: string, v: Verdict, at: int)
    ensures OldVersionRun(3, edited, v, at)
         == [Execution(GradeCode(edited), Some(v), at), Execution(GradeVersion(1), Some(v), at),
             Execution(GradeVersion(1), Some(v), at)]
  {
    assert OldVersionRun(0, edited, v, at) == [];
    assert OldVersionRun(1, edited, v, at) == [Execution(GradeCode(edited), Some(v), at)];
    assert OldVersionRun(2, edited, v, at)
      == [Execution(GradeCode(edited), Some(v), at), Execution(GradeVersion(1), Some(v), at)];
  }
}
