/**
 * The "same result without editing" rule request by request: which requests keep it right. The rule
 * is right in a state if, whenever the extractor sees no edits in the same-result streak, the results
 * of the streak really graded one snapshot.
 */
module StreakRequests {
  import opened Prelude
  import opened TraceTypes
  import opened FeatureExtraction
  import opened TraceStore
  import opened FeatureLaws
  import opened MonitorRuns
  import opened StreakSoundness

  /** The rule is right about versions. */
  ghost predicate RuleHolds(st: Store) {
    Scored(st.events) != [] && NoEditsInStreak(st) ==> StreakGradesOneVersion(st)
  }

  /** The rule is right about code, byte for byte. */
  ghost predicate RuleHoldsForCode(st: Store) {
    Scored(st.events) != [] && NoEditsInStreak(st) ==> StreakGradesNewestCode(st)
  }

  // ------------------------------------------------------------------ one more result

  /** The store after a verdict on version `k` was recorded. */
  function After(st: Store, v: Verdict, k: nat, at: int): Store
    requires k <= st.lastCodeVersion
  {
    RecordResult(st, v, Some(k), Server, at).value
  }

  function Seen(st: Store, v: Verdict, k: nat, at: int): Observation {
    Observation(st.lastEventSeq + 1, at, v.mode, v.status, v.passed, v.total, k)
  }

  /** The verdict opens a streak of its own: the first score, or one that differs from the last. */
  predicate StartsStreak(scored: seq<Observation>, v: Verdict) {
    v.status in SCORED &&
    (scored == [] || scored[|scored| - 1].Signature() != (v.status, v.passed, v.total))
  }

  lemma AfterAppends(st: Store, v: Verdict, k: nat, at: int)
    requires k <= st.lastCodeVersion
    ensures var next, o := After(st, v, k, at), Seen(st, v, k, at);
            && Results(next.events) == Results(st.events) + [o]
            && Scored(next.events) == Scored(st.events) + (if v.status in SCORED then [o] else [])
            && next.snapshots == st.snapshots
  {
    var next, o := After(st, v, k, at), Seen(st, v, k, at);
    assert next.events[..|st.events|] == st.events;
    assert (Results(st.events) + [o])[..|Results(st.events)|] == Results(st.events);
  }

  lemma AfterKnown(st: Store, v: Verdict, k: nat, at: int)
    requires GradesKnown(st) && 1 <= k <= st.lastCodeVersion
    ensures GradesKnown(After(st, v, k, at))
  {
    RecordResultKeeps(st, v, k, at);
  }

  /** Earlier results have smaller row numbers. */
  lemma EarlierResult(st: Store, r: Observation)
    requires NumberedRows(st) && r in Results(st.events)
    ensures r.seqNo <= st.lastEventSeq
  {
    var i := RowOfResult(st.events, r);
  }

  lemma RunGoesOn(scored: seq<Observation>, o: Observation)
    requires scored != [] && scored[|scored| - 1].Signature() == o.Signature()
    ensures FirstOfRun(scored + [o]) == FirstOfRun(scored)
  {
    var keys := Signatures(scored);
    assert (scored + [o])[..|scored|] == scored;
    assert Signatures(scored + [o]) == keys + [o.Signature()];
    assert keys[|keys| - 1] == o.Signature();
    assert (keys + [o.Signature()])[..|keys|] == keys;
  }

  lemma RunStarts(scored: seq<Observation>, o: Observation)
    requires scored == [] || scored[|scored| - 1].Signature() != o.Signature()
    ensures FirstOfRun(scored + [o]) == o
  {
    var keys := Signatures(scored);
    assert (scored + [o])[..|scored|] == scored;
    assert Signatures(scored + [o]) == keys + [o.Signature()];
    assert keys != [] ==> keys[|keys| - 1] != o.Signature();
  }

  /** A continued streak keeps its first result and gains the new one, an error as well as a score. */
  lemma StreakGoesOn(st: Store, v: Verdict, k: nat, at: int)
    requires Valid(st) && k <= st.lastCodeVersion
    requires Scored(st.events) != [] && !StartsStreak(Scored(st.events), v)
    ensures var next := After(st, v, k, at);
            && Scored(next.events) != [] && StreakFirst(next.events) == StreakFirst(st.events)
            && forall r :: InStreak(next.events, r) <==> InStreak(st.events, r) || r == Seen(st, v, k, at)
  {
    var next, o := After(st, v, k, at), Seen(st, v, k, at);
    AfterAppends(st, v, k, at);
    if v.status in SCORED {
      RunGoesOn(Scored(st.events), o);
    }
    var first := StreakFirst(st.events);
    OnlyExactly(Results(st.events), SCORED, first);
    EarlierResult(st, first);
    assert forall r :: r in Results(next.events) <==> r in Results(st.events) || r == o;
  }

  /** A new streak consists of its first result alone. */
  lemma StreakBegins(st: Store, v: Verdict, k: nat, at: int)
    requires Valid(st) && k <= st.lastCodeVersion && StartsStreak(Scored(st.events), v)
    ensures var next, o := After(st, v, k, at), Seen(st, v, k, at);
            && Scored(next.events) != [] && StreakFirst(next.events) == o
            && forall r :: InStreak(next.events, r) <==> r == o
  {
    var next, o := After(st, v, k, at), Seen(st, v, k, at);
    AfterAppends(st, v, k, at);
    RunStarts(Scored(st.events), o);
    forall r
      ensures InStreak(next.events, r) <==> r == o
    {
      assert r in Results(next.events) <==> r in Results(st.events) || r == o;
      if r in Results(st.events) {
        EarlierResult(st, r);
      }
    }
  }

  // ------------------------------------------------------------------ what one verdict does to the rule

  /**
   * A verdict that continues the streak, be it the same score or an error of the student or the judge:
   * "no edits" stays as it was, and an unedited streak still grades one version exactly if the newest
   * one was graded, and one code exactly if the graded code is the newest code.
   */
  lemma ContinuingVerdict(st: Store, v: Verdict, k: nat, at: int)
    requires GradesKnown(st) && 1 <= k <= st.lastCodeVersion
    requires Scored(st.events) != [] && !StartsStreak(Scored(st.events), v)
    ensures var next := After(st, v, k, at);
            && Scored(next.events) != []
            && (NoEditsInStreak(next) <==> NoEditsInStreak(st))
            && (NoEditsInStreak(st) ==>
                  (StreakGradesOneVersion(next) <==> StreakGradesOneVersion(st) && k == st.lastCodeVersion))
            && (StreakGradesNewestCode(next) <==> StreakGradesNewestCode(st) && HoldsNewestCode(st.snapshots, k))
  {
    AfterAppends(st, v, k, at);
    AfterKnown(st, v, k, at);
    StreakGoesOn(st, v, k, at);
    NoEditsIffNewestFirst(st);
    NoEditsIffNewestFirst(After(st, v, k, at));
    VersionsCompared(st, v, k, at);
    CodesCompared(st, v, k, at);
  }

  lemma VersionsCompared(st: Store, v: Verdict, k: nat, at: int)
    requires Valid(st) && k <= st.lastCodeVersion
    requires Scored(st.events) != [] && !StartsStreak(Scored(st.events), v)
    ensures var next := After(st, v, k, at);
            Scored(next.events) != [] &&
            (StreakGradesOneVersion(next) <==> StreakGradesOneVersion(st) && k == StreakFirst(st.events).codeVersion)
  {
    StreakGoesOn(st, v, k, at);
    var next := After(st, v, k, at);
    if StreakGradesOneVersion(next) {
      assert InStreak(next.events, Seen(st, v, k, at));
      assert forall r :: InStreak(st.events, r) ==> InStreak(next.events, r);
    }
  }

  lemma CodesCompared(st: Store, v: Verdict, k: nat, at: int)
    requires Valid(st) && 1 <= k <= st.lastCodeVersion
    requires Scored(st.events) != [] && !StartsStreak(Scored(st.events), v)
    ensures var next := After(st, v, k, at);
            Scored(next.events) != [] &&
            (StreakGradesNewestCode(next) <==> StreakGradesNewestCode(st) && HoldsNewestCode(st.snapshots, k))
  {
    StreakGoesOn(st, v, k, at);
    var next := After(st, v, k, at);
    assert next.snapshots == st.snapshots;
    if StreakGradesNewestCode(next) {
      assert InStreak(next.events, Seen(st, v, k, at));
      assert forall r :: InStreak(st.events, r) ==> InStreak(next.events, r);
    }
  }

  /** A verdict that opens a streak: no edits exactly if it graded the newest version, and then the rule is right. */
  lemma OpeningVerdict(st: Store, v: Verdict, k: nat, at: int)
    requires GradesKnown(st) && 1 <= k <= st.lastCodeVersion && StartsStreak(Scored(st.events), v)
    ensures var next := After(st, v, k, at);
            && Scored(next.events) != []
            && (NoEditsInStreak(next) <==> k == st.lastCodeVersion)
            && StreakGradesOneVersion(next)
            && (StreakGradesNewestCode(next) <==> HoldsNewestCode(st.snapshots, k))
  {
    var next := After(st, v, k, at);
    AfterAppends(st, v, k, at);
    AfterKnown(st, v, k, at);
    StreakBegins(st, v, k, at);
    NoEditsIffNewestFirst(next);
    assert InStreak(next.events, Seen(st, v, k, at));
  }

  /** An error before any score: there is no streak yet. */
  lemma UnscoredVerdict(st: Store, v: Verdict, k: nat, at: int)
    requires k <= st.lastCodeVersion && Scored(st.events) == [] && v.status !in SCORED
    ensures Scored(After(st, v, k, at).events) == []
  {
    AfterAppends(st, v, k, at);
  }

  // ------------------------------------------------------------------ which requests keep the rule right

  /** The chain has version `k`; a request for any other version is refused. */
  predicate OnChain(st: Store, k: int) {
    1 <= k <= st.lastCodeVersion
  }

  /** Grading version `k` cannot deceive the rule: it is refused, or the newest, or no unedited streak is running. */
  predicate SafeVersion(st: Store, k: int) {
    !OnChain(st, k) || k == st.lastCodeVersion || Scored(st.events) == [] || !NoEditsInStreak(st)
  }

  /** The same for code: an older version with the newest code is harmless too. */
  predicate SafeVersionForCode(st: Store, k: int) {
    !OnChain(st, k) || HoldsNewestCode(st.snapshots, k) || Scored(st.events) == [] || !NoEditsInStreak(st)
  }

  lemma SafeVerdictKeeps(st: Store, v: Verdict, k: nat, at: int)
    requires GradesKnown(st) && RuleHolds(st) && SafeVersion(st, k) && 1 <= k <= st.lastCodeVersion
    ensures RuleHolds(After(st, v, k, at))
  {
    if StartsStreak(Scored(st.events), v) {
      OpeningVerdict(st, v, k, at);
    } else if Scored(st.events) == [] {
      UnscoredVerdict(st, v, k, at);
    } else {
      ContinuingVerdict(st, v, k, at);
    }
  }

  lemma NewestHoldsNewest(st: Store)
    requires Valid(st)
    ensures HoldsNewestCode(st.snapshots, st.lastCodeVersion)
  {
  }

  lemma SafeVerdictKeepsCode(st: Store, v: Verdict, k: nat, at: int)
    requires GradesKnown(st) && RuleHoldsForCode(st) && SafeVersionForCode(st, k) && 1 <= k <= st.lastCodeVersion
    ensures RuleHoldsForCode(After(st, v, k, at))
  {
    if StartsStreak(Scored(st.events), v) {
      OpeningVerdict(st, v, k, at);
      NewestHoldsNewest(st);
    } else if Scored(st.events) == [] {
      UnscoredVerdict(st, v, k, at);
    } else {
      ContinuingVerdict(st, v, k, at);
      if NoEditsInStreak(After(st, v, k, at)) {
        assert StreakGradesNewestCode(st) && HoldsNewestCode(st.snapshots, k);
      }
    }
  }

  /** The verdict that repeats the last score. */
  function SameAgain(scored: seq<Observation>, mode: Mode): Verdict
    requires scored != []
  {
    var last := scored[|scored| - 1];
    Verdict(mode, last.status, last.passed, last.total)
  }

  /**
   * Exactly which versions may be graded: from a state where the rule is right, it stays right whatever
   * the judge says if and only if the version is the newest one or no unedited streak is running.
   */
  lemma VersionKeepsRuleIff(st: Store, k: nat, at: int)
    requires GradesKnown(st) && RuleHolds(st) && 1 <= k <= st.lastCodeVersion
    ensures (forall v :: RuleHolds(After(st, v, k, at))) <==> SafeVersion(st, k)
  {
    if SafeVersion(st, k) {
      forall v
        ensures RuleHolds(After(st, v, k, at))
      {
        SafeVerdictKeeps(st, v, k, at);
      }
    } else {
      var v := SameAgain(Scored(st.events), RunMode);
      ContinuingVerdict(st, v, k, at);
      assert !RuleHolds(After(st, v, k, at));
    }
  }

  /** And for the code: if and only if the graded code is the newest code or no unedited streak is running. */
  lemma CodeKeepsRuleIff(st: Store, k: nat, at: int)
    requires GradesKnown(st) && RuleHoldsForCode(st) && 1 <= k <= st.lastCodeVersion
    ensures (forall v :: RuleHoldsForCode(After(st, v, k, at))) <==> SafeVersionForCode(st, k)
  {
    if SafeVersionForCode(st, k) {
      forall v
        ensures RuleHoldsForCode(After(st, v, k, at))
      {
        SafeVerdictKeepsCode(st, v, k, at);
      }
    } else {
      var v := SameAgain(Scored(st.events), RunMode);
      ContinuingVerdict(st, v, k, at);
      assert !RuleHoldsForCode(After(st, v, k, at));
    }
  }

  // ------------------------------------------------------------------ whole requests and runs

  /** The store grew without a result: the streak is the same, and edits can only have been added. */
  lemma NoResultKeepsRule(st: Store, next: Store)
    requires GradesKnown(st) && Valid(next) && Extends(st, next)
    requires forall j :: |st.events| <= j < |next.events| ==> next.events[j].kind != TestResult
    ensures GradesKnown(next) && Results(next.events) == Results(st.events)
    ensures RuleHolds(st) ==> RuleHolds(next)
    ensures RuleHoldsForCode(st) ==> RuleHoldsForCode(next)
  {
    SameResults(st.events, next.events);
    if Scored(st.events) != [] {
      NoEditsIffNewestFirst(st);
      NoEditsIffNewestFirst(next);
      assert forall r :: InStreak(next.events, r) <==> InStreak(st.events, r);
      assert NoEditsInStreak(next) ==> next.snapshots == st.snapshots;
    }
  }

  lemma {:induction false} SameResults(before: seq<Event>, after: seq<Event>)
    requires before <= after
    requires forall j :: |before| <= j < |after| ==> after[j].kind != TestResult
    ensures Results(after) == Results(before)
    decreases |after|
  {
    if |after| == |before| {
      assert after == before;
    } else {
      SameResults(before, after[..|after| - 1]);
    }
  }

  /** A request is safe unless it names an older version while an unedited streak is running. */
  predicate SafeRequest(st: Store, step: Step) {
    step.Execution? && step.grading.GradeVersion? ==> SafeVersion(st, step.grading.version)
  }

  /** And safe for code unless it names a version with other code than the newest. */
  predicate SafeRequestForCode(st: Store, step: Step) {
    step.Execution? && step.grading.GradeVersion? ==> SafeVersionForCode(st, step.grading.version)
  }

  lemma EvaluationKeepsRule(monitor: Evaluator, st: Store, now: int)
    requires GradesKnown(st)
    ensures var next := EvaluateAndRecord(monitor, st, now);
            && GradesKnown(next)
            && (RuleHolds(next) <==> RuleHolds(st))
            && (RuleHoldsForCode(next) <==> RuleHoldsForCode(st))
  {
    var state := monitor(st.startedAt, st.events, st.snapshots, now);
    RecordStateKeeps(st, state, now);
    var next := RecordState(st, state, now);
    NoResultKeepsRule(st, next);
    if Scored(st.events) != [] {
      NoEditsIffNewestFirst(st);
      NoEditsIffNewestFirst(next);
      assert forall r :: InStreak(next.events, r) <==> InStreak(st.events, r);
    }
  }

  lemma VerdictKeepsRule(monitor: Evaluator, st: Store, v: Verdict, k: nat, at: int)
    requires GradesKnown(st) && OnChain(st, k)
    ensures var next := RecordAndEvaluate(monitor, st, v, k, at);
            && GradesKnown(next)
            && (RuleHolds(st) && SafeVersion(st, k) ==> RuleHolds(next))
            && (RuleHoldsForCode(st) && SafeVersionForCode(st, k) ==> RuleHoldsForCode(next))
  {
    AfterKnown(st, v, k, at);
    if RuleHolds(st) && SafeVersion(st, k) {
      SafeVerdictKeeps(st, v, k, at);
    }
    if RuleHoldsForCode(st) && SafeVersionForCode(st, k) {
      SafeVerdictKeepsCode(st, v, k, at);
    }
    EvaluationKeepsRule(monitor, After(st, v, k, at), at);
  }

  /**
   * What is graded without naming a version is the newest snapshot; a named version is graded on an
   * unchanged store.
   */
  lemma GradedIsSafe(differ: Differ, st: Store, grading: Grading, at: int)
    requires Valid(st) && Grade(differ, st, grading, at).Ok?
    ensures var mid, s := Grade(differ, st, grading, at).value.0, Grade(differ, st, grading, at).value.1;
            && OnChain(mid, s.version)
            && (if grading.GradeVersion? then mid == st && s.version == grading.version
                else SafeVersion(mid, s.version) && SafeVersionForCode(mid, s.version))
  {
    GradeKeeps(differ, st, grading, at);
    var mid, s := Grade(differ, st, grading, at).value.0, Grade(differ, st, grading, at).value.1;
    NewestHoldsNewest(mid);
  }

  lemma ExecutionKeepsRule(
    monitor: Evaluator, differ: Differ, st: Store, grading: Grading, verdict: Option<Verdict>, at: int)
    requires GradesKnown(st)
    ensures var next := Execute(monitor, differ, st, grading, verdict, at);
            && GradesKnown(next)
            && (RuleHolds(st) && SafeRequest(st, Execution(grading, verdict, at)) ==> RuleHolds(next))
            && (RuleHoldsForCode(st) && SafeRequestForCode(st, Execution(grading, verdict, at)) ==>
                RuleHoldsForCode(next))
  {
    var graded := Grade(differ, st, grading, at);
    if graded.Ok? {
      GradeKeeps(differ, st, grading, at);
      GradedIsSafe(differ, st, grading, at);
      var mid, s := graded.value.0, graded.value.1;
      NoResultKeepsRule(st, mid);
      if verdict.Some? {
        VerdictKeepsRule(monitor, mid, verdict.value, s.version, at);
      }
    }
  }

  lemma RequestKeepsRule(monitor: Evaluator, differ: Differ, st: Store, step: Step)
    requires GradesKnown(st)
    ensures var next := Apply(monitor, differ, st, step);
            && GradesKnown(next)
            && (RuleHolds(st) && SafeRequest(st, step) ==> RuleHolds(next))
            && (RuleHoldsForCode(st) && SafeRequestForCode(st, step) ==> RuleHoldsForCode(next))
  {
    match step
    case Batch(items, at) =>
      if Ingest(differ, st, items, at).Ok? {
        BatchAddsNoResult(differ, st, items, at);
        NoResultKeepsRule(st, Ingest(differ, st, items, at).value);
      }
    case Execution(grading, verdict, at) => ExecutionKeepsRule(monitor, differ, st, grading, verdict, at);
    case Heartbeat(at) => EvaluationKeepsRule(monitor, st, at);
    case Intervention(at) => NoResultKeepsRule(st, Intervene(st, at));
    case Closing(at) => NoResultKeepsRule(st, Finish(st, at));
  }

  /** Each request of the run is safe in the state it meets. */
  predicate SafeRun(monitor: Evaluator, differ: Differ, st: Store, steps: seq<Step>) {
    steps == [] ||
    var before := steps[..|steps| - 1];
    SafeRun(monitor, differ, st, before) && SafeRequest(RunSteps(monitor, differ, st, before), steps[|steps| - 1])
  }

  predicate SafeRunForCode(monitor: Evaluator, differ: Differ, st: Store, steps: seq<Step>) {
    steps == [] ||
    var before := steps[..|steps| - 1];
    && SafeRunForCode(monitor, differ, st, before)
    && SafeRequestForCode(RunSteps(monitor, differ, st, before), steps[|steps| - 1])
  }

  lemma OpenHasNoResultRow(differ: Differ, template: string, at: int)
    ensures var events := OpenSession(differ, template, at).events;
            forall i :: 0 <= i < |events| ==> events[i].kind != TestResult
  {
  }

  lemma OpenHasNoResults(differ: Differ, template: string, at: int)
    ensures var st := OpenSession(differ, template, at);
            GradesKnown(st) && Scored(st.events) == []
  {
    OpenValid(differ, template, at);
    OpenHasNoResultRow(differ, template, at);
    SameResults([], OpenSession(differ, template, at).events);
  }

  lemma {:induction false} SafeRunKeepsRule(
    monitor: Evaluator, differ: Differ, template: string, at: int, steps: seq<Step>)
    requires SafeRun(monitor, differ, OpenSession(differ, template, at), steps)
    ensures var st := Session(monitor, differ, template, at, steps);
            GradesKnown(st) && RuleHolds(st)
  {
    if steps == [] {
      OpenHasNoResults(differ, template, at);
    } else {
      var before := steps[..|steps| - 1];
      SafeRunKeepsRule(monitor, differ, template, at, before);
      RequestKeepsRule(monitor, differ, Session(monitor, differ, template, at, before), steps[|steps| - 1]);
    }
  }

  /** In every run whose requests are safe for code, "no edits in the streak" means one code in the streak. */
  lemma {:induction false} SafeRunForCodeKeepsRule(
    monitor: Evaluator, differ: Differ, template: string, at: int, steps: seq<Step>)
    requires SafeRunForCode(monitor, differ, OpenSession(differ, template, at), steps)
    ensures var st := Session(monitor, differ, template, at, steps);
            GradesKnown(st) && RuleHoldsForCode(st)
  {
    if steps == [] {
      OpenHasNoResults(differ, template, at);
    } else {
      var before := steps[..|steps| - 1];
      SafeRunForCodeKeepsRule(monitor, differ, template, at, before);
      RequestKeepsRule(monitor, differ, Session(monitor, differ, template, at, before), steps[|steps| - 1]);
    }
  }

  /** A run or submit of version `k`: refused if the chain does not have it, else its verdict is all the rule sees. */
  lemma VersionRequest(monitor: Evaluator, differ: Differ, st: Store, v: Verdict, k: int, at: int)
    requires GradesKnown(st)
    ensures var next := Apply(monitor, differ, st, Execution(GradeVersion(k), Some(v), at));
            if OnChain(st, k) then
              && (RuleHolds(next) <==> RuleHolds(After(st, v, k, at)))
              && (RuleHoldsForCode(next) <==> RuleHoldsForCode(After(st, v, k, at)))
            else next == st
  {
    SnapshotAtFinds(st, k);
    if OnChain(st, k) {
      AfterKnown(st, v, k, at);
      EvaluationKeepsRule(monitor, After(st, v, k, at), at);
    }
  }

  /** From a state where the rule is right, the request keeps it right for every verdict exactly if it is safe. */
  lemma RequestKeepsRuleIff(monitor: Evaluator, differ: Differ, st: Store, k: int, now: int)
    requires GradesKnown(st) && RuleHolds(st)
    ensures (forall v :: RuleHolds(Apply(monitor, differ, st, Execution(GradeVersion(k), Some(v), now))))
       <==> SafeVersion(st, k)
  {
    forall v
      ensures RuleHolds(Apply(monitor, differ, st, Execution(GradeVersion(k), Some(v), now)))
         <==> !OnChain(st, k) || RuleHolds(After(st, v, k, now))
    {
      VersionRequest(monitor, differ, st, v, k, now);
    }
    if OnChain(st, k) {
      VersionKeepsRuleIff(st, k, now);
    }
  }

  lemma RequestKeepsCodeIff(monitor: Evaluator, differ: Differ, st: Store, k: int, now: int)
    requires GradesKnown(st) && RuleHoldsForCode(st)
    ensures (forall v :: RuleHoldsForCode(Apply(monitor, differ, st, Execution(GradeVersion(k), Some(v), now))))
       <==> SafeVersionForCode(st, k)
  {
    forall v
      ensures RuleHoldsForCode(Apply(monitor, differ, st, Execution(GradeVersion(k), Some(v), now)))
         <==> !OnChain(st, k) || RuleHoldsForCode(After(st, v, k, now))
    {
      VersionRequest(monitor, differ, st, v, k, now);
    }
    if OnChain(st, k) {
      CodeKeepsRuleIff(st, k, now);
    }
  }

  /**
   * After every run of safe requests, a further run or submit of version `k`, whatever the judge says,
   * leaves the rule right if and only if that request is safe itself.
   */
  lemma RequestIsSafeIff(
    monitor: Evaluator, differ: Differ, template: string, at: int, steps: seq<Step>, k: int, now: int)
    requires SafeRun(monitor, differ, OpenSession(differ, template, at), steps)
    ensures var st := Session(monitor, differ, template, at, steps);
            (forall v :: RuleHolds(Apply(monitor, differ, st, Execution(GradeVersion(k), Some(v), now))))
            <==> SafeRequest(st, Execution(GradeVersion(k), None, now))
  {
    SafeRunKeepsRule(monitor, differ, template, at, steps);
    RequestKeepsRuleIff(monitor, differ, Session(monitor, differ, template, at, steps), k, now);
  }

  /**
   * The same for the code: after every run of requests that are safe for code, a further run or submit
   * of version `k` leaves the rule right about code if and only if it is safe for code itself.
   */
  lemma CodeIsSafeIff(
    monitor: Evaluator, differ: Differ, template: string, at: int, steps: seq<Step>, k: int, now: int)
    requires SafeRunForCode(monitor, differ, OpenSession(differ, template, at), steps)
    ensures var st := Session(monitor, differ, template, at, steps);
            (forall v :: RuleHoldsForCode(Apply(monitor, differ, st, Execution(GradeVersion(k), Some(v), now))))
            <==> SafeRequestForCode(st, Execution(GradeVersion(k), None, now))
  {
    SafeRunForCodeKeepsRule(monitor, differ, template, at, steps);
    RequestKeepsCodeIff(monitor, differ, Session(monitor, differ, template, at, steps), k, now);
  }

  /** Safe runs are safe for code: the newest version holds the newest code. */
  lemma {:induction false} SafeRunIsSafeForCode(
    monitor: Evaluator, differ: Differ, template: string, at: int, steps: seq<Step>)
    requires SafeRun(monitor, differ, OpenSession(differ, template, at), steps)
    ensures SafeRunForCode(monitor, differ, OpenSession(differ, template, at), steps)
  {
    if steps != [] {
      var before := steps[..|steps| - 1];
      SafeRunIsSafeForCode(monitor, differ, template, at, before);
      SafeRunKeepsRule(monitor, differ, template, at, before);
      NewestHoldsNewest(Session(monitor, differ, template, at, before));
    }
  }
}
