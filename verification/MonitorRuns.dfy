/**
 * Whole runs of one session: client batches, runs and submits, heartbeats, interventions.
 * The central invariant is replay: every recorded trigger is what the monitor computes from the
 * rows before it. The counting bounds follow from replay and the counting laws of logs.
 */
module MonitorRuns {
  import opened Prelude
  import opened TraceTypes
  import opened FeatureExtraction
  import opened Monitor
  import opened TraceStore
  import opened TriggerBounds

  /** One request, executed as one atomic step. */
  datatype Step =
    | Batch(items: seq<Item>, at: int)
    | Execution(grading: Grading, verdict: Option<Verdict>, at: int)
    | Heartbeat(at: int)
    | Intervention(at: int)
    | Closing(at: int)

  function Apply(monitor: Evaluator, differ: Differ, st: Store, step: Step): Store {
    match step
    case Batch(items, at) =>
      var r := Ingest(differ, st, items, at);
      if r.Ok? then r.value else st
    case Execution(grading, verdict, at) => Execute(monitor, differ, st, grading, verdict, at)
    case Heartbeat(at) => EvaluateAndRecord(monitor, st, at)
    case Intervention(at) => Intervene(st, at)
    case Closing(at) => Finish(st, at)
  }

  function RunSteps(monitor: Evaluator, differ: Differ, st: Store, steps: seq<Step>): Store {
    if steps == [] then st
    else Apply(monitor, differ, RunSteps(monitor, differ, st, steps[..|steps| - 1]), steps[|steps| - 1])
  }

  /** Server time after the steps; an intervention carries the time of the request that asked for it. */
  function EndClock(start: int, steps: seq<Step>): int {
    if steps == [] then start
    else
      var last := steps[|steps| - 1];
      if last.Intervention? then EndClock(start, steps[..|steps| - 1]) else last.at
  }

  /** The server clock does not run backwards. */
  predicate Clocked(start: int, steps: seq<Step>) {
    steps == [] ||
    var before := steps[..|steps| - 1];
    var last := steps[|steps| - 1];
    Clocked(start, before) && (last.Intervention? || EndClock(start, before) <= last.at)
  }

  // ------------------------------------------------------------------ replay

  /** Snapshots a moment could see: version at most `v`. */
  function UpTo(snapshots: seq<Snapshot>, v: nat): seq<Snapshot> {
    if snapshots == [] then []
    else
      var last := snapshots[|snapshots| - 1];
      var rest := UpTo(snapshots[..|snapshots| - 1], v);
      if last.version <= v then rest + [last] else rest
  }

  lemma {:induction false} UpToVersion(snapshots: seq<Snapshot>, v: nat)
    requires forall i :: 0 <= i < |snapshots| ==> snapshots[i].version == i + 1
    requires v <= |snapshots|
    ensures UpTo(snapshots, v) == snapshots[..v]
  {
    if v == |snapshots| {
      UpToEverything(snapshots, v);
      assert snapshots[..v] == snapshots;
    } else {
      var init := snapshots[..|snapshots| - 1];
      UpToVersion(init, v);
      assert init[..v] == snapshots[..v];
    }
  }

  lemma {:induction false} UpToEverything(snapshots: seq<Snapshot>, v: nat)
    requires forall i :: 0 <= i < |snapshots| ==> snapshots[i].version <= v
    ensures UpTo(snapshots, v) == snapshots
  {
    if snapshots != [] {
      UpToEverything(snapshots[..|snapshots| - 1], v);
    }
  }

  predicate RecordedAs(e: Event, state: ProcessState) {
    && state.trigger.Some?
    && e.payload == TriggerPayload(state.trigger.value, state.status, FeaturesToDict(state.features))
  }

  /** Trigger row `j` is what the monitor computes from the rows before it, at its own timestamp. */
  ghost predicate Replayed(monitor: Evaluator, st: Store, j: nat)
    requires j < |st.events|
  {
    var e := st.events[j];
    && e.codeVersion.Some?
    && e.codeVersion.value <= st.lastCodeVersion
    && RecordedAs(e, monitor(st.startedAt, st.events[..j], UpTo(st.snapshots, e.codeVersion.value), e.at))
  }

  ghost predicate Replays(monitor: Evaluator, st: Store) {
    forall j: nat :: j < |st.events| && IsTrigger(st.events[j]) ==> Replayed(monitor, st, j)
  }

  /** Trigger timestamps are ordered and none lies in the future. */
  ghost predicate TriggersTimed(st: Store, clock: int) {
    && (forall j :: 0 <= j < |st.events| && IsTrigger(st.events[j]) ==> st.events[j].at <= clock)
    && (forall i, j :: 0 <= i < j < |st.events| && IsTrigger(st.events[i]) && IsTrigger(st.events[j]) ==>
          st.events[i].at <= st.events[j].at)
  }

  /** Rows and snapshots were appended, no trigger among them. */
  ghost predicate Quiet(st: Store, next: Store) {
    && Valid(next) && Extends(st, next)
    && forall j :: |st.events| <= j < |next.events| ==> !IsTrigger(next.events[j])
  }

  /** A stored batch adds rows of client kinds, written by the client. */
  lemma IngestedRows(differ: Differ, st: Store, loaded: nat, kept: seq<Item>, at: int, next: Store)
    requires Valid(st) && IngestAll(differ, st, loaded, kept, at) == Ok(next)
    ensures Valid(next) && Extends(st, next)
    ensures forall j :: |st.events| <= j < |next.events| ==>
              next.events[j].kind in ALL_CLIENT_TYPES && next.events[j].source == Client
  {
    IngestAllKeeps(differ, st, loaded, kept, at);
    IngestedKinds(differ, st, loaded, kept, at);
    forall j | |st.events| <= j < |next.events|
      ensures next.events[j].kind in ALL_CLIENT_TYPES && next.events[j].source == Client
    {
      var i := j - |st.events|;
      assert RowOf(next.events[|st.events| + i], kept[i], at);
    }
  }

  lemma BatchIsQuiet(differ: Differ, st: Store, items: seq<Item>, at: int)
    requires Valid(st) && Ingest(differ, st, items, at).Ok?
    ensures Quiet(st, Ingest(differ, st, items, at).value)
  {
    var next := Ingest(differ, st, items, at).value;
    IngestedRows(differ, st, st.lastCodeVersion, Fresh(KnownIds(st.events), items), at, next);
  }

  lemma RecordingIsQuiet(differ: Differ, st: Store, grading: Grading, v: Verdict, at: int)
    requires Valid(st) && Grade(differ, st, grading, at).Ok?
    ensures var (mid, s) := Grade(differ, st, grading, at).value;
            var r := RecordResult(mid, v, Some(s.version), Server, at);
            Quiet(st, mid) && r.Ok? && Quiet(st, r.value)
  {
    GradeKeeps(differ, st, grading, at);
    var (mid, s) := Grade(differ, st, grading, at).value;
    RecordResultKeeps(mid, v, s.version, at);
    ExtendsTrans(st, mid, RecordResult(mid, v, Some(s.version), Server, at).value);
  }

  /**
   * Every request extends the log without a trigger and then evaluates it at most once, at the time of
   * the request. Whatever runs keep follows from these two moves.
   */
  lemma StepShape(monitor: Evaluator, differ: Differ, st: Store, step: Step) returns (mid: Store)
    requires Valid(st)
    ensures Quiet(st, mid)
    ensures || Apply(monitor, differ, st, step) == mid
            || (!step.Intervention? && Apply(monitor, differ, st, step) == EvaluateAndRecord(monitor, mid, step.at))
  {
    mid := st;
    match step
    case Batch(items, at) =>
      if Ingest(differ, st, items, at).Ok? {
        BatchIsQuiet(differ, st, items, at);
        mid := Ingest(differ, st, items, at).value;
      }
    case Execution(grading, verdict, at) =>
      var graded := Grade(differ, st, grading, at);
      if graded.Ok? {
        if verdict.Some? {
          RecordingIsQuiet(differ, st, grading, verdict.value, at);
          mid := RecordResult(graded.value.0, verdict.value, Some(graded.value.1.version), Server, at).value;
        } else {
          GradeKeeps(differ, st, grading, at);
          mid := graded.value.0;
        }
      }
    case Heartbeat(_) =>
    case Intervention(at) => mid := Intervene(st, at);
    case Closing(at) => mid := Finish(st, at);
  }

  lemma ReplayedLater(monitor: Evaluator, st: Store, next: Store, j: nat)
    requires Valid(st) && Valid(next) && Extends(st, next)
    requires j < |st.events| && Replayed(monitor, st, j)
    ensures Replayed(monitor, next, j)
  {
    var v := st.events[j].codeVersion.value;
    UpToVersion(st.snapshots, v);
    UpToVersion(next.snapshots, v);
    assert UpTo(next.snapshots, v) == UpTo(st.snapshots, v);
    assert next.events[..j] == st.events[..j];
  }

  lemma QuietReplays(monitor: Evaluator, st: Store, next: Store)
    requires Valid(st) && Replays(monitor, st) && Quiet(st, next)
    ensures Replays(monitor, next)
  {
    forall j: nat | j < |next.events| && IsTrigger(next.events[j])
      ensures Replayed(monitor, next, j)
    {
      ReplayedLater(monitor, st, next, j);
    }
  }

  /** The verdict just recorded replays, and so do the older ones. */
  lemma EvaluationReplays(monitor: Evaluator, st: Store, now: int)
    requires Valid(st) && Replays(monitor, st)
    ensures var next := EvaluateAndRecord(monitor, st, now);
            Valid(next) && Extends(st, next) && Replays(monitor, next)
  {
    var state := monitor(st.startedAt, st.events, st.snapshots, now);
    var next := RecordState(st, state, now);
    RecordStateKeeps(st, state, now);
    if state.trigger.Some? {
      forall j: nat | j < |next.events| && IsTrigger(next.events[j])
        ensures Replayed(monitor, next, j)
      {
        if j < |st.events| {
          ReplayedLater(monitor, st, next, j);
        } else {
          UpToVersion(st.snapshots, st.lastCodeVersion);
          assert st.snapshots[..st.lastCodeVersion] == st.snapshots;
          assert next.events[..j] == st.events;
        }
      }
    }
  }

  lemma StepReplays(monitor: Evaluator, differ: Differ, st: Store, step: Step)
    requires Valid(st) && Replays(monitor, st)
    ensures var next := Apply(monitor, differ, st, step);
            Valid(next) && Extends(st, next) && Replays(monitor, next)
  {
    var mid := StepShape(monitor, differ, st, step);
    QuietReplays(monitor, st, mid);
    EvaluationReplays(monitor, mid, step.at);
    ExtendsTrans(st, mid, EvaluateAndRecord(monitor, mid, step.at));
  }

  lemma {:induction false} RunReplays(monitor: Evaluator, differ: Differ, st: Store, steps: seq<Step>)
    requires Valid(st) && Replays(monitor, st)
    ensures var end := RunSteps(monitor, differ, st, steps);
            Valid(end) && Replays(monitor, end)
  {
    if steps != [] {
      RunReplays(monitor, differ, st, steps[..|steps| - 1]);
      StepReplays(monitor, differ, RunSteps(monitor, differ, st, steps[..|steps| - 1]), steps[|steps| - 1]);
    }
  }

  lemma QuietTimed(st: Store, next: Store, clock: int, later: int)
    requires TriggersTimed(st, clock) && clock <= later && Quiet(st, next)
    ensures TriggersTimed(next, later)
  {
  }

  lemma EvaluationTimed(monitor: Evaluator, st: Store, clock: int, now: int)
    requires Valid(st) && TriggersTimed(st, clock) && clock <= now
    ensures TriggersTimed(EvaluateAndRecord(monitor, st, now), now)
  {
    RecordStateKeeps(st, monitor(st.startedAt, st.events, st.snapshots, now), now);
  }

  lemma StepTimed(monitor: Evaluator, differ: Differ, st: Store, step: Step, clock: int, later: int)
    requires Valid(st) && TriggersTimed(st, clock) && clock <= later
    requires step.Intervention? || step.at == later
    ensures TriggersTimed(Apply(monitor, differ, st, step), later)
  {
    var mid := StepShape(monitor, differ, st, step);
    QuietTimed(st, mid, clock, later);
    if !step.Intervention? {
      EvaluationTimed(monitor, mid, later, later);
    }
  }

  /** On a clock that does not run backwards the trigger rows are ordered by time. */
  lemma {:induction false} RunTimed(monitor: Evaluator, differ: Differ, st: Store, start: int, steps: seq<Step>)
    requires Valid(st) && Replays(monitor, st) && TriggersTimed(st, start) && Clocked(start, steps)
    ensures start <= EndClock(start, steps)
    ensures TriggersTimed(RunSteps(monitor, differ, st, steps), EndClock(start, steps))
  {
    if steps != [] {
      var before := steps[..|steps| - 1];
      RunTimed(monitor, differ, st, start, before);
      RunReplays(monitor, differ, st, before);
      StepTimed(monitor, differ, RunSteps(monitor, differ, st, before), steps[|steps| - 1],
                EndClock(start, before), EndClock(start, steps));
    }
  }

  predicate IsVerdictRow(e: Event, v: Verdict, version: nat, at: int) {
    && e.kind == TestResult && e.codeVersion == Some(version) && e.at == at && e.clientId.None?
    && e.payload == ResultPayload(v.mode, Some(v.status), v.passed, v.total)
  }

  /**
   * A run or submit writes the verdict on the version it graded, once, and after it at most one
   * trigger: the evaluation sees the new result.
   */
  lemma ExecutionRecordsThenEvaluates(
    monitor: Evaluator, differ: Differ, st: Store, grading: Grading, v: Verdict, at: int)
    requires Valid(st) && Grade(differ, st, grading, at).Ok?
    ensures var (mid, s) := Grade(differ, st, grading, at).value;
            var next := Execute(monitor, differ, st, grading, Some(v), at);
            var n := |st.events|;
            && n + 1 <= |next.events| <= n + 2 && next.events[..n] == st.events
            && IsVerdictRow(next.events[n], v, s.version, at)
            && (|next.events| == n + 2
                <==> monitor(st.startedAt, next.events[..n + 1], mid.snapshots, at).trigger.Some?)
            && (|next.events| == n + 2 ==> IsTrigger(next.events[n + 1]) && next.events[n + 1].at == at)
  {
    GradeKeeps(differ, st, grading, at);
    var (mid, s) := Grade(differ, st, grading, at).value;
    RecordedThenEvaluated(monitor, mid, v, s.version, at);
  }

  lemma RecordedThenEvaluated(monitor: Evaluator, st: Store, v: Verdict, version: nat, at: int)
    requires Valid(st) && version <= st.lastCodeVersion
    ensures var next := RecordAndEvaluate(monitor, st, v, version, at);
            var n := |st.events|;
            && n + 1 <= |next.events| <= n + 2 && next.events[..n] == st.events
            && IsVerdictRow(next.events[n], v, version, at)
            && (|next.events| == n + 2 <==> monitor(st.startedAt, next.events[..n + 1], st.snapshots, at).trigger.Some?)
            && (|next.events| == n + 2 ==> IsTrigger(next.events[n + 1]) && next.events[n + 1].at == at)
  {
    var recorded := RecordResult(st, v, Some(version), Server, at).value;
    var next := RecordAndEvaluate(monitor, st, v, version, at);
    assert next.events[..|st.events| + 1] == recorded.events;
    assert next.events[..|st.events|] == st.events;
  }

  /** An accepted batch holds client event kinds only. */
  lemma {:induction false} IngestedKinds(differ: Differ, st: Store, loaded: nat, items: seq<Item>, now: int)
    requires IngestAll(differ, st, loaded, items, now).Ok?
    ensures forall i :: 0 <= i < |items| ==> items[i].kind in ALL_CLIENT_TYPES
  {
    if items != [] {
      IngestedKinds(differ, st, loaded, items[..|items| - 1], now);
      assert forall i :: 0 <= i < |items| - 1 ==> items[..|items| - 1][i] == items[i];
    }
  }

  /** The state of a session after a run of requests. */
  function Session(monitor: Evaluator, differ: Differ, template: string, at: int, steps: seq<Step>): Store {
    RunSteps(monitor, differ, OpenSession(differ, template, at), steps)
  }

  /** A new session holds no trigger. */
  lemma OpenIsQuiet(monitor: Evaluator, differ: Differ, template: string, at: int)
    ensures var st := OpenSession(differ, template, at);
            Valid(st) && Replays(monitor, st) && TriggersTimed(st, at)
  {
    OpenValid(differ, template, at);
  }

  /**
   * Replay: in every run, from the final state alone, each recorded trigger is reproduced by
   * evaluating the log before it, with the snapshots up to its code version, at its timestamp.
   */
  lemma EveryTriggerReplays(monitor: Evaluator, differ: Differ, template: string, at: int, steps: seq<Step>)
    ensures Replays(monitor, Session(monitor, differ, template, at, steps))
    ensures Valid(Session(monitor, differ, template, at, steps))
  {
    OpenIsQuiet(monitor, differ, template, at);
    RunReplays(monitor, differ, OpenSession(differ, template, at), steps);
  }

  /** The features stored in the row say why it was written: they call for its trigger and status. */
  ghost predicate ExplainsItself(cfg: MonitorConfig, e: Event) {
    && e.payload.TriggerPayload?
    && (e.payload.trigger != HelpRequested ==>
          Classify(e.payload.features, cfg) == (e.payload.processStatus, Some(e.payload.trigger)))
    && (e.payload.trigger == HelpRequested ==> e.payload.processStatus == HelpNeeded)
  }

  /** In every run each recorded trigger follows from the features stored with it. */
  lemma EveryTriggerExplainsItself(
    cfg: MonitorConfig, differ: Differ, template: string, at: int, steps: seq<Step>, j: nat)
    requires var events := Session(MonitorOf(cfg), differ, template, at, steps).events;
             j < |events| && IsTrigger(events[j])
    ensures ExplainsItself(cfg, Session(MonitorOf(cfg), differ, template, at, steps).events[j])
  {
    EveryTriggerReplays(MonitorOf(cfg), differ, template, at, steps);
    RowExplainsItself(cfg, Session(MonitorOf(cfg), differ, template, at, steps), j);
  }

  lemma RowExplainsItself(cfg: MonitorConfig, st: Store, j: nat)
    requires Replays(MonitorOf(cfg), st) && j < |st.events| && IsTrigger(st.events[j])
    ensures ExplainsItself(cfg, st.events[j])
  {
    var snapshots := ReplayedFires(cfg, st, j);
    var f := Extract(cfg, st.startedAt, st.events[..j], snapshots, st.events[j].at);
    StoredFeaturesExplain(f, cfg);
    JudgedByClassify(f, st.events[..j], st.events[j].at, cfg);
  }

  lemma JudgedByClassify(f: Features, events: seq<Event>, now: int, cfg: MonitorConfig)
    ensures var state := Judge(f, events, now, cfg);
            && state.features == f
            && (state.trigger.Some? && state.trigger != Some(HelpRequested) ==>
                  Classify(f, cfg) == (state.status, state.trigger))
            && (state.trigger == Some(HelpRequested) ==> state.status == HelpNeeded)
  {
    VerdictTable(f, cfg);
  }

  // ------------------------------------------------------------------ a session ends once

  /** The end row the server writes; the browser may send end events of its own. */
  predicate IsServerEnd(e: Event) {
    e.kind == SessionEnd && e.source == Server
  }

  ghost predicate EndedOnce(st: Store) {
    Count(st.events, IsServerEnd) == if st.finished then 1 else 0
  }

  lemma {:induction false} CountPrefix(a: seq<Event>, b: seq<Event>, n: nat, p: Event -> bool)
    requires a <= b && n <= |a|
    ensures CountUpTo(a, n, p) == CountUpTo(b, n, p)
  {
    if n > 0 {
      CountPrefix(a, b, n - 1, p);
    }
  }

  /** Rows that are no end rows leave the count alone. */
  lemma NoEndRows(st: Store, next: Store)
    requires EndedOnce(st) && st.events <= next.events && next.finished == st.finished
    requires forall j :: |st.events| <= j < |next.events| ==> !IsServerEnd(next.events[j])
    ensures EndedOnce(next)
  {
    CountPrefix(st.events, next.events, |st.events|, IsServerEnd);
    CountBetween(next.events, |st.events|, |next.events|, IsServerEnd);
  }

  lemma {:induction false} IngestKeepsFinished(differ: Differ, st: Store, loaded: nat, items: seq<Item>, now: int)
    requires IngestAll(differ, st, loaded, items, now).Ok?
    ensures IngestAll(differ, st, loaded, items, now).value.finished == st.finished
  {
    if items != [] {
      IngestKeepsFinished(differ, st, loaded, items[..|items| - 1], now);
    }
  }

  lemma BatchKeepsEnds(differ: Differ, st: Store, items: seq<Item>, at: int)
    requires Valid(st) && EndedOnce(st) && Ingest(differ, st, items, at).Ok?
    ensures EndedOnce(Ingest(differ, st, items, at).value)
  {
    var next := Ingest(differ, st, items, at).value;
    var kept := Fresh(KnownIds(st.events), items);
    IngestedRows(differ, st, st.lastCodeVersion, kept, at, next);
    IngestKeepsFinished(differ, st, st.lastCodeVersion, kept, at);
    NoEndRows(st, next);
  }

  lemma EvaluationKeepsEnds(monitor: Evaluator, st: Store, now: int)
    requires EndedOnce(st)
    ensures EndedOnce(EvaluateAndRecord(monitor, st, now))
  {
    NoEndRows(st, EvaluateAndRecord(monitor, st, now));
  }

  lemma ExecutionKeepsEnds(
    monitor: Evaluator, differ: Differ, st: Store, grading: Grading, verdict: Option<Verdict>, at: int)
    requires Valid(st) && EndedOnce(st)
    ensures EndedOnce(Execute(monitor, differ, st, grading, verdict, at))
  {
    var graded := Grade(differ, st, grading, at);
    if graded.Ok? {
      GradeKeeps(differ, st, grading, at);
      NoEndRows(st, graded.value.0);
      if verdict.Some? {
        var recorded := RecordResult(graded.value.0, verdict.value, Some(graded.value.1.version), Server, at).value;
        NoEndRows(graded.value.0, recorded);
        EvaluationKeepsEnds(monitor, recorded, at);
      }
    }
  }

  lemma StepKeepsEnds(monitor: Evaluator, differ: Differ, st: Store, step: Step)
    requires Valid(st) && EndedOnce(st)
    ensures EndedOnce(Apply(monitor, differ, st, step))
  {
    match step
    case Batch(items, at) =>
      if Ingest(differ, st, items, at).Ok? {
        BatchKeepsEnds(differ, st, items, at);
      }
    case Execution(grading, verdict, at) => ExecutionKeepsEnds(monitor, differ, st, grading, verdict, at);
    case Heartbeat(at) => EvaluationKeepsEnds(monitor, st, at);
    case Intervention(at) => NoEndRows(st, Intervene(st, at));
    case Closing(at) =>
      if !st.finished {
        CountPrefix(st.events, Finish(st, at).events, |st.events|, IsServerEnd);
      }
  }

  lemma FinishedOnlyByClosing(monitor: Evaluator, differ: Differ, st: Store, step: Step)
    requires Valid(st)
    ensures Apply(monitor, differ, st, step).finished <==> st.finished || step.Closing?
  {
    match step
    case Batch(items, at) =>
      if Ingest(differ, st, items, at).Ok? {
        IngestKeepsFinished(differ, st, st.lastCodeVersion, Fresh(KnownIds(st.events), items), at);
      }
    case _ =>
  }

  predicate Closes(steps: seq<Step>) {
    steps != [] && (steps[|steps| - 1].Closing? || Closes(steps[..|steps| - 1]))
  }

  lemma {:induction false} RunEnds(monitor: Evaluator, differ: Differ, st: Store, steps: seq<Step>)
    requires Valid(st) && Replays(monitor, st) && EndedOnce(st)
    ensures EndedOnce(RunSteps(monitor, differ, st, steps))
    ensures RunSteps(monitor, differ, st, steps).finished <==> st.finished || Closes(steps)
  {
    if steps != [] {
      var before, last := steps[..|steps| - 1], steps[|steps| - 1];
      RunEnds(monitor, differ, st, before);
      RunReplays(monitor, differ, st, before);
      StepKeepsEnds(monitor, differ, RunSteps(monitor, differ, st, before), last);
      FinishedOnlyByClosing(monitor, differ, RunSteps(monitor, differ, st, before), last);
    }
  }

  lemma OpenHasNotEnded(differ: Differ, template: string, at: int)
    ensures var st := OpenSession(differ, template, at); EndedOnce(st) && !st.finished
  {
    var events := OpenSession(differ, template, at).events;
    assert |events| == 1 && !IsServerEnd(events[0]);
    assert CountUpTo(events, 0, IsServerEnd) == 0;
  }

  /** In every run the server writes one end row if the session was closed, however often, and none otherwise. */
  lemma {:induction false} EndsOnce(
    monitor: Evaluator, differ: Differ, template: string, at: int, steps: seq<Step>, st: Store)
    requires st == Session(monitor, differ, template, at, steps)
    ensures Count(st.events, IsServerEnd) == (if Closes(steps) then 1 else 0) && (st.finished <==> Closes(steps))
  {
    OpenIsQuiet(monitor, differ, template, at);
    OpenHasNotEnded(differ, template, at);
    RunEnds(monitor, differ, OpenSession(differ, template, at), steps);
  }

  // ------------------------------------------------------------------ how often the monitor speaks

  /** What replay says about the trigger at row `j`: the rows before it made the monitor fire. */
  lemma ReplayedFires(cfg: MonitorConfig, st: Store, j: nat) returns (snapshots: seq<Snapshot>)
    requires Replays(MonitorOf(cfg), st) && j < |st.events| && IsTrigger(st.events[j])
    ensures var state := Evaluate(cfg, st.startedAt, st.events[..j], snapshots, st.events[j].at);
            RecordedAs(st.events[j], state)
  {
    assert Replayed(MonitorOf(cfg), st, j);
    snapshots := UpTo(st.snapshots, st.events[j].codeVersion.value);
  }

  /** The last row of a kind before `j`, by position. */
  lemma LastBefore(st: Store, j: nat, kind: EventType) returns (i: int)
    requires NumberedRows(st) && j <= |st.events|
    ensures LastOf(st.events[..j], kind).None? <==> i == -1
    ensures -1 <= i < j
    ensures i >= 0 ==>
              && LastOf(st.events[..j], kind) == Some(st.events[i])
              && st.events[i].kind == kind && st.events[i].seqNo == i + 1
    ensures forall k :: i < k < j ==> st.events[k].kind != kind
  {
    var prefix := st.events[..j];
    i := LastOfAt(prefix, kind);
    assert forall k :: 0 <= k < j ==> prefix[k] == st.events[k];
  }

  lemma GapIsJustified(cfg: MonitorConfig, st: Store, clock: int, i: nat, j: nat)
    requires Valid(st) && Replays(MonitorOf(cfg), st) && TriggersTimed(st, clock)
    requires Consecutive(st.events, i, j) && cfg.cooldownSeconds >= 1
    ensures GapJustified(st.events, i, j, cfg.cooldownSeconds)
  {
    var prefix := st.events[..j];
    var snapshots := ReplayedFires(cfg, st, j);
    TriggerHasReason(cfg, st.startedAt, prefix, snapshots, st.events[j].at);
    var t := LastBefore(st, j, AgentTrigger);
    assert t == i;
    var h := LastBefore(st, j, HintRequest);
    if h >= 0 && h + 1 > i + 1 {
      assert IsHint(st.events[h]);
    } else if HasResultAfter(prefix, Some(st.events[i].seqNo)) {
      var r :| 0 <= r < |prefix| && prefix[r].kind == TestResult && prefix[r].seqNo > st.events[i].seqNo;
      assert st.events[r].seqNo == r + 1;
      assert IsResult(st.events[r]);
    }
  }

  /**
   * Rate bound: over any run, the monitor speaks at most once, plus once per result, plus once per
   * hint request, plus once per full cooldown between its first and its last trigger.
   */
  lemma TriggerRateBound(
    cfg: MonitorConfig, differ: Differ, template: string, at: int, steps: seq<Step>, first: nat, last: nat)
    requires Clocked(at, steps) && cfg.cooldownSeconds >= 1
    requires var events := Session(MonitorOf(cfg), differ, template, at, steps).events;
             IsFirstTrigger(events, first) && IsLastTrigger(events, last)
    ensures RateBounded(Session(MonitorOf(cfg), differ, template, at, steps).events, cfg.cooldownSeconds, first, last)
  {
    OpenIsQuiet(MonitorOf(cfg), differ, template, at);
    EveryTriggerReplays(MonitorOf(cfg), differ, template, at, steps);
    RunTimed(MonitorOf(cfg), differ, OpenSession(differ, template, at), at, steps);
    StoreRateBound(cfg, Session(MonitorOf(cfg), differ, template, at, steps), EndClock(at, steps), first, last);
  }

  lemma StoreRateBound(cfg: MonitorConfig, st: Store, clock: int, first: nat, last: nat)
    requires Valid(st) && Replays(MonitorOf(cfg), st) && TriggersTimed(st, clock) && cfg.cooldownSeconds >= 1
    requires IsFirstTrigger(st.events, first) && IsLastTrigger(st.events, last)
    ensures RateBounded(st.events, cfg.cooldownSeconds, first, last)
  {
    forall i: nat, j: nat | Consecutive(st.events, i, j)
      ensures GapJustified(st.events, i, j, cfg.cooldownSeconds)
    {
      GapIsJustified(cfg, st, clock, i, j);
    }
    RateBound(st.events, cfg.cooldownSeconds, first, last);
  }

  /** Anti-spam: while nothing is graded, every trigger uses up student activity of its own. */
  lemma QuietRunAntiSpam(cfg: MonitorConfig, differ: Differ, template: string, at: int, steps: seq<Step>)
    requires cfg.sameResultThreshold >= 1 && cfg.consecutiveErrorThreshold >= 1
    requires Count(Session(MonitorOf(cfg), differ, template, at, steps).events, IsResult) == 0
    ensures var events := Session(MonitorOf(cfg), differ, template, at, steps).events;
            Count(events, IsTrigger) <= Count(events, IsActivity)
  {
    EveryTriggerReplays(MonitorOf(cfg), differ, template, at, steps);
    var st := Session(MonitorOf(cfg), differ, template, at, steps);
    CountBetween(st.events, 0, |st.events|, IsResult);
    forall j: nat | j < |st.events| && IsTrigger(st.events[j])
      ensures exists i: nat :: Fuels(st.events, i, j, IsTrigger, IsActivity)
    {
      QuietTriggerFuel(cfg, st, j);
    }
    SparksNeedFuel(st.events, |st.events|, IsTrigger, IsActivity);
  }

  lemma NoResultsBefore(events: seq<Event>, j: nat)
    requires j <= |events| && forall k :: 0 <= k < |events| ==> !IsResult(events[k])
    ensures CountKind(events[..j], TestResult) == 0
  {
    CountKindZero(events[..j], TestResult);
  }

  /** Activity newer than the last trigger before `j` is fuel for a trigger at `j`. */
  lemma ActivityFuels(st: Store, j: nat)
    requires NumberedRows(st) && j < |st.events|
    requires HasActivityAfter(st.events[..j], SeqOf(LastOf(st.events[..j], AgentTrigger)))
    ensures exists i: nat :: Fuels(st.events, i, j, IsTrigger, IsActivity)
  {
    var prefix := st.events[..j];
    var t := LastBefore(st, j, AgentTrigger);
    var i :| 0 <= i < |prefix| && prefix[i].kind in ACTIVITY_TYPES
             && (t >= 0 ==> prefix[i].seqNo > st.events[t].seqNo);
    assert prefix[i] == st.events[i] && st.events[i].seqNo == i + 1;
    assert Fuels(st.events, i, j, IsTrigger, IsActivity);
  }

  lemma QuietTriggerFuel(cfg: MonitorConfig, st: Store, j: nat)
    requires Valid(st) && Replays(MonitorOf(cfg), st)
    requires cfg.sameResultThreshold >= 1 && cfg.consecutiveErrorThreshold >= 1
    requires forall k :: 0 <= k < |st.events| ==> !IsResult(st.events[k])
    requires j < |st.events| && IsTrigger(st.events[j])
    ensures exists i: nat :: Fuels(st.events, i, j, IsTrigger, IsActivity)
  {
    var snapshots := ReplayedFires(cfg, st, j);
    NoResultsBefore(st.events, j);
    QuietLogNeedsActivity(cfg, st.startedAt, st.events[..j], snapshots, st.events[j].at);
    ActivityFuels(st, j);
  }

  /** Asking for help is answered at most once per request, in every run. */
  lemma HelpTriggersBounded(cfg: MonitorConfig, differ: Differ, template: string, at: int, steps: seq<Step>)
    ensures var events := Session(MonitorOf(cfg), differ, template, at, steps).events;
            Count(events, IsHelpTrigger) <= Count(events, IsHint)
  {
    EveryTriggerReplays(MonitorOf(cfg), differ, template, at, steps);
    var st := Session(MonitorOf(cfg), differ, template, at, steps);
    forall j: nat | j < |st.events| && IsHelpTrigger(st.events[j])
      ensures exists i: nat :: Fuels(st.events, i, j, IsHelpTrigger, IsHint)
    {
      HelpTriggerFuel(cfg, st, j);
    }
    SparksNeedFuel(st.events, |st.events|, IsHelpTrigger, IsHint);
  }

  lemma HelpTriggerFuel(cfg: MonitorConfig, st: Store, j: nat)
    requires Valid(st) && Replays(MonitorOf(cfg), st)
    requires j < |st.events| && IsHelpTrigger(st.events[j])
    ensures exists i: nat :: Fuels(st.events, i, j, IsHelpTrigger, IsHint)
  {
    var snapshots := ReplayedFires(cfg, st, j);
    HelpNeedsFreshHint(cfg, st.startedAt, st.events[..j], snapshots, st.events[j].at);
    var t := LastBefore(st, j, AgentTrigger);
    var h := LastBefore(st, j, HintRequest);
    assert Fuels(st.events, h, j, IsHelpTrigger, IsHint);
  }
}
