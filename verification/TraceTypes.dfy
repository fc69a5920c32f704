/** Rows and enumerations of the coding trace: events, snapshots, thresholds. */
module TraceTypes {
  import opened Prelude

  datatype EventType =
    | CodeSnapshot | Run | Submit | Undo | Reset | HintRequest
    | ActivityOpened | ActivityResponse | SessionEnd
    | SessionStart | TestResult | SyntaxErrorRow | RuntimeErrorRow
    | AgentTrigger | AgentIntervention

  const ALL_CLIENT_TYPES: set<EventType> :=
    {CodeSnapshot, Run, Submit, Undo, Reset, HintRequest, ActivityOpened, ActivityResponse, SessionEnd}

  /** What counts as "the student did something". */
  const ACTIVITY_TYPES: set<EventType> :=
    {CodeSnapshot, Run, Submit, Undo, Reset, HintRequest, ActivityOpened, ActivityResponse, TestResult}

  datatype EventSource = Client | ClientJudge | Server

  datatype JudgeStatus = Accepted | WrongAnswer | RuntimeError | SyntaxError | TimeLimit | InternalError

  /** Who failed: nobody (a score), the student's code, or the judging infrastructure. */
  const SCORED: set<JudgeStatus> := {Accepted, WrongAnswer}
  const SYSTEM: set<JudgeStatus> := {InternalError}
  const ERRORS: set<JudgeStatus> := {RuntimeError, SyntaxError, TimeLimit}

  datatype Mode = RunMode | SubmitMode

  datatype RegionTag = LoopRegion | Condition | Accumulator | Initialization | ReturnRegion | FunctionDef | Other

  datatype ProcessStatus =
    | Progressing | ProductiveStruggle | PossibleStuck | Stuck | UnderstandingUncertain | HelpNeeded

  datatype TriggerType = HelpRequested | RepeatedFailure | NoProgress | UncertainUnderstanding

  /** One graded run as the feature extractor sees it. */
  datatype Observation = Observation(
    seqNo: nat, at: int, mode: Mode, status: JudgeStatus, passed: nat, total: nat, codeVersion: nat)
  {
    /** The key compared by the same-result streak: run and submit have different totals. */
    function Signature(): (JudgeStatus, nat, nat) {
      (status, passed, total)
    }
  }

  /** Seconds on the monitor's four clocks. */
  datatype Clocks = Clocks(
    elapsedSeconds: nat, secondsWithoutProgress: nat, secondsSinceLastEdit: nat, secondsSinceLastActivity: nat)

  /** What the scored results say, with the edit windows they cut out of the snapshot chain. */
  datatype ScoreFeatures = ScoreFeatures(
    recentScores: seq<nat>, sameResultCount: nat, progressDelta: int, improvedRecently: bool,
    lastProgressAt: Option<int>, sameRegionEditCount: nat, repeatedEditRegion: Option<RegionTag>,
    editsSinceProgress: nat, editsInResultStreak: nat, largeChangeDetected: bool)

  datatype ErrorFeatures = ErrorFeatures(recentErrorTypes: seq<JudgeStatus>, consecutiveErrorCount: nat)

  /** Attempts of any outcome, and the edits not run yet. */
  datatype AttemptFeatures = AttemptFeatures(
    runCount: nat, submitCount: nat, attemptCount: nat, lastResult: Option<Observation>,
    editsSinceLastResult: nat, largeChangeUnverified: bool, snapshotCount: nat)

  /** Hints, undos and what happened since the monitor last spoke. */
  datatype ContextFeatures = ContextFeatures(
    undoCount: nat, hintCount: nat, lastHintSeq: Option<nat>, lastTriggerSeq: Option<nat>, lastTriggerAt: Option<int>,
    editsSinceLastTrigger: nat, activitySinceLastTrigger: nat)

  /** The process features, grouped by what they are computed from. */
  datatype Features = Features(
    clocks: Clocks, scores: ScoreFeatures, errors: ErrorFeatures, attempts: AttemptFeatures, context: ContextFeatures)

  datatype Payload =
    | ClientPayload(correct: bool)
    | EditPayload(region: RegionTag, changedLines: nat, deduplicated: bool)
    | ResultPayload(mode: Mode, status: Option<JudgeStatus>, passed: nat, total: nat)
    | TriggerPayload(trigger: TriggerType, processStatus: ProcessStatus, features: Features)
    | NoPayload

  datatype Event = Event(
    seqNo: nat, kind: EventType, source: EventSource, codeVersion: Option<nat>,
    payload: Payload, at: int, clientId: Option<string>)

  /** The columns `compute_diff` fills in when a snapshot is inserted. */
  datatype DiffColumns = DiffColumns(
    added: nat, deleted: nat, changeSize: nat, changeRatio: real, changedLines: nat, primaryRegion: RegionTag)

  /** `compute_diff` against the previous code (if any), as a total function of the two texts. */
  type Differ = (Option<string>, string) -> DiffColumns

  datatype Snapshot = Snapshot(
    version: nat, code: string, createdAt: int, parent: Option<nat>,
    columns: DiffColumns, secondsSinceParent: nat)

  datatype MonitorConfig = MonitorConfig(
    noProgressSeconds: int,
    sameResultThreshold: int,
    sameRegionThreshold: int,
    consecutiveErrorThreshold: int,
    cooldownSeconds: int,
    largeChangeRatio: real,
    largeChangeMinLines: int,
    largeChangeWindowSeconds: int,
    recentScoreWindow: int,
    idleEditSeconds: int,
    editChurnThreshold: int,
    pasteSettleSeconds: int,
    idleNoActivitySeconds: int)

  /** The thresholds as shipped. */
  const DEFAULT_CONFIG := MonitorConfig(90, 3, 2, 3, 30, 0.5, 5, 60, 5, 45, 3, 5, 10)

  /** How many rows of one kind a log holds. */
  function CountKind(events: seq<Event>, kind: EventType): (n: nat)
    ensures n <= |events|
  {
    if events == [] then 0
    else CountKind(events[..|events| - 1], kind) + if events[|events| - 1].kind == kind then 1 else 0
  }

  lemma {:induction false} CountKindZero(events: seq<Event>, kind: EventType)
    ensures CountKind(events, kind) == 0 <==> forall i :: 0 <= i < |events| ==> events[i].kind != kind
  {
    if events != [] {
      var init := events[..|events| - 1];
      CountKindZero(init, kind);
      assert forall i :: 0 <= i < |init| ==> init[i] == events[i];
    }
  }

  /** The last row of one kind. */
  function LastOf(events: seq<Event>, kind: EventType): (r: Option<Event>)
    ensures r.Some? ==> r.value.kind == kind
  {
    if events == [] then None
    else if events[|events| - 1].kind == kind then Some(events[|events| - 1])
    else LastOf(events[..|events| - 1], kind)
  }

  /** Where that row is: position `i`, or -1 if there is none; no row of the kind comes later. */
  lemma {:induction false} LastOfAt(events: seq<Event>, kind: EventType) returns (i: int)
    ensures -1 <= i < |events|
    ensures if i == -1 then LastOf(events, kind).None?
            else LastOf(events, kind) == Some(events[i]) && events[i].kind == kind
    ensures forall j :: i < j < |events| ==> events[j].kind != kind
  {
    if events == [] {
      i := -1;
    } else if events[|events| - 1].kind == kind {
      i := |events| - 1;
    } else {
      var init := events[..|events| - 1];
      i := LastOfAt(init, kind);
      assert forall j :: 0 <= j < |init| ==> init[j] == events[j];
    }
  }
}
