/**
 * The lightweight process monitor: an ordered rule chain over the extracted features.
 * It keeps no state of its own; cooldown and anti-spam live in the trigger rows of the log.
 */
module Monitor {
  import opened Prelude
  import opened TraceTypes
  import opened FeatureExtraction

  datatype ProcessState = ProcessState(
    status: ProcessStatus, trigger: Option<TriggerType>,
    cooldownActive: bool, cooldownRemaining: int, features: Features, evaluatedAt: int)

  /** Quiet after a trigger: until the cooldown has passed or the next result arrives, whichever is first. */
  function Cooldown(f: Features, hasResultAfterTrigger: bool, now: int, cfg: MonitorConfig): (bool, int) {
    if f.context.lastTriggerAt.None? then (false, 0)
    else
      var elapsed := SecondsBetween(f.context.lastTriggerAt.value, now);
      if elapsed >= cfg.cooldownSeconds then (false, 0)
      else if hasResultAfterTrigger then (false, 0)
      else (true, cfg.cooldownSeconds - elapsed)
  }

  /** The rules below the help request; the first match wins. */
  function Classify(f: Features, cfg: MonitorConfig): (ProcessStatus, Option<TriggerType>) {
    var last := f.attempts.lastResult;
    var accepted := last.Some? && last.value.status == Accepted;
    // R1s: the judge itself failed, so nothing was observed about the student.
    if last.Some? && last.value.status in SYSTEM then
      (Progressing, None)
    // R2: a large rewrite that passed at once.
    else if accepted && f.scores.largeChangeDetected then
      (UnderstandingUncertain, Some(UncertainUnderstanding))
    // R3: improving.
    else if f.scores.progressDelta > 0 || f.scores.improvedRecently then
      (Progressing, None)
    // R4: solved.
    else if accepted then
      (Progressing, None)
    // R5: same result, same region edited again and again.
    else if f.scores.sameResultCount >= cfg.sameResultThreshold
      && f.scores.sameRegionEditCount >= cfg.sameRegionThreshold then
      (Stuck, Some(RepeatedFailure))
    // R5b: same result without touching the code.
    else if f.scores.sameResultCount >= cfg.sameResultThreshold && f.scores.editsInResultStreak == 0 then
      (Stuck, Some(RepeatedFailure))
    // R6: consecutive errors.
    else if f.errors.consecutiveErrorCount >= cfg.consecutiveErrorThreshold then
      (Stuck, Some(RepeatedFailure))
    // R7: no progress for long.
    else if f.clocks.secondsWithoutProgress >= cfg.noProgressSeconds && f.attempts.attemptCount >= 2 then
      (PossibleStuck, Some(NoProgress))
    // R7b: a large unverified change, then silence.
    else if f.attempts.largeChangeUnverified && f.clocks.secondsSinceLastEdit >= cfg.pasteSettleSeconds
      && f.context.editsSinceLastTrigger >= 1 then
      (UnderstandingUncertain, Some(UncertainUnderstanding))
    // R7c: churn in one region, then silence.
    else if f.scores.sameRegionEditCount >= cfg.editChurnThreshold
      && f.clocks.secondsSinceLastEdit >= cfg.idleEditSeconds
            && f.attempts.editsSinceLastResult >= 1 && f.context.editsSinceLastTrigger >= 1 then
      (PossibleStuck, Some(NoProgress))
    // R7d: no activity at all; a threshold of zero turns the rule off.
    else if cfg.idleNoActivitySeconds > 0 && f.clocks.secondsSinceLastActivity >= cfg.idleNoActivitySeconds
            && f.context.activitySinceLastTrigger >= 1 then
      (PossibleStuck, Some(NoProgress))
    // R8, R9.
    else if f.attempts.attemptCount >= 2 then
      (ProductiveStruggle, None)
    else
      (Progressing, None)
  }

  function Decide(f: Features, now: int, cooldown: (bool, int), hintPending: bool, cfg: MonitorConfig): ProcessState {
    if hintPending then
      ProcessState(HelpNeeded, Some(HelpRequested), cooldown.0, cooldown.1, f, now)
    else
      var (status, trigger) := Classify(f, cfg);
      ProcessState(status, if cooldown.0 then None else trigger, cooldown.0, cooldown.1, f, now)
  }

  predicate HasResultAfter(events: seq<Event>, seqNo: Option<nat>) {
    seqNo.Some? && exists i :: 0 <= i < |events| && events[i].kind == TestResult && events[i].seqNo > seqNo.value
  }

  predicate HintPending(f: Features) {
    && f.context.lastHintSeq.Some?
    && (f.context.lastTriggerSeq.None? || f.context.lastHintSeq.value > f.context.lastTriggerSeq.value)
  }

  /** A verdict as a function of features and log alone. */
  function Judge(f: Features, events: seq<Event>, now: int, cfg: MonitorConfig): ProcessState {
    Decide(f, now, Cooldown(f, HasResultAfter(events, f.context.lastTriggerSeq), now, cfg), HintPending(f), cfg)
  }

  /** The pure verdict. Reads the whole log, writes nothing. */
  function Evaluate(
    cfg: MonitorConfig, startedAt: int, events: seq<Event>, snapshots: seq<Snapshot>, now: int): ProcessState
  {
    Judge(Extract(cfg, startedAt, events, snapshots, now), events, now, cfg)
  }

  /** The feature dictionary stored with a trigger: the record without the monitor's working context. */
  function FeaturesToDict(f: Features): Features {
    var last := f.attempts.lastResult;
    f.(scores := f.scores.(lastProgressAt := None),
       context := f.context.(lastHintSeq := None, lastTriggerSeq := None, lastTriggerAt := None),
       attempts := f.attempts.(lastResult := if last.None? then None
                                             else Some(last.value.(seqNo := 0, at := 0, codeVersion := 0))))
  }

  // ------------------------------------------------------------------ the rule chain as a table

  /** Nothing to nudge about: the judge failed, the last result passed, or the scores are rising. */
  predicate Settled(f: Features) {
    || (f.attempts.lastResult.Some? && f.attempts.lastResult.value.status in SYSTEM + {Accepted})
    || f.scores.progressDelta > 0 || f.scores.improvedRecently
  }

  predicate FullScoreByLargeChange(f: Features) {
    f.attempts.lastResult.Some? && f.attempts.lastResult.value.status == Accepted && f.scores.largeChangeDetected
  }

  predicate RepeatedResults(f: Features, cfg: MonitorConfig) {
    || (f.scores.sameResultCount >= cfg.sameResultThreshold
        && (f.scores.sameRegionEditCount >= cfg.sameRegionThreshold || f.scores.editsInResultStreak == 0))
    || f.errors.consecutiveErrorCount >= cfg.consecutiveErrorThreshold
  }

  predicate Stalled(f: Features, cfg: MonitorConfig) {
    f.clocks.secondsWithoutProgress >= cfg.noProgressSeconds && f.attempts.attemptCount >= 2
  }

  predicate UntestedPaste(f: Features, cfg: MonitorConfig) {
    && f.attempts.largeChangeUnverified && f.context.editsSinceLastTrigger >= 1
    && f.clocks.secondsSinceLastEdit >= cfg.pasteSettleSeconds
  }

  predicate IdleAfterWork(f: Features, cfg: MonitorConfig) {
    || (f.scores.sameRegionEditCount >= cfg.editChurnThreshold && f.clocks.secondsSinceLastEdit >= cfg.idleEditSeconds
        && f.attempts.editsSinceLastResult >= 1 && f.context.editsSinceLastTrigger >= 1)
    || (0 < cfg.idleNoActivitySeconds <= f.clocks.secondsSinceLastActivity && f.context.activitySinceLastTrigger >= 1)
  }

  /** Repeated failure: nothing settled it, and the same result or errors keep coming. */
  predicate KeepsFailing(f: Features, cfg: MonitorConfig) {
    !Settled(f) && RepeatedResults(f, cfg)
  }

  /** Uncertain understanding: a full score by a large change, or an untested paste by a student who is not stuck. */
  predicate IsUncertain(f: Features, cfg: MonitorConfig) {
    FullScoreByLargeChange(f)
    || (!Settled(f) && !RepeatedResults(f, cfg) && !Stalled(f, cfg) && UntestedPaste(f, cfg))
  }

  /** No progress: stalled, or idle after work that is no untested paste. */
  predicate StandsStill(f: Features, cfg: MonitorConfig) {
    && !Settled(f) && !RepeatedResults(f, cfg)
    && (Stalled(f, cfg) || (!UntestedPaste(f, cfg) && IdleAfterWork(f, cfg)))
  }

  /** Which nudge, if any, regardless of the order the rules are tried in. */
  lemma VerdictTable(f: Features, cfg: MonitorConfig)
    ensures var trigger := Classify(f, cfg).1;
            && (trigger == Some(RepeatedFailure) <==> KeepsFailing(f, cfg))
            && (trigger == Some(UncertainUnderstanding) <==> IsUncertain(f, cfg))
            && (trigger == Some(NoProgress) <==> StandsStill(f, cfg))
            && trigger != Some(HelpRequested)
    ensures var (status, trigger) := Classify(f, cfg);
            && (trigger == Some(RepeatedFailure) <==> status == Stuck)
            && (trigger == Some(NoProgress) <==> status == PossibleStuck)
            && (trigger == Some(UncertainUnderstanding) <==> status == UnderstandingUncertain)
            && (trigger.None? ==>
                  status == if !Settled(f) && f.attempts.attemptCount >= 2 then ProductiveStruggle else Progressing)
  {
  }

  // ------------------------------------------------------------------ laws of the verdict

  /** The later features differ from the earlier ones only in clocks, and no clock runs backwards. */
  predicate OnlyClocksAdvance(f: Features, g: Features) {
    && g == f.(clocks := g.clocks)
    && f.clocks.elapsedSeconds <= g.clocks.elapsedSeconds
    && f.clocks.secondsWithoutProgress <= g.clocks.secondsWithoutProgress
    && f.clocks.secondsSinceLastEdit <= g.clocks.secondsSinceLastEdit
    && f.clocks.secondsSinceLastActivity <= g.clocks.secondsSinceLastActivity
  }

  lemma ClocksAdvance(
    cfg: MonitorConfig, startedAt: int, events: seq<Event>, snapshots: seq<Snapshot>, now: int, later: int)
    requires now <= later
    ensures OnlyClocksAdvance(Extract(cfg, startedAt, events, snapshots, now),
                              Extract(cfg, startedAt, events, snapshots, later))
  {
  }

  /** Once a rule below the help request fires, waiting cannot silence it. */
  lemma RulesPersist(f: Features, g: Features, cfg: MonitorConfig)
    requires OnlyClocksAdvance(f, g)
    ensures Classify(f, cfg).1.Some? ==> Classify(g, cfg).1.Some?
  {
  }

  lemma VerdictPersists(f: Features, g: Features, events: seq<Event>, now: int, later: int, cfg: MonitorConfig)
    requires OnlyClocksAdvance(f, g) && now <= later
    requires Judge(f, events, now, cfg).trigger.Some?
    ensures Judge(g, events, later, cfg).trigger.Some?
  {
    RulesPersist(f, g, cfg);
  }

  /**
   * A late heartbeat cannot miss a nudge: on an unchanged log, an evaluation that triggers
   * at `now` also triggers at every later moment.
   */
  lemma LateHeartbeatStillTriggers(
    cfg: MonitorConfig, startedAt: int, events: seq<Event>, snapshots: seq<Snapshot>, now: int, later: int)
    requires now <= later
    requires Evaluate(cfg, startedAt, events, snapshots, now).trigger.Some?
    ensures Evaluate(cfg, startedAt, events, snapshots, later).trigger.Some?
  {
    ClocksAdvance(cfg, startedAt, events, snapshots, now, later);
    VerdictPersists(Extract(cfg, startedAt, events, snapshots, now), Extract(cfg, startedAt, events, snapshots, later),
                    events, now, later, cfg);
  }

  predicate CoolingDown(cfg: MonitorConfig, events: seq<Event>, now: int) {
    var last := LastOf(events, AgentTrigger);
    && last.Some? && SecondsBetween(last.value.at, now) < cfg.cooldownSeconds
    && !HasResultAfter(events, Some(last.value.seqNo))
  }

  /** The cooldown as the log tells it: a recent trigger and no result since, for the rest of its time. */
  lemma CooldownFromLog(cfg: MonitorConfig, startedAt: int, events: seq<Event>, snapshots: seq<Snapshot>, now: int)
    ensures var state := Evaluate(cfg, startedAt, events, snapshots, now);
            && (state.cooldownActive <==> CoolingDown(cfg, events, now))
            && (state.cooldownActive ==>
                  state.cooldownRemaining > 0
                  && state.cooldownRemaining + SecondsBetween(LastOf(events, AgentTrigger).value.at, now)
                       == cfg.cooldownSeconds)
            && (!state.cooldownActive ==> state.cooldownRemaining == 0)
  {
    CooldownOfVerdict(Extract(cfg, startedAt, events, snapshots, now), events, now, cfg);
  }

  lemma CooldownOfVerdict(f: Features, events: seq<Event>, now: int, cfg: MonitorConfig)
    requires f.context == ContextOf(events)
    ensures var state := Judge(f, events, now, cfg);
            && (state.cooldownActive <==> CoolingDown(cfg, events, now))
            && (state.cooldownActive ==>
                  state.cooldownRemaining > 0
                  && state.cooldownRemaining + SecondsBetween(LastOf(events, AgentTrigger).value.at, now)
                       == cfg.cooldownSeconds)
            && (!state.cooldownActive ==> state.cooldownRemaining == 0)
    ensures Judge(f, events, now, cfg).cooldownActive ==>
              Judge(f, events, now, cfg).trigger in {None, Some(HelpRequested)}
    ensures f.attempts.lastResult.Some? && f.attempts.lastResult.value.status in SYSTEM ==>
              Judge(f, events, now, cfg).trigger in {None, Some(HelpRequested)}
  {
  }

  lemma SilencedVerdict(f: Features, events: seq<Event>, now: int, cfg: MonitorConfig)
    requires f.context == ContextOf(events)
    requires CoolingDown(cfg, events, now)
           || (f.attempts.lastResult.Some? && f.attempts.lastResult.value.status in SYSTEM)
    ensures Judge(f, events, now, cfg).trigger
         == if HintAfter(events, LastOf(events, AgentTrigger)) then Some(HelpRequested) else None
  {
    CooldownOfVerdict(f, events, now, cfg);
    ReasonOfVerdict(f, events, now, cfg);
  }

  function LastResult(events: seq<Event>): Option<Observation> {
    var results := Results(events);
    if results == [] then None else Some(results[|results| - 1])
  }

  lemma LastResultExtracted(cfg: MonitorConfig, startedAt: int, events: seq<Event>, snapshots: seq<Snapshot>, now: int)
    ensures Extract(cfg, startedAt, events, snapshots, now).attempts.lastResult == LastResult(events)
    ensures Extract(cfg, startedAt, events, snapshots, now).context == ContextOf(events)
  {
  }

  /** Cooldowns and judge outages silence every nudge, and never an answer to a call for help. */
  lemma OnlyHelpGetsThrough(cfg: MonitorConfig, startedAt: int, events: seq<Event>, snapshots: seq<Snapshot>, now: int)
    requires CoolingDown(cfg, events, now) || (LastResult(events).Some? && LastResult(events).value.status in SYSTEM)
    ensures Evaluate(cfg, startedAt, events, snapshots, now).trigger
         == if HintAfter(events, LastOf(events, AgentTrigger)) then Some(HelpRequested) else None
  {
    LastResultExtracted(cfg, startedAt, events, snapshots, now);
    SilencedVerdict(Extract(cfg, startedAt, events, snapshots, now), events, now, cfg);
  }

  predicate HintAfter(events: seq<Event>, trigger: Option<Event>) {
    var hint := LastOf(events, HintRequest);
    hint.Some? && (trigger.None? || hint.value.seqNo > trigger.value.seqNo)
  }

  /** Which status an evaluation gives: the table's, unless the student asked for help. */
  ghost predicate StatusFits(f: Features, cfg: MonitorConfig, asked: bool, status: ProcessStatus) {
    if asked then status == HelpNeeded
    else
      && (status == Stuck <==> KeepsFailing(f, cfg))
      && (status == UnderstandingUncertain <==> IsUncertain(f, cfg))
      && (status == PossibleStuck <==> StandsStill(f, cfg))
      && (status == ProductiveStruggle <==>
            !(KeepsFailing(f, cfg) || IsUncertain(f, cfg) || StandsStill(f, cfg))
            && !Settled(f) && f.attempts.attemptCount >= 2)
      && status != HelpNeeded
  }

  /** Which trigger: help for a call for help, nothing during a cooldown, else the table's. */
  ghost predicate TriggerFits(
    f: Features, cfg: MonitorConfig, asked: bool, silenced: bool, trigger: Option<TriggerType>)
  {
    && (trigger == Some(HelpRequested) <==> asked)
    && (trigger == Some(RepeatedFailure) <==> !asked && !silenced && KeepsFailing(f, cfg))
    && (trigger == Some(UncertainUnderstanding) <==> !asked && !silenced && IsUncertain(f, cfg))
    && (trigger == Some(NoProgress) <==> !asked && !silenced && StandsStill(f, cfg))
  }

  lemma JudgeTable(f: Features, events: seq<Event>, now: int, cfg: MonitorConfig)
    requires f.context == ContextOf(events)
    ensures var state, asked := Judge(f, events, now, cfg), HintAfter(events, LastOf(events, AgentTrigger));
            && StatusFits(f, cfg, asked, state.status)
            && TriggerFits(f, cfg, asked, CoolingDown(cfg, events, now), state.trigger)
            && state.features == f && state.evaluatedAt == now
  {
    VerdictTable(f, cfg);
    CooldownOfVerdict(f, events, now, cfg);
    assert HintPending(f) <==> HintAfter(events, LastOf(events, AgentTrigger));
  }

  /**
   * The whole evaluation as a table over the log and its features: a call for help since the last trigger is
   * always answered; otherwise the status is the table's, and so is the trigger unless the monitor cools down.
   */
  lemma EvaluationTable(cfg: MonitorConfig, startedAt: int, events: seq<Event>, snapshots: seq<Snapshot>, now: int)
    ensures var f := Extract(cfg, startedAt, events, snapshots, now);
            var state := Evaluate(cfg, startedAt, events, snapshots, now);
            var asked := HintAfter(events, LastOf(events, AgentTrigger));
            && StatusFits(f, cfg, asked, state.status)
            && TriggerFits(f, cfg, asked, CoolingDown(cfg, events, now), state.trigger)
            && state.features == f && state.evaluatedAt == now
  {
    LastResultExtracted(cfg, startedAt, events, snapshots, now);
    JudgeTable(Extract(cfg, startedAt, events, snapshots, now), events, now, cfg);
  }

  /** The features stored with a trigger are enough to say afterwards why it fired. */
  lemma StoredFeaturesExplain(f: Features, cfg: MonitorConfig)
    ensures Classify(FeaturesToDict(f), cfg) == Classify(f, cfg)
  {
  }

  lemma ReasonOfVerdict(f: Features, events: seq<Event>, now: int, cfg: MonitorConfig)
    requires f.context == ContextOf(events)
    ensures var last := LastOf(events, AgentTrigger);
            Judge(f, events, now, cfg).trigger.Some? ==>
              || last.None?
              || HintAfter(events, last)
              || HasResultAfter(events, Some(last.value.seqNo))
              || SecondsBetween(last.value.at, now) >= cfg.cooldownSeconds
    ensures Judge(f, events, now, cfg).trigger == Some(HelpRequested)
       <==> HintAfter(events, LastOf(events, AgentTrigger))
  {
    assert HintPending(f) <==> HintAfter(events, LastOf(events, AgentTrigger));
  }

  /**
   * Why an evaluation triggered, in terms of the log alone: a fresh hint request, or no earlier
   * trigger, or a result since the last trigger, or a full cooldown since it.
   */
  lemma TriggerHasReason(cfg: MonitorConfig, startedAt: int, events: seq<Event>, snapshots: seq<Snapshot>, now: int)
    requires Evaluate(cfg, startedAt, events, snapshots, now).trigger.Some?
    ensures var last := LastOf(events, AgentTrigger);
            || last.None?
            || HintAfter(events, last)
            || HasResultAfter(events, Some(last.value.seqNo))
            || SecondsBetween(last.value.at, now) >= cfg.cooldownSeconds
  {
    ReasonOfVerdict(Extract(cfg, startedAt, events, snapshots, now), events, now, cfg);
  }

  /** Help verdicts and only help verdicts come from a hint request newer than the last trigger. */
  lemma HelpNeedsFreshHint(cfg: MonitorConfig, startedAt: int, events: seq<Event>, snapshots: seq<Snapshot>, now: int)
    ensures Evaluate(cfg, startedAt, events, snapshots, now).trigger == Some(HelpRequested)
       <==> HintAfter(events, LastOf(events, AgentTrigger))
  {
    ReasonOfVerdict(Extract(cfg, startedAt, events, snapshots, now), events, now, cfg);
  }

  predicate HasActivityAfter(events: seq<Event>, seqNo: Option<nat>) {
    exists i :: 0 <= i < |events| && events[i].kind in ACTIVITY_TYPES && (seqNo.Some? ==> events[i].seqNo > seqNo.value)
  }

  /** The rules that remain when nothing was graded all ask for activity since the last trigger. */
  lemma UngradedRulesNeedActivity(f: Features, cfg: MonitorConfig)
    requires f.attempts.lastResult.None? && f.attempts.attemptCount == 0
    requires f.scores.sameResultCount == 0 && f.errors.consecutiveErrorCount == 0
    requires f.scores.progressDelta == 0 && !f.scores.improvedRecently
    requires cfg.sameResultThreshold >= 1 && cfg.consecutiveErrorThreshold >= 1
    ensures Classify(f, cfg).1.Some? ==> f.context.editsSinceLastTrigger >= 1 || f.context.activitySinceLastTrigger >= 1
  {
  }

  lemma UngradedFeatures(cfg: MonitorConfig, success: Option<int>, snapshots: seq<Snapshot>)
    ensures var scores := ScoresOf(cfg, [], success, snapshots);
            scores.sameResultCount == 0 && scores.progressDelta == 0 && !scores.improvedRecently
    ensures ErrorsOf([]).consecutiveErrorCount == 0
    ensures AttemptsOf(cfg, [], snapshots).lastResult.None? && AttemptsOf(cfg, [], snapshots).attemptCount == 0
  {
    assert Only([], SCORED) == [];
  }

  lemma UngradedExtract(cfg: MonitorConfig, startedAt: int, events: seq<Event>, snapshots: seq<Snapshot>, now: int)
    requires Results(events) == []
    ensures var f := Extract(cfg, startedAt, events, snapshots, now);
            && f.scores == ScoresOf(cfg, [], ActivitySuccessAt(events), snapshots)
            && f.errors == ErrorsOf([]) && f.attempts == AttemptsOf(cfg, [], snapshots)
            && f.context == ContextOf(events)
  {
  }

  /** With no results in the log, a trigger needs a student-activity row newer than the previous trigger. */
  lemma QuietLogNeedsActivity(
    cfg: MonitorConfig, startedAt: int, events: seq<Event>, snapshots: seq<Snapshot>, now: int)
    requires CountKind(events, TestResult) == 0
    requires cfg.sameResultThreshold >= 1 && cfg.consecutiveErrorThreshold >= 1
    ensures Evaluate(cfg, startedAt, events, snapshots, now).trigger.Some? ==>
              HasActivityAfter(events, SeqOf(LastOf(events, AgentTrigger)))
  {
    var f := Extract(cfg, startedAt, events, snapshots, now);
    NoResultsWithoutRows(events);
    UngradedExtract(cfg, startedAt, events, snapshots, now);
    UngradedFeatures(cfg, ActivitySuccessAt(events), snapshots);
    UngradedRulesNeedActivity(f, cfg);
    UngradedVerdict(f, events, now, cfg);
  }

  lemma UngradedVerdict(f: Features, events: seq<Event>, now: int, cfg: MonitorConfig)
    requires f.context == ContextOf(events)
    requires Classify(f, cfg).1.Some? ==>
               f.context.editsSinceLastTrigger >= 1 || f.context.activitySinceLastTrigger >= 1
    ensures Judge(f, events, now, cfg).trigger.Some? ==> HasActivityAfter(events, SeqOf(LastOf(events, AgentTrigger)))
  {
    var after := SeqOf(LastOf(events, AgentTrigger));
    if Judge(f, events, now, cfg).trigger.None? {
    } else if HintPending(f) {
      var i := LastOfAt(events, HintRequest);
      assert events[i].kind in ACTIVITY_TYPES;
    } else if CountActivityAfter(events, after) > 0 {
      CountActivityAfterRow(events, after);
    } else {
      CountKindAfterRow(events, CodeSnapshot, after);
      var i :| 0 <= i < |events| && events[i].kind == CodeSnapshot && (after.Some? ==> events[i].seqNo > after.value);
      assert events[i].kind in ACTIVITY_TYPES;
    }
  }

  lemma {:induction false} NoResultsWithoutRows(events: seq<Event>)
    requires CountKind(events, TestResult) == 0
    ensures Results(events) == []
  {
    if events != [] {
      NoResultsWithoutRows(events[..|events| - 1]);
    }
  }
}
