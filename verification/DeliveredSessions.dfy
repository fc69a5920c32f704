/**
 * What the browser, the network and the server do together is, for the server, an ordinary session:
 * whatever holds in every run of requests holds under every faulty network. With exactly-once delivery
 * the counting bounds then speak of what the student did, not of how often it was sent.
 */
module DeliveredSessions {
  import opened Prelude
  import opened TraceTypes
  import opened TraceStore
  import opened TriggerBounds
  import opened MonitorRuns
  import opened IngestLaws
  import opened Delivery

  // ------------------------------------------------------------------ an execution is a session

  /** The requests the server serves in one step of the whole system. */
  function ServedStep(s: System, a: Action): seq<Step> {
    match a
    case OnNetwork(RequestServed(r, now)) => if r in s.requests then [Batch(r.batch, now)] else []
    case OnNetwork(ServerActs(step)) => if step.Batch? then [] else [step]
    case _ => []
  }

  function ServedSteps(monitor: Evaluator, differ: Differ, s: System, actions: seq<Action>): seq<Step> {
    if actions == [] then []
    else
      var before := actions[..|actions| - 1];
      ServedSteps(monitor, differ, s, before) + ServedStep(Reach(monitor, differ, s, before), actions[|actions| - 1])
  }

  /** One step of the system serves at most one request and leaves the store to nothing else. */
  lemma StepIsServed(monitor: Evaluator, differ: Differ, s: System, a: Action)
    ensures Next(monitor, differ, s, a).server
         == if ServedStep(s, a) == [] then s.server else Apply(monitor, differ, s.server, ServedStep(s, a)[0])
    ensures |ServedStep(s, a)| <= 1
  {
  }

  lemma RunMore(monitor: Evaluator, differ: Differ, st: Store, steps: seq<Step>, more: seq<Step>)
    requires |more| <= 1
    ensures RunSteps(monitor, differ, st, steps + more)
         == if more == [] then RunSteps(monitor, differ, st, steps)
            else Apply(monitor, differ, RunSteps(monitor, differ, st, steps), more[0])
  {
    if more == [] {
      assert steps + more == steps;
    } else {
      assert (steps + more)[..|steps|] == steps;
    }
  }

  /** In every execution the server's store is that of a session that served these requests. */
  lemma {:induction false} ExecutionIsSession(
    monitor: Evaluator, differ: Differ, template: string, at: int, actions: seq<Action>)
    ensures Reached(monitor, differ, template, at, actions).server
         == Session(monitor, differ, template, at, ServedSteps(monitor, differ, Start(differ, template, at), actions))
  {
    if actions != [] {
      var before, last := actions[..|actions| - 1], actions[|actions| - 1];
      ExecutionIsSession(monitor, differ, template, at, before);
      var s := Reached(monitor, differ, template, at, before);
      StepIsServed(monitor, differ, s, last);
      RunMore(monitor, differ, OpenSession(differ, template, at),
              ServedSteps(monitor, differ, Start(differ, template, at), before), ServedStep(s, last));
    }
  }

  /** Replay under every faulty network: each recorded trigger is what the monitor computes from the log before it. */
  lemma DeliveredTriggersReplay(monitor: Evaluator, differ: Differ, template: string, at: int, actions: seq<Action>)
    ensures Replays(monitor, Reached(monitor, differ, template, at, actions).server)
  {
    ExecutionIsSession(monitor, differ, template, at, actions);
    EveryTriggerReplays(monitor, differ, template, at,
                        ServedSteps(monitor, differ, Start(differ, template, at), actions));
  }

  // ------------------------------------------------------------------ every student row has its id

  /** Rows that only the student's browser writes. */
  const STUDENT_TYPES: set<EventType> := ALL_CLIENT_TYPES - {SessionEnd}

  ghost predicate StudentRowsNamed(events: seq<Event>) {
    forall i :: 0 <= i < |events| && events[i].kind in STUDENT_TYPES ==> events[i].clientId.Some?
  }

  ghost predicate BatchNamed(step: Step) {
    step.Batch? ==> forall i :: 0 <= i < |step.items| ==> step.items[i].clientId.Some?
  }

  lemma {:induction false} FreshNamed(known: set<string>, items: seq<Item>)
    requires forall i :: 0 <= i < |items| ==> items[i].clientId.Some?
    ensures forall i :: 0 <= i < |Fresh(known, items)| ==> Fresh(known, items)[i].clientId.Some?
  {
    if items != [] {
      FreshNamed(known, items[..|items| - 1]);
    }
  }

  lemma BatchKeepsNamed(differ: Differ, st: Store, items: seq<Item>, at: int)
    requires Valid(st) && StudentRowsNamed(st.events) && Ingest(differ, st, items, at).Ok?
    requires forall i :: 0 <= i < |items| ==> items[i].clientId.Some?
    ensures StudentRowsNamed(Ingest(differ, st, items, at).value.events)
  {
    var next := Ingest(differ, st, items, at).value;
    var kept := Fresh(KnownIds(st.events), items);
    FreshNamed(KnownIds(st.events), items);
    IngestAllKeeps(differ, st, st.lastCodeVersion, kept, at);
    forall i | |st.events| <= i < |next.events|
      ensures next.events[i].clientId.Some?
    {
      assert RowOf(next.events[|st.events| + (i - |st.events|)], kept[i - |st.events|], at);
    }
  }

  lemma ExecutionKeepsNamed(
    monitor: Evaluator, differ: Differ, st: Store, grading: Grading, verdict: Option<Verdict>, at: int)
    requires Valid(st) && StudentRowsNamed(st.events)
    ensures StudentRowsNamed(Execute(monitor, differ, st, grading, verdict, at).events)
  {
    var graded := Grade(differ, st, grading, at);
    if graded.Ok? {
      GradeKeeps(differ, st, grading, at);
    }
  }

  lemma StepKeepsNamed(monitor: Evaluator, differ: Differ, st: Store, step: Step)
    requires Valid(st) && StudentRowsNamed(st.events) && BatchNamed(step)
    ensures StudentRowsNamed(Apply(monitor, differ, st, step).events)
  {
    match step
    case Batch(items, at) =>
      if Ingest(differ, st, items, at).Ok? {
        BatchKeepsNamed(differ, st, items, at);
      }
    case Execution(grading, verdict, at) => ExecutionKeepsNamed(monitor, differ, st, grading, verdict, at);
    case Heartbeat(_) =>
    case Intervention(_) =>
    case Closing(_) =>
  }

  /** A request on the network is a piece of the history, and every event of the history has an id. */
  lemma ServedBatchNamed(s: System, a: Action)
    requires Inv(s)
    ensures forall i :: 0 <= i < |ServedStep(s, a)| ==> BatchNamed(ServedStep(s, a)[i])
  {
    if a.OnNetwork? && a.n.RequestServed? && a.n.request in s.requests {
      var m := s.sent[a.n.request.id];
      assert IsSegment(s, m);
      forall i | 0 <= i < |m.batch|
        ensures m.batch[i].clientId.Some?
      {
        assert m.batch[i] == s.history[m.start + i];
      }
    }
  }

  lemma {:induction false} DeliveredRowsNamed(
    monitor: Evaluator, differ: Differ, template: string, at: int, actions: seq<Action>)
    ensures StudentRowsNamed(Reached(monitor, differ, template, at, actions).server.events)
  {
    if actions != [] {
      var before, last := actions[..|actions| - 1], actions[|actions| - 1];
      DeliveredRowsNamed(monitor, differ, template, at, before);
      StartInv(differ, template, at);
      ExecutionKeepsInv(monitor, differ, Start(differ, template, at), before);
      var s := Reached(monitor, differ, template, at, before);
      ServedBatchNamed(s, last);
      StepIsServed(monitor, differ, s, last);
      if ServedStep(s, last) != [] {
        StepKeepsNamed(monitor, differ, s.server, ServedStep(s, last)[0]);
      }
    }
  }

  // ------------------------------------------------------------------ counting what the student did

  /** How many of the rows, or of the queued events, are of the given kinds. */
  function RowsOfKinds(rows: seq<Row>, kinds: set<EventType>): nat {
    if rows == [] then 0
    else RowsOfKinds(rows[..|rows| - 1], kinds) + if rows[|rows| - 1].kind in kinds then 1 else 0
  }

  function QueuedOfKinds(history: seq<Item>, kinds: set<EventType>): nat {
    RowsOfKinds(RowsOf(history), kinds)
  }

  lemma {:induction false} PrefixHasFewer(rows: seq<Row>, more: seq<Row>, kinds: set<EventType>)
    requires rows <= more
    ensures RowsOfKinds(rows, kinds) <= RowsOfKinds(more, kinds)
    decreases |more|
  {
    if |rows| == |more| {
      assert rows == more;
    } else {
      PrefixHasFewer(rows, more[..|more| - 1], kinds);
    }
  }

  /** In a log whose student rows are named, counting rows is counting client rows. */
  lemma {:induction false} CountIsClientRows(events: seq<Event>, n: nat, p: Event -> bool, kinds: set<EventType>)
    requires n <= |events| && StudentRowsNamed(events) && kinds <= STUDENT_TYPES
    requires forall i :: 0 <= i < |events| ==> (p(events[i]) <==> events[i].kind in kinds)
    ensures CountUpTo(events, n, p) <= RowsOfKinds(ClientRows(events[..n]), kinds)
  {
    if n > 0 {
      CountIsClientRows(events, n - 1, p, kinds);
      assert events[..n][..n - 1] == events[..n - 1];
      var e, rest := events[n - 1], ClientRows(events[..n - 1]);
      if e.clientId.Some? {
        assert (rest + [Row(e.clientId.value, e.kind)])[..|rest|] == rest;
      }
    }
  }

  /** However often events are sent, the log counts no more of them than the student made. */
  lemma DeliveredCount(
    monitor: Evaluator, differ: Differ, template: string, at: int, actions: seq<Action>, s: System,
    p: Event -> bool, kinds: set<EventType>)
    requires s == Reached(monitor, differ, template, at, actions) && kinds <= STUDENT_TYPES
    requires forall i :: 0 <= i < |s.server.events| ==> (p(s.server.events[i]) <==> s.server.events[i].kind in kinds)
    ensures Count(s.server.events, p) <= QueuedOfKinds(s.history, kinds)
  {
    DeliveredRowsNamed(monitor, differ, template, at, actions);
    LogIsAlwaysPrefix(monitor, differ, template, at, actions);
    CountIsClientRows(s.server.events, |s.server.events|, p, kinds);
    assert s.server.events[..|s.server.events|] == s.server.events;
    PrefixHasFewer(ClientRows(s.server.events), RowsOf(s.history), kinds);
  }

  /**
   * Under every faulty network help is answered at most once for each hint the student asked for: a
   * request that is sent again, duplicated or late is never answered twice.
   */
  lemma HelpNeverOutnumbersRequests(
    cfg: MonitorConfig, differ: Differ, template: string, at: int, actions: seq<Action>, s: System)
    requires s == Reached(MonitorOf(cfg), differ, template, at, actions)
    ensures Count(s.server.events, IsHelpTrigger) <= QueuedOfKinds(s.history, {HintRequest})
  {
    var monitor := MonitorOf(cfg);
    ExecutionIsSession(monitor, differ, template, at, actions);
    HelpTriggersBounded(cfg, differ, template, at, ServedSteps(monitor, differ, Start(differ, template, at), actions));
    DeliveredCount(monitor, differ, template, at, actions, s, IsHint, {HintRequest});
  }

  lemma ActivityWithoutResults(events: seq<Event>)
    requires Count(events, IsResult) == 0
    ensures forall i :: 0 <= i < |events| ==>
              (IsActivity(events[i]) <==> events[i].kind in ACTIVITY_TYPES - {TestResult})
  {
    CountBetween(events, 0, |events|, IsResult);
    assert forall i :: 0 <= i < |events| ==> !IsResult(events[i]);
  }

  lemma TriggersNeverOutnumberRows(
    cfg: MonitorConfig, differ: Differ, template: string, at: int, actions: seq<Action>, s: System)
    requires s == Reached(MonitorOf(cfg), differ, template, at, actions)
    requires cfg.sameResultThreshold >= 1 && cfg.consecutiveErrorThreshold >= 1
    requires Count(s.server.events, IsResult) == 0
    ensures Count(s.server.events, IsTrigger) <= Count(s.server.events, IsActivity)
  {
    var steps := ServedSteps(MonitorOf(cfg), differ, Start(differ, template, at), actions);
    ExecutionIsSession(MonitorOf(cfg), differ, template, at, actions);
    QuietRunAntiSpam(cfg, differ, template, at, steps);
  }

  /** Under every faulty network, while nothing is graded, the monitor speaks at most once per thing the student did. */
  lemma TriggersNeverOutnumberActivity(
    cfg: MonitorConfig, differ: Differ, template: string, at: int, actions: seq<Action>, s: System)
    requires s == Reached(MonitorOf(cfg), differ, template, at, actions)
    requires cfg.sameResultThreshold >= 1 && cfg.consecutiveErrorThreshold >= 1
    requires Count(s.server.events, IsResult) == 0
    ensures Count(s.server.events, IsTrigger) <= QueuedOfKinds(s.history, ACTIVITY_TYPES - {TestResult})
  {
    TriggersNeverOutnumberRows(cfg, differ, template, at, actions, s);
    ActivityWithoutResults(s.server.events);
    DeliveredCount(MonitorOf(cfg), differ, template, at, actions, s, IsActivity, ACTIVITY_TYPES - {TestResult});
  }

  /** And on a clock that does not run backwards the rate bound holds as well. */
  lemma DeliveredRateBound(
    cfg: MonitorConfig, differ: Differ, template: string, at: int, actions: seq<Action>, s: System,
    first: nat, last: nat)
    requires s == Reached(MonitorOf(cfg), differ, template, at, actions) && cfg.cooldownSeconds >= 1
    requires Clocked(at, ServedSteps(MonitorOf(cfg), differ, Start(differ, template, at), actions))
    requires IsFirstTrigger(s.server.events, first) && IsLastTrigger(s.server.events, last)
    ensures RateBounded(s.server.events, cfg.cooldownSeconds, first, last)
  {
    ExecutionIsSession(MonitorOf(cfg), differ, template, at, actions);
    TriggerRateBound(cfg, differ, template, at,
                     ServedSteps(MonitorOf(cfg), differ, Start(differ, template, at), actions), first, last);
  }
}
