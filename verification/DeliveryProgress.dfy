/** When delivery can be completed: exactly when every event still missing is one the server accepts. */
module DeliveryProgress {
  import opened Prelude
  import opened TraceTypes
  import opened TraceStore
  import opened IngestLaws
  import opened CodingTrace
  import opened Delivery

  // ------------------------------------------------------------------ nothing unacceptable ever arrives

  ghost predicate ArrivedAcceptable(s: System) {
    Arrived(s) <= |s.history| && AllAcceptable(s.history[..Arrived(s)])
  }

  lemma AcceptableGrows(s: System, next: System, end: nat)
    requires ArrivedAcceptable(s) && Progressed(s, next, end)
    ensures ArrivedAcceptable(next)
  {
    if AllAcceptable(MissingFrom(s.history, Arrived(s), end)) {
      MissingCompletes(s.history, Arrived(s), end);
      AllAcceptableAppend(s.history[..Arrived(s)], MissingFrom(s.history, Arrived(s), end));
    }
  }

  lemma StepKeepsAcceptable(monitor: Evaluator, differ: Differ, s: System, a: Action)
    requires Inv(s) && ArrivedAcceptable(s)
    ensures ArrivedAcceptable(Next(monitor, differ, s, a))
  {
    match a
    case OnClient(c) =>
      ClientStepOnlyQueues(s, c);
      assert ClientNext(s, c).history[..Arrived(s)] == s.history[..Arrived(s)];
    case OnNetwork(n) =>
      if n.RequestServed? {
        if n.request in s.requests {
          var end := ServeProgresses(differ, s, n.request, n.now);
          AcceptableGrows(s, Serve(differ, s, n.request, n.now), end);
        }
      } else {
        OtherNetworkStepsKeepLog(monitor, differ, s, n);
      }
  }

  lemma {:induction false} ReachKeepsAcceptable(monitor: Evaluator, differ: Differ, s: System, actions: seq<Action>)
    requires Inv(s) && ArrivedAcceptable(s)
    ensures ArrivedAcceptable(Reach(monitor, differ, s, actions))
  {
    if actions != [] {
      var before := actions[..|actions| - 1];
      ReachKeepsAcceptable(monitor, differ, s, before);
      ExecutionKeepsInv(monitor, differ, s, before);
      StepKeepsAcceptable(monitor, differ, Reach(monitor, differ, s, before), actions[|actions| - 1]);
    }
  }

  // ------------------------------------------------------------------ a schedule that delivers

  lemma {:induction false} ReachAppend(monitor: Evaluator, differ: Differ, s: System, a: seq<Action>, b: seq<Action>)
    ensures Reach(monitor, differ, s, a + b) == Reach(monitor, differ, Reach(monitor, differ, s, a), b)
  {
    if b == [] {
      assert a + b == a;
    } else {
      assert (a + b)[..|a + b| - 1] == a + b[..|b| - 1];
      ReachAppend(monitor, differ, s, a, b[..|b| - 1]);
    }
  }

  lemma ReachOne(monitor: Evaluator, differ: Differ, s: System, a: Action)
    ensures Reach(monitor, differ, s, [a]) == Next(monitor, differ, s, a)
  {
    assert [a][..0] == [];
  }

  lemma ReachTwo(monitor: Evaluator, differ: Differ, s: System, a: Action, b: Action)
    ensures Reach(monitor, differ, s, [a, b]) == Next(monitor, differ, Next(monitor, differ, s, a), b)
  {
    assert [a, b] == [a] + [b];
    ReachAppend(monitor, differ, s, [a], [b]);
    ReachOne(monitor, differ, s, a);
    ReachOne(monitor, differ, Next(monitor, differ, s, a), b);
  }

  const GIVE_UP := OnClient(PostFails(false))

  /** What makes the sender give up whatever it is doing. */
  function SettleActions(p: Phase): seq<Action> {
    match p
    case Idle => []
    case Ensuring(_) => [OnClient(SessionDown)]
    case Posting(_, _, _) => [GIVE_UP]
    case Waiting(_, _) => [OnClient(DelayEnds), GIVE_UP]
  }

  /** The same events, and the same part of them confirmed. */
  predicate SameProgress(s: System, t: System) {
    t.history == s.history && t.confirmed == s.confirmed
  }

  lemma SettledIsIdle(s: System)
    ensures s.client.phase.Ensuring? ==>
              ClientNext(s, SessionDown).client.phase.Idle? && SameProgress(s, ClientNext(s, SessionDown))
    ensures s.client.phase.Posting? ==>
              ClientNext(s, PostFails(false)).client.phase.Idle? && SameProgress(s, ClientNext(s, PostFails(false)))
    ensures s.client.phase.Waiting? ==>
              ClientNext(s, DelayEnds).client.phase.Posting? && SameProgress(s, ClientNext(s, DelayEnds))
  {
  }

  /** The sender gives up; its batch is back in the queue. */
  lemma Settle(monitor: Evaluator, differ: Differ, s: System)
    ensures |SettleActions(s.client.phase)| <= 2
    ensures var t := Reach(monitor, differ, s, SettleActions(s.client.phase));
            t.client.phase.Idle? && SameProgress(s, t)
  {
    SettledIsIdle(s);
    match s.client.phase
    case Idle =>
    case Ensuring(_) => ReachOne(monitor, differ, s, OnClient(SessionDown));
    case Posting(_, _, _) => ReachOne(monitor, differ, s, GIVE_UP);
    case Waiting(_, _) =>
      SettledIsIdle(ClientNext(s, DelayEnds));
      ReachTwo(monitor, differ, s, OnClient(DelayEnds), GIVE_UP);
  }

  lemma PartsAcceptable(history: seq<Item>, n: nat, end: nat)
    requires AllAcceptable(history) && n <= |history| && end <= |history|
    ensures AllAcceptable(MissingFrom(history, n, end))
  {
    AllAcceptableEach(history);
    AllAcceptableEach(MissingFrom(history, n, end));
  }

  /** A server that gets a request made of acceptable events stores it and answers. */
  lemma ServedWithReply(differ: Differ, s: System, r: Request, now: int)
    requires Inv(s) && AllAcceptable(s.history) && r in s.requests
    ensures var t := Serve(differ, s, r, now);
            t.client == s.client && t.history == s.history && r.id in t.replies
  {
    var end := ServeProgresses(differ, s, r, now);
    PartsAcceptable(s.history, Arrived(s), end);
  }

  /** A sender with events queued posts the first batch of them. */
  function Posted(s: System): System {
    ClientNext(ClientNext(s, SendStarts), SessionUp)
  }

  function FirstRequest(s: System): Request {
    Request(|s.sent|, s.client.queue[..BatchSize(s.client.queue)])
  }

  lemma PostedRequest(s: System)
    requires Inv(s) && s.client.phase.Idle? && s.client.queue != []
    ensures var t := Posted(s);
            && Inv(t) && t.history == s.history && FirstRequest(s) in t.requests
            && t.client.phase.Posting? && t.client.phase.request == FirstRequest(s).id
            && t.client.queue == s.client.queue[BatchSize(s.client.queue)..]
  {
    ClientStepKeeps(s, SendStarts);
    ClientStepKeeps(ClientNext(s, SendStarts), SessionUp);
  }

  function RoundActions(s: System, now: int): seq<Action> {
    [OnClient(SendStarts), OnClient(SessionUp)]
      + [OnNetwork(RequestServed(FirstRequest(s), now)), OnClient(ReplyArrives)]
  }

  /** Both halves of a round together. */
  lemma RoundReaches(monitor: Evaluator, differ: Differ, s: System, now: int)
    ensures Reach(monitor, differ, s, RoundActions(s, now))
         == ClientNext(NetworkNext(monitor, differ, Posted(s), RequestServed(FirstRequest(s), now)), ReplyArrives)
  {
    var served := OnNetwork(RequestServed(FirstRequest(s), now));
    ReachTwo(monitor, differ, s, OnClient(SendStarts), OnClient(SessionUp));
    ReachTwo(monitor, differ, Posted(s), served, OnClient(ReplyArrives));
    ReachAppend(monitor, differ, s, [OnClient(SendStarts), OnClient(SessionUp)], [served, OnClient(ReplyArrives)]);
  }

  lemma ReplySettles(s: System)
    requires s.client.phase.Posting? && s.client.phase.request in s.replies
    ensures var t := ClientNext(s, ReplyArrives);
            t.client.phase.Idle? && t.history == s.history && t.client.queue == s.client.queue
  {
  }

  /** One undisturbed round of sending delivers the first batch of the queue. */
  lemma Round(monitor: Evaluator, differ: Differ, s: System, now: int)
    requires Inv(s) && AllAcceptable(s.history) && s.client.phase.Idle? && s.client.queue != []
    ensures var t := Reach(monitor, differ, s, RoundActions(s, now));
            && t.client.phase.Idle? && t.history == s.history
            && t.client.queue == s.client.queue[BatchSize(s.client.queue)..]
  {
    PostedRequest(s);
    ServedWithReply(differ, Posted(s), FirstRequest(s), now);
    ReplySettles(Serve(differ, Posted(s), FirstRequest(s), now));
    RoundReaches(monitor, differ, s, now);
  }

  /** Rounds it takes to send `n` events in full batches. */
  function RoundsNeeded(n: nat): nat {
    (n + MAX_EVENTS_PER_BATCH - 1) / MAX_EVENTS_PER_BATCH
  }

  lemma OneRoundLess(queue: seq<Item>)
    requires queue != []
    ensures RoundsNeeded(|queue|) == RoundsNeeded(|queue[BatchSize(queue)..]|) + 1
  {
  }

  /** What to do in a round, depending on the state. */
  type Plan = System -> seq<Action>

  function RoundPlan(now: int): Plan {
    (s: System) => RoundActions(s, now)
  }

  /** The actions of `n` rounds. */
  function PlannedActions(monitor: Evaluator, differ: Differ, plan: Plan, s: System, n: nat): seq<Action>
    decreases n
  {
    if n == 0 then [] else plan(s) + PlannedActions(monitor, differ, plan, Reach(monitor, differ, s, plan(s)), n - 1)
  }

  function Iterate(round: System -> System, s: System, n: nat): System
    decreases n
  {
    if n == 0 then s else Iterate(round, round(s), n - 1)
  }

  function RoundOf(monitor: Evaluator, differ: Differ, plan: Plan): System -> System {
    (s: System) => Reach(monitor, differ, s, plan(s))
  }

  /** The state `n` rounds lead to. */
  function AfterRounds(monitor: Evaluator, differ: Differ, plan: Plan, s: System, n: nat): System {
    Iterate(RoundOf(monitor, differ, plan), s, n)
  }

  lemma {:induction false} PlanReaches(monitor: Evaluator, differ: Differ, plan: Plan, s: System, n: nat)
    ensures Reach(monitor, differ, s, PlannedActions(monitor, differ, plan, s, n))
         == AfterRounds(monitor, differ, plan, s, n)
    decreases n
  {
    if n > 0 {
      var t := Reach(monitor, differ, s, plan(s));
      PlanReaches(monitor, differ, plan, t, n - 1);
      ReachAppend(monitor, differ, s, plan(s), PlannedActions(monitor, differ, plan, t, n - 1));
    }
  }

  /** Nothing in flight, and nothing the server would refuse. */
  ghost predicate Ready(s: System) {
    Inv(s) && AllAcceptable(s.history) && s.client.phase.Idle?
  }

  ghost predicate OneRoundOn(s: System, t: System) {
    Ready(t) && t.history == s.history && RoundsNeeded(|s.client.queue|) == RoundsNeeded(|t.client.queue|) + 1
  }

  /** In every state with events queued, the plan's round delivers a batch. */
  ghost predicate Delivers(monitor: Evaluator, differ: Differ, plan: Plan) {
    forall s :: Ready(s) && s.client.queue != [] ==> OneRoundOn(s, Reach(monitor, differ, s, plan(s)))
  }

  lemma RoundPlanDelivers(monitor: Evaluator, differ: Differ, now: int)
    ensures Delivers(monitor, differ, RoundPlan(now))
  {
    forall s | Ready(s) && s.client.queue != []
      ensures OneRoundOn(s, Reach(monitor, differ, s, RoundPlan(now)(s)))
    {
      Round(monitor, differ, s, now);
      ExecutionKeepsInv(monitor, differ, s, RoundActions(s, now));
      OneRoundLess(s.client.queue);
    }
  }

  predicate BatchLess(ready: System -> bool, s: System, t: System) {
    ready(t) && t.history == s.history && RoundsNeeded(|s.client.queue|) == RoundsNeeded(|t.client.queue|) + 1
  }

  /** Rounds that keep a property and deliver a batch each empty the queue. */
  lemma {:induction false} RoundsEmptyQueue(round: System -> System, ready: System -> bool, s: System, n: nat)
    requires forall s :: ready(s) && s.client.queue != [] ==> BatchLess(ready, s, round(s))
    requires ready(s) && n == RoundsNeeded(|s.client.queue|)
    ensures var t := Iterate(round, s, n);
            ready(t) && t.history == s.history && t.client.queue == []
    decreases n
  {
    if n > 0 {
      assert BatchLess(ready, s, round(s));
      RoundsEmptyQueue(round, ready, round(s), n - 1);
    }
  }

  /** Exactly as many rounds as full batches empty the queue. */
  lemma Drain(monitor: Evaluator, differ: Differ, plan: Plan, s: System, n: nat)
    requires Delivers(monitor, differ, plan) && Ready(s) && n == RoundsNeeded(|s.client.queue|)
    ensures var t := AfterRounds(monitor, differ, plan, s, n);
            Ready(t) && t.history == s.history && t.client.queue == []
  {
    ghost var ready: System -> bool := (s: System) => Ready(s);
    var round := RoundOf(monitor, differ, plan);
    forall s | ready(s) && s.client.queue != []
      ensures BatchLess(ready, s, round(s))
    {
      assert OneRoundOn(s, Reach(monitor, differ, s, plan(s)));
    }
    RoundsEmptyQueue(round, ready, s, n);
  }

  lemma {:induction false} RoundLength(monitor: Evaluator, differ: Differ, s: System, n: nat, now: int)
    ensures |PlannedActions(monitor, differ, RoundPlan(now), s, n)| == 4 * n
    decreases n
  {
    if n > 0 {
      RoundLength(monitor, differ, Reach(monitor, differ, s, RoundPlan(now)(s)), n - 1, now);
    }
  }

  ghost predicate Complete(s: System) {
    ClientRows(s.server.events) == RowsOf(s.history)
  }

  /** Some continuation stores everything queued so far. */
  ghost predicate Completable(monitor: Evaluator, differ: Differ, s: System) {
    exists actions :: var t := Reach(monitor, differ, s, actions); t.history == s.history && Complete(t)
  }

  lemma EmptyClientIsComplete(s: System)
    requires Inv(s) && s.client.phase.Idle? && s.client.queue == []
    ensures Complete(s)
  {
    assert s.history == s.confirmed + [] + [];
    assert s.history[..Arrived(s)] == s.history;
  }

  function UndeliveredRounds(s: System): nat
    requires |s.confirmed| <= |s.history|
  {
    RoundsNeeded(|s.history| - |s.confirmed|)
  }

  /** Give up what is under way, then carry out the plan once for each batch of undelivered events. */
  function Schedule(monitor: Evaluator, differ: Differ, plan: Plan, s: System): seq<Action>
    requires |s.confirmed| <= |s.history|
  {
    var settle := SettleActions(s.client.phase);
    settle + PlannedActions(monitor, differ, plan, Reach(monitor, differ, s, settle), UndeliveredRounds(s))
  }

  lemma ScheduleReaches(monitor: Evaluator, differ: Differ, plan: Plan, s: System)
    requires |s.confirmed| <= |s.history|
    ensures Reach(monitor, differ, s, Schedule(monitor, differ, plan, s))
         == AfterRounds(monitor, differ, plan, Reach(monitor, differ, s, SettleActions(s.client.phase)),
                        UndeliveredRounds(s))
  {
    var settle, rounds := SettleActions(s.client.phase), UndeliveredRounds(s);
    Append(monitor, differ, plan, s, settle, rounds);
  }

  lemma Append(monitor: Evaluator, differ: Differ, plan: Plan, s: System, first: seq<Action>, n: nat)
    ensures var mid := Reach(monitor, differ, s, first);
            Reach(monitor, differ, s, first + PlannedActions(monitor, differ, plan, mid, n))
              == AfterRounds(monitor, differ, plan, mid, n)
  {
    var mid := Reach(monitor, differ, s, first);
    ReachAppend(monitor, differ, s, first, PlannedActions(monitor, differ, plan, mid, n));
    PlanReaches(monitor, differ, plan, mid, n);
  }

  lemma SettledMiddle(monitor: Evaluator, differ: Differ, s: System)
    requires Inv(s) && AllAcceptable(s.history)
    ensures |s.confirmed| <= |s.history|
    ensures var mid := Reach(monitor, differ, s, SettleActions(s.client.phase));
            Ready(mid) && mid.history == s.history && RoundsNeeded(|mid.client.queue|) == UndeliveredRounds(s)
  {
    var settle := SettleActions(s.client.phase);
    Settle(monitor, differ, s);
    ExecutionKeepsInv(monitor, differ, s, settle);
    IdleQueueIsUndelivered(Reach(monitor, differ, s, settle));
  }

  lemma DrainedIsComplete(monitor: Evaluator, differ: Differ, plan: Plan, s: System, n: nat)
    requires Delivers(monitor, differ, plan) && Ready(s) && n == RoundsNeeded(|s.client.queue|)
    ensures var t := AfterRounds(monitor, differ, plan, s, n);
            t.history == s.history && Complete(t)
  {
    Drain(monitor, differ, plan, s, n);
    EmptyClientIsComplete(AfterRounds(monitor, differ, plan, s, n));
  }

  /** A delivering plan, carried out once for each batch of undelivered events, stores everything. */
  lemma AcceptableCompletable(monitor: Evaluator, differ: Differ, plan: Plan, s: System)
    requires Delivers(monitor, differ, plan) && Inv(s) && AllAcceptable(s.history)
    ensures |s.confirmed| <= |s.history|
    ensures var t := Reach(monitor, differ, s, Schedule(monitor, differ, plan, s));
            t.history == s.history && Complete(t)
  {
    SettledMiddle(monitor, differ, s);
    DrainedIsComplete(monitor, differ, plan, Reach(monitor, differ, s, SettleActions(s.client.phase)),
                      UndeliveredRounds(s));
    ScheduleReaches(monitor, differ, plan, s);
  }

  /** Two steps to settle at most, and four steps for each batch of 50. */
  lemma ScheduleLength(monitor: Evaluator, differ: Differ, s: System, now: int)
    requires |s.confirmed| <= |s.history|
    ensures |Schedule(monitor, differ, RoundPlan(now), s)| <= 2 + 4 * UndeliveredRounds(s)
  {
    Settle(monitor, differ, s);
    RoundLength(monitor, differ, Reach(monitor, differ, s, SettleActions(s.client.phase)), UndeliveredRounds(s), now);
  }

  lemma IdleQueueIsUndelivered(s: System)
    requires Inv(s) && s.client.phase.Idle?
    ensures |s.client.queue| == |s.history| - |s.confirmed|
  {
    assert s.history == s.confirmed + [] + s.client.queue;
  }

  lemma CompleteIsAcceptable(s: System)
    requires Inv(s) && ArrivedAcceptable(s) && Complete(s)
    ensures AllAcceptable(s.history)
  {
    RowsAt(s.history);
    assert s.history[..Arrived(s)] == s.history;
  }

  /**
   * A retrying sender is never wedged by the network: from every state of the system some
   * continuation stores everything queued so far if and only if each queued event is acceptable.
   */
  lemma CompletableIffAcceptable(monitor: Evaluator, differ: Differ, s: System, now: int)
    requires Inv(s) && ArrivedAcceptable(s)
    ensures AllAcceptable(s.history) <==> Completable(monitor, differ, s)
  {
    if AllAcceptable(s.history) {
      RoundPlanDelivers(monitor, differ, now);
      AcceptableCompletable(monitor, differ, RoundPlan(now), s);
    }
    if actions :| var t := Reach(monitor, differ, s, actions); t.history == s.history && Complete(t) {
      ExecutionKeepsInv(monitor, differ, s, actions);
      ReachKeepsAcceptable(monitor, differ, s, actions);
      CompleteIsAcceptable(Reach(monitor, differ, s, actions));
    }
  }

  /** The same for every reachable state. */
  lemma ReachableCompletable(monitor: Evaluator, differ: Differ, template: string, at: int, past: seq<Action>, now: int)
    ensures var s := Reached(monitor, differ, template, at, past);
            AllAcceptable(s.history) <==> Completable(monitor, differ, s)
  {
    var start := Start(differ, template, at);
    StartInv(differ, template, at);
    ExecutionKeepsInv(monitor, differ, start, past);
    ReachKeepsAcceptable(monitor, differ, start, past);
    CompletableIffAcceptable(monitor, differ, Reached(monitor, differ, template, at, past), now);
  }

  /**
   * How long delivery takes: from every reachable state with acceptable events only, giving up what is
   * under way and then one undisturbed round for each 50 undelivered events store everything.
   */
  lemma ReachableDeliveredWithin(
    monitor: Evaluator, differ: Differ, template: string, at: int, past: seq<Action>, now: int)
    requires AllAcceptable(Reached(monitor, differ, template, at, past).history)
    ensures var s := Reached(monitor, differ, template, at, past);
            && |s.confirmed| <= |s.history|
            && |Schedule(monitor, differ, RoundPlan(now), s)| <= 2 + 4 * UndeliveredRounds(s)
            && var t := Reach(monitor, differ, s, Schedule(monitor, differ, RoundPlan(now), s));
               t.history == s.history && Complete(t)
  {
    StartInv(differ, template, at);
    ExecutionKeepsInv(monitor, differ, Start(differ, template, at), past);
    var s := Reached(monitor, differ, template, at, past);
    RoundPlanDelivers(monitor, differ, now);
    AcceptableCompletable(monitor, differ, RoundPlan(now), s);
    ScheduleLength(monitor, differ, s, now);
  }

  // ------------------------------------------------------------------ one unacceptable event blocks the line

  lemma {:induction false} HistoryGrows(monitor: Evaluator, differ: Differ, s: System, actions: seq<Action>)
    ensures s.history <= Reach(monitor, differ, s, actions).history
  {
    if actions != [] {
      var before := actions[..|actions| - 1];
      HistoryGrows(monitor, differ, s, before);
      StepOnlyQueues(monitor, differ, Reach(monitor, differ, s, before), actions[|actions| - 1]);
    }
  }

  lemma StepOnlyQueues(monitor: Evaluator, differ: Differ, s: System, a: Action)
    ensures s.history <= Next(monitor, differ, s, a).history
    ensures a.OnNetwork? ==>
              Next(monitor, differ, s, a).client == s.client && SameProgress(s, Next(monitor, differ, s, a))
  {
    if a.OnClient? {
      ClientStepOnlyQueues(s, a.c);
    }
  }

  lemma PrefixAcceptable(history: seq<Item>, n: nat, k: nat)
    requires n <= |history| && AllAcceptable(history[..n]) && k < n
    ensures Acceptable(history[k])
  {
    AllAcceptableEach(history[..n]);
    assert history[..n][k] == history[k];
  }

  lemma ArrivedBefore(s: System, k: nat)
    requires ArrivedAcceptable(s) && k < |s.history| && !Acceptable(s.history[k])
    ensures Arrived(s) <= k
  {
    if k < Arrived(s) {
      PrefixAcceptable(s.history, Arrived(s), k);
    }
  }

  /** The log never gets past an event the server rejects, in any continuation of any reachable state. */
  lemma LogNeverPassesUnacceptable(
    monitor: Evaluator, differ: Differ, template: string, at: int, past: seq<Action>, future: seq<Action>, k: nat)
    requires var s := Reached(monitor, differ, template, at, past);
             k < |s.history| && !Acceptable(s.history[k])
    ensures Arrived(Reach(monitor, differ, Reached(monitor, differ, template, at, past), future)) <= k
  {
    var start, s := Start(differ, template, at), Reached(monitor, differ, template, at, past);
    StartInv(differ, template, at);
    ReachKeepsAcceptable(monitor, differ, start, past);
    ExecutionKeepsInv(monitor, differ, start, past);
    ReachKeepsAcceptable(monitor, differ, s, future);
    HistoryGrows(monitor, differ, s, future);
    ArrivedBefore(Reach(monitor, differ, s, future), k);
  }

  /**
   * An unacceptable event among the next batch: confirmed stands at `c`, and whatever is in flight
   * contains event `k`.
   */
  ghost predicate Blocked(s: System, c: nat, k: nat) {
    && Inv(s) && ArrivedAcceptable(s)
    && |s.confirmed| == c <= k < |s.history| && k < c + MAX_EVENTS_PER_BATCH && !Acceptable(s.history[k])
    && (!s.client.phase.Idle? ==> k < c + |s.client.phase.batch|)
  }

  /** No reply to a request with an unacceptable event ever exists. */
  lemma NoReplyWhenBlocked(s: System, c: nat, k: nat)
    requires Blocked(s, c, k)
    ensures s.client.phase.Posting? ==> s.client.phase.request !in s.replies
  {
    ArrivedBefore(s, k);
    if s.client.phase.Posting? {
      assert s.sent[s.client.phase.request] == Sent(c, s.client.phase.batch);
    }
  }

  lemma ClientStaysBlocked(s: System, a: ClientAction, c: nat, k: nat)
    requires Blocked(s, c, k)
    ensures var t := ClientNext(s, a);
            && t.confirmed == s.confirmed && s.history <= t.history
            && (!t.client.phase.Idle? ==> k < c + |t.client.phase.batch|)
  {
    NoReplyWhenBlocked(s, c, k);
    ClientStepOnlyQueues(s, a);
    if a.SendStarts? && s.client.phase.Idle? {
      IdleQueueIsUndelivered(s);
    }
  }

  lemma StaysBlocked(monitor: Evaluator, differ: Differ, s: System, a: Action, c: nat, k: nat)
    requires Blocked(s, c, k)
    ensures Blocked(Next(monitor, differ, s, a), c, k)
    ensures Next(monitor, differ, s, a).confirmed == s.confirmed
  {
    StepKeepsInv(monitor, differ, s, a);
    StepKeepsAcceptable(monitor, differ, s, a);
    StepOnlyQueues(monitor, differ, s, a);
    if a.OnClient? {
      ClientStaysBlocked(s, a.c, c, k);
    }
  }

  /**
   * Head-of-line blocking: once the sender is idle with an unacceptable event among its next 50, no
   * continuation ever confirms another event, not even the acceptable ones in front of it.
   */
  lemma {:induction false} OneBadEventBlocksTheQueue(
    monitor: Evaluator, differ: Differ, s: System, c: nat, k: nat, future: seq<Action>)
    requires Blocked(s, c, k)
    ensures Reach(monitor, differ, s, future).confirmed == s.confirmed
    ensures Blocked(Reach(monitor, differ, s, future), c, k)
  {
    if future != [] {
      var before := future[..|future| - 1];
      OneBadEventBlocksTheQueue(monitor, differ, s, c, k, before);
      StaysBlocked(monitor, differ, Reach(monitor, differ, s, before), future[|future| - 1], c, k);
    }
  }

  /** The same from every reachable idle state. */
  lemma ReachableQueueBlocked(
    monitor: Evaluator, differ: Differ, template: string, at: int, past: seq<Action>, future: seq<Action>, k: nat)
    requires var s := Reached(monitor, differ, template, at, past);
             && s.client.phase.Idle? && |s.confirmed| <= k < |s.history| && k < |s.confirmed| + MAX_EVENTS_PER_BATCH
             && !Acceptable(s.history[k])
    ensures var s := Reached(monitor, differ, template, at, past);
            Reach(monitor, differ, s, future).confirmed == s.confirmed
  {
    var start, s := Start(differ, template, at), Reached(monitor, differ, template, at, past);
    StartInv(differ, template, at);
    ReachKeepsAcceptable(monitor, differ, start, past);
    ExecutionKeepsInv(monitor, differ, start, past);
    OneBadEventBlocksTheQueue(monitor, differ, s, |s.confirmed|, k, future);
  }
}
