/**
 * The whole delivery system: the browser's queue and sender, a network that may lose, duplicate,
 * delay and reorder requests and replies, and the server's trace store, in any interleaving.
 */
module Delivery {
  import opened Prelude
  import opened TraceTypes
  import opened TraceStore
  import opened MonitorRuns
  import opened IngestLaws
  import opened CodingTrace

  /** A POST of one batch on its way to the server. */
  datatype Request = Request(id: nat, batch: seq<Item>)

  /** A batch once posted: request number is its index; `start` is where it sits in the history. */
  datatype Sent = Sent(start: nat, batch: seq<Item>)

  /**
   * `history` lists every event ever queued, `confirmed` those whose delivery the client saw,
   * `sent` every request ever made; `requests` and `replies` are what the network holds now.
   */
  datatype System = System(
    client: ClientState, history: seq<Item>, confirmed: seq<Item>, sent: seq<Sent>,
    requests: multiset<Request>, replies: multiset<nat>, server: Store)

  /** What happens in the browser. */
  datatype ClientAction =
    | UserEdits(code: string)
    | EditSettles(id: string)
    | UserActs(item: Item)
    | SendStarts
    | SessionUp
    | SessionDown
    | PostFails(retriable: bool)
    | DelayEnds
    | ReplyArrives

  /** What happens on the network and on the server. */
  datatype NetworkAction =
    | RequestLost(request: Request)
    | RequestDuplicated(request: Request)
    | RequestServed(request: Request, now: int)
    | ReplyLost(number: nat)
    | ReplyDuplicated(number: nat)
    | ServerActs(step: Step)

  datatype Action = OnClient(c: ClientAction) | OnNetwork(n: NetworkAction)

  /** Ids come from a generator of unique ids. */
  predicate IsNewId(s: System, item: Item) {
    item.clientId.Some? && item.clientId.value !in IdSet(s.history)
  }

  function Queue(s: System, client: ClientState, item: Item): System {
    s.(client := client, history := s.history + [item])
  }

  /** Hand the batch of a sender that is now posting to the network, under a new request number. */
  function Post(s: System, client: ClientState): System {
    if !client.phase.Posting? then s.(client := client)
    else
      s.(client := client,
         sent := s.sent + [Sent(|s.confirmed|, client.phase.batch)],
         requests := s.requests + multiset{Request(client.phase.request, client.phase.batch)})
  }

  /** The server handles one request: one transaction, and a reply only after the commit. */
  function Serve(differ: Differ, s: System, r: Request, now: int): System {
    var result := Ingest(differ, s.server, r.batch, now);
    var taken := s.(requests := s.requests - multiset{r});
    if result.Ok? then taken.(server := result.value, replies := s.replies + multiset{r.id}) else taken
  }

  /** A browser step; an action that is not possible in the state changes nothing. */
  function ClientNext(s: System, a: ClientAction): System {
    var c := s.client;
    match a
    case UserEdits(code) => s.(client := RecordEdit(c, code))
    case EditSettles(id) =>
      var item := Item(Some(id), CodeSnapshot, c.pending, false);
      if c.pending.Some? && IsNewId(s, item) then Queue(s, DrainPendingEdit(c, id), item) else s
    case UserActs(item) => if IsNewId(s, item) then Queue(s, Enqueue(c, item), item) else s
    case SendStarts => s.(client := StartSend(c))
    case SessionUp => if c.phase.Ensuring? then Post(s, SessionReady(c, |s.sent|)) else s
    case SessionDown => s.(client := SessionFailed(c))
    case PostFails(retriable) => s.(client := PostFailed(c, retriable))
    case DelayEnds => if c.phase.Waiting? then Post(s, RetryDue(c, |s.sent|)) else s
    case ReplyArrives =>
      if c.phase.Posting? && c.phase.request in s.replies then
        s.(client := PostSucceeded(c), confirmed := s.confirmed + c.phase.batch,
           replies := s.replies - multiset{c.phase.request})
      else s
  }

  function NetworkNext(monitor: Evaluator, differ: Differ, s: System, a: NetworkAction): System {
    match a
    case RequestLost(r) => s.(requests := s.requests - multiset{r})
    case RequestDuplicated(r) => if r in s.requests then s.(requests := s.requests + multiset{r}) else s
    case RequestServed(r, now) => if r in s.requests then Serve(differ, s, r, now) else s
    case ReplyLost(id) => s.(replies := s.replies - multiset{id})
    case ReplyDuplicated(id) => if id in s.replies then s.(replies := s.replies + multiset{id}) else s
    case ServerActs(step) => if step.Batch? then s else s.(server := Apply(monitor, differ, s.server, step))
  }

  function Next(monitor: Evaluator, differ: Differ, s: System, a: Action): System {
    match a
    case OnClient(c) => ClientNext(s, c)
    case OnNetwork(n) => NetworkNext(monitor, differ, s, n)
  }

  function Start(differ: Differ, template: string, at: int): System {
    System(ClientState([], None, Idle), [], [], [], multiset{}, multiset{}, OpenSession(differ, template, at))
  }

  function Reach(monitor: Evaluator, differ: Differ, s: System, actions: seq<Action>): System {
    if actions == [] then s
    else Next(monitor, differ, Reach(monitor, differ, s, actions[..|actions| - 1]), actions[|actions| - 1])
  }

  // ------------------------------------------------------------------ the invariant

  /** How many of the client's events the server log holds. */
  function Arrived(s: System): nat {
    Held(s.server)
  }

  /** The log holds exactly the first events of the history, in order, once each. */
  ghost predicate LogIsPrefix(s: System) {
    Holds(s.server, s.history)
  }

  /** Nothing is lost on the client: confirmed, in flight and queued make up the history. */
  ghost predicate Conserved(s: System) {
    && s.history == s.confirmed + InFlight(s.client.phase) + s.client.queue
    && |s.confirmed| <= Arrived(s)
  }

  /** A posted batch: a segment of the history that starts inside the log. */
  ghost predicate IsSegment(s: System, m: Sent) {
    && m.start <= Arrived(s)
    && 1 <= |m.batch| <= MAX_EVENTS_PER_BATCH
    && m.start + |m.batch| <= |s.history|
    && m.batch == s.history[m.start..m.start + |m.batch|]
  }

  ghost predicate SentAreSegments(s: System) {
    forall k :: 0 <= k < |s.sent| ==> IsSegment(s, s.sent[k])
  }

  ghost predicate NetworkIsSent(s: System) {
    && (forall r :: r in s.requests ==> r.id < |s.sent| && s.sent[r.id].batch == r.batch)
    && (forall id :: id in s.replies ==> id < |s.sent| && s.sent[id].start + |s.sent[id].batch| <= Arrived(s))
  }

  /** The sender's batch is of legal size and, while posted, is the request it names. */
  ghost predicate SenderOk(s: System) {
    var p := s.client.phase;
    && (!p.Idle? ==> 1 <= |p.batch| <= MAX_EVENTS_PER_BATCH)
    && (p.Posting? ==>
          && p.request < |s.sent| && s.sent[p.request] == Sent(|s.confirmed|, p.batch)
          && p.attempt <= |RETRY_DELAYS_MS|)
    && (p.Waiting? ==> p.attempt < |RETRY_DELAYS_MS|)
  }

  ghost predicate Inv(s: System) {
    Valid(s.server) && LogIsPrefix(s) && Conserved(s) && SentAreSegments(s) && NetworkIsSent(s) && SenderOk(s)
  }

  lemma StartInv(differ: Differ, template: string, at: int)
    ensures Inv(Start(differ, template, at))
  {
    OpenValid(differ, template, at);
    NoClientRows(OpenSession(differ, template, at).events);
  }

  // ------------------------------------------------------------------ each step keeps it

  lemma NewIdKeepsDistinct(history: seq<Item>, item: Item)
    requires DistinctIds(history) && item.clientId.Some? && item.clientId.value !in IdSet(history)
    ensures DistinctIds(history + [item])
  {
    forall i | 0 <= i < |history|
      ensures history[i].clientId.value != item.clientId.value
    {
      IdSetMember(history, history[i].clientId.value);
    }
  }

  /** A longer history still holds everything the log holds. */
  lemma HoldsLonger(st: Store, history: seq<Item>, item: Item)
    requires Holds(st, history) && item.clientId.Some? && item.clientId.value !in IdSet(history)
    ensures Holds(st, history + [item])
  {
    NewIdKeepsDistinct(history, item);
    assert (history + [item])[..Held(st)] == history[..Held(st)];
  }

  /** Segments stay segments while history and log grow. */
  lemma SegmentsGrow(s: System, next: System)
    requires SentAreSegments(s) && next.sent == s.sent
    requires s.history <= next.history && Arrived(s) <= Arrived(next)
    ensures SentAreSegments(next)
  {
    forall k | 0 <= k < |next.sent|
      ensures IsSegment(next, next.sent[k])
    {
      var m := s.sent[k];
      assert IsSegment(s, m);
      assert next.history[m.start..m.start + |m.batch|] == s.history[m.start..m.start + |m.batch|];
    }
  }

  lemma QueueConserves(s: System, client: ClientState, item: Item)
    requires Conserved(s)
    requires client.phase == s.client.phase && client.queue == s.client.queue + [item]
    ensures Conserved(Queue(s, client, item))
  {
    assert s.confirmed + InFlight(client.phase) + (s.client.queue + [item]) == s.history + [item];
  }

  lemma QueueKeeps(s: System, client: ClientState, item: Item)
    requires Inv(s) && IsNewId(s, item)
    requires client.phase == s.client.phase && client.queue == s.client.queue + [item]
    ensures Inv(Queue(s, client, item))
  {
    var next := Queue(s, client, item);
    HoldsLonger(s.server, s.history, item);
    QueueConserves(s, client, item);
    SegmentsGrow(s, next);
  }

  /** Moves of the sender that only shuffle events between batch and queue. */
  lemma ClientMoveKeeps(s: System, client: ClientState)
    requires Inv(s)
    requires InFlight(client.phase) + client.queue == InFlight(s.client.phase) + s.client.queue
    requires SenderOk(s.(client := client))
    ensures Inv(s.(client := client))
  {
    var next := s.(client := client);
    calc {
      s.history;
      s.confirmed + InFlight(s.client.phase) + s.client.queue;
      s.confirmed + (InFlight(s.client.phase) + s.client.queue);
      s.confirmed + InFlight(client.phase) + client.queue;
    }
    assert forall k :: 0 <= k < |s.sent| ==> IsSegment(s, s.sent[k]) ==> IsSegment(next, s.sent[k]);
  }

  lemma PostKeeps(s: System, client: ClientState)
    requires Inv(s)
    requires client.phase.Posting? && client.phase.request == |s.sent| && client.phase.attempt <= |RETRY_DELAYS_MS|
    requires !s.client.phase.Idle? && client.phase.batch == s.client.phase.batch && client.queue == s.client.queue
    ensures Inv(Post(s, client))
  {
    var next := Post(s, client);
    var m := Sent(|s.confirmed|, client.phase.batch);
    assert s.history[m.start..m.start + |m.batch|] == m.batch;
    forall k | 0 <= k < |next.sent|
      ensures IsSegment(next, next.sent[k])
    {
      if k < |s.sent| {
        assert IsSegment(s, s.sent[k]);
      }
    }
  }

  lemma ReplyKeeps(s: System)
    requires Inv(s)
    requires s.client.phase.Posting? && s.client.phase.request in s.replies
    ensures Inv(s.(client := PostSucceeded(s.client), confirmed := s.confirmed + s.client.phase.batch,
                   replies := s.replies - multiset{s.client.phase.request}))
  {
    var batch := s.client.phase.batch;
    var next := s.(client := PostSucceeded(s.client), confirmed := s.confirmed + batch,
                   replies := s.replies - multiset{s.client.phase.request});
    assert forall k :: 0 <= k < |s.sent| ==> IsSegment(s, s.sent[k]) ==> IsSegment(next, s.sent[k]);
    assert s.confirmed + batch + s.client.queue == s.confirmed + batch + [] + s.client.queue;
  }

  /** A log that grew inside the history keeps everything said about the client and the network. */
  lemma GrowthKeeps(s: System, next: System)
    requires Inv(s)
    requires next == s.(server := next.server, requests := next.requests, replies := next.replies)
    requires Valid(next.server) && LogIsPrefix(next) && Arrived(s) <= Arrived(next)
    requires NetworkIsSent(next)
    ensures Inv(next)
  {
    assert forall k :: 0 <= k < |s.sent| ==> IsSegment(s, s.sent[k]) ==> IsSegment(next, s.sent[k]);
  }

  /** What serving a request that is a segment of the history does to the server. */
  lemma ServedSegment(differ: Differ, s: System, r: Request, now: int)
    requires Valid(s.server) && LogIsPrefix(s)
    requires r.id < |s.sent| && s.sent[r.id].batch == r.batch && IsSegment(s, s.sent[r.id])
    ensures var next := Serve(differ, s, r, now);
            var end := s.sent[r.id].start + |r.batch|;
            if AllAcceptable(MissingFrom(s.history, Arrived(s), end)) then
              Stored(s.server, s.history, end, next.server) && next.replies == s.replies + multiset{r.id}
            else next.server == s.server && next.replies == s.replies
  {
    SegmentOutcome(differ, s.server, s.history, s.sent[r.id].start, r.batch, now);
  }

  /** Serving any request that was ever sent, at any time, keeps the invariant. */
  lemma ServeKeeps(differ: Differ, s: System, r: Request, now: int)
    requires Inv(s) && r in s.requests
    ensures Inv(Serve(differ, s, r, now))
  {
    assert IsSegment(s, s.sent[r.id]);
    ServedSegment(differ, s, r, now);
    GrowthKeeps(s, Serve(differ, s, r, now));
  }

  lemma ClientStepKeeps(s: System, a: ClientAction)
    requires Inv(s)
    ensures Inv(ClientNext(s, a))
  {
    var c := s.client;
    SenderConserves(c);
    match a
    case UserEdits(code) => ClientMoveKeeps(s, RecordEdit(c, code));
    case EditSettles(id) =>
      var item := Item(Some(id), CodeSnapshot, c.pending, false);
      if c.pending.Some? && IsNewId(s, item) {
        QueueKeeps(s, DrainPendingEdit(c, id), item);
      }
    case UserActs(item) =>
      if IsNewId(s, item) {
        QueueKeeps(s, Enqueue(c, item), item);
      }
    case SendStarts => ClientMoveKeeps(s, StartSend(c));
    case SessionUp =>
      if c.phase.Ensuring? {
        PostKeeps(s, SessionReady(c, |s.sent|));
      }
    case SessionDown => ClientMoveKeeps(s, SessionFailed(c));
    case PostFails(retriable) => ClientMoveKeeps(s, PostFailed(c, retriable));
    case DelayEnds =>
      if c.phase.Waiting? {
        PostKeeps(s, RetryDue(c, |s.sent|));
      }
    case ReplyArrives =>
      if c.phase.Posting? && c.phase.request in s.replies {
        ReplyKeeps(s);
      }
  }

  lemma ServerStepKeeps(monitor: Evaluator, differ: Differ, s: System, step: Step)
    requires Inv(s) && !step.Batch?
    ensures Inv(s.(server := Apply(monitor, differ, s.server, step)))
  {
    ServerRowsCarryNoIds(monitor, differ, s.server, step);
    GrowthKeeps(s, s.(server := Apply(monitor, differ, s.server, step)));
  }

  /** Losing and duplicating only changes how many copies the network holds. */
  lemma TransportOnlyCopies(monitor: Evaluator, differ: Differ, s: System, a: NetworkAction)
    requires !a.RequestServed? && !a.ServerActs?
    ensures var next := NetworkNext(monitor, differ, s, a);
            && next == s.(requests := next.requests, replies := next.replies)
            && (forall r :: r in next.requests ==> r in s.requests)
            && (forall id :: id in next.replies ==> id in s.replies)
  {
  }

  lemma TransportKeeps(s: System, next: System)
    requires Inv(s)
    requires next == s.(requests := next.requests, replies := next.replies)
    requires forall r :: r in next.requests ==> r in s.requests
    requires forall id :: id in next.replies ==> id in s.replies
    ensures Inv(next)
  {
    GrowthKeeps(s, next);
  }

  lemma NetworkStepKeeps(monitor: Evaluator, differ: Differ, s: System, a: NetworkAction)
    requires Inv(s)
    ensures Inv(NetworkNext(monitor, differ, s, a))
  {
    if a.RequestServed? {
      if a.request in s.requests {
        ServeKeeps(differ, s, a.request, a.now);
      }
    } else if a.ServerActs? {
      if !a.step.Batch? {
        ServerStepKeeps(monitor, differ, s, a.step);
      }
    } else {
      TransportOnlyCopies(monitor, differ, s, a);
      TransportKeeps(s, NetworkNext(monitor, differ, s, a));
    }
  }

  lemma StepKeepsInv(monitor: Evaluator, differ: Differ, s: System, a: Action)
    requires Inv(s)
    ensures Inv(Next(monitor, differ, s, a))
  {
    match a
    case OnClient(c) => ClientStepKeeps(s, c);
    case OnNetwork(n) => NetworkStepKeeps(monitor, differ, s, n);
  }

  lemma {:induction false} ExecutionKeepsInv(monitor: Evaluator, differ: Differ, s: System, actions: seq<Action>)
    requires Inv(s)
    ensures Inv(Reach(monitor, differ, s, actions))
  {
    if actions != [] {
      var before := actions[..|actions| - 1];
      ExecutionKeepsInv(monitor, differ, s, before);
      StepKeepsInv(monitor, differ, Reach(monitor, differ, s, before), actions[|actions| - 1]);
    }
  }

  // ------------------------------------------------------------------ what delivery guarantees

  function Reached(monitor: Evaluator, differ: Differ, template: string, at: int, actions: seq<Action>): System {
    Reach(monitor, differ, Start(differ, template, at), actions)
  }

  /**
   * Exactly once, in order: whatever the network does, the client rows of the server log are a
   * duplicate-free prefix of what the client queued, and every request ever made is a segment of the
   * history that starts inside the log.
   */
  lemma LogIsAlwaysPrefix(monitor: Evaluator, differ: Differ, template: string, at: int, actions: seq<Action>)
    ensures var s := Reached(monitor, differ, template, at, actions);
            var rows := ClientRows(s.server.events);
            && rows <= RowsOf(s.history)
            && (forall i, j :: 0 <= i < j < |rows| ==> rows[i].id != rows[j].id)
            && SentAreSegments(s)
  {
    StartInv(differ, template, at);
    ExecutionKeepsInv(monitor, differ, Start(differ, template, at), actions);
    var s := Reached(monitor, differ, template, at, actions);
    var n := Arrived(s);
    RowsAt(s.history);
    RowsAt(s.history[..n]);
  }

  /** Conservation: confirmed, in flight and queued are the history, and all confirmed events are stored. */
  lemma NothingIsLost(monitor: Evaluator, differ: Differ, template: string, at: int, actions: seq<Action>)
    ensures var s := Reached(monitor, differ, template, at, actions);
            && s.history == s.confirmed + InFlight(s.client.phase) + s.client.queue
            && RowsOf(s.confirmed) <= ClientRows(s.server.events)
    ensures var s := Reached(monitor, differ, template, at, actions);
            s.client.queue == [] && s.client.phase.Idle? ==> ClientRows(s.server.events) == RowsOf(s.history)
  {
    StartInv(differ, template, at);
    ExecutionKeepsInv(monitor, differ, Start(differ, template, at), actions);
    var s := Reached(monitor, differ, template, at, actions);
    var n := Arrived(s);
    assert s.history[..|s.confirmed|] == s.confirmed;
    RowsAt(s.history[..n]);
    RowsAt(s.confirmed);
    if s.client.queue == [] && s.client.phase.Idle? {
      assert s.history == s.confirmed;
      assert s.history[..n] == s.history;
    }
  }

  // ------------------------------------------------------------------ retries are invisible to snapshots

  predicate NoJudgedCode(a: Action) {
    a.OnNetwork? && a.n.ServerActs? ==> BringsNoCode(a.n.step)
  }

  /** The chain is the template plus each arrived edit, saved once. */
  ghost predicate ChainIsFold(s: System, template: string) {
    Arrived(s) <= |s.history| && Codes(s.server.snapshots) == FoldCodes([template], s.history[..Arrived(s)])
  }

  /** Serving events up to `end` either stored all that was missing of them or changed nothing. */
  ghost predicate Progressed(s: System, next: System, end: nat) {
    && next.history == s.history && Arrived(s) <= |s.history| && end <= |s.history|
    && if AllAcceptable(MissingFrom(s.history, Arrived(s), end)) then
         && Arrived(next) == Max(Arrived(s), end)
         && Codes(next.server.snapshots)
              == FoldCodes(Codes(s.server.snapshots), MissingFrom(s.history, Arrived(s), end))
       else next.server == s.server
  }

  lemma ServeProgresses(differ: Differ, s: System, r: Request, now: int) returns (end: nat)
    requires Inv(s) && r in s.requests
    ensures Progressed(s, Serve(differ, s, r, now), end)
    ensures AllAcceptable(MissingFrom(s.history, Arrived(s), end)) ==> r.id in Serve(differ, s, r, now).replies
  {
    assert IsSegment(s, s.sent[r.id]);
    end := s.sent[r.id].start + |r.batch|;
    ServedSegment(differ, s, r, now);
    StoredProgresses(s, Serve(differ, s, r, now), end);
  }

  lemma StoredProgresses(s: System, next: System, end: nat)
    requires LogIsPrefix(s) && next.history == s.history && end <= |s.history|
    requires if AllAcceptable(MissingFrom(s.history, Arrived(s), end)) then
               Stored(s.server, s.history, end, next.server)
             else next.server == s.server
    ensures Progressed(s, next, end)
  {
  }

  lemma FoldGrows(s: System, next: System, end: nat, template: string)
    requires ChainIsFold(s, template) && Progressed(s, next, end)
    ensures ChainIsFold(next, template)
  {
    if AllAcceptable(MissingFrom(s.history, Arrived(s), end)) {
      MissingCompletes(s.history, Arrived(s), end);
      FoldCodesAppend([template], s.history[..Arrived(s)], MissingFrom(s.history, Arrived(s), end));
    }
  }

  lemma ClientStepOnlyQueues(s: System, a: ClientAction)
    ensures ClientNext(s, a).server == s.server
    ensures s.history <= ClientNext(s, a).history
  {
  }

  lemma OtherNetworkStepsKeepLog(monitor: Evaluator, differ: Differ, s: System, a: NetworkAction)
    requires Valid(s.server) && !a.RequestServed?
    ensures var next := NetworkNext(monitor, differ, s, a);
            next.history == s.history && Arrived(next) == Arrived(s)
  {
    if a.ServerActs? && !a.step.Batch? {
      ServerRowsCarryNoIds(monitor, differ, s.server, a.step);
    }
  }

  lemma OtherNetworkStepsKeepChain(monitor: Evaluator, differ: Differ, s: System, a: NetworkAction)
    requires (a.ServerActs? ==> BringsNoCode(a.step)) && !a.RequestServed?
    ensures NetworkNext(monitor, differ, s, a).server.snapshots == s.server.snapshots
  {
    if a.ServerActs? && !a.step.Batch? {
      NoCodeNoSnapshot(monitor, differ, s.server, a.step);
    }
  }

  lemma StepKeepsFold(monitor: Evaluator, differ: Differ, s: System, a: Action, template: string)
    requires Inv(s) && ChainIsFold(s, template) && NoJudgedCode(a)
    ensures ChainIsFold(Next(monitor, differ, s, a), template)
  {
    match a
    case OnClient(c) =>
      ClientStepOnlyQueues(s, c);
      assert ClientNext(s, c).history[..Arrived(s)] == s.history[..Arrived(s)];
    case OnNetwork(n) =>
      if n.RequestServed? {
        if n.request in s.requests {
          var end := ServeProgresses(differ, s, n.request, n.now);
          FoldGrows(s, Serve(differ, s, n.request, n.now), end, template);
        }
      } else {
        OtherNetworkStepsKeepLog(monitor, differ, s, n);
        OtherNetworkStepsKeepChain(monitor, differ, s, n);
      }
  }

  lemma StartIsFold(differ: Differ, template: string, at: int)
    ensures ChainIsFold(Start(differ, template, at), template)
  {
    NoClientRows(OpenSession(differ, template, at).events);
    assert Codes(OpenSession(differ, template, at).snapshots) == [template];
  }

  lemma {:induction false} ReachKeepsFold(
    monitor: Evaluator, differ: Differ, template: string, at: int, actions: seq<Action>)
    requires forall i :: 0 <= i < |actions| ==> NoJudgedCode(actions[i])
    ensures ChainIsFold(Reached(monitor, differ, template, at, actions), template)
  {
    StartInv(differ, template, at);
    if actions == [] {
      StartIsFold(differ, template, at);
    } else {
      var before := actions[..|actions| - 1];
      ReachKeepsFold(monitor, differ, template, at, before);
      ExecutionKeepsInv(monitor, differ, Start(differ, template, at), before);
      StepKeepsFold(monitor, differ, Reached(monitor, differ, template, at, before), actions[|actions| - 1], template);
    }
  }

  /**
   * Retries are invisible to snapshots: through any losses and retries the chain has versions
   * 1, 2, ..., each the child of the one before with different code, and its codes are those of
   * saving the template and then each arrived edit exactly once.
   */
  lemma RetriesInvisibleToSnapshots(monitor: Evaluator, differ: Differ, template: string, at: int, actions: seq<Action>)
    requires forall i :: 0 <= i < |actions| ==> NoJudgedCode(actions[i])
    ensures var s := Reached(monitor, differ, template, at, actions);
            ValidChain(s.server) && ChainIsFold(s, template)
  {
    ReachKeepsFold(monitor, differ, template, at, actions);
    StartInv(differ, template, at);
    ExecutionKeepsInv(monitor, differ, Start(differ, template, at), actions);
  }
}
