/**
 * The browser half of trace delivery: an event queue, a debounced edit, and one sender that
 * retries its batch and puts it back at the front when it gives up.
 */
module CodingTrace {
  import opened Prelude
  import opened TraceTypes
  import opened TraceStore

  const MAX_EVENTS_PER_BATCH := 50

  /** Delays before the second, third and fourth post of a batch, in milliseconds. */
  const RETRY_DELAYS_MS := [1000, 2000, 4000]

  /** Where the single active call of the sender is suspended. */
  datatype Phase =
    | Idle
    | Ensuring(batch: seq<Item>)                              // waiting for a session
    | Posting(batch: seq<Item>, attempt: nat, request: nat)   // waiting for a response
    | Waiting(batch: seq<Item>, attempt: nat)                 // waiting out a retry delay

  datatype ClientState = ClientState(queue: seq<Item>, pending: Option<string>, phase: Phase)

  /** Events spliced off the queue and not settled yet. */
  function InFlight(p: Phase): seq<Item> {
    if p.Idle? then [] else p.batch
  }

  function BatchSize(queue: seq<Item>): (n: nat)
    ensures n <= |queue| && n <= MAX_EVENTS_PER_BATCH && (queue != [] ==> n >= 1)
    ensures |queue| >= 50 ==> n == 50
    ensures |queue| < 50 ==> n == |queue|
  {
    if |queue| < MAX_EVENTS_PER_BATCH then |queue| else MAX_EVENTS_PER_BATCH
  }

  function Enqueue(c: ClientState, item: Item): ClientState {
    c.(queue := c.queue + [item])
  }

  function RecordEdit(c: ClientState, code: string): ClientState {
    c.(pending := Some(code))
  }

  /** The debounced edit becomes a CODE_SNAPSHOT event. */
  function DrainPendingEdit(c: ClientState, id: string): ClientState {
    if c.pending.None? then c
    else Enqueue(c.(pending := None), Item(Some(id), CodeSnapshot, c.pending, false))
  }

  /** Only one sender at a time; it takes at most one batch off the front. */
  function StartSend(c: ClientState): ClientState {
    if !c.phase.Idle? || c.queue == [] then c
    else
      var n := BatchSize(c.queue);
      c.(queue := c.queue[n..], phase := Ensuring(c.queue[..n]))
  }

  function PutBack(c: ClientState): ClientState {
    c.(queue := InFlight(c.phase) + c.queue, phase := Idle)
  }

  function SessionReady(c: ClientState, request: nat): ClientState {
    if c.phase.Ensuring? then c.(phase := Posting(c.phase.batch, 0, request)) else c
  }

  function SessionFailed(c: ClientState): ClientState {
    if c.phase.Ensuring? then PutBack(c) else c
  }

  /** A failed post: retriable failures wait as long as a delay is left, all others give up. */
  function PostFailed(c: ClientState, retriable: bool): ClientState {
    if !c.phase.Posting? then c
    else if retriable && c.phase.attempt < |RETRY_DELAYS_MS| then c.(phase := Waiting(c.phase.batch, c.phase.attempt))
    else PutBack(c)
  }

  function RetryDue(c: ClientState, request: nat): ClientState {
    if c.phase.Waiting? then c.(phase := Posting(c.phase.batch, c.phase.attempt + 1, request)) else c
  }

  function PostSucceeded(c: ClientState): ClientState {
    if c.phase.Posting? then c.(phase := Idle) else c
  }

  /** How one post ended, as the sender sees it. */
  datatype PostOutcome = Delivered | Retriable | Rejected | Unauthorized

  /** How the wait for a session ended. */
  datatype SessionOutcome = Opened | Unavailable | Expired

  /** Posts made for one batch, from `attempt` on. */
  function PostsFrom(outcomes: seq<PostOutcome>, attempt: nat): (n: nat)
    requires attempt <= |RETRY_DELAYS_MS| < |outcomes|
    ensures 1 <= n && attempt + n <= |RETRY_DELAYS_MS| + 1
    ensures forall k :: attempt <= k < attempt + n - 1 ==> outcomes[k] == Retriable
    ensures attempt + n <= |RETRY_DELAYS_MS| ==> outcomes[attempt + n - 1] != Retriable
    decreases |RETRY_DELAYS_MS| - attempt
  {
    if outcomes[attempt] == Retriable && attempt < |RETRY_DELAYS_MS| then 1 + PostsFrom(outcomes, attempt + 1) else 1
  }

  /** Four posts at most, and the fourth only after three retriable failures. */
  lemma FourthPostIff(outcomes: seq<PostOutcome>)
    requires |outcomes| >= 4
    ensures PostsFrom(outcomes, 0) <= 4
    ensures PostsFrom(outcomes, 0) == 4 <==> outcomes[0] == outcomes[1] == outcomes[2] == Retriable
  {
    var n := PostsFrom(outcomes, 0);
    assert |RETRY_DELAYS_MS| == 3;
  }

  /** What the user did while the sender waited: events queued, and the edit that is pending now. */
  datatype Meanwhile = Meanwhile(items: seq<Item>, pending: Option<string>)

  function Concat(parts: seq<Meanwhile>): seq<Item> {
    if parts == [] then [] else Concat(parts[..|parts| - 1]) + parts[|parts| - 1].items
  }

  lemma {:induction false} ConcatHead(parts: seq<Meanwhile>)
    requires parts != []
    ensures Concat(parts) == parts[0].items + Concat(parts[1..])
  {
    if |parts| == 1 {
      assert parts[..0] == [] && parts[1..] == [];
    } else {
      var init, rest, last := parts[..|parts| - 1], parts[1..], parts[|parts| - 1];
      ConcatHead(init);
      assert rest[..|rest| - 1] == init[1..];
      Regroup(parts[0].items, Concat(init[1..]), last.items);
    }
  }

  lemma Regroup(a: seq<Item>, b: seq<Item>, c: seq<Item>)
    ensures a + b + c == a + (b + c)
  {
  }

  // ------------------------------------------------------------------ a whole call, step by step

  function Arrive(c: ClientState, w: Meanwhile): ClientState {
    c.(queue := c.queue + w.items, pending := w.pending)
  }

  /** The login expired: the batch in flight is dropped. */
  function DropBatch(c: ClientState): ClientState {
    c.(phase := Idle)
  }

  /** The sender's steps from a post on, one outcome and one piece of user activity per post. */
  function PostSteps(c: ClientState, outcomes: seq<PostOutcome>, arrivals: seq<Meanwhile>): ClientState
    requires c.phase.Posting? && c.phase.attempt <= |RETRY_DELAYS_MS| < |outcomes| == |arrivals|
    decreases |RETRY_DELAYS_MS| - c.phase.attempt
  {
    var answered := Arrive(c, arrivals[c.phase.attempt]);
    match outcomes[c.phase.attempt]
    case Delivered => PostSucceeded(answered)
    case Unauthorized => DropBatch(answered)
    case Rejected => PostFailed(answered, false)
    case Retriable =>
      var failed := PostFailed(answered, true);
      if failed.phase.Waiting? then PostSteps(RetryDue(failed, c.phase.request), outcomes, arrivals) else failed
  }

  /** All steps of one call of the sender. */
  function SendSteps(
    c: ClientState, session: SessionOutcome, outcomes: seq<PostOutcome>, meanwhile: Meanwhile, arrivals: seq<Meanwhile>)
    : ClientState
    requires |RETRY_DELAYS_MS| < |outcomes| == |arrivals|
    requires c.phase.Idle? && c.queue != []
  {
    var waiting := Arrive(StartSend(c), meanwhile);
    match session
    case Opened => PostSteps(SessionReady(waiting, 0), outcomes, arrivals)
    case Unavailable => SessionFailed(waiting)
    case Expired => DropBatch(waiting)
  }

  predicate Settles(outcome: PostOutcome) {
    outcome == Delivered || outcome == Unauthorized
  }

  /** Idle again: the batch gone or back in front, everything newer behind it. */
  function Ended(c: ClientState, settled: bool, arrived: seq<Item>, pending: Option<string>): ClientState {
    ClientState((if settled then [] else InFlight(c.phase)) + c.queue + arrived, pending, Idle)
  }

  lemma EndedAfterArrival(
    c: ClientState, phase: Phase, settled: bool, a: Meanwhile, b: seq<Item>, pending: Option<string>)
    requires InFlight(phase) == InFlight(c.phase)
    ensures Ended(Arrive(c, a).(phase := phase), settled, b, pending) == Ended(c, settled, a.items + b, pending)
  {
    var front := if settled then [] else InFlight(c.phase);
    assert front + (c.queue + a.items) + b == front + c.queue + (a.items + b);
  }

  /** The last post of a batch. */
  lemma LastPost(c: ClientState, outcomes: seq<PostOutcome>, arrivals: seq<Meanwhile>)
    requires c.phase.Posting? && c.phase.attempt <= |RETRY_DELAYS_MS| < |outcomes| == |arrivals|
    requires outcomes[c.phase.attempt] != Retriable || c.phase.attempt == |RETRY_DELAYS_MS|
    ensures var w := arrivals[c.phase.attempt];
            PostSteps(c, outcomes, arrivals) == Ended(c, Settles(outcomes[c.phase.attempt]), w.items, w.pending)
  {
    var items := arrivals[c.phase.attempt].items;
    assert [] + c.queue + items == c.queue + items;
    assert c.phase.batch + c.queue + items == c.phase.batch + (c.queue + items);
  }

  /** Events queued during `n` posts from number `k` on. */
  function ArrivedDuring(arrivals: seq<Meanwhile>, k: nat, n: nat): seq<Item>
    requires k + n <= |arrivals|
  {
    Concat(arrivals[k..k + n])
  }

  lemma ArrivedFirst(arrivals: seq<Meanwhile>, k: nat, n: nat)
    requires n >= 1 && k + n <= |arrivals|
    ensures ArrivedDuring(arrivals, k, n) == arrivals[k].items + ArrivedDuring(arrivals, k + 1, n - 1)
    ensures ArrivedDuring(arrivals, k + n, 0) == []
  {
    ConcatHead(arrivals[k..k + n]);
    assert arrivals[k..k + n][1..] == arrivals[k + 1..k + n];
    assert arrivals[k + n..k + n] == [];
  }

  lemma {:induction false} PostStepsEnd(
    c: ClientState, outcomes: seq<PostOutcome>, arrivals: seq<Meanwhile>, k: nat, n: nat)
    requires c.phase.Posting? && c.phase.attempt == k <= |RETRY_DELAYS_MS| < |outcomes| == |arrivals|
    requires n == PostsFrom(outcomes, k)
    ensures PostSteps(c, outcomes, arrivals)
         == Ended(c, Settles(outcomes[k + n - 1]), ArrivedDuring(arrivals, k, n), arrivals[k + n - 1].pending)
    decreases |RETRY_DELAYS_MS| - k
  {
    ArrivedFirst(arrivals, k, n);
    if outcomes[k] == Retriable && k < |RETRY_DELAYS_MS| {
      var next := RetryDue(PostFailed(Arrive(c, arrivals[k]), true), c.phase.request);
      PostStepsEnd(next, outcomes, arrivals, k + 1, n - 1);
      EndedAfterArrival(c, next.phase, Settles(outcomes[k + n - 1]), arrivals[k], ArrivedDuring(arrivals, k + 1, n - 1),
                        arrivals[k + n - 1].pending);
    } else {
      LastPost(c, outcomes, arrivals);
      ArrivedFirst(arrivals, k, 1);
    }
  }

  /** The edit pending after `posts` posts. */
  function PendingAfter(meanwhile: Meanwhile, arrivals: seq<Meanwhile>, posts: nat): Option<string>
    requires posts <= |arrivals|
  {
    if posts == 0 then meanwhile.pending else arrivals[posts - 1].pending
  }

  /** Where a call ends: `posts` posts were made, and the batch settled or went back. */
  lemma SendStepsEnd(
    c: ClientState, session: SessionOutcome, outcomes: seq<PostOutcome>, meanwhile: Meanwhile,
    arrivals: seq<Meanwhile>, posts: nat)
    requires |RETRY_DELAYS_MS| < |outcomes| == |arrivals|
    requires c.phase.Idle? && c.queue != []
    requires posts == if session == Opened then PostsFrom(outcomes, 0) else 0
    ensures SendSteps(c, session, outcomes, meanwhile, arrivals)
         == Ended(Arrive(StartSend(c), meanwhile),
                  session == Expired || (session == Opened && Settles(outcomes[posts - 1])),
                  ArrivedDuring(arrivals, 0, posts), PendingAfter(meanwhile, arrivals, posts))
  {
    var waiting := Arrive(StartSend(c), meanwhile);
    if session == Opened {
      PostStepsEnd(SessionReady(waiting, 0), outcomes, arrivals, 0, posts);
    } else {
      ArrivedFirst(arrivals, 0, 1);
      assert arrivals[0..0] == [];
      assert InFlight(waiting.phase) + waiting.queue + [] == InFlight(waiting.phase) + waiting.queue;
      assert [] + waiting.queue + [] == waiting.queue;
    }
  }

  /** A call that neither delivered nor met an expired login leaves the queue as it was, newer events behind it. */
  lemma FailedCallKeepsQueue(
    c: ClientState, session: SessionOutcome, outcomes: seq<PostOutcome>, meanwhile: Meanwhile,
    arrivals: seq<Meanwhile>, posts: nat)
    requires |RETRY_DELAYS_MS| < |outcomes| == |arrivals|
    requires c.phase.Idle? && c.queue != []
    requires posts == if session == Opened then PostsFrom(outcomes, 0) else 0
    requires session == Unavailable || (session == Opened && !Settles(outcomes[posts - 1]))
    ensures var after := SendSteps(c, session, outcomes, meanwhile, arrivals);
            && after.phase.Idle? && after.queue == c.queue + meanwhile.items + ArrivedDuring(arrivals, 0, posts)
            && after.pending == PendingAfter(meanwhile, arrivals, posts)
  {
    var n := BatchSize(c.queue);
    SendStepsEnd(c, session, outcomes, meanwhile, arrivals, posts);
    assert c.queue[..n] + c.queue[n..] == c.queue;
    assert c.queue[..n] + (c.queue[n..] + meanwhile.items) == c.queue + meanwhile.items;
  }

  lemma EndedQueue(c: ClientState, arrived: seq<Item>, pending: Option<string>)
    ensures Ended(c, true, arrived, pending).queue == c.queue + arrived
    ensures Ended(c, false, arrived, pending).queue == InFlight(c.phase) + (c.queue + arrived)
  {
    assert [] + c.queue + arrived == c.queue + arrived;
    assert InFlight(c.phase) + c.queue + arrived == InFlight(c.phase) + (c.queue + arrived);
  }

  /** The hook's mutable references. */
  class TraceQueue {
    var active: bool
    var queue: seq<Item>
    var pending: Option<string>
    var phase: Phase

    function View(): ClientState
      reads this
    {
      ClientState(queue, pending, phase)
    }

    constructor ()
      ensures View() == ClientState([], None, Idle) && active
    {
      active, queue, pending, phase := true, [], None, Idle;
    }

    method Push(item: Item)
      modifies this`queue
      ensures View() == Enqueue(old(View()), item)
    {
      queue := queue + [item];
    }

    /** The newest keystrokes replace whatever was pending. */
    method Edit(code: string)
      modifies this`pending
      ensures active ==> pending == Some(code)
      ensures View() == if active then RecordEdit(old(View()), code) else old(View())
    {
      if active {
        pending := Some(code);
      }
    }

    method Drain(id: string)
      modifies this`queue, this`pending
      ensures View() == DrainPendingEdit(old(View()), id)
    {
      var code := pending;
      if code.None? {
        return;
      }
      pending := None;
      Push(Item(Some(id), CodeSnapshot, code, false));
    }

    /** The retry loop: post the batch up to four times, waiting between the posts; `last` is how it ended. */
    method PostWithRetries(batch: seq<Item>, outcomes: seq<PostOutcome>, arrivals: seq<Meanwhile>)
      returns (posts: nat, last: PostOutcome)
      requires |RETRY_DELAYS_MS| < |outcomes| == |arrivals|
      modifies this`queue, this`pending, this`phase
      ensures posts == PostsFrom(outcomes, 0) && last == outcomes[posts - 1]
      ensures queue == old(queue) + ArrivedDuring(arrivals, 0, posts) && pending == arrivals[posts - 1].pending
      ensures InFlight(phase) == batch
    {
      posts := 0;
      assert arrivals[..0] == [];
      while true
        invariant posts <= |RETRY_DELAYS_MS|
        invariant PostsFrom(outcomes, 0) == posts + PostsFrom(outcomes, posts)
        invariant queue == old(queue) + Concat(arrivals[..posts])
        decreases |RETRY_DELAYS_MS| - posts
      {
        phase := Posting(batch, posts, posts);
        last := outcomes[posts];
        assert arrivals[..posts + 1][..posts] == arrivals[..posts];
        queue, pending := queue + arrivals[posts].items, arrivals[posts].pending;
        posts := posts + 1;
        if last != Retriable || posts > |RETRY_DELAYS_MS| {
          assert arrivals[0..posts] == arrivals[..posts];
          return;
        }
        phase := Waiting(batch, posts - 1);
      }
    }

    /**
     * One whole call of the sender: splice a batch, ensure the session, post with retries, put the
     * batch back unless it was delivered or the login expired at either step. While it waits the user
     * goes on: `meanwhile` during the session request, `arrivals[k]` during post k and its delay.
     */
    method Send(session: SessionOutcome, outcomes: seq<PostOutcome>, meanwhile: Meanwhile, arrivals: seq<Meanwhile>)
      returns (posts: nat, delivered: bool)
      requires |RETRY_DELAYS_MS| < |outcomes| == |arrivals|
      modifies this`queue, this`pending, this`phase
      ensures !active || old(phase) != Idle || old(queue) == [] ==> View() == old(View()) && posts == 0 && !delivered
      ensures active && old(phase) == Idle && old(queue) != [] ==>
                && View() == SendSteps(old(View()), session, outcomes, meanwhile, arrivals)
                && posts == (if session == Opened then PostsFrom(outcomes, 0) else 0)
                && delivered == (session == Opened && outcomes[posts - 1] == Delivered)
    {
      posts, delivered := 0, false;
      if phase != Idle || queue == [] || !active {
        return;
      }
      var n := BatchSize(queue);
      var batch := queue[..n];
      queue, phase := queue[n..], Ensuring(batch);
      queue, pending := queue + meanwhile.items, meanwhile.pending;
      ghost var waiting := View();
      assert waiting == Arrive(StartSend(old(View())), meanwhile);
      var last := if session == Expired then Unauthorized else Rejected;
      if session == Opened {
        posts, last := PostWithRetries(batch, outcomes, arrivals);
      } else {
        assert arrivals[0..0] == [];
        assert queue + [] == queue;
      }
      delivered := last == Delivered;
      SendStepsEnd(old(View()), session, outcomes, meanwhile, arrivals, posts);
      EndedQueue(waiting, ArrivedDuring(arrivals, 0, posts), pending);
      if !delivered && last != Unauthorized {
        queue := batch + queue;
      }
      phase := Idle;
    }
  }

  /** Sending loses nothing: conservation for one call, whatever the network and the user do. */
  lemma SenderConserves(c: ClientState)
    ensures InFlight(StartSend(c).phase) + StartSend(c).queue == InFlight(c.phase) + c.queue
    ensures InFlight(SessionFailed(c).phase) + SessionFailed(c).queue == InFlight(c.phase) + c.queue
    ensures forall retriable ::
              InFlight(PostFailed(c, retriable).phase) + PostFailed(c, retriable).queue == InFlight(c.phase) + c.queue
    ensures forall r :: InFlight(SessionReady(c, r).phase) + SessionReady(c, r).queue == InFlight(c.phase) + c.queue
    ensures forall r :: InFlight(RetryDue(c, r).phase) + RetryDue(c, r).queue == InFlight(c.phase) + c.queue
  {
    assert InFlight(PutBack(c).phase) + PutBack(c).queue == InFlight(c.phase) + c.queue;
    if c.phase.Idle? && c.queue != [] {
      var n := BatchSize(c.queue);
      assert c.queue[..n] + c.queue[n..] == c.queue;
    }
  }
}
