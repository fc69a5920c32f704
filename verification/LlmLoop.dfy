/**
 * The process-wide event loop for LLM calls, created lazily with double-checked locking: any number
 * of threads inside `ensure`, interleaved between every two shared accesses, while loops may close.
 */
module LlmLoop {
  import opened Prelude

  /** Where a thread is inside `ensure`; a loop is named by the order of its creation. */
  datatype Pc =
    | Outside
    | Reading                      // about to read the field without the lock
    | Checking(seen: Option<nat>)  // about to test what it read
    | WantLock
    | Rereading                    // holds the lock from here on
    | Rechecking(seen: Option<nat>)
    | Creating
    | Starting(loop: nat)          // loop made, daemon thread not started
    | Publishing(loop: nat)        // thread started, field not written
    | Leaving(loop: nat)           // about to release the lock and return

  /** `field` is the shared reference; `returned` lists what calls have returned so far. */
  datatype Machine = Machine(
    field: Option<nat>, lock: Option<nat>, created: nat, started: set<nat>, closed: set<nat>,
    threads: seq<Pc>, returned: seq<nat>)

  datatype Move = Call(t: nat) | Advance(t: nat) | Close(loop: nat)

  predicate Usable(m: Machine, seen: Option<nat>) {
    seen.Some? && seen.value !in m.closed
  }

  function Goto(m: Machine, t: nat, pc: Pc): Machine
    requires t < |m.threads|
  {
    m.(threads := m.threads[t := pc])
  }

  /** One shared access of thread `t`. */
  function StepThread(m: Machine, t: nat): Machine
    requires t < |m.threads|
  {
    match m.threads[t]
    case Outside => m
    case Reading => Goto(m, t, Checking(m.field))
    case Checking(seen) =>
      if Usable(m, seen) then Goto(m, t, Outside).(returned := m.returned + [seen.value]) else Goto(m, t, WantLock)
    case WantLock => if m.lock.Some? then m else Goto(m, t, Rereading).(lock := Some(t))
    case Rereading => Goto(m, t, Rechecking(m.field))
    case Rechecking(seen) => if Usable(m, seen) then Goto(m, t, Leaving(seen.value)) else Goto(m, t, Creating)
    case Creating => Goto(m, t, Starting(m.created)).(created := m.created + 1)
    case Starting(loop) => Goto(m, t, Publishing(loop)).(started := m.started + {loop})
    case Publishing(loop) => Goto(m, t, Leaving(loop)).(field := Some(loop))
    case Leaving(loop) => Goto(m, t, Outside).(lock := None, returned := m.returned + [loop])
  }

  /** A move that is not possible changes nothing. */
  function Apply(m: Machine, move: Move): Machine {
    match move
    case Call(t) => if t < |m.threads| && m.threads[t].Outside? then Goto(m, t, Reading) else m
    case Advance(t) => if t < |m.threads| then StepThread(m, t) else m
    case Close(loop) => if loop < m.created then m.(closed := m.closed + {loop}) else m
  }

  function Execution(m: Machine, moves: seq<Move>): Machine {
    if moves == [] then m
    else Apply(Execution(m, moves[..|moves| - 1]), moves[|moves| - 1])
  }

  function Boot(threads: nat): Machine {
    Machine(None, None, 0, {}, {}, seq(threads, _ => Outside), [])
  }

  // ------------------------------------------------------------------ the invariant

  predicate HoldsLock(pc: Pc) {
    pc.Rereading? || pc.Rechecking? || pc.Creating? || pc.Starting? || pc.Publishing? || pc.Leaving?
  }

  /** Between the failed re-check and the publication. */
  predicate Replacing(pc: Pc) {
    pc.Creating? || pc.Starting? || pc.Publishing?
  }

  /** The loop a thread has made and not published yet. */
  function Unpublished(pc: Pc): Option<nat> {
    if pc.Starting? || pc.Publishing? then Some(pc.loop) else None
  }

  function LockHolder(m: Machine): Pc {
    if m.lock.Some? && m.lock.value < |m.threads| then m.threads[m.lock.value] else Outside
  }

  /** The lock is held by exactly the thread that is inside. */
  ghost predicate Exclusive(m: Machine) {
    && (m.lock.Some? ==> m.lock.value < |m.threads|)
    && forall t: nat :: t < |m.threads| ==> (HoldsLock(m.threads[t]) <==> m.lock == Some(t))
  }

  ghost predicate Ready(m: Machine, loop: nat) {
    loop < m.created && loop in m.started
  }

  /** What one thread knows: it only ever names loops that exist and, unless its own, already run. */
  ghost predicate Informed(m: Machine, pc: Pc) {
    match pc
    case Checking(seen) => seen.Some? ==> Ready(m, seen.value)
    case Rechecking(seen) => seen == m.field
    case Starting(loop) => loop < m.created
    case Publishing(loop) => Ready(m, loop)
    case Leaving(loop) => Ready(m, loop)
    case _ => true
  }

  ghost predicate AllInformed(m: Machine) {
    && (m.field.Some? ==> Ready(m, m.field.value))
    && (forall t: nat :: t < |m.threads| ==> Informed(m, m.threads[t]))
    && (forall k :: 0 <= k < |m.returned| ==> Ready(m, m.returned[k]))
  }

  /** Every loop ever made is closed, or the published one, or the one being prepared under the lock. */
  ghost predicate Accounted(m: Machine) {
    && (Replacing(LockHolder(m)) ==> !Usable(m, m.field))
    && (forall l: nat :: l < m.created ==> l in m.closed || m.field == Some(l) || Unpublished(LockHolder(m)) == Some(l))
    && (forall l :: l in m.closed ==> l < m.created)
  }

  ghost predicate Inv(m: Machine) {
    Exclusive(m) && AllInformed(m) && Accounted(m)
  }

  lemma StepExclusive(m: Machine, t: nat)
    requires Exclusive(m) && t < |m.threads|
    ensures Exclusive(StepThread(m, t))
  {
    assert HoldsLock(m.threads[t]) <==> m.lock == Some(t);
  }

  lemma StepInformed(m: Machine, t: nat)
    requires Exclusive(m) && AllInformed(m) && t < |m.threads|
    ensures AllInformed(StepThread(m, t))
  {
    var next := StepThread(m, t);
    assert Informed(m, m.threads[t]);
    assert HoldsLock(m.threads[t]) <==> m.lock == Some(t);
    forall u: nat | u < |next.threads|
      ensures Informed(next, next.threads[u])
    {
      if u != t {
        assert next.threads[u] == m.threads[u];
        assert Informed(m, m.threads[u]);
        assert HoldsLock(m.threads[u]) <==> m.lock == Some(u);
      }
    }
  }

  lemma StepAccounted(m: Machine, t: nat)
    requires Exclusive(m) && AllInformed(m) && Accounted(m) && t < |m.threads|
    ensures Accounted(StepThread(m, t))
  {
    assert Informed(m, m.threads[t]);
    assert HoldsLock(m.threads[t]) <==> m.lock == Some(t);
  }

  lemma ApplyKeeps(m: Machine, move: Move)
    requires Inv(m)
    ensures Inv(Apply(m, move))
  {
    match move
    case Call(t) =>
      if t < |m.threads| && m.threads[t].Outside? {
        CallKeeps(m, t);
      }
    case Advance(t) =>
      if t < |m.threads| {
        StepExclusive(m, t);
        StepInformed(m, t);
        StepAccounted(m, t);
      }
    case Close(loop) =>
      if loop < m.created {
        CloseKeeps(m, loop);
      }
  }

  lemma CallKeeps(m: Machine, t: nat)
    requires Inv(m) && t < |m.threads| && m.threads[t].Outside?
    ensures Inv(Goto(m, t, Reading))
  {
    var next := Goto(m, t, Reading);
    assert HoldsLock(m.threads[t]) <==> m.lock == Some(t);
    forall u: nat | u < |next.threads|
      ensures Informed(next, next.threads[u])
    {
      assert Informed(m, m.threads[u]);
    }
  }

  lemma CloseKeeps(m: Machine, loop: nat)
    requires Inv(m) && loop < m.created
    ensures Inv(m.(closed := m.closed + {loop}))
  {
    var next := m.(closed := m.closed + {loop});
    forall u: nat | u < |next.threads|
      ensures Informed(next, next.threads[u])
    {
      assert Informed(m, m.threads[u]);
    }
  }

  lemma {:induction false} ExecutionKeeps(threads: nat, moves: seq<Move>)
    ensures Inv(Execution(Boot(threads), moves))
    ensures |Execution(Boot(threads), moves).threads| == threads
  {
    if moves != [] {
      var before := moves[..|moves| - 1];
      ExecutionKeeps(threads, before);
      ApplyKeeps(Execution(Boot(threads), before), moves[|moves| - 1]);
    }
  }

  // ------------------------------------------------------------------ the results

  function Loops(n: nat): (s: set<nat>)
    ensures |s| == n && forall l: nat :: l in s <==> l < n
  {
    if n == 0 then {} else Loops(n - 1) + {n - 1}
  }

  /** A loop that is neither closed nor the only open one cannot exist. */
  lemma OpenIsUnique(m: Machine, k: nat, l: nat)
    requires Accounted(m) && k < m.created && l < m.created && k !in m.closed && l !in m.closed
    ensures k == l
  {
  }

  lemma CreatedBound(m: Machine)
    requires Accounted(m)
    ensures m.created <= 1 + |m.closed|
  {
    var open := Loops(m.created) - m.closed;
    if open == {} {
      assert Loops(m.created) == m.closed;
    } else {
      var l :| l in open;
      forall k | k in open
        ensures k == l
      {
        OpenIsUnique(m, k, l);
      }
      assert Loops(m.created) == m.closed + {l};
    }
  }

  /** At most one loop is open at any time, and each further creation needs a closed predecessor. */
  lemma AtMostOneOpenLoop(threads: nat, moves: seq<Move>)
    ensures var m := Execution(Boot(threads), moves);
            && (forall k: nat, l: nat :: k < m.created && l < m.created && k !in m.closed && l !in m.closed ==> k == l)
            && m.created <= 1 + |m.closed|
  {
    ExecutionKeeps(threads, moves);
    CreatedBound(Execution(Boot(threads), moves));
  }

  predicate NoCloses(moves: seq<Move>) {
    moves == [] || (!moves[|moves| - 1].Close? && NoCloses(moves[..|moves| - 1]))
  }

  lemma {:induction false} NothingCloses(m: Machine, moves: seq<Move>)
    requires NoCloses(moves)
    ensures Execution(m, moves).closed == m.closed
  {
    if moves != [] {
      NothingCloses(m, moves[..|moves| - 1]);
    }
  }

  /**
   * Double-checked creation: while no loop closes, at most one loop is ever made, and every call of
   * every thread that has returned, in any interleaving, returned that loop, with its thread started.
   */
  lemma OneLoopForEveryone(threads: nat, moves: seq<Move>)
    requires NoCloses(moves)
    ensures var m := Execution(Boot(threads), moves);
            && m.created <= 1
            && (forall k :: 0 <= k < |m.returned| ==> m.returned[k] == 0 && 0 in m.started)
            && (m.returned != [] ==> m.field == Some(0))
  {
    ExecutionKeeps(threads, moves);
    AtMostOneOpenLoop(threads, moves);
    NothingCloses(Boot(threads), moves);
    ReturnedMeansPublished(Boot(threads), moves);
    var m := Execution(Boot(threads), moves);
    if m.returned != [] {
      assert Ready(m, m.returned[0]);
    }
  }

  lemma {:induction false} ReturnedMeansPublished(start: Machine, moves: seq<Move>)
    requires start == Boot(|start.threads|)
    ensures var m := Execution(start, moves);
            && (m.returned != [] ==> m.field.Some?)
            && (forall t: nat ::
                  t < |m.threads| && (m.threads[t].Leaving? || (m.threads[t].Checking? && m.threads[t].seen.Some?)) ==>
                  m.field.Some?)
  {
    if moves != [] {
      var before := moves[..|moves| - 1];
      ReturnedMeansPublished(start, before);
      ExecutionKeeps(|start.threads|, before);
      var mid := Execution(start, before);
      assert forall t: nat :: t < |mid.threads| ==> Informed(mid, mid.threads[t]);
    }
  }

  /** A thread that is inside `ensure` and not waiting for somebody else's lock. */
  predicate CanMove(m: Machine, t: nat)
    requires t < |m.threads|
  {
    !m.threads[t].Outside? && (m.threads[t].WantLock? ==> m.lock.None?)
  }

  /** No deadlock: while any call is in progress, some thread inside can take a step. */
  lemma NeverDeadlocked(threads: nat, moves: seq<Move>, t: nat)
    requires t < threads
    requires var m := Execution(Boot(threads), moves); t < |m.threads| && !m.threads[t].Outside?
    ensures var m := Execution(Boot(threads), moves);
            exists u: nat :: u < |m.threads| && CanMove(m, u) && StepThread(m, u) != m
  {
    ExecutionKeeps(threads, moves);
    var m := Execution(Boot(threads), moves);
    var u := if CanMove(m, t) then t else m.lock.value;
    assert HoldsLock(m.threads[u]) <==> m.lock == Some(u);
    assert CanMove(m, u);
    StepMoves(m, u);
  }

  lemma StepMoves(m: Machine, t: nat)
    requires t < |m.threads| && CanMove(m, t)
    ensures StepThread(m, t) != m
  {
    assert StepThread(m, t).threads[t] != m.threads[t];
  }

  // ------------------------------------------------------------------ closed loops are not handed out

  /** After `n` moves the loop exists and is not closed. */
  ghost predicate OpenAt(start: Machine, moves: seq<Move>, n: nat, loop: nat) {
    n <= |moves| && loop < Execution(start, moves[..n]).created && loop !in Execution(start, moves[..n]).closed
  }

  ghost predicate InsideAt(start: Machine, moves: seq<Move>, k: nat, t: nat) {
    && k <= |moves| && t < |Execution(start, moves[..k]).threads|
    && !Execution(start, moves[..k]).threads[t].Outside?
  }

  /** The loop was open at some moment of the call that thread `t` is in. */
  ghost predicate OpenDuringCall(start: Machine, moves: seq<Move>, t: nat, loop: nat) {
    exists n: nat :: OpenAt(start, moves, n, loop) && forall k :: n <= k <= |moves| ==> InsideAt(start, moves, k, t)
  }

  lemma OpenNow(start: Machine, moves: seq<Move>, t: nat, loop: nat)
    requires var m := Execution(start, moves);
             && t < |m.threads| && !m.threads[t].Outside? && loop < m.created && loop !in m.closed
    ensures OpenDuringCall(start, moves, t, loop)
  {
    assert moves[..|moves|] == moves;
    assert OpenAt(start, moves, |moves|, loop);
    assert InsideAt(start, moves, |moves|, t);
  }

  lemma StillInside(start: Machine, moves: seq<Move>, t: nat, loop: nat)
    requires moves != [] && OpenDuringCall(start, moves[..|moves| - 1], t, loop)
    requires t < |Execution(start, moves).threads| && !Execution(start, moves).threads[t].Outside?
    ensures OpenDuringCall(start, moves, t, loop)
  {
    var before := moves[..|moves| - 1];
    var n: nat :| OpenAt(start, before, n, loop) && forall k :: n <= k <= |before| ==> InsideAt(start, before, k, t);
    assert before[..n] == moves[..n];
    assert OpenAt(start, moves, n, loop);
    forall k | n <= k <= |moves|
      ensures InsideAt(start, moves, k, t)
    {
      if k < |moves| {
        assert InsideAt(start, before, k, t);
        assert before[..k] == moves[..k];
      } else {
        assert moves[..k] == moves;
      }
    }
  }

  /** The loop a thread has settled on under the lock. */
  function Settled(pc: Pc): Option<nat> {
    if pc.Starting? || pc.Publishing? || pc.Leaving? then Some(pc.loop) else None
  }

  /** A thread settles on a loop that it has just seen open or just made. */
  lemma SettlesOnOpen(m: Machine, t: nat)
    requires Inv(m) && t < |m.threads| && Settled(StepThread(m, t).threads[t]).Some?
    ensures var loop := Settled(StepThread(m, t).threads[t]).value;
            || Settled(m.threads[t]) == Some(loop)
            || (loop < m.created && loop !in m.closed)
            || (loop < StepThread(m, t).created && loop !in StepThread(m, t).closed)
  {
    assert Informed(m, m.threads[t]);
  }

  lemma OtherThreadsStay(m: Machine, move: Move, t: nat)
    requires t < |m.threads| && move != Advance(t)
    ensures t < |Apply(m, move).threads|
    ensures Settled(Apply(m, move).threads[t]) == Settled(m.threads[t])
  {
  }

  lemma {:induction false} SettledWasOpen(threads: nat, moves: seq<Move>, t: nat)
    requires t < threads
    ensures |Execution(Boot(threads), moves).threads| == threads
    ensures var pc := Execution(Boot(threads), moves).threads[t];
            Settled(pc).Some? ==> OpenDuringCall(Boot(threads), moves, t, Settled(pc).value)
    decreases |moves|
  {
    ExecutionKeeps(threads, moves);
    var start, m := Boot(threads), Execution(Boot(threads), moves);
    if moves != [] && Settled(m.threads[t]).Some? {
      var before, last := moves[..|moves| - 1], moves[|moves| - 1];
      var mid, loop := Execution(start, before), Settled(m.threads[t]).value;
      ExecutionKeeps(threads, before);
      SettledWasOpen(threads, before, t);
      if last == Advance(t) {
        SettlesOnOpen(mid, t);
      } else {
        OtherThreadsStay(mid, last, t);
      }
      if Settled(mid.threads[t]) == Some(loop) {
        StillInside(start, moves, t, loop);
      } else if loop < mid.created && loop !in mid.closed {
        OpenNow(start, before, t, loop);
        StillInside(start, moves, t, loop);
      } else {
        OpenNow(start, moves, t, loop);
      }
    }
  }

  /**
   * In any interleaving, with loops closing at any time: the loop a call returns was open at some moment of
   * that very call. A loop found closed is never handed out.
   */
  lemma ReturnedWasOpen(threads: nat, moves: seq<Move>, t: nat, m: Machine, next: Machine)
    requires t < threads && m == Execution(Boot(threads), moves) && next == Apply(m, Advance(t))
    requires |next.returned| > |m.returned|
    ensures OpenDuringCall(Boot(threads), moves, t, next.returned[|next.returned| - 1])
  {
    ExecutionKeeps(threads, moves);
    SettledWasOpen(threads, moves, t);
    assert Informed(m, m.threads[t]);
    if m.threads[t].Checking? {
      OpenNow(Boot(threads), moves, t, m.threads[t].seen.value);
    }
  }

  lemma {:induction false} ClosedStays(start: Machine, moves: seq<Move>, c: nat, n: nat, loop: nat)
    requires c <= n <= |moves| && loop in Execution(start, moves[..c]).closed
    ensures loop in Execution(start, moves[..n]).closed
    decreases n
  {
    if c < n {
      ClosedStays(start, moves, c, n - 1, loop);
      assert moves[..n][..n - 1] == moves[..n - 1];
    }
  }

  /** A call that began after a loop was closed returns another one. */
  lemma ClosedIsReplaced(threads: nat, moves: seq<Move>, t: nat, m: Machine, next: Machine, c: nat, loop: nat)
    requires t < threads && m == Execution(Boot(threads), moves) && next == Apply(m, Advance(t))
    requires |next.returned| > |m.returned| && c <= |moves|
    requires loop in Execution(Boot(threads), moves[..c]).closed && !InsideAt(Boot(threads), moves, c, t)
    ensures next.returned[|next.returned| - 1] != loop
  {
    ReturnedWasOpen(threads, moves, t, m, next);
    var start, l := Boot(threads), next.returned[|next.returned| - 1];
    var n: nat :| OpenAt(start, moves, n, l) && forall k :: n <= k <= |moves| ==> InsideAt(start, moves, k, t);
    if l == loop {
      assert n > c;
      ClosedStays(start, moves, c, n, loop);
    }
  }
}
