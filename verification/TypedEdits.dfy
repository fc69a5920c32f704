/**
 * What the student typed and did, told by the actions alone, against what the browser queues and the
 * server stores: the pending code is the code last typed, a settled edit is queued with exactly that
 * code, and once everything has arrived the newest snapshot is the newest settled edit.
 */
module TypedEdits {
  import opened Prelude
  import opened TraceTypes
  import opened TraceStore
  import opened MonitorRuns
  import opened IngestLaws
  import opened CodingTrace
  import opened Delivery

  /** What the student did so far: the events in order, and the code typed since the last edit settled. */
  datatype Work = Work(events: seq<Item>, typed: Option<string>)

  predicate IdUsed(work: Work, id: Option<string>) {
    id.Some? && exists i :: 0 <= i < |work.events| && work.events[i].clientId == id
  }

  /** One more action; ids are never used twice, and a pause without anything typed settles nothing. */
  function WorkOn(work: Work, a: Action): Work {
    match a
    case OnClient(UserEdits(code)) => Work(work.events, Some(code))
    case OnClient(EditSettles(id)) =>
      if work.typed.None? || IdUsed(work, Some(id)) then work
      else Work(work.events + [Item(Some(id), CodeSnapshot, work.typed, false)], None)
    case OnClient(UserActs(item)) =>
      if item.clientId.None? || IdUsed(work, item.clientId) then work
      else Work(work.events + [item], work.typed)
    case _ => work
  }

  function WorkOf(actions: seq<Action>): Work {
    if actions == [] then Work([], None) else WorkOn(WorkOf(actions[..|actions| - 1]), actions[|actions| - 1])
  }

  lemma NewIdIsUnused(s: System, work: Work, item: Item)
    requires s.history == work.events
    ensures IsNewId(s, item) <==> item.clientId.Some? && !IdUsed(work, item.clientId)
  {
    if item.clientId.Some? {
      IdSetMember(s.history, item.clientId.value);
    }
  }

  lemma StepIsWork(monitor: Evaluator, differ: Differ, s: System, work: Work, a: Action)
    requires s.history == work.events && s.client.pending == work.typed
    ensures var next := Next(monitor, differ, s, a);
            next.history == WorkOn(work, a).events && next.client.pending == WorkOn(work, a).typed
  {
    match a
    case OnClient(EditSettles(id)) => NewIdIsUnused(s, work, Item(Some(id), CodeSnapshot, work.typed, false));
    case OnClient(UserActs(item)) => NewIdIsUnused(s, work, item);
    case _ =>
  }

  /**
   * In every execution, whatever network and server do: the browser has queued exactly what the student
   * did, each settled edit with the code typed last before it settled, and the pending code is the code
   * typed since.
   */
  lemma {:induction false} QueuedIsWork(
    monitor: Evaluator, differ: Differ, template: string, at: int, actions: seq<Action>)
    ensures var s := Reached(monitor, differ, template, at, actions);
            s.history == WorkOf(actions).events && s.client.pending == WorkOf(actions).typed
  {
    if actions != [] {
      var before, last := actions[..|actions| - 1], actions[|actions| - 1];
      QueuedIsWork(monitor, differ, template, at, before);
      StepIsWork(monitor, differ, Reached(monitor, differ, template, at, before), WorkOf(before), last);
    }
  }

  // ------------------------------------------------------------------ the newest snapshot

  /** The code of the last snapshot event, else the template. */
  function NewestEdit(template: string, events: seq<Item>): string {
    if events == [] then template
    else
      var last := events[|events| - 1];
      if last.kind == CodeSnapshot && last.code.Some? then last.code.value
      else NewestEdit(template, events[..|events| - 1])
  }

  lemma {:induction false} FoldEndsInNewest(template: string, events: seq<Item>)
    ensures var codes := FoldCodes([template], events);
            codes != [] && codes[|codes| - 1] == NewestEdit(template, events)
  {
    if events != [] {
      FoldEndsInNewest(template, events[..|events| - 1]);
    }
  }

  lemma WorkMore(before: seq<Action>, a: Action)
    ensures WorkOf(before + [a]) == WorkOn(WorkOf(before), a)
  {
    assert (before + [a])[..|before|] == before;
  }

  /** A stretch of keystrokes. */
  function Typing(codes: seq<string>): seq<Action> {
    if codes == [] then [] else Typing(codes[..|codes| - 1]) + [OnClient(UserEdits(codes[|codes| - 1]))]
  }

  lemma {:induction false} TypingKeepsLast(before: seq<Action>, codes: seq<string>)
    ensures WorkOf(before + Typing(codes)).events == WorkOf(before).events
    ensures codes != [] ==> WorkOf(before + Typing(codes)).typed == Some(codes[|codes| - 1])
  {
    if codes == [] {
      assert before + Typing(codes) == before;
    } else {
      var init, edit := Typing(codes[..|codes| - 1]), OnClient(UserEdits(codes[|codes| - 1]));
      TypingKeepsLast(before, codes[..|codes| - 1]);
      assert before + Typing(codes) == (before + init) + [edit];
      WorkMore(before + init, edit);
    }
  }

  /** Keystrokes and then a pause: of all the codes typed the last one is queued, once. */
  lemma PauseQueuesLastCode(before: seq<Action>, codes: seq<string>, id: string)
    requires codes != [] && !IdUsed(WorkOf(before), Some(id))
    ensures var edit := Item(Some(id), CodeSnapshot, Some(codes[|codes| - 1]), false);
            WorkOf(before + Typing(codes) + [OnClient(EditSettles(id))]) == Work(WorkOf(before).events + [edit], None)
  {
    TypingKeepsLast(before, codes);
    WorkMore(before + Typing(codes), OnClient(EditSettles(id)));
  }

  /** With nothing left to send, the whole history has arrived and the chain ends in its newest edit. */
  lemma SentChainEndsInNewest(s: System, template: string)
    requires Inv(s) && ChainIsFold(s, template) && s.client.queue == [] && s.client.phase.Idle?
    ensures s.server.snapshots != []
    ensures s.server.snapshots[|s.server.snapshots| - 1].code == NewestEdit(template, s.history)
  {
    assert s.history == s.confirmed;
    assert s.history[..Arrived(s)] == s.history;
    FoldEndsInNewest(template, s.history);
    var codes := Codes(s.server.snapshots);
    assert codes[|codes| - 1] == s.server.snapshots[|codes| - 1].code;
  }

  lemma ReachedIsSound(
    monitor: Evaluator, differ: Differ, template: string, at: int, actions: seq<Action>, s: System)
    requires s == Reached(monitor, differ, template, at, actions)
    requires forall i :: 0 <= i < |actions| ==> NoJudgedCode(actions[i])
    ensures Inv(s) && ChainIsFold(s, template)
  {
    ReachKeepsFold(monitor, differ, template, at, actions);
    StartInv(differ, template, at);
    ExecutionKeepsInv(monitor, differ, Start(differ, template, at), actions);
  }

  /**
   * When the browser has nothing left to send, the newest snapshot on the server holds the code that the
   * student typed last before the last settled edit: no keystroke that settled is lost or overwritten.
   */
  lemma NewestSnapshotIsNewestEdit(
    monitor: Evaluator, differ: Differ, template: string, at: int, actions: seq<Action>, s: System)
    requires s == Reached(monitor, differ, template, at, actions)
    requires forall i :: 0 <= i < |actions| ==> NoJudgedCode(actions[i])
    requires s.client.queue == [] && s.client.phase.Idle?
    ensures s.server.snapshots != []
    ensures s.server.snapshots[|s.server.snapshots| - 1].code == NewestEdit(template, WorkOf(actions).events)
  {
    QueuedIsWork(monitor, differ, template, at, actions);
    ReachedIsSound(monitor, differ, template, at, actions, s);
    SentChainEndsInNewest(s, template);
  }
}
