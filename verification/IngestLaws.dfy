/** What deduplicated ingestion does to the log: which client rows it adds and which snapshots. */
module IngestLaws {
  import opened Prelude
  import opened TraceTypes
  import opened TraceStore
  import opened MonitorRuns

  /** A client event as it shows in the log. */
  datatype Row = Row(id: string, kind: EventType)

  /** The rows that carry a client id, in log order. */
  function ClientRows(events: seq<Event>): (rows: seq<Row>)
    ensures |rows| <= |events|
  {
    if events == [] then []
    else
      var e := events[|events| - 1];
      var rest := ClientRows(events[..|events| - 1]);
      if e.clientId.Some? then rest + [Row(e.clientId.value, e.kind)] else rest
  }

  /** The rows a list of items with ids would make. */
  function RowsOf(items: seq<Item>): (rows: seq<Row>)
    ensures |rows| <= |items|
  {
    if items == [] then []
    else
      var item := items[|items| - 1];
      var rest := RowsOf(items[..|items| - 1]);
      if item.clientId.Some? then rest + [Row(item.clientId.value, item.kind)] else rest
  }

  lemma {:induction false} ClientRowsAppend(a: seq<Event>, b: seq<Event>)
    ensures ClientRows(a + b) == ClientRows(a) + ClientRows(b)
  {
    if b == [] {
      assert a + b == a;
    } else {
      assert (a + b)[..|a + b| - 1] == a + b[..|b| - 1];
      ClientRowsAppend(a, b[..|b| - 1]);
    }
  }

  lemma {:induction false} NoClientRows(events: seq<Event>)
    requires forall i :: 0 <= i < |events| ==> events[i].clientId.None?
    ensures ClientRows(events) == []
  {
    if events != [] {
      NoClientRows(events[..|events| - 1]);
    }
  }

  function RowIds(rows: seq<Row>): set<string> {
    if rows == [] then {} else RowIds(rows[..|rows| - 1]) + {rows[|rows| - 1].id}
  }

  lemma RowIdsStep(rows: seq<Row>, row: Row)
    ensures RowIds(rows + [row]) == RowIds(rows) + {row.id}
  {
    assert (rows + [row])[..|rows|] == rows;
  }

  /** Ids already in the log are exactly the ids of its client rows. */
  lemma {:induction false} KnownIdsAreRowIds(events: seq<Event>)
    ensures KnownIds(events) == RowIds(ClientRows(events))
  {
    if events != [] {
      var init, e := events[..|events| - 1], events[|events| - 1];
      KnownIdsAreRowIds(init);
      if e.clientId.Some? {
        RowIdsStep(ClientRows(init), Row(e.clientId.value, e.kind));
      }
    }
  }

  lemma {:induction false} ItemIdsAreRowIds(items: seq<Item>)
    ensures IdSet(items) == RowIds(RowsOf(items))
  {
    if items != [] {
      var init, item := items[..|items| - 1], items[|items| - 1];
      ItemIdsAreRowIds(init);
      if item.clientId.Some? {
        RowIdsStep(RowsOf(init), Row(item.clientId.value, item.kind));
      }
    }
  }

  /** What storing one item does to the client rows. */
  lemma IngestItemRows(differ: Differ, st: Store, loaded: nat, item: Item, now: int)
    requires IngestItem(differ, st, loaded, item, now).Ok?
    ensures ClientRows(IngestItem(differ, st, loaded, item, now).value.events)
         == ClientRows(st.events) + if item.clientId.Some? then [Row(item.clientId.value, item.kind)] else []
  {
    var next := IngestItem(differ, st, loaded, item, now).value;
    assert next.events[..|next.events| - 1] == st.events;
  }

  /** An accepted batch adds the rows of its items, in order. */
  lemma {:induction false} IngestAllRows(differ: Differ, st: Store, loaded: nat, items: seq<Item>, now: int)
    requires IngestAll(differ, st, loaded, items, now).Ok?
    ensures ClientRows(IngestAll(differ, st, loaded, items, now).value.events) == ClientRows(st.events) + RowsOf(items)
  {
    if items != [] {
      var before, last := items[..|items| - 1], items[|items| - 1];
      IngestAllRows(differ, st, loaded, before, now);
      IngestItemRows(differ, IngestAll(differ, st, loaded, before, now).value, loaded, last, now);
    }
  }

  // ------------------------------------------------------------------ fresh items

  /** A list of items that all carry ids, no id twice. */
  ghost predicate DistinctIds(items: seq<Item>) {
    && (forall i :: 0 <= i < |items| ==> items[i].clientId.Some?)
    && (forall i, j :: 0 <= i < j < |items| ==> items[i].clientId.value != items[j].clientId.value)
  }

  lemma {:induction false} RowsAt(items: seq<Item>)
    requires DistinctIds(items)
    ensures |RowsOf(items)| == |items|
    ensures forall i :: 0 <= i < |items| ==> RowsOf(items)[i] == Row(items[i].clientId.value, items[i].kind)
  {
    if items != [] {
      RowsAt(items[..|items| - 1]);
    }
  }

  lemma {:induction false} RowsOfAppend(a: seq<Item>, b: seq<Item>)
    ensures RowsOf(a + b) == RowsOf(a) + RowsOf(b)
  {
    if b == [] {
      assert a + b == a;
    } else {
      assert (a + b)[..|a + b| - 1] == a + b[..|b| - 1];
      RowsOfAppend(a, b[..|b| - 1]);
    }
  }

  /** Of the history, exactly the first `n` items are known. */
  ghost predicate KnowsFirst(history: seq<Item>, known: set<string>, n: nat)
    requires DistinctIds(history)
  {
    n <= |history| && forall i :: 0 <= i < |history| ==> (history[i].clientId.value in known <==> i < n)
  }

  /** A log holding the rows of the first `n` events knows exactly their ids. */
  lemma RowsKnowFirst(history: seq<Item>, events: seq<Event>, n: nat)
    requires DistinctIds(history) && n <= |history|
    requires ClientRows(events) == RowsOf(history[..n])
    ensures KnowsFirst(history, KnownIds(events), n)
  {
    KnownIdsAreRowIds(events);
    ItemIdsAreRowIds(history[..n]);
    FirstIds(history, n);
  }

  lemma FirstIds(history: seq<Item>, n: nat)
    requires DistinctIds(history) && n <= |history|
    ensures KnowsFirst(history, IdSet(history[..n]), n)
  {
    var first := history[..n];
    forall i | 0 <= i < |history|
      ensures history[i].clientId.value in IdSet(first) <==> i < n
    {
      IdSetMember(first, history[i].clientId.value);
      if i < n {
        assert first[i].clientId == Some(history[i].clientId.value);
      }
    }
  }

  lemma NotRepeatedInSegment(history: seq<Item>, start: nat, k: nat)
    requires DistinctIds(history) && start <= k < |history|
    ensures history[k].clientId.value !in IdSet(history[start..k])
  {
    var earlier := history[start..k];
    IdSetMember(earlier, history[k].clientId.value);
    assert forall i :: 0 <= i < |earlier| ==> earlier[i] == history[start + i];
  }

  /**
   * Deduplicating a segment of the enqueue history against a log that holds the first `n` of it
   * leaves exactly the part of the segment the log does not have.
   */
  lemma {:induction false} FreshOfSegment(history: seq<Item>, known: set<string>, n: nat, start: nat, end: nat)
    requires DistinctIds(history) && start <= end <= |history| && start <= n
    requires KnowsFirst(history, known, n)
    ensures Fresh(known, history[start..end]) == if end <= n then [] else history[n..end]
    decreases end - start
  {
    if start < end {
      var k := end - 1;
      FreshOfSegment(history, known, n, start, k);
      assert history[start..end] == history[start..k] + [history[k]];
      FreshStep(known, history[start..k], history[k]);
      NotRepeatedInSegment(history, start, k);
      if n <= k {
        assert history[n..end] == history[n..k] + [history[k]];
      }
    } else {
      assert history[start..end] == [];
    }
  }

  lemma FreshStep(known: set<string>, earlier: seq<Item>, last: Item)
    ensures Fresh(known, earlier + [last])
         == if IsDuplicate(known, earlier, last) then Fresh(known, earlier) else Fresh(known, earlier) + [last]
  {
    assert (earlier + [last])[..|earlier|] == earlier;
  }

  /** Items whose ids are neither known nor repeated, and items without an id, are all kept. */
  lemma {:induction false} FreshKeepsNew(known: set<string>, items: seq<Item>)
    requires forall i :: 0 <= i < |items| ==> !IsDuplicate(known, items[..i], items[i])
    ensures Fresh(known, items) == items
  {
    if items != [] {
      var earlier, last := items[..|items| - 1], items[|items| - 1];
      assert forall i :: 0 <= i < |earlier| ==> earlier[i] == items[i] && earlier[..i] == items[..i];
      FreshKeepsNew(known, earlier);
      assert items == earlier + [last];
      assert !IsDuplicate(known, items[..|items| - 1], items[|items| - 1]);
    }
  }

  /** Retrying a whole batch whose items carry ids changes nothing, whatever the first try did. */
  lemma {:induction false} KnownBatchHasNothingFresh(known: set<string>, items: seq<Item>)
    requires forall i :: 0 <= i < |items| ==> items[i].clientId.Some? && items[i].clientId.value in known
    ensures Fresh(known, items) == []
  {
    if items != [] {
      KnownBatchHasNothingFresh(known, items[..|items| - 1]);
    }
  }

  lemma {:induction false} FreshCoversBatch(known: set<string>, items: seq<Item>, x: string)
    requires x in IdSet(items)
    ensures x in known || x in IdSet(Fresh(known, items))
  {
    var earlier, last := items[..|items| - 1], items[|items| - 1];
    if x in IdSet(earlier) {
      FreshCoversBatch(known, earlier, x);
    }
    assert (Fresh(known, earlier) + [last])[..|Fresh(known, earlier)|] == Fresh(known, earlier);
  }

  /** Idempotence: a batch with ids that was accepted is a no-op when it arrives again. */
  lemma RetryIsInvisible(differ: Differ, st: Store, items: seq<Item>, now: int, later: int)
    requires Valid(st)
    requires forall i :: 0 <= i < |items| ==> items[i].clientId.Some?
    requires Ingest(differ, st, items, now).Ok?
    ensures var once := Ingest(differ, st, items, now).value;
            Ingest(differ, once, items, later) == Ok(once)
  {
    var once := Ingest(differ, st, items, now).value;
    var kept := Fresh(KnownIds(st.events), items);
    IngestAllKeeps(differ, st, st.lastCodeVersion, kept, now);
    forall i | 0 <= i < |items|
      ensures items[i].clientId.value in KnownIds(once.events)
    {
      var x := items[i].clientId.value;
      IdSetMember(items, x);
      FreshCoversBatch(KnownIds(st.events), items, x);
      KnownIdsMember(st.events, x);
      KnownIdsMember(once.events, x);
      if x in KnownIds(st.events) {
        var k :| 0 <= k < |st.events| && st.events[k].clientId == Some(x);
        assert once.events[k].clientId == Some(x);
      } else {
        IdSetMember(kept, x);
        var k :| 0 <= k < |kept| && kept[k].clientId == Some(x);
        assert RowOf(once.events[|st.events| + k], kept[k], now);
      }
    }
    KnownBatchHasNothingFresh(KnownIds(once.events), items);
  }

  // ------------------------------------------------------------------ the snapshot chain

  function Codes(snapshots: seq<Snapshot>): (codes: seq<string>)
    ensures |codes| == |snapshots| && forall i :: 0 <= i < |codes| ==> codes[i] == snapshots[i].code
  {
    seq(|snapshots|, i requires 0 <= i < |snapshots| => snapshots[i].code)
  }

  /** One save: a repetition of the newest code adds nothing. */
  function AddCode(chain: seq<string>, code: string): seq<string> {
    if chain != [] && chain[|chain| - 1] == code then chain else chain + [code]
  }

  /** The codes saved by a list of client items, on top of a chain. */
  function FoldCodes(chain: seq<string>, items: seq<Item>): seq<string> {
    if items == [] then chain
    else
      var before := FoldCodes(chain, items[..|items| - 1]);
      var item := items[|items| - 1];
      if item.kind == CodeSnapshot && item.code.Some? then AddCode(before, item.code.value) else before
  }

  lemma {:induction false} FoldCodesAppend(chain: seq<string>, a: seq<Item>, b: seq<Item>)
    ensures FoldCodes(chain, a + b) == FoldCodes(FoldCodes(chain, a), b)
  {
    if b == [] {
      assert a + b == a;
    } else {
      assert (a + b)[..|a + b| - 1] == a + b[..|b| - 1];
      FoldCodesAppend(chain, a, b[..|b| - 1]);
    }
  }

  lemma SnapshotCodes(differ: Differ, st: Store, code: string, at: int)
    ensures Codes(CreateSnapshot(differ, st, code, at).0.snapshots) == AddCode(Codes(st.snapshots), code)
  {
  }

  lemma {:induction false} IngestAllCodes(differ: Differ, st: Store, loaded: nat, items: seq<Item>, now: int)
    requires IngestAll(differ, st, loaded, items, now).Ok?
    ensures Codes(IngestAll(differ, st, loaded, items, now).value.snapshots) == FoldCodes(Codes(st.snapshots), items)
  {
    if items != [] {
      var before := items[..|items| - 1];
      IngestAllCodes(differ, st, loaded, before, now);
      var mid := IngestAll(differ, st, loaded, before, now).value;
      var item := items[|items| - 1];
      if item.kind == CodeSnapshot {
        SnapshotCodes(differ, mid, item.code.value, now);
      }
    }
  }

  /** A snapshot row carries no code; its version names a snapshot that holds exactly what was sent. */
  ghost predicate RefersToCode(e: Event, item: Item, snapshots: seq<Snapshot>) {
    item.kind == CodeSnapshot ==>
      && item.code.Some? && e.codeVersion.Some?
      && 1 <= e.codeVersion.value <= |snapshots|
      && snapshots[e.codeVersion.value - 1].code == item.code.value
  }

  lemma IngestItemRefers(differ: Differ, st: Store, loaded: nat, item: Item, now: int)
    requires Valid(st) && IngestItem(differ, st, loaded, item, now).Ok?
    ensures var next := IngestItem(differ, st, loaded, item, now).value;
            && |next.events| == |st.events| + 1 && st.events <= next.events && st.snapshots <= next.snapshots
            && RefersToCode(next.events[|st.events|], item, next.snapshots)
  {
    if item.kind == CodeSnapshot {
      SnapshotKeeps(differ, st, item.code.value, now);
    }
  }

  lemma {:induction false} SnapshotRowsReferToTheirCode(
    differ: Differ, st: Store, loaded: nat, items: seq<Item>, now: int, i: nat)
    requires Valid(st) && IngestAll(differ, st, loaded, items, now).Ok? && i < |items|
    ensures var next := IngestAll(differ, st, loaded, items, now).value;
            && |next.events| == |st.events| + |items|
            && RefersToCode(next.events[|st.events| + i], items[i], next.snapshots)
  {
    var before, last := items[..|items| - 1], items[|items| - 1];
    IngestAllAppends(differ, st, loaded, before, now);
    var mid := IngestAll(differ, st, loaded, before, now).value;
    IngestItemRefers(differ, mid, loaded, last, now);
    if i < |before| {
      SnapshotRowsReferToTheirCode(differ, st, loaded, before, now, i);
    }
  }

  // ------------------------------------------------------------------ a log that holds part of a history

  function Held(st: Store): nat {
    |ClientRows(st.events)|
  }

  /** The client rows of the log are the first events of the history, in order, once each. */
  ghost predicate Holds(st: Store, history: seq<Item>) {
    && DistinctIds(history)
    && Held(st) <= |history|
    && ClientRows(st.events) == RowsOf(history[..Held(st)])
  }

  /** What events up to `end` still have to add to a log that holds `n`. */
  function MissingFrom(history: seq<Item>, n: nat, end: nat): (missing: seq<Item>)
    requires n <= |history| && end <= |history|
    ensures |missing| == Max(n, end) - n
  {
    if end <= n then [] else history[n..end]
  }

  /** Deduplication reduces any segment that starts inside the log to the part that is missing. */
  lemma SegmentIngestsMissing(differ: Differ, st: Store, history: seq<Item>, start: nat, end: nat, now: int)
    requires Holds(st, history) && start <= Held(st) && start <= end <= |history|
    ensures Ingest(differ, st, history[start..end], now)
         == IngestAll(differ, st, st.lastCodeVersion, MissingFrom(history, Held(st), end), now)
  {
    RowsKnowFirst(history, st.events, Held(st));
    FreshOfSegment(history, KnownIds(st.events), Held(st), start, end);
  }

  lemma MissingCompletes(history: seq<Item>, n: nat, end: nat)
    requires n <= |history| && end <= |history|
    ensures history[..n] + MissingFrom(history, n, end) == history[..Max(n, end)]
  {
  }

  lemma MissingCompletesRows(history: seq<Item>, n: nat, end: nat)
    requires DistinctIds(history) && n <= |history| && end <= |history|
    ensures RowsOf(history[..n]) + RowsOf(MissingFrom(history, n, end)) == RowsOf(history[..Max(n, end)])
  {
    MissingCompletes(history, n, end);
    RowsOfAppend(history[..n], MissingFrom(history, n, end));
  }

  /** Storing a segment extends the log by the missing events, and the chain by the codes they bring. */
  lemma SegmentExtends(differ: Differ, st: Store, history: seq<Item>, start: nat, end: nat, now: int)
    requires Valid(st) && Holds(st, history) && start <= Held(st) && start <= end <= |history|
    requires Ingest(differ, st, history[start..end], now).Ok?
    ensures var next := Ingest(differ, st, history[start..end], now).value;
            Valid(next) && Extends(st, next) && Holds(next, history) && Held(next) == Max(Held(st), end)
    ensures Codes(Ingest(differ, st, history[start..end], now).value.snapshots)
         == FoldCodes(Codes(st.snapshots), MissingFrom(history, Held(st), end))
  {
    var missing := MissingFrom(history, Held(st), end);
    SegmentIngestsMissing(differ, st, history, start, end, now);
    IngestAllAppends(differ, st, st.lastCodeVersion, missing, now);
    IngestAllRows(differ, st, st.lastCodeVersion, missing, now);
    IngestAllCodes(differ, st, st.lastCodeVersion, missing, now);
    MissingCompletesRows(history, Held(st), end);
    RowsAt(history[..Max(Held(st), end)]);
  }

  lemma IngestAllAppends(differ: Differ, st: Store, loaded: nat, items: seq<Item>, now: int)
    requires Valid(st) && IngestAll(differ, st, loaded, items, now).Ok?
    ensures var next := IngestAll(differ, st, loaded, items, now).value;
            Valid(next) && Extends(st, next) && |next.events| == |st.events| + |items|
  {
    IngestAllKeeps(differ, st, loaded, items, now);
  }

  /** An event the server stores: a client kind, and a snapshot only with its code. */
  predicate Acceptable(item: Item) {
    item.kind in ALL_CLIENT_TYPES && (item.kind == CodeSnapshot ==> item.code.Some?)
  }

  predicate AllAcceptable(items: seq<Item>) {
    items == [] || (Acceptable(items[|items| - 1]) && AllAcceptable(items[..|items| - 1]))
  }

  lemma {:induction false} AllAcceptableAppend(a: seq<Item>, b: seq<Item>)
    ensures AllAcceptable(a + b) <==> AllAcceptable(a) && AllAcceptable(b)
  {
    if b == [] {
      assert a + b == a;
    } else {
      assert (a + b)[..|a + b| - 1] == a + b[..|b| - 1];
      AllAcceptableAppend(a, b[..|b| - 1]);
    }
  }

  /** What "all acceptable" says item by item. */
  lemma {:induction false} AllAcceptableEach(items: seq<Item>)
    ensures AllAcceptable(items) <==> forall i :: 0 <= i < |items| ==> Acceptable(items[i])
  {
    if items != [] {
      var before := items[..|items| - 1];
      AllAcceptableEach(before);
      assert forall i :: 0 <= i < |before| ==> before[i] == items[i];
    }
  }

  /** A batch without duplicates is stored exactly when all its items are acceptable. */
  lemma {:induction false} IngestAllOkIff(differ: Differ, st: Store, loaded: nat, items: seq<Item>, now: int)
    ensures IngestAll(differ, st, loaded, items, now).Ok? <==> AllAcceptable(items)
  {
    if items != [] {
      IngestAllOkIff(differ, st, loaded, items[..|items| - 1], now);
    }
  }

  /** A segment of the history is stored exactly when what is missing of it is acceptable. */
  lemma SegmentOkIff(differ: Differ, st: Store, history: seq<Item>, start: nat, end: nat, now: int)
    requires Holds(st, history) && start <= Held(st) && start <= end <= |history|
    ensures Ingest(differ, st, history[start..end], now).Ok? <==> AllAcceptable(MissingFrom(history, Held(st), end))
  {
    SegmentIngestsMissing(differ, st, history, start, end, now);
    IngestAllOkIff(differ, st, st.lastCodeVersion, MissingFrom(history, Held(st), end), now);
  }

  /** The log and the chain after a segment up to `end` was stored. */
  ghost predicate Stored(st: Store, history: seq<Item>, end: nat, next: Store)
    requires Held(st) <= |history| && end <= |history|
  {
    && Valid(next) && Holds(next, history) && Held(next) == Max(Held(st), end)
    && Codes(next.snapshots) == FoldCodes(Codes(st.snapshots), MissingFrom(history, Held(st), end))
  }

  /** What becomes of a batch that is a segment of the history starting inside the log. */
  lemma SegmentOutcome(differ: Differ, st: Store, history: seq<Item>, start: nat, batch: seq<Item>, now: int)
    requires Valid(st) && Holds(st, history) && start <= Held(st)
    requires start + |batch| <= |history| && batch == history[start..start + |batch|]
    ensures var missing := MissingFrom(history, Held(st), start + |batch|);
            var r := Ingest(differ, st, batch, now);
            if AllAcceptable(missing) then r.Ok? && Stored(st, history, start + |batch|, r.value) else r.Err?
  {
    SegmentOkIff(differ, st, history, start, start + |batch|, now);
    if Ingest(differ, st, batch, now).Ok? {
      SegmentExtends(differ, st, history, start, start + |batch|, now);
    }
  }

  // ------------------------------------------------------------------ other requests

  /** The request wrote rows, none of them a client's. */
  ghost predicate WritesNoIds(st: Store, next: Store) {
    Valid(next) && Extends(st, next) && ClientRows(next.events) == ClientRows(st.events)
  }

  lemma ServerRowWritesNoIds(st: Store, next: Store)
    requires Valid(next) && Extends(st, next) && |next.events| == |st.events| + 1
    requires next.events[|st.events|].clientId.None?
    ensures WritesNoIds(st, next)
  {
    assert next.events[..|st.events|] == st.events;
  }

  lemma ExecutionWritesNoIds(
    monitor: Evaluator, differ: Differ, st: Store, grading: Grading, verdict: Option<Verdict>, at: int)
    requires Valid(st)
    ensures WritesNoIds(st, Execute(monitor, differ, st, grading, verdict, at))
  {
    var graded := Grade(differ, st, grading, at);
    if graded.Ok? {
      GradeKeeps(differ, st, grading, at);
      if verdict.Some? {
        var mid, s := graded.value.0, graded.value.1;
        RecordResultKeeps(mid, verdict.value, s.version, at);
        var recorded := RecordResult(mid, verdict.value, Some(s.version), Server, at).value;
        ServerRowWritesNoIds(mid, recorded);
        EvaluationWritesNoIds(monitor, recorded, at);
        ExtendsTrans(st, mid, recorded);
        ExtendsTrans(st, recorded, EvaluateAndRecord(monitor, recorded, at));
      }
    }
  }

  /** Requests other than client batches write no client rows. */
  lemma ServerRowsCarryNoIds(monitor: Evaluator, differ: Differ, st: Store, step: Step)
    requires Valid(st) && !step.Batch?
    ensures WritesNoIds(st, Apply(monitor, differ, st, step))
  {
    match step
    case Execution(grading, verdict, at) => ExecutionWritesNoIds(monitor, differ, st, grading, verdict, at);
    case Heartbeat(at) => EvaluationWritesNoIds(monitor, st, at);
    case Intervention(at) => ServerRowWritesNoIds(st, Intervene(st, at));
    case Closing(at) =>
      if !st.finished {
        ServerRowWritesNoIds(st, Finish(st, at));
      }
  }

  lemma EvaluationWritesNoIds(monitor: Evaluator, st: Store, now: int)
    requires Valid(st)
    ensures WritesNoIds(st, EvaluateAndRecord(monitor, st, now))
  {
    var state := monitor(st.startedAt, st.events, st.snapshots, now);
    RecordStateKeeps(st, state, now);
    if state.trigger.Some? {
      ServerRowWritesNoIds(st, RecordState(st, state, now));
    }
  }

  /** Requests that bring no code leave the chain alone. */
  predicate BringsNoCode(step: Step) {
    step.Batch? || (step.Execution? ==> !step.grading.GradeCode?)
  }

  lemma NoCodeNoSnapshot(monitor: Evaluator, differ: Differ, st: Store, step: Step)
    requires !step.Batch? && BringsNoCode(step)
    ensures Apply(monitor, differ, st, step).snapshots == st.snapshots
  {
  }
}
