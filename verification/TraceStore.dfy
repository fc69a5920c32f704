/**
 * The append-only trace of one session: numbered rows, the versioned snapshot chain, and the
 * requests that write them, on values; `TraceSessions` performs them on updated rows.
 */
module TraceStore {
  import opened Prelude
  import opened TraceTypes
  import opened FeatureExtraction
  import opened Monitor

  /** One event of a client batch. `clientId` is the idempotency key. */
  datatype Item = Item(clientId: Option<string>, kind: EventType, code: Option<string>, correct: bool)

  datatype TraceError = MissingSnapshotCode | ServerOnlyEvent | InvalidCodeVersion | SnapshotNotFound

  datatype Store = Store(
    startedAt: int, finished: bool, lastCodeVersion: nat, lastEventSeq: nat,
    events: seq<Event>, snapshots: seq<Snapshot>)

  // ------------------------------------------------------------------ rows

  function AppendEvent(st: Store, kind: EventType, source: EventSource, payload: Payload,
                       codeVersion: Option<nat>, clientId: Option<string>, at: int): Store
  {
    var e := Event(st.lastEventSeq + 1, kind, source, codeVersion, payload, at, clientId);
    st.(lastEventSeq := st.lastEventSeq + 1, events := st.events + [e])
  }

  function LatestSnapshot(st: Store): Option<Snapshot> {
    if st.snapshots == [] then None else Some(st.snapshots[|st.snapshots| - 1])
  }

  function VersionOrNone(v: nat): Option<nat> {
    if v == 0 then None else Some(v)
  }

  /** Add a snapshot unless the code equals the latest one byte for byte. */
  function CreateSnapshot(differ: Differ, st: Store, code: string, at: int): (Store, Snapshot, bool) {
    var prev := LatestSnapshot(st);
    if prev.Some? && prev.value.code == code then (st, prev.value, false)
    else
      var s := Snapshot(
        st.lastCodeVersion + 1, code, at,
        if prev.Some? then Some(prev.value.version) else None,
        differ(if prev.Some? then Some(prev.value.code) else None, code),
        if prev.Some? then SecondsBetween(prev.value.createdAt, at) else 0);
      (st.(lastCodeVersion := st.lastCodeVersion + 1, snapshots := st.snapshots + [s]), s, true)
  }

  /** A new session: SESSION_START and the problem template as version 1. */
  function OpenSession(differ: Differ, template: string, at: int): Store {
    var empty := Store(at, false, 0, 0, [], []);
    CreateSnapshot(differ, AppendEvent(empty, SessionStart, Server, NoPayload, None, None, at), template, at).0
  }

  // ------------------------------------------------------------------ ingesting a client batch

  function IdSet(items: seq<Item>): set<string> {
    if items == [] then {}
    else
      var id := items[|items| - 1].clientId;
      IdSet(items[..|items| - 1]) + if id.Some? then {id.value} else {}
  }

  lemma {:induction false} IdSetMember(items: seq<Item>, x: string)
    ensures x in IdSet(items) <==> exists i :: 0 <= i < |items| && items[i].clientId == Some(x)
  {
    if items != [] {
      var init := items[..|items| - 1];
      IdSetMember(init, x);
      assert forall i :: 0 <= i < |init| ==> init[i] == items[i];
    }
  }

  /** Client ids already in the log. */
  function KnownIds(events: seq<Event>): set<string> {
    if events == [] then {}
    else
      var id := events[|events| - 1].clientId;
      KnownIds(events[..|events| - 1]) + if id.Some? then {id.value} else {}
  }

  lemma {:induction false} KnownIdsMember(events: seq<Event>, x: string)
    ensures x in KnownIds(events) <==> exists i :: 0 <= i < |events| && events[i].clientId == Some(x)
  {
    if events != [] {
      var init := events[..|events| - 1];
      KnownIdsMember(init, x);
      assert forall i :: 0 <= i < |init| ==> init[i] == events[i];
    }
  }

  predicate IsDuplicate(known: set<string>, earlier: seq<Item>, item: Item) {
    item.clientId.Some? && (item.clientId.value in known || item.clientId.value in IdSet(earlier))
  }

  /** The items of a batch that are neither in the log nor repeated inside the batch. */
  function Fresh(known: set<string>, items: seq<Item>): (kept: seq<Item>)
    ensures |kept| <= |items|
  {
    if items == [] then []
    else
      var earlier := items[..|items| - 1];
      var rest := Fresh(known, earlier);
      if IsDuplicate(known, earlier, items[|items| - 1]) then rest else rest + [items[|items| - 1]]
  }

  function Duplicates(known: set<string>, items: seq<Item>): (ids: seq<string>)
    ensures |ids| + |Fresh(known, items)| == |items|
  {
    if items == [] then []
    else
      var earlier := items[..|items| - 1];
      var rest := Duplicates(known, earlier);
      if IsDuplicate(known, earlier, items[|items| - 1]) then rest + [items[|items| - 1].clientId.value] else rest
  }

  /** The ids reported as duplicates are exactly those of items that the log knows or the batch repeats. */
  lemma {:induction false} DuplicateIsKnownOrRepeated(known: set<string>, items: seq<Item>, x: string)
    ensures x in Duplicates(known, items) <==>
            exists i :: 0 <= i < |items| && items[i].clientId == Some(x) && IsDuplicate(known, items[..i], items[i])
  {
    if items != [] {
      var earlier, last := items[..|items| - 1], items[|items| - 1];
      DuplicateIsKnownOrRepeated(known, earlier, x);
      assert forall i :: 0 <= i < |earlier| ==> earlier[i] == items[i] && earlier[..i] == items[..i];
      if IsDuplicate(known, earlier, last) && last.clientId == Some(x) {
        assert items[..|items| - 1] == earlier;
      }
    }
  }

  /** Store one fresh item. `loaded` is the code version of the session row as loaded by the request. */
  function IngestItem(differ: Differ, st: Store, loaded: nat, item: Item, now: int): Result<Store, TraceError> {
    if item.kind !in ALL_CLIENT_TYPES then Err(ServerOnlyEvent)
    else if item.kind == CodeSnapshot then
      if item.code.None? then Err(MissingSnapshotCode)
      else
        var (next, s, created) := CreateSnapshot(differ, st, item.code.value, now);
        Ok(AppendEvent(next, CodeSnapshot, Client,
                       EditPayload(s.columns.primaryRegion, s.columns.changedLines, !created),
                       Some(s.version), item.clientId, now))
    else
      Ok(AppendEvent(st, item.kind, Client, ClientPayload(item.correct), VersionOrNone(loaded), item.clientId, now))
  }

  function IngestAll(differ: Differ, st: Store, loaded: nat, items: seq<Item>, now: int): Result<Store, TraceError> {
    if items == [] then Ok(st)
    else
      var before := IngestAll(differ, st, loaded, items[..|items| - 1], now);
      if before.Err? then before
      else IngestItem(differ, before.value, loaded, items[|items| - 1], now)
  }

  /** One transaction: the batch without its duplicates, or nothing at all. */
  function Ingest(differ: Differ, st: Store, items: seq<Item>, now: int): Result<Store, TraceError> {
    IngestAll(differ, st, st.lastCodeVersion, Fresh(KnownIds(st.events), items), now)
  }

  // ------------------------------------------------------------------ judging and evaluating

  /** Which code a run grades. */
  datatype Grading = GradeCode(code: string) | GradeVersion(version: int) | GradeLatest

  datatype Verdict = Verdict(mode: Mode, status: JudgeStatus, passed: nat, total: nat)

  function SnapshotAt(st: Store, version: int): Option<Snapshot> {
    var hits := Above(st.snapshots, version - 1);
    if hits != [] && hits[0].version == version then Some(hits[0]) else None
  }

  function Grade(differ: Differ, st: Store, grading: Grading, at: int): Result<(Store, Snapshot), TraceError> {
    match grading
    case GradeCode(code) =>
      var (next, s, _) := CreateSnapshot(differ, st, code, at);
      Ok((next, s))
    case GradeVersion(version) =>
      if version > st.lastCodeVersion then Err(InvalidCodeVersion)
      else
        var found := SnapshotAt(st, version);
        if found.None? then Err(SnapshotNotFound) else Ok((st, found.value))
    case GradeLatest =>
      var found := LatestSnapshot(st);
      if found.None? then Err(SnapshotNotFound) else Ok((st, found.value))
  }

  /** The only path that writes a TEST_RESULT row. */
  function RecordResult(
    st: Store, v: Verdict, codeVersion: Option<nat>, source: EventSource, at: int): Result<Store, TraceError>
  {
    if codeVersion.Some? && codeVersion.value > st.lastCodeVersion then Err(InvalidCodeVersion)
    else
      var version := if codeVersion.Some? then codeVersion else VersionOrNone(st.lastCodeVersion);
      var payload := ResultPayload(v.mode, Some(v.status), v.passed, v.total);
      Ok(AppendEvent(st, TestResult, source, payload, version, None, at))
  }

  /** A deterministic verdict on (start, log, snapshots, time); the requests below hold for any. */
  type Evaluator = (int, seq<Event>, seq<Snapshot>, int) -> ProcessState

  /** The monitor with its thresholds, as an evaluator. */
  function MonitorOf(cfg: MonitorConfig): Evaluator {
    (startedAt, events, snapshots, now) => Evaluate(cfg, startedAt, events, snapshots, now)
  }

  /** A verdict with a trigger becomes a row of the very log it was read from. */
  function RecordState(st: Store, state: ProcessState, now: int): Store {
    if state.trigger.None? then st
    else AppendEvent(st, AgentTrigger, Server,
                     TriggerPayload(state.trigger.value, state.status, FeaturesToDict(state.features)),
                     VersionOrNone(st.lastCodeVersion), None, now)
  }

  function EvaluateAndRecord(monitor: Evaluator, st: Store, now: int): Store {
    RecordState(st, monitor(st.startedAt, st.events, st.snapshots, now), now)
  }

  /** Record a verdict on a version of the chain, then evaluate at the same moment. */
  function RecordAndEvaluate(monitor: Evaluator, st: Store, v: Verdict, version: nat, at: int): Store {
    var recorded := RecordResult(st, v, Some(version), Server, at);
    if recorded.Err? then st else EvaluateAndRecord(monitor, recorded.value, at)
  }

  /**
   * A run or submit: choose the graded snapshot (committed on its own), then record the verdict and
   * evaluate. No verdict stands for a judge that failed.
   */
  function Execute(
    monitor: Evaluator, differ: Differ, st: Store, grading: Grading, verdict: Option<Verdict>, at: int): Store
  {
    var graded := Grade(differ, st, grading, at);
    if graded.Err? then st
    else if verdict.None? then graded.value.0
    else RecordAndEvaluate(monitor, graded.value.0, verdict.value, graded.value.1.version, at)
  }

  function Finish(st: Store, at: int): Store {
    if st.finished then st
    else AppendEvent(st.(finished := true), SessionEnd, Server, NoPayload, VersionOrNone(st.lastCodeVersion), None, at)
  }

  function Intervene(st: Store, at: int): Store {
    AppendEvent(st, AgentIntervention, Server, NoPayload, None, None, at)
  }

  // ------------------------------------------------------------------ what every request keeps

  ghost predicate NumberedRows(st: Store) {
    && st.lastEventSeq == |st.events|
    && forall i :: 0 <= i < |st.events| ==> st.events[i].seqNo == i + 1
  }

  /** Versions 1..last, each the child of the one before, no two neighbours with the same code. */
  ghost predicate ValidChain(st: Store) {
    && st.lastCodeVersion == |st.snapshots| >= 1
    && (forall i :: 0 <= i < |st.snapshots| ==> st.snapshots[i].version == i + 1)
    && (forall i :: 0 <= i < |st.snapshots| ==> st.snapshots[i].parent == if i == 0 then None else Some(i))
    && (forall i, j :: 0 <= i < j < |st.snapshots| && j == i + 1 ==> st.snapshots[i].code != st.snapshots[j].code)
  }

  ghost predicate Valid(st: Store) {
    NumberedRows(st) && ValidChain(st)
  }

  /** `next` only appends to `st`. */
  ghost predicate Extends(st: Store, next: Store) {
    && st.events <= next.events
    && st.snapshots <= next.snapshots
    && st.startedAt == next.startedAt
  }

  lemma OpenValid(differ: Differ, template: string, at: int)
    ensures Valid(OpenSession(differ, template, at))
  {
  }

  lemma SnapshotKeeps(differ: Differ, st: Store, code: string, at: int)
    requires Valid(st)
    ensures var (next, s, created) := CreateSnapshot(differ, st, code, at);
            && Valid(next) && Extends(st, next) && next.events == st.events
            && s == next.snapshots[|next.snapshots| - 1] && s.code == code
  {
  }

  lemma {:induction false} IngestAllKeeps(differ: Differ, st: Store, loaded: nat, items: seq<Item>, now: int)
    requires Valid(st)
    requires IngestAll(differ, st, loaded, items, now).Ok?
    ensures var next := IngestAll(differ, st, loaded, items, now).value;
            Valid(next) && Extends(st, next) && |next.events| == |st.events| + |items|
    ensures var next := IngestAll(differ, st, loaded, items, now).value;
            forall i :: 0 <= i < |items| ==> RowOf(next.events[|st.events| + i], items[i], now)
  {
    if items != [] {
      var before := items[..|items| - 1];
      IngestAllKeeps(differ, st, loaded, before, now);
      var mid := IngestAll(differ, st, loaded, before, now).value;
      var item := items[|items| - 1];
      if item.kind == CodeSnapshot {
        SnapshotKeeps(differ, mid, item.code.value, now);
      }
      var next := IngestAll(differ, st, loaded, items, now).value;
      assert next.events[..|mid.events|] == mid.events;
      forall i | 0 <= i < |items|
        ensures RowOf(next.events[|st.events| + i], items[i], now)
      {
        if i < |before| {
          assert RowOf(mid.events[|st.events| + i], before[i], now);
        }
      }
    }
  }

  /** The row an item becomes. */
  ghost predicate RowOf(e: Event, item: Item, now: int) {
    e.kind == item.kind && e.clientId == item.clientId && e.at == now && e.source == Client
  }

  lemma {:induction false} AboveVersion(snapshots: seq<Snapshot>, v: int)
    requires forall i :: 0 <= i < |snapshots| ==> snapshots[i].version == i + 1
    requires 0 <= v <= |snapshots|
    ensures Above(snapshots, v) == snapshots[v..]
  {
    if snapshots != [] {
      var init := snapshots[..|snapshots| - 1];
      if v < |snapshots| {
        AboveVersion(init, v);
        assert snapshots[v..] == init[v..] + [snapshots[|snapshots| - 1]];
      } else {
        NoneAbove(snapshots, v);
      }
    }
  }

  lemma {:induction false} NoneAbove(snapshots: seq<Snapshot>, v: int)
    requires forall i :: 0 <= i < |snapshots| ==> snapshots[i].version <= v
    ensures Above(snapshots, v) == []
  {
    if snapshots != [] {
      NoneAbove(snapshots[..|snapshots| - 1], v);
    }
  }

  lemma {:induction false} AllAbove(snapshots: seq<Snapshot>, v: int)
    requires forall i :: 0 <= i < |snapshots| ==> snapshots[i].version > v
    ensures Above(snapshots, v) == snapshots
  {
    if snapshots != [] {
      AllAbove(snapshots[..|snapshots| - 1], v);
    }
  }

  /** Asking for a version by number finds exactly that version, if the chain has it. */
  lemma SnapshotAtFinds(st: Store, version: int)
    requires Valid(st)
    ensures SnapshotAt(st, version) == if 1 <= version <= |st.snapshots| then Some(st.snapshots[version - 1]) else None
  {
    if version < 1 {
      AllAbove(st.snapshots, version - 1);
    } else if version <= |st.snapshots| {
      AboveVersion(st.snapshots, version - 1);
    } else {
      NoneAbove(st.snapshots, version - 1);
    }
  }

  /** The graded snapshot is on the chain, the newest one unless a version was asked for. */
  ghost predicate Graded(st: Store, grading: Grading, next: Store, s: Snapshot) {
    && Valid(next) && Extends(st, next) && next.events == st.events
    && 1 <= s.version <= |next.snapshots| && s == next.snapshots[s.version - 1]
    && (!grading.GradeVersion? ==> s.version == |next.snapshots|)
    && (grading.GradeVersion? ==> s.version == grading.version)
    && (grading.GradeCode? ==> s.code == grading.code)
  }

  lemma GradeKeeps(differ: Differ, st: Store, grading: Grading, at: int)
    requires Valid(st)
    requires Grade(differ, st, grading, at).Ok?
    ensures var (next, s) := Grade(differ, st, grading, at).value;
            Graded(st, grading, next, s)
  {
    match grading
    case GradeCode(code) => SnapshotKeeps(differ, st, code, at);
    case GradeVersion(version) => SnapshotAtFinds(st, version);
    case GradeLatest =>
  }

  lemma RecordStateKeeps(st: Store, state: ProcessState, now: int)
    requires Valid(st)
    ensures var next := RecordState(st, state, now);
            Valid(next) && Extends(st, next) && next.snapshots == st.snapshots
  {
  }

  lemma RecordResultKeeps(st: Store, v: Verdict, version: nat, at: int)
    requires Valid(st) && version <= st.lastCodeVersion
    ensures var r := RecordResult(st, v, Some(version), Server, at);
            r.Ok? && Valid(r.value) && Extends(st, r.value) && r.value.snapshots == st.snapshots
  {
  }

  /** The row of a result names the version that was given, else the newest one, and says who judged. */
  lemma ResultRow(st: Store, v: Verdict, codeVersion: Option<nat>, source: EventSource, at: int)
    requires Valid(st)
    ensures var r := RecordResult(st, v, codeVersion, source, at);
            && (r.Ok? <==> codeVersion.Some? ==> codeVersion.value <= |st.snapshots|)
            && (r.Ok? ==>
                  && |r.value.events| == |st.events| + 1
                  && var e := r.value.events[|st.events|];
                     && e.kind == TestResult && e.source == source && e.at == at && e.clientId.None?
                     && e.codeVersion == (if codeVersion.Some? then codeVersion else Some(|st.snapshots|))
                     && e.payload == ResultPayload(v.mode, Some(v.status), v.passed, v.total))
  {
  }

  lemma ExtendsTrans(a: Store, b: Store, c: Store)
    requires Extends(a, b) && Extends(b, c)
    ensures Extends(a, c)
  {
  }

  lemma RecordAndEvaluateKeeps(monitor: Evaluator, st: Store, v: Verdict, version: nat, at: int)
    requires Valid(st) && version <= st.lastCodeVersion
    ensures var next := RecordAndEvaluate(monitor, st, v, version, at);
            Valid(next) && Extends(st, next) && next.snapshots == st.snapshots
  {
    RecordResultKeeps(st, v, version, at);
    var recorded := RecordResult(st, v, Some(version), Server, at).value;
    var state := monitor(recorded.startedAt, recorded.events, recorded.snapshots, at);
    RecordStateKeeps(recorded, state, at);
    ExtendsTrans(st, recorded, RecordState(recorded, state, at));
  }

  lemma ExecuteKeeps(monitor: Evaluator, differ: Differ, st: Store, grading: Grading, verdict: Option<Verdict>, at: int)
    requires Valid(st)
    ensures Valid(Execute(monitor, differ, st, grading, verdict, at))
    ensures Extends(st, Execute(monitor, differ, st, grading, verdict, at))
  {
    var graded := Grade(differ, st, grading, at);
    if graded.Ok? {
      GradeKeeps(differ, st, grading, at);
      if verdict.Some? {
        var mid, s := graded.value.0, graded.value.1;
        RecordAndEvaluateKeeps(monitor, mid, verdict.value, s.version, at);
        ExtendsTrans(st, mid, RecordAndEvaluate(monitor, mid, verdict.value, s.version, at));
      }
    }
  }
}
