/** The coding timeline: one entry per row, runs of edits collapsed into one, and summary counters. */
module Timeline {
  import opened Prelude
  import opened TraceTypes
  import opened FeatureExtraction

  datatype EntryKind =
    | StartEntry | Edit | RunEntry | SubmitEntry | UndoEntry | ResetEntry | Hint | ActivityEntry | End | Agent
    | ErrorEntry

  /** The versions a merged entry spans. */
  datatype Span = Span(first: Option<nat>, last: Option<nat>)

  /** `span` is absent until the entry absorbs another one, and so is the list of regions (empty). */
  datatype Detail =
    | NoDetail
    | EditDetail(primary: Option<RegionTag>, snapshotCount: nat, span: Option<Span>, regions: set<RegionTag>)

  datatype Label = OwnLabel | MergedLabel(region: RegionTag, count: nat)

  datatype Entry = Entry(seqNo: nat, at: int, kind: EntryKind, title: Label, eventType: EventType,
                         codeVersion: Option<nat>, detail: Detail)

  /** The kind of a row; only results depend on their payload. */
  function Classify(e: Event): EntryKind {
    match e.kind
    case TestResult =>
      if e.payload.ResultPayload? && e.payload.status.Some? && e.payload.status.value in SCORED then
        (if e.payload.mode == SubmitMode then SubmitEntry else RunEntry)
      else ErrorEntry
    case CodeSnapshot => Edit
    case SessionStart => StartEntry
    case Run => RunEntry
    case Submit => SubmitEntry
    case Undo => UndoEntry
    case Reset => ResetEntry
    case HintRequest => Hint
    case ActivityOpened => ActivityEntry
    case ActivityResponse => ActivityEntry
    case SessionEnd => End
    case AgentTrigger => Agent
    case AgentIntervention => Agent
    case SyntaxErrorRow => ErrorEntry
    case RuntimeErrorRow => ErrorEntry
  }

  function ToEntry(e: Event): Entry {
    var region := if e.payload.EditPayload? then Some(e.payload.region) else None;
    Entry(e.seqNo, e.at, Classify(e), OwnLabel, e.kind, e.codeVersion,
          if Classify(e) == Edit then EditDetail(region, 1, None, {}) else NoDetail)
  }

  function Entries(events: seq<Event>): (entries: seq<Entry>)
    ensures |entries| == |events|
  {
    if events == [] then [] else Entries(events[..|events| - 1]) + [ToEntry(events[|events| - 1])]
  }

  /** Entry `i` stands for row `i`: its place, time and version, and for an edit its region. */
  lemma {:induction false} EntriesStandForRows(events: seq<Event>, i: nat)
    requires i < |events|
    ensures var e, entry := events[i], Entries(events)[i];
            && entry.seqNo == e.seqNo && entry.at == e.at
            && entry.eventType == e.kind && entry.codeVersion == e.codeVersion
            && (entry.kind == Edit <==> e.kind == CodeSnapshot)
            && (entry.kind == Edit ==>
                  var region := if e.payload.EditPayload? then Some(e.payload.region) else None;
                  entry.detail == EditDetail(region, 1, None, {}))
  {
    if i < |events| - 1 {
      EntriesStandForRows(events[..|events| - 1], i);
    }
  }

  /** A result that carries a score is shown as a run or a submit, by its mode; any other result is an error. */
  predicate ShowsScore(e: Entry) {
    e.eventType == TestResult && (e.kind == RunEntry || e.kind == SubmitEntry)
  }

  predicate ShowsSubmit(e: Entry) {
    e.eventType == TestResult && e.kind == SubmitEntry
  }

  predicate ShowsFailure(e: Entry) {
    e.eventType == TestResult && e.kind == ErrorEntry
  }

  lemma ResultEntry(e: Event)
    requires e.kind == TestResult
    ensures ShowsScore(ToEntry(e)) <==> ToObservation(e).Some? && ToObservation(e).value.status in SCORED
    ensures ShowsSubmit(ToEntry(e)) <==> ShowsScore(ToEntry(e)) && ToObservation(e).value.mode == SubmitMode
    ensures ShowsFailure(ToEntry(e)) <==> !ShowsScore(ToEntry(e))
  {
  }

  /** The timeline shows as runs and submits exactly the results the monitor scores, and all others as errors. */
  lemma {:induction false} ShownResults(events: seq<Event>)
    ensures HowMany(Entries(events), ShowsScore) == |Scored(events)|
    ensures HowMany(Entries(events), ShowsFailure) == CountKind(events, TestResult) - |Scored(events)|
  {
    if events == [] {
      HowManyNone(ShowsScore);
      HowManyNone(ShowsFailure);
    } else {
      ShownResults(events[..|events| - 1]);
      HowManyMore(Entries(events), ShowsScore);
      HowManyMore(Entries(events), ShowsFailure);
      ScoredGrow(events);
      if events[|events| - 1].kind == TestResult {
        ResultEntry(events[|events| - 1]);
      }
    }
  }

  predicate IsSubmit(o: Observation) {
    o.mode == SubmitMode
  }

  /** And as submits those of them that were submitted. */
  lemma {:induction false} ShownSubmits(events: seq<Event>)
    ensures HowMany(Entries(events), ShowsSubmit) == HowMany(Scored(events), IsSubmit)
  {
    if events == [] {
      HowManyNone(ShowsSubmit);
      HowManyNone(IsSubmit);
    } else {
      var last := events[|events| - 1];
      ShownSubmits(events[..|events| - 1]);
      HowManyMore(Entries(events), ShowsSubmit);
      ScoredGrow(events);
      if last.kind == TestResult {
        ResultEntry(last);
        if ShowsScore(ToEntry(last)) {
          HowManyMore(Scored(events), IsSubmit);
        }
      }
    }
  }

  /** Which entries other rows become. */
  lemma OtherEntries(e: Event)
    requires e.kind != TestResult
    ensures Classify(e) == RunEntry <==> e.kind == Run
    ensures Classify(e) == SubmitEntry <==> e.kind == Submit
    ensures Classify(e) == ErrorEntry <==> e.kind == SyntaxErrorRow || e.kind == RuntimeErrorRow
    ensures Classify(e) == Agent <==> e.kind == AgentTrigger || e.kind == AgentIntervention
    ensures Classify(e) == ActivityEntry <==> e.kind == ActivityOpened || e.kind == ActivityResponse
    ensures Classify(e) == Hint <==> e.kind == HintRequest
  {
  }

  // ------------------------------------------------------------------ collapsing

  predicate IsEdit(e: Entry) {
    e.kind == Edit && e.detail.EditDetail?
  }

  function One(region: Option<RegionTag>): set<RegionTag> {
    if region.Some? then {region.value} else {}
  }

  /** The regions an entry stands for: its list, or its own primary region. */
  function RegionsOf(e: Entry): set<RegionTag> {
    if !e.detail.EditDetail? then {} else if e.detail.regions != {} then e.detail.regions else One(e.detail.primary)
  }

  function SpanStart(e: Entry): Option<nat> {
    if e.detail.EditDetail? && e.detail.span.Some? then e.detail.span.value.first else e.codeVersion
  }

  /** An edit absorbs the next one: place of the first, version and headline of the second. */
  function Merge(prev: Entry, next: Entry): Entry
    requires IsEdit(prev) && IsEdit(next)
  {
    var count := prev.detail.snapshotCount + 1;
    var headline := if next.detail.primary.Some? then next.detail.primary.value else Other;
    Entry(prev.seqNo, prev.at, Edit, MergedLabel(headline, count), prev.eventType, next.codeVersion,
          EditDetail(prev.detail.primary, count, Some(Span(SpanStart(prev), next.codeVersion)),
                     RegionsOf(prev) + One(next.detail.primary)))
  }

  predicate EndsInEdit(entries: seq<Entry>) {
    entries != [] && IsEdit(entries[|entries| - 1])
  }

  function Absorb(entries: seq<Entry>, e: Entry): seq<Entry> {
    if IsEdit(e) && EndsInEdit(entries) then entries[..|entries| - 1] + [Merge(entries[|entries| - 1], e)]
    else entries + [e]
  }

  function Collapsed(entries: seq<Entry>): seq<Entry> {
    if entries == [] then [] else Absorb(Collapsed(entries[..|entries| - 1]), entries[|entries| - 1])
  }

  /** The loop that edits the end of the output in place. */
  method Collapse(entries: seq<Entry>) returns (out: seq<Entry>)
    ensures out == Collapsed(entries)
  {
    out := [];
    for i := 0 to |entries|
      invariant out == Collapsed(entries[..i])
    {
      assert entries[..i + 1][..i] == entries[..i];
      var entry := entries[i];
      if entry.kind == Edit && entry.detail.EditDetail? && out != [] && IsEdit(out[|out| - 1]) {
        out := out[|out| - 1 := Merge(out[|out| - 1], entry)];
      } else {
        out := out + [entry];
      }
    }
    assert entries[..|entries|] == entries;
  }

  // ------------------------------------------------------------------ what collapsing means

  ghost predicate NoAdjacentEdits(entries: seq<Entry>) {
    forall i, j :: 0 <= i < j < |entries| && j == i + 1 ==> !(IsEdit(entries[i]) && IsEdit(entries[j]))
  }

  lemma {:induction false} CollapsedHasNoAdjacentEdits(entries: seq<Entry>)
    ensures NoAdjacentEdits(Collapsed(entries))
  {
    if entries != [] {
      CollapsedHasNoAdjacentEdits(entries[..|entries| - 1]);
    }
  }

  /** Rows shown as edits, counting what each stands for. */
  function SnapshotCount(entries: seq<Entry>): nat {
    if entries == [] then 0
    else
      var last := entries[|entries| - 1];
      SnapshotCount(entries[..|entries| - 1]) + if IsEdit(last) then last.detail.snapshotCount else 0
  }

  function NonEdits(entries: seq<Entry>): seq<Entry> {
    if entries == [] then []
    else
      var last := entries[|entries| - 1];
      var rest := NonEdits(entries[..|entries| - 1]);
      if IsEdit(last) then rest else rest + [last]
  }

  function AllRegions(entries: seq<Entry>): set<RegionTag> {
    if entries == [] then {} else AllRegions(entries[..|entries| - 1]) + RegionsOf(entries[|entries| - 1])
  }

  lemma SplitLast(entries: seq<Entry>, e: Entry)
    ensures (entries + [e])[..|entries + [e]| - 1] == entries
    ensures SnapshotCount(entries + [e]) == SnapshotCount(entries) + if IsEdit(e) then e.detail.snapshotCount else 0
    ensures NonEdits(entries + [e]) == NonEdits(entries) + if IsEdit(e) then [] else [e]
    ensures AllRegions(entries + [e]) == AllRegions(entries) + RegionsOf(e)
  {
    assert (entries + [e])[..|entries|] == entries;
  }

  predicate IsSingle(e: Entry) {
    IsEdit(e) ==> e.detail.snapshotCount == 1 && e.detail.regions == {} && e.detail.span.None?
  }

  lemma AbsorbConserves(out: seq<Entry>, e: Entry)
    requires IsSingle(e)
    ensures SnapshotCount(Absorb(out, e)) == SnapshotCount(out) + if IsEdit(e) then 1 else 0
    ensures NonEdits(Absorb(out, e)) == NonEdits(out) + if IsEdit(e) then [] else [e]
    ensures AllRegions(Absorb(out, e)) == AllRegions(out) + RegionsOf(e)
  {
    if IsEdit(e) && EndsInEdit(out) {
      var init, last := out[..|out| - 1], out[|out| - 1];
      assert out == init + [last];
      SplitLast(init, last);
      SplitLast(init, Merge(last, e));
    } else {
      SplitLast(out, e);
    }
  }

  /** No edit is lost or counted twice, no other entry moves, and no region is forgotten. */
  lemma {:induction false} CollapseConserves(entries: seq<Entry>)
    requires forall i :: 0 <= i < |entries| ==> IsSingle(entries[i])
    ensures SnapshotCount(Collapsed(entries)) == SnapshotCount(entries)
    ensures NonEdits(Collapsed(entries)) == NonEdits(entries)
    ensures AllRegions(Collapsed(entries)) == AllRegions(entries)
  {
    if entries != [] {
      var init, last := entries[..|entries| - 1], entries[|entries| - 1];
      CollapseConserves(init);
      AbsorbConserves(Collapsed(init), last);
    }
  }

  /** Entries that are not edits cut the timeline: both sides collapse on their own. */
  lemma {:induction false} CutsAtOtherEntries(a: seq<Entry>, e: Entry, b: seq<Entry>)
    requires !IsEdit(e)
    ensures Collapsed(a + [e] + b) == Collapsed(a) + [e] + Collapsed(b)
  {
    if b == [] {
      assert (a + [e] + b)[..|a|] == a;
    } else {
      var init, last := b[..|b| - 1], b[|b| - 1];
      assert (a + [e] + b)[..|a + [e] + b| - 1] == a + [e] + init;
      CutsAtOtherEntries(a, e, init);
      AbsorbsBehind(Collapsed(a) + [e], Collapsed(init), last);
    }
  }

  lemma AbsorbsBehind(front: seq<Entry>, out: seq<Entry>, e: Entry)
    requires front != [] && !EndsInEdit(front)
    ensures Absorb(front + out, e) == front + Absorb(out, e)
  {
    if out == [] {
      assert front + out == front;
    } else {
      assert (front + out)[..|front + out| - 1] == front + out[..|out| - 1];
    }
  }

  /** A stretch of edits becomes one entry: the first one's place, the last one's version, the whole count. */
  lemma {:induction false} RunBecomesOne(entries: seq<Entry>)
    requires |entries| >= 2
    requires forall i :: 0 <= i < |entries| ==> IsEdit(entries[i]) && IsSingle(entries[i])
    ensures var out := Collapsed(entries);
            var first, last := entries[0], entries[|entries| - 1];
            && |out| == 1 && IsEdit(out[0])
            && out[0].seqNo == first.seqNo && out[0].at == first.at
            && out[0].codeVersion == last.codeVersion
            && out[0].detail.span == Some(Span(first.codeVersion, last.codeVersion))
            && out[0].detail.snapshotCount == |entries|
            && out[0].title
               == MergedLabel(if last.detail.primary.Some? then last.detail.primary.value else Other, |entries|)
  {
    var init := entries[..|entries| - 1];
    if |entries| == 2 {
      assert init[..0] == [];
      assert Collapsed(init) == [entries[0]];
    } else {
      RunBecomesOne(init);
    }
  }

  /** Collapsing again changes nothing. */
  lemma {:induction false} CollapseIdempotent(entries: seq<Entry>)
    requires NoAdjacentEdits(entries)
    ensures Collapsed(entries) == entries
  {
    if entries != [] {
      var init := entries[..|entries| - 1];
      CollapseIdempotent(init);
      assert entries == init + [entries[|entries| - 1]];
    }
  }

  lemma CollapseTwice(entries: seq<Entry>)
    ensures Collapsed(Collapsed(entries)) == Collapsed(entries)
  {
    CollapsedHasNoAdjacentEdits(entries);
    CollapseIdempotent(Collapsed(entries));
  }

  // ------------------------------------------------------------------ the summary

  datatype Summary = Summary(editCount: nat, runCount: nat, submitCount: nat, triggerCount: nat,
                             bestPassed: Option<nat>, totalSeconds: nat)

  predicate IsSubmitRow(e: Event) {
    e.kind == TestResult && e.payload.ResultPayload? && e.payload.mode == SubmitMode
  }

  function SubmitRows(events: seq<Event>): nat {
    if events == [] then 0 else SubmitRows(events[..|events| - 1]) + if IsSubmitRow(events[|events| - 1]) then 1 else 0
  }

  function Better(best: Option<nat>, passed: nat): Option<nat> {
    Some(if best.Some? then Max(best.value, passed) else passed)
  }

  predicate IsScoredRow(e: Event) {
    e.kind == TestResult && e.payload.ResultPayload? && e.payload.status.Some? && e.payload.status.value in SCORED
  }

  function BestPassed(events: seq<Event>): Option<nat> {
    if events == [] then None
    else
      var rest := BestPassed(events[..|events| - 1]);
      if IsScoredRow(events[|events| - 1]) then Better(rest, events[|events| - 1].payload.passed) else rest
  }

  /** The session ends when it was finished, else at its newest row, else now. */
  function EndOf(events: seq<Event>, finishedAt: Option<int>, now: int): (end: int)
    ensures finishedAt.Some? ==> end == finishedAt.value
    ensures finishedAt.None? && events != [] ==> end == events[|events| - 1].at
    ensures finishedAt.None? && events == [] ==> end == now
  {
    if finishedAt.Some? then finishedAt.value else if events != [] then events[|events| - 1].at else now
  }

  method BuildTimeline(events: seq<Event>, startedAt: int, finishedAt: Option<int>, now: int, collapse: bool)
    returns (entries: seq<Entry>, summary: Summary)
    ensures entries == if collapse then Collapsed(Entries(events)) else Entries(events)
    ensures summary.editCount == CountKind(events, CodeSnapshot)
    ensures summary.runCount + summary.submitCount == CountKind(events, TestResult)
    ensures summary.submitCount == SubmitRows(events)
    ensures summary.triggerCount == CountKind(events, AgentTrigger)
    ensures summary.bestPassed == BestPassed(events)
    ensures summary.totalSeconds == SecondsBetween(startedAt, EndOf(events, finishedAt, now))
  {
    entries := Entries(events);
    if collapse {
      entries := Collapse(entries);
    }
    var runs: nat, submits: nat, best := 0, 0, None;
    for i := 0 to |events|
      invariant runs + submits == CountKind(events[..i], TestResult)
      invariant submits == SubmitRows(events[..i])
      invariant best == BestPassed(events[..i])
    {
      assert events[..i + 1][..i] == events[..i];
      var e := events[i];
      if e.kind != TestResult {
        continue;
      }
      if e.payload.ResultPayload? && e.payload.mode == SubmitMode {
        submits := submits + 1;
      } else {
        runs := runs + 1;
      }
      if IsScoredRow(e) {
        best := if best.None? then Some(e.payload.passed) else Some(Max(best.value, e.payload.passed));
      }
    }
    assert events[..|events|] == events;
    summary := Summary(CountKind(events, CodeSnapshot), runs, submits, CountKind(events, AgentTrigger), best,
                       SecondsBetween(startedAt, EndOf(events, finishedAt, now)));
  }

  lemma {:induction false} EntriesAreSingle(events: seq<Event>)
    ensures forall i :: 0 <= i < |Entries(events)| ==> IsSingle(Entries(events)[i])
    ensures SnapshotCount(Entries(events)) == CountKind(events, CodeSnapshot)
  {
    if events != [] {
      EntriesAreSingle(events[..|events| - 1]);
      SplitLast(Entries(events[..|events| - 1]), ToEntry(events[|events| - 1]));
    }
  }

  /** Collapsed or not, the entries shown stand for exactly the edits counted in the summary. */
  lemma EditCountShown(events: seq<Event>)
    ensures SnapshotCount(Entries(events)) == CountKind(events, CodeSnapshot)
    ensures SnapshotCount(Collapsed(Entries(events))) == CountKind(events, CodeSnapshot)
  {
    EntriesAreSingle(events);
    CollapseConserves(Entries(events));
  }

  /** The personal record among scored observations. */
  function Record(scored: seq<Observation>): Option<nat> {
    var best := FirstBest(scored);
    if best.Some? then Some(scored[best.value].passed) else None
  }

  lemma RecordGrows(scored: seq<Observation>, o: Observation)
    ensures Record(scored + [o]) == Better(Record(scored), o.passed)
  {
    assert (scored + [o])[..|scored|] == scored;
  }

  /** Submits counted in the summary: result rows of that mode, whatever their status. */
  lemma {:induction false} SubmitRowsAre(events: seq<Event>, p: Event -> bool)
    requires forall e :: p(e) <==> e.kind == TestResult && e.payload.ResultPayload? && e.payload.mode == SubmitMode
    ensures SubmitRows(events) == HowMany(events, p)
  {
    if events == [] {
      HowManyNone(p);
    } else {
      SubmitRowsAre(events[..|events| - 1], p);
      HowManyMore(events, p);
    }
  }

  lemma ScoredGrow(events: seq<Event>)
    requires events != []
    ensures var last := events[|events| - 1];
            Scored(events)
            == Scored(events[..|events| - 1]) + if IsScoredRow(last) then [ToObservation(last).value] else []
  {
    var last := events[|events| - 1];
    if last.kind == TestResult && ToObservation(last).Some? {
      var results := Results(events[..|events| - 1]);
      assert (results + [ToObservation(last).value])[..|results|] == results;
    }
  }

  /** The timeline's best score is the record the monitor measures progress against. */
  lemma {:induction false} BestIsTheRecord(events: seq<Event>)
    ensures BestPassed(events) == Record(Scored(events))
  {
    if events != [] {
      var init, last := events[..|events| - 1], events[|events| - 1];
      BestIsTheRecord(init);
      ScoredGrow(events);
      if IsScoredRow(last) {
        RecordGrows(Scored(init), ToObservation(last).value);
      }
    }
  }
}
