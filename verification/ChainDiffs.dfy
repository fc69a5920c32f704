/** The diff columns along a whole session: every snapshot row accounts for its lines. */
module ChainDiffs {
  import opened Prelude
  import opened TraceTypes
  import opened TraceStore
  import opened MonitorRuns
  import Diff

  /** A matcher that meets its contract on every pair of texts. */
  ghost predicate IsMatcher(matcher: (seq<Diff.Line>, seq<Diff.Line>) -> seq<Diff.Opcode>) {
    forall a, b :: Diff.Tiles(matcher(a, b), a, b, |a|, |b|)
  }

  function LinesOf(split: string -> seq<Diff.Line>, code: Option<string>): seq<Diff.Line> {
    if code.None? then [] else split(code.value)
  }

  /** The diff of a snapshot against the code before it, as the store's differ. */
  function DifferOf(
    split: string -> seq<Diff.Line>, matcher: (seq<Diff.Line>, seq<Diff.Line>) -> seq<Diff.Opcode>,
    tagLine: Diff.Line -> RegionTag): Differ
  {
    (before: Option<string>, code: string) =>
      var a, b := LinesOf(split, before), split(code);
      Diff.Columns(Diff.DiffOf(matcher(a, b), a, b, tagLine))
  }

  function NewestCode(snapshots: seq<Snapshot>): Option<string> {
    if snapshots == [] then None else Some(snapshots[|snapshots| - 1].code)
  }

  /** Every row holds the diff against its predecessor, and the time since it was made. */
  predicate Diffed(differ: Differ, snapshots: seq<Snapshot>) {
    snapshots == [] ||
    var init, last := snapshots[..|snapshots| - 1], snapshots[|snapshots| - 1];
    && last.columns == differ(NewestCode(init), last.code)
    && last.secondsSinceParent
       == (if init == [] then 0 else SecondsBetween(init[|init| - 1].createdAt, last.createdAt))
    && Diffed(differ, init)
  }

  /** Row by row: what a row of a diffed chain says about the row before it. */
  lemma {:induction false} DiffedAt(differ: Differ, snapshots: seq<Snapshot>, i: nat)
    requires Diffed(differ, snapshots) && i < |snapshots|
    ensures snapshots[i].columns == differ(if i == 0 then None else Some(snapshots[i - 1].code), snapshots[i].code)
    ensures snapshots[i].secondsSinceParent
         == if i == 0 then 0 else SecondsBetween(snapshots[i - 1].createdAt, snapshots[i].createdAt)
  {
    if i < |snapshots| - 1 {
      DiffedAt(differ, snapshots[..|snapshots| - 1], i);
    }
  }

  lemma CreateKeepsDiffed(differ: Differ, st: Store, code: string, at: int)
    requires Diffed(differ, st.snapshots)
    ensures Diffed(differ, CreateSnapshot(differ, st, code, at).0.snapshots)
  {
    var next := CreateSnapshot(differ, st, code, at).0;
    if next.snapshots != st.snapshots {
      assert next.snapshots[..|st.snapshots|] == st.snapshots;
    }
  }

  lemma {:induction false} IngestKeepsDiffed(differ: Differ, st: Store, loaded: nat, items: seq<Item>, now: int)
    requires Diffed(differ, st.snapshots) && IngestAll(differ, st, loaded, items, now).Ok?
    ensures Diffed(differ, IngestAll(differ, st, loaded, items, now).value.snapshots)
  {
    if items != [] {
      var before, item := items[..|items| - 1], items[|items| - 1];
      IngestKeepsDiffed(differ, st, loaded, before, now);
      if item.kind == CodeSnapshot {
        CreateKeepsDiffed(differ, IngestAll(differ, st, loaded, before, now).value, item.code.value, now);
      }
    }
  }

  lemma StepKeepsDiffed(monitor: Evaluator, differ: Differ, st: Store, step: Step)
    requires Diffed(differ, st.snapshots)
    ensures Diffed(differ, Apply(monitor, differ, st, step).snapshots)
  {
    match step
    case Batch(items, at) =>
      if Ingest(differ, st, items, at).Ok? {
        IngestKeepsDiffed(differ, st, st.lastCodeVersion, Fresh(KnownIds(st.events), items), at);
      }
    case Execution(grading, verdict, at) =>
      if grading.GradeCode? {
        CreateKeepsDiffed(differ, st, grading.code, at);
      }
    case _ =>
  }

  lemma {:induction false} RunKeepsDiffed(
    monitor: Evaluator, differ: Differ, template: string, at: int, steps: seq<Step>)
    ensures Diffed(differ, Session(monitor, differ, template, at, steps).snapshots)
  {
    if steps == [] {
      var empty := Store(at, false, 0, 0, [], []);
      CreateKeepsDiffed(differ, AppendEvent(empty, SessionStart, Server, NoPayload, None, None, at), template, at);
    } else {
      RunKeepsDiffed(monitor, differ, template, at, steps[..|steps| - 1]);
      StepKeepsDiffed(monitor, differ, Session(monitor, differ, template, at, steps[..|steps| - 1]),
                      steps[|steps| - 1]);
    }
  }

  /** `r` ten-thousandths is the share of `size` in `longer`, to within half of one. */
  predicate IsShare(r: int, size: nat, longer: int) {
    -longer <= 2 * (r * longer - 10000 * size) <= longer
  }

  /** The columns measure the change from one text to the next: line counts, size, share of the longer text. */
  ghost predicate Measures(c: DiffColumns, before: seq<Diff.Line>, after: seq<Diff.Line>) {
    && c.changeSize == c.added + c.deleted && c.changedLines == c.added
    && |after| == |before| + c.added - c.deleted
    && exists r: int :: IsShare(r, c.changeSize, Max(Max(|before|, |after|), 1)) && c.changeRatio == r as real / 10000.0
  }

  lemma ColumnsMeasure(ops: seq<Diff.Opcode>, a: seq<Diff.Line>, b: seq<Diff.Line>, tagLine: Diff.Line -> RegionTag)
    requires Diff.Tiles(ops, a, b, |a|, |b|)
    ensures Measures(Diff.Columns(Diff.DiffOf(ops, a, b, tagLine)), a, b)
  {
    Diff.DiffConserves(ops, a, b, tagLine);
    Diff.DiffReports(ops, a, b, tagLine, 0, Other);
    var d := Diff.DiffOf(ops, a, b, tagLine);
    assert IsShare(d.ratio, d.changeSize, Max(Max(|a|, |b|), 1));
  }

  lemma RowMeasures(
    split: string -> seq<Diff.Line>, matcher: (seq<Diff.Line>, seq<Diff.Line>) -> seq<Diff.Opcode>,
    tagLine: Diff.Line -> RegionTag, before: Option<string>, code: string)
    requires IsMatcher(matcher)
    ensures var columns, a, b := DifferOf(split, matcher, tagLine)(before, code), LinesOf(split, before), split(code);
            Measures(columns, a, b) && Diff.IsMostEdited(matcher(a, b), a, b, tagLine, columns.primaryRegion)
  {
    var a, b := LinesOf(split, before), split(code);
    ColumnsMeasure(matcher(a, b), a, b, tagLine);
    Diff.PrimaryIsMostEdited(matcher(a, b), a, b, tagLine);
  }

  /**
   * In every run of a session each row measures the change against the row before it, and knows how long
   * after that row it was made.
   */
  lemma RowMeasuresItsChange(
    monitor: Evaluator, split: string -> seq<Diff.Line>, matcher: (seq<Diff.Line>, seq<Diff.Line>) -> seq<Diff.Opcode>,
    tagLine: Diff.Line -> RegionTag, template: string, at: int, steps: seq<Step>, snapshots: seq<Snapshot>, i: nat)
    requires IsMatcher(matcher) && i < |snapshots|
    requires snapshots == Session(monitor, DifferOf(split, matcher, tagLine), template, at, steps).snapshots
    ensures var a, b := if i == 0 then [] else split(snapshots[i - 1].code), split(snapshots[i].code);
            && Measures(snapshots[i].columns, a, b)
            && Diff.IsMostEdited(matcher(a, b), a, b, tagLine, snapshots[i].columns.primaryRegion)
    ensures snapshots[i].secondsSinceParent
         == if i == 0 then 0 else SecondsBetween(snapshots[i - 1].createdAt, snapshots[i].createdAt)
  {
    var differ := DifferOf(split, matcher, tagLine);
    RunKeepsDiffed(monitor, differ, template, at, steps);
    DiffedAt(differ, snapshots, i);
    RowMeasures(split, matcher, tagLine, if i == 0 then None else Some(snapshots[i - 1].code), snapshots[i].code);
  }

  /** A saved edit is made at the time of its request, and its row shows the snapshot's columns. */
  lemma EditRow(differ: Differ, st: Store, loaded: nat, item: Item, now: int)
    requires Valid(st) && item.kind == CodeSnapshot && item.code.Some?
    ensures var r := IngestItem(differ, st, loaded, item, now);
            && r.Ok? && |r.value.events| == |st.events| + 1
            && var e, newest := r.value.events[|st.events|], r.value.snapshots[|r.value.snapshots| - 1];
               var repeats := st.snapshots[|st.snapshots| - 1].code == item.code.value;
               && e.codeVersion == Some(newest.version) && newest.code == item.code.value
               && e.payload == EditPayload(newest.columns.primaryRegion, newest.columns.changedLines, repeats)
               && (repeats ==> r.value.snapshots == st.snapshots)
               && (!repeats ==> |r.value.snapshots| == |st.snapshots| + 1 && newest.createdAt == now)
  {
  }

  /** Lines added minus lines deleted over the whole chain. */
  function NetLines(snapshots: seq<Snapshot>): int {
    if snapshots == [] then 0
    else
      var last := snapshots[|snapshots| - 1].columns;
      NetLines(snapshots[..|snapshots| - 1]) + last.added - last.deleted
  }

  lemma {:induction false} NetLinesTelescope(
    split: string -> seq<Diff.Line>, matcher: (seq<Diff.Line>, seq<Diff.Line>) -> seq<Diff.Opcode>,
    tagLine: Diff.Line -> RegionTag, snapshots: seq<Snapshot>)
    requires IsMatcher(matcher) && Diffed(DifferOf(split, matcher, tagLine), snapshots)
    ensures NetLines(snapshots) == |LinesOf(split, NewestCode(snapshots))|
  {
    if snapshots != [] {
      var init, last := snapshots[..|snapshots| - 1], snapshots[|snapshots| - 1];
      NetLinesTelescope(split, matcher, tagLine, init);
      var a, b := LinesOf(split, NewestCode(init)), split(last.code);
      Diff.DiffConserves(matcher(a, b), a, b, tagLine);
    }
  }

  /**
   * In every run of a session, through batches, retries and judged code, the added and deleted line
   * counts of all snapshot rows add up to the length of the newest code.
   */
  lemma LineCountsBalance(
    monitor: Evaluator, split: string -> seq<Diff.Line>, matcher: (seq<Diff.Line>, seq<Diff.Line>) -> seq<Diff.Opcode>,
    tagLine: Diff.Line -> RegionTag, template: string, at: int, steps: seq<Step>)
    requires IsMatcher(matcher)
    ensures var snapshots := Session(monitor, DifferOf(split, matcher, tagLine), template, at, steps).snapshots;
            NetLines(snapshots) == |LinesOf(split, NewestCode(snapshots))|
  {
    var differ := DifferOf(split, matcher, tagLine);
    RunKeepsDiffed(monitor, differ, template, at, steps);
    NetLinesTelescope(split, matcher, tagLine, Session(monitor, differ, template, at, steps).snapshots);
  }
}
