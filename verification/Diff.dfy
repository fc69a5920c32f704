/**
 * Line diffs between two snapshots. The matcher is any opcode list that meets its contract: blocks
 * tile both texts and `equal` blocks match. Code is given as normalized lines.
 */
module Diff {
  import opened Prelude
  import opened TraceTypes

  type Line = string

  datatype OpTag = Equal | Replace | Insert | Delete

  /** Lines `i1..i2` of the old text against lines `j1..j2` of the new one. */
  datatype Opcode = Opcode(tag: OpTag, i1: nat, i2: nat, j1: nat, j2: nat)

  datatype DiffResult = DiffResult(
    changedLines: seq<nat>, deletedLines: seq<nat>, added: nat, deleted: nat, changeSize: nat,
    ratio: int, regionTags: set<RegionTag>, primary: RegionTag)

  // ------------------------------------------------------------------ the matcher's contract

  predicate WellShaped(op: Opcode, oldLines: seq<Line>, newLines: seq<Line>) {
    && op.i1 <= op.i2 <= |oldLines| && op.j1 <= op.j2 <= |newLines|
    && (op.tag == Equal ==> oldLines[op.i1..op.i2] == newLines[op.j1..op.j2])
    && (op.tag == Insert ==> op.i1 == op.i2)
    && (op.tag == Delete ==> op.j1 == op.j2)
  }

  /** The blocks cover the first `i` old and the first `j` new lines, in order and without gaps. */
  predicate Tiles(ops: seq<Opcode>, oldLines: seq<Line>, newLines: seq<Line>, i: nat, j: nat) {
    if ops == [] then i == 0 && j == 0
    else
      var last := ops[|ops| - 1];
      && WellShaped(last, oldLines, newLines) && last.i2 == i && last.j2 == j
      && Tiles(ops[..|ops| - 1], oldLines, newLines, last.i1, last.j1)
  }

  // ------------------------------------------------------------------ what the loop collects

  /** The line numbers `a + 1 .. b`. */
  function Numbers(a: nat, b: nat): (ns: seq<nat>)
    requires a <= b
    ensures |ns| == b - a
  {
    if a == b then [] else Numbers(a, b - 1) + [b]
  }

  function ChangedBy(op: Opcode): seq<nat> {
    if (op.tag == Replace || op.tag == Insert) && op.j1 <= op.j2 then Numbers(op.j1, op.j2) else []
  }

  function DeletedBy(op: Opcode): seq<nat> {
    if (op.tag == Replace || op.tag == Delete) && op.i1 <= op.i2 then Numbers(op.i1, op.i2) else []
  }

  function Changed(ops: seq<Opcode>): seq<nat> {
    if ops == [] then [] else Changed(ops[..|ops| - 1]) + ChangedBy(ops[|ops| - 1])
  }

  function Deleted(ops: seq<Opcode>): seq<nat> {
    if ops == [] then [] else Deleted(ops[..|ops| - 1]) + DeletedBy(ops[|ops| - 1])
  }

  /** Tags of the given line numbers. */
  function TagsAt(lines: seq<Line>, numbers: seq<nat>, tagLine: Line -> RegionTag): seq<RegionTag> {
    if numbers == [] then []
    else
      var n := numbers[|numbers| - 1];
      TagsAt(lines, numbers[..|numbers| - 1], tagLine) + if 1 <= n <= |lines| then [tagLine(lines[n - 1])] else []
  }

  /** New lines are tagged before deleted ones, block by block. */
  function Tags(
    ops: seq<Opcode>, oldLines: seq<Line>, newLines: seq<Line>, tagLine: Line -> RegionTag): seq<RegionTag>
  {
    if ops == [] then []
    else
      var last := ops[|ops| - 1];
      Tags(ops[..|ops| - 1], oldLines, newLines, tagLine)
        + TagsAt(newLines, ChangedBy(last), tagLine) + TagsAt(oldLines, DeletedBy(last), tagLine)
  }

  // ------------------------------------------------------------------ the primary region

  /** Ties between regions are broken in this order. */
  const PRIORITY: seq<RegionTag> :=
    [LoopRegion, Condition, Accumulator, Initialization, ReturnRegion, FunctionDef, Other]

  function Count(tags: seq<RegionTag>, t: RegionTag): nat {
    if tags == [] then 0 else Count(tags[..|tags| - 1], t) + if tags[|tags| - 1] == t then 1 else 0
  }

  function Meaningful(tags: seq<RegionTag>): seq<RegionTag> {
    if tags == [] then []
    else
      var rest := Meaningful(tags[..|tags| - 1]);
      if tags[|tags| - 1] != Other then rest + [tags[|tags| - 1]] else rest
  }

  /** The largest count of any tag among the first `n` of the priority list. */
  function TopCount(tags: seq<RegionTag>, n: nat): int
    requires n <= |PRIORITY|
  {
    if n == 0 then 0 else Max(TopCount(tags, n - 1), Count(tags, PRIORITY[n - 1]))
  }

  /** The first tag from position `n` of the priority list that occurs `top` times. */
  function FirstWith(tags: seq<RegionTag>, top: int, n: nat): RegionTag
    requires n <= |PRIORITY|
    decreases |PRIORITY| - n
  {
    if n == |PRIORITY| then Other
    else if Count(tags, PRIORITY[n]) == top then PRIORITY[n]
    else FirstWith(tags, top, n + 1)
  }

  function Mode(tags: seq<RegionTag>): RegionTag {
    if tags == [] then Other else FirstWith(tags, TopCount(tags, |PRIORITY|), 0)
  }

  function Primary(tags: seq<RegionTag>): RegionTag {
    Mode(if Meaningful(tags) != [] then Meaningful(tags) else tags)
  }

  // ------------------------------------------------------------------ the diff

  function Denominator(oldLines: seq<Line>, newLines: seq<Line>): (d: nat)
    ensures d >= 1 && d >= |oldLines| && d >= |newLines|
  {
    Max(Max(|oldLines|, |newLines|), 1)
  }

  /** The change ratio in ten-thousandths, rounded half to even. */
  function Ratio(size: nat, oldLines: seq<Line>, newLines: seq<Line>): int {
    RoundHalfEven(10000 * size, Denominator(oldLines, newLines))
  }

  function TagSet(tags: seq<RegionTag>): set<RegionTag> {
    if tags == [] then {} else TagSet(tags[..|tags| - 1]) + {tags[|tags| - 1]}
  }

  function Assemble(
    changed: seq<nat>, deleted: seq<nat>, tags: seq<RegionTag>, oldLines: seq<Line>, newLines: seq<Line>): DiffResult
  {
    var size := |changed| + |deleted|;
    DiffResult(
      changed, deleted, |changed|, |deleted|, size, Ratio(size, oldLines, newLines), TagSet(tags), Primary(tags))
  }

  function DiffOf(ops: seq<Opcode>, oldLines: seq<Line>, newLines: seq<Line>, tagLine: Line -> RegionTag): DiffResult {
    Assemble(Changed(ops), Deleted(ops), Tags(ops, oldLines, newLines, tagLine), oldLines, newLines)
  }

  lemma OneBlockMore(ops: seq<Opcode>, k: nat, oldLines: seq<Line>, newLines: seq<Line>, tagLine: Line -> RegionTag)
    requires k < |ops|
    ensures Changed(ops[..k + 1]) == Changed(ops[..k]) + ChangedBy(ops[k])
    ensures Deleted(ops[..k + 1]) == Deleted(ops[..k]) + DeletedBy(ops[k])
    ensures Tags(ops[..k + 1], oldLines, newLines, tagLine)
         == Tags(ops[..k], oldLines, newLines, tagLine) + TagsAt(newLines, ChangedBy(ops[k]), tagLine)
           + TagsAt(oldLines, DeletedBy(ops[k]), tagLine)
  {
    assert ops[..k + 1][..k] == ops[..k];
  }

  /** The loop over the opcodes: line lists, counters and tags side by side. */
  method Collect(ops: seq<Opcode>, oldLines: seq<Line>, newLines: seq<Line>, tagLine: Line -> RegionTag)
    returns (changed: seq<nat>, deleted: seq<nat>, added: nat, removed: nat, tags: seq<RegionTag>)
    requires forall k :: 0 <= k < |ops| ==> WellShaped(ops[k], oldLines, newLines)
    ensures changed == Changed(ops) && deleted == Deleted(ops)
    ensures added == |changed| && removed == |deleted|
    ensures tags == Tags(ops, oldLines, newLines, tagLine)
  {
    changed, deleted, tags := [], [], [];
    added, removed := 0, 0;
    for k := 0 to |ops|
      invariant changed == Changed(ops[..k]) && deleted == Deleted(ops[..k])
      invariant added == |changed| && removed == |deleted|
      invariant tags == Tags(ops[..k], oldLines, newLines, tagLine)
    {
      OneBlockMore(ops, k, oldLines, newLines, tagLine);
      var op := ops[k];
      ghost var before := tags;
      if op.tag == Replace || op.tag == Insert {
        var numbers := Numbers(op.j1, op.j2);
        changed := changed + numbers;
        added := added + (op.j2 - op.j1);
        tags := tags + TagsAt(newLines, numbers, tagLine);
      }
      assert tags == before + TagsAt(newLines, ChangedBy(op), tagLine);
      before := tags;
      if op.tag == Replace || op.tag == Delete {
        var numbers := Numbers(op.i1, op.i2);
        deleted := deleted + numbers;
        removed := removed + (op.i2 - op.i1);
        tags := tags + TagsAt(oldLines, numbers, tagLine);
      }
      assert tags == before + TagsAt(oldLines, DeletedBy(op), tagLine);
    }
    assert ops[..|ops|] == ops;
  }

  method ComputeDiff(
    ops: seq<Opcode>, oldLines: seq<Line>, newLines: seq<Line>, tagLine: Line -> RegionTag)
    returns (r: DiffResult)
    requires forall k :: 0 <= k < |ops| ==> WellShaped(ops[k], oldLines, newLines)
    ensures r == DiffOf(ops, oldLines, newLines, tagLine)
  {
    var changed, deleted, added, removed, tags := Collect(ops, oldLines, newLines, tagLine);
    r := Assemble(changed, deleted, tags, oldLines, newLines);
    r := r.(added := added, deleted := removed, changeSize := added + removed);
  }

  /** The columns a snapshot row stores. */
  function Columns(d: DiffResult): DiffColumns {
    DiffColumns(d.added, d.deleted, d.changeSize, d.ratio as real / 10000.0, |d.changedLines|, d.primary)
  }

  // ------------------------------------------------------------------ what is reported

  /** New line `x` lies in a block that replaces or inserts. */
  ghost predicate IsChangedLine(ops: seq<Opcode>, x: nat) {
    exists k :: 0 <= k < |ops| && (ops[k].tag == Replace || ops[k].tag == Insert) && ops[k].j1 < x <= ops[k].j2
  }

  /** Old line `x` lies in a block that replaces or deletes. */
  ghost predicate IsDeletedLine(ops: seq<Opcode>, x: nat) {
    exists k :: 0 <= k < |ops| && (ops[k].tag == Replace || ops[k].tag == Delete) && ops[k].i1 < x <= ops[k].i2
  }

  /** The line numbers reported are exactly those of the blocks that are not equal. */
  lemma {:induction false} ChangedLinesAre(ops: seq<Opcode>, x: nat)
    ensures x in Changed(ops) <==> IsChangedLine(ops, x)
  {
    if ops != [] {
      var init, last := ops[..|ops| - 1], ops[|ops| - 1];
      ChangedLinesAre(init, x);
      assert forall k :: 0 <= k < |init| ==> init[k] == ops[k];
      if last.j1 <= last.j2 {
        NumbersMember(last.j1, last.j2, x);
      }
      assert IsChangedLine(ops, x) <==>
        IsChangedLine(init, x) || ((last.tag == Replace || last.tag == Insert) && last.j1 < x <= last.j2);
    }
  }

  lemma {:induction false} DeletedLinesAre(ops: seq<Opcode>, x: nat)
    ensures x in Deleted(ops) <==> IsDeletedLine(ops, x)
  {
    if ops != [] {
      var init, last := ops[..|ops| - 1], ops[|ops| - 1];
      DeletedLinesAre(init, x);
      assert forall k :: 0 <= k < |init| ==> init[k] == ops[k];
      if last.i1 <= last.i2 {
        NumbersMember(last.i1, last.i2, x);
      }
      assert IsDeletedLine(ops, x) <==>
        IsDeletedLine(init, x) || ((last.tag == Replace || last.tag == Delete) && last.i1 < x <= last.i2);
    }
  }

  /** The line numbers that carry the tag. */
  function HasTag(lines: seq<Line>, tagLine: Line -> RegionTag, t: RegionTag): nat -> bool {
    (n: nat) => 1 <= n <= |lines| && tagLine(lines[n - 1]) == t
  }

  /** How many of the listed lines carry the tag. */
  ghost function LinesTagged(lines: seq<Line>, numbers: seq<nat>, tagLine: Line -> RegionTag, t: RegionTag): nat {
    HowMany(numbers, HasTag(lines, tagLine, t))
  }

  lemma {:induction false} TagsAtCount(lines: seq<Line>, numbers: seq<nat>, tagLine: Line -> RegionTag, t: RegionTag)
    ensures Count(TagsAt(lines, numbers, tagLine), t) == LinesTagged(lines, numbers, tagLine, t)
  {
    var p := HasTag(lines, tagLine, t);
    if numbers == [] {
      HowManyNone(p);
    } else {
      var n, rest := numbers[|numbers| - 1], TagsAt(lines, numbers[..|numbers| - 1], tagLine);
      TagsAtCount(lines, numbers[..|numbers| - 1], tagLine, t);
      HowManyMore(numbers, p);
      if 1 <= n <= |lines| {
        assert (rest + [tagLine(lines[n - 1])])[..|rest|] == rest;
      } else {
        assert rest + [] == rest;
      }
    }
  }

  lemma {:induction false} CountAppend(a: seq<RegionTag>, b: seq<RegionTag>, t: RegionTag)
    ensures Count(a + b, t) == Count(a, t) + Count(b, t)
  {
    if b == [] {
      assert a + b == a;
    } else {
      assert (a + b)[..|a + b| - 1] == a + b[..|b| - 1];
      CountAppend(a, b[..|b| - 1], t);
    }
  }

  lemma {:induction false} TaggedAppend(
    lines: seq<Line>, a: seq<nat>, b: seq<nat>, tagLine: Line -> RegionTag, t: RegionTag)
    ensures LinesTagged(lines, a + b, tagLine, t)
         == LinesTagged(lines, a, tagLine, t) + LinesTagged(lines, b, tagLine, t)
  {
    var p := HasTag(lines, tagLine, t);
    if b == [] {
      HowManyNone(p);
      assert a + b == a;
    } else {
      TaggedAppend(lines, a, b[..|b| - 1], tagLine, t);
      HowManyMore(b, p);
      HowManyMore(a + b, p);
      assert (a + b)[..|a + b| - 1] == a + b[..|b| - 1];
    }
  }

  /** The collected tags are those of the reported lines of both texts, each line counted once. */
  lemma {:induction false} TagsCount(
    ops: seq<Opcode>, oldLines: seq<Line>, newLines: seq<Line>, tagLine: Line -> RegionTag, t: RegionTag)
    ensures Count(Tags(ops, oldLines, newLines, tagLine), t)
         == LinesTagged(newLines, Changed(ops), tagLine, t) + LinesTagged(oldLines, Deleted(ops), tagLine, t)
  {
    if ops == [] {
      TagsAtCount(newLines, [], tagLine, t);
      TagsAtCount(oldLines, [], tagLine, t);
    } else {
      var init, last := ops[..|ops| - 1], ops[|ops| - 1];
      TagsCount(init, oldLines, newLines, tagLine, t);
      var before := Tags(init, oldLines, newLines, tagLine);
      var added, removed := TagsAt(newLines, ChangedBy(last), tagLine), TagsAt(oldLines, DeletedBy(last), tagLine);
      CountAppend(before, added, t);
      CountAppend(before + added, removed, t);
      TagsAtCount(newLines, ChangedBy(last), tagLine, t);
      TagsAtCount(oldLines, DeletedBy(last), tagLine, t);
      TaggedAppend(newLines, Changed(init), ChangedBy(last), tagLine, t);
      TaggedAppend(oldLines, Deleted(init), DeletedBy(last), tagLine, t);
    }
  }

  lemma {:induction false} TagSetIs(tags: seq<RegionTag>, t: RegionTag)
    ensures t in TagSet(tags) <==> Count(tags, t) > 0
  {
    if tags != [] {
      TagSetIs(tags[..|tags| - 1], t);
    }
  }

  /**
   * What a diff reports, for any opcodes: exactly the lines of unequal blocks, with their numbers, their
   * regions and their share of the longer text, to within half of a ten-thousandth.
   */
  lemma DiffReports(
    ops: seq<Opcode>, oldLines: seq<Line>, newLines: seq<Line>, tagLine: Line -> RegionTag, x: nat, t: RegionTag)
    ensures var d, longer := DiffOf(ops, oldLines, newLines, tagLine), Max(Max(|oldLines|, |newLines|), 1);
            && (x in d.changedLines <==> IsChangedLine(ops, x))
            && (x in d.deletedLines <==> IsDeletedLine(ops, x))
            && d.added == |d.changedLines| && d.deleted == |d.deletedLines| && d.changeSize == d.added + d.deleted
            && (t in d.regionTags <==> LinesTagged(newLines, d.changedLines, tagLine, t) > 0
                                       || LinesTagged(oldLines, d.deletedLines, tagLine, t) > 0)
            && -longer <= 2 * (d.ratio * longer - 10000 * d.changeSize) <= longer
  {
    ChangedLinesAre(ops, x);
    DeletedLinesAre(ops, x);
    TagsCount(ops, oldLines, newLines, tagLine, t);
    TagSetIs(Tags(ops, oldLines, newLines, tagLine), t);
  }

  /** Equal blocks alone are no change. */
  lemma {:induction false} EqualBlocksChangeNothing(ops: seq<Opcode>)
    requires forall k :: 0 <= k < |ops| ==> ops[k].tag == Equal
    ensures Changed(ops) == [] && Deleted(ops) == []
  {
    if ops != [] {
      EqualBlocksChangeNothing(ops[..|ops| - 1]);
    }
  }

  /** A line is reported once: the numbers rise from block to block. */
  ghost predicate Rising(numbers: seq<nat>) {
    forall i, j :: 0 <= i < j < |numbers| ==> numbers[i] < numbers[j]
  }

  lemma {:induction false} NumbersRise(a: nat, b: nat)
    requires a <= b
    ensures Rising(Numbers(a, b))
    ensures forall i :: 0 <= i < b - a ==> Numbers(a, b)[i] == a + 1 + i
    decreases b - a
  {
    if a < b {
      NumbersRise(a, b - 1);
    }
  }

  lemma RisingAppend(numbers: seq<nat>, a: nat, b: nat)
    requires a <= b && UpTo(numbers, a) && Rising(numbers)
    ensures Rising(numbers + Numbers(a, b))
  {
    NumbersRise(a, b);
    forall x | x in numbers
      ensures x <= a
    {
      UpToMember(numbers, a, x);
    }
  }

  lemma BlockRises(numbers: seq<nat>, block: seq<nat>, a: nat, b: nat)
    requires a <= b && UpTo(numbers, a) && Rising(numbers)
    requires block == [] || block == Numbers(a, b)
    ensures Rising(numbers + block)
  {
    if block == [] {
      assert numbers + block == numbers;
    } else {
      RisingAppend(numbers, a, b);
    }
  }

  lemma {:induction false} LinesReportedOnce(ops: seq<Opcode>, oldLines: seq<Line>, newLines: seq<Line>, i: nat, j: nat)
    requires Tiles(ops, oldLines, newLines, i, j)
    ensures Rising(Changed(ops)) && Rising(Deleted(ops))
  {
    if ops != [] {
      var init, last := ops[..|ops| - 1], ops[|ops| - 1];
      LinesReportedOnce(init, oldLines, newLines, last.i1, last.j1);
      PrefixConserved(init, oldLines, newLines, last.i1, last.j1);
      BlockRises(Changed(init), ChangedBy(last), last.j1, last.j2);
      BlockRises(Deleted(init), DeletedBy(last), last.i1, last.i2);
    }
  }

  // ------------------------------------------------------------------ conservation

  /** The lines whose numbers are not listed. */
  function Kept(lines: seq<Line>, removed: seq<nat>): seq<Line> {
    if lines == [] then []
    else
      var rest := Kept(lines[..|lines| - 1], removed);
      if |lines| in removed then rest else rest + [lines[|lines| - 1]]
  }

  predicate UpTo(numbers: seq<nat>, bound: nat) {
    numbers == [] || (1 <= numbers[|numbers| - 1] <= bound && UpTo(numbers[..|numbers| - 1], bound))
  }

  lemma {:induction false} UpToMember(numbers: seq<nat>, bound: nat, x: nat)
    requires UpTo(numbers, bound) && x in numbers
    ensures 1 <= x <= bound
  {
    if x != numbers[|numbers| - 1] {
      UpToMember(numbers[..|numbers| - 1], bound, x);
    }
  }

  lemma {:induction false} NumbersMember(a: nat, b: nat, x: nat)
    requires a <= b
    ensures x in Numbers(a, b) <==> a < x <= b
    decreases b - a
  {
    if a < b {
      NumbersMember(a, b - 1, x);
    }
  }

  /** Numbers beyond the text are no numbers of it. */
  lemma {:induction false} KeptIgnoresLater(lines: seq<Line>, removed: seq<nat>, a: nat, b: nat)
    requires |lines| <= a <= b
    ensures Kept(lines, removed + Numbers(a, b)) == Kept(lines, removed)
  {
    if lines != [] {
      KeptIgnoresLater(lines[..|lines| - 1], removed, a, b);
      NumbersMember(a, b, |lines|);
    }
  }

  /** A block removed as a whole leaves nothing behind. */
  lemma {:induction false} RemovedBlock(lines: seq<Line>, removed: seq<nat>, a: nat, b: nat, k: nat)
    requires a <= k <= b <= |lines|
    ensures Kept(lines[..k], removed + Numbers(a, b)) == Kept(lines[..a], removed)
    decreases k
  {
    if k == a {
      KeptIgnoresLater(lines[..a], removed, a, b);
    } else {
      assert lines[..k][..k - 1] == lines[..k - 1];
      NumbersMember(a, b, k);
      RemovedBlock(lines, removed, a, b, k - 1);
    }
  }

  /** A block that is not touched survives as a whole. */
  lemma {:induction false} SurvivingBlock(lines: seq<Line>, removed: seq<nat>, a: nat, k: nat)
    requires a <= k <= |lines| && UpTo(removed, a)
    ensures Kept(lines[..k], removed) == Kept(lines[..a], removed) + lines[a..k]
    decreases k
  {
    if k > a {
      assert lines[..k][..k - 1] == lines[..k - 1];
      SurvivingBlock(lines, removed, a, k - 1);
      if k in removed {
        UpToMember(removed, a, k);
      }
      assert lines[a..k] == lines[a..k - 1] + [lines[k - 1]];
    }
  }

  lemma {:induction false} UpToWeaken(numbers: seq<nat>, a: nat, b: nat)
    requires UpTo(numbers, a) && a <= b
    ensures UpTo(numbers, b)
  {
    if numbers != [] {
      UpToWeaken(numbers[..|numbers| - 1], a, b);
    }
  }

  lemma {:induction false} UpToExtend(numbers: seq<nat>, a: nat, b: nat)
    requires UpTo(numbers, a) && a <= b
    ensures UpTo(numbers + Numbers(a, b), b)
    decreases b
  {
    if a == b {
      assert numbers + Numbers(a, b) == numbers;
    } else {
      UpToExtend(numbers, a, b - 1);
      UpToWeaken(numbers + Numbers(a, b - 1), b - 1, b);
      assert (numbers + Numbers(a, b))[..|numbers + Numbers(a, b)| - 1] == numbers + Numbers(a, b - 1);
    }
  }

  /** What one block does to a text: it removes the block's lines or keeps them all. */
  lemma BlockKept(lines: seq<Line>, removed: seq<nat>, block: seq<nat>, a: nat, b: nat)
    requires a <= b <= |lines| && UpTo(removed, a)
    requires block == [] || block == Numbers(a, b)
    ensures UpTo(removed + block, b)
    ensures Kept(lines[..b], removed + block) == Kept(lines[..a], removed) + if block == [] then lines[a..b] else []
  {
    if block == [] {
      assert removed + block == removed;
      SurvivingBlock(lines, removed, a, b);
      UpToWeaken(removed, a, b);
    } else {
      RemovedBlock(lines, removed, a, b, b);
      UpToExtend(removed, a, b);
    }
  }

  /** Conservation up to any block boundary, with the counts to match. */
  lemma {:induction false} PrefixConserved(ops: seq<Opcode>, oldLines: seq<Line>, newLines: seq<Line>, i: nat, j: nat)
    requires Tiles(ops, oldLines, newLines, i, j)
    ensures i <= |oldLines| && j <= |newLines|
    ensures UpTo(Deleted(ops), i) && UpTo(Changed(ops), j)
    ensures Kept(oldLines[..i], Deleted(ops)) == Kept(newLines[..j], Changed(ops))
    ensures i - |Deleted(ops)| == j - |Changed(ops)| >= 0
  {
    if ops != [] {
      var init, last := ops[..|ops| - 1], ops[|ops| - 1];
      PrefixConserved(init, oldLines, newLines, last.i1, last.j1);
      BlockKept(oldLines, Deleted(init), DeletedBy(last), last.i1, last.i2);
      BlockKept(newLines, Changed(init), ChangedBy(last), last.j1, last.j2);
      BlocksMatch(last, oldLines, newLines);
    }
  }

  /** A block keeps the same lines on both sides. */
  lemma BlocksMatch(op: Opcode, oldLines: seq<Line>, newLines: seq<Line>)
    requires WellShaped(op, oldLines, newLines)
    ensures (if DeletedBy(op) == [] then oldLines[op.i1..op.i2] else [])
         == if ChangedBy(op) == [] then newLines[op.j1..op.j2] else []
    ensures (op.i2 - op.i1) - |DeletedBy(op)| == (op.j2 - op.j1) - |ChangedBy(op)| >= 0
  {
    if op.tag == Equal {
      assert |oldLines[op.i1..op.i2]| == |newLines[op.j1..op.j2]|;
    }
  }

  /**
   * Whatever opcodes the matcher picks: dropping the deleted lines from the old text and the changed
   * lines from the new one leaves the same lines, and the line counts balance.
   */
  lemma DiffConserves(ops: seq<Opcode>, oldLines: seq<Line>, newLines: seq<Line>, tagLine: Line -> RegionTag)
    requires Tiles(ops, oldLines, newLines, |oldLines|, |newLines|)
    ensures var d := DiffOf(ops, oldLines, newLines, tagLine);
            && Kept(oldLines, d.deletedLines) == Kept(newLines, d.changedLines)
            && |newLines| == |oldLines| + d.added - d.deleted
            && d.added == |d.changedLines| <= |newLines| && d.deleted == |d.deletedLines| <= |oldLines|
  {
    PrefixConserved(ops, oldLines, newLines, |oldLines|, |newLines|);
    assert oldLines[..|oldLines|] == oldLines && newLines[..|newLines|] == newLines;
  }

  lemma RatioBetween(ratio: int, size: int, longer: int)
    requires size >= 0
    requires -longer <= 2 * (ratio * longer - 10000 * size) <= longer && 1 <= longer && size <= 2 * longer
    ensures 0 <= ratio <= 20000
  {
    RoundBetween(10000 * size, longer, ratio, 0, 20000);
  }

  /** The ratio lies between 0 and 2. */
  lemma RatioBounded(ops: seq<Opcode>, oldLines: seq<Line>, newLines: seq<Line>, tagLine: Line -> RegionTag)
    requires Tiles(ops, oldLines, newLines, |oldLines|, |newLines|)
    ensures 0 <= DiffOf(ops, oldLines, newLines, tagLine).ratio <= 20000
  {
    DiffConserves(ops, oldLines, newLines, tagLine);
    DiffReports(ops, oldLines, newLines, tagLine, 0, Other);
    var d := DiffOf(ops, oldLines, newLines, tagLine);
    RatioBetween(d.ratio, d.changeSize, Max(Max(|oldLines|, |newLines|), 1));
  }

  lemma {:induction false} NothingRemoved(lines: seq<Line>)
    ensures Kept(lines, []) == lines
  {
    if lines != [] {
      NothingRemoved(lines[..|lines| - 1]);
    }
  }

  /** No change means the same text, line by line. */
  lemma ZeroChangeIsEqual(ops: seq<Opcode>, oldLines: seq<Line>, newLines: seq<Line>, tagLine: Line -> RegionTag)
    requires Tiles(ops, oldLines, newLines, |oldLines|, |newLines|)
    requires DiffOf(ops, oldLines, newLines, tagLine).changeSize == 0
    ensures oldLines == newLines
  {
    DiffConserves(ops, oldLines, newLines, tagLine);
    NothingRemoved(oldLines);
    NothingRemoved(newLines);
  }

  // ------------------------------------------------------------------ the primary region is the mode

  /** Position in the tie-breaking order. */
  function Rank(t: RegionTag): (n: nat)
    ensures n < |PRIORITY| && PRIORITY[n] == t
  {
    match t
    case LoopRegion => 0
    case Condition => 1
    case Accumulator => 2
    case Initialization => 3
    case ReturnRegion => 4
    case FunctionDef => 5
    case Other => 6
  }

  lemma {:induction false} TopCountIs(tags: seq<RegionTag>, n: nat, k: nat)
    requires n <= |PRIORITY|
    ensures k < n ==> Count(tags, PRIORITY[k]) <= TopCount(tags, n)
    ensures TopCount(tags, n) > 0 ==> exists m: nat :: m < n && Count(tags, PRIORITY[m]) == TopCount(tags, n)
  {
    if n > 0 {
      TopCountIs(tags, n - 1, k);
      if TopCount(tags, n) == Count(tags, PRIORITY[n - 1]) {
        assert n - 1 < n;
      }
    }
  }

  lemma {:induction false} FirstWithIs(tags: seq<RegionTag>, top: int, n: nat, m: nat)
    requires n <= m < |PRIORITY| && Count(tags, PRIORITY[m]) == top
    ensures var r := FirstWith(tags, top, n);
            Count(tags, r) == top && Rank(r) <= m
    decreases |PRIORITY| - n
  {
    if Count(tags, PRIORITY[n]) != top {
      FirstWithIs(tags, top, n + 1, m);
    }
  }

  lemma {:induction false} SomeCount(tags: seq<RegionTag>)
    requires tags != []
    ensures Count(tags, tags[|tags| - 1]) > 0
  {
  }

  /** The mode beats every tag: it occurs more often, or as often with a better rank. */
  lemma ModeWins(tags: seq<RegionTag>, t: RegionTag)
    requires tags != []
    ensures var r := Mode(tags);
            && Count(tags, r) > 0
            && Count(tags, t) <= Count(tags, r)
            && (Count(tags, t) == Count(tags, r) ==> Rank(r) <= Rank(t))
  {
    var last, n := tags[|tags| - 1], |PRIORITY|;
    SomeCount(tags);
    TopCountIs(tags, n, Rank(last));
    TopCountIs(tags, n, Rank(t));
    var top := TopCount(tags, n);
    var m: nat :| m < n && Count(tags, PRIORITY[m]) == top;
    FirstWithIs(tags, top, 0, m);
    if Count(tags, t) == top {
      FirstWithIs(tags, top, 0, Rank(t));
    }
  }

  lemma {:induction false} MeaningfulCounts(tags: seq<RegionTag>, t: RegionTag)
    ensures Count(Meaningful(tags), t) == if t == Other then 0 else Count(tags, t)
  {
    if tags != [] {
      var rest := Meaningful(tags[..|tags| - 1]);
      MeaningfulCounts(tags[..|tags| - 1], t);
      assert (rest + [tags[|tags| - 1]])[..|rest|] == rest;
    }
  }

  /**
   * The primary region: `Other` only if every tag is; else the most frequent recognised region, with
   * ties going to the one of higher priority.
   */
  lemma PrimaryIsMode(tags: seq<RegionTag>, t: RegionTag)
    requires t != Other && Count(tags, t) > 0
    ensures var r := Primary(tags);
            && r != Other
            && Count(tags, t) <= Count(tags, r)
            && (Count(tags, t) == Count(tags, r) ==> Rank(r) <= Rank(t))
  {
    var meaningful := Meaningful(tags);
    MeaningfulCounts(tags, t);
    assert meaningful != [];
    ModeWins(meaningful, t);
    MeaningfulCounts(tags, Primary(tags));
  }

  lemma OnlyOtherIsOther(tags: seq<RegionTag>)
    requires forall t :: t != Other ==> Count(tags, t) == 0
    ensures Primary(tags) == Other
  {
    var r := Primary(tags);
    if Meaningful(tags) != [] {
      ModeWins(Meaningful(tags), Other);
      MeaningfulCounts(tags, r);
    } else if tags != [] {
      ModeWins(tags, Other);
    }
  }

  /** How many reported lines, new and deleted ones, are in region `t`. */
  ghost function EditedIn(
    ops: seq<Opcode>, oldLines: seq<Line>, newLines: seq<Line>, tagLine: Line -> RegionTag, t: RegionTag): nat
  {
    LinesTagged(newLines, Changed(ops), tagLine, t) + LinesTagged(oldLines, Deleted(ops), tagLine, t)
  }

  /**
   * Of the recognised regions `r` has the most reported lines, or as many and the higher priority;
   * `Other` if there is none.
   */
  ghost predicate IsMostEdited(
    ops: seq<Opcode>, oldLines: seq<Line>, newLines: seq<Line>, tagLine: Line -> RegionTag, r: RegionTag)
  {
    if r == Other then forall t :: t != Other ==> EditedIn(ops, oldLines, newLines, tagLine, t) == 0
    else
      && EditedIn(ops, oldLines, newLines, tagLine, r) > 0
      && forall t :: t != Other ==>
           var n, top := EditedIn(ops, oldLines, newLines, tagLine, t), EditedIn(ops, oldLines, newLines, tagLine, r);
           n <= top && (n == top ==> Rank(r) <= Rank(t))
  }

  /** The primary region of a diff, in terms of the lines it reports. */
  lemma PrimaryIsMostEdited(ops: seq<Opcode>, oldLines: seq<Line>, newLines: seq<Line>, tagLine: Line -> RegionTag)
    ensures IsMostEdited(ops, oldLines, newLines, tagLine, DiffOf(ops, oldLines, newLines, tagLine).primary)
  {
    var tags := Tags(ops, oldLines, newLines, tagLine);
    forall t
      ensures Count(tags, t) == EditedIn(ops, oldLines, newLines, tagLine, t)
    {
      TagsCount(ops, oldLines, newLines, tagLine, t);
    }
    PrimaryCounts(tags);
  }

  lemma PrimaryCounts(tags: seq<RegionTag>)
    ensures var r := Primary(tags);
            if r == Other then forall t :: t != Other ==> Count(tags, t) == 0
            else
              && Count(tags, r) > 0
              && forall t :: t != Other ==>
                   Count(tags, t) <= Count(tags, r) && (Count(tags, t) == Count(tags, r) ==> Rank(r) <= Rank(t))
  {
    var r := Primary(tags);
    if t :| t != Other && Count(tags, t) > 0 {
      PrimaryIsMode(tags, t);
    } else {
      OnlyOtherIsOther(tags);
    }
    forall t | t != Other && Count(tags, t) > 0
      ensures Count(tags, t) <= Count(tags, r) && (Count(tags, t) == Count(tags, r) ==> Rank(r) <= Rank(t))
    {
      PrimaryIsMode(tags, t);
    }
  }
}
