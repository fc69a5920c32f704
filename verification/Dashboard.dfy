/**
 * The class dashboard: which problems count, each student's progress rate, and two class averages
 * that the endpoint's description takes for the same number.
 */
module Dashboard {
  import opened Prelude

  // ------------------------------------------------------------------ the problems due

  function InOrder(s: seq<string>): seq<string> {
    if s == [] then []
    else
      var rest := InOrder(s[..|s| - 1]);
      if s[|s| - 1] in rest then rest else rest + [s[|s| - 1]]
  }

  function Flatten(lists: seq<seq<string>>): seq<string> {
    if lists == [] then [] else Flatten(lists[..|lists| - 1]) + lists[|lists| - 1]
  }

  /** Problems assigned to the course, else those of its assignments without repetition, else the whole bank. */
  function AssignedProblemIds(
    courseProblems: seq<string>, assignments: seq<seq<string>>, bank: seq<string>): seq<string>
  {
    if courseProblems != [] then courseProblems
    else if assignments != [] then InOrder(Flatten(assignments))
    else bank
  }

  predicate Distinct(s: seq<string>) {
    s == [] || (s[|s| - 1] !in s[..|s| - 1] && Distinct(s[..|s| - 1]))
  }

  /** Dropping repetitions keeps every problem, once. */
  lemma {:induction false} InOrderIsSet(s: seq<string>, x: string)
    ensures Distinct(InOrder(s))
    ensures x in InOrder(s) <==> x in s
  {
    if s != [] {
      var init, last := s[..|s| - 1], s[|s| - 1];
      InOrderIsSet(init, x);
      if last !in InOrder(init) {
        assert (InOrder(init) + [last])[..|InOrder(init)|] == InOrder(init);
      }
      InOrderIsSet(init, last);
      assert x in s <==> x in init || x == last;
    }
  }

  /** Without repetitions in the course and in the bank, no problem is due twice; assignments may overlap. */
  lemma DueOnce(courseProblems: seq<string>, assignments: seq<seq<string>>, bank: seq<string>, x: string)
    requires Distinct(courseProblems) && Distinct(bank)
    ensures var due := AssignedProblemIds(courseProblems, assignments, bank);
            && Distinct(due)
            && (x in due <==> if courseProblems != [] then x in courseProblems
                              else if assignments != [] then exists i :: 0 <= i < |assignments| && x in assignments[i]
                              else x in bank)
  {
    InOrderIsSet(Flatten(assignments), x);
    FlattenMember(assignments, x);
  }

  lemma {:induction false} FlattenMember(lists: seq<seq<string>>, x: string)
    ensures x in Flatten(lists) <==> exists i :: 0 <= i < |lists| && x in lists[i]
  {
    if lists != [] {
      var init := lists[..|lists| - 1];
      FlattenMember(init, x);
      assert forall i :: 0 <= i < |init| ==> init[i] == lists[i];
      assert x in Flatten(lists) <==> x in Flatten(init) || x in lists[|lists| - 1];
    }
  }

  // ------------------------------------------------------------------ one student

  /** A student's progress row for one problem of the course. */
  datatype CourseRow = CourseRow(problem: string, solved: bool, attempts: nat)

  function Problems(rows: seq<CourseRow>): seq<string> {
    if rows == [] then [] else Problems(rows[..|rows| - 1]) + [rows[|rows| - 1].problem]
  }

  predicate Counts(row: CourseRow, due: seq<string>) {
    row.solved && row.problem in due
  }

  function SolvedCount(rows: seq<CourseRow>, due: seq<string>): nat {
    if rows == [] then 0
    else SolvedCount(rows[..|rows| - 1], due) + if Counts(rows[|rows| - 1], due) then 1 else 0
  }

  function Attempts(rows: seq<CourseRow>): nat {
    if rows == [] then 0 else Attempts(rows[..|rows| - 1]) + rows[|rows| - 1].attempts
  }

  /** Percentage of the problems due that are solved, rounded half to even. */
  function ProgressRate(solved: nat, due: nat): int {
    if due == 0 then 0 else RoundHalfEven(100 * solved, due)
  }

  /** The counting part of the statistics refresh. */
  method RecalculateStats(rows: seq<CourseRow>, due: seq<string>) returns (solved: nat, attempts: nat, rate: int)
    ensures solved == SolvedCount(rows, due) && attempts == Attempts(rows) && rate == ProgressRate(solved, |due|)
  {
    solved, attempts := 0, 0;
    for i := 0 to |rows|
      invariant solved == SolvedCount(rows[..i], due) && attempts == Attempts(rows[..i])
    {
      assert rows[..i + 1][..i] == rows[..i];
      if rows[i].solved && rows[i].problem in due {
        solved := solved + 1;
      }
      attempts := attempts + rows[i].attempts;
    }
    assert rows[..|rows|] == rows;
    rate := ProgressRate(solved, |due|);
  }

  /** The counted problems, as a set. */
  function SolvedSet(rows: seq<CourseRow>, due: seq<string>): set<string> {
    if rows == [] then {}
    else
      var rest := SolvedSet(rows[..|rows| - 1], due);
      if Counts(rows[|rows| - 1], due) then rest + {rows[|rows| - 1].problem} else rest
  }

  /** The problems counted are those that are due and have a row marked solved. */
  lemma {:induction false} SolvedSetIs(rows: seq<CourseRow>, due: seq<string>, x: string)
    ensures x in SolvedSet(rows, due) <==>
            x in due && exists i :: 0 <= i < |rows| && rows[i].solved && rows[i].problem == x
  {
    if rows != [] {
      var init := rows[..|rows| - 1];
      SolvedSetIs(init, due, x);
      assert forall i :: 0 <= i < |init| ==> init[i] == rows[i];
    }
  }

  /** The count is the number of rows marked solved whose problem is due. */
  lemma {:induction false} SolvedCountIs(rows: seq<CourseRow>, due: seq<string>, p: CourseRow -> bool)
    requires forall r :: p(r) <==> r.solved && r.problem in due
    ensures SolvedCount(rows, due) == HowMany(rows, p)
  {
    if rows == [] {
      HowManyNone(p);
    } else {
      SolvedCountIs(rows[..|rows| - 1], due, p);
      HowManyMore(rows, p);
    }
  }

  /** Attempts add up over all rows, solved or not, due or not. */
  lemma {:induction false} AttemptsAddUp(a: seq<CourseRow>, b: seq<CourseRow>)
    ensures Attempts(a + b) == Attempts(a) + Attempts(b)
    ensures |b| == 1 ==> Attempts(b) == b[0].attempts
  {
    if b == [] {
      assert a + b == a;
    } else {
      assert (a + b)[..|a + b| - 1] == a + b[..|b| - 1];
      AttemptsAddUp(a, b[..|b| - 1]);
    }
  }

  lemma {:induction false} SolvedSetWithin(rows: seq<CourseRow>, due: seq<string>, x: string)
    requires x in SolvedSet(rows, due)
    ensures x in Problems(rows) && x in due
  {
    var init, last := rows[..|rows| - 1], rows[|rows| - 1];
    assert Problems(rows)[|Problems(init)|] == last.problem;
    if x in SolvedSet(init, due) {
      SolvedSetWithin(init, due, x);
    }
  }

  /** With one row per problem, the count is the number of different problems solved. */
  lemma {:induction false} CountIsSetSize(rows: seq<CourseRow>, due: seq<string>)
    requires Distinct(Problems(rows))
    ensures |SolvedSet(rows, due)| == SolvedCount(rows, due)
  {
    if rows != [] {
      var init, last := rows[..|rows| - 1], rows[|rows| - 1];
      assert Problems(rows)[..|Problems(init)|] == Problems(init);
      CountIsSetSize(init, due);
      if last.problem in SolvedSet(init, due) {
        SolvedSetWithin(init, due, last.problem);
      }
    }
  }

  lemma {:induction false} SetWithinList(s: set<string>, list: seq<string>)
    requires forall x :: x in s ==> x in list
    ensures |s| <= |list|
    decreases |list|
  {
    if list == [] {
      assert s == {};
    } else {
      var last := list[|list| - 1];
      SetWithinList(s - {last}, list[..|list| - 1]);
      assert s <= (s - {last}) + {last};
    }
  }

  /** Nobody solves more than is due: one progress row per student, course and problem. */
  lemma SolvedAtMostAssigned(rows: seq<CourseRow>, due: seq<string>)
    requires Distinct(Problems(rows))
    ensures SolvedCount(rows, due) <= |due|
    ensures 0 <= ProgressRate(SolvedCount(rows, due), |due|) <= 100
  {
    CountIsSetSize(rows, due);
    forall x | x in SolvedSet(rows, due)
      ensures x in due
    {
      SolvedSetWithin(rows, due, x);
    }
    SetWithinList(SolvedSet(rows, due), due);
    RateWithin(SolvedCount(rows, due), |due|);
  }

  lemma RateWithin(solved: nat, due: nat)
    requires solved <= due
    ensures 0 <= ProgressRate(solved, due) <= 100
  {
    if due > 0 {
      RoundWithin(100 * solved, due, 0, 100);
    }
  }

  // ------------------------------------------------------------------ the class

  function Total(xs: seq<nat>): nat {
    if xs == [] then 0 else Total(xs[..|xs| - 1]) + xs[|xs| - 1]
  }

  function TotalRate(solved: seq<nat>, due: nat): int {
    if solved == [] then 0 else TotalRate(solved[..|solved| - 1], due) + ProgressRate(solved[|solved| - 1], due)
  }

  /** Mean of the students' rates; `solved` lists the solved count of each student. */
  function AverageProgress(solved: seq<nat>, due: nat): int {
    if solved == [] then 0 else RoundHalfEven(TotalRate(solved, due), |solved|)
  }

  /** Share of solved cells in the student-by-problem grid. */
  function CompletionRate(solved: seq<nat>, due: nat): int {
    if |solved| * due == 0 then 0 else RoundHalfEven(100 * Total(solved), |solved| * due)
  }

  predicate AtMost(solved: seq<nat>, due: nat) {
    solved == [] || (solved[|solved| - 1] <= due && AtMost(solved[..|solved| - 1], due))
  }

  /** Rounding is determined by its error bound and its tie rule. */
  lemma RoundUnique(num: int, den: int, r: int)
    requires den > 0
    requires -den <= 2 * (r * den - num) <= den
    requires 2 * (r * den - num) == den || 2 * (num - r * den) == den ==> r % 2 == 0
    ensures r == RoundHalfEven(num, den)
  {
    RoundsAgree(num, den, r, RoundHalfEven(num, den));
  }

  lemma RoundsAgree(num: int, den: int, r: int, q: int)
    requires den > 0
    requires -den <= 2 * (r * den - num) <= den && -den <= 2 * (q * den - num) <= den
    requires 2 * (r * den - num) == den || 2 * (num - r * den) == den ==> r % 2 == 0
    requires 2 * (q * den - num) == den || 2 * (num - q * den) == den ==> q % 2 == 0
    ensures r == q
  {
    CloseMultiples(r, q, den);
    CloseMultiples(q, r, den);
    NextMultiple(r, q, den);
    NextMultiple(q, r, den);
  }

  lemma NextMultiple(a: int, b: int, den: int)
    ensures a == b + 1 ==> a * den == b * den + den
  {
  }

  lemma CloseMultiples(a: int, b: int, den: int)
    requires den > 0 && a * den - b * den <= den
    ensures a <= b + 1
  {
    Scale(b + 2, a, den);
    assert (b + 2) * den == b * den + 2 * den;
  }

  lemma ErrorStep(rates: int, r: int, total: int, x: int, n: int, a: int)
    requires -(n * a) <= 2 * (rates * a - 100 * total) <= n * a
    requires -a <= 2 * (r * a - 100 * x) <= a
    ensures -((n + 1) * a) <= 2 * ((rates + r) * a - 100 * (total + x)) <= (n + 1) * a
  {
    assert (rates + r) * a == rates * a + r * a;
    assert (n + 1) * a == n * a + a;
  }

  /** The summed rates are off by at most half a point per student. */
  lemma {:induction false} RatesNearTotal(solved: seq<nat>, due: nat)
    requires due > 0
    ensures -(|solved| * due) <= 2 * (TotalRate(solved, due) * due - 100 * Total(solved)) <= |solved| * due
  {
    if solved != [] {
      var init, last := solved[..|solved| - 1], solved[|solved| - 1];
      RatesNearTotal(init, due);
      ErrorStep(TotalRate(init, due), ProgressRate(last, due), Total(init), last, |init|, due);
    }
  }

  lemma {:induction false} TotalWithin(solved: seq<nat>, due: nat)
    requires AtMost(solved, due)
    ensures Total(solved) <= |solved| * due
  {
    if solved != [] {
      var init := solved[..|solved| - 1];
      TotalWithin(init, due);
      assert (|init| + 1) * due == |init| * due + due;
    }
  }

  lemma {:induction false} TotalRateWithin(solved: seq<nat>, due: nat)
    requires AtMost(solved, due)
    ensures 0 <= TotalRate(solved, due) <= 100 * |solved|
    ensures due == 0 ==> TotalRate(solved, due) == 0
  {
    if solved != [] {
      TotalRateWithin(solved[..|solved| - 1], due);
      RateWithin(solved[|solved| - 1], due);
    }
  }

  /** Both numbers are percentages. */
  lemma BothArePercentages(solved: seq<nat>, due: nat)
    requires AtMost(solved, due)
    ensures 0 <= AverageProgress(solved, due) <= 100
    ensures 0 <= CompletionRate(solved, due) <= 100
  {
    TotalWithin(solved, due);
    TotalRateWithin(solved, due);
    if solved != [] {
      RoundWithin(TotalRate(solved, due), |solved|, 0, 100);
      if due > 0 {
        Scale(1, due, |solved|);
        RoundWithin(100 * Total(solved), |solved| * due, 0, 100);
      }
    }
  }

  /** Three half-point errors: `x` is the average and `y` the completion rate, both times the number of cells. */
  lemma ErrorsAddUp(x: int, y: int, scaledRates: int, hundredfold: int, cells: int)
    requires cells >= 1
    requires -cells <= 2 * (x * cells - scaledRates) <= cells
    requires -cells <= 2 * (scaledRates - hundredfold) <= cells
    requires -cells <= 2 * (y * cells - hundredfold) <= cells
    ensures -1 <= x - y <= 1
  {
    CloseWithin(x, y, cells);
  }

  lemma CloseWithin(x: int, y: int, cells: int)
    requires cells >= 1 && -(3 * cells) <= 2 * (x * cells - y * cells) <= 3 * cells
    ensures -1 <= x - y <= 1
  {
    assert x * cells - y * cells == (x - y) * cells;
    Scale(2, x - y, cells);
    Scale(x - y, -2, cells);
  }

  lemma ScaledError(x: int, rates: int, n: int, a: int)
    requires a > 0
    requires -n <= 2 * (x * n - rates) <= n
    ensures -(n * a) <= 2 * (x * (n * a) - rates * a) <= n * a
  {
    ScaledBounds(2 * (x * n - rates), n, a);
    ErrorScales(x, n, rates, a);
  }

  lemma ErrorScales(r: int, den: int, num: int, a: int)
    ensures 2 * (r * (den * a) - num * a) == 2 * (r * den - num) * a
  {
    assert r * (den * a) == (r * den) * a;
    assert (r * den - num) * a == (r * den) * a - num * a;
  }

  lemma ScaledBounds(error: int, den: int, a: int)
    requires a > 0 && -den <= error <= den
    ensures -(den * a) <= error * a <= den * a
    ensures error * a == den * a ==> error == den
    ensures -(error * a) == den * a ==> -error == den
  {
    assert (den - error) * a == den * a - error * a;
    assert (den + error) * a == den * a + error * a;
    PositiveProduct(den - error, a);
    PositiveProduct(den + error, a);
  }

  lemma PositiveProduct(x: int, a: int)
    requires x >= 0 && a > 0
    ensures x * a >= 0 && (x * a == 0 ==> x == 0)
  {
    if x > 0 {
      Scale(1, x, a);
    }
  }

  /** The two averages differ by at most one point, for every class. */
  lemma AveragesWithinOne(solved: seq<nat>, due: nat)
    requires AtMost(solved, due)
    ensures -1 <= AverageProgress(solved, due) - CompletionRate(solved, due) <= 1
  {
    if solved != [] && due > 0 {
      RatesNearTotal(solved, due);
      Scale(1, due, |solved|);
      ScaledError(AverageProgress(solved, due), TotalRate(solved, due), |solved|, due);
      ErrorsAddUp(AverageProgress(solved, due), CompletionRate(solved, due),
                  TotalRate(solved, due) * due, 100 * Total(solved), |solved| * due);
    } else {
      TotalRateWithin(solved, due);
      if solved != [] {
        RoundWithin(TotalRate(solved, due), |solved|, 0, 0);
      }
    }
  }

  /** Solved counts of a whole class, one list of progress rows per student. */
  function SolvedCounts(students: seq<seq<CourseRow>>, due: seq<string>): (solved: seq<nat>)
    ensures |solved| == |students|
  {
    if students == [] then []
    else SolvedCounts(students[..|students| - 1], due) + [SolvedCount(students[|students| - 1], due)]
  }

  lemma {:induction false} ClassAtMost(students: seq<seq<CourseRow>>, due: seq<string>)
    requires forall i :: 0 <= i < |students| ==> Distinct(Problems(students[i]))
    ensures AtMost(SolvedCounts(students, due), |due|)
  {
    if students != [] {
      ClassAtMost(students[..|students| - 1], due);
      SolvedAtMostAssigned(students[|students| - 1], due);
    }
  }

  /** From the progress rows of any class: both averages are percentages and at most one point apart. */
  lemma DashboardAveragesAgree(students: seq<seq<CourseRow>>, due: seq<string>)
    requires forall i :: 0 <= i < |students| ==> Distinct(Problems(students[i]))
    ensures var solved := SolvedCounts(students, due);
            && 0 <= AverageProgress(solved, |due|) <= 100
            && 0 <= CompletionRate(solved, |due|) <= 100
            && -1 <= AverageProgress(solved, |due|) - CompletionRate(solved, |due|) <= 1
  {
    ClassAtMost(students, due);
    BothArePercentages(SolvedCounts(students, due), |due|);
    AveragesWithinOne(SolvedCounts(students, due), |due|);
  }

  // ------------------------------------------------------------------ when the two coincide

  /** Every student's rate is a whole percentage. */
  predicate AllExact(solved: seq<nat>, due: nat) {
    solved == [] || ((100 * solved[|solved| - 1]) % Max(due, 1) == 0 && AllExact(solved[..|solved| - 1], due))
  }

  lemma ExactRate(solved: nat, due: nat)
    requires due > 0 && (100 * solved) % due == 0
    ensures ProgressRate(solved, due) * due == 100 * solved
  {
    var q := 100 * solved / due;
    assert q * due == 100 * solved;
    RoundUnique(100 * solved, due, q);
  }

  lemma {:induction false} ExactTotal(solved: seq<nat>, due: nat)
    requires due > 0 && AllExact(solved, due)
    ensures TotalRate(solved, due) * due == 100 * Total(solved)
  {
    if solved != [] {
      var init, last := solved[..|solved| - 1], solved[|solved| - 1];
      ExactTotal(init, due);
      ExactRate(last, due);
      assert (TotalRate(init, due) + ProgressRate(last, due)) * due
        == TotalRate(init, due) * due + ProgressRate(last, due) * due;
    }
  }

  /** Scaling both sides of a fraction does not change its rounding. */
  lemma RoundScaled(num: int, den: int, a: int)
    requires den > 0 && a > 0
    ensures den * a > 0 && RoundHalfEven(num * a, den * a) == RoundHalfEven(num, den)
  {
    var r := RoundHalfEven(num, den);
    ScaledBounds(2 * (r * den - num), den, a);
    ErrorScales(r, den, num, a);
    PositiveProduct(den, a);
    RoundUnique(num * a, den * a, r);
  }

  lemma ExactAveragesCoincide(solved: seq<nat>, due: nat)
    requires AtMost(solved, due) && AllExact(solved, due)
    ensures AverageProgress(solved, due) == CompletionRate(solved, due)
  {
    if solved != [] && due > 0 {
      ExactTotal(solved, due);
      RoundScaled(TotalRate(solved, due), |solved|, due);
    } else if solved != [] {
      TotalRateWithin(solved, due);
      RoundWithin(TotalRate(solved, due), |solved|, 0, 0);
    }
  }

  ghost predicate CoincideForAllClasses(due: nat) {
    forall solved: seq<nat> :: AtMost(solved, due) ==> AverageProgress(solved, due) == CompletionRate(solved, due)
  }

  lemma {:induction false} DivisorMakesExact(solved: seq<nat>, due: nat)
    requires due > 0 && 100 % due == 0
    ensures AllExact(solved, due)
  {
    if solved != [] {
      DivisorMakesExact(solved[..|solved| - 1], due);
      MultipleOfDivisor(solved[|solved| - 1], due);
    }
  }

  lemma MultipleOfDivisor(x: nat, due: nat)
    requires due > 0 && 100 % due == 0
    ensures (100 * x) % due == 0
  {
    var q := 100 / due;
    assert 100 * x == (q * x) * due;
    RemainderUnique(100 * x, q * x, due);
  }

  lemma RemainderUnique(num: int, q: int, den: int)
    requires den > 0 && num == q * den
    ensures num % den == 0
  {
    var p, rest := num / den, num % den;
    assert num == p * den + rest;
    assert (q - p) * den == rest;
    Scale(1, q - p, den);
    Scale(q - p, 0, den);
  }

  /** A class of `n` students: `k` of them solved `x` problems, the others none. */
  function FewAhead(k: nat, x: nat, n: nat): (solved: seq<nat>)
    ensures |solved| == n
  {
    if n == 0 then [] else FewAhead(k, x, n - 1) + [if n <= k then x else 0]
  }

  lemma NextProduct(n: int, x: int)
    ensures n * x == (n - 1) * x + x
  {
  }

  lemma {:induction false} FewAheadAtMost(k: nat, x: nat, n: nat, due: nat)
    requires x <= due
    ensures AtMost(FewAhead(k, x, n), due)
  {
    if n > 0 {
      FewAheadAtMost(k, x, n - 1, due);
      assert FewAhead(k, x, n)[..n - 1] == FewAhead(k, x, n - 1);
    }
  }

  lemma MinProduct(k: nat, n: nat, x: int)
    requires n > 0
    ensures Min(k, n) * x == Min(k, n - 1) * x + if n <= k then x else 0
  {
    if n <= k {
      NextProduct(n, x);
    }
  }

  lemma {:induction false} FewAheadTotal(k: nat, x: nat, n: nat)
    ensures Total(FewAhead(k, x, n)) == Min(k, n) * x
  {
    if n > 0 {
      FewAheadTotal(k, x, n - 1);
      assert FewAhead(k, x, n)[..n - 1] == FewAhead(k, x, n - 1);
      MinProduct(k, n, x);
    }
  }

  lemma OneMoreStudent(solved: seq<nat>, x: nat, due: nat)
    ensures TotalRate(solved + [x], due) == TotalRate(solved, due) + ProgressRate(x, due)
  {
    assert (solved + [x])[..|solved|] == solved;
  }

  lemma {:induction false} FewAheadRates(k: nat, x: nat, n: nat, due: nat, r: int)
    requires due > 0 && r == ProgressRate(x, due)
    ensures TotalRate(FewAhead(k, x, n), due) == Min(k, n) * r
  {
    if n > 0 {
      FewAheadRates(k, x, n - 1, due, r);
      OneMoreStudent(FewAhead(k, x, n - 1), if n <= k then x else 0, due);
      NothingSolved(due);
      MinProduct(k, n, r);
    }
  }

  lemma NothingSolved(due: nat)
    ensures ProgressRate(0, due) == 0
  {
    RateWithin(0, due);
    if due > 0 {
      RoundWithin(0, due, 0, 0);
    }
  }

  /**
   * A rate that rounds up: with 3 of 2r students at rate r the average rounds 3/2 up to 2, while the
   * completion rate stays below 3/2.
   */
  lemma RoundedUp(r: int, due: int, hundredfold: int)
    requires r >= 1 && due >= 1 && hundredfold >= due
    requires -due <= 2 * (r * due - hundredfold) <= due && r * due > hundredfold
    ensures RoundHalfEven(3 * r, 2 * r) == 2
    ensures 2 * r * due > 0 && RoundHalfEven(3 * hundredfold, 2 * r * due) == 1
  {
    RoundUnique(3 * r, 2 * r, 2);
    var cells := 2 * r * due;
    assert cells == 2 * (r * due);
    RoundUnique(3 * hundredfold, cells, 1);
  }

  /** A rate that rounds down: with 1 of 2r students at rate r the average rounds 1/2 down to 0. */
  lemma RoundedDown(r: int, due: int, hundredfold: int)
    requires r >= 1 && due >= 1 && hundredfold >= due
    requires -due <= 2 * (r * due - hundredfold) <= due && r * due < hundredfold
    ensures RoundHalfEven(r, 2 * r) == 0
    ensures 2 * r * due > 0 && RoundHalfEven(hundredfold, 2 * r * due) == 1
  {
    RoundUnique(r, 2 * r, 0);
    var cells := 2 * r * due;
    assert cells == 2 * (r * due);
    RoundUnique(hundredfold, cells, 1);
  }

  lemma FewAheadMetrics(k: nat, x: nat, n: nat, due: nat)
    requires k <= n && n > 0 && due > 0
    ensures n * due > 0
    ensures AverageProgress(FewAhead(k, x, n), due) == RoundHalfEven(k * ProgressRate(x, due), n)
    ensures CompletionRate(FewAhead(k, x, n), due) == RoundHalfEven(100 * (k * x), n * due)
  {
    PositiveProduct(n, due);
    FewAheadTotal(k, x, n);
    FewAheadRates(k, x, n, due, ProgressRate(x, due));
  }

  /** A rate that is not exact: a class in which the two numbers differ. */
  lemma InexactRateSeparates(x: nat, due: nat, r: int) returns (solved: seq<nat>)
    requires 1 <= due <= 100 * x && x <= due && r == ProgressRate(x, due) >= 2
    requires r * due != 100 * x
    ensures AtMost(solved, due) && AverageProgress(solved, due) != CompletionRate(solved, due)
  {
    var k := if r * due > 100 * x then 3 else 1;
    solved := FewAhead(k, x, 2 * r);
    FewAheadAtMost(k, x, 2 * r, due);
    FewAheadMetrics(k, x, 2 * r, due);
    if r * due > 100 * x {
      RoundedUp(r, due, 100 * x);
    } else {
      RoundedDown(r, due, 100 * x);
    }
  }

  /**
   * The description is right for a course exactly when every possible rate is a whole percentage:
   * the two numbers agree for all classes if and only if the number of problems divides 100.
   */
  lemma CoincideIffDivides(due: nat)
    requires due >= 1
    ensures CoincideForAllClasses(due) <==> 100 % due == 0
  {
    if 100 % due == 0 {
      forall solved: seq<nat> | AtMost(solved, due)
        ensures AverageProgress(solved, due) == CompletionRate(solved, due)
      {
        DivisorMakesExact(solved, due);
        ExactAveragesCoincide(solved, due);
      }
    } else {
      var r := AlmostAll(due);
      var solved := InexactRateSeparates(due - 1, due, r);
    }
  }

  /** All problems but one: a rate of at least 2 percent, inexact unless the number of problems divides 100. */
  lemma AlmostAll(due: nat) returns (r: int)
    requires due >= 1 && 100 % due != 0
    ensures due >= 3 && r == ProgressRate(due - 1, due) >= 2
    ensures r * due != 100 * (due - 1)
  {
    r := ProgressRate(due - 1, due);
    assert due >= 3;
    RoundWithin(100 * (due - 1), due, 2, 100);
    NotExact(r, due);
  }

  lemma NotExact(r: int, due: nat)
    requires due >= 1 && 100 % due != 0
    ensures r * due != 100 * (due - 1)
  {
    if r * due == 100 * (due - 1) {
      assert 100 == (100 - r) * due;
      RemainderUnique(100, 100 - r, due);
    }
  }

  /** The smallest example: two students, three problems, one of them solved once: 16 against 17 percent. */
  lemma SixteenAgainstSeventeen()
    ensures AverageProgress([1, 0], 3) == 16 && CompletionRate([1, 0], 3) == 17
  {
    assert [1, 0][..1] == [1];
    assert [1][..0] == [];
    RoundUnique(100, 3, 33);
    RoundUnique(0, 3, 0);
    RoundUnique(33, 2, 16);
    RoundUnique(100, 6, 17);
    assert Total([1]) == 1 && TotalRate([1], 3) == 33;
    assert Total([1, 0]) == 1 && TotalRate([1, 0], 3) == 33;
  }
}
