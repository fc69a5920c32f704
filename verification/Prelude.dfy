/** Small shared vocabulary: results, the server clock, Python's rounding. */
module Prelude {

  datatype Option<+T> = None | Some(value: T)

  datatype Result<+T, +E> = Ok(value: T) | Err(error: E)

  /** Seconds from `start` to `end`, clamped at zero (timestamps are whole seconds). */
  function SecondsBetween(start: int, end: int): (s: nat)
    ensures s > 0 ==> start + s == end
    ensures s == 0 ==> end <= start
  {
    if end > start then end - start else 0
  }

  function Min(a: int, b: int): int {
    if a < b then a else b
  }

  function Max(a: int, b: int): int {
    if a < b then b else a
  }

  /** Python's `round` on the rational `num/den`: nearest integer, ties to even. */
  function RoundHalfEven(num: int, den: int): (r: int)
    requires den > 0
    ensures -den <= 2 * (r * den - num) <= den
    ensures 2 * (r * den - num) == den || 2 * (num - r * den) == den ==> r % 2 == 0
  {
    var q := num / den;
    var rest := num % den;
    assert num == q * den + rest;
    assert (q + 1) * den == q * den + den;
    if 2 * rest < den then q
    else if 2 * rest > den then q + 1
    else if q % 2 == 0 then q
    else q + 1
  }

  /** Rounding is monotone in the numerator and exact on multiples. */
  lemma RoundWithin(num: int, den: int, lo: int, hi: int)
    requires den > 0
    requires lo * den <= num <= hi * den
    ensures lo <= RoundHalfEven(num, den) <= hi
  {
    RoundBetween(num, den, RoundHalfEven(num, den), lo, hi);
  }

  lemma RoundBetween(num: int, den: int, r: int, lo: int, hi: int)
    requires den > 0 && lo * den <= num <= hi * den
    requires -den <= 2 * (r * den - num) <= den
    ensures lo <= r <= hi
  {
    Scale(r + 1, lo, den);
    Scale(hi + 1, r, den);
    assert (r + 1) * den == r * den + den;
    assert (hi + 1) * den == hi * den + den;
  }

  lemma Scale(a: int, b: int, c: int)
    requires c >= 0
    ensures a <= b ==> a * c <= b * c
  {
    assert (b - a) * c == b * c - a * c;
  }

  /** Python's `s[-w:]` for any integer `w`: `w == 0` keeps everything, a negative `w` drops from the front. */
  function SliceFromMinus<T>(s: seq<T>, w: int): (r: seq<T>)
    ensures |r| == if w > 0 then Min(w, |s|) else Max(|s| + w, if w == 0 then |s| else 0)
  {
    if w <= 0 then s[Min(-w, |s|)..]
    else if w >= |s| then s
    else s[|s| - w..]
  }

  /** At how many places of `s` the predicate holds. */
  ghost function HowMany<T(!new)>(s: seq<T>, p: T -> bool): nat {
    |set i | 0 <= i < |s| && p(s[i])|
  }

  lemma HowManyNone<T(!new)>(p: T -> bool)
    ensures HowMany([], p) == 0
  {
    var none: seq<T> := [];
    assert (set i | 0 <= i < |none| && p(none[i])) == {};
  }

  lemma HowManyMore<T(!new)>(s: seq<T>, p: T -> bool)
    requires s != []
    ensures HowMany(s, p) == HowMany(s[..|s| - 1], p) + if p(s[|s| - 1]) then 1 else 0
  {
    var init := s[..|s| - 1];
    var before := set i | 0 <= i < |init| && p(init[i]);
    var all := set i | 0 <= i < |s| && p(s[i]);
    assert all == before + if p(s[|s| - 1]) then {|s| - 1} else {};
  }
}
