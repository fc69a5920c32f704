/**
 * Default nicknames: a base made from the user's name, then numbered candidates until one is free.
 * The loop ends for every finite set of users, by a pigeonhole argument on numbers of equal length.
 */
module Nickname {
  import opened Prelude

  const MIN_LENGTH := 2
  const MAX_LENGTH := 16
  const FALLBACK: string := "\U{D559}\U{C2B5}\U{C790}"

  predicate Allowed(c: char) {
    '0' <= c <= '9' || 'A' <= c <= 'Z' || 'a' <= c <= 'z' || '\U{AC00}' <= c <= '\U{D7A3}' || c == '_'
  }

  predicate AllAllowed(s: string) {
    forall i :: 0 <= i < |s| ==> Allowed(s[i])
  }

  /** Drop every character a nickname may not have. */
  function Cleaned(name: string): (s: string)
    ensures AllAllowed(s)
  {
    if name == "" then ""
    else
      var rest := Cleaned(name[..|name| - 1]);
      if Allowed(name[|name| - 1]) then rest + [name[|name| - 1]] else rest
  }

  function Truncated(s: string): string {
    if |s| <= MAX_LENGTH then s else s[..MAX_LENGTH]
  }

  /** The name without forbidden characters, cut and padded to a legal length. */
  function Base(name: string): (base: string)
    ensures MIN_LENGTH <= |base| <= MAX_LENGTH && AllAllowed(base)
  {
    var cleaned := Cleaned(name);
    var base := Truncated(if cleaned == "" then FALLBACK else cleaned);
    if |base| < MIN_LENGTH then Truncated(base + FALLBACK) else base
  }

  /** Cleaning goes piece by piece, so the order of what is left is the name's. */
  lemma {:induction false} CleanedPieces(a: string, b: string)
    ensures Cleaned(a + b) == Cleaned(a) + Cleaned(b)
  {
    if b == "" {
      assert a + b == a;
    } else {
      assert (a + b)[..|a + b| - 1] == a + b[..|b| - 1];
      CleanedPieces(a, b[..|b| - 1]);
    }
  }

  /** Exactly the allowed characters survive, each as often as the name has it. */
  lemma {:induction false} CleanedDropsOthers(name: string, c: char)
    ensures multiset(Cleaned(name))[c] == if Allowed(c) then multiset(name)[c] else 0
  {
    if name != "" {
      CleanedDropsOthers(name[..|name| - 1], c);
      assert name == name[..|name| - 1] + [name[|name| - 1]];
    }
  }

  /** The base: the first 16 allowed characters, filled up with the fallback if there are fewer than two. */
  lemma BaseIs(name: string)
    ensures var cleaned := Cleaned(name);
            && (|cleaned| >= MIN_LENGTH ==> Base(name) <= cleaned && |Base(name)| == Min(|cleaned|, MAX_LENGTH))
            && (|cleaned| == 1 ==> Base(name) == cleaned + FALLBACK)
            && (cleaned == "" ==> Base(name) == FALLBACK)
  {
  }

  lemma {:induction false} CleanedKeepsAllowed(name: string)
    requires AllAllowed(name)
    ensures Cleaned(name) == name
  {
    if name != "" {
      CleanedKeepsAllowed(name[..|name| - 1]);
    }
  }

  /** A name that is already a legal nickname is its own base. */
  lemma LegalNameIsItsBase(name: string)
    requires AllAllowed(name) && MIN_LENGTH <= |name| <= MAX_LENGTH
    ensures Base(name) == name
  {
    CleanedKeepsAllowed(name);
  }

  // ------------------------------------------------------------------ numbers as text

  function DigitChar(d: nat): (c: char)
    requires d < 10
    ensures '0' <= c <= '9'
  {
    '0' + d as char
  }

  function Digits(n: nat): (s: string)
    ensures |s| >= 1
  {
    if n < 10 then [DigitChar(n)] else Digits(n / 10) + [DigitChar(n % 10)]
  }

  lemma AllowedAppend(a: string, b: string)
    requires AllAllowed(a) && AllAllowed(b)
    ensures AllAllowed(a + b)
  {
  }

  predicate AllDigits(s: string) {
    forall i :: 0 <= i < |s| ==> '0' <= s[i] <= '9'
  }

  lemma {:induction false} DigitsAreDigits(n: nat)
    ensures AllDigits(Digits(n))
  {
    if n >= 10 {
      DigitsAreDigits(n / 10);
    }
  }

  /** Case folding leaves digits alone. */
  lemma {:induction false} DigitsAreLower(s: string)
    requires AllDigits(s)
    ensures Lower(s) == s
  {
    if s != "" {
      DigitsAreLower(s[..|s| - 1]);
    }
  }

  lemma {:induction false} DigitsInjective(a: nat, b: nat)
    requires Digits(a) == Digits(b)
    ensures a == b
  {
    var s, t := Digits(a), Digits(b);
    assert s[|s| - 1] == t[|t| - 1];
    if a >= 10 && b >= 10 {
      assert s[..|s| - 1] == Digits(a / 10) && t[..|t| - 1] == Digits(b / 10);
      DigitsInjective(a / 10, b / 10);
    }
  }

  /** What a row of digits is worth. */
  function Value(s: string): int {
    if s == "" then 0 else 10 * Value(s[..|s| - 1]) + s[|s| - 1] as int - '0' as int
  }

  /** The digits of a number read back as the number. */
  lemma {:induction false} DigitsReadBack(n: nat)
    ensures Value(Digits(n)) == n
  {
    if n >= 10 {
      DigitsReadBack(n / 10);
      assert Digits(n)[..|Digits(n)| - 1] == Digits(n / 10);
    } else {
      assert Digits(n)[..0] == "";
    }
  }

  function Pow10(d: nat): (p: nat)
    ensures p > d
  {
    if d == 0 then 1 else 10 * Pow10(d - 1)
  }

  /** Numbers from 10^(d-1) up to 10^d have d digits. */
  lemma {:induction false} DigitCount(n: nat, d: nat)
    requires d >= 1 && n < Pow10(d)
    ensures |Digits(n)| <= d
    ensures n >= Pow10(d - 1) ==> |Digits(n)| == d
  {
    if d > 1 {
      if n < 10 {
        assert Pow10(d - 1) >= 10;
      } else {
        DigitCount(n / 10, d - 1);
      }
    }
  }

  // ------------------------------------------------------------------ comparing nicknames

  function LowerChar(c: char): char {
    if 'A' <= c <= 'Z' then c + ' ' else c
  }

  function Lower(s: string): (r: string)
    ensures |r| == |s|
  {
    if s == "" then "" else Lower(s[..|s| - 1]) + [LowerChar(s[|s| - 1])]
  }

  /** The same letter, or two letters 32 places apart of which one is a capital. */
  predicate SameLetter(a: char, b: char) {
    a == b || ('A' <= a <= 'Z' && b == a + ' ') || ('A' <= b <= 'Z' && a == b + ' ')
  }

  lemma {:induction false} LowerAt(s: string)
    ensures forall i :: 0 <= i < |s| ==> Lower(s)[i] == LowerChar(s[i])
  {
    if s != "" {
      LowerAt(s[..|s| - 1]);
    }
  }

  /** Two spellings are one name if and only if they differ in the case of letters only. */
  lemma {:induction false} SameNameIff(a: string, b: string)
    ensures Lower(a) == Lower(b) <==> |a| == |b| && forall i :: 0 <= i < |a| ==> SameLetter(a[i], b[i])
  {
    LowerAt(a);
    LowerAt(b);
    if |a| == |b| {
      forall i | 0 <= i < |a|
        ensures LowerChar(a[i]) == LowerChar(b[i]) <==> SameLetter(a[i], b[i])
      {
      }
      assert Lower(a) == Lower(b) <==> forall i :: 0 <= i < |a| ==> Lower(a)[i] == Lower(b)[i];
    }
  }

  lemma {:induction false} LowerAppend(a: string, b: string)
    ensures Lower(a + b) == Lower(a) + Lower(b)
  {
    if b == "" {
      assert a + b == a;
    } else {
      assert (a + b)[..|a + b| - 1] == a + b[..|b| - 1];
      LowerAppend(a, b[..|b| - 1]);
    }
  }

  /** Names are compared without case; `taken` holds the lower-case names of all users. */
  predicate Exists(taken: set<string>, nickname: string) {
    Lower(nickname) in taken
  }

  // ------------------------------------------------------------------ candidates

  /** Python's `s[:k]`: a negative `k` drops characters from the end. */
  function Head(s: string, k: int): (r: string)
    ensures |r| == if k >= 0 then Min(k, |s|) else Max(|s| + k, 0)
  {
    if k >= |s| then s else if k >= 0 then s[..k] else if -k >= |s| then "" else s[..|s| + k]
  }

  /** The base cut to make room for a number. */
  function Numbered(base: string, tail: string): string {
    Head(base, MAX_LENGTH - |tail|) + tail
  }

  /** Candidate 0 is the base itself; candidate `k` ends in the number `k`. */
  function Candidate(base: string, k: nat): string {
    if k == 0 then base else Numbered(base, Digits(k))
  }

  lemma HeadAllowed(s: string, k: int)
    requires AllAllowed(s)
    ensures AllAllowed(Head(s, k))
  {
  }

  lemma CandidateAllowed(base: string, k: nat)
    requires AllAllowed(base)
    ensures AllAllowed(Candidate(base, k))
  {
    if k > 0 {
      var tail := Digits(k);
      HeadAllowed(base, MAX_LENGTH - |tail|);
      DigitsAreDigits(k);
      AllowedAppend(Head(base, MAX_LENGTH - |tail|), tail);
    }
  }

  /** Two numbers of the same length give different candidates, whatever the base. */
  lemma CandidatesDiffer(base: string, j: nat, k: nat)
    requires 1 <= j && 1 <= k && j != k && |Digits(j)| == |Digits(k)|
    ensures Lower(Candidate(base, j)) != Lower(Candidate(base, k))
  {
    var head := Head(base, MAX_LENGTH - |Digits(j)|);
    CandidateEndsInNumber(head, j);
    CandidateEndsInNumber(head, k);
    if Digits(j) == Digits(k) {
      DigitsInjective(j, k);
    }
  }

  lemma CandidateEndsInNumber(head: string, k: nat)
    ensures Lower(head + Digits(k))[|head|..] == Digits(k)
  {
    LowerAppend(head, Digits(k));
    DigitsAreDigits(k);
    DigitsAreLower(Digits(k));
  }

  // ------------------------------------------------------------------ pigeonhole

  lemma {:induction false} SubsetSize(a: set<string>, b: set<string>)
    requires a <= b
    ensures |a| <= |b|
  {
    if a != {} {
      var x :| x in a;
      SubsetSize(a - {x}, b - {x});
    }
  }

  /** The names numbered `lo..hi`. */
  function Names(name: nat -> string, lo: nat, hi: nat): set<string>
    decreases hi
  {
    if hi <= lo then {} else Names(name, lo, hi - 1) + {name(hi - 1)}
  }

  ghost predicate AllDifferent(name: nat -> string, lo: nat, hi: nat) {
    forall j: nat, k: nat :: lo <= j < k < hi ==> name(j) != name(k)
  }

  lemma {:induction false} NamesAre(name: nat -> string, lo: nat, hi: nat, x: string)
    ensures x in Names(name, lo, hi) <==> exists k: nat :: lo <= k < hi && name(k) == x
    decreases hi
  {
    if hi > lo {
      NamesAre(name, lo, hi - 1, x);
    }
  }

  lemma {:induction false} NamesSize(name: nat -> string, lo: nat, hi: nat)
    requires lo <= hi && AllDifferent(name, lo, hi)
    ensures |Names(name, lo, hi)| == hi - lo
    decreases hi
  {
    if hi > lo {
      NamesSize(name, lo, hi - 1);
      NamesAre(name, lo, hi - 1, name(hi - 1));
    }
  }

  /** More different names than taken ones: one of them is free. */
  lemma Pigeonhole(name: nat -> string, lo: nat, hi: nat, taken: set<string>) returns (k: nat)
    requires AllDifferent(name, lo, hi) && lo + |taken| < hi
    ensures lo <= k < hi && name(k) !in taken
  {
    NamesSize(name, lo, hi);
    if Names(name, lo, hi) <= taken {
      SubsetSize(Names(name, lo, hi), taken);
    }
    var x :| x in Names(name, lo, hi) && x !in taken;
    NamesAre(name, lo, hi, x);
    k :| lo <= k < hi && name(k) == x;
  }

  lemma BlockDiffers(base: string, d: nat, j: nat, k: nat)
    requires d >= 1 && Pow10(d - 1) <= j < Pow10(d) && Pow10(d - 1) <= k < Pow10(d) && j != k
    ensures Lower(Candidate(base, j)) != Lower(Candidate(base, k))
  {
    DigitCount(j, d);
    DigitCount(k, d);
    CandidatesDiffer(base, j, k);
  }

  /** Fewer users than numbers of one length: some number of that length is free. */
  lemma FreeNumber(taken: set<string>, base: string, d: nat) returns (k: nat)
    requires d >= 1 && Pow10(d - 1) + |taken| < Pow10(d)
    ensures Pow10(d - 1) <= k < Pow10(d) && !Exists(taken, Candidate(base, k))
  {
    var name: nat -> string := (k: nat) => Lower(Candidate(base, k));
    forall j: nat, k: nat | Pow10(d - 1) <= j < k < Pow10(d)
      ensures name(j) != name(k)
    {
      BlockDiffers(base, d, j, k);
    }
    k := Pigeonhole(name, Pow10(d - 1), Pow10(d), taken);
  }

  /** A number whose candidate is free, of at most 16 digits whenever there is room. */
  lemma SomeFreeNumber(taken: set<string>, base: string) returns (k: nat)
    ensures !Exists(taken, Candidate(base, k))
    ensures |taken| < 9 * Pow10(MAX_LENGTH - 1) ==> k < Pow10(MAX_LENGTH)
  {
    var d := if |taken| < 9 * Pow10(MAX_LENGTH - 1) then MAX_LENGTH else |taken| + 1;
    assert Pow10(d) == 10 * Pow10(d - 1);
    k := FreeNumber(taken, base, d);
  }

  predicate TakenBelow(taken: set<string>, candidate: nat -> string, n: nat) {
    n == 0 || (Exists(taken, candidate(n - 1)) && TakenBelow(taken, candidate, n - 1))
  }

  lemma {:induction false} TakenBelowEach(taken: set<string>, candidate: nat -> string, n: nat, j: nat)
    requires TakenBelow(taken, candidate, n) && j < n
    ensures Exists(taken, candidate(j))
  {
    if j < n - 1 {
      TakenBelowEach(taken, candidate, n - 1, j);
    }
  }

  /** `r` is the first candidate nobody has. */
  ghost predicate FirstFree(taken: set<string>, base: string, k: nat, r: string) {
    && r == Candidate(base, k) && !Exists(taken, r)
    && forall j: nat :: j < k ==> Exists(taken, Candidate(base, j))
  }

  function CandidatesOf(base: string): nat -> string {
    (k: nat) => Candidate(base, k)
  }

  lemma FoundFirst(taken: set<string>, base: string, k: nat)
    requires TakenBelow(taken, CandidatesOf(base), k) && !Exists(taken, Candidate(base, k))
    ensures FirstFree(taken, base, k, Candidate(base, k))
  {
    forall j: nat | j < k
      ensures Exists(taken, Candidate(base, j))
    {
      TakenBelowEach(taken, CandidatesOf(base), k, j);
    }
  }

  /** The search loop, for any way `str` of writing numbers; `free` is a number whose candidate is free. */
  method FirstFreeCandidate(
    taken: set<string>, base: string, str: nat -> string, ghost candidate: nat -> string, ghost free: nat)
    returns (r: string, ghost k: nat)
    requires candidate(0) == base && forall n: nat :: n > 0 ==> candidate(n) == Numbered(base, str(n))
    requires !Exists(taken, candidate(free))
    ensures k <= free && r == candidate(k) && !Exists(taken, r) && TakenBelow(taken, candidate, k)
  {
    var suffix := 1;
    r := base;
    while Exists(taken, r)
      invariant suffix >= 1 && r == candidate(suffix - 1)
      invariant TakenBelow(taken, candidate, suffix - 1)
      invariant suffix - 1 <= free
      decreases free + 1 - suffix
    {
      var tail := str(suffix);
      r := Numbered(base, tail);
      suffix := suffix + 1;
    }
    k := suffix - 1;
  }

  /**
   * The search ends for every finite set of users, with the first free candidate. Its length is legal
   * as long as there are fewer than 9 * 10^15 users.
   */
  method UniqueNickname(taken: set<string>, name: string) returns (r: string)
    ensures exists k: nat :: FirstFree(taken, Base(name), k, r)
    ensures AllAllowed(r) && |r| >= MIN_LENGTH
    ensures |taken| < 9 * Pow10(MAX_LENGTH - 1) ==> |r| <= MAX_LENGTH
  {
    var base := Base(name);
    ghost var free := SomeFreeNumber(taken, base);
    ghost var k: nat;
    r, k := FirstFreeCandidate(taken, base, Digits, CandidatesOf(base), free);
    FoundFirst(taken, base, k);
    CandidateAllowed(base, k);
    CandidateLength(base, k);
  }

  lemma {:induction false} NumberedIs(base: string, tail: string)
    requires |tail| <= MAX_LENGTH
    ensures Numbered(base, tail) == base[..Min(|base|, MAX_LENGTH - |tail|)] + tail
  {
  }

  /** A numbered candidate is as much of the base as fits, then the number. */
  lemma CandidateIs(base: string, k: nat, tail: string)
    requires k >= 1 && tail == Digits(k) && |tail| <= MAX_LENGTH
    ensures Candidate(base, k) == base[..Min(|base|, MAX_LENGTH - |tail|)] + tail
  {
    NumberedIs(base, tail);
  }

  lemma CandidateLength(base: string, k: nat)
    requires MIN_LENGTH <= |base| <= MAX_LENGTH
    ensures |Candidate(base, k)| >= MIN_LENGTH
    ensures k < Pow10(MAX_LENGTH) ==> |Candidate(base, k)| <= MAX_LENGTH
  {
    if k < Pow10(MAX_LENGTH) {
      DigitCount(k, MAX_LENGTH);
    }
  }

  /** Numbers of different lengths can give the same name, so the length classes cannot be counted together. */
  lemma DifferentLengthsCollide()
    ensures exists base: string, j: nat, k: nat ::
              && AllAllowed(base) && MIN_LENGTH <= |base| <= MAX_LENGTH
              && 1 <= j && 1 <= k && |Digits(j)| != |Digits(k)|
              && Candidate(base, j) == Candidate(base, k)
  {
    var base := "AAAAAAAAAAAAAA1A";
    assert Digits(1) == "1" && Digits(11) == "11";
    assert Candidate(base, 1) == "AAAAAAAAAAAAAA11" == Candidate(base, 11);
  }
}
