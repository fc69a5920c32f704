/** Counting laws of trigger logs: how often the monitor can have spoken. */
module TriggerBounds {
  import opened Prelude
  import opened TraceTypes

  predicate IsTrigger(e: Event) { e.kind == AgentTrigger }

  predicate IsHelpTrigger(e: Event) {
    e.kind == AgentTrigger && e.payload.TriggerPayload? && e.payload.trigger == HelpRequested
  }

  predicate IsHint(e: Event) { e.kind == HintRequest }

  predicate IsResult(e: Event) { e.kind == TestResult }

  predicate IsActivity(e: Event) { e.kind in ACTIVITY_TYPES }

  /** How many of the first `n` rows satisfy `p`. */
  function CountUpTo(events: seq<Event>, n: nat, p: Event -> bool): (c: nat)
    requires n <= |events|
    ensures c <= n
  {
    if n == 0 then 0 else CountUpTo(events, n - 1, p) + if p(events[n - 1]) then 1 else 0
  }

  function Count(events: seq<Event>, p: Event -> bool): nat {
    CountUpTo(events, |events|, p)
  }

  /** Rows `i..j` add to the count exactly when one of them satisfies `p`. */
  lemma {:induction false} CountBetween(events: seq<Event>, i: nat, j: nat, p: Event -> bool)
    requires i <= j <= |events|
    ensures CountUpTo(events, i, p) <= CountUpTo(events, j, p)
    ensures CountUpTo(events, i, p) == CountUpTo(events, j, p) <==> forall k :: i <= k < j ==> !p(events[k])
    decreases j - i
  {
    if i < j {
      CountBetween(events, i, j - 1, p);
    }
  }

  lemma CountSome(events: seq<Event>, i: nat, k: nat, j: nat, p: Event -> bool)
    requires i <= k < j <= |events| && p(events[k])
    ensures CountUpTo(events, i, p) + 1 <= CountUpTo(events, j, p)
  {
    CountBetween(events, i, j, p);
  }

  /** Row `i` is fuel for a spark at `j`: no spark in between. */
  ghost predicate Fuels(events: seq<Event>, i: nat, j: nat, spark: Event -> bool, fuel: Event -> bool) {
    i < j <= |events| && fuel(events[i]) && !spark(events[i]) && forall k :: i < k < j ==> !spark(events[k])
  }

  /** If every spark needs fuel no other spark has used, sparks never outnumber fuel. */
  lemma {:induction false} SparksNeedFuel(events: seq<Event>, n: nat, spark: Event -> bool, fuel: Event -> bool)
    requires n <= |events|
    requires forall j: nat :: j < |events| && spark(events[j]) ==> exists i: nat :: Fuels(events, i, j, spark, fuel)
    ensures CountUpTo(events, n, spark) <= CountUpTo(events, n, fuel)
    decreases n
  {
    if n > 0 {
      if spark(events[n - 1]) {
        var i: nat :| Fuels(events, i, n - 1, spark, fuel);
        SparksNeedFuel(events, i, spark, fuel);
        CountBetween(events, i, n - 1, spark);
        CountSome(events, i, i, n, fuel);
      } else {
        SparksNeedFuel(events, n - 1, spark, fuel);
      }
    }
  }

  // ------------------------------------------------------------------ the rate bound

  ghost predicate Consecutive(events: seq<Event>, i: nat, j: nat) {
    && i < j < |events| && IsTrigger(events[i]) && IsTrigger(events[j])
    && forall k :: i < k < j ==> !IsTrigger(events[k])
  }

  /** Between two consecutive triggers: a hint, a result, or a full cooldown; and time does not run back. */
  ghost predicate GapJustified(events: seq<Event>, i: nat, j: nat, cooldown: int)
    requires i < j < |events|
  {
    && events[i].at <= events[j].at
    && (|| events[j].at - events[i].at >= cooldown
        || (exists k :: i < k < j && IsHint(events[k]))
        || (exists k :: i < k < j && IsResult(events[k])))
  }

  ghost predicate GapsJustified(events: seq<Event>, cooldown: int) {
    forall i: nat, j: nat :: Consecutive(events, i, j) ==> GapJustified(events, i, j, cooldown)
  }

  ghost predicate IsFirstTrigger(events: seq<Event>, first: nat) {
    first < |events| && IsTrigger(events[first]) && forall k :: 0 <= k < first ==> !IsTrigger(events[k])
  }

  ghost predicate IsLastTrigger(events: seq<Event>, last: nat) {
    last < |events| && IsTrigger(events[last]) && forall k :: last < k < |events| ==> !IsTrigger(events[k])
  }

  lemma PreviousTrigger(events: seq<Event>, first: nat, j: nat) returns (i: nat)
    requires IsFirstTrigger(events, first) && first < j < |events| && IsTrigger(events[j])
    ensures first <= i && Consecutive(events, i, j)
  {
    i := j - 1;
    while !IsTrigger(events[i])
      invariant first <= i < j
      invariant forall k :: i < k < j ==> !IsTrigger(events[k])
      decreases i
    {
      i := i - 1;
    }
  }

  /** Triggers before `n`, less the results and hints before `n`. */
  function Excess(events: seq<Event>, n: nat): int
    requires n <= |events|
  {
    CountUpTo(events, n, IsTrigger) - CountUpTo(events, n, IsResult) - CountUpTo(events, n, IsHint)
  }

  lemma ExcessStep(events: seq<Event>, i: nat, j: nat, cooldown: int)
    requires Consecutive(events, i, j) && GapJustified(events, i, j, cooldown)
    ensures Excess(events, j) <= Excess(events, i) + 1
    ensures events[j].at - events[i].at < cooldown ==> Excess(events, j) <= Excess(events, i)
  {
    CountBetween(events, i + 1, j, IsTrigger);
    CountBetween(events, i, j, IsResult);
    CountBetween(events, i, j, IsHint);
    if events[j].at - events[i].at < cooldown {
      if k :| i < k < j && IsHint(events[k]) {
        CountSome(events, i, k, j, IsHint);
      } else {
        var k :| i < k < j && IsResult(events[k]);
        CountSome(events, i, k, j, IsResult);
      }
    }
  }

  /** Triggers beyond the results and hints each cost a full cooldown. */
  lemma {:induction false} RateUpTo(events: seq<Event>, cooldown: int, first: nat, j: nat)
    requires cooldown >= 1 && GapsJustified(events, cooldown)
    requires IsFirstTrigger(events, first) && first <= j < |events| && IsTrigger(events[j])
    ensures Excess(events, j) * cooldown <= events[j].at - events[first].at
    ensures events[first].at <= events[j].at
    decreases j
  {
    if j == first {
      CountBetween(events, 0, j, IsTrigger);
      Scale(Excess(events, j), 0, cooldown);
    } else {
      var i := PreviousTrigger(events, first, j);
      RateUpTo(events, cooldown, first, i);
      ExcessStep(events, i, j, cooldown);
      Scale(Excess(events, j), Excess(events, i), cooldown);
      Scale(Excess(events, j), Excess(events, i) + 1, cooldown);
      assert (Excess(events, i) + 1) * cooldown == Excess(events, i) * cooldown + cooldown;
    }
  }

  /** At most 1 + results + hints + one per full cooldown between the first and the last trigger. */
  ghost predicate RateBounded(events: seq<Event>, cooldown: int, first: nat, last: nat)
    requires cooldown >= 1 && first < |events| && last < |events|
  {
    && events[first].at <= events[last].at
    && Count(events, IsTrigger)
         <= 1 + Count(events, IsResult) + Count(events, IsHint) + (events[last].at - events[first].at) / cooldown
  }

  lemma RateBound(events: seq<Event>, cooldown: int, first: nat, last: nat)
    requires cooldown >= 1 && GapsJustified(events, cooldown)
    requires IsFirstTrigger(events, first) && IsLastTrigger(events, last)
    ensures RateBounded(events, cooldown, first, last)
  {
    RateUpTo(events, cooldown, first, last);
    CountBetween(events, last + 1, |events|, IsTrigger);
    CountBetween(events, last, |events|, IsResult);
    CountBetween(events, last, |events|, IsHint);
    QuotientBound(Excess(events, last), cooldown, events[last].at - events[first].at);
  }

  lemma QuotientBound(x: int, d: int, t: int)
    requires d >= 1 && x * d <= t
    ensures x <= t / d
  {
    Scale(t / d + 1, x, d);
    assert (t / d + 1) * d == (t / d) * d + d;
  }
}
