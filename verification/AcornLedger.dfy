/** The acorn ledger: rows, idempotency keys, and the balances cached beside them. */
module AcornLedger {
  import opened Prelude

  datatype TransactionType =
    | ProblemSolved | FirstAccepted | DailyStreak | TraceCompleted
    | NicknameChanged | AvatarChanged | AdminAdjustment

  datatype Transaction = Transaction(
    user: string, amount: int, balanceAfter: int, kind: TransactionType,
    reference: Option<string>, key: Option<string>)

  /** The cached part of a user: current balance and everything ever earned. */
  datatype Account = Account(balance: int, earned: int)

  datatype LedgerError = UserNotFound | InsufficientAcorns(required: int, balance: int)

  /** Points per problem, as configured; problems without an entry are worth 30. */
  type PointTable = map<string, int>

  function PointsFor(points: PointTable, problem: string): int {
    if problem in points then points[problem] else 30
  }

  /** The reward of a problem: a tenth of its points, at least one acorn. */
  function AcornsFor(points: PointTable, problem: string): (acorns: int)
    ensures acorns >= 1
    ensures acorns > 1 ==> -10 <= 2 * (10 * acorns - PointsFor(points, problem)) <= 10
    ensures acorns == 1 <==> PointsFor(points, problem) < 15
    ensures problem !in points ==> acorns == 3
  {
    Max(1, RoundHalfEven(PointsFor(points, problem), 10))
  }

  // ------------------------------------------------------------------ idempotency keys

  function SolvedKey(user: string, problem: string): string {
    "problem_solved:" + user + ":" + problem
  }

  function TraceKey(user: string, problem: string): string {
    "trace_completed:" + user + ":" + problem
  }

  /** Generated ids are a prefix and a UUID; they hold no separator. */
  predicate IsId(id: string) {
    ':' !in id
  }

  lemma FirstColon(a: string, b: string)
    requires IsId(a)
    ensures var joined := a + ":" + b;
            joined[|a|] == ':' && forall i :: 0 <= i < |a| ==> joined[i] != ':'
  {
    assert forall i :: 0 <= i < |a| ==> (a + ":" + b)[i] == a[i];
  }

  lemma SplitsAtColon(a: string, b: string, c: string, d: string)
    requires IsId(a) && IsId(c)
    requires a + ":" + b == c + ":" + d
    ensures a == c && b == d
  {
    FirstColon(a, b);
    FirstColon(c, d);
    var left, right := a + ":" + b, c + ":" + d;
    assert |a| == |c|;
    assert a == left[..|a|] && c == right[..|c|];
    assert b == left[|a| + 1..] && d == right[|c| + 1..];
  }

  /** One key per user and problem. */
  lemma SolvedKeyInjective(u: string, p: string, v: string, q: string)
    requires IsId(u) && IsId(v) && SolvedKey(u, p) == SolvedKey(v, q)
    ensures u == v && p == q
  {
    var prefix := "problem_solved:";
    assert u + ":" + p == SolvedKey(u, p)[|prefix|..];
    assert v + ":" + q == SolvedKey(v, q)[|prefix|..];
    SplitsAtColon(u, p, v, q);
  }

  /** The two families of keys never meet. */
  lemma KeyFamiliesDiffer(u: string, p: string, v: string, q: string)
    ensures SolvedKey(u, p) != TraceKey(v, q)
  {
    assert SolvedKey(u, p)[0] == 'p';
    assert TraceKey(v, q)[0] == 't';
  }

  function HasKey(ledger: seq<Transaction>, key: string): bool {
    ledger != [] && (ledger[|ledger| - 1].key == Some(key) || HasKey(ledger[..|ledger| - 1], key))
  }

  lemma {:induction false} HasKeyRow(ledger: seq<Transaction>, key: string)
    ensures HasKey(ledger, key) <==> exists i :: 0 <= i < |ledger| && ledger[i].key == Some(key)
  {
    if ledger != [] {
      var init := ledger[..|ledger| - 1];
      HasKeyRow(init, key);
      assert forall i :: 0 <= i < |init| ==> init[i] == ledger[i];
    }
  }

  // ------------------------------------------------------------------ sums

  /** Everything a user's rows add up to. */
  function Sum(ledger: seq<Transaction>, user: string): int {
    if ledger == [] then 0
    else
      var tx := ledger[|ledger| - 1];
      Sum(ledger[..|ledger| - 1], user) + if tx.user == user then tx.amount else 0
  }

  /** The positive part of it. */
  function Earned(ledger: seq<Transaction>, user: string): int {
    if ledger == [] then 0
    else
      var tx := ledger[|ledger| - 1];
      Earned(ledger[..|ledger| - 1], user) + if tx.user == user && tx.amount > 0 then tx.amount else 0
  }

  lemma RowAdds(ledger: seq<Transaction>, tx: Transaction, user: string)
    ensures Sum(ledger + [tx], user) == Sum(ledger, user) + if tx.user == user then tx.amount else 0
    ensures Earned(ledger + [tx], user)
         == Earned(ledger, user) + if tx.user == user && tx.amount > 0 then tx.amount else 0
  {
    assert (ledger + [tx])[..|ledger|] == ledger;
  }

  /** Rows of other users do not count. */
  lemma {:induction false} SumIgnoresOthers(ledger: seq<Transaction>, from: nat, user: string)
    requires from <= |ledger|
    requires forall i :: from <= i < |ledger| ==> ledger[i].user != user
    ensures Sum(ledger, user) == Sum(ledger[..from], user)
    decreases |ledger|
  {
    if from == |ledger| {
      assert ledger[..from] == ledger;
    } else {
      var init := ledger[..|ledger| - 1];
      assert init[..from] == ledger[..from];
      SumIgnoresOthers(init, from, user);
    }
  }

  // ------------------------------------------------------------------ what the books keep

  /** Cached balances are the sums of the rows, and never negative. */
  ghost predicate Balanced(accounts: map<string, Account>, ledger: seq<Transaction>) {
    forall u :: u in accounts ==>
      accounts[u].balance == Sum(ledger, u) && accounts[u].balance >= 0 && accounts[u].earned == Earned(ledger, u)
  }

  /** Row `i` records its user's balance at that point. */
  ghost predicate TracedAt(ledger: seq<Transaction>, i: nat)
    requires i < |ledger|
  {
    ledger[i].balanceAfter == Sum(ledger[..i + 1], ledger[i].user) && ledger[i].balanceAfter >= 0
  }

  ghost predicate Traced(accounts: map<string, Account>, ledger: seq<Transaction>) {
    forall i: nat :: i < |ledger| ==> ledger[i].user in accounts && TracedAt(ledger, i)
  }

  ghost predicate KeysUnique(ledger: seq<Transaction>) {
    forall i, j :: 0 <= i < j < |ledger| && ledger[i].key.Some? ==> ledger[i].key != ledger[j].key
  }

  ghost predicate Books(accounts: map<string, Account>, ledger: seq<Transaction>) {
    Balanced(accounts, ledger) && Traced(accounts, ledger) && KeysUnique(ledger)
  }

  function Credit(a: Account, amount: int): Account {
    Account(a.balance + amount, a.earned + if amount > 0 then amount else 0)
  }

  /** One row more, with the account moved along, keeps the books. */
  lemma RowKeepsBalance(accounts: map<string, Account>, ledger: seq<Transaction>, tx: Transaction)
    requires Balanced(accounts, ledger) && tx.user in accounts
    requires accounts[tx.user].balance + tx.amount >= 0
    ensures Balanced(accounts[tx.user := Credit(accounts[tx.user], tx.amount)], ledger + [tx])
  {
    forall u | u in accounts
      ensures accounts[tx.user := Credit(accounts[tx.user], tx.amount)][u].balance == Sum(ledger + [tx], u)
      ensures accounts[tx.user := Credit(accounts[tx.user], tx.amount)][u].earned == Earned(ledger + [tx], u)
    {
      RowAdds(ledger, tx, u);
    }
  }

  lemma OldRowTraced(ledger: seq<Transaction>, tx: Transaction, i: nat)
    requires i < |ledger| && TracedAt(ledger, i)
    ensures TracedAt(ledger + [tx], i)
  {
    assert (ledger + [tx])[..i + 1] == ledger[..i + 1];
  }

  lemma NewRowTraced(ledger: seq<Transaction>, tx: Transaction)
    requires tx.balanceAfter == Sum(ledger, tx.user) + tx.amount >= 0
    ensures TracedAt(ledger + [tx], |ledger|)
  {
    RowAdds(ledger, tx, tx.user);
    assert (ledger + [tx])[..|ledger| + 1] == ledger + [tx];
  }

  lemma RowKeepsTrace(accounts: map<string, Account>, ledger: seq<Transaction>, tx: Transaction)
    requires Traced(accounts, ledger) && tx.user in accounts
    requires tx.balanceAfter == Sum(ledger, tx.user) + tx.amount >= 0
    ensures Traced(accounts[tx.user := Credit(accounts[tx.user], tx.amount)], ledger + [tx])
  {
    forall i: nat | i < |ledger + [tx]|
      ensures TracedAt(ledger + [tx], i)
    {
      if i < |ledger| {
        assert TracedAt(ledger, i);
        OldRowTraced(ledger, tx, i);
      } else {
        NewRowTraced(ledger, tx);
      }
    }
  }

  lemma RowKeepsKeys(ledger: seq<Transaction>, tx: Transaction)
    requires KeysUnique(ledger)
    requires tx.key.Some? ==> !HasKey(ledger, tx.key.value)
    ensures KeysUnique(ledger + [tx])
  {
    if tx.key.Some? {
      HasKeyRow(ledger, tx.key.value);
    }
  }

  /** In good books the cached balance is what the user's newest row says. */
  lemma BalanceIsNewestRow(accounts: map<string, Account>, ledger: seq<Transaction>, user: string, i: nat)
    requires Books(accounts, ledger) && user in accounts
    requires i < |ledger| && ledger[i].user == user
    requires forall j :: i < j < |ledger| ==> ledger[j].user != user
    ensures accounts[user].balance == ledger[i].balanceAfter
  {
    SumIgnoresOthers(ledger, i + 1, user);
    assert TracedAt(ledger, i);
  }
}
