/**
 * When a posting goes through: exactly which ones are refused, what a posting that is accepted changes and
 * what it leaves alone, and what that means for paying and earning in a run of requests.
 */
module PostingLaws {
  import opened Prelude
  import opened TraceTypes
  import opened AcornLedger
  import opened ProgressRewards
  import opened RewardRuns

  /** The balance would drop below zero, and the posting may not do that. */
  predicate Overdraws(accounts: map<string, Account>, p: Posting)
    requires p.user in accounts
  {
    p.amount < 0 && !p.allowNegative && accounts[p.user].balance + p.amount < 0
  }

  ghost predicate KeyTaken(ledger: seq<Transaction>, key: Option<string>) {
    key.Some? && exists i :: 0 <= i < |ledger| && ledger[i].key == key
  }

  /** One row more, for this user and amount, and no other account or table touched. */
  ghost predicate Booked(before: Tables, p: Posting, next: Tables)
    requires p.user in before.accounts
  {
    var a := before.accounts[p.user];
    && next.ledger == before.ledger
         + [Transaction(p.user, p.amount, a.balance + p.amount, p.kind, p.reference, p.key)]
    && next.accounts.Keys == before.accounts.Keys
    && next.accounts[p.user].balance == a.balance + p.amount
    && next.accounts[p.user].earned == a.earned + Max(p.amount, 0)
    && (forall u :: u in before.accounts && u != p.user ==> next.accounts[u] == before.accounts[u])
    && next.progress == before.progress
  }

  /**
   * For a known user and an amount that is not zero: a posting is refused if and only if it would overdraw
   * the account; if it is not, a taken key rolls the transaction back and a free one books it.
   */
  lemma PostOutcome(db: Db, p: Posting)
    requires p.user in db.work.accounts && p.amount != 0
    ensures var (next, r) := Post(db, p);
            var refused, taken := Overdraws(db.work.accounts, p), KeyTaken(db.work.ledger, p.key);
            && next.committed == db.committed
            && (r.Err? <==> refused)
            && (refused ==>
                  next == db && r.error == InsufficientAcorns(-p.amount, db.work.accounts[p.user].balance))
            && (!refused && taken ==> next.work == db.committed && r == Ok(None))
            && (!refused && !taken ==>
                  && Booked(db.work, p, next.work)
                  && r == Ok(Some(next.work.ledger[|db.work.ledger|])))
  {
    if p.key.Some? {
      HasKeyRow(db.work.ledger, p.key.value);
    }
  }

  /** Nothing is posted for a zero amount, and an unknown user is an error. */
  lemma PostNothing(db: Db, p: Posting)
    requires p.amount == 0 || p.user !in db.work.accounts
    ensures Post(db, p) == (db, if p.amount == 0 then Ok(None) else Err(UserNotFound))
  {
  }

  // ------------------------------------------------------------------ paying

  /**
   * After every run of requests: a student who renames pays the price exactly if the balance covers it;
   * otherwise nothing changes at all.
   */
  lemma RenamePaysIff(points: PointTable, requests: seq<Request>, user: string, price: int, t: Tables)
    requires t == HandleAll(points, EMPTY, requests) && user in t.accounts && price > 0
    ensures var next := HandleAll(points, EMPTY, requests + [Rename(user, price)]);
            if t.accounts[user].balance >= price
            then Booked(t, Posting(user, -price, NicknameChanged, None, None, false), next) else next == t
  {
    HandleOneMore(points, EMPTY, requests, Rename(user, price));
    PostOutcome(Db(t, t), RenamePosting(user, price));
  }

  // ------------------------------------------------------------------ the reward for a trace

  predicate IsTraceReward(tx: Transaction, user: string, problem: string) {
    tx.kind == TraceCompleted && tx.user == user && tx.reference == Some(problem)
  }

  lemma TraceKeyInjective(u: string, p: string, v: string, q: string)
    requires IsId(u) && IsId(v) && TraceKey(u, p) == TraceKey(v, q)
    ensures u == v && p == q
  {
    var prefix := "trace_completed:";
    assert u + ":" + p == TraceKey(u, p)[|prefix|..];
    assert v + ":" + q == TraceKey(v, q)[|prefix|..];
    SplitsAtColon(u, p, v, q);
  }

  lemma RowKeyMeansTrace(points: PointTable, tx: Transaction, user: string, problem: string)
    requires Shaped(points, tx) && IsId(user)
    ensures tx.key == Some(TraceKey(user, problem)) <==> IsTraceReward(tx, user, problem)
  {
    if tx.kind == ProblemSolved {
      KeyFamiliesDiffer(tx.user, tx.reference.value, user, problem);
    } else if tx.kind == TraceCompleted && tx.key == Some(TraceKey(user, problem)) {
      TraceKeyInjective(tx.user, tx.reference.value, user, problem);
    }
  }

  /** The reward for a trace is booked once per student and problem, and every later request leaves all as it is. */
  lemma TraceRewardIff(
    points: PointTable, requests: seq<Request>, user: string, problem: string, reward: int, t: Tables)
    requires forall i :: 0 <= i < |requests| ==> WellFormed(requests[i])
    requires t == HandleAll(points, EMPTY, requests) && user in t.accounts && reward > 0
    ensures var next := HandleAll(points, EMPTY, requests + [TraceDone(user, problem, reward)]);
            if exists i :: 0 <= i < |t.ledger| && IsTraceReward(t.ledger[i], user, problem) then next == t
            else Booked(t, Posting(user, reward, TraceCompleted, Some(problem), Some(TraceKey(user, problem)), false),
                        next)
  {
    RunKeeps(points, requests);
    HandleOneMore(points, EMPTY, requests, TraceDone(user, problem, reward));
    PostOutcome(Db(t, t), TracePosting(user, problem, reward));
    forall i | 0 <= i < |t.ledger|
      ensures t.ledger[i].key == Some(TraceKey(user, problem)) <==> IsTraceReward(t.ledger[i], user, problem)
    {
      RowKeyMeansTrace(points, t.ledger[i], user, problem);
    }
  }
}
