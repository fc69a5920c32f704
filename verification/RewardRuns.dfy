/**
 * Runs of serial requests against the ledger and the progress table: the books always balance, and
 * the one-time reward and the student's own SOLVED row are two views of the same fact.
 */
module RewardRuns {
  import opened Prelude
  import opened TraceTypes
  import opened AcornLedger
  import opened ProgressRewards

  /**
   * Requests that write accounts, ledger or progress; `Judged` comes from the server's own judge. The
   * price of a nickname and the reward for a trace are whatever is configured when the request is
   * served. `TraceDone` is a reward the backend defines and no endpoint grants yet.
   */
  datatype Request =
    | Signup(user: string)
    | Judged(user: string, problem: string, j: Judgement, courses: seq<string>)
    | LocalResult(user: string, problem: string, j: Judgement, courses: seq<string>)
    | Checkpoint(user: string, problem: string, code: string, courses: seq<string>, at: int)
    | Rename(user: string, price: int)
    | TraceDone(user: string, problem: string, reward: int)

  function TracePosting(user: string, problem: string, reward: int): Posting {
    Posting(user, reward, TraceCompleted, Some(problem), Some(TraceKey(user, problem)), false)
  }

  function RenamePosting(user: string, price: int): Posting {
    Posting(user, -price, NicknameChanged, None, None, false)
  }

  predicate IsSolved(progress: ProgressTable, user: string, problem: string) {
    CourseSolved(progress, user, problem, "")
  }

  predicate CourseSolved(progress: ProgressTable, user: string, problem: string, course: string) {
    var slot := Slot(user, problem, course);
    slot in progress && progress[slot].status == Solved
  }

  /** What is committed: the transaction's tables, or the old ones if the request failed. */
  function Settle<R>(before: Tables, outcome: (Db, Result<R, LedgerError>)): Tables {
    if outcome.1.Ok? then outcome.0.work else before
  }

  /** One request on committed tables; a user must be logged in. */
  function Handle(points: PointTable, t: Tables, r: Request): Tables {
    if r.Signup? then (if r.user in t.accounts then t else t.(accounts := t.accounts[r.user := Account(0, 0)]))
    else if r.user !in t.accounts then t
    else
      match r
      case Judged(u, p, j, courses) => Settle(t, RecordJudgement(points, Db(t, t), u, p, j, courses))
      case LocalResult(u, p, j, courses) =>
        if IsSolved(t.progress, u, p) then t else Settle(t, RecordJudgement(points, Db(t, t), u, p, j, courses))
      case Checkpoint(u, p, code, courses, at) => t.(progress := CheckpointAll(t.progress, u, p, courses, code, at))
      case Rename(u, price) => Settle(t, Post(Db(t, t), RenamePosting(u, price)))
      case TraceDone(u, p, reward) => Settle(t, Post(Db(t, t), TracePosting(u, p, reward)))
      case Signup(_) => t
  }

  function HandleAll(points: PointTable, t: Tables, requests: seq<Request>): Tables {
    if requests == [] then t
    else Handle(points, HandleAll(points, t, requests[..|requests| - 1]), requests[|requests| - 1])
  }

  /** The request handlers: a session of its own, work in one transaction, commit at the end, roll back on an error. */
  method HandleRequest(db: Database, points: PointTable, r: Request)
    requires db.work == db.committed && db.held == map[]
    modifies db
    ensures db.committed == Handle(points, old(db.committed), r)
    ensures db.work == db.committed && db.held == map[]
  {
    if r.Signup? {
      if r.user !in db.work.accounts {
        db.work := db.work.(accounts := db.work.accounts[r.user := Account(0, 0)]);
      }
      db.Commit();
      return;
    }
    if r.user !in db.work.accounts {
      return;
    }
    var failed := false;
    match r {
      case Judged(u, p, j, courses) =>
        var outcome := db.Record(points, u, p, j, courses);
        failed := outcome.Err?;
      case LocalResult(u, p, j, courses) =>
        if !IsSolved(db.work.progress, u, p) {
          var outcome := db.Record(points, u, p, j, courses);
          failed := outcome.Err?;
        }
      case Checkpoint(u, p, code, courses, at) =>
        SaveCheckpoints(db, u, p, code, courses, at);
      case Rename(u, price) =>
        var outcome := db.PostRow(RenamePosting(u, price));
        failed := outcome.Err?;
      case TraceDone(u, p, reward) =>
        var outcome := db.PostRow(TracePosting(u, p, reward));
        failed := outcome.Err?;
      case Signup(_) =>
    }
    if failed {
      db.Rollback();
    } else {
      db.Commit();
    }
  }

  /** The student's own row first, then the row of every course that assigns the problem. */
  method SaveCheckpoints(db: Database, user: string, problem: string, code: string, courses: seq<string>, at: int)
    requires db.NoneNotStarted()
    modifies db`work, db`held
    ensures db.work == old(db.work).(progress := CheckpointAll(old(db.work.progress), user, problem, courses, code, at))
  {
    ghost var table := db.work.progress;
    db.SaveCheckpoint(Slot(user, problem, ""), code, at);
    assert db.work.progress == Checkpointed(table, Slot(user, problem, ""), code, at);
    for i := 0 to |courses|
      invariant db.work == old(db.work).(progress := CheckpointAll(table, user, problem, courses[..i], code, at))
      invariant db.NoneNotStarted()
    {
      assert courses[..i + 1][..i] == courses[..i];
      ghost var saved := Checkpointed(db.work.progress, Slot(user, problem, courses[i]), code, at);
      db.SaveCheckpoint(Slot(user, problem, courses[i]), code, at);
      assert db.work.progress == saved;
    }
    assert courses[..|courses|] == courses;
  }

  const EMPTY := Tables(map[], [], map[])

  /** Generated user ids hold no separator. */
  predicate WellFormed(r: Request) {
    r.Signup? ==> IsId(r.user)
  }

  // ------------------------------------------------------------------ the invariant

  /** Keys and amounts follow from the kind of row. */
  predicate Shaped(points: PointTable, tx: Transaction) {
    && IsId(tx.user)
    && match tx.kind
       case ProblemSolved =>
         && tx.reference.Some? && tx.key == Some(SolvedKey(tx.user, tx.reference.value))
         && tx.amount == AcornsFor(points, tx.reference.value)
       case TraceCompleted => tx.reference.Some? && tx.key == Some(TraceKey(tx.user, tx.reference.value))
       case _ => tx.key.None?
  }

  ghost predicate AllShaped(points: PointTable, ledger: seq<Transaction>) {
    forall i :: 0 <= i < |ledger| ==> Shaped(points, ledger[i])
  }

  predicate IsReward(tx: Transaction, user: string, problem: string) {
    tx.kind == ProblemSolved && tx.user == user && tx.reference == Some(problem)
  }

  predicate HasReward(ledger: seq<Transaction>, user: string, problem: string) {
    ledger != [] && (IsReward(ledger[|ledger| - 1], user, problem) || HasReward(ledger[..|ledger| - 1], user, problem))
  }

  lemma {:induction false} HasRewardRow(ledger: seq<Transaction>, user: string, problem: string)
    ensures HasReward(ledger, user, problem) <==> exists i :: 0 <= i < |ledger| && IsReward(ledger[i], user, problem)
  {
    if ledger != [] {
      var init := ledger[..|ledger| - 1];
      HasRewardRow(init, user, problem);
      assert forall i :: 0 <= i < |init| ==> init[i] == ledger[i];
    }
  }

  /** A reward is in the ledger exactly when the student's own row is solved. */
  ghost predicate Rewarded(ledger: seq<Transaction>, progress: ProgressTable) {
    forall u, p :: IsSolved(progress, u, p) <==> HasReward(ledger, u, p)
  }

  ghost predicate Inv(points: PointTable, t: Tables) {
    && Books(t.accounts, t.ledger)
    && (forall u :: u in t.accounts ==> IsId(u))
    && AllShaped(points, t.ledger)
    && Rewarded(t.ledger, t.progress)
  }

  /** The idempotency key of a reward is taken exactly when the reward was paid. */
  lemma {:induction false} KeyMeansReward(points: PointTable, ledger: seq<Transaction>, user: string, problem: string)
    requires AllShaped(points, ledger) && IsId(user)
    ensures HasKey(ledger, SolvedKey(user, problem)) <==> HasReward(ledger, user, problem)
  {
    if ledger != [] {
      KeyMeansReward(points, ledger[..|ledger| - 1], user, problem);
      RowKeyMeansReward(points, ledger[|ledger| - 1], user, problem);
    }
  }

  lemma RowKeyMeansReward(points: PointTable, tx: Transaction, user: string, problem: string)
    requires Shaped(points, tx) && IsId(user)
    ensures tx.key == Some(SolvedKey(user, problem)) <==> IsReward(tx, user, problem)
  {
    if tx.kind == TraceCompleted {
      KeyFamiliesDiffer(user, problem, tx.user, tx.reference.value);
    } else if tx.kind == ProblemSolved && tx.key == Some(SolvedKey(user, problem)) {
      SolvedKeyInjective(tx.user, tx.reference.value, user, problem);
    }
  }

  // ------------------------------------------------------------------ what one judged run does to the rows

  lemma {:induction false} OtherSlotsUntouched(
    progress: ProgressTable, user: string, problem: string, targets: seq<string>, j: Judgement, slot: Slot)
    requires slot.user != user || slot.problem != problem
    ensures var after := TouchAll(progress, user, problem, targets, j);
            (slot in after <==> slot in progress) && (slot in progress ==> after[slot] == progress[slot])
  {
    if targets != [] {
      OtherSlotsUntouched(progress, user, problem, targets[..|targets| - 1], j, slot);
    }
  }

  /** Every target row exists afterwards and is solved if the run solves, or as it was. */
  lemma {:induction false} TargetStatus(
    progress: ProgressTable, user: string, problem: string, targets: seq<string>, j: Judgement, course: string)
    ensures var after := TouchAll(progress, user, problem, targets, j);
            CourseSolved(after, user, problem, course) <==>
            CourseSolved(progress, user, problem, course) || (Solves(j) && course in targets)
  {
    if targets != [] {
      var init := targets[..|targets| - 1];
      TargetStatus(progress, user, problem, init, j, course);
      assert course in targets <==> course in init || course == targets[|targets| - 1];
    }
  }

  ghost predicate AllSolved(progress: ProgressTable, user: string, problem: string, targets: seq<string>) {
    forall c :: c in targets ==> CourseSolved(progress, user, problem, c)
  }

  function Attempts(progress: ProgressTable, user: string, problem: string, course: string): nat {
    var slot := Slot(user, problem, course);
    if slot in progress then progress[slot].attemptCount else 0
  }

  /** Every target row counts one more attempt each time it is a target; no other row does. */
  lemma {:induction false} TargetAttempts(
    progress: ProgressTable, user: string, problem: string, targets: seq<string>, j: Judgement, course: string)
    ensures Attempts(TouchAll(progress, user, problem, targets, j), user, problem, course)
         == Attempts(progress, user, problem, course) + multiset(targets)[course]
  {
    if targets != [] {
      var init, last := targets[..|targets| - 1], targets[|targets| - 1];
      TargetAttempts(progress, user, problem, init, j, course);
      assert targets == init + [last];
    }
  }

  /** The row shows the run as its latest. */
  ghost predicate ShowsRun(progress: ProgressTable, user: string, problem: string, course: string, j: Judgement) {
    var slot := Slot(user, problem, course);
    && slot in progress
    && progress[slot].lastJudgeStatus == Some(j.status) && progress[slot].lastAttemptedAt == Some(j.at)
    && (j.code != "" ==> progress[slot].currentCode == j.code)
  }

  lemma {:induction false} TargetShowsRun(
    progress: ProgressTable, user: string, problem: string, targets: seq<string>, j: Judgement, course: string)
    requires course in targets
    ensures ShowsRun(TouchAll(progress, user, problem, targets, j), user, problem, course, j)
  {
    var init, last := targets[..|targets| - 1], targets[|targets| - 1];
    if course != last {
      assert course in init;
      TargetShowsRun(progress, user, problem, init, j, course);
    }
  }

  // ------------------------------------------------------------------ each request keeps the invariant

  /** A row of the right shape with a free key keeps the books. */
  lemma PostKeepsBooks(points: PointTable, t: Tables, p: Posting)
    requires Books(t.accounts, t.ledger) && AllShaped(points, t.ledger)
    requires p.user in t.accounts && !p.allowNegative
    requires Shaped(points, RowFor(p, t.accounts[p.user]))
    ensures var next := Settle(t, Post(Db(t, t), p));
            Books(next.accounts, next.ledger) && AllShaped(points, next.ledger) && next.accounts.Keys == t.accounts.Keys
  {
    var tx := RowFor(p, t.accounts[p.user]);
    var outcome := Post(Db(t, t), p);
    if outcome.1.Ok? && outcome.1.value.Some? {
      RowKeepsBalance(t.accounts, t.ledger, tx);
      RowKeepsTrace(t.accounts, t.ledger, tx);
      RowKeepsKeys(t.ledger, tx);
    }
  }

  lemma RowAddsReward(ledger: seq<Transaction>, tx: Transaction, user: string, problem: string)
    ensures HasReward(ledger + [tx], user, problem) <==> IsReward(tx, user, problem) || HasReward(ledger, user, problem)
  {
    assert (ledger + [tx])[..|ledger|] == ledger;
  }

  /** Postings other than rewards leave both views alone. */
  lemma OtherPostingKeeps(points: PointTable, t: Tables, p: Posting)
    requires Inv(points, t) && p.user in t.accounts && !p.allowNegative
    requires p.kind != ProblemSolved && Shaped(points, RowFor(p, t.accounts[p.user]))
    ensures Inv(points, Settle(t, Post(Db(t, t), p)))
  {
    PostKeepsBooks(points, t, p);
    var next := Settle(t, Post(Db(t, t), p));
    forall u, q
      ensures IsSolved(next.progress, u, q) <==> HasReward(next.ledger, u, q)
    {
      RowAddsReward(t.ledger, RowFor(p, t.accounts[p.user]), u, q);
    }
  }

  /** The solved set after a judged run. */
  lemma SolvedAfter(t: Tables, user: string, problem: string, j: Judgement, courses: seq<string>, u: string, p: string)
    ensures var after := TouchAll(t.progress, user, problem, Targets(courses), j);
            IsSolved(after, u, p) <==> IsSolved(t.progress, u, p) || (Solves(j) && u == user && p == problem)
  {
    var targets := Targets(courses);
    if u == user && p == problem {
      TargetStatus(t.progress, user, problem, targets, j, "");
      assert targets[0] in targets;
    } else {
      OtherSlotsUntouched(t.progress, user, problem, targets, j, Slot(u, p, ""));
    }
  }

  /** A run that solves nothing changes no solved status of the student's own rows. */
  lemma UnpaidRunKeeps(points: PointTable, t: Tables, user: string, problem: string, j: Judgement, courses: seq<string>)
    requires Inv(points, t) && !Solves(j)
    ensures Inv(points, t.(progress := TouchAll(t.progress, user, problem, Targets(courses), j)))
  {
    forall u, p
      ensures IsSolved(TouchAll(t.progress, user, problem, Targets(courses), j), u, p) <==> HasReward(t.ledger, u, p)
    {
      SolvedAfter(t, user, problem, j, courses, u, p);
    }
  }

  /** The first solve asks for a reward whose key is free: rows, ledger row and balance are stored together. */
  lemma FirstSolvePays(
    points: PointTable, t: Tables, user: string, problem: string, j: Judgement, courses: seq<string>)
    requires Inv(points, t) && user in t.accounts && Solves(j) && !IsSolved(t.progress, user, problem)
    ensures var paid := Settle(t, Post(Db(t, t), RewardPosting(points, user, problem)));
            && paid.ledger == t.ledger + [RowFor(RewardPosting(points, user, problem), t.accounts[user])]
            && paid.progress == t.progress
            && Settle(t, RecordJudgement(points, Db(t, t), user, problem, j, courses))
            == paid.(progress := TouchAll(t.progress, user, problem, Targets(courses), j))
  {
    KeyMeansReward(points, t.ledger, user, problem);
  }

  lemma PaidRunKeeps(points: PointTable, t: Tables, user: string, problem: string, j: Judgement, courses: seq<string>)
    requires Inv(points, t) && user in t.accounts && Solves(j) && !IsSolved(t.progress, user, problem)
    ensures Inv(points, Settle(t, RecordJudgement(points, Db(t, t), user, problem, j, courses)))
  {
    var posting := RewardPosting(points, user, problem);
    PostKeepsBooks(points, t, posting);
    FirstSolvePays(points, t, user, problem, j, courses);
    var next := Settle(t, RecordJudgement(points, Db(t, t), user, problem, j, courses));
    forall u, p
      ensures IsSolved(next.progress, u, p) <==> HasReward(next.ledger, u, p)
    {
      SolvedAfter(t, user, problem, j, courses, u, p);
      RowAddsReward(t.ledger, RowFor(posting, t.accounts[user]), u, p);
    }
  }

  /** Solved before: the taken key rolls the whole request back. */
  lemma RepeatedRun(points: PointTable, t: Tables, user: string, problem: string, j: Judgement, courses: seq<string>)
    requires Inv(points, t) && user in t.accounts && Solves(j) && IsSolved(t.progress, user, problem)
    ensures Settle(t, RecordJudgement(points, Db(t, t), user, problem, j, courses)) == t
  {
    KeyMeansReward(points, t.ledger, user, problem);
  }

  lemma JudgedKeeps(points: PointTable, t: Tables, user: string, problem: string, j: Judgement, courses: seq<string>)
    requires Inv(points, t) && user in t.accounts
    ensures Inv(points, Settle(t, RecordJudgement(points, Db(t, t), user, problem, j, courses)))
  {
    if Solves(j) && !IsSolved(t.progress, user, problem) {
      PaidRunKeeps(points, t, user, problem, j, courses);
    } else if Solves(j) {
      RepeatedRun(points, t, user, problem, j, courses);
    } else {
      UnpaidRunKeeps(points, t, user, problem, j, courses);
    }
  }

  /** Saving code never solves or unsolves anything. */
  lemma {:induction false} CheckpointKeepsStatus(
    progress: ProgressTable, user: string, problem: string, courses: seq<string>, code: string, now: int,
    u: string, p: string)
    ensures IsSolved(CheckpointAll(progress, user, problem, courses, code, now), u, p) <==> IsSolved(progress, u, p)
  {
    if courses != [] {
      CheckpointKeepsStatus(progress, user, problem, courses[..|courses| - 1], code, now, u, p);
    }
  }

  /** A row as it was, or new and in progress, holding the saved code. */
  ghost predicate HoldsCode(before: ProgressTable, slot: Slot, code: string, now: int, after: ProgressTable) {
    && slot in after
    && after[slot].currentCode == code && after[slot].updatedAt == now
    && (slot in before ==> after[slot] == before[slot].(currentCode := code, updatedAt := now))
    && (slot !in before ==>
          && after[slot].status == InProgress && after[slot].attemptCount == 0 && after[slot].bestPassed == 0
          && after[slot].solvedAt.None? && after[slot].lastSubmittedCode == "" && after[slot].firstStartedAt == now)
  }

  /** Saving code puts it into the own row and the row of every course, and touches no other row. */
  lemma {:induction false} CheckpointSavesCode(
    progress: ProgressTable, user: string, problem: string, courses: seq<string>, code: string, now: int, slot: Slot)
    ensures var after := CheckpointAll(progress, user, problem, courses, code, now);
            if slot.user == user && slot.problem == problem && (slot.course == "" || slot.course in courses)
            then HoldsCode(progress, slot, code, now, after)
            else (slot in after <==> slot in progress) && (slot in progress ==> after[slot] == progress[slot])
  {
    if courses != [] {
      var init := courses[..|courses| - 1];
      CheckpointSavesCode(progress, user, problem, init, code, now, slot);
      assert slot.course in courses <==> slot.course in init || slot.course == courses[|courses| - 1];
    }
  }

  lemma CheckpointKeeps(
    points: PointTable, t: Tables, user: string, problem: string, courses: seq<string>, code: string, now: int)
    requires Inv(points, t)
    ensures Inv(points, t.(progress := CheckpointAll(t.progress, user, problem, courses, code, now)))
  {
    forall u, p
      ensures IsSolved(CheckpointAll(t.progress, user, problem, courses, code, now), u, p)
         <==> HasReward(t.ledger, u, p)
    {
      CheckpointKeepsStatus(t.progress, user, problem, courses, code, now, u, p);
    }
  }

  lemma {:induction false} NoRowsNoSum(accounts: map<string, Account>, ledger: seq<Transaction>, user: string)
    requires Traced(accounts, ledger) && user !in accounts
    ensures Sum(ledger, user) == 0 && Earned(ledger, user) == 0
  {
    if ledger != [] {
      var init := ledger[..|ledger| - 1];
      forall i: nat | i < |init|
        ensures init[i].user in accounts && TracedAt(init, i)
      {
        assert TracedAt(ledger, i);
        assert init[..i + 1] == ledger[..i + 1];
      }
      NoRowsNoSum(accounts, init, user);
    }
  }

  lemma SignupKeeps(points: PointTable, t: Tables, user: string)
    requires Inv(points, t) && user !in t.accounts && IsId(user)
    ensures Inv(points, t.(accounts := t.accounts[user := Account(0, 0)]))
  {
    NoRowsNoSum(t.accounts, t.ledger, user);
  }

  lemma HandleKeeps(points: PointTable, t: Tables, r: Request)
    requires Inv(points, t) && WellFormed(r)
    ensures Inv(points, Handle(points, t, r))
  {
    if r.Signup? {
      if r.user !in t.accounts {
        SignupKeeps(points, t, r.user);
      }
    } else if r.user in t.accounts {
      match r
      case Judged(u, p, j, courses) => JudgedKeeps(points, t, u, p, j, courses);
      case LocalResult(u, p, j, courses) => JudgedKeeps(points, t, u, p, j, courses);
      case Checkpoint(u, p, code, courses, at) => CheckpointKeeps(points, t, u, p, courses, code, at);
      case Rename(u, price) => OtherPostingKeeps(points, t, RenamePosting(u, price));
      case TraceDone(u, p, reward) => OtherPostingKeeps(points, t, TracePosting(u, p, reward));
    }
  }

  lemma {:induction false} RunKeeps(points: PointTable, requests: seq<Request>)
    requires forall i :: 0 <= i < |requests| ==> WellFormed(requests[i])
    ensures Inv(points, HandleAll(points, EMPTY, requests))
  {
    if requests != [] {
      var before := requests[..|requests| - 1];
      RunKeeps(points, before);
      HandleKeeps(points, HandleAll(points, EMPTY, before), requests[|requests| - 1]);
    }
  }

  // ------------------------------------------------------------------ the results

  /** No later row belongs to the same user. */
  ghost predicate IsNewest(ledger: seq<Transaction>, i: nat) {
    i < |ledger| && forall j :: i < j < |ledger| ==> ledger[j].user != ledger[i].user
  }

  /**
   * The books balance in every committed state of every run: each balance is the sum of the user's
   * rows and nonnegative, the earned total is the sum of the positive ones, each row states the
   * balance it left behind, and so the cached balance is the one the user's newest row states.
   */
  lemma BooksAlwaysBalance(points: PointTable, requests: seq<Request>)
    requires forall i :: 0 <= i < |requests| ==> WellFormed(requests[i])
    ensures var t := HandleAll(points, EMPTY, requests);
            && Books(t.accounts, t.ledger)
            && forall i: nat :: IsNewest(t.ledger, i) ==>
                 t.ledger[i].user in t.accounts && t.accounts[t.ledger[i].user].balance == t.ledger[i].balanceAfter
  {
    RunKeeps(points, requests);
    var t := HandleAll(points, EMPTY, requests);
    forall i: nat | IsNewest(t.ledger, i)
      ensures t.ledger[i].user in t.accounts && t.accounts[t.ledger[i].user].balance == t.ledger[i].balanceAfter
    {
      BalanceIsNewestRow(t.accounts, t.ledger, t.ledger[i].user, i);
    }
  }

  /** A user and problem have at most one reward row. */
  lemma AtMostOneReward(points: PointTable, ledger: seq<Transaction>, i: nat, j: nat, user: string, problem: string)
    requires AllShaped(points, ledger) && KeysUnique(ledger) && i < j < |ledger|
    ensures !(IsReward(ledger[i], user, problem) && IsReward(ledger[j], user, problem))
  {
    assert Shaped(points, ledger[i]) && Shaped(points, ledger[j]);
  }

  ghost predicate RewardedAtMostOnce(ledger: seq<Transaction>, user: string, problem: string) {
    forall i, j :: 0 <= i < j < |ledger| ==> !(IsReward(ledger[i], user, problem) && IsReward(ledger[j], user, problem))
  }

  /**
   * In every committed state: the reward of (user, problem) is in the ledger if and only if the
   * student's own row is solved, and it is there once.
   */
  lemma RewardIffSolved(points: PointTable, requests: seq<Request>, user: string, problem: string)
    requires forall i :: 0 <= i < |requests| ==> WellFormed(requests[i])
    ensures var t := HandleAll(points, EMPTY, requests);
            && (IsSolved(t.progress, user, problem)
                <==> exists i :: 0 <= i < |t.ledger| && IsReward(t.ledger[i], user, problem))
            && RewardedAtMostOnce(t.ledger, user, problem)
  {
    RunKeeps(points, requests);
    var t := HandleAll(points, EMPTY, requests);
    HasRewardRow(t.ledger, user, problem);
    forall i: nat, j: nat | i < j < |t.ledger|
      ensures !(IsReward(t.ledger[i], user, problem) && IsReward(t.ledger[j], user, problem))
    {
      AtMostOneReward(points, t.ledger, i, j, user, problem);
    }
  }

  /** Rewards paid to a user. */
  function RewardTotal(ledger: seq<Transaction>, user: string): int {
    if ledger == [] then 0
    else
      var tx := ledger[|ledger| - 1];
      RewardTotal(ledger[..|ledger| - 1], user) + if tx.kind == ProblemSolved && tx.user == user then tx.amount else 0
  }

  /** The problems of a user's own solved rows. */
  function SolvedProblems(progress: ProgressTable, user: string): set<string> {
    set slot | slot in progress && slot.user == user && slot.course == "" && progress[slot].status == Solved ::
      slot.problem
  }

  /** The rewards of a set of problems. */
  ghost function RewardOf(points: PointTable, problems: set<string>): int {
    if problems == {} then 0
    else
      var p :| p in problems;
      AcornsFor(points, p) + RewardOf(points, problems - {p})
  }

  lemma {:induction false} RewardOfOneMore(points: PointTable, problems: set<string>, p: string)
    requires p !in problems
    ensures RewardOf(points, problems + {p}) == RewardOf(points, problems) + AcornsFor(points, p)
    decreases problems
  {
    var more := problems + {p};
    var q :| q in more && RewardOf(points, more) == AcornsFor(points, q) + RewardOf(points, more - {q});
    if q == p {
      assert more - {p} == problems;
    } else {
      assert more - {q} == (problems - {q}) + {p};
      RewardOfOneMore(points, problems - {q}, p);
      assert (problems - {q}) + {q} == problems;
      RewardOfOneMore(points, problems - {q}, q);
    }
  }

  function RewardedProblems(ledger: seq<Transaction>, user: string): set<string> {
    if ledger == [] then {}
    else
      var tx := ledger[|ledger| - 1];
      var rest := RewardedProblems(ledger[..|ledger| - 1], user);
      if tx.kind == ProblemSolved && tx.user == user && tx.reference.Some? then rest + {tx.reference.value} else rest
  }

  lemma {:induction false} RewardedProblemsAre(ledger: seq<Transaction>, user: string, p: string)
    ensures p in RewardedProblems(ledger, user) <==> HasReward(ledger, user, p)
  {
    if ledger != [] {
      RewardedProblemsAre(ledger[..|ledger| - 1], user, p);
    }
  }

  lemma {:induction false} TotalIsRewardOf(points: PointTable, ledger: seq<Transaction>, user: string)
    requires AllShaped(points, ledger) && KeysUnique(ledger)
    ensures RewardTotal(ledger, user) == RewardOf(points, RewardedProblems(ledger, user))
  {
    if ledger != [] {
      var init, tx := ledger[..|ledger| - 1], ledger[|ledger| - 1];
      TotalIsRewardOf(points, init, user);
      if tx.kind == ProblemSolved && tx.user == user {
        var p := tx.reference.value;
        RewardedProblemsAre(init, user, p);
        HasRewardRow(init, user, p);
        forall i: nat | i < |init|
          ensures !IsReward(init[i], user, p)
        {
          AtMostOneReward(points, ledger, i, |init|, user, p);
        }
        RewardOfOneMore(points, RewardedProblems(init, user), p);
      }
    }
  }

  /** Reward total: in every committed state, the sum of the rewards of the problems the student solved. */
  lemma RewardTotalIsSolvedRewards(points: PointTable, requests: seq<Request>, user: string)
    requires forall i :: 0 <= i < |requests| ==> WellFormed(requests[i])
    ensures var t := HandleAll(points, EMPTY, requests);
            RewardTotal(t.ledger, user) == RewardOf(points, SolvedProblems(t.progress, user))
  {
    RunKeeps(points, requests);
    var t := HandleAll(points, EMPTY, requests);
    TotalIsRewardOf(points, t.ledger, user);
    forall p
      ensures p in SolvedProblems(t.progress, user) <==> p in RewardedProblems(t.ledger, user)
    {
      SolvedProblemsAre(t.progress, user, p);
      RewardedProblemsAre(t.ledger, user, p);
    }
    assert SolvedProblems(t.progress, user) == RewardedProblems(t.ledger, user);
  }

  lemma SolvedProblemsAre(progress: ProgressTable, user: string, p: string)
    ensures p in SolvedProblems(progress, user) <==> IsSolved(progress, user, p)
  {
    assert IsSolved(progress, user, p) ==> Slot(user, p, "").problem == p;
  }

  // ------------------------------------------------------------------ what an accepted submit promises

  /** An accepted submit of a problem whose own row is solved already. */
  predicate Repeats(t: Tables, user: string, problem: string, j: Judgement) {
    Solves(j) && IsSolved(t.progress, user, problem)
  }

  /**
   * A judged run takes effect, on all target rows, if and only if it is not an accepted submit of a
   * problem the student has solved before: then every target row shows the run and counts it. Otherwise
   * the reward is asked for again, its key is taken, and nothing of the request is left.
   */
  lemma RunTakesEffectIff(
    points: PointTable, t: Tables, user: string, problem: string, j: Judgement, courses: seq<string>)
    requires Inv(points, t) && user in t.accounts
    ensures var next := Handle(points, t, Judged(user, problem, j, courses));
            && (next == t <==> Repeats(t, user, problem, j))
            && (!Repeats(t, user, problem, j) ==>
                  forall c :: c in Targets(courses) ==> ShowsRun(next.progress, user, problem, c, j))
            && forall c :: Attempts(next.progress, user, problem, c) == Attempts(t.progress, user, problem, c)
                             + if Repeats(t, user, problem, j) then 0 else multiset(Targets(courses))[c]
  {
    if Repeats(t, user, problem, j) {
      RepeatedRun(points, t, user, problem, j, courses);
    } else {
      EffectiveRun(points, t, user, problem, j, courses);
      assert Targets(courses)[0] in Targets(courses);
      assert Attempts(Handle(points, t, Judged(user, problem, j, courses)).progress, user, problem, "")
          > Attempts(t.progress, user, problem, "");
    }
  }

  lemma EffectiveRun(points: PointTable, t: Tables, user: string, problem: string, j: Judgement, courses: seq<string>)
    requires Inv(points, t) && user in t.accounts && !Repeats(t, user, problem, j)
    ensures var next := Settle(t, RecordJudgement(points, Db(t, t), user, problem, j, courses));
            && next.progress == TouchAll(t.progress, user, problem, Targets(courses), j)
            && (forall c :: c in Targets(courses) ==> ShowsRun(next.progress, user, problem, c, j))
            && forall c :: Attempts(next.progress, user, problem, c)
                        == Attempts(t.progress, user, problem, c) + multiset(Targets(courses))[c]
  {
    if Solves(j) {
      FirstSolvePays(points, t, user, problem, j, courses);
    }
    var next := Settle(t, RecordJudgement(points, Db(t, t), user, problem, j, courses));
    forall c | c in Targets(courses)
      ensures ShowsRun(next.progress, user, problem, c, j)
    {
      TargetShowsRun(t.progress, user, problem, Targets(courses), j, c);
    }
    forall c
      ensures Attempts(next.progress, user, problem, c)
           == Attempts(t.progress, user, problem, c) + multiset(Targets(courses))[c]
    {
      TargetAttempts(t.progress, user, problem, Targets(courses), j, c);
    }
  }

  /**
   * After an accepted submit the student's own row is solved. The rows of all courses are solved
   * exactly when the own row was not solved before, or every target row already was.
   */
  lemma AcceptedSubmitSolvesAllIff(
    points: PointTable, t: Tables, user: string, problem: string, j: Judgement, courses: seq<string>)
    requires Inv(points, t) && user in t.accounts && Solves(j)
    ensures var next := Handle(points, t, Judged(user, problem, j, courses));
            var targets := Targets(courses);
            && IsSolved(next.progress, user, problem)
            && (AllSolved(next.progress, user, problem, targets)
                <==> !IsSolved(t.progress, user, problem) || AllSolved(t.progress, user, problem, targets))
  {
    SolvedAfter(t, user, problem, j, courses, user, problem);
    if IsSolved(t.progress, user, problem) {
      RepeatedRun(points, t, user, problem, j, courses);
    } else {
      FirstSolvePays(points, t, user, problem, j, courses);
    }
    forall c | c in Targets(courses)
      ensures CourseSolved(TouchAll(t.progress, user, problem, Targets(courses), j), user, problem, c)
    {
      TargetStatus(t.progress, user, problem, Targets(courses), j, c);
    }
  }

  /** A judged run leaves the own row solved if it was, or if it is an accepted submit; passing a run solves nothing. */
  lemma OnlyAcceptedSubmitSolves(
    points: PointTable, t: Tables, user: string, problem: string, j: Judgement, courses: seq<string>)
    requires Inv(points, t) && user in t.accounts
    ensures IsSolved(Handle(points, t, Judged(user, problem, j, courses)).progress, user, problem) <==>
            IsSolved(t.progress, user, problem) || (j.status == Accepted && j.mode == SubmitMode)
  {
    if Repeats(t, user, problem, j) {
      RepeatedRun(points, t, user, problem, j, courses);
    } else {
      EffectiveRun(points, t, user, problem, j, courses);
      SolvedAfter(t, user, problem, j, courses, user, problem);
    }
  }

  /** The reward is paid at the first solve and never again. */
  lemma RewardPaidOnce(points: PointTable, t: Tables, user: string, problem: string, j: Judgement, courses: seq<string>)
    requires Inv(points, t) && user in t.accounts
    ensures var next := Handle(points, t, Judged(user, problem, j, courses));
            next.accounts[user].balance == t.accounts[user].balance
              + if Solves(j) && !IsSolved(t.progress, user, problem) then AcornsFor(points, problem) else 0
  {
    HandleKeeps(points, t, Judged(user, problem, j, courses));
    if Solves(j) && !IsSolved(t.progress, user, problem) {
      FirstSolvePays(points, t, user, problem, j, courses);
      RowAdds(t.ledger, RowFor(RewardPosting(points, user, problem), t.accounts[user]), user);
    } else if Solves(j) {
      RepeatedRun(points, t, user, problem, j, courses);
    }
  }

  /** The request is a run whose result the student's own row takes in. */
  predicate TakenIn(t: Tables, r: Request, user: string, problem: string) {
    && user in t.accounts && r.user == user
    && match r
       case Judged(_, p, j, _) => p == problem && !Repeats(t, user, problem, j)
       case LocalResult(_, p, _, _) => p == problem && !IsSolved(t.progress, user, problem)
       case _ => false
  }

  function RunsTakenIn(points: PointTable, requests: seq<Request>, user: string, problem: string): nat {
    if requests == [] then 0
    else
      var before := requests[..|requests| - 1];
      RunsTakenIn(points, before, user, problem)
        + if TakenIn(HandleAll(points, EMPTY, before), requests[|requests| - 1], user, problem) then 1 else 0
  }

  lemma {:induction false} NonEmptyCourses(courses: seq<string>, c: string)
    ensures multiset(NonEmpty(courses))[c] == if c == "" then 0 else multiset(courses)[c]
  {
    if courses != [] {
      var init, last := courses[..|courses| - 1], courses[|courses| - 1];
      NonEmptyCourses(init, c);
      assert courses == init + [last];
    }
  }

  /** The rows a judged run updates: the own row once, and the row of every course as often as it is named. */
  lemma TargetsAre(courses: seq<string>, c: string)
    ensures multiset(Targets(courses))[c] == if c == "" then 1 else multiset(courses)[c]
    ensures c in Targets(courses) <==> c == "" || c in courses
  {
    NonEmptyCourses(courses, c);
    assert multiset(Targets(courses)) == multiset{""} + multiset(NonEmpty(courses));
    assert c in Targets(courses) <==> c in multiset(Targets(courses));
    assert c in courses <==> c in multiset(courses);
  }

  /** Runs of other users and problems do not count. */
  lemma OtherRunsDoNotCount(
    points: PointTable, t: Tables, user: string, problem: string, j: Judgement, courses: seq<string>,
    u: string, p: string)
    requires Inv(points, t) && user in t.accounts && (user != u || problem != p)
    ensures Attempts(Settle(t, RecordJudgement(points, Db(t, t), user, problem, j, courses)).progress, u, p, "")
         == Attempts(t.progress, u, p, "")
  {
    OtherSlotsUntouched(t.progress, user, problem, Targets(courses), j, Slot(u, p, ""));
    if Repeats(t, user, problem, j) {
      RepeatedRun(points, t, user, problem, j, courses);
    } else {
      EffectiveRun(points, t, user, problem, j, courses);
    }
  }

  lemma {:induction false} CheckpointKeepsAttempts(
    progress: ProgressTable, user: string, problem: string, courses: seq<string>, code: string, now: int,
    u: string, p: string)
    ensures Attempts(CheckpointAll(progress, user, problem, courses, code, now), u, p, "")
         == Attempts(progress, u, p, "")
  {
    if courses != [] {
      CheckpointKeepsAttempts(progress, user, problem, courses[..|courses| - 1], code, now, u, p);
    }
  }

  lemma RunCounts(
    points: PointTable, t: Tables, user: string, problem: string, j: Judgement, courses: seq<string>,
    u: string, p: string)
    requires Inv(points, t) && user in t.accounts
    ensures Attempts(Settle(t, RecordJudgement(points, Db(t, t), user, problem, j, courses)).progress, u, p, "")
         == Attempts(t.progress, u, p, "")
              + if user == u && problem == p && !Repeats(t, user, problem, j) then 1 else 0
  {
    if user != u || problem != p {
      OtherRunsDoNotCount(points, t, user, problem, j, courses, u, p);
    } else if Repeats(t, user, problem, j) {
      RepeatedRun(points, t, user, problem, j, courses);
    } else {
      EffectiveRun(points, t, user, problem, j, courses);
      TargetsAre(courses, "");
    }
  }

  lemma RequestCounts(points: PointTable, t: Tables, r: Request, user: string, problem: string)
    requires Inv(points, t)
    ensures Attempts(Handle(points, t, r).progress, user, problem, "")
         == Attempts(t.progress, user, problem, "") + if TakenIn(t, r, user, problem) then 1 else 0
  {
    if !r.Signup? && r.user in t.accounts {
      match r
      case Judged(u, p, j, courses) => RunCounts(points, t, u, p, j, courses, user, problem);
      case LocalResult(u, p, j, courses) => RunCounts(points, t, u, p, j, courses, user, problem);
      case Checkpoint(u, p, code, courses, at) =>
        CheckpointKeepsAttempts(t.progress, u, p, courses, code, at, user, problem);
      case _ =>
    }
  }

  /**
   * In every committed state the attempt count of the student's own row is the number of judged runs,
   * without the accepted submits made after the problem was solved.
   */
  lemma {:induction false} AttemptsAreRunsTakenIn(
    points: PointTable, requests: seq<Request>, user: string, problem: string)
    requires forall i :: 0 <= i < |requests| ==> WellFormed(requests[i])
    ensures Attempts(HandleAll(points, EMPTY, requests).progress, user, problem, "")
         == RunsTakenIn(points, requests, user, problem)
  {
    if requests != [] {
      var before := requests[..|requests| - 1];
      AttemptsAreRunsTakenIn(points, before, user, problem);
      RunKeeps(points, before);
      RequestCounts(points, HandleAll(points, EMPTY, before), requests[|requests| - 1], user, problem);
    }
  }

  /** Sign up, solve for all courses, submit again: the second accepted submit leaves no trace and is not counted. */
  lemma ResubmissionIsLost(
    points: PointTable, user: string, problem: string, courses: seq<string>, first: Judgement, second: Judgement)
    requires IsId(user) && Solves(first) && Solves(second)
    ensures var a, b, c := Signup(user), Judged(user, problem, first, courses), Judged(user, problem, second, courses);
            var t := HandleAll(points, EMPTY, [a, b, c]);
            && t == HandleAll(points, EMPTY, [a, b])
            && AllSolved(t.progress, user, problem, Targets(courses))
            && Attempts(t.progress, user, problem, "") == 1
  {
    var a, b, c := Signup(user), Judged(user, problem, first, courses), Judged(user, problem, second, courses);
    var joined := Handle(points, EMPTY, a);
    HandleKeeps(points, EMPTY, a);
    AcceptedSubmitSolvesAllIff(points, joined, user, problem, first, courses);
    RunCounts(points, joined, user, problem, first, courses, user, problem);
    var solved := Handle(points, joined, b);
    HandleKeeps(points, joined, b);
    RunTakesEffectIff(points, solved, user, problem, second, courses);
    HandleTwo(points, EMPTY, a, b);
    HandleThree(points, EMPTY, a, b, c);
  }

  /** A first solve outside any course touches the student's own row only. */
  lemma SoloSolve(points: PointTable, t: Tables, user: string, problem: string, course: string, j: Judgement)
    requires Inv(points, t) && user in t.accounts && Solves(j) && t.progress == map[] && course != ""
    ensures var next := Handle(points, t, Judged(user, problem, j, []));
            && Inv(points, next) && user in next.accounts
            && IsSolved(next.progress, user, problem) && Slot(user, problem, course) !in next.progress
  {
    PaidRunKeeps(points, t, user, problem, j, []);
    FirstSolvePays(points, t, user, problem, j, []);
    assert Targets([]) == [""];
    assert [""][..0] == [];
  }

  /** Sign up, solve alone, join a course, submit again: the course row never appears. */
  lemma CourseRowLost(points: PointTable, user: string, problem: string, course: string, j: Judgement)
    requires IsId(user) && Solves(j) && course != ""
    ensures var t := HandleAll(points, EMPTY,
                               [Signup(user), Judged(user, problem, j, []), Judged(user, problem, j, [course])]);
            IsSolved(t.progress, user, problem) && Slot(user, problem, course) !in t.progress
  {
    var a, b, c := Signup(user), Judged(user, problem, j, []), Judged(user, problem, j, [course]);
    var joined := Handle(points, EMPTY, a);
    HandleKeeps(points, EMPTY, a);
    SoloSolve(points, joined, user, problem, course, j);
    RunTakesEffectIff(points, Handle(points, joined, b), user, problem, j, [course]);
    HandleThree(points, EMPTY, a, b, c);
  }

  lemma HandleOneMore(points: PointTable, t: Tables, requests: seq<Request>, r: Request)
    ensures HandleAll(points, t, requests + [r]) == Handle(points, HandleAll(points, t, requests), r)
  {
    assert (requests + [r])[..|requests|] == requests;
  }

  lemma HandleTwo(points: PointTable, t: Tables, a: Request, b: Request)
    ensures HandleAll(points, t, [a, b]) == Handle(points, Handle(points, t, a), b)
  {
    HandleOneMore(points, t, [], a);
    HandleOneMore(points, t, [a], b);
    assert [] + [a] == [a] && [a] + [b] == [a, b];
  }

  lemma HandleThree(points: PointTable, t: Tables, a: Request, b: Request, c: Request)
    ensures HandleAll(points, t, [a, b, c]) == Handle(points, Handle(points, Handle(points, t, a), b), c)
  {
    HandleTwo(points, t, a, b);
    HandleOneMore(points, t, [a, b], c);
    assert [a, b] + [c] == [a, b, c];
  }
}
