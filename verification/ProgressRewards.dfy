/**
 * Progress rows and the one-time reward: what a judged run does to the progress table and the
 * ledger inside one transaction. The code compares a row's status by identity with the enum member.
 * The column is plain text, so only a status that the running request has assigned itself can pass
 * such a test; a status read back from the table never does.
 */
module ProgressRewards {
  import opened Prelude
  import opened TraceTypes
  import opened AcornLedger

  datatype ProgressStatus = NotStarted | InProgress | Solved

  /** A progress row per user, problem and course; the empty course is the student's own. */
  datatype Slot = Slot(user: string, problem: string, course: string)

  datatype ProgressRow = ProgressRow(
    status: ProgressStatus, currentCode: string, bestPassed: nat, totalTests: nat, attemptCount: nat,
    lastJudgeStatus: Option<JudgeStatus>, lastSubmittedCode: string, lastSubmittedAt: Option<int>,
    firstStartedAt: int, lastAttemptedAt: Option<int>, solvedAt: Option<int>, updatedAt: int)

  type ProgressTable = map<Slot, ProgressRow>

  datatype Tables = Tables(accounts: map<string, Account>, ledger: seq<Transaction>, progress: ProgressTable)

  /** The tables as the running transaction sees them, and as last committed. */
  datatype Db = Db(work: Tables, committed: Tables)

  /** What the server's judge said about one run. */
  datatype Judgement = Judgement(status: JudgeStatus, passed: nat, total: nat, code: string, mode: Mode, at: int)

  // ------------------------------------------------------------------ posting

  /** A ledger posting as requested; `allowNegative` lifts the balance check. */
  datatype Posting = Posting(
    user: string, amount: int, kind: TransactionType, reference: Option<string>, key: Option<string>,
    allowNegative: bool)

  function RowFor(p: Posting, a: Account): Transaction {
    Transaction(p.user, p.amount, a.balance + p.amount, p.kind, p.reference, p.key)
  }

  /**
   * Add one row and move the balance. A taken key is no error: the transaction falls back to the
   * last commit, with everything it had done so far.
   */
  function Post(db: Db, p: Posting): (Db, Result<Option<Transaction>, LedgerError>) {
    if p.amount == 0 then (db, Ok(None))
    else if p.user !in db.work.accounts then (db, Err(UserNotFound))
    else
      var a := db.work.accounts[p.user];
      if p.amount < 0 && !p.allowNegative && a.balance + p.amount < 0 then
        (db, Err(InsufficientAcorns(-p.amount, a.balance)))
      else if p.key.Some? && HasKey(db.work.ledger, p.key.value) then (db.(work := db.committed), Ok(None))
      else
        var tx := RowFor(p, a);
        var accounts := db.work.accounts[p.user := Credit(a, p.amount)];
        (db.(work := db.work.(accounts := accounts, ledger := db.work.ledger + [tx])), Ok(Some(tx)))
  }

  // ------------------------------------------------------------------ progress rows

  function NewRow(now: int): ProgressRow {
    ProgressRow(InProgress, "", 0, 0, 0, None, "", None, now, None, None, now)
  }

  /** Create the row if it is missing. */
  function Ensured(progress: ProgressTable, slot: Slot, now: int): ProgressRow {
    if slot in progress then progress[slot] else NewRow(now)
  }

  /** Only an accepted submit solves; a passing run does not. */
  predicate Solves(j: Judgement) {
    j.status == Accepted && j.mode == SubmitMode
  }

  /** One row after one judged run. */
  function Touched(row: ProgressRow, j: Judgement): (r: ProgressRow)
    ensures r.attemptCount == row.attemptCount + 1
    ensures r.status == if Solves(j) then Solved else row.status
    ensures r.bestPassed >= row.bestPassed
    ensures row.solvedAt.Some? ==> r.solvedAt == row.solvedAt
    ensures Solves(j) && row.solvedAt.None? ==> r.solvedAt == Some(j.at)
    ensures !Solves(j) ==> r.solvedAt == row.solvedAt
    ensures r.updatedAt == j.at
    ensures j.code == "" ==> r.currentCode == row.currentCode && r.lastSubmittedCode == row.lastSubmittedCode
    ensures j.code != "" ==> r.currentCode == j.code
    ensures r.lastSubmittedAt != row.lastSubmittedAt ==>
              j.mode == SubmitMode && r.lastSubmittedCode == j.code == r.currentCode
    ensures j.mode == SubmitMode && j.code != "" ==>
              r.lastSubmittedCode == j.code && r.lastSubmittedAt == Some(j.at)
    ensures j.mode == RunMode ==>
              r.lastSubmittedCode == row.lastSubmittedCode && r.lastSubmittedAt == row.lastSubmittedAt
    ensures if j.total > 0 then r.totalTests == j.total && r.bestPassed == Max(row.bestPassed, j.passed)
            else r.totalTests == row.totalTests && r.bestPassed == row.bestPassed
    ensures r.lastJudgeStatus == Some(j.status) && r.lastAttemptedAt == Some(j.at)
    ensures r.firstStartedAt == row.firstStartedAt
  {
    ProgressRow(
      if Solves(j) then Solved else row.status,
      if j.code != "" then j.code else row.currentCode,
      if j.total > 0 && j.passed > row.bestPassed then j.passed else row.bestPassed,
      if j.total > 0 then j.total else row.totalTests,
      row.attemptCount + 1,
      Some(j.status),
      if j.code != "" && j.mode == SubmitMode then j.code else row.lastSubmittedCode,
      if j.code != "" && j.mode == SubmitMode then Some(j.at) else row.lastSubmittedAt,
      row.firstStartedAt,
      Some(j.at),
      if Solves(j) && row.solvedAt.None? then Some(j.at) else row.solvedAt,
      j.at)
  }

  /** The student's own row first, then one per course. */
  function Targets(courses: seq<string>): (targets: seq<string>)
    ensures targets != [] && targets[0] == ""
  {
    [""] + NonEmpty(courses)
  }

  function NonEmpty(courses: seq<string>): seq<string> {
    if courses == [] then []
    else
      var rest := NonEmpty(courses[..|courses| - 1]);
      if courses[|courses| - 1] != "" then rest + [courses[|courses| - 1]] else rest
  }

  /** All target rows after one judged run. */
  function TouchAll(progress: ProgressTable, user: string, problem: string, targets: seq<string>, j: Judgement)
    : ProgressTable
  {
    if targets == [] then progress
    else
      var before := TouchAll(progress, user, problem, targets[..|targets| - 1], j);
      var slot := Slot(user, problem, targets[|targets| - 1]);
      before[slot := Touched(Ensured(before, slot, j.at), j)]
  }

  function RewardPosting(points: PointTable, user: string, problem: string): Posting {
    Posting(user, AcornsFor(points, problem), ProblemSolved, Some(problem), Some(SolvedKey(user, problem)), false)
  }

  /** Update every target row; every accepted submit then asks for the reward, the first one or not. */
  function RecordJudgement(
    points: PointTable, db: Db, user: string, problem: string, j: Judgement, courses: seq<string>)
    : (Db, Result<int, LedgerError>)
  {
    var touched := db.(work := db.work.(progress := TouchAll(db.work.progress, user, problem, Targets(courses), j)));
    if Solves(j) then
      var (posted, r) := Post(touched, RewardPosting(points, user, problem));
      (posted, if r.Err? then Err(r.error) else Ok(if r.value.Some? then r.value.value.amount else 0))
    else (touched, Ok(0))
  }

  /** Saving code leaves the status alone. */
  function Checkpointed(progress: ProgressTable, slot: Slot, code: string, now: int): ProgressTable {
    progress[slot := Ensured(progress, slot, now).(currentCode := code, updatedAt := now)]
  }

  function CheckpointAll(
    progress: ProgressTable, user: string, problem: string, courses: seq<string>, code: string, now: int): ProgressTable
  {
    if courses == [] then Checkpointed(progress, Slot(user, problem, ""), code, now)
    else
      Checkpointed(CheckpointAll(progress, user, problem, courses[..|courses| - 1], code, now),
                   Slot(user, problem, courses[|courses| - 1]), code, now)
  }

  /** The columns every judged run updates, solved or not. */
  method CountRun(before: ProgressRow, j: Judgement) returns (row: ProgressRow)
    ensures row == Touched(before, j).(status := before.status, solvedAt := before.solvedAt)
  {
    row := before.(attemptCount := before.attemptCount + 1, lastAttemptedAt := Some(j.at),
                   lastJudgeStatus := Some(j.status), updatedAt := j.at);
    if j.code != "" {
      row := row.(currentCode := j.code);
      if j.mode == SubmitMode {
        row := row.(lastSubmittedCode := j.code, lastSubmittedAt := Some(j.at));
      }
    }
    if j.total > 0 && j.passed > row.bestPassed {
      row := row.(bestPassed := j.passed);
    }
    if j.total > 0 {
      row := row.(totalTests := j.total);
    }
  }

  // ------------------------------------------------------------------ the database as the code writes it

  /**
   * The database session of one request: the running transaction, the last commit, and the statuses
   * this request has assigned, which its row objects hold as enum members until they expire.
   */
  class Database {
    var work: Tables
    var committed: Tables
    var held: map<Slot, ProgressStatus>

    function View(): Db
      reads `work, `committed
    {
      Db(work, committed)
    }

    /** The identity test: the row object holds the very member, not its text. */
    predicate StatusIs(slot: Slot, status: ProgressStatus)
      reads `held
    {
      slot in held && held[slot] == status
    }

    /** No row object holds the member for "not started". */
    predicate NoneNotStarted()
      reads `held
    {
      forall slot :: slot in held ==> held[slot] != NotStarted
    }

    constructor (tables: Tables)
      ensures View() == Db(tables, tables) && held == map[]
    {
      work, committed, held := tables, tables, map[];
    }

    /** Row objects expire: what they hold is read again. */
    method Commit()
      modifies `committed, `held
      ensures View() == Db(work, work) && held == map[]
    {
      committed, held := work, map[];
    }

    method Rollback()
      modifies `work, `held
      ensures View() == Db(committed, committed) && held == map[]
    {
      work, held := committed, map[];
    }

    /** Insert first, then let the flush find the clash and roll everything back. */
    method PostRow(p: Posting) returns (r: Result<Option<Transaction>, LedgerError>)
      modifies `work, `held
      ensures (View(), r) == Post(old(View()), p)
      ensures held == old(held) || held == map[]
    {
      if p.amount == 0 {
        return Ok(None);
      }
      if p.user !in work.accounts {
        return Err(UserNotFound);
      }
      var account := work.accounts[p.user];
      if p.amount < 0 && !p.allowNegative && account.balance + p.amount < 0 {
        return Err(InsufficientAcorns(-p.amount, account.balance));
      }
      var before := work.ledger;
      var newBalance := account.balance + p.amount;
      var tx := Transaction(p.user, p.amount, newBalance, p.kind, p.reference, p.key);
      work := work.(ledger := work.ledger + [tx]);
      account := account.(balance := newBalance);
      if p.amount > 0 {
        account := account.(earned := account.earned + p.amount);
      }
      work := work.(accounts := work.accounts[p.user := account]);
      if p.key.Some? && HasKey(before, p.key.value) {
        Rollback();
        return Ok(None);
      }
      r := Ok(Some(tx));
    }

    method EnsureRow(slot: Slot, now: int) returns (row: ProgressRow)
      modifies `work, `held
      ensures row == Ensured(old(work.progress), slot, now)
      ensures work == old(work).(progress := old(work.progress)[slot := row])
      ensures held == if slot in old(work.progress) then old(held) else old(held)[slot := InProgress]
    {
      if slot in work.progress {
        assert work.progress[slot := work.progress[slot]] == work.progress;
        return work.progress[slot];
      }
      row := NewRow(now);
      work := work.(progress := work.progress[slot := row]);
      held := held[slot := row.status];
    }

    /** A row started here turns from not started to in progress; no request assigns "not started". */
    method SaveCheckpoint(slot: Slot, code: string, now: int)
      modifies `work, `held
      ensures var saved := Checkpointed(old(work.progress), slot, code, now);
              var row := if old(StatusIs(slot, NotStarted)) && slot in old(work.progress)
                         then saved[slot].(status := InProgress) else saved[slot];
              work == old(work).(progress := saved[slot := row])
      ensures held == if slot !in old(work.progress) || old(StatusIs(slot, NotStarted))
                      then old(held)[slot := InProgress] else old(held)
    {
      ghost var table := work.progress;
      var row := EnsureRow(slot, now);
      row := row.(currentCode := code, updatedAt := now);
      if StatusIs(slot, NotStarted) {
        row := row.(status := InProgress);
        held := held[slot := InProgress];
      }
      work := work.(progress := work.progress[slot := row]);
      assert work.progress == table[slot := row];
      assert Checkpointed(table, slot, code, now)[slot := row] == table[slot := row];
    }

    /** One target row; tells whether the identity test took it for unsolved. */
    method TouchRow(slot: Slot, j: Judgement) returns (unsolved: bool)
      modifies `work, `held
      ensures work == old(work).(progress :=
                old(work.progress)[slot := Touched(Ensured(old(work.progress), slot, j.at), j)])
      ensures unsolved <==> Solves(j) && !(slot in old(work.progress) && old(StatusIs(slot, Solved)))
      ensures held == if Solves(j) then old(held)[slot := Solved]
                      else if slot in old(work.progress) then old(held) else old(held)[slot := InProgress]
    {
      ghost var table := work.progress;
      unsolved := false;
      var row := EnsureRow(slot, j.at);
      row := CountRun(row, j);
      if j.status == Accepted && j.mode == SubmitMode {
        unsolved := !StatusIs(slot, Solved);
        row := row.(status := Solved);
        held := held[slot := Solved];
        if row.solvedAt.None? {
          row := row.(solvedAt := Some(j.at));
        }
      }
      work := work.(progress := work.progress[slot := row]);
      assert work.progress == table[slot := row];
    }

    method Record(points: PointTable, user: string, problem: string, j: Judgement, courses: seq<string>)
      returns (r: Result<int, LedgerError>)
      requires !StatusIs(Slot(user, problem, ""), Solved)
      modifies `work, `held
      ensures (View(), r) == RecordJudgement(points, old(View()), user, problem, j, courses)
    {
      var targets := Targets(courses);
      var firstSolve := false;
      for i := 0 to |targets|
        invariant work == old(work).(progress := TouchAll(old(work.progress), user, problem, targets[..i], j))
        invariant firstSolve <==> Solves(j) && i > 0
        invariant i == 0 ==> held == old(held)
      {
        assert targets[..i + 1][..i] == targets[..i];
        var unsolved := TouchRow(Slot(user, problem, targets[i]), j);
        if unsolved {
          firstSolve := true;
        }
      }
      assert targets[..|targets|] == targets;
      r := Ok(0);
      if j.status == Accepted && j.mode == SubmitMode && firstSolve {
        var posted := PostRow(RewardPosting(points, user, problem));
        match posted
        case Err(e) => r := Err(e);
        case Ok(tx) => r := Ok(if tx.Some? then tx.value.amount else 0);
      }
    }
  }
}
