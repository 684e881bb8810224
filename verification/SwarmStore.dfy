/** The controller's store: tasks, branches, attempts and append-only evidence.
    UUIDs are numbers drawn from a counter; a method either commits one transition
    or raises and leaves every row as it was. */
module SwarmStore {

  datatype BranchStatus = Queued | Running | Evaluating | Promoted | Pruned
  datatype AttemptStatus = Open | Completed | Failed | Cancelled
  // `Unlisted` stands for any string the table's CHECK refuses.
  datatype Kind = Test | Build | Benchmark | Static | Harness | Model | Unlisted

  datatype TaskStatus = TaskCreated | TaskPlanned | TaskRunning | TaskComplete | TaskFailed

  datatype Task = Task(maxBranches: int, status: TaskStatus)
  datatype Branch = Branch(task: nat, status: BranchStatus)
  datatype Attempt = Attempt(branch: nat, ordinal: nat, status: AttemptStatus)
  datatype Evidence = Evidence(attempt: nat, kind: Kind, exitCode: int, durationMs: int, improvementPct: real)

  datatype Db = Db(tasks: map<nat, Task>, branches: map<nat, Branch>, attempts: map<nat, Attempt>,
                   evidence: seq<Evidence>, next: nat)

  datatype Reply = Raised | Done(id: nat)
  datatype Result = Result(db: Db, reply: Reply)

  const EMPTY: Db := Db(map[], map[], map[], [], 0)
  const SHA256_HEX: nat := 64

  // An integer SQLite can bind; any other raises.
  predicate IsInt64(x: int) { -0x8000_0000_0000_0000 <= x < 0x8000_0000_0000_0000 }

  /* ---- Queries ---- */

  function BranchesOf(db: Db, task: nat): set<nat> {
    set b | b in db.branches && db.branches[b].task == task
  }

  function AttemptsOf(db: Db, branch: nat): set<nat> {
    set a | a in db.attempts && db.attempts[a].branch == branch
  }

  function OpenAttempts(db: Db, branch: nat): set<nat> {
    set a | a in db.attempts && db.attempts[a].branch == branch && db.attempts[a].status.Open?
  }

  predicate BelongsTo(db: Db, e: Evidence, branch: nat) {
    e.attempt in db.attempts && db.attempts[e.attempt].branch == branch
  }

  function Select(db: Db, evidence: seq<Evidence>, branch: nat): (r: seq<Evidence>)
    ensures forall e :: e in r <==> e in evidence && BelongsTo(db, e, branch)
  {
    if evidence == [] then []
    else
      var n := |evidence| - 1;
      var front := Select(db, evidence[..n], branch);
      assert evidence == evidence[..n] + [evidence[n]];
      if BelongsTo(db, evidence[n], branch) then front + [evidence[n]] else front
  }

  // The join of `branch_evidence`.
  function BranchEvidence(db: Db, branch: nat): seq<Evidence> {
    Select(db, db.evidence, branch)
  }

  function PassedKinds(evidence: seq<Evidence>): set<Kind> {
    set e | e in evidence && e.exitCode == 0 :: e.kind
  }

  function FailedKinds(evidence: seq<Evidence>): set<Kind> {
    set e | e in evidence && e.exitCode != 0 :: e.kind
  }

  const REQUIRED: set<Kind> := {Static, Test}

  // COALESCE(MAX(ordinal), 0) + 1 over the branch's attempts.
  ghost predicate IsNextOrdinal(db: Db, branch: nat, next: nat) {
    && 0 < next
    && (forall a | a in AttemptsOf(db, branch) :: db.attempts[a].ordinal < next)
    && (next == 1 || exists a :: a in AttemptsOf(db, branch) && db.attempts[a].ordinal == next - 1)
  }

  lemma {:induction false} NextOrdinalExists(db: Db, branch: nat, within: set<nat>) returns (next: nat)
    requires within <= AttemptsOf(db, branch)
    ensures 0 < next && forall a | a in within :: db.attempts[a].ordinal < next
    ensures next == 1 || exists a :: a in within && db.attempts[a].ordinal == next - 1
  {
    if within == {} {
      next := 1;
    } else {
      var a :| a in within;
      next := NextOrdinalExists(db, branch, within - {a});
      if next <= db.attempts[a].ordinal { next := db.attempts[a].ordinal + 1; }
    }
  }

  ghost function NextOrdinal(db: Db, branch: nat): (next: nat)
    ensures IsNextOrdinal(db, branch, next)
  {
    assert exists n :: IsNextOrdinal(db, branch, n) by {
      var n := NextOrdinalExists(db, branch, AttemptsOf(db, branch));
      assert IsNextOrdinal(db, branch, n);
    }
    var n :| IsNextOrdinal(db, branch, n);
    n
  }

  /* ---- Transitions ---- */

  datatype FinalStatus = Final(status: AttemptStatus) | UnknownStatus

  datatype Op =
    | CreateTask(textsOk: bool, maxBranches: int)
    | CreateBranch(task: nat, textsOk: bool)
    | CreateAttempt(branch: nat)
    | AppendEvidence(attempt: nat, kind: Kind, exitCode: int, durationMs: int, shaLength: nat, improvementPct: real)
    | FinishAttempt(attempt: nat, final: FinalStatus)
    | Promote(branch: nat)

  ghost predicate Accepts(db: Db, op: Op) {
    match op
    case CreateTask(textsOk, maxBranches) => textsOk && 1 <= maxBranches <= 8
    case CreateBranch(task, textsOk) =>
      task in db.tasks && db.tasks[task].status !in {TaskComplete, TaskFailed} && |BranchesOf(db, task)| < db.tasks[task].maxBranches && textsOk
    case CreateAttempt(branch) =>
      branch in db.branches && db.branches[branch].status in {Queued, Running, Evaluating}
    case AppendEvidence(attempt, kind, exitCode, durationMs, shaLength, _) =>
      && attempt in db.attempts && db.attempts[attempt].status.Open? && shaLength == SHA256_HEX
      && IsInt64(exitCode) && IsInt64(durationMs) && kind != Unlisted && durationMs >= 0
    case FinishAttempt(attempt, final) =>
      final.Final? && final.status != Open && attempt in db.attempts && db.attempts[attempt].status.Open?
    case Promote(branch) =>
      branch in db.branches && db.branches[branch].status == Evaluating && REQUIRED <= PassedKinds(BranchEvidence(db, branch))
  }

  function WithStatus(branches: map<nat, Branch>, b: nat, status: BranchStatus): map<nat, Branch> {
    if b in branches then branches[b := branches[b].(status := status)] else branches
  }

  ghost function Commit(db: Db, op: Op): Db
    requires Accepts(db, op)
  {
    match op
    case CreateTask(_, maxBranches) =>
      db.(tasks := db.tasks[db.next := Task(maxBranches, TaskCreated)], next := db.next + 1)
    case CreateBranch(task, _) =>
      db.(branches := db.branches[db.next := Branch(task, Queued)], next := db.next + 1,
          tasks := db.tasks[task := db.tasks[task].(status := TaskPlanned)])
    case CreateAttempt(branch) =>
      db.(attempts := db.attempts[db.next := Attempt(branch, NextOrdinal(db, branch), Open)],
          branches := WithStatus(db.branches, branch, Running), next := db.next + 1)
    case AppendEvidence(attempt, kind, exitCode, durationMs, _, improvementPct) =>
      db.(evidence := db.evidence + [Evidence(attempt, kind, exitCode, durationMs, improvementPct)])
    case FinishAttempt(attempt, final) =>
      var a := db.attempts[attempt];
      db.(attempts := db.attempts[attempt := a.(status := final.status)],
          branches := WithStatus(db.branches, a.branch, if final.status == Completed then Evaluating else Pruned))
    case Promote(branch) =>
      db.(branches := WithStatus(db.branches, branch, Promoted))
  }

  function IdOf(db: Db, op: Op): nat {
    match op
    case CreateTask(_, _) | CreateBranch(_, _) | CreateAttempt(_) => db.next
    case AppendEvidence(_, _, _, _, _, _) => |db.evidence|
    case FinishAttempt(attempt, _) => attempt
    case Promote(branch) => branch
  }

  ghost function Apply(db: Db, op: Op): Result {
    if Accepts(db, op) then Result(Commit(db, op), Done(IdOf(db, op))) else Result(db, Raised)
  }

  /* ---- The store object ---- */

  class SwarmStore {
    var tasks: map<nat, Task>
    var branches: map<nat, Branch>
    var attempts: map<nat, Attempt>
    var evidence: seq<Evidence>
    var next: nat

    ghost function View(): Db
      reads this
    {
      Db(tasks, branches, attempts, evidence, next)
    }

    constructor ()
      ensures View() == EMPTY
    {
      tasks, branches, attempts, evidence, next := map[], map[], map[], [], 0;
    }

    method CreateTask(textsOk: bool, maxBranches: int) returns (reply: Reply)
      modifies this
      ensures Result(View(), reply) == Apply(old(View()), Op.CreateTask(textsOk, maxBranches))
    {
      if !textsOk { return Raised; }
      if !(1 <= maxBranches <= 8) { return Raised; }
      reply := Done(next);
      tasks, next := tasks[next := Task(maxBranches, TaskCreated)], next + 1;
    }

    method CreateBranch(task: nat, textsOk: bool) returns (reply: Reply)
      modifies this
      ensures Result(View(), reply) == Apply(old(View()), Op.CreateBranch(task, textsOk))
    {
      if task !in tasks { return Raised; }
      if tasks[task].status in {TaskComplete, TaskFailed} { return Raised; }
      if |BranchesOf(Db(tasks, branches, attempts, evidence, next), task)| >= tasks[task].maxBranches { return Raised; }
      if !textsOk { return Raised; }
      reply := Done(next);
      branches, next := branches[next := Branch(task, Queued)], next + 1;
      tasks := tasks[task := tasks[task].(status := TaskPlanned)];
    }

    // The aggregate query, over the rows in any order.
    method SelectNextOrdinal(branch: nat) returns (ordinal: nat)
      ensures ordinal == NextOrdinal(View(), branch)
    {
      var rows := set a | a in attempts && attempts[a].branch == branch;
      var pending := rows;
      ordinal := 1;
      while pending != {}
        invariant pending <= rows && 0 < ordinal
        invariant forall a | a in rows - pending :: attempts[a].ordinal < ordinal
        invariant ordinal == 1 || exists a :: a in rows && attempts[a].ordinal == ordinal - 1
        decreases |pending|
      {
        var a :| a in pending;
        if attempts[a].ordinal >= ordinal { ordinal := attempts[a].ordinal + 1; }
        pending := pending - {a};
      }
      NextOrdinalUnique(View(), branch, ordinal);
    }

    method CreateAttempt(branch: nat) returns (reply: Reply)
      modifies this
      ensures Result(View(), reply) == Apply(old(View()), Op.CreateAttempt(branch))
    {
      if branch !in branches { return Raised; }
      if branches[branch].status !in {Queued, Running, Evaluating} { return Raised; }
      var ordinal := SelectNextOrdinal(branch);
      reply := Done(next);
      attempts, next := attempts[next := Attempt(branch, ordinal, Open)], next + 1;
      branches := WithStatus(branches, branch, Running);
    }

    method AppendEvidence(attempt: nat, kind: Kind, exitCode: int, durationMs: int, shaLength: nat, improvementPct: real) returns (reply: Reply)
      modifies this
      ensures Result(View(), reply) == Apply(old(View()), Op.AppendEvidence(attempt, kind, exitCode, durationMs, shaLength, improvementPct))
    {
      if attempt !in attempts { return Raised; }
      if !attempts[attempt].status.Open? { return Raised; }
      if shaLength != SHA256_HEX { return Raised; }
      if !IsInt64(exitCode) || !IsInt64(durationMs) { return Raised; }
      if kind == Unlisted || durationMs < 0 { return Raised; }  // CHECK constraints
      reply := Done(|evidence|);
      evidence := evidence + [Evidence(attempt, kind, exitCode, durationMs, improvementPct)];
    }

    method FinishAttempt(attempt: nat, final: FinalStatus) returns (reply: Reply)
      modifies this
      ensures Result(View(), reply) == Apply(old(View()), Op.FinishAttempt(attempt, final))
    {
      if final.UnknownStatus? || final.status == Open { return Raised; }
      if attempt !in attempts { return Raised; }
      if !attempts[attempt].status.Open? { return Raised; }
      var branch := attempts[attempt].branch;
      var branchStatus := if final.status == Completed then Evaluating else Pruned;
      reply := Done(attempt);
      attempts := attempts[attempt := attempts[attempt].(status := final.status)];
      branches := WithStatus(branches, branch, branchStatus);
    }

    method Promote(branch: nat) returns (reply: Reply)
      modifies this
      ensures Result(View(), reply) == Apply(old(View()), Op.Promote(branch))
      ensures reply.Done? <==>
          && branch in old(branches) && old(branches)[branch].status == Evaluating
          && (exists i :: 0 <= i < |old(evidence)| && old(evidence)[i].kind == Static && old(evidence)[i].exitCode == 0
                          && old(evidence)[i].attempt in old(attempts) && old(attempts)[old(evidence)[i].attempt].branch == branch)
          && (exists i :: 0 <= i < |old(evidence)| && old(evidence)[i].kind == Test && old(evidence)[i].exitCode == 0
                          && old(evidence)[i].attempt in old(attempts) && old(attempts)[old(evidence)[i].attempt].branch == branch)
    {
      PromoteAcceptsIff(View(), branch);
      if branch !in branches { return Raised; }
      if branches[branch].status != Evaluating { return Raised; }
      var records := BranchEvidence(Db(tasks, branches, attempts, evidence, next), branch);
      if !(REQUIRED <= PassedKinds(records)) { return Raised; }
      reply := Done(branch);
      branches := WithStatus(branches, branch, Promoted);
    }
  }

  /** When the store takes a task, a branch, an attempt, evidence, or the end of an attempt. */
  lemma AcceptsIff(db: Db, task: nat, branch: nat, attempt: nat, textsOk: bool, n: int, kind: Kind, exitCode: int, durationMs: int,
                   shaLength: nat, pct: real, final: FinalStatus)
    ensures Accepts(db, CreateTask(textsOk, n)) <==> textsOk && n in {1, 2, 3, 4, 5, 6, 7, 8}
    ensures Accepts(db, CreateBranch(task, textsOk))
            <==> && task in db.tasks && db.tasks[task].status != TaskComplete && db.tasks[task].status != TaskFailed
                 && |set b | b in db.branches && db.branches[b].task == task| < db.tasks[task].maxBranches && textsOk
    ensures Accepts(db, CreateAttempt(branch))
            <==> branch in db.branches && db.branches[branch].status != Promoted && db.branches[branch].status != Pruned
    ensures Accepts(db, AppendEvidence(attempt, kind, exitCode, durationMs, shaLength, pct))
            <==> && attempt in db.attempts && db.attempts[attempt].status == Open && shaLength == 64 && kind != Unlisted
                 && -9_223_372_036_854_775_808 <= exitCode <= 9_223_372_036_854_775_807
                 && 0 <= durationMs <= 9_223_372_036_854_775_807
    ensures Accepts(db, FinishAttempt(attempt, final))
            <==> && attempt in db.attempts && db.attempts[attempt].status == Open
                 && (final == Final(Completed) || final == Final(Failed) || final == Final(Cancelled))
  {
    assert BranchesOf(db, task) == set b | b in db.branches && db.branches[b].task == task;
  }

  /** A passing kind of a branch is one row of the evidence table: of that kind, with exit
      code 0, and with an attempt of that branch. */
  lemma {:induction false} PassedKindIff(db: Db, branch: nat, kind: Kind)
    ensures kind in PassedKinds(BranchEvidence(db, branch))
            <==> exists i :: 0 <= i < |db.evidence| && db.evidence[i].kind == kind && db.evidence[i].exitCode == 0
                             && db.evidence[i].attempt in db.attempts && db.attempts[db.evidence[i].attempt].branch == branch
  {
    var rows := BranchEvidence(db, branch);
    if kind in PassedKinds(rows) {
      var e :| e in rows && e.exitCode == 0 && e.kind == kind;
      var i :| 0 <= i < |db.evidence| && db.evidence[i] == e;
    }
    forall i | 0 <= i < |db.evidence| && BelongsTo(db, db.evidence[i], branch)
      ensures db.evidence[i] in rows
    {
    }
  }

  /** `promote` accepts exactly an evaluating branch with a passing row of both required kinds. */
  lemma {:induction false} PromoteAcceptsIff(db: Db, branch: nat)
    ensures Accepts(db, Promote(branch)) <==>
        && branch in db.branches && db.branches[branch].status == Evaluating
        && (exists i :: 0 <= i < |db.evidence| && db.evidence[i].kind == Static && db.evidence[i].exitCode == 0
                        && db.evidence[i].attempt in db.attempts && db.attempts[db.evidence[i].attempt].branch == branch)
        && (exists i :: 0 <= i < |db.evidence| && db.evidence[i].kind == Test && db.evidence[i].exitCode == 0
                        && db.evidence[i].attempt in db.attempts && db.attempts[db.evidence[i].attempt].branch == branch)
  {
    PassedKindIff(db, branch, Static);
    PassedKindIff(db, branch, Test);
  }

  lemma NextOrdinalUnique(db: Db, branch: nat, next: nat)
    requires IsNextOrdinal(db, branch, next)
    ensures next == NextOrdinal(db, branch)
  {
  }
}
