/** What every run of the store keeps. */
module SwarmRuns {
  import opened Sets
  import opened SwarmStore

  ghost function After(db: Db, ops: seq<Op>): Db
    decreases |ops|
  {
    if ops == [] then db else Apply(After(db, ops[..|ops| - 1]), ops[|ops| - 1]).db
  }

  ghost predicate Promotable(db: Db, branch: nat) {
    REQUIRED <= PassedKinds(BranchEvidence(db, branch))
  }

  /* ---- Rows refer to rows that exist ---- */

  ghost predicate WellFormed(db: Db) {
    && (forall t | t in db.tasks :: t < db.next)
    && (forall b | b in db.branches :: b < db.next && db.branches[b].task in db.tasks)
    && (forall a | a in db.attempts :: a < db.next && db.attempts[a].branch in db.branches)
    && (forall e | e in db.evidence :: e.attempt in db.attempts)
  }

  ghost predicate WithinBudget(db: Db) {
    forall t | t in db.tasks :: |BranchesOf(db, t)| <= db.tasks[t].maxBranches
  }

  // The ordinals of the branch's n attempts are 1..n, each used once.
  ghost predicate Numbered(db: Db, branch: nat) {
    var n := |AttemptsOf(db, branch)|;
    && (forall a | a in AttemptsOf(db, branch) :: 1 <= db.attempts[a].ordinal <= n)
    && (forall a, a' | a in AttemptsOf(db, branch) && a' in AttemptsOf(db, branch) && a != a' ::
          db.attempts[a].ordinal != db.attempts[a'].ordinal)
    && (n == 0 || exists a :: a in AttemptsOf(db, branch) && db.attempts[a].ordinal == n)
  }

  ghost predicate PromotedHaveEvidence(db: Db) {
    forall b | b in db.branches && db.branches[b].status == Promoted :: Promotable(db, b)
  }

  ghost predicate StoreInvariant(db: Db) {
    && WellFormed(db) && WithinBudget(db) && PromotedHaveEvidence(db)
    && forall b: nat :: Numbered(db, b)
  }

  /* ---- Evidence is append-only ---- */

  lemma {:induction false} SelectSame(db: Db, db': Db, evidence: seq<Evidence>, branch: nat)
    requires forall e | e in evidence :: BelongsTo(db, e, branch) <==> BelongsTo(db', e, branch)
    ensures Select(db, evidence, branch) == Select(db', evidence, branch)
  {
    if evidence != [] {
      SelectSame(db, db', evidence[..|evidence| - 1], branch);
    }
  }

  // One transition extends the evidence table, moves no row between branches, and
  // gives a branch at most one more record.
  lemma {:induction false} EvidenceOnlyGrows(db: Db, op: Op, branch: nat)
    requires WellFormed(db)
    ensures var db' := Apply(db, op).db;
            && db.evidence <= db'.evidence
            && BranchEvidence(db, branch) <= BranchEvidence(db', branch)
            && (op.AppendEvidence? || db'.evidence == db.evidence)
  {
    var db' := Apply(db, op).db;
    SelectSame(db, db', db.evidence, branch);
    if db'.evidence != db.evidence {
      assert db'.evidence[..|db.evidence|] == db.evidence;
    }
  }

  lemma {:induction false} PromotableStays(db: Db, op: Op, branch: nat)
    requires WellFormed(db) && Promotable(db, branch)
    ensures Promotable(Apply(db, op).db, branch)
  {
    EvidenceOnlyGrows(db, op, branch);
    var before, after := BranchEvidence(db, branch), BranchEvidence(Apply(db, op).db, branch);
    assert forall e | e in before :: e in after by {
      forall e | e in before
        ensures e in after
      {
        var i :| 0 <= i < |before| && before[i] == e;
        assert after[i] == e;
      }
    }
  }

  ghost predicate Closed(db: Db, attempt: nat) {
    attempt in db.attempts && !db.attempts[attempt].status.Open?
  }

  function EvidenceOf(evidence: seq<Evidence>, attempt: nat): seq<Evidence> {
    if evidence == [] then []
    else
      var n := |evidence| - 1;
      EvidenceOf(evidence[..n], attempt) + if evidence[n].attempt == attempt then [evidence[n]] else []
  }

  function RowsOf(evidence: seq<Evidence>, attempt: nat): set<int> {
    set i | 0 <= i < |evidence| && evidence[i].attempt == attempt
  }

  /** The evidence of an attempt is all of its rows, each once. */
  lemma {:induction false} EvidenceOfIs(evidence: seq<Evidence>, attempt: nat)
    ensures |EvidenceOf(evidence, attempt)| == |RowsOf(evidence, attempt)|
    ensures forall e :: e in EvidenceOf(evidence, attempt) <==> e in evidence && e.attempt == attempt
  {
    if evidence != [] {
      var n := |evidence| - 1;
      EvidenceOfIs(evidence[..n], attempt);
      assert evidence == evidence[..n] + [evidence[n]];
      assert RowsOf(evidence, attempt) == RowsOf(evidence[..n], attempt) + if evidence[n].attempt == attempt then {n} else {};
    }
  }

  /** A closed attempt stays closed, and neither its status nor its evidence changes,
      however the run goes on. */
  lemma {:induction false} ClosedAttemptsAreFrozen(db: Db, ops: seq<Op>, attempt: nat)
    requires WellFormed(db) && Closed(db, attempt)
    ensures WellFormed(After(db, ops)) && Closed(After(db, ops), attempt)
    ensures After(db, ops).attempts[attempt] == db.attempts[attempt]
    ensures EvidenceOf(After(db, ops).evidence, attempt) == EvidenceOf(db.evidence, attempt)
  {
    if ops != [] {
      var n := |ops| - 1;
      ClosedAttemptsAreFrozen(db, ops[..n], attempt);
      ApplyFreezesClosed(After(db, ops[..n]), ops[n], attempt);
    }
  }

  lemma {:induction false} ApplyFreezesClosed(db: Db, op: Op, attempt: nat)
    requires WellFormed(db) && Closed(db, attempt)
    ensures var db' := Apply(db, op).db;
            && WellFormed(db') && Closed(db', attempt) && db'.attempts[attempt] == db.attempts[attempt]
            && EvidenceOf(db'.evidence, attempt) == EvidenceOf(db.evidence, attempt)
  {
    var db' := Apply(db, op).db;
    ApplyWellFormed(db, op);
    if op.AppendEvidence? && Accepts(db, op) {
      EvidenceOfSnoc(db.evidence, db'.evidence[|db.evidence|], attempt);
    }
  }

  lemma EvidenceOfSnoc(evidence: seq<Evidence>, e: Evidence, attempt: nat)
    requires e.attempt != attempt
    ensures EvidenceOf(evidence + [e], attempt) == EvidenceOf(evidence, attempt)
  {
    assert (evidence + [e])[..|evidence|] == evidence;
    assert EvidenceOf(evidence, attempt) + [] == EvidenceOf(evidence, attempt);
  }

  /* ---- The invariant ---- */

  lemma {:induction false} ApplyWellFormed(db: Db, op: Op)
    requires WellFormed(db)
    ensures WellFormed(Apply(db, op).db)
  {
  }

  lemma {:induction false} NewBranchFitsBudget(db: Db, op: Op)
    requires WellFormed(db) && op.CreateBranch? && Accepts(db, op)
    ensures |BranchesOf(Apply(db, op).db, op.task)| <= db.tasks[op.task].maxBranches
  {
    assert BranchesOf(Apply(db, op).db, op.task) == BranchesOf(db, op.task) + {db.next};
  }

  lemma {:induction false} OtherBranchesStay(db: Db, op: Op, t: nat)
    requires WellFormed(db) && !(op.CreateBranch? && Accepts(db, op) && op.task == t)
    ensures BranchesOf(Apply(db, op).db, t) == BranchesOf(db, t)
  {
  }

  lemma {:induction false} ApplyWithinBudget(db: Db, op: Op)
    requires WellFormed(db) && WithinBudget(db)
    ensures WithinBudget(Apply(db, op).db)
  {
    var db' := Apply(db, op).db;
    forall t | t in db'.tasks
      ensures |BranchesOf(db', t)| <= db'.tasks[t].maxBranches
    {
      if op.CreateBranch? && Accepts(db, op) && op.task == t {
        NewBranchFitsBudget(db, op);
      } else {
        OtherBranchesStay(db, op, t);
        if t !in db.tasks { assert BranchesOf(db, t) == {}; }
      }
    }
  }

  lemma {:induction false} NewAttemptIsNext(db: Db, op: Op)
    requires WellFormed(db) && op.CreateAttempt? && Accepts(db, op) && Numbered(db, op.branch)
    ensures Numbered(Apply(db, op).db, op.branch)
  {
    var db' := Apply(db, op).db;
    NextIsCountPlusOne(db, op.branch);
    assert AttemptsOf(db', op.branch) == AttemptsOf(db, op.branch) + {db.next};
    assert db'.attempts[db.next].ordinal == |AttemptsOf(db', op.branch)|;
  }

  lemma {:induction false} OtherAttemptsStay(db: Db, op: Op, branch: nat)
    requires WellFormed(db) && !(op.CreateAttempt? && Accepts(db, op) && op.branch == branch)
    ensures var db' := Apply(db, op).db;
            && AttemptsOf(db', branch) == AttemptsOf(db, branch)
            && forall a | a in AttemptsOf(db, branch) :: db'.attempts[a].ordinal == db.attempts[a].ordinal
  {
  }

  lemma {:induction false} ApplyNumbered(db: Db, op: Op, branch: nat)
    requires WellFormed(db) && Numbered(db, branch)
    ensures Numbered(Apply(db, op).db, branch)
  {
    if op.CreateAttempt? && Accepts(db, op) && op.branch == branch {
      NewAttemptIsNext(db, op);
    } else {
      OtherAttemptsStay(db, op, branch);
    }
  }

  lemma {:induction false} NextIsCountPlusOne(db: Db, branch: nat)
    requires Numbered(db, branch)
    ensures NextOrdinal(db, branch) == |AttemptsOf(db, branch)| + 1
  {
    var next := NextOrdinal(db, branch);
    var n := |AttemptsOf(db, branch)|;
    assert IsNextOrdinal(db, branch, next);
    if n > 0 {
      var a :| a in AttemptsOf(db, branch) && db.attempts[a].ordinal == n;
    }
  }

  lemma {:induction false} ApplyPromotedHaveEvidence(db: Db, op: Op)
    requires WellFormed(db) && PromotedHaveEvidence(db)
    ensures PromotedHaveEvidence(Apply(db, op).db)
  {
    var db' := Apply(db, op).db;
    forall b | b in db'.branches && db'.branches[b].status == Promoted
      ensures Promotable(db', b)
    {
      PromotableStays(db, op, b);
    }
  }

  /** In every reachable state each promoted branch has passing test and static
      evidence, ordinals are 1..n, and no task exceeds its branch budget. */
  lemma {:induction false} RunsKeepInvariant(ops: seq<Op>)
    ensures StoreInvariant(After(EMPTY, ops))
    ensures var db := After(EMPTY, ops);
            forall b | b in db.branches && db.branches[b].status == Promoted ::
              && (exists i :: 0 <= i < |db.evidence| && db.evidence[i].kind == Static && db.evidence[i].exitCode == 0
                              && db.evidence[i].attempt in db.attempts && db.attempts[db.evidence[i].attempt].branch == b)
              && (exists i :: 0 <= i < |db.evidence| && db.evidence[i].kind == Test && db.evidence[i].exitCode == 0
                              && db.evidence[i].attempt in db.attempts && db.attempts[db.evidence[i].attempt].branch == b)
  {
    var db := After(EMPTY, ops);
    forall b | b in db.branches && db.branches[b].status == Promoted
      ensures && (exists i :: 0 <= i < |db.evidence| && db.evidence[i].kind == Static && db.evidence[i].exitCode == 0
                              && db.evidence[i].attempt in db.attempts && db.attempts[db.evidence[i].attempt].branch == b)
              && (exists i :: 0 <= i < |db.evidence| && db.evidence[i].kind == Test && db.evidence[i].exitCode == 0
                              && db.evidence[i].attempt in db.attempts && db.attempts[db.evidence[i].attempt].branch == b)
    {
      RunsKeepStoreInvariant(ops);
      PassedKindIff(db, b, Static);
      PassedKindIff(db, b, Test);
    }
    RunsKeepStoreInvariant(ops);
  }

  lemma {:induction false} RunsKeepStoreInvariant(ops: seq<Op>)
    ensures StoreInvariant(After(EMPTY, ops))
  {
    if ops == [] {
      forall b: nat
        ensures Numbered(EMPTY, b)
      {
        assert AttemptsOf(EMPTY, b) == {};
      }
    } else {
      var n := |ops| - 1;
      RunsKeepStoreInvariant(ops[..n]);
      var db, op := After(EMPTY, ops[..n]), ops[n];
      ApplyWellFormed(db, op);
      ApplyWithinBudget(db, op);
      ApplyPromotedHaveEvidence(db, op);
      forall b: nat
        ensures Numbered(Apply(db, op).db, b)
      {
        ApplyNumbered(db, op, b);
      }
    }
  }

  // n attempts with distinct ordinals between 1 and n use every one of them.
  lemma {:induction false} NumberedIsExactly(db: Db, branch: nat)
    requires Numbered(db, branch)
    ensures (set a | a in AttemptsOf(db, branch) :: db.attempts[a].ordinal) == UpTo(|AttemptsOf(db, branch)|)
  {
    var rows := AttemptsOf(db, branch);
    var used, all := set a | a in rows :: db.attempts[a].ordinal, UpTo(|rows|);
    ImageSize(db, rows);
    assert used <= all;
    SameSize(used, all);
  }

  lemma {:induction false} ImageSize(db: Db, rows: set<nat>)
    requires forall a | a in rows :: a in db.attempts
    requires forall a, a' | a in rows && a' in rows && a != a' :: db.attempts[a].ordinal != db.attempts[a'].ordinal
    ensures |set a | a in rows :: db.attempts[a].ordinal| == |rows|
  {
    if rows != {} {
      var a :| a in rows;
      ImageSize(db, rows - {a});
      assert (set x | x in rows :: db.attempts[x].ordinal)
          == (set x | x in rows - {a} :: db.attempts[x].ordinal) + {db.attempts[a].ordinal};
    }
  }

  function UpTo(n: nat): (s: set<nat>)
    ensures |s| == n && forall k: nat :: k in s <==> 1 <= k <= n
  {
    if n == 0 then {} else UpTo(n - 1) + {n}
  }

  /* ---- Promoted and pruned ---- */

  ghost predicate Terminal(db: Db, branch: nat) {
    branch in db.branches && db.branches[branch].status in {Promoted, Pruned}
  }

  /** `finish_attempt` overwrites the branch status unconditionally, so a promoted or
      pruned branch is final exactly when it has no open attempt left. */
  lemma {:induction false} TerminalIffNoOpenAttempt(db: Db, branch: nat)
    requires WellFormed(db) && Terminal(db, branch)
    ensures (forall op :: branch in Apply(db, op).db.branches &&
                          Apply(db, op).db.branches[branch].status == db.branches[branch].status)
            <==> OpenAttempts(db, branch) == {}
  {
    if OpenAttempts(db, branch) == {} {
      forall op
        ensures branch in Apply(db, op).db.branches
        ensures Apply(db, op).db.branches[branch].status == db.branches[branch].status
      {
        assert op.FinishAttempt? && Accepts(db, op) ==> op.attempt in OpenAttempts(db, db.attempts[op.attempt].branch);
      }
    } else {
      var a :| a in OpenAttempts(db, branch);
      var op := FinishAttempt(a, Final(Completed));
      assert Apply(db, op).db.branches[branch].status == Evaluating;
    }
  }

  // Never a second attempt while one is open.
  ghost predicate OneAtATime(db: Db, ops: seq<Op>)
    decreases |ops|
  {
    ops == [] ||
    var n := |ops| - 1;
    && OneAtATime(db, ops[..n])
    && (ops[n].CreateAttempt? ==> OpenAttempts(After(db, ops[..n]), ops[n].branch) == {})
  }

  // Under that discipline the branch status tells whether an attempt is open.
  ghost predicate StatusTellsOpen(db: Db) {
    forall b | b in db.branches :: if db.branches[b].status == Running then |OpenAttempts(db, b)| == 1 else OpenAttempts(db, b) == {}
  }

  lemma {:induction false} FinishClosesOnly(db: Db, op: Op)
    requires WellFormed(db) && StatusTellsOpen(db) && op.FinishAttempt? && Accepts(db, op)
    ensures OpenAttempts(Apply(db, op).db, db.attempts[op.attempt].branch) == {}
  {
    var b := db.attempts[op.attempt].branch;
    assert op.attempt in OpenAttempts(db, b);
    assert OpenAttempts(Apply(db, op).db, b) == OpenAttempts(db, b) - {op.attempt};
    assert |OpenAttempts(Apply(db, op).db, b)| == 0;
  }

  lemma {:induction false} ApplyStatusTellsOpen(db: Db, op: Op)
    requires WellFormed(db) && StatusTellsOpen(db)
    requires op.CreateAttempt? ==> OpenAttempts(db, op.branch) == {}
    ensures StatusTellsOpen(Apply(db, op).db)
  {
    var db' := Apply(db, op).db;
    forall b | b in db'.branches
      ensures if db'.branches[b].status == Running then |OpenAttempts(db', b)| == 1 else OpenAttempts(db', b) == {}
    {
      if op.CreateAttempt? && Accepts(db, op) && op.branch == b {
        assert OpenAttempts(db', b) == {db.next};
      } else if op.FinishAttempt? && Accepts(db, op) && db.attempts[op.attempt].branch == b {
        FinishClosesOnly(db, op);
      } else if b in db.branches {
        assert OpenAttempts(db', b) == OpenAttempts(db, b);
      } else {
        assert OpenAttempts(db', b) == {};
      }
    }
  }

  lemma {:induction false} DisciplinedRuns(ops: seq<Op>)
    requires OneAtATime(EMPTY, ops)
    ensures WellFormed(After(EMPTY, ops)) && StatusTellsOpen(After(EMPTY, ops))
  {
    if ops != [] {
      var n := |ops| - 1;
      DisciplinedRuns(ops[..n]);
      ApplyWellFormed(After(EMPTY, ops[..n]), ops[n]);
      ApplyStatusTellsOpen(After(EMPTY, ops[..n]), ops[n]);
    }
  }

  /** With at most one open attempt per branch, promoted and pruned are final along
      the whole rest of the run. */
  lemma {:induction false} TerminalUnderDiscipline(ops: seq<Op>, more: seq<Op>, branch: nat)
    requires OneAtATime(EMPTY, ops) && Terminal(After(EMPTY, ops), branch)
    ensures Terminal(After(After(EMPTY, ops), more), branch)
    ensures After(After(EMPTY, ops), more).branches[branch].status == After(EMPTY, ops).branches[branch].status
  {
    DisciplinedRuns(ops);
    assert OpenAttempts(After(EMPTY, ops), branch) == {};
    TerminalStays(After(EMPTY, ops), more, branch);
  }

  lemma {:induction false} TerminalStays(db: Db, more: seq<Op>, branch: nat)
    requires WellFormed(db) && Terminal(db, branch) && OpenAttempts(db, branch) == {}
    ensures var last := After(db, more);
            && WellFormed(last) && Terminal(last, branch) && OpenAttempts(last, branch) == {}
            && last.branches[branch].status == db.branches[branch].status
  {
    if more != [] {
      var n := |more| - 1;
      TerminalStays(db, more[..n], branch);
      var mid, op := After(db, more[..n]), more[n];
      ApplyWellFormed(mid, op);
      TerminalIffNoOpenAttempt(mid, branch);
      var last := Apply(mid, op).db;
      forall a | a in OpenAttempts(last, branch)
        ensures a in OpenAttempts(mid, branch)
      {
      }
    }
  }

  /** Two open attempts on one branch break it: the branch is promoted on the first,
      then pruned by the second. */
  lemma {:induction false} TwoOpenAttemptsBreakPromotion() returns (ops: seq<Op>)
    ensures |ops| > 1 && After(EMPTY, ops[..|ops| - 1]).branches == map[1 := Branch(0, Promoted)]
    ensures After(EMPTY, ops).branches == map[1 := Branch(0, Pruned)]
  {
    var db;
    ops, db := TwoOpenAttempts();
    ops, db := AppendBoth(ops, db);
    var d7 := Extend(ops, db, FinishAttempt(2, Final(Completed)));
    ops := ops + [FinishAttempt(2, Final(Completed))];
    assert d7.evidence[0] in BranchEvidence(d7, 1) && d7.evidence[1] in BranchEvidence(d7, 1);
    var d8 := Extend(ops, d7, Promote(1));
    ops := ops + [Promote(1)];
    var d9 := Extend(ops, d8, FinishAttempt(3, Final(Failed)));
    ops := ops + [FinishAttempt(3, Final(Failed))];
  }

  lemma {:induction false} AppendBoth(before: seq<Op>, db: Db) returns (ops: seq<Op>, db': Db)
    requires db == After(EMPTY, before) && 2 in db.attempts && db.attempts[2].status == Open && db.evidence == []
    ensures db' == After(EMPTY, ops)
    ensures db' == db.(evidence := [Evidence(2, Static, 0, 0, 0.0), Evidence(2, Test, 0, 0, 0.0)])
  {
    ops := before;
    var d5 := Extend(ops, db, AppendEvidence(2, Static, 0, 0, SHA256_HEX, 0.0));
    ops := ops + [AppendEvidence(2, Static, 0, 0, SHA256_HEX, 0.0)];
    db' := Extend(ops, d5, AppendEvidence(2, Test, 0, 0, SHA256_HEX, 0.0));
    ops := ops + [AppendEvidence(2, Test, 0, 0, SHA256_HEX, 0.0)];
  }

  lemma {:induction false} TwoOpenAttempts() returns (ops: seq<Op>, db: Db)
    ensures db == After(EMPTY, ops) && db.branches == map[1 := Branch(0, Running)] && db.evidence == []
    ensures 2 in db.attempts && db.attempts[2].branch == 1 && db.attempts[2].status == Open
    ensures 3 in db.attempts && db.attempts[3].branch == 1 && db.attempts[3].status == Open
  {
    ops := [];
    var d1 := Extend(ops, EMPTY, CreateTask(true, 1));
    ops := ops + [CreateTask(true, 1)];
    assert BranchesOf(d1, 0) == {};
    var d2 := Extend(ops, d1, CreateBranch(0, true));
    ops := ops + [CreateBranch(0, true)];
    var d3 := Extend(ops, d2, CreateAttempt(1));
    ops := ops + [CreateAttempt(1)];
    db := Extend(ops, d3, CreateAttempt(1));
    ops := ops + [CreateAttempt(1)];
  }

  lemma {:induction false} Extend(before: seq<Op>, db: Db, op: Op) returns (db': Db)
    requires db == After(EMPTY, before)
    ensures db' == Apply(db, op).db == After(EMPTY, before + [op])
  {
    assert (before + [op])[..|before|] == before;
    db' := Apply(db, op).db;
  }
}
