/** Turning a bounded-run artifact into an attempt with evidence.  The sequence of
    store calls is not one transaction: it can raise after it has committed some. */
module SwarmIngest {
  import opened SwarmStore
  import opened SwarmRuns
  import opened SwarmScoring

  datatype Duration = BadDuration | Ms(ms: int)        // int(...) may raise
  datatype Sha = NoSha | Sha(length: nat)
  datatype CheckRecord = Missing | Record(exitCode: int, duration: Duration, sha: Sha)
  datatype Baseline = NoBaseline | Baseline(exitCode: int, duration: Duration, shaLength: nat)
  datatype PassedFlag = NotBool | Flag(value: bool)

  datatype Artifact = Artifact(kindOk: bool, baseline: Baseline, staticCheck: CheckRecord, testCheck: CheckRecord,
                               passed: PassedFlag, responseSha: Sha)

  // PROFILES, in order: git-diff-check is static, python-unittest is test.
  const PROFILES: seq<Kind> := [Static, Test]

  function CheckOf(artifact: Artifact, kind: Kind): CheckRecord {
    if kind == Static then artifact.staticCheck else artifact.testCheck
  }

  predicate Passes(check: CheckRecord) {
    check.Record? && check.exitCode == 0
  }

  predicate DerivedPass(artifact: Artifact) {
    artifact.baseline.Baseline? && artifact.baseline.exitCode != 0
    && Passes(artifact.staticCheck) && Passes(artifact.testCheck)
  }

  predicate Acceptable(artifact: Artifact) {
    artifact.kindOk && artifact.baseline.Baseline? && artifact.passed == Flag(DerivedPass(artifact))
  }

  // One store call, or a raise on the way to it.
  datatype Call = Raise | Store(op: Op)

  function BaselineCall(attempt: nat, baseline: Baseline): Call
    requires baseline.Baseline?
  {
    if baseline.duration.BadDuration? then Raise
    else Store(AppendEvidence(attempt, Harness, 0, baseline.duration.ms, baseline.shaLength, 0.0))
  }

  function ProposalCall(attempt: nat, sha: Sha): (c: Call)
    ensures c.Store?
  {
    if sha.Sha? then Store(AppendEvidence(attempt, Model, 0, 0, sha.length, 0.0))
    else Store(AppendEvidence(attempt, Harness, 1, 0, SHA256_HEX, 0.0))
  }

  function CheckCalls(attempt: nat, kind: Kind, check: CheckRecord): seq<Call> {
    if check.Missing? then []
    else if check.sha.NoSha? || check.sha.length != SHA256_HEX || check.duration.BadDuration? then [Raise]
    else [Store(AppendEvidence(attempt, kind, check.exitCode, check.duration.ms, SHA256_HEX, 0.0))]
  }

  function EvidenceCalls(attempt: nat, artifact: Artifact): seq<Call>
    requires Acceptable(artifact)
  {
    [BaselineCall(attempt, artifact.baseline)] + [ProposalCall(attempt, artifact.responseSha)]
    + (CheckCalls(attempt, Static, artifact.staticCheck) + CheckCalls(attempt, Test, artifact.testCheck))
  }

  function FinishCall(attempt: nat, artifact: Artifact): Op {
    FinishAttempt(attempt, Final(if DerivedPass(artifact) then Completed else Failed))
  }

  datatype Progress = Progress(db: Db, ok: bool)

  // Calls in order, up to the first that raises.
  ghost function Perform(db: Db, calls: seq<Call>): Progress
    decreases |calls|
  {
    if calls == [] then Progress(db, true)
    else if calls[0].Raise? || Apply(db, calls[0].op).reply.Raised? then Progress(db, false)
    else Perform(Apply(db, calls[0].op).db, calls[1..])
  }

  ghost function Ingest(db: Db, branch: nat, artifact: Artifact): Result {
    if !Acceptable(artifact) then Result(db, Raised)
    else
      var started := Apply(db, CreateAttempt(branch));
      if started.reply.Raised? then Result(db, Raised)
      else
        var attempt := started.reply.id;
        var p := Perform(started.db, EvidenceCalls(attempt, artifact) + [Store(FinishCall(attempt, artifact))]);
        Result(p.db, if p.ok then Done(attempt) else Raised)
  }

  /* ---- The ingestion procedure ---- */

  method DerivePass(artifact: Artifact) returns (pass: bool, checked: seq<Kind>)
    requires artifact.baseline.Baseline?
    ensures pass == DerivedPass(artifact)
    ensures pass <==> artifact.baseline.exitCode != 0 && artifact.staticCheck.Record? && artifact.staticCheck.exitCode == 0
                      && artifact.testCheck.Record? && artifact.testCheck.exitCode == 0
    ensures checked == (if artifact.staticCheck.Record? then [Static] else []) + (if artifact.testCheck.Record? then [Test] else [])
  {
    pass := artifact.baseline.exitCode != 0;
    checked := [];
    for k := 0 to |PROFILES|
      invariant pass == (artifact.baseline.exitCode != 0 && forall i | 0 <= i < k :: Passes(CheckOf(artifact, PROFILES[i])))
      invariant checked == (if k > 0 && artifact.staticCheck.Record? then [Static] else [])
                         + (if k > 1 && artifact.testCheck.Record? then [Test] else [])
    {
      var check := CheckOf(artifact, PROFILES[k]);
      if check.Missing? {
        pass := false;
        continue;
      }
      checked := checked + [PROFILES[k]];
      pass := pass && check.exitCode == 0;
    }
    assert PROFILES[0] == Static && PROFILES[1] == Test;
  }

  function CallsFor(attempt: nat, artifact: Artifact, checked: seq<Kind>): (calls: seq<Call>) {
    if checked == [] then []
    else CheckCalls(attempt, checked[0], CheckOf(artifact, checked[0])) + CallsFor(attempt, artifact, checked[1..])
  }

  lemma {:induction false} PerformConcat(db: Db, a: seq<Call>, b: seq<Call>)
    ensures Perform(db, a + b) == if Perform(db, a).ok then Perform(Perform(db, a).db, b) else Perform(db, a)
    decreases |a|
  {
    if a == [] {
      assert a + b == b;
    } else {
      assert (a + b)[1..] == a[1..] + b;
      if a[0].Store? && Apply(db, a[0].op).reply.Done? {
        PerformConcat(Apply(db, a[0].op).db, a[1..], b);
      }
    }
  }

  lemma PerformSingle(db: Db, op: Op)
    ensures Perform(db, [Store(op)]) == Progress(Apply(db, op).db, Apply(db, op).reply.Done?)
  {
    assert [Store(op)][1..] == [];
  }

  method AppendBaseline(store: SwarmStore, attempt: nat, baseline: Baseline) returns (ok: bool)
    requires baseline.Baseline?
    modifies store
    ensures Perform(old(store.View()), [BaselineCall(attempt, baseline)]) == Progress(store.View(), ok)
  {
    if baseline.duration.BadDuration? { return false; }
    PerformSingle(store.View(), AppendEvidence(attempt, Harness, 0, baseline.duration.ms, baseline.shaLength, 0.0));
    var r := store.AppendEvidence(attempt, Harness, 0, baseline.duration.ms, baseline.shaLength, 0.0);
    return r.Done?;
  }

  // The model's answer, or a failed executor-contract record when there is none.
  method AppendProposal(store: SwarmStore, attempt: nat, sha: Sha) returns (ok: bool)
    modifies store
    ensures Perform(old(store.View()), [ProposalCall(attempt, sha)]) == Progress(store.View(), ok)
  {
    PerformSingle(store.View(), ProposalCall(attempt, sha).op);
    var r;
    if sha.Sha? {
      r := store.AppendEvidence(attempt, Model, 0, 0, sha.length, 0.0);
    } else {
      r := store.AppendEvidence(attempt, Harness, 1, 0, SHA256_HEX, 0.0);
    }
    return r.Done?;
  }

  method AppendCheck(store: SwarmStore, attempt: nat, kind: Kind, check: CheckRecord) returns (ok: bool)
    requires check.Record?
    modifies store
    ensures Perform(old(store.View()), CheckCalls(attempt, kind, check)) == Progress(store.View(), ok)
  {
    if check.sha.NoSha? || check.sha.length != SHA256_HEX { return false; }
    if check.duration.BadDuration? { return false; }
    PerformSingle(store.View(), AppendEvidence(attempt, kind, check.exitCode, check.duration.ms, check.sha.length, 0.0));
    var r := store.AppendEvidence(attempt, kind, check.exitCode, check.duration.ms, check.sha.length, 0.0);
    return r.Done?;
  }

  method AppendChecks(store: SwarmStore, attempt: nat, artifact: Artifact, checked: seq<Kind>) returns (ok: bool)
    requires forall k | k in checked :: CheckOf(artifact, k).Record?
    modifies store
    ensures Perform(old(store.View()), CallsFor(attempt, artifact, checked)) == Progress(store.View(), ok)
  {
    ghost var goal := Perform(store.View(), CallsFor(attempt, artifact, checked));
    for k := 0 to |checked|
      invariant goal == Perform(store.View(), CallsFor(attempt, artifact, checked[k..]))
    {
      assert checked[k..][1..] == checked[k + 1..];
      PerformConcat(store.View(), CheckCalls(attempt, checked[k], CheckOf(artifact, checked[k])),
                    CallsFor(attempt, artifact, checked[k + 1..]));
      var done := AppendCheck(store, attempt, checked[k], CheckOf(artifact, checked[k]));
      if !done { return false; }
    }
    return true;
  }

  method IngestCorpusAttempt(store: SwarmStore, branch: nat, artifact: Artifact) returns (reply: Reply)
    modifies store
    ensures Result(store.View(), reply) == Ingest(old(store.View()), branch, artifact)
  {
    if !artifact.kindOk { return Raised; }
    if artifact.baseline.NoBaseline? { return Raised; }
    var pass, checked := DerivePass(artifact);
    if artifact.passed != Flag(pass) { return Raised; }
    var started := store.CreateAttempt(branch);
    if started.Raised? { return Raised; }
    var attempt := started.id;
    ghost var baseline, proposal := [BaselineCall(attempt, artifact.baseline)], [ProposalCall(attempt, artifact.responseSha)];
    ghost var checks, finish := CallsFor(attempt, artifact, checked), [Store(FinishCall(attempt, artifact))];
    CallsForChecked(attempt, artifact, checked);
    assert EvidenceCalls(attempt, artifact) + finish == baseline + (proposal + (checks + finish));
    PerformConcat(store.View(), baseline, proposal + (checks + finish));
    var ok := AppendBaseline(store, attempt, artifact.baseline);
    if !ok { return Raised; }
    PerformConcat(store.View(), proposal, checks + finish);
    ok := AppendProposal(store, attempt, artifact.responseSha);
    if !ok { return Raised; }
    PerformConcat(store.View(), checks, finish);
    ok := AppendChecks(store, attempt, artifact, checked);
    if !ok { return Raised; }
    PerformSingle(store.View(), FinishCall(attempt, artifact));
    var r := store.FinishAttempt(attempt, Final(if pass then Completed else Failed));
    if r.Raised? { return Raised; }
    return Done(attempt);
  }

  lemma {:induction false} CallsForChecked(attempt: nat, artifact: Artifact, checked: seq<Kind>)
    requires checked == (if artifact.staticCheck.Record? then [Static] else []) + (if artifact.testCheck.Record? then [Test] else [])
    ensures CallsFor(attempt, artifact, checked)
            == CheckCalls(attempt, Static, artifact.staticCheck) + CheckCalls(attempt, Test, artifact.testCheck)
  {
    var s, t := CheckCalls(attempt, Static, artifact.staticCheck), CheckCalls(attempt, Test, artifact.testCheck);
    assert s + [] == s && t + [] == t && [] + t == t;
    if |checked| == 2 {
      assert checked[1..] == [Test] && [Test][1..] == [];
      assert CallsFor(attempt, artifact, [Test]) == t + [];
    } else if |checked| == 1 {
      assert checked[1..] == [];
    }
  }

  /* ---- What an ingest that does not raise leaves behind ---- */

  function Appended(calls: seq<Call>): seq<Evidence> {
    if calls == [] then []
    else AppendedBy(calls[0]) + Appended(calls[1..])
  }

  function AppendedBy(c: Call): seq<Evidence> {
    if c.Store? && c.op.AppendEvidence?
    then [Evidence(c.op.attempt, c.op.kind, c.op.exitCode, c.op.durationMs, c.op.improvementPct)]
    else []
  }

  ghost predicate OnlyAppends(calls: seq<Call>, attempt: nat) {
    forall i | 0 <= i < |calls| :: calls[i].Store? ==> calls[i].op.AppendEvidence? && calls[i].op.attempt == attempt
  }

  lemma Associate(a: seq<Evidence>, b: seq<Evidence>, c: seq<Evidence>)
    ensures (a + b) + c == a + (b + c)
  {
  }

  lemma {:induction false} PerformAppends(db: Db, calls: seq<Call>, attempt: nat, last: Op)
    requires OnlyAppends(calls, attempt) && Perform(db, calls + [Store(last)]).ok
    ensures var appended := db.(evidence := db.evidence + Appended(calls));
            Apply(appended, last).reply.Done? && Perform(db, calls + [Store(last)]).db == Apply(appended, last).db
    decreases |calls|
  {
    if calls == [] {
      assert db.evidence + [] == db.evidence;
      assert ([] + [Store(last)])[1..] == [];
    } else {
      assert (calls + [Store(last)])[1..] == calls[1..] + [Store(last)];
      var mid := Apply(db, calls[0].op).db;
      PerformAppends(mid, calls[1..], attempt, last);
      assert mid == db.(evidence := db.evidence + AppendedBy(calls[0]));
      Associate(db.evidence, AppendedBy(calls[0]), Appended(calls[1..]));
    }
  }

  lemma {:induction false} AppendedKinds(attempt: nat, artifact: Artifact)
    requires Acceptable(artifact) && DerivedPass(artifact)
    requires Raise !in EvidenceCalls(attempt, artifact)
    ensures var added := Appended(EvidenceCalls(attempt, artifact));
            && REQUIRED <= PassedKinds(added) && REQUIRED * FailedKinds(added) == {}
            && forall e | e in added :: e.attempt == attempt
  {
    var lint, test := PassingCalls(attempt, artifact);
    var b, p := BaselineCall(attempt, artifact.baseline), ProposalCall(attempt, artifact.responseSha);
    assert EvidenceCalls(attempt, artifact) == [b] + ([p] + ([lint] + [test]));
    AppendedFour(b, p, lint, test);
    var e0 := AppendedOne(b);
    var e1 := AppendedOne(p);
    var e2 := AppendedOne(lint);
    var e3 := AppendedOne(test);
    CleanRecords(e0, e1, e2, e3, attempt, Appended(EvidenceCalls(attempt, artifact)));
  }

  // The two check calls of a passing artifact none of whose calls raises.
  lemma {:induction false} PassingCalls(attempt: nat, artifact: Artifact) returns (lint: Call, test: Call)
    requires Acceptable(artifact) && DerivedPass(artifact) && Raise !in EvidenceCalls(attempt, artifact)
    ensures BaselineCall(attempt, artifact.baseline).Store?
    ensures CheckCalls(attempt, Static, artifact.staticCheck) == [lint] && CheckCalls(attempt, Test, artifact.testCheck) == [test]
    ensures lint.Store? && lint.op.AppendEvidence? && lint.op.attempt == attempt && lint.op.kind == Static && lint.op.exitCode == 0
    ensures test.Store? && test.op.AppendEvidence? && test.op.attempt == attempt && test.op.kind == Test && test.op.exitCode == 0
  {
    lint := CheckCalls(attempt, Static, artifact.staticCheck)[0];
    test := CheckCalls(attempt, Test, artifact.testCheck)[0];
    var calls := EvidenceCalls(attempt, artifact);
    assert calls[0] in calls && calls[2] in calls && calls[3] in calls;
    assert calls[0] == BaselineCall(attempt, artifact.baseline) && calls[2] == lint && calls[3] == test;
  }

  lemma {:induction false} AppendedFour(a: Call, b: Call, c: Call, d: Call)
    ensures Appended([a] + ([b] + ([c] + [d]))) == Appended([a]) + (Appended([b]) + (Appended([c]) + Appended([d])))
  {
    AppendedConcat([a], [b] + ([c] + [d]));
    AppendedConcat([b], [c] + [d]);
    AppendedConcat([c], [d]);
  }

  lemma {:induction false} CleanRecords(baseline: Evidence, proposal: Evidence, lint: Evidence, test: Evidence, attempt: nat,
                                        added: seq<Evidence>)
    requires added == [baseline] + ([proposal] + ([lint] + [test]))
    requires baseline.attempt == proposal.attempt == lint.attempt == test.attempt == attempt
    requires baseline.kind !in REQUIRED && proposal.kind !in REQUIRED
    requires lint.kind == Static && lint.exitCode == 0 && test.kind == Test && test.exitCode == 0
    ensures REQUIRED <= PassedKinds(added) && REQUIRED * FailedKinds(added) == {}
    ensures forall e | e in added :: e.attempt == attempt
  {
    assert forall e :: e in added <==> e == baseline || e == proposal || e == lint || e == test;
    assert lint in added && test in added;
  }

  lemma {:induction false} AppendedConcat(a: seq<Call>, b: seq<Call>)
    ensures Appended(a + b) == Appended(a) + Appended(b)
    decreases |a|
  {
    if a == [] {
      assert a + b == b;
    } else {
      AppendedConcat(a[1..], b);
      assert (a + b)[1..] == a[1..] + b;
      Associate(AppendedBy(a[0]), Appended(a[1..]), Appended(b));
    }
  }

  lemma AppendedOne(c: Call) returns (e: Evidence)
    requires c.Store? && c.op.AppendEvidence?
    ensures e == Evidence(c.op.attempt, c.op.kind, c.op.exitCode, c.op.durationMs, c.op.improvementPct)
    ensures Appended([c]) == [e]
  {
    e := Evidence(c.op.attempt, c.op.kind, c.op.exitCode, c.op.durationMs, c.op.improvementPct);
  }

  lemma {:induction false} OkMeansNoRaise(db: Db, calls: seq<Call>)
    requires Perform(db, calls).ok
    ensures Raise !in calls
    decreases |calls|
  {
    if calls != [] {
      OkMeansNoRaise(Apply(db, calls[0].op).db, calls[1..]);
      assert calls == [calls[0]] + calls[1..];
    }
  }

  /** An ingest opens an attempt exactly for an artifact of a known kind, with a baseline, whose
      passed flag is what its own records say, on a branch that takes attempts. */
  lemma {:induction false} IngestOpensIff(db: Db, branch: nat, artifact: Artifact)
    requires WellFormed(db)
    ensures var pass := artifact.baseline.Baseline? && artifact.baseline.exitCode != 0
                        && artifact.staticCheck.Record? && artifact.staticCheck.exitCode == 0
                        && artifact.testCheck.Record? && artifact.testCheck.exitCode == 0;
            db.next in Ingest(db, branch, artifact).db.attempts
            <==> && artifact.kindOk && artifact.baseline.Baseline? && artifact.passed == Flag(pass)
                 && branch in db.branches && db.branches[branch].status != Promoted && db.branches[branch].status != Pruned
    ensures db.next !in Ingest(db, branch, artifact).db.attempts ==>
              Ingest(db, branch, artifact) == Result(db, Raised) && NoMidwayRaise(db, IngestArtifact(branch, artifact))
  {
    var started := Apply(db, CreateAttempt(branch));
    if Acceptable(artifact) && started.reply.Done? {
      PerformKeepsAttempts(started.db, EvidenceCalls(db.next, artifact) + [Store(FinishCall(db.next, artifact))], db.next);
    }
  }

  lemma {:induction false} PerformKeepsAttempts(db: Db, calls: seq<Call>, attempt: nat)
    requires attempt in db.attempts
    ensures attempt in Perform(db, calls).db.attempts
    decreases |calls|
  {
    if calls != [] && calls[0].Store? && Apply(db, calls[0].op).reply.Done? {
      PerformKeepsAttempts(Apply(db, calls[0].op).db, calls[1..], attempt);
    }
  }

  /** The records that a completed ingest adds, in order: the baseline as a passing harness
      record, the model's answer or a failed harness record in its place, and the static and
      test records there are, with their own exit codes. */
  lemma {:induction false} AppendedIs(attempt: nat, artifact: Artifact)
    requires Acceptable(artifact) && Raise !in EvidenceCalls(attempt, artifact)
    ensures artifact.baseline.duration.Ms?
    ensures artifact.staticCheck.Record? ==> artifact.staticCheck.duration.Ms?
    ensures artifact.testCheck.Record? ==> artifact.testCheck.duration.Ms?
    ensures Appended(EvidenceCalls(attempt, artifact))
            == [Evidence(attempt, Harness, 0, artifact.baseline.duration.ms, 0.0)]
               + ([if artifact.responseSha.Sha? then Evidence(attempt, Model, 0, 0, 0.0) else Evidence(attempt, Harness, 1, 0, 0.0)]
                  + ((if artifact.staticCheck.Record?
                      then [Evidence(attempt, Static, artifact.staticCheck.exitCode, artifact.staticCheck.duration.ms, 0.0)] else [])
                     + (if artifact.testCheck.Record?
                        then [Evidence(attempt, Test, artifact.testCheck.exitCode, artifact.testCheck.duration.ms, 0.0)] else [])))
  {
    var b, p := BaselineCall(attempt, artifact.baseline), ProposalCall(attempt, artifact.responseSha);
    var s, t := CheckCalls(attempt, Static, artifact.staticCheck), CheckCalls(attempt, Test, artifact.testCheck);
    assert EvidenceCalls(attempt, artifact) == [b] + ([p] + (s + t));
    assert forall c :: c in EvidenceCalls(attempt, artifact) <==> c == b || c == p || c in s || c in t;
    if artifact.staticCheck.Record? { assert s[0] in s; }
    if artifact.testCheck.Record? { assert t[0] in t; }
    AppendedConcat([b], [p] + (s + t));
    AppendedConcat([p], s + t);
    AppendedConcat(s, t);
    var e0 := AppendedOne(b);
    var e1 := AppendedOne(p);
    if artifact.staticCheck.Record? { var e2 := AppendedOne(s[0]); assert s == [s[0]]; }
    if artifact.testCheck.Record? { var e3 := AppendedOne(t[0]); assert t == [t[0]]; }
  }

  lemma {:induction false} IngestEffect(db: Db, branch: nat, artifact: Artifact)
    requires WellFormed(db) && Ingest(db, branch, artifact).reply.Done?
    ensures Acceptable(artifact) && branch in db.branches && db.branches[branch].status in {Queued, Running, Evaluating}
    ensures var db', attempt := Ingest(db, branch, artifact).db, db.next;
            && attempt == Ingest(db, branch, artifact).reply.id
            && Raise !in EvidenceCalls(attempt, artifact)
            && db'.tasks == db.tasks && db'.next == db.next + 1
            && db'.branches == WithStatus(db.branches, branch, if DerivedPass(artifact) then Evaluating else Pruned)
            && db'.evidence == db.evidence + Appended(EvidenceCalls(attempt, artifact))
            && db'.attempts.Keys == db.attempts.Keys + {attempt} && db'.attempts[attempt].branch == branch
            && (forall a | a in db.attempts :: db'.attempts[a] == db.attempts[a])
  {
    var started := Apply(db, CreateAttempt(branch));
    var attempt := db.next;
    var calls, last := EvidenceCalls(attempt, artifact), FinishCall(attempt, artifact);
    PerformAppends(started.db, calls, attempt, last);
    OkMeansNoRaise(started.db, calls + [Store(last)]);
    assert forall c | c in calls :: c in calls + [Store(last)];
  }

  /* ---- Controller runs ---- */

  datatype Act =
    | NewTask(maxBranches: int)
    | NewBranch(task: nat)
    | IngestArtifact(branch: nat, artifact: Artifact)
    | TryPromote(branch: nat)

  ghost function ApplyAct(db: Db, act: Act): Db {
    match act
    case NewTask(maxBranches) => Apply(db, CreateTask(true, maxBranches)).db
    case NewBranch(task) => Apply(db, CreateBranch(task, true)).db
    case IngestArtifact(branch, artifact) => Ingest(db, branch, artifact).db
    case TryPromote(branch) => Apply(db, Promote(branch)).db
  }

  // The ingest, if any, either completes or raises before it has changed anything.
  ghost predicate NoMidwayRaise(db: Db, act: Act) {
    act.IngestArtifact? ==> Ingest(db, act.branch, act.artifact).reply.Done? || Ingest(db, act.branch, act.artifact).db == db
  }

  ghost predicate CleanRun(states: seq<Db>, acts: seq<Act>) {
    |states| == |acts| + 1 && states[0] == EMPTY && CleanFrom(states, acts)
  }

  ghost predicate CleanFrom(states: seq<Db>, acts: seq<Act>) {
    && |states| == |acts| + 1
    && forall k | 0 <= k < |acts| :: NoMidwayRaise(states[k], acts[k]) && states[k + 1] == ApplyAct(states[k], acts[k])
  }

  // Status and evidence of one branch agree; a running branch is one whose last ingest
  // raised on the way.
  ghost predicate Consistent(db: Db, b: nat)
    requires b in db.branches
  {
    var evidence := BranchEvidence(db, b);
    match db.branches[b].status
    case Queued => evidence == []
    case Running => Test !in PassedKinds(evidence) && REQUIRED * FailedKinds(evidence) == {}
    case Evaluating => REQUIRED <= PassedKinds(evidence) && REQUIRED * FailedKinds(evidence) == {}
    case Promoted => true
    case Pruned => true
  }

  ghost predicate AllConsistent(db: Db) {
    WellFormed(db) && forall b | b in db.branches :: Consistent(db, b)
  }

  lemma {:induction false} SelectConcat(db: Db, a: seq<Evidence>, b: seq<Evidence>, branch: nat)
    ensures Select(db, a + b, branch) == Select(db, a, branch) + Select(db, b, branch)
  {
    if b == [] {
      assert a + b == a;
    } else {
      SelectConcat(db, a, b[..|b| - 1], branch);
      assert (a + b)[..|a + b| - 1] == a + b[..|b| - 1];
    }
  }

  lemma {:induction false} SelectNone(db: Db, s: seq<Evidence>, branch: nat)
    requires forall e | e in s :: !BelongsTo(db, e, branch)
    ensures Select(db, s, branch) == []
  {
    if s != [] {
      SelectNone(db, s[..|s| - 1], branch);
    }
  }

  lemma {:induction false} AppendedAttempts(attempt: nat, calls: seq<Call>)
    requires OnlyAppends(calls, attempt)
    ensures forall e | e in Appended(calls) :: e.attempt == attempt
    decreases |calls|
  {
    if calls != [] {
      AppendedAttempts(attempt, calls[1..]);
    }
  }

  lemma {:induction false} IngestOther(db: Db, branch: nat, artifact: Artifact, b: nat)
    requires WellFormed(db) && Ingest(db, branch, artifact).reply.Done? && b != branch
    ensures BranchEvidence(Ingest(db, branch, artifact).db, b) == BranchEvidence(db, b)
  {
    IngestEffect(db, branch, artifact);
    var db' := Ingest(db, branch, artifact).db;
    var added := Appended(EvidenceCalls(db.next, artifact));
    AppendedAttempts(db.next, EvidenceCalls(db.next, artifact));
    SelectConcat(db', db.evidence, added, b);
    SelectNone(db', added, b);
    SelectSame(db, db', db.evidence, b);
  }

  lemma {:induction false} IngestOwnPass(db: Db, branch: nat, artifact: Artifact)
    requires WellFormed(db) && Ingest(db, branch, artifact).reply.Done? && DerivedPass(artifact)
    requires branch in db.branches && Consistent(db, branch)
    ensures var evidence := BranchEvidence(Ingest(db, branch, artifact).db, branch);
            REQUIRED <= PassedKinds(evidence) && REQUIRED * FailedKinds(evidence) == {}
  {
    IngestEffect(db, branch, artifact);
    var db' := Ingest(db, branch, artifact).db;
    var added := Appended(EvidenceCalls(db.next, artifact));
    AppendedKinds(db.next, artifact);
    SelectConcat(db', db.evidence, added, branch);
    SelectSame(db, db', db.evidence, branch);
    var before, after := BranchEvidence(db, branch), BranchEvidence(db', branch);
    assert after == before + Select(db', added, branch);
    assert forall e :: e in after <==> e in before || e in added;
    assert PassedKinds(added) <= PassedKinds(after);
    assert REQUIRED * FailedKinds(before) == {};
  }

  lemma {:induction false} ActKeepsConsistent(db: Db, act: Act)
    requires AllConsistent(db) && NoMidwayRaise(db, act)
    ensures AllConsistent(ApplyAct(db, act))
  {
    var db' := ApplyAct(db, act);
    match act
    case IngestArtifact(branch, artifact) =>
      if Ingest(db, branch, artifact).reply.Done? {
        IngestEffect(db, branch, artifact);
        AppendedAttempts(db.next, EvidenceCalls(db.next, artifact));
        forall b | b in db'.branches
          ensures Consistent(db', b)
        {
          if b != branch {
            IngestOther(db, branch, artifact, b);
            assert Consistent(db, b);
          } else if DerivedPass(artifact) {
            IngestOwnPass(db, branch, artifact);
          }
        }
      }
    case NewTask(maxBranches) => PlainOpKeepsConsistent(db, CreateTask(true, maxBranches));
    case NewBranch(task) => PlainOpKeepsConsistent(db, CreateBranch(task, true));
    case TryPromote(branch) => PlainOpKeepsConsistent(db, Promote(branch));
  }

  lemma {:induction false} PlainOpKeepsConsistent(db: Db, op: Op)
    requires AllConsistent(db) && (op.CreateTask? || op.CreateBranch? || op.Promote?)
    ensures AllConsistent(Apply(db, op).db)
  {
    var db' := Apply(db, op).db;
    ApplyWellFormed(db, op);
    forall b | b in db'.branches
      ensures Consistent(db', b)
    {
      SelectSame(db, db', db.evidence, b);
      if b in db.branches {
        assert Consistent(db, b);
      } else {
        SelectNone(db', db.evidence, b);
      }
    }
  }

  // Promotion and ranking differ about a branch that is not promoted yet.
  ghost predicate JudgesPart(db: Db, b: nat)
    requires b in db.branches
  {
    db.branches[b].status != Promoted && Accepts(db, Promote(b)) != RankedReady(db, b)
  }

  /** Along every run of branch creation, promotion and ingests without a mid-way
      raise, `promote` accepts a not-yet-promoted branch exactly when `rank_task`
      calls it promote-ready. */
  lemma {:induction false} JudgesAgreeOnCleanRuns(states: seq<Db>, acts: seq<Act>, n: nat, b: nat)
    requires CleanRun(states, acts) && n < |states|
    requires b in states[n].branches && states[n].branches[b].status != Promoted
    ensures Accepts(states[n], Promote(b)) <==> RankedReady(states[n], b)
  {
    CleanRunsAreConsistent(states, acts, n);
    ConsistentJudgesAgree(states[n], b);
  }

  lemma {:induction false} ConsistentJudgesAgree(db: Db, b: nat)
    requires AllConsistent(db) && b in db.branches
    ensures !JudgesPart(db, b)
  {
    assert Consistent(db, b);
    assert db.branches[b].status == Queued ==> PassedKinds(BranchEvidence(db, b)) == {};
    assert Static in REQUIRED && Test in REQUIRED;
  }

  lemma {:induction false} CleanRunsAreConsistent(states: seq<Db>, acts: seq<Act>, n: nat)
    requires CleanFrom(states, acts) && AllConsistent(states[0]) && n < |states|
    ensures AllConsistent(states[n])
  {
    if n > 0 {
      CleanRunsAreConsistent(states, acts, n - 1);
      assert NoMidwayRaise(states[n - 1], acts[n - 1]);
      ActKeepsConsistent(states[n - 1], acts[n - 1]);
    }
  }
}
