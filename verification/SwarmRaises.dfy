/** Ingests that raise after they have opened an attempt: exactly what they leave behind,
    and exactly when that parts the two judges. */
module SwarmRaises {
  import opened SwarmStore
  import opened SwarmRuns
  import opened SwarmScoring
  import opened SwarmIngest

  // Does the store take this call while the attempt it names is open?
  predicate Appendable(c: Call) {
    && c.Store? && c.op.AppendEvidence? && c.op.shaLength == SHA256_HEX && c.op.kind != Unlisted
    && IsInt64(c.op.exitCode) && IsInt64(c.op.durationMs) && c.op.durationMs >= 0
  }

  predicate AllAppendable(calls: seq<Call>) {
    forall i | 0 <= i < |calls| :: Appendable(calls[i])
  }

  // The calls before the first one that is not taken.
  function Until(calls: seq<Call>): seq<Call> {
    if calls == [] || !Appendable(calls[0]) then [] else [calls[0]] + Until(calls[1..])
  }

  lemma {:induction false} AllConcat(a: seq<Call>, b: seq<Call>)
    ensures AllAppendable(a + b) <==> AllAppendable(a) && AllAppendable(b)
  {
    if AllAppendable(a + b) {
      assert forall i | 0 <= i < |a| :: a[i] == (a + b)[i];
      assert forall i | 0 <= i < |b| :: b[i] == (a + b)[|a| + i];
    }
  }

  lemma {:induction false} PerformStops(db: Db, calls: seq<Call>, attempt: nat, last: Op)
    requires OnlyAppends(calls, attempt) && attempt in db.attempts && db.attempts[attempt].status.Open?
    requires !AllAppendable(calls)
    ensures Perform(db, calls + [Store(last)])
            == Progress(db.(evidence := db.evidence + Appended(Until(calls))), false)
    decreases |calls|
  {
    assert (calls + [Store(last)])[1..] == calls[1..] + [Store(last)];
    if Appendable(calls[0]) {
      var mid := Apply(db, calls[0].op).db;
      AllConcat([calls[0]], calls[1..]);
      assert [calls[0]] + calls[1..] == calls;
      PerformStops(mid, calls[1..], attempt, last);
      assert mid == db.(evidence := db.evidence + AppendedBy(calls[0]));
      assert Until(calls)[1..] == Until(calls[1..]);
      Associate(db.evidence, AppendedBy(calls[0]), Appended(Until(calls[1..])));
    } else {
      assert db.evidence + [] == db.evidence;
    }
  }

  lemma {:induction false} PerformFinishes(db: Db, calls: seq<Call>, attempt: nat, last: Op)
    requires OnlyAppends(calls, attempt) && attempt in db.attempts && db.attempts[attempt].status.Open?
    requires AllAppendable(calls) && last.FinishAttempt? && last.attempt == attempt && last.final.Final? && last.final.status != Open
    ensures Perform(db, calls + [Store(last)]).ok
    decreases |calls|
  {
    if calls == [] {
      PerformSingle(db, last);
      assert calls + [Store(last)] == [Store(last)];
    } else {
      assert (calls + [Store(last)])[1..] == calls[1..] + [Store(last)];
      PerformFinishes(Apply(db, calls[0].op).db, calls[1..], attempt, last);
    }
  }

  /** An ingest that has opened its attempt raises exactly when one of the evidence calls
      is refused.  It then leaves the branch running, the attempt open, and the evidence of
      the calls before. */
  lemma {:induction false} MidwayRaiseIff(db: Db, branch: nat, artifact: Artifact)
    requires WellFormed(db) && Acceptable(artifact) && Accepts(db, CreateAttempt(branch))
    ensures var result, calls := Ingest(db, branch, artifact), EvidenceCalls(db.next, artifact);
            && (result.reply.Raised? <==> !AllAppendable(calls))
            && (result.reply.Raised? ==>
                  result.db == Apply(db, CreateAttempt(branch)).db.(evidence := db.evidence + Appended(Until(calls))))
  {
    var started := Apply(db, CreateAttempt(branch)).db;
    var calls, last := EvidenceCalls(db.next, artifact), FinishCall(db.next, artifact);
    if AllAppendable(calls) {
      PerformFinishes(started, calls, db.next, last);
    } else {
      PerformStops(started, calls, db.next, last);
    }
  }

  /* ---- The required kinds among the evidence left behind ---- */

  predicate Taken(duration: Duration, sha: Sha) {
    duration.Ms? && IsInt64(duration.ms) && duration.ms >= 0 && sha == Sha(SHA256_HEX)
  }

  // Failed static evidence reaches the store: everything up to it is taken.
  predicate CommitsFailedStatic(artifact: Artifact) {
    && artifact.baseline.Baseline? && Taken(artifact.baseline.duration, Sha(artifact.baseline.shaLength))
    && (artifact.responseSha.Sha? ==> artifact.responseSha.length == SHA256_HEX)
    && artifact.staticCheck.Record? && artifact.staticCheck.exitCode != 0 && IsInt64(artifact.staticCheck.exitCode)
    && Taken(artifact.staticCheck.duration, artifact.staticCheck.sha)
  }

  lemma {:induction false} UntilSingle(c: Call, rest: seq<Call>)
    ensures Until([c] + rest) == if Appendable(c) then [c] + Until(rest) else []
  {
    assert ([c] + rest)[1..] == rest;
  }

  // The calls that are taken when not all of them are.
  function Reached(attempt: nat, artifact: Artifact): seq<Call>
    requires Acceptable(artifact)
  {
    var b, p := BaselineCall(attempt, artifact.baseline), ProposalCall(attempt, artifact.responseSha);
    var s := CheckCalls(attempt, Static, artifact.staticCheck);
    if !Appendable(b) then [] else if !Appendable(p) then [b] else [b] + ([p] + if AllAppendable(s) then s else [])
  }

  lemma {:induction false} UntilIsReached(attempt: nat, artifact: Artifact)
    requires Acceptable(artifact) && !AllAppendable(EvidenceCalls(attempt, artifact))
    ensures Until(EvidenceCalls(attempt, artifact)) == Reached(attempt, artifact)
  {
    var b, p := BaselineCall(attempt, artifact.baseline), ProposalCall(attempt, artifact.responseSha);
    var s, t := CheckCalls(attempt, Static, artifact.staticCheck), CheckCalls(attempt, Test, artifact.testCheck);
    assert EvidenceCalls(attempt, artifact) == [b] + ([p] + (s + t));
    UntilSingle(b, [p] + (s + t));
    UntilSingle(p, s + t);
    UntilChecks(s, t);
    AllConcat([b], [p] + (s + t));
    AllConcat([p], s + t);
    assert [b] + [] == [b];
  }

  lemma {:induction false} UntilChecks(s: seq<Call>, t: seq<Call>)
    requires |s| <= 1 && |t| <= 1
    ensures !AllAppendable(s + t) ==> Until(s + t) == if AllAppendable(s) then s else []
  {
    AllConcat(s, t);
    if s == [] {
      assert s + t == t;
    } else {
      assert s == [s[0]] && s + [] == s;
      UntilSingle(s[0], t);
    }
  }

  lemma {:induction false} ReachedKinds(attempt: nat, artifact: Artifact)
    requires Acceptable(artifact)
    ensures var added := Appended(Reached(attempt, artifact));
            && (forall e | e in added :: e.attempt == attempt && e.kind != Test)
            && (Static in FailedKinds(added) <==> CommitsFailedStatic(artifact))
  {
    var b, p := BaselineCall(attempt, artifact.baseline), ProposalCall(attempt, artifact.responseSha);
    var s := CheckCalls(attempt, Static, artifact.staticCheck);
    var reached := Reached(attempt, artifact);
    if Appendable(b) {
      var x := AppendedOne(b);
      assert x.kind == Harness;
      if Appendable(p) {
        var y := AppendedOne(p);
        assert y.kind != Static && y.kind != Test;
        var tail := if AllAppendable(s) then s else [];
        AppendedConcat([b], [p] + tail);
        AppendedConcat([p], tail);
        if tail != [] {
          var z := AppendedOne(s[0]);
          assert tail == [s[0]];
          AddedThree(x, y, z, attempt);
        } else {
          AddedTwo(x, y);
        }
      }
    }
  }

  lemma AddedTwo(x: Evidence, y: Evidence)
    ensures forall e :: e in [x] + ([y] + []) <==> e == x || e == y
  {
  }

  lemma AddedThree(x: Evidence, y: Evidence, z: Evidence, attempt: nat)
    requires z.kind == Static && x.kind != Static && y.kind != Static
    ensures var added := [x] + ([y] + [z]);
            && (forall e :: e in added <==> e == x || e == y || e == z)
            && (Static in FailedKinds(added) <==> z.exitCode != 0)
  {
    assert z in [x] + ([y] + [z]);
  }

  /* ---- When a mid-way raise parts the judges ---- */

  ghost predicate RaisesMidway(db: Db, branch: nat, artifact: Artifact) {
    Acceptable(artifact) && Accepts(db, CreateAttempt(branch)) && Ingest(db, branch, artifact).reply.Raised?
  }

  lemma {:induction false} SelectAll(db: Db, s: seq<Evidence>, branch: nat)
    requires forall e | e in s :: BelongsTo(db, e, branch)
    ensures Select(db, s, branch) == s
  {
    if s != [] { SelectAll(db, s[..|s| - 1], branch); }
  }

  lemma {:induction false} RaisedEffect(db: Db, branch: nat, artifact: Artifact)
    requires AllConsistent(db) && RaisesMidway(db, branch, artifact)
    ensures var db', added := Ingest(db, branch, artifact).db, Appended(Reached(db.next, artifact));
            && WellFormed(db') && db'.branches == WithStatus(db.branches, branch, Running)
            && BranchEvidence(db', branch) == BranchEvidence(db, branch) + added
            && forall b | b in db.branches && b != branch :: BranchEvidence(db', b) == BranchEvidence(db, b)
  {
    var db', added := Ingest(db, branch, artifact).db, Appended(Reached(db.next, artifact));
    MidwayRaiseIff(db, branch, artifact);
    UntilIsReached(db.next, artifact);
    ReachedKinds(db.next, artifact);
    ApplyWellFormed(db, CreateAttempt(branch));
    SelectConcat(db', db.evidence, added, branch);
    SelectSame(db, db', db.evidence, branch);
    SelectAll(db', added, branch);
    forall b | b in db.branches && b != branch
      ensures BranchEvidence(db', b) == BranchEvidence(db, b)
    {
      SelectConcat(db', db.evidence, added, b);
      SelectSame(db, db', db.evidence, b);
      SelectNone(db', added, b);
    }
  }

  lemma KindsOfSum(a: seq<Evidence>, b: seq<Evidence>)
    ensures PassedKinds(a + b) == PassedKinds(a) + PassedKinds(b)
    ensures FailedKinds(a + b) == FailedKinds(a) + FailedKinds(b)
  {
    assert forall e :: e in a + b <==> e in a || e in b;
  }

  // The required kinds of the branch after the raise, in terms of those before.
  lemma {:induction false} RaisedKinds(db: Db, branch: nat, artifact: Artifact)
    requires AllConsistent(db) && RaisesMidway(db, branch, artifact)
    ensures var db' := Ingest(db, branch, artifact).db;
            var before, after := BranchEvidence(db, branch), BranchEvidence(db', branch);
            && WellFormed(db') && branch in db'.branches && db'.branches[branch].status == Running
            && (Test in PassedKinds(after) <==> Test in PassedKinds(before))
            && (Test in FailedKinds(after) <==> Test in FailedKinds(before))
            && (Static in PassedKinds(before) ==> Static in PassedKinds(after))
            && (Static in FailedKinds(after) <==> Static in FailedKinds(before) || CommitsFailedStatic(artifact))
  {
    var added := Appended(Reached(db.next, artifact));
    RaisedEffect(db, branch, artifact);
    ReachedKinds(db.next, artifact);
    KindsOfSum(BranchEvidence(db, branch), added);
    assert Test !in PassedKinds(added) && Test !in FailedKinds(added);
  }

  lemma RequiredKinds(evidence: seq<Evidence>)
    ensures REQUIRED <= PassedKinds(evidence) <==> Static in PassedKinds(evidence) && Test in PassedKinds(evidence)
    ensures REQUIRED * FailedKinds(evidence) == {} <==> Static !in FailedKinds(evidence) && Test !in FailedKinds(evidence)
  {
    assert Static in REQUIRED && Test in REQUIRED;
    assert Static in FailedKinds(evidence) ==> Static in REQUIRED * FailedKinds(evidence);
    assert Test in FailedKinds(evidence) ==> Test in REQUIRED * FailedKinds(evidence);
  }

  lemma {:induction false} OtherJudgesAgree(db: Db, branch: nat, artifact: Artifact, b: nat)
    requires AllConsistent(db) && RaisesMidway(db, branch, artifact)
    requires b in db.branches && b != branch
    ensures var db' := Ingest(db, branch, artifact).db; b in db'.branches && Consistent(db', b) && !JudgesPart(db', b)
  {
    RaisedOther(db, branch, artifact, b);
    SameRowSameJudgment(db, Ingest(db, branch, artifact).db, b);
    ConsistentJudgesAgree(db, b);
  }

  lemma {:induction false} RaisedOther(db: Db, branch: nat, artifact: Artifact, b: nat)
    requires AllConsistent(db) && RaisesMidway(db, branch, artifact)
    requires b in db.branches && b != branch
    ensures var db' := Ingest(db, branch, artifact).db;
            b in db'.branches && db'.branches[b] == db.branches[b] && BranchEvidence(db', b) == BranchEvidence(db, b)
  {
    RaisedEffect(db, branch, artifact);
  }

  // Both judges look at a branch's status and evidence, and at nothing else.
  lemma SameRowSameJudgment(db: Db, db': Db, b: nat)
    requires b in db.branches && b in db'.branches
    requires db'.branches[b] == db.branches[b] && BranchEvidence(db', b) == BranchEvidence(db, b)
    ensures (Consistent(db', b) <==> Consistent(db, b)) && (JudgesPart(db', b) <==> JudgesPart(db, b))
  {
  }

  /** The judges part on the branch of a mid-way raise exactly when it was evaluating and
      no failed static record was committed; on no other branch. */
  lemma {:induction false} MidwayRaisePartsIff(db: Db, branch: nat, artifact: Artifact)
    requires AllConsistent(db) && RaisesMidway(db, branch, artifact)
    ensures var db' := Ingest(db, branch, artifact).db;
            && branch in db'.branches
            && (JudgesPart(db', branch) <==> db.branches[branch].status == Evaluating && !CommitsFailedStatic(artifact))
            && forall b | b in db'.branches && b != branch :: !JudgesPart(db', b)
  {
    var db' := Ingest(db, branch, artifact).db;
    RaisedKinds(db, branch, artifact);
    RequiredKinds(BranchEvidence(db, branch));
    RequiredKinds(BranchEvidence(db', branch));
    assert Consistent(db, branch);
    forall b | b in db'.branches && b != branch
      ensures !JudgesPart(db', b)
    {
      RaisedEffect(db, branch, artifact);
      OtherJudgesAgree(db, branch, artifact, b);
    }
  }

  /** It leaves a consistent store, one from which no clean run can part the judges,
      exactly in the remaining cases. */
  lemma {:induction false} RaiseKeepsConsistentIff(db: Db, branch: nat, artifact: Artifact)
    requires AllConsistent(db) && RaisesMidway(db, branch, artifact)
    ensures AllConsistent(Ingest(db, branch, artifact).db)
            <==> db.branches[branch].status != Evaluating && !CommitsFailedStatic(artifact)
  {
    var db' := Ingest(db, branch, artifact).db;
    RaisedKinds(db, branch, artifact);
    RequiredKinds(BranchEvidence(db, branch));
    RequiredKinds(BranchEvidence(db', branch));
    assert Consistent(db, branch);
    forall b | b in db'.branches && b != branch
      ensures Consistent(db', b)
    {
      RaisedEffect(db, branch, artifact);
      OtherJudgesAgree(db, branch, artifact, b);
    }
    assert Consistent(db', branch) <==> db.branches[branch].status != Evaluating && !CommitsFailedStatic(artifact);
  }

  // An ingest that passes whatever came before it.
  const GOOD: Artifact := Artifact(true, Baseline(1, Ms(0), SHA256_HEX), Record(0, Ms(0), Sha(SHA256_HEX)),
                                   Record(0, Ms(0), Sha(SHA256_HEX)), Flag(true), Sha(SHA256_HEX))

  ghost predicate PartsSome(db: Db) {
    exists b :: b in db.branches && JudgesPart(db, b)
  }

  // Some clean run from here, possibly of no steps, ends with the judges parted.
  ghost predicate CanPart(db: Db) {
    exists states: seq<Db>, acts: seq<Act> :: CleanFrom(states, acts) && states[0] == db && PartsSome(states[|acts|])
  }

  /** Right away or on some clean run later, a mid-way raise parts the judges exactly when
      its branch was evaluating or it committed a failed static record. */
  lemma {:induction false} MidwayRaiseCanPartIff(db: Db, branch: nat, artifact: Artifact)
    requires AllConsistent(db) && RaisesMidway(db, branch, artifact)
    ensures CanPart(Ingest(db, branch, artifact).db)
            <==> db.branches[branch].status == Evaluating || CommitsFailedStatic(artifact)
  {
    var db' := Ingest(db, branch, artifact).db;
    RaiseKeepsConsistentIff(db, branch, artifact);
    MidwayRaisePartsIff(db, branch, artifact);
    if AllConsistent(db') {
      ConsistentCannotPart(db');
    } else if CommitsFailedStatic(artifact) {
      GoodIngestParts(db, branch, artifact);
      OneIngestParts(db', branch);
    } else {
      var acts: seq<Act> := [];
      assert CleanFrom([db'], acts) && PartsSome([db'][|acts|]);
    }
  }

  lemma {:induction false} ConsistentCannotPart(db: Db)
    requires AllConsistent(db)
    ensures !CanPart(db)
  {
    forall states: seq<Db>, acts: seq<Act> | CleanFrom(states, acts) && states[0] == db
      ensures !PartsSome(states[|acts|])
    {
      CleanRunsAreConsistent(states, acts, |acts|);
      forall b | b in states[|acts|].branches
        ensures !JudgesPart(states[|acts|], b)
      {
        ConsistentJudgesAgree(states[|acts|], b);
      }
    }
  }

  lemma {:induction false} OneIngestParts(db: Db, branch: nat)
    requires Ingest(db, branch, GOOD).reply.Done? && branch in Ingest(db, branch, GOOD).db.branches
    requires JudgesPart(Ingest(db, branch, GOOD).db, branch)
    ensures CanPart(db)
  {
    var act, last := IngestArtifact(branch, GOOD), Ingest(db, branch, GOOD).db;
    assert NoMidwayRaise(db, act) && last == ApplyAct(db, act);
    var states, acts := [db, last], [act];
    assert CleanFrom(states, acts) && PartsSome(states[|acts|]);
  }

  // After committed failed static evidence one good ingest is enough.
  lemma {:induction false} GoodIngestParts(db: Db, branch: nat, artifact: Artifact)
    requires AllConsistent(db) && RaisesMidway(db, branch, artifact) && CommitsFailedStatic(artifact)
    ensures var mid := Ingest(db, branch, artifact).db;
            && Ingest(mid, branch, GOOD).reply.Done? && branch in Ingest(mid, branch, GOOD).db.branches
            && Accepts(Ingest(mid, branch, GOOD).db, Promote(branch)) && !RankedReady(Ingest(mid, branch, GOOD).db, branch)
  {
    var mid := Ingest(db, branch, artifact).db;
    RaisedKinds(db, branch, artifact);
    GoodCompletes(mid, branch);
    GoodAdds(mid, branch);
    RequiredKinds(BranchEvidence(Ingest(mid, branch, GOOD).db, branch));
  }

  lemma {:induction false} GoodAdds(db: Db, branch: nat)
    requires WellFormed(db) && Ingest(db, branch, GOOD).reply.Done?
    ensures var db' := Ingest(db, branch, GOOD).db;
            && branch in db'.branches && db'.branches[branch].status == Evaluating
            && REQUIRED <= PassedKinds(BranchEvidence(db', branch))
            && FailedKinds(BranchEvidence(db, branch)) <= FailedKinds(BranchEvidence(db', branch))
  {
    var db', added := Ingest(db, branch, GOOD).db, Appended(EvidenceCalls(db.next, GOOD));
    IngestEffect(db, branch, GOOD);
    AppendedKinds(db.next, GOOD);
    SelectConcat(db', db.evidence, added, branch);
    SelectSame(db, db', db.evidence, branch);
    SelectAll(db', added, branch);
    KindsOfSum(BranchEvidence(db, branch), added);
  }

  lemma {:induction false} GoodCompletes(db: Db, branch: nat)
    requires WellFormed(db) && branch in db.branches && db.branches[branch].status == Running
    ensures Ingest(db, branch, GOOD).reply.Done?
  {
    MidwayRaiseIff(db, branch, GOOD);
    assert AllAppendable(EvidenceCalls(db.next, GOOD));
  }

  /* ---- Two runs that part them ---- */

  const BROKEN: Artifact := Artifact(true, Baseline(1, Ms(0), SHA256_HEX), Record(1, Ms(0), Sha(SHA256_HEX)),
                                     Record(0, Ms(0), NoSha), Flag(false), Sha(SHA256_HEX))

  /** An ingest that has appended failed static evidence raises on the missing test
      digest; the branch stays running.  A good ingest follows, and the judges part:
      `promote` accepts the branch, `rank_task` prunes it. */
  lemma {:induction false} MidwayRaiseSplitsJudges(db: Db, branch: nat)
    requires AllConsistent(db) && branch in db.branches && db.branches[branch].status == Queued
    ensures var raised := Ingest(db, branch, BROKEN);
            && raised.reply.Raised? && raised.db != db
            && var last := Ingest(raised.db, branch, GOOD);
               last.reply.Done? && Accepts(last.db, Promote(branch)) && !RankedReady(last.db, branch)
  {
    MidwayRaiseIff(db, branch, BROKEN);
    assert !Appendable(EvidenceCalls(db.next, BROKEN)[3]);
    GoodIngestParts(db, branch, BROKEN);
  }

  const UNTIMED: Artifact := GOOD.(baseline := Baseline(1, BadDuration, SHA256_HEX))

  /** Nothing needs to be appended: on an evaluating branch a raise right after the attempt
      is opened takes the branch out of evaluation, and only `promote` minds. */
  lemma {:induction false} UntimedRaiseSplitsJudges(db: Db, branch: nat)
    requires AllConsistent(db) && branch in db.branches && db.branches[branch].status == Evaluating
    ensures var raised := Ingest(db, branch, UNTIMED);
            && raised.reply.Raised? && raised.db.evidence == db.evidence && branch in raised.db.branches
            && !Accepts(raised.db, Promote(branch)) && RankedReady(raised.db, branch)
  {
    UntimedRaises(db, branch);
    MidwayRaisePartsIff(db, branch, UNTIMED);
    RaisedKinds(db, branch, UNTIMED);
  }

  lemma {:induction false} UntimedRaises(db: Db, branch: nat)
    requires WellFormed(db) && Accepts(db, CreateAttempt(branch))
    ensures RaisesMidway(db, branch, UNTIMED) && Ingest(db, branch, UNTIMED).db.evidence == db.evidence
  {
    MidwayRaiseIff(db, branch, UNTIMED);
    assert EvidenceCalls(db.next, UNTIMED)[0] == Raise;
    assert !AllAppendable(EvidenceCalls(db.next, UNTIMED)) && Until(EvidenceCalls(db.next, UNTIMED)) == [];
    assert db.evidence + [] == db.evidence;
  }
}
