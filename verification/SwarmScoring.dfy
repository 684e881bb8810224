/** Evidence-only branch ranking: the second judge of a branch, independent of
    `promote`. */
module SwarmScoring {
  import opened SwarmStore
  import opened Rounding

  datatype Decision = PromoteReady | Expand | Prune

  datatype BranchScore = BranchScore(branch: nat, decision: Decision, score: int)

  // What one benchmark record can add: its rounded improvement, capped at 20.
  function Gain(e: Evidence): (g: int)
    ensures 0 <= g <= 20
  {
    if e.kind != Benchmark || e.exitCode != 0 || e.improvementPct <= 0.0 then 0
    else if RoundEven(e.improvementPct) > 20 then 20 else RoundEven(e.improvementPct)
  }

  method BenchmarkGain(evidence: seq<Evidence>) returns (gain: int)
    ensures 0 <= gain <= 20
    ensures forall e | e in evidence :: Gain(e) <= gain
    ensures gain == 0 || exists e :: e in evidence && Gain(e) == gain
    ensures forall e | e in evidence && e.kind == Benchmark && e.exitCode == 0 && e.improvementPct > 0.0 ::
        gain == 20 || RoundEven(e.improvementPct) <= gain
    ensures gain == 0 || exists e :: e in evidence && e.kind == Benchmark && e.exitCode == 0 && e.improvementPct > 0.0
                                     && gain == if RoundEven(e.improvementPct) > 20 then 20 else RoundEven(e.improvementPct)
  {
    gain := 0;
    for k := 0 to |evidence|
      invariant 0 <= gain <= 20
      invariant forall i | 0 <= i < k :: Gain(evidence[i]) <= gain
      invariant gain == 0 || exists e :: e in evidence && Gain(e) == gain
    {
      var item := evidence[k];
      if item.kind != Benchmark || item.exitCode != 0 { continue; }
      if item.improvementPct > 0.0 {
        var capped := if RoundEven(item.improvementPct) > 20 then 20 else RoundEven(item.improvementPct);
        if capped > gain { gain := capped; }
      }
    }
  }

  ghost predicate IsGain(evidence: seq<Evidence>, gain: int) {
    && 0 <= gain <= 20
    && (forall e | e in evidence :: Gain(e) <= gain)
    && (gain == 0 || exists e :: e in evidence && Gain(e) == gain)
  }

  // The decision and score of `score_branch`.
  ghost predicate IsScore(evidence: seq<Evidence>, decision: Decision, score: int) {
    var passed := PassedKinds(evidence);
    if REQUIRED * FailedKinds(evidence) != {} then decision == Prune && score == -100
    else if !(REQUIRED <= passed) then decision == Expand && score == 25 * |REQUIRED * passed|
    else decision == PromoteReady && exists gain :: IsGain(evidence, gain) && score == 100 + gain
  }

  /** Decision and score from the records alone: pruned at -100 for a failed static or test
      record; else promote-ready at 100 or more with a passing one of each kind; else 25 for
      one of them and 0 for none. */
  lemma {:induction false} ScoreIs(evidence: seq<Evidence>, decision: Decision, score: int)
    requires IsScore(evidence, decision, score)
    ensures var failed := exists e :: e in evidence && (e.kind == Static || e.kind == Test) && e.exitCode != 0;
            var lint := exists e :: e in evidence && e.kind == Static && e.exitCode == 0;
            var test := exists e :: e in evidence && e.kind == Test && e.exitCode == 0;
            if failed then decision == Prune && score == -100
            else if lint && test then decision == PromoteReady && 100 <= score <= 120
            else decision == Expand && score == if lint || test then 25 else 0
  {
    var passed := PassedKinds(evidence);
    assert Static in passed <==> exists e :: e in evidence && e.kind == Static && e.exitCode == 0;
    assert Test in passed <==> exists e :: e in evidence && e.kind == Test && e.exitCode == 0;
    assert REQUIRED * FailedKinds(evidence) == {} <==> Static !in FailedKinds(evidence) && Test !in FailedKinds(evidence);
    assert REQUIRED * passed == (if Static in passed then {Static} else {}) + (if Test in passed then {Test} else {});
  }

  /** A promote-ready score is 100 plus the largest improvement of a passing benchmark,
      rounded and capped at 20. */
  lemma {:induction false} GainIs(evidence: seq<Evidence>, decision: Decision, score: int)
    requires IsScore(evidence, decision, score)
    ensures decision == PromoteReady ==>
              && (forall e | e in evidence && e.kind == Benchmark && e.exitCode == 0 && e.improvementPct > 0.0 ::
                    score == 120 || 100 + RoundEven(e.improvementPct) <= score)
              && (score == 100 || exists e :: e in evidence && e.kind == Benchmark && e.exitCode == 0 && e.improvementPct > 0.0
                                             && score == 100 + if RoundEven(e.improvementPct) > 20 then 20 else RoundEven(e.improvementPct))
  {
    if decision == PromoteReady {
      var gain :| IsGain(evidence, gain) && score == 100 + gain;
      forall e | e in evidence && e.kind == Benchmark && e.exitCode == 0 && e.improvementPct > 0.0
        ensures gain == 20 || RoundEven(e.improvementPct) <= gain
      {
        assert Gain(e) <= gain;
      }
    }
  }

  method ScoreBranch(branch: nat, evidence: seq<Evidence>) returns (s: BranchScore)
    ensures s.branch == branch && IsScore(evidence, s.decision, s.score)
  {
    var passed, failed := PassedKinds(evidence), FailedKinds(evidence);
    if REQUIRED * failed != {} { return BranchScore(branch, Prune, -100); }
    if REQUIRED - REQUIRED * passed != {} {
      return BranchScore(branch, Expand, 25 * |REQUIRED * passed|);
    }
    assert REQUIRED <= passed by {
      forall k | k in REQUIRED
        ensures k in passed
      {
        assert k !in REQUIRED - REQUIRED * passed;
      }
    }
    var gain := BenchmarkGain(evidence);
    assert IsGain(evidence, gain);
    return BranchScore(branch, PromoteReady, 100 + gain);
  }

  /** Scores of different decisions never meet: nothing but passing static and test
      evidence can lift a branch over one that has it. */
  lemma {:induction false} ScoreBands(evidence: seq<Evidence>, decision: Decision, score: int)
    requires IsScore(evidence, decision, score)
    ensures decision == PromoteReady <==> 100 <= score
    ensures decision == Expand <==> 0 <= score <= 25
    ensures decision == Prune <==> score < 0
    ensures score <= 120
  {
    var have := REQUIRED * PassedKinds(evidence);
    if decision == Expand {
      var missing :| missing in REQUIRED && missing !in PassedKinds(evidence);
      assert have <= (if missing == Static then {Test} else {Static});
      SmallSet(have, if missing == Static then {Test} else {Static});
    }
  }

  lemma {:induction false} SmallSet(a: set<Kind>, b: set<Kind>)
    requires a <= b && |b| == 1
    ensures |a| <= 1
  {
    assert |b - a| == |b| - |a|;
  }

  /* ---- rank_task ---- */

  ghost predicate IsRank(db: Db, branch: nat, decision: Decision, score: int)
    requires branch in db.branches
  {
    if db.branches[branch].status == Pruned then decision == Prune && score == -100
    else IsScore(BranchEvidence(db, branch), decision, score)
  }

  // Does rank_task recommend promotion?
  ghost predicate RankedReady(db: Db, branch: nat)
    requires branch in db.branches
  {
    db.branches[branch].status != Pruned && REQUIRED <= PassedKinds(BranchEvidence(db, branch))
    && REQUIRED * FailedKinds(BranchEvidence(db, branch)) == {}
  }

  lemma RankedReadyIsDecision(db: Db, branch: nat, decision: Decision, score: int)
    requires branch in db.branches && IsRank(db, branch, decision, score)
    ensures RankedReady(db, branch) <==> decision == PromoteReady
  {
  }

  // The key (-score, id), ascending.
  predicate Before(a: BranchScore, b: BranchScore) {
    a.score > b.score || (a.score == b.score && a.branch <= b.branch)
  }

  predicate Ranked(s: seq<BranchScore>) {
    forall i, j | 0 <= i < j < |s| :: Before(s[i], s[j])
  }

  function Branches(s: seq<BranchScore>): set<nat> {
    set x | x in s :: x.branch
  }

  method Insert(s: seq<BranchScore>, x: BranchScore) returns (r: seq<BranchScore>)
    requires Ranked(s)
    ensures Ranked(r) && |r| == |s| + 1 && forall y :: y in r <==> y in s || y == x
    ensures Branches(r) == Branches(s) + {x.branch}
  {
    var k := 0;
    while k < |s| && Before(s[k], x)
      invariant 0 <= k <= |s|
      invariant forall i | 0 <= i < k :: Before(s[i], x)
    {
      k := k + 1;
    }
    r := s[..k] + [x] + s[k..];
    InsertRanked(s, k, x);
    InsertMembers(s, k, x);
  }

  lemma {:induction false} InsertRanked(s: seq<BranchScore>, k: nat, x: BranchScore)
    requires Ranked(s) && k <= |s| && (forall i | 0 <= i < k :: Before(s[i], x)) && (k < |s| ==> !Before(s[k], x))
    ensures Ranked(s[..k] + [x] + s[k..])
  {
    var r := s[..k] + [x] + s[k..];
    forall i, j | 0 <= i < j < |r|
      ensures Before(r[i], r[j])
    {
    }
  }

  lemma {:induction false} InsertMembers(s: seq<BranchScore>, k: nat, x: BranchScore)
    requires k <= |s|
    ensures var r := s[..k] + [x] + s[k..];
            (forall y :: y in r <==> y in s || y == x) && Branches(r) == Branches(s) + {x.branch}
  {
    assert s == s[..k] + s[k..];
    var r := s[..k] + [x] + s[k..];
    assert forall y :: y in r <==> y in s || y == x;
  }

  // A pruned branch ranks as pruned whatever its evidence says.
  method RankBranch(db: Db, b: nat) returns (s: BranchScore)
    requires b in db.branches
    ensures s.branch == b && IsRank(db, b, s.decision, s.score)
  {
    s := ScoreBranch(b, BranchEvidence(db, b));
    if db.branches[b].status == Pruned { s := BranchScore(b, Prune, -100); }
  }

  /** One entry per branch of the task, each with its own rank, best first. */
  method RankTask(db: Db, task: nat) returns (ranking: seq<BranchScore>)
    ensures Ranked(ranking) && Branches(ranking) == BranchesOf(db, task) && |ranking| == |BranchesOf(db, task)|
    ensures forall x | x in ranking :: x.branch in db.branches && IsRank(db, x.branch, x.decision, x.score)
    ensures forall x | x in ranking && db.branches[x.branch].status == Pruned :: x.decision == Prune && x.score == -100
    ensures forall i, j | 0 <= i < j < |ranking| ::
        ranking[i].score > ranking[j].score || (ranking[i].score == ranking[j].score && ranking[i].branch < ranking[j].branch)
  {
    ranking := [];
    var all := BranchesOf(db, task);
    var pending := all;
    while pending != {}
      invariant pending <= all && Ranked(ranking) && Branches(ranking) == all - pending
      invariant |ranking| == |all| - |pending|
      invariant forall x | x in ranking :: x.branch in db.branches && IsRank(db, x.branch, x.decision, x.score)
      decreases |pending|
    {
      var b :| b in pending;
      var s := RankBranch(db, b);
      ranking := Insert(ranking, s);
      pending := pending - {b};
    }
    ManyBranches(ranking);
    forall i, j | 0 <= i < j < |ranking|
      ensures ranking[i].score > ranking[j].score || (ranking[i].score == ranking[j].score && ranking[i].branch < ranking[j].branch)
    {
      assert Before(ranking[i], ranking[j]);
    }
  }

  lemma {:induction false} NewBranchLast(front: seq<BranchScore>, last: BranchScore)
    requires (forall i, j | 0 <= i < j < |front| :: front[i].branch != front[j].branch) && last.branch !in Branches(front)
    ensures var s := front + [last]; forall i, j | 0 <= i < j < |s| :: s[i].branch != s[j].branch
  {
    assert forall i | 0 <= i < |front| :: front[i] in front;
  }

  // As many branches as entries: no branch has two.
  lemma {:induction false} ManyBranches(s: seq<BranchScore>)
    ensures |Branches(s)| <= |s|
    ensures |Branches(s)| == |s| ==> forall i, j | 0 <= i < j < |s| :: s[i].branch != s[j].branch
  {
    if s != [] {
      var n := |s| - 1;
      ManyBranches(s[..n]);
      assert s == s[..n] + [s[n]];
      assert Branches(s) == Branches(s[..n]) + {s[n].branch};
      if |Branches(s)| == |s| { NewBranchLast(s[..n], s[n]); }
    }
  }

  /** In any ranking a promote-ready branch precedes every branch that is not. */
  lemma {:induction false} ReadyBranchesComeFirst(db: Db, ranking: seq<BranchScore>, i: nat, j: nat)
    requires Ranked(ranking) && i < |ranking| && j < |ranking|
    requires forall x | x in ranking :: x.branch in db.branches && IsRank(db, x.branch, x.decision, x.score)
    requires ranking[i].decision == PromoteReady && ranking[j].decision != PromoteReady
    ensures i < j
  {
    var a, b := ranking[i], ranking[j];
    assert a in ranking && b in ranking;
    ScoreBands(BranchEvidence(db, a.branch), a.decision, a.score);
    if db.branches[b.branch].status != Pruned {
      ScoreBands(BranchEvidence(db, b.branch), b.decision, b.score);
    }
  }
}
