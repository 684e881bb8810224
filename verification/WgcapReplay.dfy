/** The CPU replay's bookkeeping: record pointers, the per-split distributions with
    room for 96 values, and the percentiles read from them.  The measured errors
    themselves enter as arbitrary reals. */
module WgcapReplay {
  import opened Int32Lanes
  import opened WgcapFormat
  import opened T32Layout

  const NR: nat := 96

  /* ---- Pointers ---- */

  // Start of each of the thirteen fields as the C tool computes them, and its final offset.
  const C_OFFSETS: seq<int> :=
    [40, 40 + 8192, 40 + 8192 + 2048, 10312, 10312 + 2048, 10312 + 4096, 10312 + 6144, 24648, 24648 + 524_288,
     24648 + 1_048_576, 1_597_512, 1_597_512 + 2048, 1_597_512 + 4096, 1_609_800]

  /** At the fixed geometry the reader's slices start where the C pointers do. */
  lemma {:induction false} SlicesMatchPointers(h: Header, k: nat)
    requires GoodHeader(h) && h.hidden == P40_HIDDEN && h.intermediate == P40_INTERMEDIATE && h.groupWidth == P40_GROUP_WIDTH
    requires k <= 13
    ensures var sizes := FieldSizes(h, GateUpBytes(h.hidden, h.intermediate), DownBytes(h.hidden, h.intermediate));
            RECORD_HEADER_BYTES + Total(sizes[..k]) == C_OFFSETS[k]
    decreases k
  {
    var sizes := FieldSizes(h, GateUpBytes(h.hidden, h.intermediate), DownBytes(h.hidden, h.intermediate));
    if k > 0 {
      SlicesMatchPointers(h, k - 1);
      TotalSplit(sizes, k - 1);
    }
  }

  /* ---- Distributions ---- */

  function Square(x: real): real { x * x }

  // Over n output elements: squared differences, and squares of the second vector.
  function SquaredError(a: seq<real>, b: seq<real>, n: nat): real
    requires n <= |a| == |b|
  {
    if n == 0 then 0.0 else SquaredError(a, b, n - 1) + Square(a[n - 1] - b[n - 1])
  }

  function Squares(b: seq<real>, n: nat): real
    requires n <= |b|
  {
    if n == 0 then 0.0 else Squares(b, n - 1) + Square(b[n - 1])
  }

  /** Squared errors and squares, one element at a time. */
  lemma SquareSteps(a: seq<real>, b: seq<real>, n: nat)
    requires n < |a| == |b|
    ensures SquaredError(a, b, 0) == Squares(b, 0) == 0.0
    ensures SquaredError(a, b, n + 1) == SquaredError(a, b, n) + (a[n] - b[n]) * (a[n] - b[n])
    ensures Squares(b, n + 1) == Squares(b, n) + b[n] * b[n]
  {
  }

  class Dist {
    const v: array<real>
    var n: nat
    var se: real
    var sr: real

    constructor ()
      ensures fresh(v) && v.Length == NR && n == 0 && se == sr == 0.0
    {
      v := new real[NR];
      n, se, sr := 0, 0.0, 0.0;
    }

    // C writes d->v[d->n++]; the index must be inside the 96 slots.
    method Add(value: real, a: seq<real>, b: seq<real>)
      requires n < v.Length && |a| == |b|
      modifies this, v
      ensures n == old(n) + 1 && v[..n] == old(v[..n]) + [value]
      ensures se == old(se) + SquaredError(a, b, |a|) && sr == old(sr) + Squares(b, |b|)
    {
      v[n] := value;
      n := n + 1;
      for i := 0 to |a|
        invariant se == old(se) + SquaredError(a, b, i) && sr == old(sr) + Squares(b, i)
        invariant n == old(n) + 1 && v[..n] == old(v[..n]) + [value]
      {
        se := se + Square(a[i] - b[i]);
        sr := sr + Square(b[i]);
      }
    }
  }

  /* ---- Percentiles ---- */

  function AtMost(s: seq<real>, x: real): nat {
    if s == [] then 0 else AtMost(s[..|s| - 1], x) + if s[|s| - 1] <= x then 1 else 0
  }

  ghost predicate Sorted(s: seq<real>) {
    forall i, j | 0 <= i < j < |s| :: s[i] <= s[j]
  }

  lemma {:induction false} AtMostConcat(a: seq<real>, b: seq<real>, x: real)
    ensures AtMost(a + b, x) == AtMost(a, x) + AtMost(b, x)
  {
    if b == [] {
      assert a + b == a;
    } else {
      AtMostConcat(a, b[..|b| - 1], x);
      assert (a + b)[..|a + b| - 1] == a + b[..|b| - 1];
    }
  }

  lemma {:induction false} SortedAtMost(s: seq<real>, i: nat)
    requires Sorted(s) && i < |s|
    ensures AtMost(s, s[i]) >= i + 1
  {
    AllAtMost(s[..i + 1], s[i]);
    AtMostConcat(s[..i + 1], s[i + 1..], s[i]);
    assert s == s[..i + 1] + s[i + 1..];
  }

  lemma {:induction false} AllAtMost(s: seq<real>, x: real)
    requires forall k | 0 <= k < |s| :: s[k] <= x
    ensures AtMost(s, x) == |s|
  {
    if s != [] {
      AllAtMost(s[..|s| - 1], x);
    }
  }

  method InsertSorted(s: seq<real>, x: real) returns (r: seq<real>)
    requires Sorted(s)
    ensures Sorted(r) && |r| == |s| + 1 && forall y :: AtMost(r, y) == AtMost(s, y) + if x <= y then 1 else 0
    ensures forall y | y in r :: y in s || y == x
  {
    var k := 0;
    while k < |s| && s[k] <= x
      invariant 0 <= k <= |s| && forall i | 0 <= i < k :: s[i] <= x
    {
      k := k + 1;
    }
    r := s[..k] + [x] + s[k..];
    forall y
      ensures AtMost(r, y) == AtMost(s, y) + if x <= y then 1 else 0
    {
      InsertCounts(s, k, x, y);
    }
  }

  lemma {:induction false} InsertCounts(s: seq<real>, k: nat, x: real, y: real)
    requires k <= |s|
    ensures AtMost(s[..k] + [x] + s[k..], y) == AtMost(s, y) + if x <= y then 1 else 0
  {
    AtMostConcat(s[..k] + [x], s[k..], y);
    AtMostConcat(s[..k], [x], y);
    AtMostConcat(s[..k], s[k..], y);
    assert s == s[..k] + s[k..];
    assert AtMost([x], y) == if x <= y then 1 else 0;
  }

  method SortValues(s: seq<real>) returns (r: seq<real>)
    ensures Sorted(r) && |r| == |s| && (forall y :: AtMost(r, y) == AtMost(s, y)) && forall y | y in r :: y in s
  {
    r := [];
    for k := 0 to |s|
      invariant Sorted(r) && |r| == k && (forall y :: AtMost(r, y) == AtMost(s[..k], y)) && forall y | y in r :: y in s
    {
      r := InsertSorted(r, s[k]);
      assert s[..k + 1][..k] == s[..k];
    }
    assert s[..|s|] == s;
  }

  function Ceil(x: real): (c: int)
    ensures c as real - 1.0 < x <= c as real
  {
    if x.Floor as real == x then x.Floor else x.Floor + 1
  }

  // Is `count` at least the fraction p of n?
  predicate Reaches(count: int, p: real, n: nat) {
    count as real >= p * n as real
  }

  lemma ReachesIff(count: int, p: real, n: nat)
    ensures Reaches(count, p, n) <==> !((count as real) < p * n as real)
  {
  }

  lemma ReachesMore(count: int, more: int, p: real, n: nat)
    requires Reaches(count, p, n) && count <= more
    ensures Reaches(more, p, n)
  {
  }

  method PercentileIndex(p: real, n: nat) returns (i: int)
    requires 0 < n && 0.0 <= p <= 1.0
    ensures 0 <= i < n && Reaches(i + 1, p, n) && (i == 0 || !Reaches(i, p, n))
    ensures (i + 1) as real >= p * n as real && (i == 0 || (i as real) < p * n as real)
  {
    var target := p * n as real;
    assert 0.0 <= target <= n as real;
    i := Ceil(target) - 1;
    if i < 0 { i := 0; }
    if i >= n { i := n - 1; }
  }

  /** The p-th percentile is the least of the values that at least p of them do not exceed. */
  method Pct(d: Dist, p: real) returns (x: real)
    requires 0 < d.n <= d.v.Length && 0.0 <= p <= 1.0
    ensures x in d.v[..d.n] && Reaches(AtMost(d.v[..d.n], x), p, d.n)
    ensures forall y | y in d.v[..d.n] && y < x :: !Reaches(AtMost(d.v[..d.n], y), p, d.n)
  {
    var i := PercentileIndex(p, d.n);
    var sorted := SortValues(d.v[..d.n]);
    x := sorted[i];
    SortedAtMost(sorted, i);
    ReachesMore(i + 1, AtMost(sorted, x), p, d.n);
    forall y | y in d.v[..d.n] && y < x
      ensures !Reaches(AtMost(d.v[..d.n], y), p, d.n)
    {
      SmallerReachesLess(sorted, i, y);
      if Reaches(AtMost(sorted, y), p, d.n) { ReachesMore(AtMost(sorted, y), i, p, d.n); }
      if i == 0 { OneAtMost(d.v[..d.n], y); }
    }
  }

  lemma {:induction false} SmallerReachesLess(s: seq<real>, i: nat, y: real)
    requires Sorted(s) && i < |s| && y < s[i]
    ensures AtMost(s, y) <= i
  {
    AtMostConcat(s[..i], s[i..], y);
    assert s == s[..i] + s[i..];
    NoneAtMost(s[i..], y);
    AtMostLength(s[..i], y);
  }

  lemma {:induction false} NoneAtMost(s: seq<real>, y: real)
    requires forall k | 0 <= k < |s| :: y < s[k]
    ensures AtMost(s, y) == 0
  {
    if s != [] { NoneAtMost(s[..|s| - 1], y); }
  }

  lemma {:induction false} AtMostLength(s: seq<real>, y: real)
    ensures AtMost(s, y) <= |s|
  {
    if s != [] { AtMostLength(s[..|s| - 1], y); }
  }

  lemma {:induction false} OneAtMost(s: seq<real>, y: real)
    requires y in s
    ensures AtMost(s, y) >= 1
  {
    var n := |s| - 1;
    if s[n] != y {
      assert s == s[..n] + [s[n]];
      OneAtMost(s[..n], y);
    }
  }

  /* ---- The record loop ---- */

  // `int layer=meta[0],step=meta[1],rank0=meta[4]`: the unsigned words as signed ints.
  predicate Selected(raw: RawRecord) {
    Wrap32(raw.layer) in {0, 20, 39} && Wrap32(raw.step) < 4 && Wrap32(raw.rank) < 8
  }

  function Split(raw: RawRecord): nat { if Wrap32(raw.step) < 2 then 0 else 1 }

  function InSplit(raws: seq<RawRecord>, split: nat): (n: nat)
    ensures n <= |raws|
  {
    if raws == [] then 0 else InSplit(raws[..|raws| - 1], split) + if Split(raws[|raws| - 1]) == split then 1 else 0
  }

  /** The selector test on the unsigned words of the file: a step or rank word with its top
      bit set is negative as an int, and passes. */
  lemma SelectedIff(raw: RawRecord)
    requires IsU32(raw.layer) && IsU32(raw.step) && IsU32(raw.rank)
    ensures Selected(raw)
            <==> && (raw.layer == 0 || raw.layer == 20 || raw.layer == 39)
                 && (raw.step <= 3 || raw.step >= 0x8000_0000) && (raw.rank <= 7 || raw.rank >= 0x8000_0000)
    ensures Split(raw) == if raw.step <= 1 || raw.step >= 0x8000_0000 then 0 else 1
  {
  }

  function SplitIndices(raws: seq<RawRecord>, split: nat): set<int> {
    set i | 0 <= i < |raws| && Split(raws[i]) == split
  }

  /** The records of one split, counted by index. */
  lemma {:induction false} InSplitIs(raws: seq<RawRecord>, split: nat)
    ensures InSplit(raws, split) == |SplitIndices(raws, split)|
  {
    if raws != [] {
      var n := |raws| - 1;
      InSplitIs(raws[..n], split);
      assert SplitIndices(raws, split) == SplitIndices(raws[..n], split) + if Split(raws[n]) == split then {n} else {};
    }
  }

  // Index of the first refused record from k on, or the number of records.
  function DoneFrom(raws: seq<RawRecord>, k: nat): (n: nat)
    requires k <= |raws|
    ensures k <= n <= |raws| && (forall j | k <= j < n :: Selected(raws[j])) && (n < |raws| ==> !Selected(raws[n]))
    decreases |raws| - k
  {
    if k == |raws| || !Selected(raws[k]) then k else DoneFrom(raws, k + 1)
  }

  // How many records the loop adds.
  function Done(raws: seq<RawRecord>): nat { DoneFrom(raws, 0) }

  // Two raw projections, the hidden and the output vector, and one corrected output for
  // each method and budget.
  const METHODS: nat := 3
  const BUDGETS: nat := 5
  const STAGES: nat := 3 + METHODS * BUDGETS

  // Values of one record that a stage receives.
  function Each(stage: nat): nat { if stage == 0 then 2 else 1 }

  // The distributions lie stage by stage, calibration before holdout.
  ghost predicate Filled(all: seq<Dist>, raws: seq<RawRecord>)
    requires |all| == 2 * STAGES
    reads all
  {
    forall k: nat | k < 2 * STAGES :: all[k].n == ValuesIn(raws, k)
  }

  function ValuesIn(raws: seq<RawRecord>, k: nat): nat {
    var records := InSplit(raws, k % 2);
    if k / 2 == 0 then records + records else records
  }

  // Distributions with storage of their own.
  ghost predicate Apart(all: seq<Dist>) {
    && |all| == 2 * STAGES && (forall i | 0 <= i < |all| :: all[i].v.Length == NR)
    && (forall i, j | 0 <= i < j < |all| :: all[i] != all[j] && all[i].v != all[j].v)
  }

  lemma SplitStep(raws: seq<RawRecord>, k: nat, split: nat)
    requires k < |raws|
    ensures InSplit(raws[..k + 1], split) == InSplit(raws[..k], split) + if Split(raws[k]) == split then 1 else 0
  {
    assert raws[..k + 1][..k] == raws[..k];
  }

  // `PastSlots`: the next addition would write past the 96 slots of its distribution.
  datatype LoopResult = Truncated | BadSelector | PastSlots | Replayed

  // A relative error with the two vectors it compares.
  datatype Measured = Measured(error: real, actual: seq<real>, expected: seq<real>)

  ghost predicate SameLengths(measured: (nat, nat) -> Measured) {
    forall r: nat, k: nat :: |measured(r, k).actual| == |measured(r, k).expected|
  }

  method NewDists() returns (all: seq<Dist>)
    ensures Apart(all) && forall i | 0 <= i < |all| :: fresh(all[i]) && fresh(all[i].v) && all[i].n == 0
  {
    all := [];
    for k := 0 to 2 * STAGES
      invariant |all| == k && forall i | 0 <= i < k :: fresh(all[i]) && fresh(all[i].v) && all[i].n == 0 && all[i].v.Length == NR
      invariant forall i, j | 0 <= i < j < k :: all[i] != all[j] && all[i].v != all[j].v
    {
      var d := new Dist();
      all := all + [d];
    }
  }

  method AddMeasured(all: seq<Dist>, k: nat, m: Measured)
    requires Apart(all) && k < |all| && all[k].n < NR && |m.actual| == |m.expected|
    modifies all[k], all[k].v
    ensures all[k].n == old(all[k].n) + 1
    ensures forall i | 0 <= i < |all| && i != k :: all[i].n == old(all[i].n)
  {
    all[k].Add(m.error, m.actual, m.expected);
  }

  // The additions of one record, all to its own split.
  method AddRecord(all: seq<Dist>, split: nat, measured: (nat, nat) -> Measured, ri: nat)
    requires Apart(all) && split < 2 && SameLengths(measured)
    requires forall k: nat | k < 2 * STAGES && k % 2 == split :: all[k].n + Each(k / 2) <= NR
    modifies set d | d in all, set d | d in all :: d.v
    ensures forall k: nat | k < 2 * STAGES :: all[k].n == old(all[k].n) + if k % 2 == split then Each(k / 2) else 0
  {
    AddMeasured(all, split, measured(ri, 0));
    AddMeasured(all, split, measured(ri, 1));
    for stage := 1 to STAGES
      invariant forall k: nat | k < 2 * STAGES ::
          all[k].n == old(all[k].n) + if k % 2 == split && k / 2 < stage then Each(k / 2) else 0
    {
      AddMeasured(all, 2 * stage + split, measured(ri, stage + 1));
    }
  }

  // Is there room for the additions of record ri?
  ghost predicate HasRoom(raws: seq<RawRecord>, ri: nat)
    requires ri < |raws|
  {
    forall stage: nat | stage < STAGES :: ValuesIn(raws[..ri], 2 * stage + Split(raws[ri])) + Each(stage) <= NR
  }

  // Every addition of the record loop stays inside the 96 slots of its distribution.
  ghost predicate AddsStayInside(raws: seq<RawRecord>) {
    forall ri: nat | ri < Done(raws) :: HasRoom(raws, ri)
  }

  method RoomFor(all: seq<Dist>, ghost raws: seq<RawRecord>, split: nat, ghost ri: nat) returns (room: bool)
    requires |all| == 2 * STAGES && ri < |raws| && split == Split(raws[ri]) && Filled(all, raws[..ri])
    ensures room <==> HasRoom(raws, ri)
  {
    room := forall stage: nat | stage < STAGES :: all[2 * stage + split].n + Each(stage) <= NR;
    assert forall stage: nat | stage < STAGES :: all[2 * stage + split].n == ValuesIn(raws[..ri], 2 * stage + split);
  }

  method AddToSplit(all: seq<Dist>, raws: seq<RawRecord>, split: nat, measured: (nat, nat) -> Measured, ri: nat)
    requires Apart(all) && SameLengths(measured)
    requires ri < |raws| && split == Split(raws[ri]) && Filled(all, raws[..ri]) && HasRoom(raws, ri)
    modifies set d | d in all, set d | d in all :: d.v
    ensures Filled(all, raws[..ri + 1])
  {
    forall k: nat | k < 2 * STAGES
      ensures ValuesIn(raws[..ri + 1], k) == ValuesIn(raws[..ri], k) + if k % 2 == split then Each(k / 2) else 0
      ensures k % 2 == split ==> ValuesIn(raws[..ri], k) + Each(k / 2) <= NR
    {
      SplitStep(raws, ri, k % 2);
      assert k == 2 * (k / 2) + k % 2;
    }
    AddRecord(all, split, measured, ri);
  }

  // One record: refused, without room, or added.
  method ReplayRecord(all: seq<Dist>, raws: seq<RawRecord>, measured: (nat, nat) -> Measured, ri: nat) returns (result: LoopResult)
    requires Apart(all) && SameLengths(measured) && ri < |raws| && Filled(all, raws[..ri])
    modifies set d | d in all, set d | d in all :: d.v
    ensures result == if !Selected(raws[ri]) then BadSelector else if !HasRoom(raws, ri) then PastSlots else Replayed
    ensures if result == Replayed then Filled(all, raws[..ri + 1]) else Filled(all, raws[..ri])
  {
    var layer, step, rank0 := Wrap32(raws[ri].layer), Wrap32(raws[ri].step), Wrap32(raws[ri].rank);
    var split := if step < 2 then 0 else 1;
    if !((layer == 0 || layer == 20 || layer == 39) && step < 4 && rank0 < 8) { return BadSelector; }
    var room := RoomFor(all, raws, split, ri);
    if !room { return PastSlots; }
    AddToSplit(all, raws, split, measured, ri);
    return Replayed;
  }

  // The record loop.
  method ReplayLoop(raws: seq<RawRecord>, measured: (nat, nat) -> Measured) returns (result: LoopResult, all: seq<Dist>)
    requires |raws| <= NR && SameLengths(measured)
    ensures result == PastSlots <==> !AddsStayInside(raws)
    ensures result != PastSlots ==>
        && result == (if Done(raws) < |raws| then BadSelector else if |raws| < NR then Truncated else Replayed)
        && |all| == 2 * STAGES && Filled(all, raws[..Done(raws)])
  {
    all := NewDists();
    for ri := 0 to NR
      invariant ri <= Done(raws) && Done(raws) == DoneFrom(raws, ri) && Filled(all, raws[..ri])
      invariant forall k: nat | k < ri :: HasRoom(raws, k)
      invariant forall i | 0 <= i < |all| :: fresh(all[i]) && fresh(all[i].v)
    {
      if ri == |raws| { return Truncated, all; }
      result := ReplayRecord(all, raws, measured, ri);
      if result != Replayed { return; }
    }
    assert raws[..NR] == raws;
    result := Replayed;
  }

  lemma {:induction false} ValuesAre(raws: seq<RawRecord>, k: nat)
    requires k < 36
    ensures ValuesIn(raws, k) == (if k < 2 then 2 else 1) * InSplit(raws, k % 2)
  {
  }

  /** For any records, of which at most 96 are read: the loop ends at the end of a short file, at the
      first selector it refuses, at the first addition without room, or after all 96; up to
      there all 36 distributions hold the values of the records added.  A capture with the
      exact cover is replayed, and its distributions end with 96 reconstruction values per
      split and 48 of every other stage, none of them empty for `pct`. */
  method Replay(raws: seq<RawRecord>, measured: (nat, nat) -> Measured) returns (result: LoopResult, all: seq<Dist>)
    requires |raws| <= NR && SameLengths(measured)
    ensures result == PastSlots <==> !AddsStayInside(raws)
    ensures result != PastSlots ==>
        && result == (if Done(raws) < |raws| then BadSelector else if |raws| < 96 then Truncated else Replayed)
        && |all| == 36
        && forall k: nat | k < 36 :: all[k].n == (if k < 2 then 2 else 1) * InSplit(raws[..Done(raws)], k % 2)
    ensures ExactCover(raws) ==> result == Replayed && forall k: nat | k < 36 :: all[k].n == if k < 2 then 96 else 48
  {
    result, all := ReplayLoop(raws, measured);
    CoverIsReplayed(raws);
    if result != PastSlots {
      forall k: nat | k < 36
        ensures all[k].n == (if k < 2 then 2 else 1) * InSplit(raws[..Done(raws)], k % 2)
      {
        ValuesAre(raws[..Done(raws)], k);
        assert all[k].n == ValuesIn(raws[..Done(raws)], k);
      }
    }
  }

  lemma {:induction false} CoverIsReplayed(raws: seq<RawRecord>)
    ensures ExactCover(raws) ==> |raws| == NR && Done(raws) == NR && AddsStayInside(raws)
    ensures ExactCover(raws) ==> raws[..NR] == raws && InSplit(raws, 0) == InSplit(raws, 1) == 48
  {
    if ExactCover(raws) {
      CoverSplitsEvenly(raws);
      forall k: nat | k < |raws|
        ensures Selected(raws[k]) && (raws[k].step < 2 <==> Split(raws[k]) == 0)
      {
        assert raws[k] in raws;
        ExpectedAre(RouteOf(raws[k]));
      }
      EarlyIsSplit(raws);
      BothSplits(raws);
      SlotsSufficeIff(raws);
      assert raws[..NR] == raws;
    }
  }

  /* ---- When the slots suffice ---- */

  lemma {:induction false} EarlyIsSplit(raws: seq<RawRecord>)
    requires forall k | 0 <= k < |raws| :: raws[k].step < 2 <==> Split(raws[k]) == 0
    ensures Early(raws) == InSplit(raws, 0)
  {
    if raws != [] { EarlyIsSplit(raws[..|raws| - 1]); }
  }

  lemma {:induction false} BothSplits(raws: seq<RawRecord>)
    ensures InSplit(raws, 0) + InSplit(raws, 1) == |raws|
  {
    if raws != [] { BothSplits(raws[..|raws| - 1]); }
  }

  lemma {:induction false} SplitPrefix(raws: seq<RawRecord>, k: nat, split: nat)
    requires k <= |raws|
    ensures InSplit(raws[..k], split) <= InSplit(raws, split)
    decreases |raws| - k
  {
    if k < |raws| {
      SplitStep(raws, k, split);
      SplitPrefix(raws, k + 1, split);
    } else {
      assert raws[..k] == raws;
    }
  }

  lemma {:induction false} RoomInside(raws: seq<RawRecord>, n: nat, ri: nat)
    requires ri < n <= |raws| && InSplit(raws[..n], 0) <= 48 && InSplit(raws[..n], 1) <= 48
    ensures HasRoom(raws, ri)
  {
    var split := Split(raws[ri]);
    SplitStep(raws, ri, split);
    SplitPrefix(raws[..n], ri + 1, split);
    assert raws[..n][..ri + 1] == raws[..ri + 1];
    assert InSplit(raws[..ri], split) < 48;
  }

  lemma {:induction false} NoRoomPast(raws: seq<RawRecord>, n: nat, split: nat)
    requires n <= |raws| && split < 2 && InSplit(raws[..n], split) > 48
    ensures exists ri: nat :: ri < n && !HasRoom(raws, ri)
  {
    var ri := Overfull(raws[..n], split);
    assert raws[..n][..ri] == raws[..ri];
    var stage: nat := 0;
    assert ValuesIn(raws[..ri], 2 * stage + Split(raws[ri])) == 96 && Each(stage) == 2;
    assert !HasRoom(raws, ri);
  }

  /** The slots suffice exactly when at most 48 of the records before the first refused
      one fall in each split: for 96 records none of which is refused, when they split 48
      to 48. */
  lemma {:induction false} SlotsSufficeIff(raws: seq<RawRecord>)
    ensures var added := raws[..Done(raws)];
            AddsStayInside(raws) <==> InSplit(added, 0) <= 48 && InSplit(added, 1) <= 48
    ensures |raws| == Done(raws) == NR ==> (AddsStayInside(raws) <==> InSplit(raws, 0) == 48)
  {
    var n := Done(raws);
    if InSplit(raws[..n], 0) <= 48 && InSplit(raws[..n], 1) <= 48 {
      forall ri: nat | ri < n
        ensures HasRoom(raws, ri)
      {
        RoomInside(raws, n, ri);
      }
    } else {
      NoRoomPast(raws, n, if InSplit(raws[..n], 0) > 48 then 0 else 1);
    }
    BothSplits(raws[..n]);
    assert n == |raws| ==> raws[..n] == raws;
  }

  // The 49th record of an overfull split.
  lemma {:induction false} Overfull(raws: seq<RawRecord>, split: nat) returns (ri: nat)
    requires InSplit(raws, split) > 48
    ensures ri < |raws| && Split(raws[ri]) == split && InSplit(raws[..ri], split) == 48
  {
    var n := |raws| - 1;
    if InSplit(raws[..n], split) > 48 {
      ri := Overfull(raws[..n], split);
      assert raws[..n][..ri] == raws[..ri];
    } else {
      ri := n;
    }
  }

  /* ---- A step word that is negative as an int ---- */

  function StepRecord(step: int): RawRecord { RawRecord(0, step, 0, 0, 0, 8, 524_288, 524_288, 0, 0) }

  function StepRecords(step: int, n: nat): (raws: seq<RawRecord>)
    ensures |raws| == n && forall k | 0 <= k < n :: raws[k] == StepRecord(step)
  {
    if n == 0 then [] else StepRecords(step, n - 1) + [StepRecord(step)]
  }

  lemma {:induction false} CountSteps(raws: seq<RawRecord>, step: int, n: nat)
    ensures Early(raws + StepRecords(step, n)) == Early(raws) + if step < 2 then n else 0
    ensures InSplit(raws + StepRecords(step, n), 0) == InSplit(raws, 0) + if Wrap32(step) < 2 then n else 0
  {
    if n > 0 {
      CountSteps(raws, step, n - 1);
      var s := raws + StepRecords(step, n);
      assert s[..|s| - 1] == raws + StepRecords(step, n - 1);
    } else {
      assert raws + [] == raws;
    }
  }

  /** 96 records that the manifest counts as 48 and 48, that the loop accepts one by one,
      and that overflow: a step word with its top bit set falls in the first split. */
  lemma {:induction false} NegativeStepOverflows() returns (raws: seq<RawRecord>)
    ensures |raws| == NR && Done(raws) == NR && Early(raws) == 48
    ensures forall k | 0 <= k < NR :: AllU32(RecordWords(raws[k]))
    ensures InSplit(raws, 0) == 49 && !AddsStayInside(raws)
  {
    raws := StepRecords(0, 48) + StepRecords(2, 47) + StepRecords(0xffff_ffff, 1);
    CountTail(0, 48, 2, 47, 0xffff_ffff, 1);
    StepsSelected(raws);
    DoneAll(raws);
    SlotsSufficeIff(raws);
  }

  lemma StepsSelected(raws: seq<RawRecord>)
    requires forall k | 0 <= k < |raws| :: raws[k] in {StepRecord(0), StepRecord(2), StepRecord(0xffff_ffff)}
    ensures forall k | 0 <= k < |raws| :: Selected(raws[k]) && AllU32(RecordWords(raws[k]))
  {
  }

  lemma {:induction false} CountTail(a: int, i: nat, b: int, j: nat, c: int, k: nat)
    ensures var raws := StepRecords(a, i) + StepRecords(b, j) + StepRecords(c, k);
            && Early(raws) == (if a < 2 then i else 0) + (if b < 2 then j else 0) + (if c < 2 then k else 0)
            && InSplit(raws, 0) == (if Wrap32(a) < 2 then i else 0) + (if Wrap32(b) < 2 then j else 0) + (if Wrap32(c) < 2 then k else 0)
  {
    CountSteps([], a, i);
    CountSteps(StepRecords(a, i), b, j);
    CountSteps(StepRecords(a, i) + StepRecords(b, j), c, k);
    assert [] + StepRecords(a, i) == StepRecords(a, i);
  }

  lemma DoneAll(raws: seq<RawRecord>)
    requires forall k | 0 <= k < |raws| :: Selected(raws[k])
    ensures Done(raws) == |raws|
  {
  }
}
