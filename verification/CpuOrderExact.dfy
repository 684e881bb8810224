/** What the two evaluation trees mean: with exact sums each is the scaled dot product, for
    every width, so rounding order is all they can differ in. */
module CpuOrderExact {
  import opened CpuOrderKernel
  import opened CpuOrderMatvec

  // Sums are those of the reals and a fused step multiplies, then adds; products are arbitrary.
  ghost predicate Exact(ar: Arith<real>) {
    && ar.zero == 0.0 && (forall a, b :: ar.add(a, b) == a + b)
    && (forall a, b, c :: ar.fma(a, b, c) == ar.mul(a, b) + c)
  }

  // Over the first n columns.
  function Dot(ar: Arith<real>, x: seq<real>, w: seq<int8>, n: nat): real
    requires n <= |x| == |w|
  {
    if n == 0 then 0.0 else Dot(ar, x, w, n - 1) + ar.mul(x[n - 1], ar.fromInt8(w[n - 1]))
  }

  // The first n of the lane values.
  function Front(v: seq<real>, n: nat): real
    requires n <= |v|
  {
    if n == 0 then 0.0 else Front(v, n - 1) + v[n - 1]
  }

  // Every lane after a number of full steps.
  function Lanes(ar: Arith<real>, x: seq<real>, w: seq<int8>, steps: nat): (v: seq<real>)
    requires |x| == |w| && 32 * steps <= |x|
    ensures |v| == LANES
  {
    seq(LANES, lane requires 0 <= lane < LANES => LaneAccumulator(ar, x, w, lane, steps))
  }

  lemma OneStep(ar: Arith<real>, x: seq<real>, w: seq<int8>, lane: nat, steps: nat)
    requires Exact(ar) && |x| == |w| && lane + 32 * steps < |x|
    ensures LaneAccumulator(ar, x, w, lane, steps + 1)
            == LaneAccumulator(ar, x, w, lane, steps) + Dot(ar, x, w, lane + 32 * steps + 1) - Dot(ar, x, w, lane + 32 * steps)
  {
    var c, before := lane + 32 * steps, LaneAccumulator(ar, x, w, lane, steps);
    var a, b := x[c], ar.fromInt8(w[c]);
    assert ar.fma(a, b, before) == ar.mul(a, b) + before;
    assert Dot(ar, x, w, c + 1) == Dot(ar, x, w, c) + ar.mul(x[c], ar.fromInt8(w[c]));
  }

  // One more step of the first n lanes takes the next n columns.
  lemma {:induction false} NextColumns(ar: Arith<real>, x: seq<real>, w: seq<int8>, n: nat, steps: nat)
    requires Exact(ar) && |x| == |w| && n <= 32 && 32 * steps + 32 <= |x|
    ensures Front(Lanes(ar, x, w, steps + 1), n)
            == Front(Lanes(ar, x, w, steps), n) + Dot(ar, x, w, 32 * steps + n) - Dot(ar, x, w, 32 * steps)
  {
    if n > 0 {
      NextColumns(ar, x, w, n - 1, steps);
      OneStep(ar, x, w, n - 1, steps);
    }
  }

  lemma {:induction false} NoneYet(v: seq<real>, n: nat)
    requires n <= |v| && forall i | 0 <= i < |v| :: v[i] == 0.0
    ensures Front(v, n) == 0.0
  {
    if n > 0 { NoneYet(v, n - 1); }
  }

  lemma {:induction false} LanesAreDot(ar: Arith<real>, x: seq<real>, w: seq<int8>, steps: nat)
    requires Exact(ar) && |x| == |w| && 32 * steps <= |x|
    ensures Front(Lanes(ar, x, w, steps), 32) == Dot(ar, x, w, 32 * steps)
  {
    if steps == 0 {
      NoneYet(Lanes(ar, x, w, 0), 32);
    } else {
      LanesAreDot(ar, x, w, steps - 1);
      NextColumns(ar, x, w, 32, steps - 1);
    }
  }

  function Sum8(v: seq<real>): real
    requires |v| == 8
  {
    v[0] + v[1] + v[2] + v[3] + v[4] + v[5] + v[6] + v[7]
  }

  lemma {:induction false} EightMore(v: seq<real>, n: nat)
    requires n + 8 <= |v|
    ensures Front(v, n + 8) == Front(v, n) + (v[n] + v[n + 1] + v[n + 2] + v[n + 3] + v[n + 4] + v[n + 5] + v[n + 6] + v[n + 7])
  {
    FourMore(v, n);
    FourMore(v, n + 4);
  }

  lemma {:induction false} FourMore(v: seq<real>, n: nat)
    requires n + 4 <= |v|
    ensures Front(v, n + 4) == Front(v, n) + v[n] + v[n + 1] + v[n + 2] + v[n + 3]
  {
    assert Front(v, n + 2) == Front(v, n) + v[n] + v[n + 1];
  }

  lemma AddsPairs(ar: Arith<real>, a: seq<real>, b: seq<real>)
    requires Exact(ar) && |a| == |b| == 8
    ensures forall i | 0 <= i < 8 :: AddPs(ar, a, b)[i] == a[i] + b[i]
  {
  }

  lemma AddsEight(ar: Arith<real>, v: seq<real>)
    requires Exact(ar) && |v| == 8
    ensures Tree8(ar, v) == Sum8(v)
  {
  }

  // The vector reduction adds all 32 elements.
  lemma {:induction false} ReduceAddsAll(ar: Arith<real>, a0: seq<real>, a1: seq<real>, a2: seq<real>, a3: seq<real>)
    requires Exact(ar) && |a0| == |a1| == |a2| == |a3| == 8
    ensures AvxReduce(ar, a0, a1, a2, a3) == Sum8(a0) + Sum8(a1) + Sum8(a2) + Sum8(a3)
  {
    var b, c := AddPs(ar, a0, a1), AddPs(ar, a2, a3);
    AddsPairs(ar, a0, a1);
    AddsPairs(ar, a2, a3);
    AddsPairs(ar, b, c);
    AvxAddsTree8(ar, AddPs(ar, b, c));
    AddsEight(ar, AddPs(ar, b, c));
  }

  lemma {:induction false} SlicesAddUp(acc: seq<real>, a0: seq<real>, a1: seq<real>, a2: seq<real>, a3: seq<real>)
    requires |acc| == LANES && |a0| == |a1| == |a2| == |a3| == 8 && HoldsVectors(acc, a0, a1, a2, a3)
    ensures Front(acc, 32) == Sum8(a0) + Sum8(a1) + Sum8(a2) + Sum8(a3)
  {
    EightMore(acc, 0);
    EightMore(acc, 8);
    EightMore(acc, 16);
    EightMore(acc, 24);
    assert Front(acc, 8) == Sum8(a0);
    assert Front(acc, 16) == Front(acc, 8) + Sum8(a1);
    assert Front(acc, 24) == Front(acc, 16) + Sum8(a2);
  }

  lemma {:induction false} WarpAddsAll(ar: Arith<real>, acc: seq<real>)
    requires Exact(ar) && |acc| == LANES
    ensures WarpReduce(ar, acc)[0] == Front(acc, 32)
  {
    var a0, a1, a2, a3 := acc[..8], acc[8..16], acc[16..24], acc[24..];
    ReductionsAgree(ar, acc, a0, a1, a2, a3);
    ReduceAddsAll(ar, a0, a1, a2, a3);
    SlicesAddUp(acc, a0, a1, a2, a3);
  }

  lemma {:induction false} LanesHoldVectors(ar: Arith<real>, x: seq<real>, w: seq<int8>, blocks: nat)
    requires |x| == |w| && 32 * blocks <= |x|
    ensures HoldsVectors(Lanes(ar, x, w, blocks), AvxAccumulator(ar, x, w, 0, blocks), AvxAccumulator(ar, x, w, 1, blocks),
                         AvxAccumulator(ar, x, w, 2, blocks), AvxAccumulator(ar, x, w, 3, blocks))
  {
    forall j: nat, i: nat | j < 4 && i < 8
      ensures AvxAccumulator(ar, x, w, j, blocks)[i] == Lanes(ar, x, w, blocks)[8 * j + i]
    {
      AvxLaneIsWarpLane(ar, x, w, j, i, blocks);
    }
  }

  lemma {:induction false} VectorsAreDot(ar: Arith<real>, x: seq<real>, w: seq<int8>, blocks: nat)
    requires Exact(ar) && |x| == |w| && 32 * blocks <= |x|
    ensures AvxReduce(ar, AvxAccumulator(ar, x, w, 0, blocks), AvxAccumulator(ar, x, w, 1, blocks),
                      AvxAccumulator(ar, x, w, 2, blocks), AvxAccumulator(ar, x, w, 3, blocks)) == Dot(ar, x, w, 32 * blocks)
  {
    var a0, a1 := AvxAccumulator(ar, x, w, 0, blocks), AvxAccumulator(ar, x, w, 1, blocks);
    var a2, a3 := AvxAccumulator(ar, x, w, 2, blocks), AvxAccumulator(ar, x, w, 3, blocks);
    LanesHoldVectors(ar, x, w, blocks);
    SlicesAddUp(Lanes(ar, x, w, blocks), a0, a1, a2, a3);
    ReduceAddsAll(ar, a0, a1, a2, a3);
    LanesAreDot(ar, x, w, blocks);
  }

  lemma {:induction false} TailIsDot(ar: Arith<real>, x: seq<real>, w: seq<int8>, from: nat, column: nat)
    requires Exact(ar) && from <= column <= |x| == |w|
    ensures ScalarTail(ar, x, w, from, Dot(ar, x, w, from), column) == Dot(ar, x, w, column)
  {
    if from < column { TailIsDot(ar, x, w, from, column - 1); }
  }

  /** The CPU's row is the scaled dot product. */
  lemma {:induction false} CpuRowIsDot(ar: Arith<real>, x: seq<real>, w: seq<int8>, scale: real)
    requires Exact(ar) && |x| == |w|
    ensures CpuRow(ar, x, w, scale) == ar.mul(Dot(ar, x, w, |x|), scale)
  {
    VectorsAreDot(ar, x, w, |x| / 32);
    TailIsDot(ar, x, w, 32 * (|x| / 32), |x|);
  }

  // Lanes below the tail have taken one more step.
  lemma {:induction false} LaneAtEnd(ar: Arith<real>, x: seq<real>, w: seq<int8>, lane: nat)
    requires Exact(ar) && |x| == |w| && lane < LANES
    ensures var c := 32 * (|x| / 32) + lane;
            WarpAccumulators(ar, x, w)[lane]
            == Lanes(ar, x, w, |x| / 32)[lane] + if lane < |x| % 32 then Dot(ar, x, w, c + 1) - Dot(ar, x, w, c) else 0.0
  {
    StepsAtEnd(|x|, lane);
    if lane < |x| % 32 { OneStep(ar, x, w, lane, |x| / 32); }
  }

  lemma {:induction false} LanesAtEnd(ar: Arith<real>, x: seq<real>, w: seq<int8>, n: nat)
    requires Exact(ar) && |x| == |w| && n <= 32
    ensures var blocks, taken := |x| / 32, if n <= |x| % 32 then n else |x| % 32;
            Front(WarpAccumulators(ar, x, w), n)
            == Front(Lanes(ar, x, w, blocks), n) + Dot(ar, x, w, 32 * blocks + taken) - Dot(ar, x, w, 32 * blocks)
  {
    if n > 0 {
      LanesAtEnd(ar, x, w, n - 1);
      LaneAtEnd(ar, x, w, n - 1);
      assert n <= |x| % 32 <==> n - 1 < |x| % 32;
    }
  }

  lemma StepsAtEnd(width: nat, lane: nat)
    requires lane < LANES
    ensures LaneSteps(width, lane) == if lane < width % 32 then width / 32 + 1 else width / 32
  {
  }

  lemma {:induction false} AccumulatorsAreDot(ar: Arith<real>, x: seq<real>, w: seq<int8>)
    requires Exact(ar) && |x| == |w|
    ensures Front(WarpAccumulators(ar, x, w), 32) == Dot(ar, x, w, |x|)
  {
    LanesAtEnd(ar, x, w, 32);
    LanesAreDot(ar, x, w, |x| / 32);
    assert 32 * (|x| / 32) + |x| % 32 == |x|;
  }

  lemma {:induction false} WarpTotal(ar: Arith<real>, x: seq<real>, w: seq<int8>)
    requires Exact(ar) && |x| == |w|
    ensures WarpReduce(ar, WarpAccumulators(ar, x, w))[0] == Dot(ar, x, w, |x|)
  {
    WarpAddsAll(ar, WarpAccumulators(ar, x, w));
    AccumulatorsAreDot(ar, x, w);
  }

  /** So is the warp's, for every width. */
  lemma {:induction false} WarpRowIsDot(ar: Arith<real>, x: seq<real>, w: seq<int8>, scale: real)
    requires Exact(ar) && |x| == |w|
    ensures WarpRow(ar, x, w, scale) == ar.mul(Dot(ar, x, w, |x|), scale)
  {
    WarpTotal(ar, x, w);
  }

  /** In raw indices: output `row` of the CPU's product is the dot product of x with the
      `row`-th |x| weights, times its own scale. */
  lemma {:induction false} CpuMatvecIsDot(ar: Arith<real>, out: seq<real>, x: seq<real>, weights: seq<int8>, scales: seq<real>,
                                          row: nat, from: nat)
    requires Exact(ar) && IsCpuMatvec(ar, out, x, weights, scales) && row < |out| && from == row * |x|
    ensures |scales| == |out| && from + |x| <= |weights|
    ensures out[row] == ar.mul(Dot(ar, x, weights[from..from + |x|], |x|), scales[row])
  {
    CpuRowRaw(ar, out, x, weights, scales, row, from);
    CpuRowIsDot(ar, x, weights[from..from + |x|], scales[row]);
  }

  /** And of the kernel's, whatever the width. */
  lemma {:induction false} WarpMatvecIsDot(ar: Arith<real>, out: seq<real>, x: seq<real>, weights: seq<int8>, scales: seq<real>,
                                           row: nat, from: nat)
    requires Exact(ar) && IsWarpMatvec(ar, out, x, weights, scales) && row < |out| && from == row * |x|
    ensures |scales| == |out| && from + |x| <= |weights|
    ensures out[row] == ar.mul(Dot(ar, x, weights[from..from + |x|], |x|), scales[row])
  {
    WarpRowRaw(ar, out, x, weights, scales, row, from);
    WarpRowIsDot(ar, x, weights[from..from + |x|], scales[row]);
  }
}
