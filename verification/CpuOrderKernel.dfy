/** The Q8 matrix-vector product of one weight matrix, computed by the AVX2/FMA
    loop of the CPU control and by the one-warp-per-row CUDA kernel.

    Floating point is left uninterpreted: `Arith` carries an arbitrary `fma`,
    `add` and `mul`, with no law relating them, so two results can only be shown
    equal by showing that they are the same evaluation tree. */
module CpuOrderKernel {
  type int8 = x: int | -128 <= x < 128

  const LANES: nat := 32

  datatype Arith<!F> = Arith(
    zero: F,
    half: F,
    fromInt8: int8 -> F,
    add: (F, F) -> F,
    mul: (F, F) -> F,
    fma: (F, F, F) -> F)

  /* ---- AVX2 instructions used by the CPU control ---- */

  function SetZero<F>(ar: Arith<F>): (v: seq<F>)
    ensures |v| == 8
  {
    seq(8, i => ar.zero)
  }

  function FmaddPs<F>(ar: Arith<F>, x: seq<F>, w: seq<int8>, a: seq<F>): (v: seq<F>)
    requires |x| == |w| == |a| == 8
    ensures |v| == 8
  {
    seq(8, i requires 0 <= i < 8 => ar.fma(x[i], ar.fromInt8(w[i]), a[i]))
  }

  function AddPs<F>(ar: Arith<F>, a: seq<F>, b: seq<F>): (v: seq<F>)
    requires |a| == |b|
    ensures |v| == |a|
  {
    seq(|a|, i requires 0 <= i < |a| => ar.add(a[i], b[i]))
  }

  function MovehlPs<F>(a: seq<F>, b: seq<F>): (v: seq<F>)
    requires |a| == |b| == 4
    ensures |v| == 4
  {
    [b[2], b[3], a[2], a[3]]
  }

  // Only immediate 1 occurs: it selects lanes 1 and 0 of `a`, then lane 0 of `b` twice.
  function ShufflePs1<F>(a: seq<F>, b: seq<F>): (v: seq<F>)
    requires |a| == |b| == 4
    ensures |v| == 4
  {
    [a[1], a[0], b[0], b[0]]
  }

  function AddSs<F>(ar: Arith<F>, a: seq<F>, b: seq<F>): (v: seq<F>)
    requires |a| == |b| == 4
    ensures |v| == 4
  {
    [ar.add(a[0], b[0]), a[1], a[2], a[3]]
  }

  /* ---- What the CPU row computes ---- */

  // Accumulator register a0..a3 (j = 0..3) after `blocks` iterations of 32 columns.
  function AvxAccumulator<F>(ar: Arith<F>, x: seq<F>, w: seq<int8>, j: nat, blocks: nat): (v: seq<F>)
    requires |x| == |w| && j < 4 && 32 * blocks <= |x|
    ensures |v| == 8
  {
    if blocks == 0 then SetZero(ar)
    else
      var c := 32 * (blocks - 1) + 8 * j;
      FmaddPs(ar, x[c..c + 8], w[c..c + 8], AvxAccumulator(ar, x, w, j, blocks - 1))
  }

  function AvxReduce<F>(ar: Arith<F>, a0: seq<F>, a1: seq<F>, a2: seq<F>, a3: seq<F>): F
    requires |a0| == |a1| == |a2| == |a3| == 8
  {
    var a := AddPs(ar, AddPs(ar, a0, a1), AddPs(ar, a2, a3));
    var reduced := AddPs(ar, a[..4], a[4..]);
    var reduced' := AddPs(ar, reduced, MovehlPs(reduced, reduced));
    AddSs(ar, reduced', ShufflePs1(reduced', reduced'))[0]
  }

  // The scalar loop over the columns left when the width is not a multiple of 32.
  function ScalarTail<F>(ar: Arith<F>, x: seq<F>, w: seq<int8>, from: nat, total: F, column: nat): F
    requires |x| == |w| && from <= column <= |x|
    decreases column
  {
    if column == from then total
    else ar.add(ScalarTail(ar, x, w, from, total, column - 1), ar.mul(x[column - 1], ar.fromInt8(w[column - 1])))
  }

  function CpuRow<F>(ar: Arith<F>, x: seq<F>, w: seq<int8>, scale: F): F
    requires |x| == |w|
  {
    var blocks := |x| / 32;
    var total := AvxReduce(ar, AvxAccumulator(ar, x, w, 0, blocks), AvxAccumulator(ar, x, w, 1, blocks),
                           AvxAccumulator(ar, x, w, 2, blocks), AvxAccumulator(ar, x, w, 3, blocks));
    ar.mul(ScalarTail(ar, x, w, 32 * blocks, total, |x|), scale)
  }

  /* ---- What the warp computes ---- */

  // The accumulator of one lane after `steps` iterations over columns lane, lane + 32, ...
  function LaneAccumulator<F>(ar: Arith<F>, x: seq<F>, w: seq<int8>, lane: nat, steps: nat): F
    requires |x| == |w| && (steps > 0 ==> lane + 32 * (steps - 1) < |x|)
  {
    if steps == 0 then ar.zero
    else
      var c := lane + 32 * (steps - 1);
      ar.fma(x[c], ar.fromInt8(w[c]), LaneAccumulator(ar, x, w, lane, steps - 1))
  }

  // Number of columns lane, lane + 32, ... below the width.
  function LaneSteps(width: nat, lane: nat): (steps: nat)
    requires lane < LANES
    ensures steps > 0 ==> lane + 32 * (steps - 1) < width
    ensures lane + 32 * steps >= width
  {
    (width + 31 - lane) / 32
  }

  function WarpAccumulators<F>(ar: Arith<F>, x: seq<F>, w: seq<int8>): (acc: seq<F>)
    requires |x| == |w|
    ensures |acc| == LANES
  {
    seq(LANES, lane requires 0 <= lane < LANES => LaneAccumulator(ar, x, w, lane, LaneSteps(|x|, lane)))
  }

  // __shfl_sync(mask, values, (lane + distance) & 31), executed by every lane.
  function ShflSync<F>(values: seq<F>, distance: nat): (v: seq<F>)
    requires |values| == LANES
    ensures |v| == LANES
  {
    seq(LANES, lane requires 0 <= lane < LANES => values[(lane + distance) % 32])
  }

  // The lockstep reduction; the result holds `total` of every lane.
  function WarpReduce<F>(ar: Arith<F>, acc: seq<F>): (total: seq<F>)
    requires |acc| == LANES
    ensures |total| == LANES
  {
    var first := AddPs(ar, acc, ShflSync(acc, 8));
    var second := AddPs(ar, ShflSync(acc, 16), ShflSync(acc, 24));
    WarpReduceVector(ar, AddPs(ar, first, second))
  }

  function WarpReduceVector<F>(ar: Arith<F>, vectorLane: seq<F>): (total: seq<F>)
    requires |vectorLane| == LANES
    ensures |total| == LANES
  {
    var pair := AddPs(ar, vectorLane, ShflSync(vectorLane, 4));
    var quad := AddPs(ar, pair, ShflSync(pair, 2));
    AddPs(ar, quad, ShflSync(quad, 1))
  }

  function WarpRow<F>(ar: Arith<F>, x: seq<F>, w: seq<int8>, scale: F): F
    requires |x| == |w|
  {
    ar.mul(WarpReduce(ar, WarpAccumulators(ar, x, w))[0], scale)
  }

  /* ---- The two trees are the same tree exactly when the width is a multiple of 32 ---- */

  lemma {:induction false} AvxLaneIsWarpLane<F>(ar: Arith<F>, x: seq<F>, w: seq<int8>, j: nat, i: nat, blocks: nat)
    requires |x| == |w| && j < 4 && i < 8 && 32 * blocks <= |x|
    ensures AvxAccumulator(ar, x, w, j, blocks)[i] == LaneAccumulator(ar, x, w, 8 * j + i, blocks)
  {
    if blocks > 0 {
      AvxLaneIsWarpLane(ar, x, w, j, i, blocks - 1);
    }
  }

  // The order in which eight vector lanes are added.
  function Tree8<F>(ar: Arith<F>, v: seq<F>): F
    requires |v| >= 8
  {
    ar.add(ar.add(ar.add(v[0], v[4]), ar.add(v[2], v[6])), ar.add(ar.add(v[1], v[5]), ar.add(v[3], v[7])))
  }

  lemma {:induction false} AvxAddsTree8<F>(ar: Arith<F>, a: seq<F>)
    requires |a| == 8
    ensures var reduced := AddPs(ar, a[..4], a[4..]);
            var reduced' := AddPs(ar, reduced, MovehlPs(reduced, reduced));
            AddSs(ar, reduced', ShufflePs1(reduced', reduced'))[0] == Tree8(ar, a)
  {
    var reduced := AddPs(ar, a[..4], a[4..]);
    assert reduced[0] == ar.add(a[0], a[4]) && reduced[1] == ar.add(a[1], a[5]);
    assert reduced[2] == ar.add(a[2], a[6]) && reduced[3] == ar.add(a[3], a[7]);
  }

  lemma {:induction false} WarpAddsTree8<F>(ar: Arith<F>, v: seq<F>)
    requires |v| == LANES
    ensures WarpReduceVector(ar, v)[0] == Tree8(ar, v)
  {
    var pair := AddPs(ar, v, ShflSync(v, 4));
    assert pair[0] == ar.add(v[0], v[4]) && pair[1] == ar.add(v[1], v[5]);
    assert pair[2] == ar.add(v[2], v[6]) && pair[3] == ar.add(v[3], v[7]);
    var quad := AddPs(ar, pair, ShflSync(pair, 2));
    assert quad[0] == ar.add(pair[0], pair[2]) && quad[1] == ar.add(pair[1], pair[3]);
  }

  // Lanes 0..7 hold register a0, lanes 8..15 register a1, and so on.
  ghost predicate HoldsVectors<F>(acc: seq<F>, a0: seq<F>, a1: seq<F>, a2: seq<F>, a3: seq<F>)
    requires |acc| == LANES && |a0| == |a1| == |a2| == |a3| == 8
  {
    forall i | 0 <= i < 8 ::
      acc[i] == a0[i] && acc[i + 8] == a1[i] && acc[i + 16] == a2[i] && acc[i + 24] == a3[i]
  }

  // The warp's lane 0 adds its 32 accumulators in the fixed 4x8-vector order.
  lemma {:induction false} ReductionsAgree<F>(ar: Arith<F>, acc: seq<F>, a0: seq<F>, a1: seq<F>, a2: seq<F>, a3: seq<F>)
    requires |acc| == LANES && |a0| == |a1| == |a2| == |a3| == 8
    requires HoldsVectors(acc, a0, a1, a2, a3)
    ensures WarpReduce(ar, acc)[0] == AvxReduce(ar, a0, a1, a2, a3)
  {
    var first := AddPs(ar, acc, ShflSync(acc, 8));
    var second := AddPs(ar, ShflSync(acc, 16), ShflSync(acc, 24));
    var v := AddPs(ar, first, second);
    var a := AddPs(ar, AddPs(ar, a0, a1), AddPs(ar, a2, a3));
    forall i | 0 <= i < 8
      ensures v[i] == a[i]
    {
      assert first[i] == ar.add(acc[i], acc[i + 8]);
      assert second[i] == ar.add(acc[i + 16], acc[i + 24]);
    }
    WarpAddsTree8(ar, v);
    AvxAddsTree8(ar, a);
  }

  lemma {:induction false} LanesAgree<F>(ar: Arith<F>, x: seq<F>, w: seq<int8>)
    requires |x| == |w| && |x| % 32 == 0
    ensures HoldsVectors(WarpAccumulators(ar, x, w), AvxAccumulator(ar, x, w, 0, |x| / 32),
                         AvxAccumulator(ar, x, w, 1, |x| / 32), AvxAccumulator(ar, x, w, 2, |x| / 32),
                         AvxAccumulator(ar, x, w, 3, |x| / 32))
  {
    forall i | 0 <= i < 8, j: nat | j < 4
      ensures WarpAccumulators(ar, x, w)[8 * j + i] == AvxAccumulator(ar, x, w, j, |x| / 32)[i]
    {
      AvxLaneIsWarpLane(ar, x, w, j, i, |x| / 32);
    }
  }

  /** Same evaluation tree on both sides, for every interpretation of the float
      operations, whenever the width is a multiple of 32. */
  lemma {:induction false} WarpRowIsCpuRow<F>(ar: Arith<F>, x: seq<F>, w: seq<int8>, scale: F)
    requires |x| == |w| && |x| % 32 == 0
    ensures WarpRow(ar, x, w, scale) == CpuRow(ar, x, w, scale)
  {
    var blocks := |x| / 32;
    LanesAgree(ar, x, w);
    ReductionsAgree(ar, WarpAccumulators(ar, x, w), AvxAccumulator(ar, x, w, 0, blocks),
                    AvxAccumulator(ar, x, w, 1, blocks), AvxAccumulator(ar, x, w, 2, blocks),
                    AvxAccumulator(ar, x, w, 3, blocks));
  }

  // Expression trees: the interpretation under which only identical trees are equal.
  datatype Term =
    | Zero
    | Half
    | Weight(value: int8)
    | Input(index: nat)
    | Add(left: Term, right: Term)
    | Mul(left: Term, right: Term)
    | Fma(a: Term, b: Term, c: Term)

  const FREE: Arith<Term> :=
    Arith(Zero, Half, v => Weight(v), (a, b) => Add(a, b), (a, b) => Mul(a, b), (a, b, c) => Fma(a, b, c))

  /** The divisibility guard of `p40_cpuorder_upload` is exact: with a tail, the
      CPU's last operation adds a product, the warp's last operation adds a sum. */
  lemma {:induction false} SameTreeIffWidthDivisible(x: seq<Term>, w: seq<int8>, scale: Term)
    requires |x| == |w|
    ensures WarpRow(FREE, x, w, scale) == CpuRow(FREE, x, w, scale) <==> |x| % 32 == 0
  {
    if |x| % 32 == 0 {
      WarpRowIsCpuRow(FREE, x, w, scale);
    } else {
      var warp, cpu := WarpRow(FREE, x, w, scale), CpuRow(FREE, x, w, scale);
      assert cpu.left.right.Mul?;
      assert warp.left.right.Add?;
    }
  }

  /** Lanes 8..31 of `vectorLane` and every wrapped shuffle source are harmless:
      lane 0's total only reads lanes 0..7. */
  lemma {:induction false} UpperLanesNeverReachLaneZero<F>(ar: Arith<F>, v: seq<F>, v': seq<F>)
    requires |v| == |v'| == LANES && v[..8] == v'[..8]
    ensures WarpReduceVector(ar, v)[0] == WarpReduceVector(ar, v')[0]
  {
    forall i | 0 <= i < 8
      ensures v[i] == v'[i]
    {
      assert v[i] == v[..8][i];
    }
    WarpAddsTree8(ar, v);
    WarpAddsTree8(ar, v');
  }
}
