/** The two row computations as the loops the programs run. */
module CpuOrderLoops {
  import opened CpuOrderKernel

  // One vector fused multiply-add of the column loop, on the eight columns from `column`.
  method AvxStep<F>(ar: Arith<F>, x: seq<F>, weight: seq<int8>, ghost j: nat, ghost blocks: nat, column: nat, a: seq<F>)
    returns (a': seq<F>)
    requires |x| == |weight| && j < 4 && column == 32 * blocks + 8 * j && 32 * (blocks + 1) <= |x|
    requires a == AvxAccumulator(ar, x, weight, j, blocks)
    ensures a' == AvxAccumulator(ar, x, weight, j, blocks + 1)
  {
    a' := FmaddPs(ar, x[column..column + 8], weight[column..column + 8], a);
  }

  // The four accumulators after `blocks` blocks of 32 columns.
  ghost predicate Chains<F>(ar: Arith<F>, x: seq<F>, w: seq<int8>, a0: seq<F>, a1: seq<F>, a2: seq<F>, a3: seq<F>, blocks: nat)
    requires |x| == |w| && 32 * blocks <= |x|
  {
    && a0 == AvxAccumulator(ar, x, w, 0, blocks) && a1 == AvxAccumulator(ar, x, w, 1, blocks)
    && a2 == AvxAccumulator(ar, x, w, 2, blocks) && a3 == AvxAccumulator(ar, x, w, 3, blocks)
  }

  method AvxBlock<F>(ar: Arith<F>, x: seq<F>, weight: seq<int8>, ghost blocks: nat, column: nat,
                     a0: seq<F>, a1: seq<F>, a2: seq<F>, a3: seq<F>)
    returns (a0': seq<F>, a1': seq<F>, a2': seq<F>, a3': seq<F>)
    requires |x| == |weight| && column == 32 * blocks && 32 * (blocks + 1) <= |x|
    requires Chains(ar, x, weight, a0, a1, a2, a3, blocks)
    ensures Chains(ar, x, weight, a0', a1', a2', a3', blocks + 1)
  {
    a0' := AvxStep(ar, x, weight, 0, blocks, column, a0);
    a1' := AvxStep(ar, x, weight, 1, blocks, column + 8, a1);
    a2' := AvxStep(ar, x, weight, 2, blocks, column + 16, a2);
    a3' := AvxStep(ar, x, weight, 3, blocks, column + 24, a3);
  }

  method VectorLoop<F>(ar: Arith<F>, x: seq<F>, weight: seq<int8>)
    returns (a0: seq<F>, a1: seq<F>, a2: seq<F>, a3: seq<F>, column: nat)
    requires |x| == |weight|
    ensures column == 32 * (|x| / 32)
    ensures Chains(ar, x, weight, a0, a1, a2, a3, |x| / 32)
  {
    a0, a1, a2, a3 := SetZero(ar), SetZero(ar), SetZero(ar), SetZero(ar);
    column := 0;
    ghost var blocks := 0;
    while column + 32 <= |x|
      invariant column == 32 * blocks <= |x|
      invariant Chains(ar, x, weight, a0, a1, a2, a3, blocks)
    {
      a0, a1, a2, a3 := AvxBlock(ar, x, weight, blocks, column, a0, a1, a2, a3);
      column := column + 32;
      blocks := blocks + 1;
    }
  }

  method TailLoop<F>(ar: Arith<F>, x: seq<F>, weight: seq<int8>, start: nat, reduced: F) returns (total: F)
    requires |x| == |weight| && start <= |x|
    ensures total == ScalarTail(ar, x, weight, start, reduced, |x|)
  {
    total := reduced;
    var column := start;
    while column < |x|
      invariant start <= column <= |x|
      invariant total == ScalarTail(ar, x, weight, start, reduced, column)
    {
      total := ar.add(total, ar.mul(x[column], ar.fromInt8(weight[column])));
      column := column + 1;
    }
  }

  method CpuRowLoop<F>(ar: Arith<F>, x: seq<F>, weight: seq<int8>, scale: F) returns (r: F)
    requires |x| == |weight|
    ensures r == CpuRow(ar, x, weight, scale)
  {
    var a0, a1, a2, a3, column := VectorLoop(ar, x, weight);
    var total := TailLoop(ar, x, weight, column, AvxReduce(ar, a0, a1, a2, a3));
    r := ar.mul(total, scale);
  }

  /** One warp: every lane runs its serial stream, then all lanes shuffle in lockstep. */
  method WarpBlock<F>(ar: Arith<F>, x: seq<F>, weight: seq<int8>, scale: F) returns (r: F)
    requires |x| == |weight|
    ensures r == WarpRow(ar, x, weight, scale)
  {
    var accumulators: seq<F> := [];
    for lane := 0 to LANES
      invariant |accumulators| == lane
      invariant forall l | 0 <= l < lane :: accumulators[l] == WarpAccumulators(ar, x, weight)[l]
    {
      var accumulator := ar.zero;
      var column := lane;
      ghost var steps := 0;
      while column < |x|
        invariant column == lane + 32 * steps && steps <= LaneSteps(|x|, lane)
        invariant accumulator == LaneAccumulator(ar, x, weight, lane, steps)
      {
        accumulator := ar.fma(x[column], ar.fromInt8(weight[column]), accumulator);
        column := column + 32;
        steps := steps + 1;
      }
      accumulators := accumulators + [accumulator];
    }
    var first := AddPs(ar, accumulators, ShflSync(accumulators, 8));
    var second := AddPs(ar, ShflSync(accumulators, 16), ShflSync(accumulators, 24));
    var vectorLane := AddPs(ar, first, second);
    var pair := AddPs(ar, vectorLane, ShflSync(vectorLane, 4));
    var quad := AddPs(ar, pair, ShflSync(pair, 2));
    var total := AddPs(ar, quad, ShflSync(quad, 1));
    assert accumulators == WarpAccumulators(ar, x, weight);
    r := ar.mul(total[0], scale);
  }
}
