/** Whole matrix-vector products: rows in any order on the CPU, one block per row on
    the GPU. */
module CpuOrderMatvec {
  import opened Grid
  import opened Sets
  import opened CpuOrderKernel
  import opened CpuOrderLoops

  ghost predicate MatrixShape<F>(weights: seq<int8>, scales: seq<F>, width: nat, rows: nat) {
    |scales| == rows && |weights| == rows * width
  }

  function Row(weights: seq<int8>, width: nat, rows: nat, row: nat): (w: seq<int8>)
    requires row < rows && |weights| == rows * width
    ensures |w| == width
  {
    RowInside(width, rows, row);
    weights[row * width..row * width + width]
  }

  ghost function CpuValue<F>(ar: Arith<F>, x: seq<F>, weights: seq<int8>, scales: seq<F>, row: nat): F
    requires MatrixShape(weights, scales, |x|, |scales|) && row < |scales|
  {
    CpuRow(ar, x, Row(weights, |x|, |scales|, row), scales[row])
  }

  ghost function WarpValue<F>(ar: Arith<F>, x: seq<F>, weights: seq<int8>, scales: seq<F>, row: nat): F
    requires MatrixShape(weights, scales, |x|, |scales|) && row < |scales|
  {
    WarpRow(ar, x, Row(weights, |x|, |scales|, row), scales[row])
  }

  ghost predicate IsCpuMatvec<F>(ar: Arith<F>, out: seq<F>, x: seq<F>, weights: seq<int8>, scales: seq<F>) {
    MatrixShape(weights, scales, |x|, |out|) &&
    forall row | 0 <= row < |out| :: out[row] == CpuValue(ar, x, weights, scales, row)
  }

  ghost predicate IsWarpMatvec<F>(ar: Arith<F>, out: seq<F>, x: seq<F>, weights: seq<int8>, scales: seq<F>) {
    MatrixShape(weights, scales, |x|, |out|) &&
    forall row | 0 <= row < |out| :: out[row] == WarpValue(ar, x, weights, scales, row)
  }

  lemma {:induction false} WarpMatvecIsCpuMatvec<F>(ar: Arith<F>, out: seq<F>, x: seq<F>, weights: seq<int8>, scales: seq<F>)
    requires |x| % 32 == 0
    ensures IsWarpMatvec(ar, out, x, weights, scales) <==> IsCpuMatvec(ar, out, x, weights, scales)
  {
    if MatrixShape(weights, scales, |x|, |out|) {
      forall row | 0 <= row < |out|
        ensures WarpValue(ar, x, weights, scales, row) == CpuValue(ar, x, weights, scales, row)
      {
        WarpRowIsCpuRow(ar, x, Row(weights, |x|, |scales|, row), scales[row]);
      }
    }
  }

  lemma RowIs(weights: seq<int8>, width: nat, rows: nat, row: nat, from: nat)
    requires row < rows && |weights| == rows * width && from == row * width
    ensures from + width <= |weights| && Row(weights, width, rows, row) == weights[from..from + width]
  {
    RowInside(width, rows, row);
  }

  /** One output of the CPU in raw indices: its weights are the |x| ones from row * |x| on,
      its scale is the row's own. */
  lemma {:induction false} CpuRowRaw<F>(ar: Arith<F>, out: seq<F>, x: seq<F>, weights: seq<int8>, scales: seq<F>, row: nat, from: nat)
    requires IsCpuMatvec(ar, out, x, weights, scales) && row < |out| && from == row * |x|
    ensures |scales| == |out| && from + |x| <= |weights|
    ensures out[row] == CpuRow(ar, x, weights[from..from + |x|], scales[row])
  {
    RowIs(weights, |x|, |out|, row, from);
    assert out[row] == CpuValue(ar, x, weights, scales, row);
  }

  lemma WarpValueIs<F>(ar: Arith<F>, x: seq<F>, weights: seq<int8>, scales: seq<F>, row: nat, w: seq<int8>)
    requires MatrixShape(weights, scales, |x|, |scales|) && row < |scales| && w == Row(weights, |x|, |scales|, row)
    ensures WarpValue(ar, x, weights, scales, row) == WarpRow(ar, x, w, scales[row])
  {
  }

  /** The same of the kernel's. */
  lemma {:induction false} WarpRowRaw<F>(ar: Arith<F>, out: seq<F>, x: seq<F>, weights: seq<int8>, scales: seq<F>, row: nat, from: nat)
    requires IsWarpMatvec(ar, out, x, weights, scales) && row < |out| && from == row * |x|
    ensures |scales| == |out| && from + |x| <= |weights|
    ensures out[row] == WarpRow(ar, x, weights[from..from + |x|], scales[row])
  {
    RowIs(weights, |x|, |out|, row, from);
    WarpValueIs(ar, x, weights, scales, row, weights[from..from + |x|]);
  }

  method CpuRowAt<F>(ar: Arith<F>, x: seq<F>, weights: seq<int8>, scales: seq<F>, row: nat) returns (value: F)
    requires MatrixShape(weights, scales, |x|, |scales|) && row < |scales|
    ensures value == CpuValue(ar, x, weights, scales, row)
  {
    value := CpuRowLoop(ar, x, Row(weights, |x|, |scales|, row), scales[row]);
  }

  /** `qwen_cpu_q8_matvec` overwrites the host vector `output` row by row; the
      OpenMP loop may take the rows in any order. */
  method QwenCpuQ8Matvec<F>(ar: Arith<F>, output: seq<F>, x: seq<F>, weights: seq<int8>, scales: seq<F>)
    returns (result: seq<F>)
    requires MatrixShape(weights, scales, |x|, |output|)
    ensures |result| == |output| && IsCpuMatvec(ar, result, x, weights, scales)
  {
    result := output;
    var pending: set<nat> := Below(|output|);
    while pending != {}
      invariant |result| == |output| && forall row | row in pending :: row < |output|
      invariant forall row | 0 <= row < |output| && row !in pending ::
          result[row] == CpuValue(ar, x, weights, scales, row)
      decreases |pending|
    {
      var row: nat :| row in pending;
      var value := CpuRowAt(ar, x, weights, scales, row);
      result := result[row := value];
      pending := pending - {row};
    }
  }

  method LaunchBlock<F>(ar: Arith<F>, output: array<F>, x: seq<F>, weights: seq<int8>, scales: seq<F>, row: nat)
    requires MatrixShape(weights, scales, |x|, |scales|) && row < |scales| <= output.Length
    modifies output
    ensures output[row] == WarpValue(ar, x, weights, scales, row)
    ensures forall k | 0 <= k < output.Length && k != row :: output[k] == old(output[k])
  {
    output[row] := WarpBlock(ar, x, Row(weights, |x|, |scales|, row), scales[row]);
  }

  // `rows` blocks, in any order.
  method LaunchBlocks<F>(ar: Arith<F>, output: array<F>, x: seq<F>, weights: seq<int8>, scales: seq<F>)
    requires |scales| <= output.Length && MatrixShape(weights, scales, |x|, |scales|)
    modifies output
    ensures IsWarpMatvec(ar, output[..|scales|], x, weights, scales)
    ensures forall k | |scales| <= k < output.Length :: output[k] == old(output[k])
  {
    var pending: set<nat> := Below(|scales|);
    while pending != {}
      invariant forall block | block in pending :: 0 <= block < |scales|
      invariant forall row: nat {:trigger WarpValue(ar, x, weights, scales, row)} | row < |scales| && row !in pending ::
          output[row] == WarpValue(ar, x, weights, scales, row)
      invariant forall k | |scales| <= k < output.Length :: output[k] == old(output[k])
      decreases |pending|
    {
      var row: nat :| row in pending;
      LaunchBlock(ar, output, x, weights, scales, row);
      pending := pending - {row};
    }
  }

  /** The launch; device buffers may be larger than the matrix needs, and only the first
      `rows` outputs are written. */
  method QwenCpuOrderQ8Matvec<F>(ar: Arith<F>, output: array<F>, input: array<F>, weights: seq<int8>, scales: seq<F>,
                                 width: nat, rows: nat)
    requires width <= input.Length && rows <= output.Length && input != output
    requires MatrixShape(weights, scales, width, rows)
    modifies output
    ensures IsWarpMatvec(ar, output[..rows], input[..width], weights, scales)
    ensures forall k | rows <= k < output.Length :: output[k] == old(output[k])
  {
    var x := input[..width];
    LaunchBlocks(ar, output, x, weights, scales);
  }
}
