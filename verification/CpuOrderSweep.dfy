/** The projection sweep around the exact-order kernel: device buffers shared by
    all matrices that only ever grow, tensors uploaded once, and every CUDA call
    free to fail.  The host's `std::vector`s own their storage, so they are
    values here; the device buffers are arrays. */
module CpuOrderSweep {
  import opened CpuOrderKernel
  import opened CpuOrderMatvec

  const HIDDEN: nat := 2048
  const CONV: nat := 8192
  const VALUE: nat := 4096
  const FLOAT_BYTES: nat := 4

  // Device-resident copy of one matrix; nothing writes to it after the upload.
  datatype Tensor<F> =
    | NoTensor
    | Tensor(input: nat, output: nat, weights: seq<int8>, scales: seq<F>)

  method CopyPrefix<F>(destination: array<F>, source: seq<F>)
    requires |source| <= destination.Length
    modifies destination
    ensures destination[..|source|] == source
  {
    forall k | 0 <= k < |source| {
      destination[k] := source[k];
    }
  }

  // A copy that fails part-way leaves unspecified values behind.
  method Scribble<F>(old_: seq<F>, seen: seq<F>) returns (v: seq<F>)
    requires |seen| >= |old_|
    ensures |v| == |old_|
  {
    v := old_;
    for k := 0 to |old_|
      invariant |v| == |old_|
    {
      var copied: bool := *;
      if copied { v := v[k := seen[k]]; }
    }
  }

  class Context<F(0)> {
    var device: int
    var input: array?<F>
    var output: array?<F>
    var inputCapacity: nat
    var outputCapacity: nat

    ghost predicate Valid()
      reads this
    {
      && inputCapacity == Bytes(input) && outputCapacity == Bytes(output)
      && (input == null || input != output)
    }

    static ghost function Bytes(buffer: array?<F>): nat {
      if buffer == null then 0 else FLOAT_BYTES * buffer.Length
    }

    ghost function Buffers(): set<object>
      reads this
    {
      (if input == null then {} else {input}) + (if output == null then {} else {output})
    }

    constructor ()
      ensures Valid() && Buffers() == {} && device == -1
    {
      device, input, output, inputCapacity, outputCapacity := -1, null, null, 0, 0;
    }

    method Init(requested: int) returns (ok: bool)
      modifies this`device
      ensures ok ==> device == requested
      ensures old(device) >= 0 ==> device == old(device) && (ok <==> device == requested)
    {
      if device >= 0 { return device == requested; }
      ok := *;
      if ok { device := requested; }
    }

    // Frees before it allocates: a failed allocation leaves no buffer and no capacity.
    static method Reserve(pointer: array?<F>, capacity: nat, elements: nat)
      returns (ok: bool, pointer': array?<F>, capacity': nat)
      requires capacity == Bytes(pointer)
      ensures capacity' == Bytes(pointer')
      ensures ok ==> capacity' >= FLOAT_BYTES * elements
      ensures ok && elements > 0 ==> pointer' != null && pointer'.Length >= elements
      ensures !ok ==> pointer' == null && capacity < FLOAT_BYTES * elements
      ensures capacity >= FLOAT_BYTES * elements ==> ok && pointer' == pointer
      ensures pointer' == pointer || pointer' == null || fresh(pointer')
    {
      if capacity >= FLOAT_BYTES * elements { return true, pointer, capacity; }
      ok := *;
      if !ok { return false, null, 0; }
      pointer' := new F[elements];
      capacity' := FLOAT_BYTES * elements;
    }

    /** An existing tensor of the same shape is accepted as it is, without a new upload. */
    method Upload(tensor: Tensor<F>, weights: seq<int8>, scales: seq<F>, input: nat, output: nat)
      returns (ok: bool, tensor': Tensor<F>)
      ensures ok ==> device >= 0 && input >= 32 && output >= 1 && input % 32 == 0
      ensures ok ==> tensor'.Tensor? && tensor'.input == input && tensor'.output == output
      ensures ok && tensor.NoTensor? ==> tensor' == Tensor(input, output, weights, scales)
      ensures !ok || tensor.Tensor? ==> tensor' == tensor
    {
      tensor' := tensor;
      if input < 32 || output < 1 || input % 32 != 0 || device < 0 { return false, tensor; }
      if tensor.Tensor? {
        return tensor.input == input && tensor.output == output, tensor;
      }
      // host allocation, two device allocations and two copies: all of them or none
      ok := *;
      if ok { tensor' := Tensor(input, output, weights, scales); }
    }

    method Matvec(ar: Arith<F>, tensor: Tensor<F>, output: seq<F>, x: seq<F>) returns (ok: bool, result: seq<F>)
      requires Valid()
      requires tensor.Tensor? ==>
        && MatrixShape(tensor.weights, tensor.scales, tensor.input, tensor.output)
        && 0 < tensor.input == |x| && 0 < tensor.output == |output|
      modifies this`input, this`output, this`inputCapacity, this`outputCapacity, Buffers()
      ensures Valid() && fresh(Buffers() - old(Buffers())) && |result| == |output|
      ensures ok ==> tensor.Tensor? && IsWarpMatvec(ar, result, x, tensor.weights, tensor.scales)
    {
      result := output;
      if tensor.NoTensor? || device < 0 { return false, output; }
      var inputReady, inputPointer, inputBytes := Reserve(this.input, inputCapacity, tensor.input);
      this.input, inputCapacity := inputPointer, inputBytes;
      if !inputReady { return false, output; }
      var outputReady, outputPointer, outputBytes := Reserve(this.output, outputCapacity, tensor.output);
      this.output, outputCapacity := outputPointer, outputBytes;
      if !outputReady { return false, output; }
      var sent: bool := *;
      if !sent { return false, output; }
      CopyPrefix(this.input, x);
      var launched: bool := *;
      if !launched { return false, output; }
      QwenCpuOrderQ8Matvec(ar, this.output, this.input, tensor.weights, tensor.scales, tensor.input, tensor.output);
      ok := *;
      if ok {
        result := this.output[..tensor.output];
      } else {
        result := Scribble(output, this.output[..tensor.output]);
      }
    }
  }

  datatype Projection<F> = Projection(
    input: nat,
    output: nat,
    weights: seq<int8>,
    scales: seq<F>,
    cpu: seq<F>,
    gpu: seq<F>,
    tensor: Tensor<F>)
  {
    // Whatever was uploaded, on this call or an earlier one, is this projection's matrix.
    ghost predicate Valid() {
      && MatrixShape(weights, scales, input, output)
      && |cpu| == |gpu| == output
      && (tensor.Tensor? ==> tensor == Tensor(input, output, weights, scales))
    }

    ghost predicate SameMatrix(p: Projection<F>) {
      input == p.input && output == p.output && weights == p.weights && scales == p.scales
    }
  }

  datatype Layer<F> = Layer(qkv: Projection<F>, z: Projection<F>, out: Projection<F>) {
    ghost predicate Valid() {
      && qkv.Valid() && z.Valid() && out.Valid()
      && qkv.input == HIDDEN && qkv.output == CONV
      && z.input == HIDDEN && z.output == VALUE
      && out.input == VALUE && out.output == HIDDEN
    }

    ghost predicate SameMatrices(l: Layer<F>) {
      qkv.SameMatrix(l.qkv) && z.SameMatrix(l.z) && out.SameMatrix(l.out)
    }

    ghost predicate SameCpu(l: Layer<F>) {
      qkv.cpu == l.qkv.cpu && z.cpu == l.z.cpu && out.cpu == l.out.cpu
    }

    ghost predicate Exact() {
      qkv.gpu == qkv.cpu && z.gpu == z.cpu && out.gpu == out.cpu
    }
  }

  /** The shapes of a layer: 8192 by 2048, 4096 by 2048, and 2048 by 4096. */
  lemma LayerShapes<F>(l: Layer<F>)
    requires l.Valid()
    ensures |l.qkv.weights| == 8192 * 2048 && |l.qkv.scales| == |l.qkv.cpu| == |l.qkv.gpu| == 8192
    ensures |l.z.weights| == 4096 * 2048 && |l.z.scales| == |l.z.cpu| == |l.z.gpu| == 4096
    ensures |l.out.weights| == 2048 * 4096 && |l.out.scales| == |l.out.cpu| == |l.out.gpu| == 2048
  {
  }

  method MakeOutInput<F>(ar: Arith<F>, output: seq<F>, qkv: seq<F>, z: seq<F>) returns (result: seq<F>)
    requires |output| == VALUE && |qkv| == CONV && |z| == VALUE
    ensures result == OutInput(ar, qkv, z)
    ensures forall k | 0 <= k < VALUE :: result[k] == ar.add(ar.mul(ar.half, qkv[k]), ar.mul(ar.half, z[k]))
  {
    result := output;
    for index := 0 to VALUE
      invariant |result| == VALUE
      invariant forall k | 0 <= k < index :: result[k] == OutInput(ar, qkv, z)[k]
    {
      result := result[index := ar.add(ar.mul(ar.half, qkv[index]), ar.mul(ar.half, z[index]))];
    }
  }

  function OutInput<F>(ar: Arith<F>, qkv: seq<F>, z: seq<F>): (v: seq<F>)
    requires |qkv| == CONV && |z| == VALUE
    ensures |v| == VALUE
  {
    seq(VALUE, i requires 0 <= i < VALUE => ar.add(ar.mul(ar.half, qkv[i]), ar.mul(ar.half, z[i])))
  }

  /** Three vectors are a layer's output when they are the CPU's evaluation trees,
      the third one over the boundary computed from the first two. */
  ghost predicate IsLayerOutput<F>(ar: Arith<F>, layer: Layer<F>, hidden: seq<F>, qkv: seq<F>, z: seq<F>, out: seq<F>) {
    && |hidden| == HIDDEN && |qkv| == CONV && |z| == VALUE && |out| == HIDDEN
    && IsCpuMatvec(ar, qkv, hidden, layer.qkv.weights, layer.qkv.scales)
    && IsCpuMatvec(ar, z, hidden, layer.z.weights, layer.z.scales)
    && IsCpuMatvec(ar, out, OutInput(ar, qkv, z), layer.out.weights, layer.out.scales)
  }

  ghost predicate GpuDone<F>(ar: Arith<F>, layer: Layer<F>, hidden: seq<F>) {
    IsLayerOutput(ar, layer, hidden, layer.qkv.gpu, layer.z.gpu, layer.out.gpu)
  }

  ghost predicate CpuDone<F>(ar: Arith<F>, layer: Layer<F>, hidden: seq<F>) {
    IsLayerOutput(ar, layer, hidden, layer.qkv.cpu, layer.z.cpu, layer.out.cpu)
  }

  lemma {:induction false} MatvecUnique<F>(ar: Arith<F>, a: seq<F>, b: seq<F>, x: seq<F>, weights: seq<int8>, scales: seq<F>)
    requires IsCpuMatvec(ar, a, x, weights, scales) && IsCpuMatvec(ar, b, x, weights, scales)
    ensures a == b
  {
    forall row | 0 <= row < |a|
      ensures a[row] == b[row]
    {
      assert a[row] == CpuValue(ar, x, weights, scales, row);
    }
  }

  lemma {:induction false} DoneOnBothSidesIsExact<F>(ar: Arith<F>, layer: Layer<F>, hidden: seq<F>)
    requires CpuDone(ar, layer, hidden) && GpuDone(ar, layer, hidden)
    ensures layer.Exact()
    ensures layer.qkv.gpu == layer.qkv.cpu && layer.z.gpu == layer.z.cpu && layer.out.gpu == layer.out.cpu
  {
    MatvecUnique(ar, layer.qkv.gpu, layer.qkv.cpu, hidden, layer.qkv.weights, layer.qkv.scales);
    MatvecUnique(ar, layer.z.gpu, layer.z.cpu, hidden, layer.z.weights, layer.z.scales);
    MatvecUnique(ar, layer.out.gpu, layer.out.cpu, OutInput(ar, layer.qkv.cpu, layer.z.cpu), layer.out.weights, layer.out.scales);
  }

  // The matrices and the CPU's vectors of every layer are as before.
  ghost predicate KeepsHost<F>(before: seq<Layer<F>>, after: seq<Layer<F>>) {
    |after| == |before| &&
    forall i | 0 <= i < |after| :: after[i].SameMatrices(before[i]) && after[i].SameCpu(before[i])
  }

  lemma {:induction false} SweptLayersAreExact<F>(ar: Arith<F>, before: seq<Layer<F>>, after: seq<Layer<F>>, hidden: seq<F>)
    requires KeepsHost(before, after)
    requires forall i | 0 <= i < |after| :: CpuDone(ar, before[i], hidden) && GpuDone(ar, after[i], hidden)
    ensures forall i | 0 <= i < |after| :: after[i].Exact()
  {
    forall i | 0 <= i < |after|
      ensures after[i].Exact()
    {
      assert CpuDone(ar, before[i], hidden);
      DoneOnBothSidesIsExact(ar, after[i], hidden);
    }
  }

  method GpuProjection<F(0)>(ar: Arith<F>, context: Context<F>, projection: Projection<F>, x: seq<F>)
    returns (ok: bool, p: Projection<F>)
    requires context.Valid() && projection.Valid() && 0 < projection.input == |x|
    modifies context, context.Buffers()
    ensures context.Valid() && fresh(context.Buffers() - old(context.Buffers()))
    ensures p.Valid() && p.SameMatrix(projection) && p.cpu == projection.cpu
    ensures ok ==> IsCpuMatvec(ar, p.gpu, x, p.weights, p.scales)
  {
    p := projection;
    var uploaded, tensor := context.Upload(p.tensor, p.weights, p.scales, p.input, p.output);
    p := p.(tensor := tensor);
    if !uploaded { return false, p; }
    var done, gpu := context.Matvec(ar, p.tensor, p.gpu, x);
    p := p.(gpu := gpu);
    ok := done;
    if ok { WarpMatvecIsCpuMatvec(ar, gpu, x, p.weights, p.scales); }
  }

  method GpuLayer<F(0)>(ar: Arith<F>, context: Context<F>, layer: Layer<F>, hidden: seq<F>, boundary: seq<F>)
    returns (ok: bool, l: Layer<F>, boundary': seq<F>)
    requires context.Valid() && layer.Valid() && |hidden| == HIDDEN && |boundary| == VALUE
    modifies context, context.Buffers()
    ensures context.Valid() && fresh(context.Buffers() - old(context.Buffers())) && |boundary'| == VALUE
    ensures l.Valid() && l.SameMatrices(layer) && l.SameCpu(layer)
    ensures ok ==> GpuDone(ar, l, hidden)
  {
    l, boundary' := layer, boundary;
    var done, p := GpuProjection(ar, context, l.qkv, hidden);
    l := l.(qkv := p);
    if !done { return false, l, boundary; }
    done, p := GpuProjection(ar, context, l.z, hidden);
    l := l.(z := p);
    if !done { return false, l, boundary; }
    boundary' := MakeOutInput(ar, boundary, l.qkv.gpu, l.z.gpu);
    ok, p := GpuProjection(ar, context, l.out, boundary');
    l := l.(out := p);
  }

  method CpuLayer<F>(ar: Arith<F>, layer: Layer<F>, hidden: seq<F>, boundary: seq<F>)
    returns (l: Layer<F>, boundary': seq<F>)
    requires layer.Valid() && |hidden| == HIDDEN && |boundary| == VALUE
    ensures |boundary'| == VALUE && l.Valid() && l.SameMatrices(layer) && CpuDone(ar, l, hidden)
  {
    l := layer;
    var v := QwenCpuQ8Matvec(ar, l.qkv.cpu, hidden, l.qkv.weights, l.qkv.scales);
    l := l.(qkv := l.qkv.(cpu := v));
    v := QwenCpuQ8Matvec(ar, l.z.cpu, hidden, l.z.weights, l.z.scales);
    l := l.(z := l.z.(cpu := v));
    boundary' := MakeOutInput(ar, boundary, l.qkv.cpu, l.z.cpu);
    v := QwenCpuQ8Matvec(ar, l.out.cpu, boundary', l.out.weights, l.out.scales);
    l := l.(out := l.out.(cpu := v));
  }

  class SweepControl<F(0)> {
    var layers: seq<Layer<F>>
    const hidden: seq<F>
    var cpuBoundary: seq<F>
    var gpuBoundary: seq<F>

    ghost predicate Valid()
      reads this
    {
      && (forall i | 0 <= i < |layers| :: layers[i].Valid())
      && |hidden| == HIDDEN && |cpuBoundary| == |gpuBoundary| == VALUE
    }

    constructor (layers: seq<Layer<F>>, hidden: seq<F>, zero: F)
      requires |hidden| == HIDDEN && forall i | 0 <= i < |layers| :: layers[i].Valid()
      ensures Valid() && this.layers == layers && this.hidden == hidden
    {
      this.layers, this.hidden := layers, hidden;
      cpuBoundary, gpuBoundary := seq(VALUE, i => zero), seq(VALUE, i => zero);
    }

    ghost predicate CpuReferenceDone(ar: Arith<F>)
      reads this
    {
      forall i | 0 <= i < |layers| :: CpuDone(ar, layers[i], hidden)
    }

    method CpuSweep(ar: Arith<F>)
      requires Valid()
      modifies this`layers, this`cpuBoundary
      ensures Valid() && |layers| == old(|layers|) && CpuReferenceDone(ar)
      ensures forall i | 0 <= i < |layers| :: layers[i].SameMatrices(old(layers)[i])
    {
      for k := 0 to |layers|
        invariant Valid() && |layers| == old(|layers|)
        invariant forall i | 0 <= i < |layers| :: layers[i].SameMatrices(old(layers)[i])
        invariant forall i | 0 <= i < k :: CpuDone(ar, layers[i], hidden)
      {
        var l, b := CpuLayer(ar, layers[k], hidden, cpuBoundary);
        layers, cpuBoundary := layers[k := l], b;
      }
    }

    method GpuSweepLayer(ar: Arith<F>, context: Context<F>, k: nat) returns (done: bool)
      requires Valid() && context.Valid() && this as object !in context.Buffers() && k < |layers|
      modifies this`layers, this`gpuBoundary, context, context.Buffers()
      ensures Valid() && context.Valid() && fresh(context.Buffers() - old(context.Buffers()))
      ensures KeepsHost(old(layers), layers)
      ensures forall i | 0 <= i < |layers| && i != k :: layers[i] == old(layers)[i]
      ensures done ==> GpuDone(ar, layers[k], hidden)
    {
      var l, b;
      done, l, b := GpuLayer(ar, context, layers[k], hidden, gpuBoundary);
      layers, gpuBoundary := layers[k := l], b;
    }

    /** Whatever failed before, and whether the tensors were uploaded now or by an
        earlier call: a sweep that returns true leaves every layer exact, and no
        sweep touches the matrices or the CPU's vectors. */
    method GpuSweep(ar: Arith<F>, context: Context<F>) returns (ok: bool)
      requires Valid() && context.Valid() && this as object !in context.Buffers()
      modifies this`layers, this`gpuBoundary, context, context.Buffers()
      ensures Valid() && context.Valid() && fresh(context.Buffers() - old(context.Buffers()))
      ensures KeepsHost(old(layers), layers)
      ensures ok ==> forall i | 0 <= i < |layers| :: GpuDone(ar, layers[i], hidden)
      ensures ok && old(CpuReferenceDone(ar)) ==> forall i | 0 <= i < |layers| :: layers[i].Exact()
      ensures ok && old(CpuReferenceDone(ar)) ==> forall i | 0 <= i < |layers| ::
          layers[i].qkv.gpu == layers[i].qkv.cpu && layers[i].z.gpu == layers[i].z.cpu && layers[i].out.gpu == layers[i].out.cpu
    {
      ok := true;
      for k := 0 to |layers|
        invariant Valid() && context.Valid() && fresh(context.Buffers() - old(context.Buffers()))
        invariant KeepsHost(old(layers), layers)
        invariant forall i | 0 <= i < k :: GpuDone(ar, layers[i], hidden)
      {
        var done := GpuSweepLayer(ar, context, k);
        if !done { return false; }
      }
      if old(CpuReferenceDone(ar)) { SweptLayersAreExact(ar, old(layers), layers, hidden); }
    }

    /** The measured part of `run`: CPU sweeps, a first GPU sweep, then cached
        sweeps until one fails. */
    method Run(ar: Arith<F>, device: int, repetitions: nat) returns (firstOk: bool, cachedOk: bool)
      requires Valid()
      modifies this
      ensures cachedOk ==> firstOk
      ensures cachedOk ==> forall i | 0 <= i < |layers| :: layers[i].Exact()
      ensures cachedOk ==> forall i | 0 <= i < |layers| ::
          layers[i].qkv.gpu == layers[i].qkv.cpu && layers[i].z.gpu == layers[i].z.cpu && layers[i].out.gpu == layers[i].out.cpu
    {
      CpuSweep(ar);
      for sample := 0 to repetitions
        invariant Valid() && CpuReferenceDone(ar)
      {
        CpuSweep(ar);
      }
      var context := new Context<F>();
      var initialized := context.Init(device);
      if !initialized { return false, false; }
      firstOk := GpuSweep(ar, context);
      cachedOk := firstOk;
      var sample := 0;
      while sample < repetitions && cachedOk
        invariant Valid() && context.Valid() && fresh(context) && fresh(context.Buffers())
        invariant CpuReferenceDone(ar) && (cachedOk ==> firstOk)
        invariant cachedOk ==> forall i | 0 <= i < |layers| :: layers[i].Exact()
      {
        cachedOk := GpuSweep(ar, context);
        sample := sample + 1;
      }
    }
  }
}
