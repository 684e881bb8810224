/** Symmetric int8 quantization of one activation row, on the CPU and by the
    two-level max reduction of the GPU block, over real arithmetic. */
module Quantization {
  import opened Int32Lanes
  import opened Rounding
  import W4A8Kernel

  const THREADS: nat := 256
  const WARP: nat := 32

  function Abs(x: real): real { if x < 0.0 then -x else x }
  function Max(a: real, b: real): real { if a < b then b else a }

  /** `m` is the largest magnitude of the row, or 0.0 for an empty row. */
  ghost predicate IsPeak(m: real, s: seq<real>) {
    && (forall i | 0 <= i < |s| :: Abs(s[i]) <= m)
    && (if |s| == 0 then m == 0.0 else exists i :: 0 <= i < |s| && Abs(s[i]) == m)
  }

  lemma PeakUnique(a: real, b: real, s: seq<real>)
    requires IsPeak(a, s) && IsPeak(b, s)
    ensures a == b
  {
  }

  function ScaleOf(peak: real): real {
    if peak > 0.0 then peak / 127.0 else 1.0
  }

  function Clamp(n: int): int {
    if n < -127 then -127 else if n > 127 then 127 else n
  }

  /** Clamping gives the nearest code. */
  lemma ClampIs(n: int)
    ensures -127 <= Clamp(n) <= 127 && (-127 <= n <= 127 ==> Clamp(n) == n)
    ensures (n >= 127 ==> Clamp(n) == 127) && (n <= -127 ==> Clamp(n) == -127)
  {
  }

  /* ---- CPU ---- */

  method CpuPeak(source: seq<real>) returns (maximum: real)
    ensures IsPeak(maximum, source)
    ensures forall i | 0 <= i < |source| :: -maximum <= source[i] <= maximum
    ensures maximum == 0.0 || exists i :: 0 <= i < |source| && (source[i] == maximum || source[i] == -maximum)
  {
    maximum := 0.0;
    for column := 0 to |source|
      invariant IsPeak(maximum, source[..column])
    {
      ghost var before := maximum;
      maximum := Max(maximum, Abs(source[column]));
      PeakExtends(before, source, column);
    }
    assert source[..|source|] == source;
  }

  lemma {:induction false} PeakExtends(m: real, s: seq<real>, n: nat)
    requires n < |s| && IsPeak(m, s[..n])
    ensures IsPeak(Max(m, Abs(s[n])), s[..n + 1])
  {
    var t := s[..n + 1];
    assert forall i | 0 <= i < n :: t[i] == s[..n][i];
    if m < Abs(s[n]) || n == 0 {
      assert Abs(t[n]) == Max(m, Abs(s[n]));
    } else {
      var i :| 0 <= i < n && Abs(s[..n][i]) == m;
      assert Abs(t[i]) == m;
    }
  }

  /** A code is faithful when the clamp did not act and the input is within half a
      step of the value the code stands for. */
  ghost predicate Faithful(x: real, code: int, scale: real) {
    -127 <= code <= 127 && Abs(x - code as real * scale) <= scale / 2.0
  }

  lemma FaithfulIff(x: real, code: int, scale: real)
    ensures Faithful(x, code, scale) <==> -127 <= code <= 127 && -scale / 2.0 <= x - code as real * scale <= scale / 2.0
  {
  }

  ghost predicate FaithfulRow(source: seq<real>, codes: seq<int>, scale: real) {
    |codes| == |source| && forall c | 0 <= c < |source| :: Faithful(source[c], codes[c], scale)
  }

  method CpuCode(x: real, peak: real) returns (code: int)
    requires Abs(x) <= peak
    ensures code == RoundEven(x / ScaleOf(peak)) && Faithful(x, code, ScaleOf(peak))
  {
    QuotientInRange(x, peak);
    NearestIsFaithful(x, ScaleOf(peak), x / ScaleOf(peak));
    code := Clamp(RoundEven(x / ScaleOf(peak)));
  }

  method QuantizeCpu(source: seq<real>) returns (codes: seq<int>, scale: real, ghost peak: real)
    ensures IsPeak(peak, source) && scale == ScaleOf(peak) && FaithfulRow(source, codes, scale)
    ensures scale == (if peak > 0.0 then peak / 127.0 else 1.0) && |codes| == |source|
    ensures forall c | 0 <= c < |source| :: codes[c] == RoundEven(source[c] / scale)
  {
    var maximum := CpuPeak(source);
    peak := maximum;
    scale := ScaleOf(maximum);
    codes := [];
    for column := 0 to |source|
      invariant |codes| == column
      invariant forall c | 0 <= c < column ::
          codes[c] == RoundEven(source[c] / scale) && Faithful(source[c], codes[c], scale)
    {
      var x := source[column];
      var code := CpuCode(x, maximum);
      codes := codes + [code];
    }
  }

  /* ---- GPU: 256 threads, eight warps ---- */

  // Thread t has seen the columns t, t + 256, ... below n.
  ghost predicate ThreadPeak(m: real, s: seq<real>, t: nat, n: nat) {
    && 0.0 <= m
    && (forall c | 0 <= c < n && c < |s| && c % THREADS == t :: Abs(s[c]) <= m)
    && (m == 0.0 || exists c :: 0 <= c < |s| && Abs(s[c]) == m)
  }

  method ThreadMaximum(source: seq<real>, thread: nat) returns (maximum: real)
    requires thread < THREADS
    ensures ThreadPeak(maximum, source, thread, |source|)
  {
    maximum := 0.0;
    var column := thread;
    while column < |source|
      invariant column % THREADS == thread
      invariant ThreadPeak(maximum, source, thread, column)
    {
      maximum := Max(maximum, Abs(source[column]));
      column := column + THREADS;
    }
  }

  ghost predicate IsLargest(m: real, s: seq<real>) {
    (forall i | 0 <= i < |s| :: s[i] <= m) && exists i :: 0 <= i < |s| && s[i] == m
  }

  lemma {:induction false} LargestExists(s: seq<real>) returns (m: real)
    requires s != []
    ensures IsLargest(m, s)
  {
    if |s| == 1 {
      m := s[0];
    } else {
      var n := |s| - 1;
      var m' := LargestExists(s[..n]);
      m := Max(m', s[n]);
      var i :| 0 <= i < n && s[..n][i] == m';
      assert s[i] == m';
      forall k | 0 <= k < n
        ensures s[k] <= m'
      {
        assert s[k] == s[..n][k];
      }
      assert s[if m' < s[n] then n else i] == m;
    }
  }

  // fmaxf(v, __shfl_down_sync(v, offset)) in every lane.
  function ShuffleMax(v: seq<real>, offset: nat): (r: seq<real>)
    requires |v| == WARP
    ensures |r| == WARP
  {
    seq(WARP, l requires 0 <= l < WARP => Max(v[l], if l + offset < WARP then v[l + offset] else v[l]))
  }

  lemma {:induction false} HalvingKeepsLargest(before: seq<real>, after: seq<real>, half: nat, m: real)
    requires 2 * half <= |before| == |after| && IsLargest(m, before[..2 * half])
    requires forall i | 0 <= i < half :: after[i] == Max(before[i], before[i + half])
    ensures IsLargest(m, after[..half])
  {
    var a, r := before[..2 * half], after[..half];
    forall i | 0 <= i < half
      ensures r[i] <= m
    {
      assert a[i] <= m && a[i + half] <= m;
    }
    var i :| 0 <= i < 2 * half && a[i] == m;
    var j := if i < half then i else i - half;
    assert r[j] == Max(a[j], a[j + half]) && a[j] <= m && a[j + half] <= m;
  }

  lemma ShuffleMaxPairs(v: seq<real>, offset: nat)
    requires |v| == WARP && 2 * offset <= WARP
    ensures forall i | 0 <= i < offset :: ShuffleMax(v, offset)[i] == Max(v[i], v[i + offset])
  {
  }

  lemma {:induction false} ShuffleKeepsLargest(v: seq<real>, offset: nat, m: real)
    requires |v| == WARP && 2 * offset <= WARP && IsLargest(m, v[..2 * offset])
    ensures IsLargest(m, ShuffleMax(v, offset)[..offset])
  {
    ShuffleMaxPairs(v, offset);
    HalvingKeepsLargest(v, ShuffleMax(v, offset), offset, m);
  }

  method WarpMaximum(lanes: seq<real>) returns (m: real)
    requires |lanes| == WARP
    ensures IsLargest(m, lanes)
  {
    ghost var largest := LargestExists(lanes);
    var v := lanes;
    var offset := 16;
    ghost var live := WARP;
    assert lanes[..WARP] == lanes;
    while offset > 0
      invariant |v| == WARP
      invariant (offset == 0 && live == 1) || (offset in {1, 2, 4, 8, 16} && live == 2 * offset)
      invariant IsLargest(largest, v[..live])
      decreases offset
    {
      ShuffleKeepsLargest(v, offset, largest);
      v := ShuffleMax(v, offset);
      live := offset;
      offset := offset / 2;
    }
    assert v[..1] == [v[0]];
    m := v[0];
  }

  /** Two levels of warp reductions find the row's largest magnitude. */
  method GpuPeak(source: seq<real>) returns (maximum: real)
    requires source != []
    ensures IsPeak(maximum, source)
  {
    var threads: seq<real> := [];
    for thread := 0 to THREADS
      invariant |threads| == thread
      invariant forall t | 0 <= t < thread :: ThreadPeak(threads[t], source, t, |source|)
    {
      var m := ThreadMaximum(source, thread);
      threads := threads + [m];
    }
    var maxima: seq<real> := [];
    for warp := 0 to 8
      invariant |maxima| == warp
      invariant forall w | 0 <= w < warp :: IsLargest(maxima[w], threads[w * WARP..w * WARP + WARP])
    {
      var m := WarpMaximum(threads[warp * WARP..warp * WARP + WARP]);
      maxima := maxima + [m];
    }
    var lanes := seq(WARP, l requires 0 <= l < WARP => if l < 8 then maxima[l] else 0.0);
    maximum := WarpMaximum(lanes);
    BlockPeak(source, threads, maxima, lanes, maximum);
  }

  lemma {:induction false} BlockPeak(source: seq<real>, threads: seq<real>, maxima: seq<real>, lanes: seq<real>, maximum: real)
    requires source != [] && |threads| == THREADS && |maxima| == 8 && |lanes| == WARP
    requires forall t | 0 <= t < THREADS :: ThreadPeak(threads[t], source, t, |source|)
    requires forall w | 0 <= w < 8 :: IsLargest(maxima[w], threads[w * WARP..w * WARP + WARP])
    requires forall l | 0 <= l < WARP :: lanes[l] == if l < 8 then maxima[l] else 0.0
    requires IsLargest(maximum, lanes)
    ensures IsPeak(maximum, source)
  {
    forall t | 0 <= t < THREADS
      ensures threads[t] <= maximum
    {
      var w := t / WARP;
      assert threads[w * WARP..w * WARP + WARP][t - w * WARP] == threads[t];
      assert lanes[w] <= maximum;
    }
    forall c | 0 <= c < |source|
      ensures Abs(source[c]) <= maximum
    {
      assert ThreadPeak(threads[c % THREADS], source, c % THREADS, |source|);
    }
    var l :| 0 <= l < WARP && lanes[l] == maximum;
    if l < 8 {
      var i :| 0 <= i < WARP && threads[l * WARP..l * WARP + WARP][i] == maxima[l];
      assert ThreadPeak(threads[l * WARP + i], source, l * WARP + i, |source|);
    }
    if maximum == 0.0 { assert Abs(source[0]) == 0.0; }
  }

  method GpuCode(x: real, inverse: real, peak: real) returns (code: int)
    requires Abs(x) <= peak && inverse == 1.0 / ScaleOf(peak)
    ensures code == RoundEven(x / ScaleOf(peak)) && Faithful(x, code, ScaleOf(peak))
  {
    ghost var scale := ScaleOf(peak);
    QuotientInRange(x, peak);
    InverseQuotient(x, scale, inverse);
    NearestIsFaithful(x, scale, x / scale);
    code := Clamp(RoundEven(x * inverse));
  }

  method QuantizeRowGpu(source: seq<real>) returns (codes: seq<int>, scale: real, ghost peak: real)
    requires source != []
    ensures IsPeak(peak, source) && scale == ScaleOf(peak) && FaithfulRow(source, codes, scale)
    ensures scale == (if peak > 0.0 then peak / 127.0 else 1.0) && |codes| == |source|
    ensures forall c | 0 <= c < |source| :: codes[c] == RoundEven(source[c] / scale)
  {
    var maximum := GpuPeak(source);
    peak := maximum;
    scale := ScaleOf(maximum);
    var inverse := 1.0 / scale;
    codes := [];
    for column := 0 to |source|
      invariant |codes| == column
      invariant forall c | 0 <= c < column ::
          codes[c] == RoundEven(source[c] / scale) && Faithful(source[c], codes[c], scale)
    {
      var x := source[column];
      var code := GpuCode(x, inverse, maximum);
      codes := codes + [code];
    }
  }

  /* ---- Why the codes are faithful ---- */

  // |e| <= bound, scaled.
  lemma {:induction false} ScaleError(e: real, bound: real, s: real)
    requires -bound <= e <= bound && s >= 0.0
    ensures -(bound * s) <= e * s <= bound * s
  {
    assert (bound - e) * s >= 0.0 && (bound + e) * s >= 0.0;
  }

  lemma {:induction false} InverseQuotient(x: real, scale: real, inverse: real)
    requires scale > 0.0 && inverse == 1.0 / scale
    ensures x * inverse == x / scale
  {
    var q := x / scale;
    assert inverse * scale == 1.0;
    assert q * scale == x;
    assert (q * scale) * inverse == q * (scale * inverse);
  }

  lemma {:induction false} Quotient(x: real, scale: real, bound: real)
    requires scale > 0.0 && -(bound * scale) <= x <= bound * scale
    ensures (x / scale) * scale == x && -bound <= x / scale <= bound
  {
    var q := x / scale;
    assert q * scale == x;
    assert (q - bound) * scale <= 0.0 && (q + bound) * scale >= 0.0;
  }

  lemma {:induction false} QuotientInRange(x: real, peak: real)
    requires Abs(x) <= peak
    ensures ScaleOf(peak) > 0.0 && (x / ScaleOf(peak)) * ScaleOf(peak) == x && -127.0 <= x / ScaleOf(peak) <= 127.0
  {
    assert peak > 0.0 ==> 127.0 * ScaleOf(peak) == peak;
    Quotient(x, ScaleOf(peak), 127.0);
  }

  lemma {:induction false} NearestIsFaithful(x: real, scale: real, q: real)
    requires scale > 0.0 && q * scale == x && -127.0 <= q <= 127.0
    ensures Clamp(RoundEven(q)) == RoundEven(q) && Faithful(x, RoundEven(q), scale)
  {
    HalfStep(q, scale);
  }

  lemma {:induction false} HalfStep(q: real, scale: real)
    requires scale > 0.0
    ensures Abs(q * scale - RoundEven(q) as real * scale) <= scale / 2.0
  {
    var n := RoundEven(q) as real;
    ScaleError(q - n, 0.5, scale);
    assert (q - n) * scale == q * scale - n * scale;
  }

  /* ---- The error of one output ---- */

  function RealSum(s: seq<real>): real {
    if s == [] then 0.0 else RealSum(s[..|s| - 1]) + s[|s| - 1]
  }

  // The terms of the float reference, of the integer accumulator, and of its dequantized value.
  function FloatTerms(x: seq<real>, w: seq<int>): (t: seq<real>)
    requires |x| == |w|
    ensures |t| == |x|
  {
    seq(|x|, c requires 0 <= c < |x| => x[c] * w[c] as real)
  }

  function CodeTerms(codes: seq<int>, w: seq<int>): (t: seq<int>)
    requires |codes| == |w|
    ensures |t| == |codes|
  {
    seq(|codes|, c requires 0 <= c < |codes| => codes[c] * w[c])
  }

  function Scaled(t: seq<int>, scale: real): (s: seq<real>)
    ensures |s| == |t|
  {
    seq(|t|, c requires 0 <= c < |t| => t[c] as real * scale)
  }

  lemma {:induction false} WeightedHalfStep(e: real, w: real, half: real)
    requires -half <= e <= half && -8.0 <= w <= 8.0
    ensures -(8.0 * half) <= e * w <= 8.0 * half
  {
    if w >= 0.0 {
      ScaleError(e, half, w);
      assert half * w <= half * 8.0;
    } else {
      var v := -w;
      ScaleError(e, half, v);
      assert half * v <= half * 8.0;
      assert e * v == -(e * w);
    }
  }

  lemma {:induction false} TermError(x: real, code: real, w: real, scale: real)
    requires scale > 0.0 && Abs(x - code * scale) <= scale / 2.0 && -8.0 <= w <= 7.0
    ensures Abs(x * w - (code * w) * scale) <= 4.0 * scale
  {
    var s := code * scale;
    WeightedHalfStep(x - s, w, scale / 2.0);
    assert (x - s) * w == x * w - s * w;
    assert s * w == (code * w) * scale;
  }

  lemma {:induction false} CodeTermError(x: real, code: int, w: int, scale: real)
    requires scale > 0.0 && Abs(x - code as real * scale) <= scale / 2.0 && -8 <= w <= 7
    ensures Abs(x * w as real - (code * w) as real * scale) <= 4.0 * scale
  {
    assert (code * w) as real == code as real * w as real;
    TermError(x, code as real, w as real, scale);
  }

  lemma {:induction false} ScaledSum(t: seq<int>, scale: real)
    ensures RealSum(Scaled(t, scale)) == Sum(t) as real * scale
  {
    if t != [] {
      var n := |t| - 1;
      ScaledSum(t[..n], scale);
      forall c | 0 <= c < n
        ensures Scaled(t, scale)[..n][c] == Scaled(t[..n], scale)[c]
      {
        assert t[..n][c] == t[c];
      }
      assert Scaled(t, scale)[..n] == Scaled(t[..n], scale);
      DistributeSum(Sum(t[..n]), t[n], scale);
    }
  }

  lemma DistributeSum(a: int, b: int, scale: real)
    ensures (a + b) as real * scale == a as real * scale + b as real * scale
  {
  }

  function Steps(n: nat, step: real): real {
    if n == 0 then 0.0 else Steps(n - 1, step) + step
  }

  lemma {:induction false} StepsAre(n: nat, step: real)
    ensures Steps(n, step) == n as real * step
  {
    if n > 0 {
      StepsAre(n - 1, step);
      var before := (n - 1) as real;
      assert n as real == before + 1.0;
      assert (before + 1.0) * step == before * step + step;
    }
  }

  ghost predicate Near(s: seq<real>, t: seq<real>, step: real) {
    |s| == |t| && forall c | 0 <= c < |s| :: Abs(s[c] - t[c]) <= step
  }

  lemma {:induction false} SumsClose(s: seq<real>, t: seq<real>, step: real)
    requires Near(s, t, step)
    ensures Abs(RealSum(s) - RealSum(t)) <= Steps(|s|, step)
  {
    if s != [] {
      var n := |s| - 1;
      assert forall c | 0 <= c < n :: s[..n][c] == s[c] && t[..n][c] == t[c];
      SumsClose(s[..n], t[..n], step);
    }
  }

  lemma {:induction false} RowError(source: seq<real>, codes: seq<int>, w: seq<int>, scale: real)
    requires scale > 0.0 && |source| == |w| && FaithfulRow(source, codes, scale)
    requires forall c | 0 <= c < |w| :: -8 <= w[c] <= 7
    ensures Abs(RealSum(FloatTerms(source, w)) - RealSum(Scaled(CodeTerms(codes, w), scale))) <= Steps(|source|, 4.0 * scale)
  {
    forall c: nat | c < |source|
      ensures Abs(FloatTerms(source, w)[c] - Scaled(CodeTerms(codes, w), scale)[c]) <= 4.0 * scale
    {
      TermErrorAt(source, codes, w, scale, c);
    }
    SumsClose(FloatTerms(source, w), Scaled(CodeTerms(codes, w), scale), 4.0 * scale);
  }

  lemma {:induction false} TermErrorAt(source: seq<real>, codes: seq<int>, w: seq<int>, scale: real, c: nat)
    requires scale > 0.0 && |source| == |w| && FaithfulRow(source, codes, scale) && c < |w| && -8 <= w[c] <= 7
    ensures Abs(FloatTerms(source, w)[c] - Scaled(CodeTerms(codes, w), scale)[c]) <= 4.0 * scale
  {
    assert Faithful(source[c], codes[c], scale);
    CodeTermError(source[c], codes[c], w[c], scale);
  }

  // |float reference - dequantized accumulator| <= 4 * width * input scale * weight scale.
  ghost predicate OutputWithinBound(reference: real, accumulator: int, width: nat, scale: real, weightScale: real) {
    Abs(reference * weightScale - (accumulator as real * scale) * weightScale) <= (width as real * (4.0 * scale)) * weightScale
  }

  lemma WithinBoundIff(reference: real, accumulator: int, width: nat, scale: real, weightScale: real)
    ensures OutputWithinBound(reference, accumulator, width, scale, weightScale)
            <==> var error, bound := reference * weightScale - (accumulator as real * scale) * weightScale,
                                     (width as real * (4.0 * scale)) * weightScale;
                 -bound <= error <= bound
  {
  }

  // The two sides of one column.
  lemma TermsAre(source: seq<real>, codes: seq<int>, packed: seq<int>, c: nat)
    requires c < |source| == |codes| && W4A8Kernel.PackedRow(packed, |source|)
    ensures var w := WeightsOf(packed, |source|);
            && FloatTerms(source, w)[c] == source[c] * W4A8Kernel.SignedNibble(packed[c / 2], c) as real
            && CodeTerms(codes, w)[c] == codes[c] * W4A8Kernel.SignedNibble(packed[c / 2], c)
  {
  }

  /** Whatever faithful codes a row gets, its dequantized output is within
      width * (4 * input scale) * weight scale of the float reference. */
  lemma {:induction false} OutputError(source: seq<real>, codes: seq<int>, w: seq<int>, scale: real, weightScale: real)
    requires scale > 0.0 && weightScale >= 0.0 && |source| == |w| && FaithfulRow(source, codes, scale)
    requires forall c | 0 <= c < |w| :: -8 <= w[c] <= 7
    ensures OutputWithinBound(RealSum(FloatTerms(source, w)), Sum(CodeTerms(codes, w)), |source|, scale, weightScale)
  {
    RowError(source, codes, w, scale);
    ScaleRowError(RealSum(FloatTerms(source, w)), CodeTerms(codes, w), |source|, scale, weightScale);
  }

  lemma {:induction false} ScaleRowError(f: real, terms: seq<int>, n: nat, scale: real, weightScale: real)
    requires weightScale >= 0.0 && Abs(f - RealSum(Scaled(terms, scale))) <= Steps(n, 4.0 * scale)
    ensures OutputWithinBound(f, Sum(terms), n, scale, weightScale)
  {
    WeightedError(f, RealSum(Scaled(terms, scale)), Steps(n, 4.0 * scale), weightScale);
    ScaledSum(terms, scale);
    StepsAre(n, 4.0 * scale);
  }

  lemma {:induction false} WeightedError(f: real, h: real, bound: real, s: real)
    requires Abs(f - h) <= bound && s >= 0.0
    ensures Abs(f * s - h * s) <= bound * s
  {
    ScaleError(f - h, bound, s);
    assert (f - h) * s == f * s - h * s;
  }

  /* ---- From the quantizer through the integer kernel ---- */

  function WeightsOf(packed: seq<int>, width: nat): (w: seq<int>)
    requires W4A8Kernel.PackedRow(packed, width)
    ensures |w| == width && forall c | 0 <= c < width :: -8 <= w[c] <= 7
  {
    seq(width, c requires 0 <= c < width => W4A8Kernel.SignedNibble(packed[c / 2], c))
  }

  /** End to end: the int32 the DP4A kernel delivers for faithful codes, dequantized,
      is within the bound of the float reference over the same packed weights. */
  lemma {:induction false} KernelOutputError(source: seq<real>, codes: seq<int>, packed: seq<int>, scale: real, weightScale: real)
    requires scale > 0.0 && weightScale >= 0.0 && FaithfulRow(source, codes, scale)
    requires W4A8Kernel.PackedRow(packed, |source|) && 1016 * |source| <= 0x7fff_ffff
    ensures OutputWithinBound(RealSum(FloatTerms(source, WeightsOf(packed, |source|))),
                              Wrap32(W4A8Kernel.Dot(packed, codes)), |source|, scale, weightScale)
  {
    var w := WeightsOf(packed, |source|);
    forall c | 0 <= c < |codes|
      ensures -127 <= codes[c] <= 127
    {
      assert Faithful(source[c], codes[c], scale);
    }
    W4A8Kernel.QuantizedRowsFitInt32(packed, codes);
    assert W4A8Kernel.Products(packed, codes) == CodeTerms(codes, w);
    OutputError(source, codes, w, scale, weightScale);
  }
}
