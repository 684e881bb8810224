/** Wrapping 32-bit arithmetic, byte lanes and the two facts every parallel dot
    product here rests on: strided lanes partition the work, and halving trees
    keep the sum. */
module Int32Lanes {

  predicate IsInt8(x: int) { -128 <= x < 128 }
  predicate IsInt32(x: int) { -0x8000_0000 <= x < 0x8000_0000 }

  predicate Int8s(s: seq<int>) {
    forall i | 0 <= i < |s| :: IsInt8(s[i])
  }

  function Min(a: nat, b: nat): nat { if a <= b then a else b }

  const MODULUS: int := 0x1_0000_0000

  // Two's complement truncation to 32 bits.
  function Wrap32(x: int): (r: int)
    ensures IsInt32(r) && (IsInt32(x) ==> r == x)
    ensures Congruent(r, x)
  {
    (x + 0x8000_0000) % MODULUS - 0x8000_0000
  }

  predicate Congruent(a: int, b: int) {
    (a - b) % MODULUS == 0
  }

  lemma CongruentWraps(a: int, b: int)
    requires Congruent(a, b)
    ensures Wrap32(a) == Wrap32(b)
  {
  }

  lemma CongruentSums(a: int, a': int, b: int, b': int)
    requires Congruent(a, a') && Congruent(b, b')
    ensures Congruent(a + b, a' + b')
  {
  }

  /* ---- Bytes inside a 32-bit register ---- */

  // Byte k of a register, sign-extended.
  function SignedByte(x: int, k: nat): (b: int)
    requires k < 4
    ensures IsInt8(b)
  {
    var shifted := if k == 0 then x else if k == 1 then x / 0x100 else if k == 2 then x / 0x1_0000 else x / 0x100_0000;
    SignExtend(shifted % 0x100)
  }

  function SignExtend(u: int): int {
    if u < 0x80 then u else u - 0x100
  }

  // Four unsigned bytes, lowest first, as one signed register.
  function FromBytes(u0: int, u1: int, u2: int, u3: int): int {
    Wrap32(u0 + u1 * 0x100 + u2 * 0x1_0000 + u3 * 0x100_0000)
  }

  predicate IsByte(u: int) { 0 <= u < 0x100 }

  lemma {:induction false} BytesOf(u0: int, u1: int, u2: int, u3: int)
    requires IsByte(u0) && IsByte(u1) && IsByte(u2) && IsByte(u3)
    ensures SignedByte(FromBytes(u0, u1, u2, u3), 0) == SignExtend(u0)
    ensures SignedByte(FromBytes(u0, u1, u2, u3), 1) == SignExtend(u1)
    ensures SignedByte(FromBytes(u0, u1, u2, u3), 2) == SignExtend(u2)
    ensures SignedByte(FromBytes(u0, u1, u2, u3), 3) == SignExtend(u3)
  {
    FromBytesValue(u0, u1, u2, u3);
    BytesOfValue(u0, u1, u2, SignExtend(u3));
  }

  lemma {:induction false} FromBytesValue(u0: int, u1: int, u2: int, u3: int)
    requires IsByte(u0) && IsByte(u1) && IsByte(u2) && IsByte(u3)
    ensures FromBytes(u0, u1, u2, u3) == u0 + u1 * 0x100 + u2 * 0x1_0000 + SignExtend(u3) * 0x100_0000
  {
    var n := u0 + u1 * 0x100 + u2 * 0x1_0000 + u3 * 0x100_0000;
    if u3 < 0x80 {
      assert n < 0x8000_0000;
    } else {
      assert n >= 0x8000_0000;
      assert (n + 0x8000_0000) % MODULUS == n + 0x8000_0000 - MODULUS;
    }
  }

  lemma {:induction false} BytesOfValue(u0: int, u1: int, u2: int, top: int)
    requires IsByte(u0) && IsByte(u1) && IsByte(u2) && IsInt8(top)
    ensures var x := u0 + u1 * 0x100 + u2 * 0x1_0000 + top * 0x100_0000;
            && SignedByte(x, 0) == SignExtend(u0) && SignedByte(x, 1) == SignExtend(u1)
            && SignedByte(x, 2) == SignExtend(u2) && SignedByte(x, 3) == top
  {
    var x := u0 + u1 * 0x100 + u2 * 0x1_0000 + top * 0x100_0000;
    assert x / 0x100 == u1 + u2 * 0x100 + top * 0x1_0000;
    assert x / 0x1_0000 == u2 + top * 0x100;
    assert x / 0x100_0000 == top;
  }

  // A little-endian load of four int8; also the disjoint-byte OR of `packed_signed_w4x4`.
  function Pack4(b: seq<int>): int
    requires |b| == 4
  {
    FromBytes(b[0] % 0x100, b[1] % 0x100, b[2] % 0x100, b[3] % 0x100)
  }

  lemma {:induction false} UnpackPack(b: seq<int>)
    requires |b| == 4 && forall i | 0 <= i < 4 :: IsInt8(b[i])
    ensures forall k: nat | k < 4 :: SignedByte(Pack4(b), k) == b[k]
  {
    BytesOf(b[0] % 0x100, b[1] % 0x100, b[2] % 0x100, b[3] % 0x100);
    forall k: nat | k < 4
      ensures SignedByte(Pack4(b), k) == b[k]
    {
      SignExtendLow(b[k]);
    }
  }

  lemma SignExtendLow(b: int)
    requires IsInt8(b)
    ensures IsByte(b % 0x100) && SignExtend(b % 0x100) == b
  {
  }

  // __dp4a: four signed byte products added to the accumulator, modulo 2^32.
  function Dp4a(a: int, b: int, c: int): int {
    Wrap32(c + SignedByte(a, 0) * SignedByte(b, 0) + SignedByte(a, 1) * SignedByte(b, 1)
             + SignedByte(a, 2) * SignedByte(b, 2) + SignedByte(a, 3) * SignedByte(b, 3))
  }

  function Dot4(a: seq<int>, b: seq<int>): int
    requires |a| == |b| == 4
  {
    a[0] * b[0] + a[1] * b[1] + a[2] * b[2] + a[3] * b[3]
  }

  lemma {:induction false} Dp4aIsDot4(a: seq<int>, b: seq<int>, c: int, exact: int)
    requires |a| == |b| == 4 && c == Wrap32(exact)
    requires forall i | 0 <= i < 4 :: IsInt8(a[i]) && IsInt8(b[i])
    ensures Dp4a(Pack4(a), Pack4(b), c) == Wrap32(exact + Dot4(a, b))
  {
    UnpackPack(a);
    UnpackPack(b);
    CongruentWraps(c + Dot4(a, b), exact + Dot4(a, b));
  }

  /* ---- Sums ---- */

  function Sum(s: seq<int>): int {
    if s == [] then 0 else Sum(s[..|s| - 1]) + s[|s| - 1]
  }

  lemma {:induction false} SumConcat(a: seq<int>, b: seq<int>)
    ensures Sum(a + b) == Sum(a) + Sum(b)
  {
    if b == [] {
      assert a + b == a;
    } else {
      SumConcat(a, b[..|b| - 1]);
      assert (a + b)[..|a + b| - 1] == a + b[..|b| - 1];
    }
  }

  lemma {:induction false} SumUpdate(s: seq<int>, i: nat, x: int)
    requires i < |s|
    ensures Sum(s[i := s[i] + x]) == Sum(s) + x
  {
    assert s == s[..i] + [s[i]] + s[i + 1..];
    assert s[i := s[i] + x] == s[..i] + [s[i] + x] + s[i + 1..];
    SumConcat(s[..i] + [s[i]], s[i + 1..]);
    SumConcat(s[..i], [s[i]]);
    SumConcat(s[..i] + [s[i] + x], s[i + 1..]);
    SumConcat(s[..i], [s[i] + x]);
    assert Sum([s[i]]) == s[i] && Sum([s[i] + x]) == s[i] + x;
  }

  lemma {:induction false} SumCongruent(a: seq<int>, b: seq<int>)
    requires |a| == |b| && forall i | 0 <= i < |a| :: Congruent(a[i], b[i])
    ensures Congruent(Sum(a), Sum(b))
  {
    if a != [] {
      var n := |a| - 1;
      assert forall i | 0 <= i < n :: Congruent(a[..n][i], b[..n][i]);
      SumCongruent(a[..n], b[..n]);
      CongruentSums(Sum(a[..n]), Sum(b[..n]), a[n], b[n]);
    }
  }

  lemma {:induction false} SumBound(s: seq<int>, bound: int)
    requires 0 <= bound && forall i | 0 <= i < |s| :: -bound <= s[i] <= bound
    ensures -bound * |s| <= Sum(s) <= bound * |s|
  {
    if s != [] {
      SumBound(s[..|s| - 1], bound);
    }
  }

  function Groups4(p: seq<int>): (g: seq<int>)
    ensures |g| == |p| / 4
  {
    seq(|p| / 4, i requires 0 <= i < |p| / 4 => p[4 * i] + p[4 * i + 1] + p[4 * i + 2] + p[4 * i + 3])
  }

  lemma {:induction false} Groups4KeepSum(p: seq<int>)
    requires |p| % 4 == 0
    ensures Sum(Groups4(p)) == Sum(p)
    decreases |p|
  {
    if p != [] {
      var n := |p| - 4;
      Groups4KeepSum(p[..n]);
      assert Groups4(p) == Groups4(p[..n]) + [p[n] + p[n + 1] + p[n + 2] + p[n + 3]];
      SumConcat(Groups4(p[..n]), [p[n] + p[n + 1] + p[n + 2] + p[n + 3]]);
      assert p == p[..n] + [p[n]] + [p[n + 1]] + [p[n + 2]] + [p[n + 3]];
      SumConcat(p[..n], [p[n]]);
      SumConcat(p[..n] + [p[n]], [p[n + 1]]);
      SumConcat(p[..n] + [p[n]] + [p[n + 1]], [p[n + 2]]);
      SumConcat(p[..n] + [p[n]] + [p[n + 1]] + [p[n + 2]], [p[n + 3]]);
      SumOfOne(p[n]);
      SumOfOne(p[n + 1]);
      SumOfOne(p[n + 2]);
      SumOfOne(p[n + 3]);
      SumOfOne(p[n] + p[n + 1] + p[n + 2] + p[n + 3]);
    }
  }

  lemma SumOfOne(x: int)
    ensures Sum([x]) == x
  {
  }

  /* ---- Lanes: worker t of T takes items t, t + T, t + 2T, ... ---- */

  function Strided(v: seq<int>, t: nat, T: nat, n: nat): int
    requires t < T && n <= |v|
  {
    if n == 0 then 0 else Strided(v, t, T, n - 1) + if (n - 1) % T == t then v[n - 1] else 0
  }

  function LaneSums(v: seq<int>, T: nat, n: nat): (lanes: seq<int>)
    requires 0 < T && n <= |v|
    ensures |lanes| == T
  {
    seq(T, t requires 0 <= t < T => Strided(v, t, T, n))
  }

  /** Every item is taken by exactly one lane: the lanes add up to the whole. */
  lemma {:induction false} LanesPartition(v: seq<int>, T: nat, n: nat)
    requires 0 < T && n <= |v|
    ensures Sum(LaneSums(v, T, n)) == Sum(v[..n])
  {
    if n == 0 {
      var lanes := LaneSums(v, T, 0);
      SumBound(lanes, 0);
    } else {
      LanesPartition(v, T, n - 1);
      var before, t := LaneSums(v, T, n - 1), (n - 1) % T;
      assert LaneSums(v, T, n) == before[t := before[t] + v[n - 1]];
      SumUpdate(before, t, v[n - 1]);
      assert v[..n][..n - 1] == v[..n - 1];
    }
  }

  // Between two items of one lane there is nothing else for that lane.
  lemma {:induction false} StridedGap(v: seq<int>, t: nat, T: nat, lo: nat, hi: nat)
    requires t < T && lo <= hi <= |v|
    requires forall i | lo <= i < hi :: i % T != t
    ensures Strided(v, t, T, hi) == Strided(v, t, T, lo)
    decreases hi
  {
    if lo < hi {
      StridedGap(v, t, T, lo, hi - 1);
    }
  }

  lemma {:induction false} NoMultipleInside(T: int, m: int, d: int)
    requires 0 < d < T
    ensures d != T * m
  {
    if m <= 0 {
      assert T * m <= 0;
    } else {
      assert T * m == T + T * (m - 1);
      assert T * (m - 1) >= 0;
    }
  }

  lemma {:induction false} NoMultipleBetween(t: nat, T: nat, k: nat, i: nat)
    requires t < T && t + k * T < i < t + (k + 1) * T
    ensures i % T != t
  {
    var d := i - t - k * T;
    assert (k + 1) * T == k * T + T;
    NoMultipleInside(T, i / T - k, d);
    assert d == T * (i / T - k) + (i % T - t) by {
      assert T * (i / T - k) == T * (i / T) - k * T;
    }
  }

  lemma {:induction false} NothingBeforeFirst(v: seq<int>, t: nat, T: nat)
    requires t < T
    ensures Strided(v, t, T, if t <= |v| then t else |v|) == 0
  {
    var n := if t <= |v| then t else |v|;
    forall i | 0 <= i < n
      ensures i % T != t
    {
      SmallMod(i, T);
    }
    StridedGap(v, t, T, 0, n);
  }

  lemma SmallMod(i: nat, T: nat)
    requires i < T
    ensures i % T == i
  {
  }

  lemma {:induction false} LaneIndexMod(t: nat, T: nat, k: nat)
    requires t < T
    ensures (t + k * T) % T == t
    decreases k
  {
    if k == 0 {
      SmallMod(t, T);
    } else {
      LaneIndexMod(t, T, k - 1);
      assert t + k * T == t + (k - 1) * T + T;
      ModPlus(t + (k - 1) * T, T);
    }
  }

  lemma {:induction false} ModPlus(x: int, T: int)
    requires 0 < T
    ensures (x + T) % T == x % T
  {
    var r, r' := x % T, (x + T) % T;
    var m := (x + T) / T - x / T - 1;
    assert x + T == T * ((x + T) / T) + r' && x == T * (x / T) + r;
    assert r - r' == T * m by {
      assert T * m == T * ((x + T) / T) - T * (x / T) - T;
    }
    if r > r' { NoMultipleInside(T, m, r - r'); }
    if r < r' { NoMultipleInside(T, -m, r' - r); }
  }

  // One iteration of a lane's loop: item `index`, then on to `index + T`.
  lemma {:induction false} StridedStep(v: seq<int>, t: nat, T: nat, k: nat)
    requires t < T && t + k * T < |v|
    ensures var next := t + (k + 1) * T;
            Strided(v, t, T, if next <= |v| then next else |v|) == Strided(v, t, T, t + k * T) + v[t + k * T]
  {
    var index, next := t + k * T, t + (k + 1) * T;
    assert next == index + T;
    LaneIndexMod(t, T, k);
    var end := if next <= |v| then next else |v|;
    forall i | index + 1 <= i < end
      ensures i % T != t
    {
      NoMultipleBetween(t, T, k, i);
    }
    StridedGap(v, t, T, index + 1, end);
  }

  /* ---- Halving ---- */

  lemma {:induction false} SumOfPairs(a: seq<int>, b: seq<int>, c: seq<int>)
    requires |a| == |b| == |c| && forall i | 0 <= i < |c| :: c[i] == a[i] + b[i]
    ensures Sum(c) == Sum(a) + Sum(b)
  {
    if c != [] {
      var n := |c| - 1;
      assert forall i | 0 <= i < n :: c[..n][i] == a[..n][i] + b[..n][i];
      SumOfPairs(a[..n], b[..n], c[..n]);
    }
  }

  function PairSums(s: seq<int>, half: nat): (p: seq<int>)
    requires 2 * half <= |s|
    ensures |p| == half
  {
    seq(half, i requires 0 <= i < half => s[i] + s[i + half])
  }

  lemma {:induction false} PairSumsKeepSum(s: seq<int>, half: nat)
    requires 2 * half <= |s|
    ensures Sum(PairSums(s, half)) == Sum(s[..2 * half])
  {
    var low, high := s[..half], s[half..2 * half];
    SumOfPairs(low, high, PairSums(s, half));
    assert s[..2 * half] == low + high;
    SumConcat(low, high);
  }

  /** One level of a wrapping tree: adding the upper half onto the lower half
      keeps the sum modulo 2^32. */
  lemma {:induction false} HalvingKeepsSum(before: seq<int>, after: seq<int>, half: nat)
    requires |before| == |after| && 2 * half <= |before|
    requires forall i | 0 <= i < half :: after[i] == Wrap32(before[i] + before[i + half])
    ensures Wrap32(Sum(after[..half])) == Wrap32(Sum(before[..2 * half]))
  {
    var exact := PairSums(before, half);
    forall i | 0 <= i < half
      ensures Congruent(after[..half][i], exact[i])
    {
      assert after[i] == Wrap32(exact[i]);
    }
    SumCongruent(after[..half], exact);
    PairSumsKeepSum(before, half);
    CongruentWraps(Sum(after[..half]), Sum(exact));
  }
}
