/** The bounded int8 GEMV primitive: one block per row, a strided DP4A loop, then an
    in-place tree over shared memory with a barrier after every level. */
module Dp4aGemv {
  import opened Grid
  import opened Int32Lanes
  import opened Sets

  const MAX_THREADS: nat := 256

  predicate PowerOfTwo(n: nat) {
    n == 1 || (n > 1 && n % 2 == 0 && PowerOfTwo(n / 2))
  }

  function Products(w: seq<int>, x: seq<int>): (p: seq<int>)
    requires |w| == |x|
    ensures |p| == |x|
  {
    seq(|x|, c requires 0 <= c < |x| => w[c] * x[c])
  }

  // The host's int64 reference of one row.
  function Dot(w: seq<int>, x: seq<int>): int
    requires |w| == |x|
  {
    Sum(Products(w, x))
  }

  lemma {:induction false} GroupStep(w: seq<int>, x: seq<int>, g: nat, accumulator: int, exact: int)
    requires |w| == |x| && Int8s(w) && Int8s(x) && 4 * g + 4 <= |x| && accumulator == Wrap32(exact)
    ensures Dp4a(Pack4(w[4 * g..4 * g + 4]), Pack4(x[4 * g..4 * g + 4]), accumulator)
            == Wrap32(exact + Groups4(Products(w, x))[g])
  {
    Dp4aIsDot4(w[4 * g..4 * g + 4], x[4 * g..4 * g + 4], accumulator, exact);
    GroupIsDot4(w, x, g);
  }

  lemma {:induction false} GroupIsDot4(w: seq<int>, x: seq<int>, g: nat)
    requires |w| == |x| && 4 * g + 4 <= |x|
    ensures Groups4(Products(w, x))[g] == Dot4(w[4 * g..4 * g + 4], x[4 * g..4 * g + 4])
  {
    var p, a, b := Products(w, x), w[4 * g..4 * g + 4], x[4 * g..4 * g + 4];
    assert p[4 * g] == a[0] * b[0] && p[4 * g + 1] == a[1] * b[1];
    assert p[4 * g + 2] == a[2] * b[2] && p[4 * g + 3] == a[3] * b[3];
  }

  // What a thread holds after k iterations of its strided loop.
  ghost function Held(w: seq<int>, x: seq<int>, thread: nat, threads: nat, k: nat): int
    requires |w| == |x| && thread < threads
  {
    Wrap32(Strided(Groups4(Products(w, x)), thread, threads, Min(thread + k * threads, |x| / 4)))
  }

  lemma {:induction false} ThreadStep(w: seq<int>, x: seq<int>, thread: nat, threads: nat, k: nat, g: nat)
    requires |w| == |x| && |x| % 4 == 0 && Int8s(w) && Int8s(x) && thread < threads
    requires g == thread + k * threads && g < |x| / 4
    ensures g + threads == thread + (k + 1) * threads
    ensures Dp4a(Pack4(w[4 * g..4 * g + 4]), Pack4(x[4 * g..4 * g + 4]), Held(w, x, thread, threads, k))
            == Held(w, x, thread, threads, k + 1)
  {
    var v := Groups4(Products(w, x));
    assert (k + 1) * threads == k * threads + threads;
    GroupStep(w, x, g, Held(w, x, thread, threads, k), Strided(v, thread, threads, g));
    StridedStep(v, thread, threads, k);
  }

  method ThreadLoop(w: seq<int>, x: seq<int>, thread: nat, threads: nat) returns (accumulator: int)
    requires |w| == |x| && |x| % 4 == 0 && Int8s(w) && Int8s(x) && thread < threads
    ensures accumulator == Wrap32(Strided(Groups4(Products(w, x)), thread, threads, |x| / 4))
  {
    ghost var k: nat, g: nat := 0, thread;
    accumulator := 0;
    var column := thread * 4;
    NothingBeforeFirst(Groups4(Products(w, x)), thread, threads);
    while column < |x|
      invariant column == 4 * g && g == thread + k * threads
      invariant accumulator == Held(w, x, thread, threads, k)
      decreases |x| - column
    {
      ThreadStep(w, x, thread, threads, k, g);
      accumulator := Dp4a(Pack4(w[column..column + 4]), Pack4(x[column..column + 4]), accumulator);
      column := column + threads * 4;
      k, g := k + 1, g + threads;
    }
  }

  /* ---- The shared-memory tree ---- */

  function Level(s: seq<int>, stride: nat): (t: seq<int>)
    requires 2 * stride <= |s|
    ensures |t| == |s|
  {
    seq(|s|, i requires 0 <= i < |s| => if i < stride then Wrap32(s[i] + s[i + stride]) else s[i])
  }

  function Tree(s: seq<int>, stride: nat): (t: seq<int>)
    requires 2 * stride <= |s|
    ensures |t| == |s|
    decreases stride
  {
    if stride == 0 then s else Tree(Level(s, stride), stride / 2)
  }

  // What one thread does between two barriers; `before` is the array at the first one.
  method ThreadAdd(partial: array<int>, thread: nat, stride: nat, ghost before: seq<int>)
    requires 2 * stride <= partial.Length == |before| && thread < partial.Length
    requires partial[thread] == before[thread] && forall t | stride <= t < partial.Length :: partial[t] == before[t]
    modifies partial
    ensures partial[thread] == Level(before, stride)[thread]
    ensures forall t | 0 <= t < partial.Length && t != thread :: partial[t] == old(partial[t])
  {
    if thread < stride {
      partial[thread] := Wrap32(partial[thread] + partial[thread + stride]);
    }
  }

  /** One level between two barriers: the threads run in any order, and every order
      gives the same array, because writes stay below `stride` and foreign reads above. */
  method TreeLevel(partial: array<int>, threads: nat, stride: nat)
    requires 2 * stride <= threads == partial.Length
    modifies partial
    ensures partial[..] == Level(old(partial[..]), stride)
  {
    ghost var before := partial[..];
    var pending: set<nat> := Below(threads);
    while pending != {}
      invariant forall t | t in pending :: t < threads
      invariant forall t | stride <= t < threads :: partial[t] == before[t]
      invariant forall t | 0 <= t < stride && t in pending :: partial[t] == before[t]
      invariant forall t | 0 <= t < stride && t !in pending :: partial[t] == Level(before, stride)[t]
      decreases |pending|
    {
      var thread: nat :| thread in pending;
      ThreadAdd(partial, thread, stride, before);
      pending := pending - {thread};
    }
  }

  method SharedTree(partial: array<int>)
    requires 0 < partial.Length
    modifies partial
    ensures partial[..] == Tree(old(partial[..]), partial.Length / 2)
  {
    var stride: nat := partial.Length / 2;
    while stride > 0
      invariant 2 * stride <= partial.Length
      invariant Tree(partial[..], stride) == Tree(old(partial[..]), partial.Length / 2)
    {
      TreeLevel(partial, partial.Length, stride);
      stride := stride / 2;
    }
  }

  lemma {:induction false} LevelKeepsSum(s: seq<int>, half: nat)
    requires 2 * half <= |s|
    ensures Wrap32(Sum(Level(s, half)[..half])) == Wrap32(Sum(s[..2 * half]))
  {
    HalvingKeepsSum(s, Level(s, half), half);
  }

  lemma {:induction false} TreeSums(s: seq<int>, live: nat)
    requires live <= |s| && PowerOfTwo(live) && forall i | 0 <= i < |s| :: IsInt32(s[i])
    ensures Tree(s, live / 2)[0] == Wrap32(Sum(s[..live]))
    decreases live
  {
    if live == 1 {
      assert s[..1] == [s[0]];
      SumOfOne(s[0]);
    } else {
      var half := live / 2;
      LevelKeepsSum(s, half);
      TreeSums(Level(s, half), half);
    }
  }

  ghost predicate DeliversEverySum(threads: nat)
    requires 0 < threads
  {
    forall s: seq<int> | |s| == threads && (forall i | 0 <= i < threads :: IsInt32(s[i])) ::
      Tree(s, threads / 2)[0] == Wrap32(Sum(s))
  }

  /** The tree delivers the whole sum for every content of `partial` exactly when the
      block size is a power of two. */
  lemma {:induction false} TreeSumsIffPowerOfTwo(threads: nat)
    requires 0 < threads
    ensures PowerOfTwo(threads) <==> DeliversEverySum(threads)
  {
    if PowerOfTwo(threads) {
      forall s: seq<int> | |s| == threads && (forall i | 0 <= i < threads :: IsInt32(s[i]))
        ensures Tree(s, threads / 2)[0] == Wrap32(Sum(s))
      {
        TreeSums(s, threads);
        assert s[..threads] == s;
      }
    } else {
      LosesSomething(threads);
    }
  }

  lemma {:induction false} LosesSomething(threads: nat)
    requires 0 < threads && !PowerOfTwo(threads)
    ensures !DeliversEverySum(threads)
  {
    var lost := LostThread(threads);
    var s := Unit(threads, lost);
    UnitSum(threads, lost);
    LostValueIsLost(s, threads);
    assert Tree(s, threads / 2)[0] == 0;
  }

  function Unit(n: nat, at: nat): (s: seq<int>)
    ensures |s| == n
  {
    seq(n, i requires 0 <= i < n => if i == at then 1 else 0)
  }

  lemma {:induction false} UnitSum(n: nat, at: nat)
    ensures Sum(Unit(n, at)) == if at < n then 1 else 0
    decreases n
  {
    if n > 0 {
      UnitSum(n - 1, at);
      assert Unit(n, at)[..n - 1] == Unit(n - 1, at);
    }
  }

  // At the first odd level the last live slot is never read.
  function LostThread(live: nat): (lost: nat)
    requires 0 < live && !PowerOfTwo(live)
    ensures lost < live
  {
    if live % 2 == 1 then live - 1 else LostThread(live / 2)
  }

  lemma {:induction false} LostValueIsLost(s: seq<int>, live: nat)
    requires 0 < live <= |s| && !PowerOfTwo(live)
    requires forall i | 0 <= i < live :: s[i] == if i == LostThread(live) then 1 else 0
    ensures Tree(s, live / 2)[0] == 0
    decreases live
  {
    var half := live / 2;
    if live % 2 == 1 {
      TreeOfZeros(Level(s, half), half);
    } else {
      LostValueIsLost(Level(s, half), half);
    }
  }

  lemma {:induction false} TreeOfZeros(s: seq<int>, live: nat)
    requires 0 < live <= |s| && forall i | 0 <= i < live :: s[i] == 0
    ensures Tree(s, live / 2)[0] == 0
    decreases live
  {
    if live > 1 {
      TreeOfZeros(Level(s, live / 2), live / 2);
    }
  }

  /* ---- The kernel ---- */

  // What the threads of one block leave in shared memory before the tree.
  ghost function BlockSums(w: seq<int>, x: seq<int>, threads: nat): (sums: seq<int>)
    requires |w| == |x| && 0 < threads
    ensures |sums| == threads && forall t | 0 <= t < threads :: IsInt32(sums[t])
  {
    var v := Groups4(Products(w, x));
    seq(threads, t requires 0 <= t < threads => Wrap32(LaneSums(v, threads, |v|)[t]))
  }

  ghost function BlockResult(w: seq<int>, x: seq<int>, threads: nat): int
    requires |w| == |x| && 0 < threads
  {
    Tree(BlockSums(w, x, threads), threads / 2)[0]
  }

  // One block of any size.
  method RowBlock(w: seq<int>, x: seq<int>, threads: nat) returns (r: int)
    requires |w| == |x| && |x| % 4 == 0 && Int8s(w) && Int8s(x) && 0 < threads <= MAX_THREADS
    ensures r == BlockResult(w, x, threads)
    ensures PowerOfTwo(threads) ==> r == Wrap32(Dot(w, x))
  {
    var partial := new int[threads];
    for thread := 0 to threads
      invariant forall t | 0 <= t < thread :: partial[t] == BlockSums(w, x, threads)[t]
    {
      partial[thread] := ThreadLoop(w, x, thread, threads);
    }
    assert partial[..] == BlockSums(w, x, threads);
    SharedTree(partial);
    r := partial[0];
    if PowerOfTwo(threads) { BlockIsDot(w, x, threads); }
  }

  lemma {:induction false} BlockIsDot(w: seq<int>, x: seq<int>, threads: nat)
    requires |w| == |x| && |x| % 4 == 0 && PowerOfTwo(threads)
    ensures BlockResult(w, x, threads) == Wrap32(Dot(w, x))
  {
    var v, lanes := Groups4(Products(w, x)), BlockSums(w, x, threads);
    var exact := LaneSums(v, threads, |v|);
    TreeSums(lanes, threads);
    assert lanes[..threads] == lanes;
    SumCongruent(lanes, exact);
    CongruentWraps(Sum(lanes), Sum(exact));
    LanesPartition(v, threads, |v|);
    assert v[..|v|] == v;
    Groups4KeepSum(Products(w, x));
  }

  // The block gets every row of every width right.
  ghost predicate RowsRight(threads: nat)
    requires 0 < threads
  {
    forall w: seq<int>, x: seq<int> | |w| == |x| && |x| % 4 == 0 && Int8s(w) && Int8s(x) ::
      BlockResult(w, x, threads) == Wrap32(Dot(w, x))
  }

  /** A block size is right for every int8 row exactly when it is a power of two. */
  lemma {:induction false} RowsRightIffPowerOfTwo(threads: nat)
    requires 0 < threads
    ensures RowsRight(threads) <==> PowerOfTwo(threads)
  {
    if PowerOfTwo(threads) {
      forall w: seq<int>, x: seq<int> | |w| == |x| && |x| % 4 == 0 && Int8s(w) && Int8s(x)
        ensures BlockResult(w, x, threads) == Wrap32(Dot(w, x))
      {
        BlockIsDot(w, x, threads);
      }
    } else {
      LosesRow(threads);
    }
  }

  /** For any other block size: one column group per thread and a single one in the weights
      and the input, at the thread whose value is lost, give 0 instead of 1. */
  lemma {:induction false} LosesRow(threads: nat)
    requires 0 < threads && !PowerOfTwo(threads)
    ensures var w := Unit(4 * threads, 4 * LostThread(threads));
            && Int8s(w) && Dot(w, w) == 1 && BlockResult(w, w, threads) == 0
  {
    var lost := LostThread(threads);
    var w, v := Unit(4 * threads, 4 * lost), Unit(threads, lost);
    assert Products(w, w) == w;
    assert Groups4(w) == v;
    UnitSum(4 * threads, 4 * lost);
    forall t | 0 <= t < threads
      ensures BlockSums(w, w, threads)[t] == v[t]
    {
      OneItemEach(v, t, threads);
    }
    LostValueIsLost(BlockSums(w, w, threads), threads);
  }

  lemma {:induction false} OneItemEach(v: seq<int>, t: nat, n: nat)
    requires t < |v| && n <= |v|
    ensures Strided(v, t, |v|, n) == if t < n then v[t] else 0
  {
    if n > 0 {
      OneItemEach(v, t, n - 1);
      SmallMod(n - 1, |v|);
    }
  }

  function Row(weights: seq<int>, columns: nat, rows: nat, row: nat): (w: seq<int>)
    requires row < rows && |weights| == rows * columns
    ensures |w| == columns && (Int8s(weights) ==> Int8s(w))
  {
    RowInside(columns, rows, row);
    weights[row * columns..row * columns + columns]
  }

  ghost function RowValue(weights: seq<int>, input: seq<int>, rows: nat, row: nat): int
    requires row < rows && |weights| == rows * |input|
  {
    Wrap32(Dot(Row(weights, |input|, rows, row), input))
  }

  lemma RowStarts(weights: seq<int>, columns: nat, rows: nat, row: nat, from: nat)
    requires row < rows && |weights| == rows * columns && from == row * columns
    ensures from + columns <= |weights| && Row(weights, columns, rows, row) == weights[from..from + columns]
  {
    RowInside(columns, rows, row);
  }

  /** A row in raw indices: the kernel's value is, modulo 2^32, the sum over the columns of
      weights[row * columns + c] * input[c], and the reference that sum itself. */
  lemma {:induction false} RowRaw(weights: seq<int>, input: seq<int>, rows: nat, row: nat, from: nat, p: seq<int>)
    requires row < rows && |weights| == rows * |input| && from == row * |input| && |p| == |input|
    requires from + |input| <= |weights| && forall c | 0 <= c < |input| :: p[c] == weights[from + c] * input[c]
    ensures RowDot(weights, input, rows, row) == Sum(p)
    ensures var r := RowValue(weights, input, rows, row);
            -0x8000_0000 <= r < 0x8000_0000 && (r - Sum(p)) % 0x1_0000_0000 == 0
  {
    RowStarts(weights, |input|, rows, row, from);
    assert Products(weights[from..from + |input|], input) == p;
  }

  method RowBlockAt(weights: seq<int>, input: seq<int>, rows: nat, row: nat, threads: nat) returns (r: int)
    requires row < rows && |weights| == rows * |input| && |input| % 4 == 0
    requires Int8s(weights) && Int8s(input) && threads <= MAX_THREADS && PowerOfTwo(threads)
    ensures r == RowValue(weights, input, rows, row)
  {
    r := RowBlock(Row(weights, |input|, rows, row), input, threads);
  }

  /** For every column count divisible by four: the int64 reference modulo 2^32. */
  method Dp4aGemvKernel(weights: seq<int>, input: seq<int>, output: array<int>, threads: nat)
    requires |weights| == output.Length * |input| && |input| % 4 == 0
    requires Int8s(weights) && Int8s(input) && threads <= MAX_THREADS && PowerOfTwo(threads)
    modifies output
    ensures forall row | 0 <= row < output.Length :: output[row] == RowValue(weights, input, output.Length, row)
  {
    for row := 0 to output.Length
      invariant forall r | 0 <= r < row :: output[r] == RowValue(weights, input, output.Length, r)
    {
      output[row] := RowBlockAt(weights, input, output.Length, row, threads);
    }
  }

  /* ---- The comparison with the int64 reference ---- */

  ghost function RowDot(weights: seq<int>, input: seq<int>, rows: nat, row: nat): int
    requires row < rows && |weights| == rows * |input|
  {
    Dot(Row(weights, |input|, rows, row), input)
  }

  // The host's inner loop.
  method ReferenceRow(w: seq<int>, x: seq<int>) returns (reference: int)
    requires |w| == |x|
    ensures reference == Dot(w, x)
  {
    reference := 0;
    for column := 0 to |x|
      invariant reference == Sum(Products(w, x)[..column])
    {
      assert Products(w, x)[..column + 1][..column] == Products(w, x)[..column];
      reference := reference + w[column] * x[column];
    }
    assert Products(w, x)[..|x|] == Products(w, x);
  }

  /** The program's `correct`: every observed int32 equals its int64 reference, exactly when
      no row's dot product leaves int32. */
  method Gate(weights: seq<int>, input: seq<int>, rows: nat, threads: nat) returns (correct: bool)
    requires |weights| == rows * |input| && |input| % 4 == 0
    requires Int8s(weights) && Int8s(input) && threads <= MAX_THREADS && PowerOfTwo(threads)
    ensures correct <==> forall row | 0 <= row < rows :: IsInt32(RowDot(weights, input, rows, row))
  {
    var observed := new int[rows];
    Dp4aGemvKernel(weights, input, observed, threads);
    correct := CompareRows(weights, input, rows, observed[..]);
    FirstFitIff(weights, input, rows, rows);
  }

  ghost predicate AreRowValues(weights: seq<int>, input: seq<int>, rows: nat, observed: seq<int>)
    requires |weights| == rows * |input|
  {
    |observed| == rows && forall row | 0 <= row < rows :: observed[row] == RowValue(weights, input, rows, row)
  }

  method CompareRows(weights: seq<int>, input: seq<int>, rows: nat, observed: seq<int>) returns (correct: bool)
    requires |weights| == rows * |input| && AreRowValues(weights, input, rows, observed)
    ensures correct <==> FirstFit(weights, input, rows, rows)
  {
    correct := true;
    for row := 0 to rows
      invariant correct <==> FirstFit(weights, input, rows, row)
    {
      var same := CompareRow(weights, input, rows, row, observed[row]);
      if !same { correct := false; }
    }
  }

  // The first n rows stay in int32.
  ghost predicate FirstFit(weights: seq<int>, input: seq<int>, rows: nat, n: nat)
    requires n <= rows && |weights| == rows * |input|
  {
    n == 0 || (FirstFit(weights, input, rows, n - 1) && IsInt32(RowDot(weights, input, rows, n - 1)))
  }

  lemma {:induction false} FirstFitIff(weights: seq<int>, input: seq<int>, rows: nat, n: nat)
    requires n <= rows && |weights| == rows * |input|
    ensures FirstFit(weights, input, rows, n) <==> forall row | 0 <= row < n :: IsInt32(RowDot(weights, input, rows, row))
  {
    if n > 0 { FirstFitIff(weights, input, rows, n - 1); }
  }

  method CompareRow(weights: seq<int>, input: seq<int>, rows: nat, row: nat, observed: int) returns (same: bool)
    requires row < rows && |weights| == rows * |input| && observed == RowValue(weights, input, rows, row)
    ensures same <==> IsInt32(RowDot(weights, input, rows, row))
  {
    var reference := ReferenceRow(Row(weights, |input|, rows, row), input);
    WrapsIff(reference);
    same := reference == observed;
  }

  lemma WrapsIff(x: int)
    ensures Wrap32(x) == x <==> IsInt32(x)
  {
  }

  ghost predicate Bounded(s: seq<int>, m: int) {
    forall i | 0 <= i < |s| :: -m <= s[i] <= m
  }

  /** Values up to m cannot overflow while m * m * columns fits: 131,071 columns of any int8
      values, and the program's 2048 columns of values up to 7 many times over. */
  lemma {:induction false} SmallRowsFitInt32(w: seq<int>, x: seq<int>, m: int)
    requires 0 <= m && |w| == |x| && Bounded(w, m) && Bounded(x, m) && m * m * |x| <= 0x7fff_ffff
    ensures IsInt32(Dot(w, x))
  {
    forall c | 0 <= c < |x|
      ensures -(m * m) <= Products(w, x)[c] <= m * m
    {
      SmallProduct(w[c], x[c], m);
    }
    SumBound(Products(w, x), m * m);
  }

  lemma {:induction false} SmallProduct(a: int, b: int, m: int)
    requires 0 <= m && -m <= a <= m && -m <= b <= m
    ensures -(m * m) <= a * b <= m * m
  {
    ScaleUp(if a < 0 then -a else a, if b < 0 then -b else b, m);
  }

  lemma {:induction false} ScaleUp(a: nat, b: nat, m: nat)
    requires a <= m && b <= m
    ensures a * b <= m * m
  {
    assert a * b <= a * m <= m * m by {
      assert a * (m - b) >= 0 && (m - a) * m >= 0;
      assert a * m == a * b + a * (m - b) && m * m == a * m + (m - a) * m;
    }
  }

  /** The program's own operands always pass its comparison. */
  lemma {:induction false} ProgramOperandsPass(weights: seq<int>, input: seq<int>, rows: nat, row: nat)
    requires row < rows && |input| == 2048 && |weights| == rows * |input| && Bounded(weights, 7) && Bounded(input, 7)
    ensures IsInt32(RowDot(weights, input, rows, row))
  {
    RowBounded(weights, 2048, rows, row, 7);
    SmallRowsFitInt32(Row(weights, 2048, rows, row), input, 7);
  }

  lemma {:induction false} RowBounded(weights: seq<int>, columns: nat, rows: nat, row: nat, m: int)
    requires row < rows && |weights| == rows * columns && Bounded(weights, m)
    ensures Bounded(Row(weights, columns, rows, row), m)
  {
    RowInside(columns, rows, row);
    var r := Row(weights, columns, rows, row);
    forall i | 0 <= i < |r|
      ensures -m <= r[i] <= m
    {
      assert r[i] == weights[row * columns + i];
    }
  }
}
