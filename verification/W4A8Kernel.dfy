/** The W4A8 expert projection: packed signed nibbles times int8 activations, on
    the GPU with DP4A and a warp shuffle tree in wrapping int32, on the CPU with an
    int64 accumulator that aborts when the result leaves the int32 range. */
module W4A8Kernel {
  import opened Int32Lanes

  const EXPERTS: nat := 4
  const INPUT: nat := 2048
  const OUTPUT: nat := 512
  const LANES: nat := 32
  const LEVELS: nat := 5

  predicate PackedRow(w: seq<int>, width: nat) {
    width % 4 == 0 && 2 * |w| == width && forall i | 0 <= i < |w| :: IsByte(w[i])
  }

  // Codes the quantizer can produce.
  predicate Quantized(a: seq<int>) {
    forall i | 0 <= i < |a| :: -127 <= a[i] <= 127
  }

  function SignedNibble(value: int, column: nat): int {
    (if column % 2 == 1 then value / 16 else value % 16) - 8
  }

  // Nibble k of a 16-bit word, lowered by 8 and masked to a byte, in byte lane k.
  function PackedSignedW4x4(packed: int): int {
    FromBytes((packed % 16 - 8) % 0x100, ((packed / 16) % 16 - 8) % 0x100,
              ((packed / 0x100) % 16 - 8) % 0x100, ((packed / 0x1000) % 16 - 8) % 0x100)
  }

  function Nibbles4(w: seq<int>, column: nat): (n: seq<int>)
    requires column % 4 == 0 && column + 4 <= 2 * |w|
    ensures |n| == 4
  {
    [SignedNibble(w[column / 2], column), SignedNibble(w[(column + 1) / 2], column + 1),
     SignedNibble(w[(column + 2) / 2], column + 2), SignedNibble(w[(column + 3) / 2], column + 3)]
  }

  /** The kernel's unpacking agrees with `signed_nibble` on all four columns. */
  lemma {:induction false} UnpackingMatchesSignedNibble(w: seq<int>, column: nat)
    requires column % 4 == 0 && column + 4 <= 2 * |w| && forall i | 0 <= i < |w| :: IsByte(w[i])
    ensures PackedSignedW4x4(w[column / 2] + w[column / 2 + 1] * 0x100) == Pack4(Nibbles4(w, column))
    ensures forall i | 0 <= i < 4 :: -8 <= Nibbles4(w, column)[i] <= 7
  {
    assert (column + 1) / 2 == column / 2 && (column + 2) / 2 == (column + 3) / 2 == column / 2 + 1;
    PackedWord(w[column / 2], w[column / 2 + 1]);
  }

  lemma {:induction false} PackedWord(low: int, high: int)
    requires IsByte(low) && IsByte(high)
    ensures PackedSignedW4x4(low + high * 0x100)
            == Pack4([SignedNibble(low, 0), SignedNibble(low, 1), SignedNibble(high, 0), SignedNibble(high, 1)])
  {
    WordNibbles(low, high);
  }

  lemma {:induction false} WordNibbles(low: int, high: int)
    requires IsByte(low) && IsByte(high)
    ensures var packed := low + high * 0x100;
            && packed % 16 == low % 16 && (packed / 16) % 16 == low / 16
            && (packed / 0x100) % 16 == high % 16 && (packed / 0x1000) % 16 == high / 16
  {
    var packed := low + high * 0x100;
    assert packed / 16 == low / 16 + high * 16;
    assert packed / 0x100 == high;
    assert packed / 0x1000 == high / 16;
  }

  /* ---- The exact dot product ---- */

  function Products(w: seq<int>, a: seq<int>): (p: seq<int>)
    requires PackedRow(w, |a|)
    ensures |p| == |a|
  {
    seq(|a|, c requires 0 <= c < |a| => a[c] * SignedNibble(w[c / 2], c))
  }

  function Dot(w: seq<int>, a: seq<int>): int
    requires PackedRow(w, |a|)
  {
    Sum(Products(w, a))
  }

  lemma {:induction false} ProductBound(x: int, n: int, m: int)
    requires -m <= x <= m && -8 <= n <= 7
    ensures -8 * m <= x * n <= 8 * m
  {
    if n >= 0 {
      assert -m * n <= x * n <= m * n;
      assert m * n <= m * 8;
    } else {
      assert m * n <= x * n <= -m * n;
      assert m * n >= m * -8;
    }
  }

  lemma {:induction false} DotBound(w: seq<int>, a: seq<int>, m: int)
    requires PackedRow(w, |a|) && 0 <= m && forall i | 0 <= i < |a| :: -m <= a[i] <= m
    ensures -8 * m * |a| <= Dot(w, a) <= 8 * m * |a|
  {
    forall c | 0 <= c < |a|
      ensures -8 * m <= Products(w, a)[c] <= 8 * m
    {
      ProductBound(a[c], SignedNibble(w[c / 2], c), m);
    }
    SumBound(Products(w, a), 8 * m);
  }

  /* ---- CPU reference ---- */

  datatype Checked = Abort | Value(value: int)

  method CpuIntegerRow(w: seq<int>, a: seq<int>) returns (r: Checked)
    requires PackedRow(w, |a|)
    ensures r == if IsInt32(Dot(w, a)) then Value(Dot(w, a)) else Abort
  {
    var accumulator := 0;
    for column := 0 to |a|
      invariant accumulator == Sum(Products(w, a)[..column])
    {
      accumulator := accumulator + a[column] * SignedNibble(w[column / 2], column);
      assert Products(w, a)[..column + 1][..column] == Products(w, a)[..column];
    }
    assert Products(w, a)[..|a|] == Products(w, a);
    if accumulator < -0x8000_0000 || accumulator > 0x7fff_ffff { return Abort; }
    return Value(accumulator);
  }

  /* ---- GPU row ---- */

  lemma {:induction false} Dp4aStep(w: seq<int>, a: seq<int>, g: nat, accumulator: int, exact: int)
    requires PackedRow(w, |a|) && Int8s(a) && 4 * g + 4 <= |a| && accumulator == Wrap32(exact)
    ensures Dp4a(Pack4(a[4 * g..4 * g + 4]), PackedSignedW4x4(w[2 * g] + w[2 * g + 1] * 0x100), accumulator)
            == Wrap32(exact + Groups4(Products(w, a))[g])
  {
    assert 4 * g / 2 == 2 * g;
    UnpackingMatchesSignedNibble(w, 4 * g);
    Dp4aIsDot4(a[4 * g..4 * g + 4], Nibbles4(w, 4 * g), accumulator, exact);
    GroupIsDot4(w, a, g);
  }

  lemma {:induction false} GroupIsDot4(w: seq<int>, a: seq<int>, g: nat)
    requires PackedRow(w, |a|) && 4 * g + 4 <= |a|
    ensures Groups4(Products(w, a))[g] == Dot4(a[4 * g..4 * g + 4], Nibbles4(w, 4 * g))
  {
    var p, bytes, nibbles := Products(w, a), a[4 * g..4 * g + 4], Nibbles4(w, 4 * g);
    assert p[4 * g] == bytes[0] * nibbles[0] && p[4 * g + 1] == bytes[1] * nibbles[1];
    assert p[4 * g + 2] == bytes[2] * nibbles[2] && p[4 * g + 3] == bytes[3] * nibbles[3];
  }

  // What lane `lane` holds before its group n (or at the end, if that is past it).
  ghost function Held(w: seq<int>, a: seq<int>, lane: nat, n: nat): int
    requires PackedRow(w, |a|) && lane < LANES
  {
    Wrap32(Strided(Groups4(Products(w, a)), lane, LANES, Min(n, |a| / 4)))
  }

  // One iteration of lane `lane`, at its group g = lane + 32 k.
  lemma {:induction false} LaneStep(w: seq<int>, a: seq<int>, lane: nat, k: nat, g: nat)
    requires PackedRow(w, |a|) && lane < LANES && g == lane + k * LANES && 4 * g < |a|
    ensures Held(w, a, lane, g + LANES)
            == Wrap32(Strided(Groups4(Products(w, a)), lane, LANES, g) + Groups4(Products(w, a))[g])
  {
    LaneTakes(Groups4(Products(w, a)), lane, k, g);
  }

  lemma {:induction false} LaneTakes(v: seq<int>, lane: nat, k: nat, g: nat)
    requires lane < LANES && g == lane + k * LANES && g < |v|
    ensures Strided(v, lane, LANES, Min(g + LANES, |v|)) == Strided(v, lane, LANES, g) + v[g]
  {
    StridedStep(v, lane, LANES, k);
  }

  // The body of the column loop, at group g.
  method AccumulateGroup(w: seq<int>, a: seq<int>, column: nat, accumulator: int, ghost g: nat, ghost exact: int) returns (r: int)
    requires PackedRow(w, |a|) && Int8s(a) && column == 4 * g && column < |a| && accumulator == Wrap32(exact)
    ensures r == Wrap32(exact + Groups4(Products(w, a))[g])
  {
    assert column / 2 == 2 * g;
    Dp4aStep(w, a, g, accumulator, exact);
    var packed := w[column / 2] + w[column / 2 + 1] * 0x100;
    r := Dp4a(Pack4(a[column..column + 4]), PackedSignedW4x4(packed), accumulator);
  }

  // The column loop of one lane.
  method LaneLoop(w: seq<int>, a: seq<int>, lane: nat) returns (accumulator: int)
    requires PackedRow(w, |a|) && Int8s(a) && lane < LANES
    ensures accumulator == Wrap32(Strided(Groups4(Products(w, a)), lane, LANES, |a| / 4))
  {
    ghost var k: nat, g: nat := 0, lane;
    accumulator := 0;
    var column := lane * 4;
    NothingBeforeFirst(Groups4(Products(w, a)), lane, LANES);
    while column < |a|
      invariant column == 4 * g && g == lane + k * LANES
      invariant accumulator == Held(w, a, lane, g)
    {
      LaneStep(w, a, lane, k, g);
      accumulator := AccumulateGroup(w, a, column, accumulator, g, Strided(Groups4(Products(w, a)), lane, LANES, g));
      column, k, g := column + 32 * 4, k + 1, g + LANES;
    }
  }

  predicate Int32s(values: seq<int>) {
    forall l | 0 <= l < |values| :: IsInt32(values[l])
  }

  // __shfl_down_sync: lanes whose source would leave the warp read themselves.
  function ShflDown(values: seq<int>, offset: nat): (v: seq<int>)
    requires |values| == LANES
    ensures |v| == LANES
  {
    seq(LANES, l requires 0 <= l < LANES => if l + offset < LANES then values[l + offset] else values[l])
  }

  function ShuffleAdd(values: seq<int>, offset: nat): (v: seq<int>)
    requires |values| == LANES
    ensures |v| == LANES && Int32s(v)
  {
    seq(LANES, l requires 0 <= l < LANES => AddFrom(values, offset, l))
  }

  // The sum that lane `lane` forms at one level, before it is wrapped.
  function ShuffleSum(values: seq<int>, offset: nat, lane: nat): int
    requires |values| == LANES && lane < LANES
  {
    values[lane] + ShflDown(values, offset)[lane]
  }

  function AddFrom(values: seq<int>, offset: nat, lane: nat): (r: int)
    requires |values| == LANES && lane < LANES
    ensures IsInt32(r)
  {
    Wrap32(ShuffleSum(values, offset, lane))
  }

  // The wrapped sum of the first n lanes.
  ghost function LiveSum(values: seq<int>, n: nat): int
    requires n <= |values|
  {
    Wrap32(Sum(values[..n]))
  }

  lemma {:induction false} ShuffleLevel(values: seq<int>, offset: nat)
    requires |values| == LANES && 2 * offset <= LANES
    ensures LiveSum(ShuffleAdd(values, offset), offset) == LiveSum(values, 2 * offset)
  {
    forall i: nat | i < offset
      ensures ShuffleAdd(values, offset)[i] == Wrap32(values[i] + values[i + offset])
    {
      ShufflePair(values, offset, i);
    }
    HalvingKeepsSum(values, ShuffleAdd(values, offset), offset);
  }

  lemma ShufflePair(values: seq<int>, offset: nat, i: nat)
    requires |values| == LANES && 2 * offset <= LANES && i < offset
    ensures ShuffleAdd(values, offset)[i] == Wrap32(values[i] + values[i + offset])
  {
  }

  // All lanes add what they are handed.
  method ShuffleOnce(values: seq<int>, offset: nat) returns (v: seq<int>)
    requires |values| == LANES && 2 * offset <= LANES
    ensures v == ShuffleAdd(values, offset) && Int32s(v) && LiveSum(v, offset) == LiveSum(values, 2 * offset)
  {
    ShuffleLevel(values, offset);
    v := ShuffleAdd(values, offset);
  }

  lemma LastLane(values: seq<int>)
    requires |values| == LANES && Int32s(values)
    ensures LiveSum(values, 1) == values[0]
  {
    assert values[..1] == [values[0]];
    SumOfOne(values[0]);
  }

  function OffsetAt(level: nat): nat {
    if level == 0 then 16 else OffsetAt(level - 1) / 2
  }

  // All lanes after the first levels of the tree.
  function AfterLevels(lanes: seq<int>, level: nat): (v: seq<int>)
    requires |lanes| == LANES
    ensures |v| == LANES
  {
    if level == 0 then lanes else ShuffleAdd(AfterLevels(lanes, level - 1), OffsetAt(level - 1))
  }

  method ShuffleTree(lanes: seq<int>) returns (r: int)
    requires |lanes| == LANES && Int32s(lanes)
    ensures r == AfterLevels(lanes, LEVELS)[0] == Wrap32(Sum(lanes))
  {
    var accumulator := lanes;
    var offset := 16;
    ghost var live := LANES;
    ghost var level: nat := 0;
    assert lanes[..LANES] == lanes;
    while offset > 0
      invariant level <= LEVELS && offset == OffsetAt(level) && (offset == 0 ==> level == LEVELS)
      invariant accumulator == AfterLevels(lanes, level) && Int32s(accumulator)
      invariant (level, offset) in {(0, 16), (1, 8), (2, 4), (3, 2), (4, 1), (5, 0)}
      invariant offset in {0, 1, 2, 4, 8, 16} && live == if offset == 0 then 1 else 2 * offset
      invariant LiveSum(accumulator, live) == Wrap32(Sum(lanes))
      decreases offset
    {
      accumulator := ShuffleOnce(accumulator, offset);
      live := offset;
      offset := offset / 2;
      level := level + 1;
    }
    LastLane(accumulator);
    r := accumulator[0];
  }

  /** A whole warp, for every width and all int8 activations: the exact dot product
      modulo 2^32. */
  method W4A8Row(w: seq<int>, a: seq<int>) returns (r: int)
    requires PackedRow(w, |a|) && Int8s(a)
    ensures r == Wrap32(Dot(w, a))
  {
    ghost var v := Groups4(Products(w, a));
    ghost var exact := LaneSums(v, LANES, |v|);
    var lanes: seq<int> := [];
    for lane := 0 to LANES
      invariant |lanes| == lane && forall l | 0 <= l < lane :: lanes[l] == Wrap32(exact[l])
    {
      var accumulator := LaneLoop(w, a, lane);
      lanes := lanes + [accumulator];
    }
    r := ShuffleTree(lanes);
    SumCongruent(lanes, exact);
    CongruentWraps(Sum(lanes), Sum(exact));
    LanesPartition(v, LANES, |v|);
    assert v[..|v|] == v;
    Groups4KeepSum(Products(w, a));
  }

  /** Below this width no quantized row can overflow: neither a lane nor the CPU. */
  lemma {:induction false} QuantizedRowsFitInt32(w: seq<int>, a: seq<int>)
    requires PackedRow(w, |a|) && Quantized(a) && 1016 * |a| <= 0x7fff_ffff
    ensures IsInt32(Dot(w, a))
    ensures forall lane: nat, n: nat | lane < LANES && n <= |a| / 4 ::
        IsInt32(Strided(Groups4(Products(w, a)), lane, LANES, n))
  {
    DotBound(w, a, 127);
    var v := Groups4(Products(w, a));
    GroupsWithin(w, a);
    forall lane: nat, n: nat | lane < LANES && n <= |v|
      ensures IsInt32(Strided(v, lane, LANES, n))
    {
      StridedBound(v, lane, n, 4064);
    }
  }

  /* ---- No sum of the shuffle tree wraps ---- */

  ghost predicate Within(values: seq<int>, bound: int) {
    forall l | 0 <= l < |values| :: -bound <= values[l] <= bound
  }

  // The bound after each of k levels that may double it.
  function Doubled(bound: nat, k: nat): nat {
    if k == 0 then bound else 2 * Doubled(bound, k - 1)
  }

  lemma {:induction false} LevelBound(values: seq<int>, offset: nat, bound: nat)
    requires |values| == LANES && Within(values, bound) && 2 * bound <= 0x7fff_ffff
    ensures forall lane: nat | lane < LANES :: -2 * bound <= ShuffleSum(values, offset, lane) <= 2 * bound
    ensures Within(ShuffleAdd(values, offset), 2 * bound)
  {
    forall lane: nat | lane < LANES
      ensures -2 * bound <= ShuffleSum(values, offset, lane) <= 2 * bound
      ensures ShuffleAdd(values, offset)[lane] == ShuffleSum(values, offset, lane)
    {
      assert ShflDown(values, offset)[lane] == values[if lane + offset < LANES then lane + offset else lane];
    }
  }

  lemma {:induction false} LevelsBound(lanes: seq<int>, bound: nat, level: nat)
    requires |lanes| == LANES && Within(lanes, bound) && Doubled(bound, level) <= 0x7fff_ffff
    ensures Within(AfterLevels(lanes, level), Doubled(bound, level))
  {
    if level > 0 {
      LevelsBound(lanes, bound, level - 1);
      LevelBound(AfterLevels(lanes, level - 1), OffsetAt(level - 1), Doubled(bound, level - 1));
    }
  }

  /** For quantized activations no exact sum of any lane at any level of the tree leaves
      int32, the discarded upper lanes included: 2048 columns are far below the limit. */
  lemma {:induction false} QuantizedTreesFitInt32(w: seq<int>, a: seq<int>, level: nat, lane: nat)
    requires PackedRow(w, |a|) && Quantized(a) && 4064 * (|a| / 4 + LANES) <= 0x7fff_ffff
    requires level < LEVELS && lane < LANES
    ensures var v := Groups4(Products(w, a));
            var lanes := LaneSums(v, LANES, |v|);
            IsInt32(lanes[lane]) && IsInt32(ShuffleSum(AfterLevels(lanes, level), OffsetAt(level), lane))
  {
    var v := Groups4(Products(w, a));
    var lanes, bound := LaneSums(v, LANES, |v|), 4064 * ((|v| + LANES - 1) / LANES);
    GroupsWithin(w, a);
    forall l: nat | l < LANES
      ensures -bound <= lanes[l] <= bound
    {
      LaneBound(v, l, |v|, 4064);
      TakenStep(l, |v|);
      ScaledOrder(4064, Taken(l, |v|), (|v| + LANES - 1) / LANES);
    }
    DoubledFive(bound, level);
    LevelsBound(lanes, bound, level);
    LevelBound(AfterLevels(lanes, level), OffsetAt(level), Doubled(bound, level));
  }

  lemma {:induction false} DoubledFive(bound: nat, level: nat)
    requires level < LEVELS && 32 * bound <= 0x7fff_ffff
    ensures 2 * Doubled(bound, level) <= 0x7fff_ffff
  {
    if level > 0 { DoubledMost(bound, level); }
  }

  lemma {:induction false} DoubledMost(bound: nat, level: nat)
    requires level <= 4
    ensures Doubled(bound, level) <= 16 * bound && (level <= 3 ==> Doubled(bound, level) <= 8 * bound)
    ensures (level <= 2 ==> Doubled(bound, level) <= 4 * bound) && (level <= 1 ==> Doubled(bound, level) <= 2 * bound)
  {
    if level > 0 { DoubledMost(bound, level - 1); }
  }

  lemma {:induction false} GroupsWithin(w: seq<int>, a: seq<int>)
    requires PackedRow(w, |a|) && Quantized(a)
    ensures Within(Groups4(Products(w, a)), 4064)
  {
    var v := Groups4(Products(w, a));
    forall g | 0 <= g < |v|
      ensures -4064 <= v[g] <= 4064
    {
      forall c | 4 * g <= c < 4 * g + 4
        ensures -1016 <= Products(w, a)[c] <= 1016
      {
        ProductBound(a[c], SignedNibble(w[c / 2], c), 127);
      }
    }
  }

  // How many of the first n items a lane takes: one in 32.
  function Taken(lane: nat, n: nat): nat
    requires lane < LANES
  {
    (n + LANES - 1 - lane) / LANES
  }

  lemma TakenStep(lane: nat, n: nat)
    requires lane < LANES
    ensures Taken(lane, n + 1) == Taken(lane, n) + if n % LANES == lane then 1 else 0
    ensures Taken(lane, n) <= (n + LANES - 1) / LANES
  {
  }

  lemma {:induction false} LaneBound(v: seq<int>, lane: nat, n: nat, bound: nat)
    requires lane < LANES && n <= |v| && Within(v, bound)
    ensures -(bound * Taken(lane, n)) <= Strided(v, lane, LANES, n) <= bound * Taken(lane, n)
  {
    if n > 0 {
      LaneBound(v, lane, n - 1, bound);
      TakenStep(lane, n - 1);
      OneMore(bound, Taken(lane, n - 1));
    }
  }

  lemma OneMore(bound: nat, k: nat)
    ensures bound * (k + 1) == bound * k + bound
  {
  }

  lemma ScaledOrder(bound: nat, a: int, b: int)
    requires a <= b
    ensures bound * a <= bound * b
  {
  }

  lemma {:induction false} StridedBound(v: seq<int>, lane: nat, n: nat, bound: int)
    requires lane < LANES && n <= |v| && 0 <= bound && forall g | 0 <= g < |v| :: -bound <= v[g] <= bound
    ensures -bound * n <= Strided(v, lane, LANES, n) <= bound * n
  {
    if n > 0 {
      StridedBound(v, lane, n - 1, bound);
      assert bound * n == bound * (n - 1) + bound;
    }
  }

  /* ---- The grid ---- */

  function RowWeights(weights: seq<int>, index: nat): (w: seq<int>)
    requires |weights| == EXPERTS * OUTPUT * (INPUT / 2) && index < EXPERTS * OUTPUT
    ensures |w| == INPUT / 2
  {
    weights[index * 1024..index * 1024 + 1024]
  }

  function ExpertInput(input: seq<int>, expert: nat): (a: seq<int>)
    requires |input| == EXPERTS * INPUT && expert < EXPERTS
    ensures |a| == INPUT
  {
    input[expert * INPUT..expert * INPUT + INPUT]
  }

  ghost predicate Operands(weights: seq<int>, input: seq<int>) {
    && |weights| == EXPERTS * OUTPUT * (INPUT / 2) && (forall i | 0 <= i < |weights| :: IsByte(weights[i]))
    && |input| == EXPERTS * INPUT && Int8s(input)
  }

  ghost function ExactOutput(weights: seq<int>, input: seq<int>, expert: nat, row: nat): int
    requires Operands(weights, input) && expert < EXPERTS && row < OUTPUT
  {
    Dot(RowWeights(weights, expert * OUTPUT + row), ExpertInput(input, expert))
  }

  ghost predicate IsKernelOutput(weights: seq<int>, input: seq<int>, output: seq<int>) {
    Operands(weights, input) && |output| == EXPERTS * OUTPUT &&
    forall expert, row | 0 <= expert < EXPERTS && 0 <= row < OUTPUT ::
      output[expert * OUTPUT + row] == Wrap32(ExactOutput(weights, input, expert, row))
  }

  ghost predicate IsReferenceOutput(weights: seq<int>, input: seq<int>, output: seq<int>) {
    Operands(weights, input) && |output| == EXPERTS * OUTPUT &&
    forall expert, row | 0 <= expert < EXPERTS && 0 <= row < OUTPUT ::
      output[expert * OUTPUT + row] == ExactOutput(weights, input, expert, row)
  }

  lemma {:induction false} ExactOutputRaw(weights: seq<int>, input: seq<int>, expert: nat, row: nat, p: seq<int>)
    requires Operands(weights, input) && expert < 4 && row < 512 && |p| == 2048
    requires forall c | 0 <= c < 2048 ::
        p[c] == input[expert * 2048 + c] * SignedNibble(weights[(expert * 512 + row) * 1024 + c / 2], c)
    ensures ExactOutput(weights, input, expert, row) == Sum(p)
  {
    var w, a := RowWeights(weights, expert * OUTPUT + row), ExpertInput(input, expert);
    forall c | 0 <= c < 2048
      ensures Products(w, a)[c] == p[c]
    {
      assert a[c] == input[expert * 2048 + c] && w[c / 2] == weights[(expert * 512 + row) * 1024 + c / 2];
    }
    assert Products(w, a) == p;
  }

  /** The kernel's outputs in raw indices: expert * 512 + row holds, modulo 2^32, the sum of
      its 2048 products, taken from the expert's own activations and the row's own bytes. */
  lemma {:induction false} KernelOutputRaw(weights: seq<int>, input: seq<int>, output: seq<int>, expert: nat, row: nat, p: seq<int>)
    requires IsKernelOutput(weights, input, output) && expert < 4 && row < 512 && |p| == 2048
    requires forall c | 0 <= c < 2048 ::
        p[c] == input[expert * 2048 + c] * SignedNibble(weights[(expert * 512 + row) * 1024 + c / 2], c)
    ensures |weights| == 4 * 512 * 1024 && |input| == 4 * 2048
    ensures |output| == 4 * 512 && IsInt32(output[expert * 512 + row]) && (output[expert * 512 + row] - Sum(p)) % 0x1_0000_0000 == 0
  {
    ExactOutputRaw(weights, input, expert, row, p);
    assert output[expert * OUTPUT + row] == Wrap32(ExactOutput(weights, input, expert, row));
  }

  /** The reference's: the sum itself. */
  lemma {:induction false} ReferenceOutputRaw(weights: seq<int>, input: seq<int>, output: seq<int>, expert: nat, row: nat, p: seq<int>)
    requires IsReferenceOutput(weights, input, output) && expert < 4 && row < 512 && |p| == 2048
    requires forall c | 0 <= c < 2048 ::
        p[c] == input[expert * 2048 + c] * SignedNibble(weights[(expert * 512 + row) * 1024 + c / 2], c)
    ensures |weights| == 4 * 512 * 1024 && |input| == 4 * 2048
    ensures |output| == 4 * 512 && output[expert * 512 + row] == Sum(p)
  {
    ExactOutputRaw(weights, input, expert, row, p);
    assert output[expert * OUTPUT + row] == ExactOutput(weights, input, expert, row);
  }

  /** A byte is its two nibbles, the even column's low, each lowered by 8. */
  lemma NibblesOfByte(value: int, column: nat)
    requires IsByte(value) && column % 2 == 0
    ensures value == (SignedNibble(value, column) + 8) + 16 * (SignedNibble(value, column + 1) + 8)
    ensures -8 <= SignedNibble(value, column) < 8 && -8 <= SignedNibble(value, column + 1) < 8
  {
  }

  /** `tile` warps per block, one row each; the last block may have idle warps. */
  method W4A8Dp4aRows(weights: seq<int>, input: seq<int>, output: array<int>, tile: nat)
    requires Operands(weights, input) && output.Length == EXPERTS * OUTPUT && 0 < tile
    modifies output
    ensures IsKernelOutput(weights, input, output[..])
  {
    for expert := 0 to EXPERTS
      invariant forall e, row | 0 <= e < expert && 0 <= row < OUTPUT ::
          output[e * OUTPUT + row] == Wrap32(ExactOutput(weights, input, e, row))
    {
      KernelExpert(weights, input, output, tile, expert);
    }
  }

  method KernelExpert(weights: seq<int>, input: seq<int>, output: array<int>, tile: nat, expert: nat)
    requires Operands(weights, input) && output.Length == EXPERTS * OUTPUT && 0 < tile && expert < EXPERTS
    modifies output
    ensures forall row | 0 <= row < OUTPUT ::
        output[expert * OUTPUT + row] == Wrap32(ExactOutput(weights, input, expert, row))
    ensures forall k | 0 <= k < output.Length && k / OUTPUT != expert :: output[k] == old(output[k])
  {
    var block := 0;
    while block * tile < OUTPUT  // gridDim.x == ceil(OUTPUT / tile)
      invariant forall row | 0 <= row < block * tile && row < OUTPUT ::
          output[expert * OUTPUT + row] == Wrap32(ExactOutput(weights, input, expert, row))
      invariant forall k | 0 <= k < output.Length && k / OUTPUT != expert :: output[k] == old(output[k])
      decreases OUTPUT - block * tile
    {
      for warp := 0 to tile
        invariant forall row | 0 <= row < block * tile + warp && row < OUTPUT ::
            output[expert * OUTPUT + row] == Wrap32(ExactOutput(weights, input, expert, row))
        invariant forall k | 0 <= k < output.Length && k / OUTPUT != expert :: output[k] == old(output[k])
      {
        var row := block * tile + warp;
        if row < OUTPUT {
          var value := W4A8Row(RowWeights(weights, expert * OUTPUT + row), ExpertInput(input, expert));
          output[expert * OUTPUT + row] := value;
        }
      }
      assert (block + 1) * tile == block * tile + tile;
      block := block + 1;
    }
  }

  method CpuIntegerReference(weights: seq<int>, input: seq<int>, output: array<int>) returns (aborted: bool)
    requires Operands(weights, input) && output.Length == EXPERTS * OUTPUT
    modifies output
    ensures !aborted ==> IsReferenceOutput(weights, input, output[..])
    ensures aborted ==> exists expert, row ::
        0 <= expert < EXPERTS && 0 <= row < OUTPUT && !IsInt32(ExactOutput(weights, input, expert, row))
  {
    for expert := 0 to EXPERTS
      invariant forall e, row | 0 <= e < expert && 0 <= row < OUTPUT ::
          output[e * OUTPUT + row] == ExactOutput(weights, input, e, row)
    {
      aborted := ReferenceExpert(weights, input, output, expert);
      if aborted { return; }
    }
    return false;
  }

  method ReferenceExpert(weights: seq<int>, input: seq<int>, output: array<int>, expert: nat) returns (aborted: bool)
    requires Operands(weights, input) && output.Length == EXPERTS * OUTPUT && expert < EXPERTS
    modifies output
    ensures !aborted ==> forall row | 0 <= row < OUTPUT :: output[expert * OUTPUT + row] == ExactOutput(weights, input, expert, row)
    ensures aborted ==> exists row :: 0 <= row < OUTPUT && !IsInt32(ExactOutput(weights, input, expert, row))
    ensures forall k | 0 <= k < expert * OUTPUT :: output[k] == old(output[k])
  {
    for row := 0 to OUTPUT
      invariant forall r | 0 <= r < row :: output[expert * OUTPUT + r] == ExactOutput(weights, input, expert, r)
      invariant forall k | 0 <= k < expert * OUTPUT :: output[k] == old(output[k])
    {
      var checked := CpuIntegerRow(RowWeights(weights, expert * OUTPUT + row), ExpertInput(input, expert));
      if checked.Abort? {
        assert !IsInt32(ExactOutput(weights, input, expert, row));
        return true;
      }
      output[expert * OUTPUT + row] := checked.value;
    }
    return false;
  }

  /** For the activations the quantizer produces the reference never aborts and the
      program's `gpu_integer != cpu_integer` gate never fires. */
  method IntegerGate(weights: seq<int>, input: seq<int>, tile: nat) returns (passed: bool)
    requires Operands(weights, input) && Quantized(input) && 0 < tile
    ensures passed
  {
    var cpu, gpu := new int[EXPERTS * OUTPUT], new int[EXPERTS * OUTPUT];
    var aborted := CpuIntegerReference(weights, input, cpu);
    W4A8Dp4aRows(weights, input, gpu, tile);
    forall expert, row | 0 <= expert < EXPERTS && 0 <= row < OUTPUT
      ensures IsInt32(ExactOutput(weights, input, expert, row))
    {
      QuantizedRowsFitInt32(RowWeights(weights, expert * OUTPUT + row), ExpertInput(input, expert));
    }
    KernelMatchesReference(weights, input, gpu[..], cpu[..]);
    passed := !aborted && gpu[..] == cpu[..];
  }

  /** Once the reference has not aborted, the kernel's vector is the reference's. */
  lemma {:induction false} KernelMatchesReference(weights: seq<int>, input: seq<int>, gpu: seq<int>, cpu: seq<int>)
    requires IsKernelOutput(weights, input, gpu) && IsReferenceOutput(weights, input, cpu)
    ensures gpu == cpu <==>
        forall expert, row | 0 <= expert < EXPERTS && 0 <= row < OUTPUT :: IsInt32(ExactOutput(weights, input, expert, row))
  {
    forall k | 0 <= k < EXPERTS * OUTPUT
      ensures gpu[k] == Wrap32(ExactOutput(weights, input, k / OUTPUT, k % OUTPUT))
      ensures cpu[k] == ExactOutput(weights, input, k / OUTPUT, k % OUTPUT)
    {
      assert k == (k / OUTPUT) * OUTPUT + k % OUTPUT;
    }
    if gpu == cpu {
      forall expert, row | 0 <= expert < EXPERTS && 0 <= row < OUTPUT
        ensures IsInt32(ExactOutput(weights, input, expert, row))
      {
        assert gpu[expert * OUTPUT + row] == cpu[expert * OUTPUT + row];
      }
    }
  }
}
