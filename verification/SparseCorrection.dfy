/** The replay's sparse correction over real arithmetic: projecting the quantized
    input and adding the residual of the first k ranked channels is projecting the
    input that is exact on those channels. */
module SparseCorrection {
  import opened Sets

  /* ---- W4 weights of the replay: two's complement nibbles, low column first ---- */

  function S4(w: seq<int>, row: nat, cols: nat, col: nat): int
    requires col < cols && cols % 2 == 0 && row * (cols / 2) + col / 2 < |w|
  {
    var b := w[row * (cols / 2) + col / 2];
    var v := (if col % 2 == 1 then b / 16 else b) % 16;
    if v >= 8 then v - 16 else v
  }

  /** A packed byte is its two columns' nibbles, the even column's low, each in two's
      complement. */
  lemma NibblesOfByte(w: seq<int>, row: nat, cols: nat, col: nat, at: nat)
    requires col + 1 < cols && cols % 2 == 0 && col % 2 == 0 && at == row * (cols / 2) + col / 2 < |w| && 0 <= w[at] < 0x100
    ensures -8 <= S4(w, row, cols, col) < 8 && -8 <= S4(w, row, cols, col + 1) < 8
    ensures w[at] == S4(w, row, cols, col) % 16 + 16 * (S4(w, row, cols, col + 1) % 16)
  {
  }

  // rows * width, one row at a time.
  function Area(rows: nat, width: nat): nat {
    if rows == 0 then 0 else Area(rows - 1, width) + width
  }

  ghost predicate Packed(w: seq<int>, rows: nat, cols: nat) {
    cols % 2 == 0 && |w| == Area(rows, cols / 2)
  }

  lemma {:induction false} AreaIs(rows: nat, width: nat)
    ensures Area(rows, width) == rows * width
  {
    if rows > 0 {
      AreaIs(rows - 1, width);
      assert rows * width == (rows - 1) * width + width;
    }
  }

  lemma {:induction false} PackedInside(w: seq<int>, rows: nat, cols: nat, row: nat, col: nat)
    requires Packed(w, rows, cols) && row < rows && col < cols
    ensures 0 <= row * (cols / 2) + col / 2 < |w|
  {
    AreaIs(row, cols / 2);
    AreaGrows(row, rows, cols / 2);
  }

  lemma {:induction false} AreaGrows(row: nat, rows: nat, width: nat)
    requires row < rows
    ensures Area(row, width) + width <= Area(rows, width)
  {
    if row + 1 < rows { AreaGrows(row, rows - 1, width); }
  }

  // Row `row` of the weight matrix as numbers; each is the nibble `s4` extracts.
  function Weights(w: seq<int>, rows: nat, cols: nat, row: nat): (c: seq<int>)
    requires Packed(w, rows, cols) && row < rows
    ensures |c| == cols
  {
    seq(cols, col requires 0 <= col < cols => WeightAt(w, rows, cols, row, col))
  }

  function WeightAt(w: seq<int>, rows: nat, cols: nat, row: nat, col: nat): int
    requires Packed(w, rows, cols) && row < rows && col < cols
  {
    PackedInside(w, rows, cols, row, col);
    S4(w, row, cols, col)
  }

  /** Column c of row r is the nibble that `s4` takes for them. */
  lemma WeightsAre(w: seq<int>, rows: nat, cols: nat, r: nat, c: nat)
    requires Packed(w, rows, cols) && r < rows && c < cols
    ensures 0 <= r * (cols / 2) + c / 2 < |w| && Weights(w, rows, cols, r)[c] == S4(w, r, cols, c)
  {
    PackedInside(w, rows, cols, r, c);
  }

  /* ---- Projection ---- */

  function Term(x: real, weight: int): real {
    x * weight as real
  }

  function Dot(x: seq<real>, c: seq<int>): real
    requires |x| == |c|
  {
    if x == [] then 0.0
    else Dot(x[..|x| - 1], c[..|c| - 1]) + Term(x[|x| - 1], c[|c| - 1])
  }

  // The dot product of the first n columns.
  function DotOf(x: seq<real>, c: seq<int>, n: nat): real
    requires |x| == |c| && n <= |x|
  {
    Dot(x[..n], c[..n])
  }

  lemma DotStep(x: seq<real>, c: seq<int>, col: nat)
    requires |x| == |c| && col < |x|
    ensures DotOf(x, c, col + 1) == DotOf(x, c, col) + Term(x[col], c[col])
  {
    assert x[..col + 1][..col] == x[..col] && c[..col + 1][..col] == c[..col];
  }

  // One column's share of a scaled row: input times weight times row scale.
  function Share(x: real, weight: int, scale: real): real {
    Term(x, weight) * scale
  }

  // The scaled row, share by share.
  function Projected(x: seq<real>, c: seq<int>, scale: real): real
    requires |x| == |c|
  {
    if x == [] then 0.0
    else Projected(x[..|x| - 1], c[..|c| - 1], scale) + Share(x[|x| - 1], c[|c| - 1], scale)
  }

  lemma {:induction false} ProjectedIs(x: seq<real>, c: seq<int>, scale: real)
    requires |x| == |c|
    ensures Dot(x, c) * scale == Projected(x, c, scale)
  {
    if x != [] {
      var n := |x| - 1;
      ProjectedIs(x[..n], c[..n], scale);
      Distribute(Dot(x[..n], c[..n]), Term(x[n], c[n]), scale);
    }
  }

  lemma Distribute(a: real, b: real, s: real)
    ensures (a + b) * s == a * s + b * s
  {
  }

  method Proj(x: seq<real>, rows: nat, cols: nat, w: seq<int>, scale: seq<real>) returns (out: array<real>)
    requires |x| == cols && Packed(w, rows, cols) && |scale| == rows
    ensures fresh(out) && out.Length == rows
    ensures forall r | 0 <= r < rows :: out[r] == Projected(x, Weights(w, rows, cols, r), scale[r])
  {
    out := new real[rows];
    for r := 0 to rows
      invariant forall k | 0 <= k < r :: out[k] == Projected(x, Weights(w, rows, cols, k), scale[k])
    {
      out[r] := ProjRow(x, rows, cols, w, scale[r], r);
    }
  }

  method ProjRow(x: seq<real>, rows: nat, cols: nat, w: seq<int>, scale: real, r: nat) returns (y: real)
    requires |x| == cols && Packed(w, rows, cols) && r < rows
    ensures y == Projected(x, Weights(w, rows, cols, r), scale)
  {
    ghost var c := Weights(w, rows, cols, r);
    var sum := 0.0;
    for col := 0 to cols
      invariant sum == DotOf(x, c, col)
    {
      DotStep(x, c, col);
      sum := sum + Term(x[col], WeightAt(w, rows, cols, r, col));
    }
    assert x[..cols] == x && c[..cols] == c;
    ProjectedIs(x, c, scale);
    y := sum * scale;
  }

  /* ---- Correction ---- */

  // Exact on the first k ranked channels, dequantized elsewhere.
  function Hybrid(x: seq<real>, q: seq<real>, order: seq<nat>, k: nat): (h: seq<real>)
    requires |x| == |q| && k <= |order| && forall i | 0 <= i < |order| :: order[i] < |x|
    ensures |h| == |x|
  {
    if k == 0 then q else Hybrid(x, q, order, k - 1)[order[k - 1] := x[order[k - 1]]]
  }

  lemma {:induction false} HybridAt(x: seq<real>, q: seq<real>, order: seq<nat>, k: nat, c: nat)
    requires |x| == |q| && k <= |order| && c < |x| && forall i | 0 <= i < |order| :: order[i] < |x|
    ensures Hybrid(x, q, order, k)[c] == if c in order[..k] then x[c] else q[c]
  {
    if k > 0 {
      HybridAt(x, q, order, k - 1, c);
      assert order[..k] == order[..k - 1] + [order[k - 1]];
    }
  }

  lemma {:induction false} ProjectedUpdate(h: seq<real>, c: seq<int>, scale: real, at: nat, v: real)
    requires |h| == |c| && at < |h|
    ensures Projected(h[at := v], c, scale) == Projected(h, c, scale) + Share(v - h[at], c[at], scale)
  {
    var n := |h| - 1;
    if at < n {
      ProjectedUpdate(h[..n], c[..n], scale, at, v);
      assert h[at := v][..n] == h[..n][at := v];
    } else {
      assert h[at := v][..n] == h[..n];
      ShareDifference(v, h[at], c[at], scale);
    }
  }

  lemma ShareDifference(a: real, b: real, weight: int, scale: real)
    ensures Share(a - b, weight, scale) == Share(a, weight, scale) - Share(b, weight, scale)
  {
    var w := weight as real;
    assert (a - b) * w == a * w - b * w;
    assert (a * w - b * w) * scale == a * w * scale - b * w * scale;
  }

  ghost predicate Injective(order: seq<nat>) {
    forall i, j | 0 <= i < j < |order| :: order[i] != order[j]
  }

  // One channel's residual moves a row from the k-hybrid to the (k+1)-hybrid.
  lemma {:induction false} CorrectionStep(x: seq<real>, q: seq<real>, order: seq<nat>, k: nat, c: seq<int>, scale: real)
    requires |x| == |q| == |c| && k < |order| && Injective(order) && forall i | 0 <= i < |order| :: order[i] < |x|
    ensures Projected(Hybrid(x, q, order, k + 1), c, scale)
            == Projected(Hybrid(x, q, order, k), c, scale) + Share(x[order[k]] - q[order[k]], c[order[k]], scale)
  {
    HybridAt(x, q, order, k, order[k]);
    assert order[k] !in order[..k];
    ProjectedUpdate(Hybrid(x, q, order, k), c, scale, order[k], x[order[k]]);
  }

  ghost function HybridRow(x: seq<real>, q: seq<real>, order: seq<nat>, k: nat, w: seq<int>, rows: nat, scale: seq<real>, r: nat): real
    requires |x| == |q| && Packed(w, rows, |x|) && |scale| == rows && r < rows
    requires k <= |order| && forall i | 0 <= i < |order| :: order[i] < |x|
  {
    Projected(Hybrid(x, q, order, k), Weights(w, rows, |x|, r), scale[r])
  }

  /** `corrected`, for one of its two matrices: starting from the projection of the
      dequantized input, k residual channels give the projection of the k-hybrid. */
  method Corrected(base: array<real>, x: seq<real>, q: seq<real>, order: seq<nat>, k: nat,
                   rows: nat, w: seq<int>, scale: seq<real>) returns (g: array<real>)
    requires |x| == |q| && Packed(w, rows, |x|) && |scale| == rows == base.Length
    requires k <= |order| && Injective(order) && forall i | 0 <= i < |order| :: order[i] < |x|
    requires forall r | 0 <= r < rows :: base[r] == Projected(q, Weights(w, rows, |x|, r), scale[r])
    ensures fresh(g) && g.Length == rows
    ensures forall r | 0 <= r < rows :: g[r] == Projected(Hybrid(x, q, order, k), Weights(w, rows, |x|, r), scale[r])
  {
    g := new real[rows];
    forall r | 0 <= r < rows {
      g[r] := base[r];
    }
    for channel := 0 to k
      invariant forall r | 0 <= r < rows :: g[r] == HybridRow(x, q, order, channel, w, rows, scale, r)
    {
      AddChannel(g, x, q, order, channel, rows, w, scale);
    }
    assert forall r | 0 <= r < rows :: g[r] == HybridRow(x, q, order, k, w, rows, scale, r);
  }

  method AddChannel(g: array<real>, x: seq<real>, q: seq<real>, order: seq<nat>, k: nat, rows: nat, w: seq<int>, scale: seq<real>)
    requires |x| == |q| && Packed(w, rows, |x|) && |scale| == rows == g.Length
    requires k < |order| && Injective(order) && forall i | 0 <= i < |order| :: order[i] < |x|
    requires forall r | 0 <= r < rows :: g[r] == HybridRow(x, q, order, k, w, rows, scale, r)
    modifies g
    ensures forall r | 0 <= r < rows :: g[r] == HybridRow(x, q, order, k + 1, w, rows, scale, r)
  {
    var channel := order[k];
    var residual := x[channel] - q[channel];
    for i := 0 to rows
      invariant forall r | 0 <= r < i :: g[r] == HybridRow(x, q, order, k + 1, w, rows, scale, r)
      invariant forall r | i <= r < rows :: g[r] == HybridRow(x, q, order, k, w, rows, scale, r)
    {
      CorrectionStep(x, q, order, k, Weights(w, rows, |x|, i), scale[i]);
      g[i] := g[i] + Share(residual, WeightAt(w, rows, |x|, i, channel), scale[i]);
    }
  }

  /** A full budget restores the exact projection. */
  lemma {:induction false} FullBudgetIsExact(x: seq<real>, q: seq<real>, order: seq<nat>)
    requires |x| == |q| == |order| && Injective(order) && forall i | 0 <= i < |order| :: order[i] < |x|
    ensures Hybrid(x, q, order, |x|) == x
  {
    forall c: nat | c < |x|
      ensures Hybrid(x, q, order, |x|)[c] == x[c]
    {
      InjectiveCovers(order, |x|, c);
      HybridAt(x, q, order, |x|, c);
      assert order[..|x|] == order;
    }
  }

  function Elements(order: seq<nat>): set<nat> {
    set c | c in order
  }

  lemma {:induction false} ElementsSize(order: seq<nat>)
    ensures |Elements(order)| <= |order|
    ensures Injective(order) ==> |Elements(order)| == |order|
  {
    if order != [] {
      var n := |order| - 1;
      ElementsSize(order[..n]);
      assert order == order[..n] + [order[n]];
      assert Elements(order) == Elements(order[..n]) + {order[n]};
      if Injective(order) {
        assert order[n] !in order[..n];
      }
    }
  }

  lemma {:induction false} InjectiveCovers(order: seq<nat>, n: nat, c: nat)
    requires |order| == n && c < n && Injective(order) && forall i | 0 <= i < n :: order[i] < n
    ensures c in order
  {
    ElementsSize(order);
    BelowSize(n);
    assert Elements(order) <= Below(n);
    SameSize(Elements(order), Below(n));
    assert c in Below(n) && c in Elements(order);
  }

  /* ---- Ranking ---- */

  // The comparator: larger score first, smaller index on a tie.
  predicate ComesBefore(s: seq<real>, a: nat, b: nat)
    requires a < |s| && b < |s|
  {
    s[a] > s[b] || (s[a] == s[b] && a < b)
  }

  ghost predicate Ordered(s: seq<real>, out: seq<nat>) {
    && (forall i | 0 <= i < |out| :: out[i] < |s|)
    && (forall i, j | 0 <= i < j < |out| :: ComesBefore(s, out[i], out[j]))
  }

  // `out` lists every index once, in comparator order.
  ghost predicate IsRanking(s: seq<real>, out: seq<nat>) {
    |out| == |s| && Ordered(s, out)
  }

  lemma {:induction false} RankingIsPermutation(s: seq<real>, out: seq<nat>)
    requires IsRanking(s, out)
    ensures Injective(out) && forall c: nat | c < |s| :: c in out
  {
    OrderedInjective(s, out);
    forall c: nat | c < |s|
      ensures c in out
    {
      InjectiveCovers(out, |s|, c);
    }
  }

  /** The comparator is a total order, so any correct sort returns the same ranking. */
  lemma {:induction false} RankingUnique(s: seq<real>, a: seq<nat>, b: seq<nat>)
    requires Ordered(s, a) && Ordered(s, b) && Elements(a) == Elements(b)
    ensures a == b
  {
    OrderedInjective(s, a);
    OrderedInjective(s, b);
    ElementsSize(a);
    ElementsSize(b);
    if a != [] {
      assert a[0] in Elements(b) && b[0] in Elements(a);
      FirstIsLeast(s, a, b[0]);
      FirstIsLeast(s, b, a[0]);
      OrderedTail(s, a);
      OrderedTail(s, b);
      RankingUnique(s, a[1..], b[1..]);
    }
  }

  lemma {:induction false} OrderedInjective(s: seq<real>, a: seq<nat>)
    requires Ordered(s, a)
    ensures Injective(a)
  {
    forall i, j | 0 <= i < j < |a|
      ensures a[i] != a[j]
    {
      assert ComesBefore(s, a[i], a[j]);
    }
  }

  lemma {:induction false} FirstIsLeast(s: seq<real>, a: seq<nat>, x: nat)
    requires Ordered(s, a) && a != [] && x in a
    ensures a[0] == x || ComesBefore(s, a[0], x)
  {
    var i :| 0 <= i < |a| && a[i] == x;
  }

  lemma {:induction false} OrderedTail(s: seq<real>, a: seq<nat>)
    requires Ordered(s, a) && a != []
    ensures Ordered(s, a[1..]) && Elements(a[1..]) == Elements(a) - {a[0]}
  {
    forall i, j | 0 <= i < j < |a[1..]|
      ensures ComesBefore(s, a[1..][i], a[1..][j])
    {
      assert ComesBefore(s, a[i + 1], a[j + 1]);
    }
    assert forall c | c in a[1..] :: c != a[0] by {
      forall i | 0 <= i < |a[1..]|
        ensures a[1..][i] != a[0]
      {
        assert ComesBefore(s, a[0], a[i + 1]);
      }
    }
    assert a == [a[0]] + a[1..];
  }

  lemma InsertOrdered(s: seq<real>, out: seq<nat>, k: nat, x: nat)
    requires Ordered(s, out) && x < |s| && x !in out && k <= |out|
    requires forall i | 0 <= i < k :: ComesBefore(s, out[i], x)
    requires k < |out| ==> !ComesBefore(s, out[k], x)
    ensures Ordered(s, out[..k] + [x] + out[k..])
  {
    var r := out[..k] + [x] + out[k..];
    forall i, j | 0 <= i < j < |r|
      ensures ComesBefore(s, r[i], r[j])
    {
      if i == k {
        assert r[j] == out[j - 1] && out[k] in out;
        if k < j - 1 { assert ComesBefore(s, out[k], out[j - 1]); }
      } else {
        assert r[i] == out[if i < k then i else i - 1];
        if j != k { assert r[j] == out[if j < k then j else j - 1]; }
      }
    }
  }

  method Insert(s: seq<real>, out: seq<nat>, x: nat) returns (r: seq<nat>)
    requires Ordered(s, out) && x < |s| && x !in out
    ensures Ordered(s, r) && |r| == |out| + 1 && forall c :: c in r <==> c in out || c == x
  {
    var k := 0;
    while k < |out| && ComesBefore(s, out[k], x)
      invariant 0 <= k <= |out| && forall i | 0 <= i < k :: ComesBefore(s, out[i], x)
    {
      k := k + 1;
    }
    InsertOrdered(s, out, k, x);
    r := out[..k] + [x] + out[k..];
    assert out == out[..k] + out[k..];
  }

  /** `rank`; the library sort is an insertion sort here. */
  method Rank(s: seq<real>) returns (out: seq<nat>)
    ensures IsRanking(s, out)
  {
    out := [];
    for i := 0 to |s|
      invariant |out| == i && Ordered(s, out) && forall c | c in out :: c < i
    {
      out := Insert(s, out, i);
    }
  }

  /* ---- The effect ranking ---- */

  // -1 everywhere except on the first 64 channels of the magnitude ranking, where a
  // square root is stored.
  ghost predicate IsEffect(effect: seq<real>, magnitude: seq<nat>, count: nat) {
    && |effect| == |magnitude| && count <= |magnitude|
    && forall c: nat | c < |effect| :: if c in magnitude[..count] then effect[c] >= 0.0 else effect[c] == -1.0
  }

  /** The first 64 channels of the effect ranking are, as a set, the first 64 of the
      magnitude ranking: effects only reorder within it. */
  lemma {:induction false} EffectKeepsTop(scores: seq<real>, magnitude: seq<nat>, effect: seq<real>, ranking: seq<nat>, count: nat)
    requires IsRanking(scores, magnitude) && IsEffect(effect, magnitude, count) && IsRanking(effect, ranking)
    ensures Elements(ranking[..count]) == Elements(magnitude[..count])
  {
    var top := Elements(magnitude[..count]);
    RankingIsPermutation(scores, magnitude);
    RankingIsPermutation(effect, ranking);
    ElementsSize(magnitude[..count]);
    ElementsSize(ranking[..count]);
    forall i: nat | i < count
      ensures ranking[i] in top
    {
      if ranking[i] !in top {
        TopComesFirst(magnitude, effect, ranking, count, i);
        ElementsSize(ranking[..i]);
        SubsetSmaller(top, Elements(ranking[..i]));
      }
    }
    assert Elements(ranking[..count]) <= top;
    SameSize(Elements(ranking[..count]), top);
  }

  // A channel outside the top is preceded by the whole top.
  lemma {:induction false} TopComesFirst(magnitude: seq<nat>, effect: seq<real>, ranking: seq<nat>, count: nat, i: nat)
    requires IsEffect(effect, magnitude, count) && IsRanking(effect, ranking) && i < |ranking|
    requires ranking[i] !in magnitude[..count]
    requires forall c: nat | c < |effect| :: c in ranking
    requires forall k | 0 <= k < |magnitude| :: magnitude[k] < |effect|
    ensures Elements(magnitude[..count]) <= Elements(ranking[..i])
  {
    forall c | c in Elements(magnitude[..count])
      ensures c in Elements(ranking[..i])
    {
      var m :| 0 <= m < count && magnitude[..count][m] == c;
      assert c == magnitude[m] && c in ranking;
      var j :| 0 <= j < |ranking| && ranking[j] == c;
      assert effect[c] >= 0.0 && effect[ranking[i]] == -1.0;
      assert ranking[..i][j] == c;
    }
  }
}
