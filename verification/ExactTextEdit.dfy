/** One exact replacement in a text.  The guard counts occurrences without overlap, so an
    accepted text may still occur twice; what is rewritten is the leftmost occurrence. */
module ExactTextEdit {

  const MAX_EDIT_TEXT_CHARS: nat := 12_000

  datatype Result<T> = Ok(value: T) | Err(error: EditError)
  datatype EditError = OutsideContext | NotText | EmptyOrSame | TooLong | NotExactlyOnce | EscapesWorktree | Stale

  // An argument of unchecked type.
  datatype Field = Other | Text(text: string)
  datatype Edit = Edit(path: string, expected: string, replacement: string)

  /* ---- Strings ---- */

  predicate Occurs(t: string, p: string, i: nat) {
    i + |p| <= |t| && t[i..i + |p|] == p
  }

  predicate Leftmost(t: string, p: string, i: nat) {
    Occurs(t, p, i) && forall j | 0 <= j < i :: !Occurs(t, p, j)
  }

  // str.count: left to right, resuming after each match.
  function Count(t: string, p: string): nat
    requires p != ""
    decreases |t|
  {
    if |t| < |p| then 0
    else if t[..|p|] == p then 1 + Count(t[|p|..], p)
    else Count(t[1..], p)
  }

  // str.replace with count 1.
  function ReplaceFirst(t: string, p: string, r: string): string
    requires p != ""
    decreases |t|
  {
    if |t| < |p| then t
    else if t[..|p|] == p then r + t[|p|..]
    else [t[0]] + ReplaceFirst(t[1..], p, r)
  }

  lemma {:induction false} OccursInTail(t: string, p: string, k: nat, i: nat)
    requires k <= |t|
    ensures Occurs(t[k..], p, i) <==> Occurs(t, p, k + i)
  {
    if k + i + |p| <= |t| { assert t[k..][i..i + |p|] == t[k + i..k + i + |p|]; }
  }

  lemma {:induction false} CountZeroIff(t: string, p: string)
    requires p != ""
    ensures Count(t, p) == 0 <==> forall i: nat :: !Occurs(t, p, i)
    decreases |t|
  {
    if |t| >= |p| {
      if t[..|p|] == p {
        assert Occurs(t, p, 0);
      } else {
        CountZeroIff(t[1..], p);
        assert !Occurs(t, p, 0);
        NoneInTail(t, p);
      }
    }
  }

  lemma {:induction false} NoneInTail(t: string, p: string)
    requires t != "" && !Occurs(t, p, 0)
    ensures (forall i: nat :: !Occurs(t[1..], p, i)) <==> forall i: nat :: !Occurs(t, p, i)
  {
    forall i: nat
      ensures Occurs(t[1..], p, i) <==> Occurs(t, p, i + 1)
    {
      OccursInTail(t, p, 1, i);
    }
    if forall i: nat :: !Occurs(t[1..], p, i) {
      forall i: nat
        ensures !Occurs(t, p, i)
      {
        if i > 0 { OccursInTail(t, p, 1, i - 1); }
      }
    }
  }

  // The leftmost occurrence, with no further one after its end.
  ghost predicate OnceAt(t: string, p: string, i: nat) {
    Leftmost(t, p, i) && forall j | i + |p| <= j :: !Occurs(t, p, j)
  }

  /** The guard's count is one exactly when no occurrence starts after the end of the
      leftmost one: overlapping occurrences are not seen. */
  lemma {:induction false} CountOneIff(t: string, p: string)
    requires p != ""
    ensures Count(t, p) == 1 <==> exists i: nat :: OnceAt(t, p, i)
    decreases |t|
  {
    if |t| < |p| {
      assert forall i: nat :: !Occurs(t, p, i);
    } else if t[..|p|] == p {
      CountZeroIff(t[|p|..], p);
      assert Occurs(t, p, 0);
      OccursBeyond(t, p);
      if Count(t, p) == 1 { assert OnceAt(t, p, 0); }
      assert forall i: nat :: OnceAt(t, p, i) ==> i == 0;
    } else {
      assert !Occurs(t, p, 0);
      CountOneIff(t[1..], p);
      OnceInTail(t, p);
    }
  }

  lemma {:induction false} OccursBeyond(t: string, p: string)
    requires |p| <= |t|
    ensures (forall j | |p| <= j :: !Occurs(t, p, j)) <==> (forall i: nat :: !Occurs(t[|p|..], p, i))
  {
    forall i: nat
      ensures Occurs(t[|p|..], p, i) <==> Occurs(t, p, |p| + i)
    {
      OccursInTail(t, p, |p|, i);
    }
    if forall i: nat :: !Occurs(t[|p|..], p, i) {
      forall j | |p| <= j
        ensures !Occurs(t, p, j)
      {
        OccursInTail(t, p, |p|, j - |p|);
      }
    }
  }

  lemma {:induction false} OnceInTail(t: string, p: string)
    requires t != "" && p != "" && !Occurs(t, p, 0)
    ensures (exists i: nat :: OnceAt(t, p, i)) <==> exists i: nat :: OnceAt(t[1..], p, i)
  {
    if i: nat :| OnceAt(t, p, i) {
      OnceShift(t, p, i - 1);
      assert OnceAt(t[1..], p, i - 1);
    }
    if i: nat :| OnceAt(t[1..], p, i) {
      OnceShift(t, p, i);
      assert OnceAt(t, p, i + 1);
    }
  }

  lemma {:induction false} OnceShift(t: string, p: string, i: nat)
    requires t != "" && p != "" && !Occurs(t, p, 0)
    ensures OnceAt(t[1..], p, i) <==> OnceAt(t, p, i + 1)
  {
    forall j: nat
      ensures Occurs(t[1..], p, j) <==> Occurs(t, p, j + 1)
    {
      OccursInTail(t, p, 1, j);
    }
    if OnceAt(t[1..], p, i) {
      forall j | 0 <= j < i + 1
        ensures !Occurs(t, p, j)
      {
        if j > 0 { OccursInTail(t, p, 1, j - 1); }
      }
      forall j | i + 1 + |p| <= j
        ensures !Occurs(t, p, j)
      {
        OccursInTail(t, p, 1, j - 1);
      }
    }
  }

  lemma HeadOnto(t: string, i: nat, r: string, width: nat)
    requires 0 < i && i + width <= |t|
    ensures [t[0]] + (t[1..][..i - 1] + r + t[1..][i - 1 + width..]) == t[..i] + r + t[i + width..]
  {
  }

  /** Exactly the leftmost occurrence is rewritten; the rest of the text is kept. */
  lemma {:induction false} ReplacesLeftmost(t: string, p: string, r: string, i: nat)
    requires p != "" && Leftmost(t, p, i)
    ensures ReplaceFirst(t, p, r) == t[..i] + r + t[i + |p|..]
    decreases i
  {
    if i > 0 {
      assert !Occurs(t, p, 0);
      OccursInTail(t, p, 1, i - 1);
      forall j | 0 <= j < i - 1
        ensures !Occurs(t[1..], p, j)
      {
        OccursInTail(t, p, 1, j);
      }
      ReplacesLeftmost(t[1..], p, r, i - 1);
      HeadOnto(t, i, r, |p|);
    } else {
      assert t[..0] + r + t[|p|..] == r + t[|p|..];
    }
  }

  /* ---- When the one counted occurrence is the only one ---- */

  // A proper suffix that is also a prefix: p can overlap itself at distance k.
  ghost predicate Overlaps(p: string, k: nat) {
    0 < k < |p| && p[k..] == p[..|p| - k]
  }

  lemma {:induction false} SecondOccurrenceOverlaps(t: string, p: string, i: nat, j: nat)
    requires OnceAt(t, p, i) && Occurs(t, p, j) && j != i
    ensures i < j < i + |p| && Overlaps(p, j - i)
  {
    var k := j - i;
    assert p[k..] == t[i..i + |p|][k..] == t[j..i + |p|];
    assert p[..|p| - k] == t[j..j + |p|][..|p| - k] == t[j..i + |p|];
  }

  ghost predicate OnlyOne(t: string, p: string) {
    forall i: nat, j: nat | Occurs(t, p, i) && Occurs(t, p, j) :: i == j
  }

  /** The guard's count of one means a unique occurrence, in every text, exactly for the
      texts that cannot overlap themselves. */
  lemma {:induction false} CountMeansUniqueIff(p: string)
    requires p != ""
    ensures (forall t: string | Count(t, p) == 1 :: OnlyOne(t, p)) <==> forall k: nat :: !Overlaps(p, k)
  {
    if forall k: nat :: !Overlaps(p, k) {
      forall t: string | Count(t, p) == 1
        ensures OnlyOne(t, p)
      {
        CountOneIff(t, p);
        var i: nat :| OnceAt(t, p, i);
        forall j: nat | Occurs(t, p, j)
          ensures j == i
        {
          if j != i { SecondOccurrenceOverlaps(t, p, i, j); }
        }
      }
    } else {
      var k: nat :| Overlaps(p, k);
      OverlapIsMiscounted(p, k);
      assert !OnlyOne(p[..k] + p, p);
    }
  }

  // p[..k] + p holds p twice and is counted once.
  lemma {:induction false} OverlapIsMiscounted(p: string, k: nat)
    requires Overlaps(p, k)
    ensures var t := p[..k] + p;
            Count(t, p) == 1 && Occurs(t, p, 0) && Occurs(t, p, k)
  {
    var t := p[..k] + p;
    assert p == p[..k] + p[k..];
    assert t == (p[..k] + p[..|p| - k]) + p[|p| - k..];
    assert t[..|p|] == p;
    assert |t[|p|..]| < |p| && Count(t[|p|..], p) == 0;
    assert t[k..k + |p|] == p;
  }

  /* ---- Swapping the two texts ---- */

  /** The swapped edit restores the file exactly when the replacement's leftmost
      occurrence in the edited text is at the edit point. */
  lemma {:induction false} SwapRestoresIff(t: string, p: string, r: string, i: nat)
    requires p != "" && r != "" && Leftmost(t, p, i)
    ensures ReplaceFirst(ReplaceFirst(t, p, r), r, p) == t <==> Leftmost(ReplaceFirst(t, p, r), r, i)
  {
    var u := ReplaceFirst(t, p, r);
    ReplacesLeftmost(t, p, r, i);
    assert u == t[..i] + r + t[i + |p|..];
    assert u[i..i + |r|] == r;
    var j := FirstOccurrence(u, r, i);
    ReplacesLeftmost(u, r, p, j);
    if j == i {
      CutBack(t, p, r, i);
    } else {
      NoEarlierOccurrence(t, p, u[..j], u[j + |r|..], j, i);
    }
  }

  // Putting p back where it was cut.
  lemma CutBack(t: string, p: string, r: string, i: nat)
    requires Occurs(t, p, i)
    ensures var u := t[..i] + r + t[i + |p|..];
            u[..i] + p + u[i + |r|..] == t
  {
  }

  // A text with p at j is not one whose leftmost p is later.
  lemma {:induction false} NoEarlierOccurrence(t: string, p: string, a: string, b: string, j: nat, i: nat)
    requires |a| == j < i && Leftmost(t, p, i)
    ensures a + p + b != t
  {
    assert (a + p + b)[j..j + |p|] == p;
    assert !Occurs(t, p, j);
  }

  lemma {:induction false} FirstOccurrence(t: string, p: string, i: nat) returns (j: nat)
    requires Occurs(t, p, i)
    ensures j <= i && Leftmost(t, p, j)
  {
    if earlier: nat :| earlier < i && Occurs(t, p, earlier) {
      j := FirstOccurrence(t, p, earlier);
    } else {
      j := i;
    }
  }

  /* ---- Validation and application ---- */

  function Join(components: seq<string>): string
    requires components != []
  {
    if |components| == 1 then components[0] else components[0] + "/" + Join(components[1..])
  }

  // The path cut at every slash: no component holds one, and joining them gives the path back.
  function Components(path: string): (c: seq<string>)
    ensures c != [] && Join(c) == path && forall x | x in c :: '/' !in x
    decreases |path|
  {
    if exists i :: 0 <= i < |path| && path[i] == '/' then
      var i := FirstSlash(path);
      var rest := Components(path[i + 1..]);
      assert path == path[..i] + "/" + path[i + 1..] && ([path[..i]] + rest)[1..] == rest;
      [path[..i]] + rest
    else [path]
  }

  function FirstSlash(path: string): (i: nat)
    requires exists i :: 0 <= i < |path| && path[i] == '/'
    ensures i < |path| && path[i] == '/' && '/' !in path[..i]
  {
    if path[0] == '/' then 0
    else
      assert exists i :: 0 <= i < |path[1..]| && path[1..][i] == '/' by {
        var i :| 0 <= i < |path| && path[i] == '/';
        assert path[1..][i - 1] == '/';
      }
      assert path == [path[0]] + path[1..];
      1 + FirstSlash(path[1..])
  }

  predicate SafeRelativePath(path: string) {
    path != "" && path[0] != '/' && ".git" !in Components(path) && ".." !in Components(path)
  }

  function Validate(path: Field, expected: Field, replacement: Field, allowed: map<string, string>): (r: Result<Edit>)
    ensures r.Ok? ==> r.value.path in allowed && CanApply(allowed[r.value.path], r.value)
  {
    if path.Other? || !SafeRelativePath(path.text) || path.text !in allowed then Err(OutsideContext)
    else if expected.Other? || replacement.Other? then Err(NotText)
    else if expected.text == "" || replacement.text == "" || expected.text == replacement.text then Err(EmptyOrSame)
    else if |expected.text| > MAX_EDIT_TEXT_CHARS || |replacement.text| > MAX_EDIT_TEXT_CHARS then Err(TooLong)
    else if Count(allowed[path.text], expected.text) != 1 then Err(NotExactlyOnce)
    else Ok(Edit(path.text, expected.text, replacement.text))
  }

  /** Exactly which proposals are accepted, and as what. */
  lemma {:induction false} ValidateAcceptsIff(path: Field, expected: Field, replacement: Field, allowed: map<string, string>)
    ensures Validate(path, expected, replacement, allowed).Ok?
            <==> && path.Text? && expected.Text? && replacement.Text?
                 && path.text != "" && path.text[0] != '/' && ".git" !in Components(path.text) && ".." !in Components(path.text)
                 && path.text in allowed && expected.text != "" && replacement.text != "" && expected.text != replacement.text
                 && |expected.text| <= 12_000 && |replacement.text| <= 12_000
                 && exists i: nat :: OnceAt(allowed[path.text], expected.text, i)
    ensures Validate(path, expected, replacement, allowed).Ok? ==>
              Validate(path, expected, replacement, allowed) == Ok(Edit(path.text, expected.text, replacement.text))
  {
    if path.Text? && path.text in allowed && expected.Text? && expected.text != "" {
      CountOneIff(allowed[path.text], expected.text);
    }
  }

  ghost predicate CanApply(text: string, edit: Edit) {
    edit.expected != "" && Count(text, edit.expected) == 1
  }

  lemma {:induction false} CanApplyIff(text: string, edit: Edit)
    ensures CanApply(text, edit) <==> edit.expected != "" && exists i: nat :: OnceAt(text, edit.expected, i)
  {
    if edit.expected != "" { CountOneIff(text, edit.expected); }
  }
}
