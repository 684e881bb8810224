/** The exact edit on a file.  Reading translates every line end to a single newline and
    writing does not translate back, so the edit sees, and leaves, another text than the
    file held. */
module EditedFile {
  import opened ExactTextEdit

  /* ---- Reading a text file ---- */

  // Universal newlines: a carriage return, with the newline after it if there is one,
  // reads as one newline.
  function Universal(t: string): (u: string)
    ensures '\r' !in u
    decreases |t|
  {
    if t == "" then "" else [FirstRead(t)] + Universal(t[Width(t)..])
  }

  // How many characters the first one read takes.
  function Width(t: string): (k: nat)
    requires t != ""
    ensures 1 <= k <= |t|
  {
    if t[0] == '\r' && |t| > 1 && t[1] == '\n' then 2 else 1
  }

  // A text that ends in a return, before one that starts with a newline.
  predicate Meets(a: string, b: string) {
    a != "" && b != "" && a[|a| - 1] == '\r' && b[0] == '\n'
  }

  function FirstRead(t: string): char
    requires t != ""
  {
    if t[0] == '\r' then '\n' else t[0]
  }

  lemma {:induction false} UniversalStep(a: string, b: string)
    requires a != ""
    ensures Universal(a + b)
            == [FirstRead(a)] + Universal(if |a| == 1 && Meets(a, b) then b[1..] else a[Width(a)..] + b)
  {
    if |a| == 1 && Meets(a, b) {
      assert (a + b)[2..] == b[1..];
    } else {
      assert (a + b)[Width(a)..] == a[Width(a)..] + b;
    }
  }

  lemma Regroup(a: string, b: string, c: string)
    ensures a + (b + c) == (a + b) + c
  {
  }

  lemma {:induction false} UniversalConcat(a: string, b: string)
    ensures Universal(a + b) == Universal(a) + Universal(if Meets(a, b) then b[1..] else b)
    decreases |a|
  {
    if a == "" {
      assert a + b == b;
    } else {
      UniversalStep(a, b);
      if |a| > 1 || !Meets(a, b) {
        UniversalConcat(a[Width(a)..], b);
        Regroup([FirstRead(a)], Universal(a[Width(a)..]), Universal(if Meets(a, b) then b[1..] else b));
      }
    }
  }

  /** A file reads as it is exactly when it holds no carriage return. */
  lemma {:induction false} ReadsAsItIsIff(t: string)
    ensures Universal(t) == t <==> '\r' !in t
    decreases |t|
  {
    if '\r' !in t && t != "" {
      assert t == [t[0]] + t[1..];
      ReadsAsItIsIff(t[1..]);
    }
  }

  /* ---- Applying an edit ---- */

  // The file's new text.
  function Edited(t: string, edit: Edit): Result<string>
    requires edit.expected != ""
  {
    if Count(Universal(t), edit.expected) != 1 then Err(Stale)
    else Ok(ReplaceFirst(Universal(t), edit.expected, edit.replacement))
  }

  // `now` is `t` with its one counted occurrence rewritten.
  ghost predicate Rewritten(t: string, edit: Edit, now: string) {
    exists i: nat :: RewrittenAt(t, edit, now, i)
  }

  ghost predicate RewrittenAt(t: string, edit: Edit, now: string, i: nat) {
    OnceAt(t, edit.expected, i) && now == t[..i] + edit.replacement + t[i + |edit.expected|..]
  }

  lemma {:induction false} EditedIsRewritten(t: string, edit: Edit)
    requires edit.expected != "" && Edited(t, edit).Ok?
    ensures Rewritten(Universal(t), edit, Edited(t, edit).value)
  {
    CountOneIff(Universal(t), edit.expected);
    var i: nat :| OnceAt(Universal(t), edit.expected, i);
    ReplacesLeftmost(Universal(t), edit.expected, edit.replacement, i);
    assert RewrittenAt(Universal(t), edit, Edited(t, edit).value, i);
  }

  class File {
    var text: string

    constructor (text: string)
      ensures this.text == text
    {
      this.text := text;
    }

    /** An applied edit leaves the text as it was read, with the one counted occurrence
        rewritten; a refused one leaves the file alone. */
    method Apply(inside: bool, edit: Edit) returns (r: Result<()>)
      requires edit.expected != ""
      modifies this
      ensures r.Ok? <==> inside && CanApply(Universal(old(text)), edit)
      ensures r.Err? ==> text == old(text)
      ensures r.Err? ==> r.error == if inside then Stale else EscapesWorktree
      ensures r.Ok? ==> Rewritten(Universal(old(text)), edit, text) && Edited(old(text), edit) == Ok(text)
    {
      if !inside { return Err(EscapesWorktree); }
      var current := Universal(text);
      if Count(current, edit.expected) != 1 { return Err(Stale); }
      EditedIsRewritten(text, edit);
      text := ReplaceFirst(current, edit.expected, edit.replacement);
      return Ok(());
    }
  }

  /* ---- What is left of the text outside the edit point ---- */

  function Returns(t: string): nat {
    if t == "" then 0 else Returns(t[..|t| - 1]) + if t[|t| - 1] == '\r' then 1 else 0
  }

  lemma {:induction false} ReturnsConcat(a: string, b: string)
    ensures Returns(a + b) == Returns(a) + Returns(b)
  {
    if b == "" {
      assert a + b == a;
    } else {
      ReturnsConcat(a, b[..|b| - 1]);
      assert (a + b)[..|a + b| - 1] == a + b[..|b| - 1];
    }
  }

  lemma {:induction false} NoReturnsIff(t: string)
    ensures Returns(t) == 0 <==> '\r' !in t
  {
    if t != "" {
      NoReturnsIff(t[..|t| - 1]);
      assert t == t[..|t| - 1] + [t[|t| - 1]];
    }
  }

  lemma {:induction false} ReturnsReplaced(t: string, i: nat, width: nat, r: string)
    requires i + width <= |t|
    ensures Returns(t[..i] + r + t[i + width..]) == Returns(t) - Returns(t[i..i + width]) + Returns(r)
  {
    ReturnsConcat(t[..i] + r, t[i + width..]);
    ReturnsConcat(t[..i], r);
    ReturnsConcat(t[..i] + t[i..i + width], t[i + width..]);
    ReturnsConcat(t[..i], t[i..i + width]);
    assert t == t[..i] + t[i..i + width] + t[i + width..];
  }

  // Some occurrence in the file was rewritten and everything else kept.
  ghost predicate OutsideKept(t: string, edit: Edit, now: string) {
    exists j: nat :: KeptAround(t, edit, now, j)
  }

  ghost predicate KeptAround(t: string, edit: Edit, now: string, j: nat) {
    Occurs(t, edit.expected, j) && now == t[..j] + edit.replacement + t[j + |edit.expected|..]
  }

  /** All text outside the edit point is kept exactly when the file held no carriage
      return. */
  lemma {:induction false} OutsideKeptIff(t: string, edit: Edit)
    requires edit.expected != "" && Edited(t, edit).Ok?
    ensures OutsideKept(t, edit, Edited(t, edit).value) <==> '\r' !in t
  {
    var now := Edited(t, edit).value;
    EditedIsRewritten(t, edit);
    var i: nat :| RewrittenAt(Universal(t), edit, now, i);
    if '\r' !in t {
      ReadsAsItIsIff(t);
      assert KeptAround(t, edit, now, i);
    } else {
      forall j: nat
        ensures !KeptAround(t, edit, now, j)
      {
        NotKept(t, edit, now, i, j);
      }
    }
  }

  lemma {:induction false} NotKept(t: string, edit: Edit, now: string, i: nat, j: nat)
    requires '\r' in t && RewrittenAt(Universal(t), edit, now, i)
    ensures !KeptAround(t, edit, now, j)
  {
    if KeptAround(t, edit, now, j) {
      SameReturns(t, j, Universal(t), i, edit.expected, edit.replacement);
      NoReturnsIff(Universal(t));
      NoReturnsIff(t);
    }
  }

  // Replacing p by r in two texts with one result: they held equally many returns.
  lemma {:induction false} SameReturns(t: string, j: nat, u: string, i: nat, p: string, r: string)
    requires Occurs(t, p, j) && Occurs(u, p, i) && t[..j] + r + t[j + |p|..] == u[..i] + r + u[i + |p|..]
    ensures Returns(t) == Returns(u)
  {
    ReturnsReplaced(t, j, |p|, r);
    ReturnsReplaced(u, i, |p|, r);
  }

  /** A line with a Windows line end loses it to an edit of the line: "a\r\n" becomes
      "x\n" when "a" is replaced by "x". */
  lemma {:induction false} WindowsLineEndIsLost(path: string, line: string, r: string)
    requires line != "" && line != "\n" && '\r' !in line
    ensures Edited(line + "\r\n", Edit(path, line, r)) == Ok(r + "\n")
    ensures !OutsideKept(line + "\r\n", Edit(path, line, r), r + "\n")
  {
    var t, edit := line + "\r\n", Edit(path, line, r);
    UniversalConcat(line, "\r\n");
    ReadsAsItIsIff(line);
    assert Universal("\r\n") == "\n" by { assert "\r\n"[2..] == ""; }
    OnceAlone(line, "\n");
    ReplacesLeftmost(line + "\n", line, r, 0);
    assert (line + "\n")[..0] + r + (line + "\n")[|line|..] == r + "\n";
    assert t[|line|] == '\r';
    OutsideKeptIff(t, edit);
  }

  /* ---- Swapping the two texts ---- */

  /** The swapped edit is accepted and restores the file exactly when neither the file nor
      the replacement holds a carriage return and the replacement's one counted occurrence
      in the edited file is at the edit point. */
  lemma {:induction false} SwapRestoresFileIff(t: string, edit: Edit, i: nat)
    requires edit.expected != "" && edit.replacement != "" && OnceAt(Universal(t), edit.expected, i) && Edited(t, edit).Ok?
    ensures var now := Edited(t, edit).value;
            Edited(now, Edit(edit.path, edit.replacement, edit.expected)) == Ok(t)
            <==> '\r' !in t && '\r' !in edit.replacement && OnceAt(now, edit.replacement, i)
  {
    var u, p, r, now := Universal(t), edit.expected, edit.replacement, Edited(t, edit).value;
    ReadsAsItIsIff(t);
    ReadsAsItIsIff(now);
    if '\r' in r {
      NoReturnNoOccurrence(Universal(now), r);
    } else {
      PlainReplaced(u, p, r, i);
      PlainSwap(u, p, r, i);
      if Count(now, r) == 1 {
        CountOneIff(now, r);
        var k: nat :| OnceAt(now, r, k);
        PartIsPlain(u, p, i);
        PlainReplaced(now, r, p, k);
      }
    }
  }

  lemma PartIsPlain(u: string, p: string, i: nat)
    requires Occurs(u, p, i) && '\r' !in u
    ensures '\r' !in p
  {
    assert u[i..i + |p|] == p;
  }

  // Replacing plain text by plain text leaves plain text.
  lemma {:induction false} PlainReplaced(u: string, p: string, r: string, i: nat)
    requires p != "" && Leftmost(u, p, i) && '\r' !in u && '\r' !in r
    ensures '\r' !in ReplaceFirst(u, p, r)
  {
    ReplacesLeftmost(u, p, r, i);
  }

  lemma {:induction false} PlainSwap(u: string, p: string, r: string, i: nat)
    requires p != "" && r != "" && OnceAt(u, p, i)
    ensures var now := ReplaceFirst(u, p, r);
            Count(now, r) == 1 && ReplaceFirst(now, r, p) == u <==> OnceAt(now, r, i)
  {
    var now := ReplaceFirst(u, p, r);
    SwapRestoresIff(u, p, r, i);
    CountOneIff(now, r);
    if Count(now, r) == 1 {
      var k: nat :| OnceAt(now, r, k);
      assert Leftmost(now, r, i) ==> k == i;
    }
  }

  // Text with a carriage return is never found in a file that was read.
  lemma {:induction false} NoReturnNoOccurrence(v: string, r: string)
    requires '\r' !in v && '\r' in r
    ensures Count(v, r) == 0
  {
    CountZeroIff(v, r);
    var k :| 0 <= k < |r| && r[k] == '\r';
    forall i: nat
      ensures !Occurs(v, r, i)
    {
    }
  }

  /* ---- Edits that leave the file as it was ---- */

  /** An applied edit always changes the text as it was read. */
  lemma {:induction false} EditsChangeTextRead(path: Field, expected: Field, replacement: Field, allowed: map<string, string>, t: string)
    requires Validate(path, expected, replacement, allowed).Ok?
    ensures var edit := Validate(path, expected, replacement, allowed).value;
            Edited(t, edit) != Ok(Universal(t))
  {
    var edit := Validate(path, expected, replacement, allowed).value;
    if Edited(t, edit).Ok? {
      var u, now := Universal(t), Edited(t, edit).value;
      EditedIsRewritten(t, edit);
      var i: nat :| RewrittenAt(u, edit, now, i);
      assert now[i..i + |edit.replacement|] == edit.replacement;
      assert u[i..i + |edit.expected|] == edit.expected;
    }
  }

  // The replacement reads as the expected text, or would if a newline followed it.
  predicate ReadsBack(p: string, r: string) {
    Universal(r) == p || (r != "" && r[|r| - 1] == '\r' && Universal(r) == p + "\n" && p != "\n")
  }

  /** Its bytes it can leave alone: there is such a file exactly when the replacement reads
      as the expected text, or as it and a newline that the file goes on with. */
  lemma {:induction false} FileCanStayIff(edit: Edit)
    requires edit.expected != "" && edit.replacement != ""
    ensures (exists t: string :: Edited(t, edit) == Ok(t)) <==> ReadsBack(edit.expected, edit.replacement)
  {
    var p, r := edit.expected, edit.replacement;
    if t: string :| Edited(t, edit) == Ok(t) {
      UnchangedReadsBack(t, edit);
    }
    if Universal(r) == p {
      OnceAlone(p, "");
      assert p + "" == p;
      EditsAlone(r, edit, "");
    } else if ReadsBack(p, r) {
      UniversalConcat(r, "\n");
      assert Universal("") == "" && Universal(r) + "" == Universal(r);
      OnceAlone(p, "\n");
      EditsAlone(r + "\n", edit, "\n");
    }
  }

  // p and less than itself after it holds p once; so does p and a newline.
  lemma {:induction false} OnceAlone(p: string, b: string)
    requires p != "" && (b == "" || (b == "\n" && p != "\n"))
    ensures Count(p + b, p) == 1 && OnceAt(p + b, p, 0)
  {
    var t := p + b;
    assert t[..|p|] == p && t[|p|..] == b;
    forall j: nat | |p| <= j
      ensures !Occurs(t, p, j)
    {
    }
    assert OnceAt(t, p, 0);
    CountOneIff(t, p);
  }

  lemma {:induction false} EditsAlone(t: string, edit: Edit, b: string)
    requires edit.expected != "" && Universal(t) == edit.expected + b && OnceAt(edit.expected + b, edit.expected, 0)
    requires Count(edit.expected + b, edit.expected) == 1 && t == edit.replacement + b
    ensures Edited(t, edit) == Ok(t)
  {
    var u := edit.expected + b;
    ReplacesLeftmost(u, edit.expected, edit.replacement, 0);
    assert u[..0] + edit.replacement + u[|edit.expected|..] == t;
  }

  lemma {:induction false} UnchangedReadsBack(t: string, edit: Edit)
    requires edit.expected != "" && edit.replacement != "" && Edited(t, edit) == Ok(t)
    ensures ReadsBack(edit.expected, edit.replacement)
  {
    var u, p, r := Universal(t), edit.expected, edit.replacement;
    EditedIsRewritten(t, edit);
    var i: nat :| RewrittenAt(u, edit, t, i);
    var a, b := u[..i], u[i + |p|..];
    SplitAt(u, p, i);
    Regroup(a, r, b);
    NoSecondNewline(u, p, i);
    PartsReadBack(a, b, p, r);
  }

  lemma NoSecondNewline(u: string, p: string, i: nat)
    requires OnceAt(u, p, i)
    ensures var b := u[i + |p|..]; p == "\n" ==> b == "" || b[0] != '\n'
  {
    if p == "\n" && i + 1 < |u| {
      assert !Occurs(u, p, i + 1);
      assert u[i + 1..i + 2] == [u[i + 1]];
    }
  }

  lemma SplitAt(u: string, p: string, i: nat)
    requires Occurs(u, p, i)
    ensures u == u[..i] + (p + u[i + |p|..])
  {
  }

  lemma {:induction false} PartsReadBack(a: string, b: string, p: string, r: string)
    requires '\r' !in a && '\r' !in b && Universal(a + (r + b)) == a + (p + b)
    requires p == "\n" ==> b == "" || b[0] != '\n'
    ensures ReadsBack(p, r)
  {
    PlainFront(a, r + b);
    SameFront(a, Universal(r + b), p + b);
    PlainBack(r, b);
    if Meets(r, b) {
      assert p + b == (p + "\n") + b[1..];
      SameEnd(Universal(r), p + "\n", b[1..]);
    } else {
      SameEnd(Universal(r), p, b);
    }
  }

  lemma {:induction false} PlainFront(a: string, b: string)
    requires '\r' !in a
    ensures Universal(a + b) == a + Universal(b)
  {
    UniversalConcat(a, b);
    ReadsAsItIsIff(a);
    assert a != "" ==> a[|a| - 1] in a;
  }

  lemma {:induction false} PlainBack(a: string, b: string)
    requires '\r' !in b
    ensures Universal(a + b) == Universal(a) + if Meets(a, b) then b[1..] else b
  {
    UniversalConcat(a, b);
    ReadsAsItIsIff(if Meets(a, b) then b[1..] else b);
  }

  lemma SameFront(a: string, b: string, b': string)
    ensures a + b == a + b' ==> b == b'
  {
    if a + b == a + b' { assert b == (a + b)[|a|..] && b' == (a + b')[|a|..]; }
  }

  lemma SameEnd(a: string, a': string, b: string)
    ensures a + b == a' + b ==> a == a'
  {
    if a + b == a' + b { assert a == (a + b)[..|a|] && a' == (a' + b)[..|a'|]; }
  }
}
