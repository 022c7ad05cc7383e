/** `BodyWrapper`, the text wrapper for the envelope's body: it wraps each
    line of the body on its own and keeps blank lines as blank output lines.
    The ordinary wrapping of one paragraph (`textwrap.TextWrapper.wrap`) is
    not modelled; it is the parameter `base`. */
module BodyWrapping {
  import opened Text

  /** How the standard wrapper turns one paragraph into lines. */
  type BaseWrap = string -> seq<string>

  /** The lines one paragraph contributes: a blank line for an empty
      paragraph, the standard wrapping otherwise. */
  function Piece(p: string, base: BaseWrap): seq<string>
  {
    if p == "" then [""] else base(p)
  }

  /** The lines of a sequence of paragraphs, one paragraph after another. */
  function WrapAll(ps: seq<string>, base: BaseWrap): seq<string>
    decreases |ps|
  {
    if |ps| == 0 then [] else WrapAll(ps[..|ps| - 1], base) + Piece(ps[|ps| - 1], base)
  }

  /** What `BodyWrapper.wrap` returns for `text`. */
  function Wrapped(text: string, base: BaseWrap): seq<string>
  {
    WrapAll(Split(text, '\n'), base)
  }

  /** `BodyWrapper.wrap`: split at newlines, then collect each paragraph's
      lines in order. */
  method Wrap(text: string, base: BaseWrap) returns (lines: seq<string>)
    ensures lines == Wrapped(text, base)
  {
    var paragraphs := Split(text, '\n');
    lines := [];
    for i := 0 to |paragraphs|
      invariant lines == WrapAll(paragraphs[..i], base)
    {
      if paragraphs[i] != "" {
        lines := lines + base(paragraphs[i]);
      } else {
        lines := lines + [""];
      }
      assert paragraphs[..i + 1][..i] == paragraphs[..i];
    }
    assert paragraphs[..|paragraphs|] == paragraphs;
  }

  /** Wrapping two runs of paragraphs is wrapping each and concatenating. */
  lemma {:induction false} WrapAllConcat(ps: seq<string>, qs: seq<string>, base: BaseWrap)
    ensures WrapAll(ps + qs, base) == WrapAll(ps, base) + WrapAll(qs, base)
    decreases |qs|
  {
    if |qs| == 0 {
      assert ps + qs == ps;
    } else {
      var n := |qs| - 1;
      WrapAllConcat(ps, qs[..n], base);
      ConcatLast(ps, qs);
      WrapAllLast(ps + qs, base);
      WrapAllLast(qs, base);
      LinesAssoc(WrapAll(ps, base), WrapAll(qs[..n], base), Piece(qs[n], base));
    }
  }

  lemma WrapAllLast(ps: seq<string>, base: BaseWrap)
    requires |ps| > 0
    ensures WrapAll(ps, base) == WrapAll(ps[..|ps| - 1], base) + Piece(ps[|ps| - 1], base)
  {
  }

  lemma ConcatLast(ps: seq<string>, qs: seq<string>)
    requires |qs| > 0
    ensures (ps + qs)[..|ps + qs| - 1] == ps + qs[..|qs| - 1]
    ensures (ps + qs)[|ps + qs| - 1] == qs[|qs| - 1]
  {
  }

  lemma LinesAssoc(a: seq<string>, b: seq<string>, c: seq<string>)
    ensures (a + b) + c == a + (b + c)
  {
  }

  /** An empty body gives one blank line. */
  lemma WrapEmpty(base: BaseWrap)
    ensures Wrapped("", base) == [""]
  {
    assert Split("", '\n') == [""];
    assert WrapAll([""], base) == WrapAll([], base) + Piece("", base);
  }

  /** Text without a newline is one paragraph. */
  lemma WrapSingle(text: string, base: BaseWrap)
    requires '\n' !in text
    ensures Wrapped(text, base) == Piece(text, base)
  {
    assert Split(text, '\n') == [text];
    assert WrapAll([text], base) == WrapAll([], base) + Piece(text, base);
  }

  /** A newline separates two bodies that are wrapped independently: each
      line of the text is wrapped on its own, however long the others. */
  lemma WrapLines(a: string, b: string, base: BaseWrap)
    ensures Wrapped(a + "\n" + b, base) == Wrapped(a, base) + Wrapped(b, base)
  {
    SplitConcat(a, b, '\n');
    WrapAllConcat(Split(a, '\n'), Split(b, '\n'), base);
  }

  /** The standard wrapping keeps each non-empty paragraph of `ps` whole,
      on one line: what `TextWrapper.wrap` does for a paragraph no wider
      than the width and without whitespace at its ends. */
  predicate Unbroken(ps: seq<string>, base: BaseWrap)
  {
    forall k :: 0 <= k < |ps| && ps[k] != "" ==> base(ps[k]) == [ps[k]]
  }

  /** When the standard wrapping keeps every line of the text whole, the
      body wrapper returns the text's lines, and joining them with newlines
      gives the text back. */
  lemma WrapUnbroken(text: string, base: BaseWrap)
    requires Unbroken(Split(text, '\n'), base)
    ensures Wrapped(text, base) == Split(text, '\n')
    ensures |Wrapped(text, base)| >= 1 && Join(Wrapped(text, base), '\n') == text
  {
    WrapAllUnbroken(Split(text, '\n'), base);
    JoinSplit(text, '\n');
  }

  lemma {:induction false} WrapAllUnbroken(ps: seq<string>, base: BaseWrap)
    requires Unbroken(ps, base)
    ensures WrapAll(ps, base) == ps
    decreases |ps|
  {
    if |ps| > 0 {
      var n := |ps| - 1;
      UnbrokenPrefix(ps, n, base);
      WrapAllUnbroken(ps[..n], base);
      assert Piece(ps[n], base) == [ps[n]];
      assert ps[..n] + [ps[n]] == ps;
    }
  }

  lemma UnbrokenPrefix(ps: seq<string>, n: nat, base: BaseWrap)
    requires Unbroken(ps, base) && n <= |ps|
    ensures Unbroken(ps[..n], base)
  {
    forall k | 0 <= k < n && ps[..n][k] != ""
      ensures base(ps[..n][k]) == [ps[..n][k]]
    {
      assert ps[..n][k] == ps[k];
    }
  }

  /** No output line holds a newline, provided the standard wrapping of a
      newline-free paragraph produces none. */
  lemma WrapNoNewline(text: string, base: BaseWrap)
    requires forall p :: '\n' !in p ==> forall i :: 0 <= i < |base(p)| ==> '\n' !in base(p)[i]
    ensures forall i :: 0 <= i < |Wrapped(text, base)| ==> '\n' !in Wrapped(text, base)[i]
  {
    var ps := Split(text, '\n');
    SplitPiecesFree(text, '\n');
    WrapAllNoNewline(ps, base);
  }

  lemma {:induction false} WrapAllNoNewline(ps: seq<string>, base: BaseWrap)
    requires forall p :: '\n' !in p ==> forall i :: 0 <= i < |base(p)| ==> '\n' !in base(p)[i]
    requires forall k :: 0 <= k < |ps| ==> '\n' !in ps[k]
    ensures forall i :: 0 <= i < |WrapAll(ps, base)| ==> '\n' !in WrapAll(ps, base)[i]
    decreases |ps|
  {
    if |ps| > 0 {
      var n := |ps| - 1;
      WrapAllNoNewline(ps[..n], base);
      var front, last := WrapAll(ps[..n], base), Piece(ps[n], base);
      assert forall i :: 0 <= i < |last| ==> '\n' !in last[i];
      assert WrapAll(ps, base) == front + last;
    }
  }
}
