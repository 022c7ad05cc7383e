/** The string operations the templating and extraction code relies on:
    the `{(\w+)}` placeholder scan done by `re.findall`, literal
    substitution as `re.sub` performs it for a pattern without
    metacharacters, `str.strip`, `str.replace(c, '')` and `str.split`. */
module Text {

  // ---------------------------------------------------------------------------
  // Word characters and placeholders
  // ---------------------------------------------------------------------------

  /** The characters `\w` matches in a Python `str` pattern, restricted to the
      ranges this program meets: ASCII letters, digits and underscore, the
      Latin-1 letters, Hangul syllables and jamo, and CJK ideographs. */
  predicate IsWordChar(c: char)
  {
    ('a' <= c <= 'z') || ('A' <= c <= 'Z') || ('0' <= c <= '9') || c == '_'
    || ('\U{00C0}' <= c <= '\U{00FF}' && c != '\U{00D7}' && c != '\U{00F7}')
    || ('\U{1100}' <= c <= '\U{11FF}') || ('\U{3131}' <= c <= '\U{318E}')
    || ('\U{4E00}' <= c <= '\U{9FFF}') || ('\U{AC00}' <= c <= '\U{D7A3}')
  }

  /** A string `\w+` matches in full. */
  predicate IsWord(w: string)
  {
    |w| > 0 && forall i :: 0 <= i < |w| ==> IsWordChar(w[i])
  }

  /** The placeholder text `{name}`. */
  function Brace(name: string): (p: string)
    ensures |p| == |name| + 2 && p[0] == '{' && p[|p| - 1] == '}'
    ensures p[1..|p| - 1] == name
  {
    "{" + name + "}"
  }

  /** Length of the longest prefix of `s` made of word characters: what the
      greedy `\w+` consumes. */
  function WordRun(s: string): (k: nat)
    ensures k <= |s|
    ensures forall i :: 0 <= i < k ==> IsWordChar(s[i])
    ensures k < |s| ==> !IsWordChar(s[k])
  {
    if |s| == 0 || !IsWordChar(s[0]) then 0 else 1 + WordRun(s[1..])
  }

  predicate OccursAt(s: string, p: string, i: int)
  {
    0 <= i && i + |p| <= |s| && s[i..i + |p|] == p
  }

  ghost predicate Occurs(s: string, p: string)
  {
    exists i :: OccursAt(s, p, i)
  }

  /** `re.findall(r'{(\w+)}', s)`: the names of the placeholders of `s`, left
      to right, repeats included. A scan that fails at a `{` resumes at the
      next character; a match resumes after its closing `}`. */
  function Placeholders(s: string): (names: seq<string>)
    ensures forall k :: 0 <= k < |names| ==> IsWord(names[k])
    decreases |s|
  {
    if |s| == 0 then []
    else if s[0] == '{' && 0 < WordRun(s[1..]) && 1 + WordRun(s[1..]) < |s|
            && s[1 + WordRun(s[1..])] == '}' then
      var k := WordRun(s[1..]);
      assert forall i :: 0 <= i < k ==> s[1..k + 1][i] == s[1..][i];
      [s[1..k + 1]] + Placeholders(s[k + 2..])
    else
      Placeholders(s[1..])
  }

  lemma OccursInSuffix(s: string, j: nat, p: string, i: int)
    requires j <= |s| && OccursAt(s[j..], p, i)
    ensures OccursAt(s, p, i + j)
  {
    assert s[j..][i..i + |p|] == s[i + j..i + j + |p|];
  }

  lemma LeadingOccurs(s: string, k: nat)
    requires k + 2 <= |s| && s[0] == '{' && s[k + 1] == '}'
    ensures OccursAt(s, Brace(s[1..k + 1]), 0)
  {
    var b := Brace(s[1..k + 1]);
    assert |b| == k + 2;
    forall i | 0 <= i < k + 2 ensures s[i] == b[i] {
      if 0 < i < k + 1 {
        assert b[i] == b[1..|b| - 1][i - 1];
      }
    }
    assert s[0..k + 2] == b;
  }

  lemma OccursShift(s: string, j: nat, names: seq<string>)
    requires j <= |s| && forall k :: 0 <= k < |names| ==> Occurs(s[j..], Brace(names[k]))
    ensures forall k :: 0 <= k < |names| ==> Occurs(s, Brace(names[k]))
  {
    forall k | 0 <= k < |names| ensures Occurs(s, Brace(names[k])) {
      var p := Brace(names[k]);
      var i :| OccursAt(s[j..], p, i);
      OccursInSuffix(s, j, p, i);
    }
  }

  /** Every name the scan reports stands as `{name}` in the template. */
  lemma {:induction false} PlaceholdersOccur(s: string)
    ensures forall k :: 0 <= k < |Placeholders(s)| ==> Occurs(s, Brace(Placeholders(s)[k]))
    decreases |s|
  {
    if |s| == 0 {
    } else if s[0] == '{' && 0 < WordRun(s[1..]) && 1 + WordRun(s[1..]) < |s|
              && s[1 + WordRun(s[1..])] == '}' {
      var k := WordRun(s[1..]);
      var rest := s[k + 2..];
      PlaceholdersOccur(rest);
      assert Placeholders(s) == [s[1..k + 1]] + Placeholders(rest);
      LeadingOccurs(s, k);
      OccursShift(s, k + 2, Placeholders(rest));
    } else {
      PlaceholdersOccur(s[1..]);
      OccursShift(s, 1, Placeholders(s[1..]));
    }
  }

  lemma {:induction false} WordRunBeforeBrace(w: string, rest: string)
    requires forall i :: 0 <= i < |w| ==> IsWordChar(w[i])
    ensures WordRun(w + "}" + rest) == |w|
    decreases |w|
  {
    if |w| > 0 {
      assert (w + "}" + rest)[1..] == w[1..] + "}" + rest;
      WordRunBeforeBrace(w[1..], rest);
    }
  }

  /** A template that opens with `{w}` yields `w` first. */
  lemma PlaceholdersLeading(w: string, rest: string)
    requires IsWord(w)
    ensures Placeholders(Brace(w) + rest) == [w] + Placeholders(rest)
  {
    var s := Brace(w) + rest;
    assert s[1..] == w + "}" + rest;
    WordRunBeforeBrace(w, rest);
    assert s[1..|w| + 1] == w;
    assert s[|w| + 2..] == rest;
  }

  /** Text without `{` contributes no placeholder. */
  lemma {:induction false} PlaceholdersSkip(a: string, rest: string)
    requires forall i :: 0 <= i < |a| ==> a[i] != '{'
    ensures Placeholders(a + rest) == Placeholders(rest)
    decreases |a|
  {
    if |a| > 0 {
      assert (a + rest)[0] == a[0];
      assert (a + rest)[1..] == a[1..] + rest;
      PlaceholdersSkip(a[1..], rest);
    } else {
      assert a + rest == rest;
    }
  }

  /** A template without `{` has no placeholder at all. */
  lemma PlaceholdersNone(s: string)
    requires forall i :: 0 <= i < |s| ==> s[i] != '{'
    ensures Placeholders(s) == []
  {
    PlaceholdersSkip(s, "");
    assert s + "" == s;
  }

  // ---------------------------------------------------------------------------
  // Literal substitution
  // ---------------------------------------------------------------------------

  /** `re.sub(p, r, s)` for a pattern `p` that matches only itself and a
      replacement `r` taken literally: every occurrence of `p`, scanning left
      to right without overlap, becomes `r`. A replacement no longer than
      the pattern never lengthens the text, and a deletion never adds a
      character. */
  function ReplaceAll(s: string, p: string, r: string): (t: string)
    requires |p| > 0
    ensures |r| <= |p| ==> |t| <= |s|
    ensures r == "" ==> multiset(t) <= multiset(s)
    decreases |s|
  {
    if |s| < |p| then s
    else if s[..|p|] == p then
      assert s == s[..|p|] + s[|p|..];
      r + ReplaceAll(s[|p|..], p, r)
    else
      assert s == [s[0]] + s[1..];
      [s[0]] + ReplaceAll(s[1..], p, r)
  }

  /** Text in which the pattern does not occur comes back unchanged. */
  lemma {:induction false} ReplaceAbsent(s: string, p: string, r: string)
    requires |p| > 0 && !Occurs(s, p)
    ensures ReplaceAll(s, p, r) == s
    decreases |s|
  {
    if |s| >= |p| {
      assert !OccursAt(s, p, 0);
      forall i | OccursAt(s[1..], p, i) ensures false {
        OccursInSuffix(s, 1, p, i);
      }
      ReplaceAbsent(s[1..], p, r);
    }
  }

  /** Replacing the pattern by itself is the identity. */
  lemma {:induction false} ReplaceSelf(s: string, p: string)
    requires |p| > 0
    ensures ReplaceAll(s, p, p) == s
    decreases |s|
  {
    if |s| >= |p| {
      if s[..|p|] == p {
        ReplaceSelf(s[|p|..], p);
        assert p + s[|p|..] == s;
      } else {
        ReplaceSelf(s[1..], p);
        assert [s[0]] + s[1..] == s;
      }
    }
  }

  /** An occurrence at the front is replaced and the scan resumes after it. */
  lemma ReplaceLeading(p: string, s: string, r: string)
    requires |p| > 0
    ensures ReplaceAll(p + s, p, r) == r + ReplaceAll(s, p, r)
  {
    assert (p + s)[..|p|] == p;
    assert (p + s)[|p|..] == s;
  }

  /** Text free of the pattern's first character is copied through. */
  lemma {:induction false} ReplaceSkip(a: string, s: string, p: string, r: string)
    requires |p| > 0
    requires forall i :: 0 <= i < |a| ==> a[i] != p[0]
    ensures ReplaceAll(a + s, p, r) == a + ReplaceAll(s, p, r)
    decreases |a|
  {
    if |a| > 0 {
      if |a + s| < |p| {
        assert ReplaceAll(s, p, r) == s;
      } else {
        assert (a + s)[..|p|][0] == a[0];
        assert (a + s)[..|p|] != p;
        assert (a + s)[1..] == a[1..] + s;
        ReplaceSkip(a[1..], s, p, r);
        assert [a[0]] + (a[1..] + ReplaceAll(s, p, r)) == a + ReplaceAll(s, p, r);
      }
    } else {
      assert a + s == s;
    }
  }

  // ---------------------------------------------------------------------------
  // Whitespace, strip and character removal
  // ---------------------------------------------------------------------------

  /** The characters Python's `str.isspace` accepts. */
  predicate IsSpace(c: char)
  {
    c in SpaceChars
  }

  const SpaceChars: set<char> := {
    ' ', '\t', '\n', '\U{000B}', '\U{000C}', '\r', '\U{001C}', '\U{001D}', '\U{001E}', '\U{001F}',
    '\U{0085}', '\U{00A0}', '\U{1680}', '\U{2000}', '\U{2001}', '\U{2002}', '\U{2003}', '\U{2004}',
    '\U{2005}', '\U{2006}', '\U{2007}', '\U{2008}', '\U{2009}', '\U{200A}', '\U{2028}', '\U{2029}',
    '\U{202F}', '\U{205F}', '\U{3000}'}

  /** Every character of `s` is whitespace. */
  predicate AllSpace(s: string)
    decreases |s|
  {
    |s| == 0 || (IsSpace(s[0]) && AllSpace(s[1..]))
  }

  lemma {:induction false} AllSpaceAppend(a: string, b: string)
    ensures AllSpace(a + b) <==> AllSpace(a) && AllSpace(b)
    decreases |a|
  {
    if |a| == 0 {
      assert a + b == b;
    } else {
      assert (a + b)[1..] == a[1..] + b;
      AllSpaceAppend(a[1..], b);
    }
  }

  /** No whitespace at either end. */
  predicate Unpadded(s: string)
  {
    s == [] || (!IsSpace(s[0]) && !IsSpace(s[|s| - 1]))
  }

  /** `str.lstrip()`: drops the leading whitespace. */
  function StripLeft(s: string): (r: string)
    ensures |r| <= |s|
  {
    if |s| > 0 && IsSpace(s[0]) then StripLeft(s[1..]) else s
  }

  /** What `lstrip` drops is whitespace, what it keeps is the rest of `s`,
      and that rest does not start with whitespace. */
  lemma {:induction false} StripLeftSlice(s: string)
    ensures var r := StripLeft(s);
            r == s[|s| - |r|..] && AllSpace(s[..|s| - |r|]) && (r == [] || !IsSpace(r[0]))
    decreases |s|
  {
    if |s| > 0 && IsSpace(s[0]) {
      StripLeftSlice(s[1..]);
      var r := StripLeft(s[1..]);
      assert s[..|s| - |r|][1..] == s[1..][..|s| - 1 - |r|];
    }
  }

  /** `str.rstrip()`: drops the trailing whitespace. */
  function StripRight(s: string): (r: string)
    ensures |r| <= |s|
  {
    if |s| > 0 && IsSpace(s[|s| - 1]) then StripRight(s[..|s| - 1]) else s
  }

  /** What `rstrip` drops is whitespace, what it keeps is the start of `s`,
      and that start does not end with whitespace. */
  lemma {:induction false} StripRightSlice(s: string)
    ensures var r := StripRight(s);
            r == s[..|r|] && AllSpace(s[|r|..]) && (r == [] || !IsSpace(r[|r| - 1]))
    decreases |s|
  {
    if |s| > 0 && IsSpace(s[|s| - 1]) {
      StripRightSlice(s[..|s| - 1]);
      var r := StripRight(s[..|s| - 1]);
      assert s[|r|..] == s[..|s| - 1][|r|..] + [s[|s| - 1]];
      AllSpaceAppend(s[..|s| - 1][|r|..], [s[|s| - 1]]);
      assert [s[|s| - 1]][1..] == [];
    }
  }

  /** `str.strip()`: whitespace cut off at both ends. */
  function Strip(s: string): (r: string)
    ensures |r| <= |s| && Unpadded(r)
  {
    var left := StripLeft(s);
    StripLeftSlice(s);
    StripRightSlice(left);
    var r := StripRight(left);
    assert Unpadded(r) by {
      if r != [] {
        assert r[0] == left[0];
      }
    }
    r
  }

  /** What `strip` cuts off is whitespace, and what it keeps is the slice of
      `s` between. */
  lemma StripSlice(s: string)
    ensures var i, r := |s| - |StripLeft(s)|, Strip(s);
            i + |r| <= |s| && r == s[i..i + |r|] && AllSpace(s[..i]) && AllSpace(s[i + |r|..])
  {
    var left := StripLeft(s);
    var r := StripRight(left);
    assert Strip(s) == r;
    StripLeftSlice(s);
    StripRightSlice(left);
    SliceAround(s, left, r);
  }

  /** A prefix `r` of a suffix `left` of `s` is a slice of `s`, and what
      follows `r` in `left` is what follows it in `s`. */
  lemma SliceAround(s: string, left: string, r: string)
    requires |left| <= |s| && left == s[|s| - |left|..]
    requires |r| <= |left| && r == left[..|r|] && AllSpace(left[|r|..])
    ensures var i := |s| - |left|; r == s[i..i + |r|] && AllSpace(s[i + |r|..])
  {
    var i := |s| - |left|;
    SliceOfSuffix(s, i, |r|);
    assert left[|r|..] == s[i + |r|..];
  }

  lemma SliceOfSuffix(s: string, i: nat, n: nat)
    requires i + n <= |s|
    ensures s[i..][..n] == s[i..i + n] && s[i..][n..] == s[i + n..]
  {
  }

  /** Stripping text that has no whitespace at its ends changes nothing. */
  lemma StripUnpadded(s: string)
    requires Unpadded(s)
    ensures Strip(s) == s
  {
  }

  /** `s.replace(c, '')`: every `c` deleted, everything else kept in order. */
  function RemoveChar(s: string, c: char): (r: string)
    ensures |r| <= |s|
    ensures forall i :: 0 <= i < |r| ==> r[i] != c
  {
    if |s| == 0 then []
    else (if s[0] == c then [] else [s[0]]) + RemoveChar(s[1..], c)
  }

  lemma {:induction false} RemoveCharConcat(a: string, b: string, c: char)
    ensures RemoveChar(a + b, c) == RemoveChar(a, c) + RemoveChar(b, c)
    decreases |a|
  {
    if |a| > 0 {
      assert (a + b)[1..] == a[1..] + b;
      RemoveCharConcat(a[1..], b, c);
    } else {
      assert a + b == b;
    }
  }

  /** Text without `c` comes back unchanged. */
  lemma {:induction false} RemoveCharAbsent(s: string, c: char)
    requires forall i :: 0 <= i < |s| ==> s[i] != c
    ensures RemoveChar(s, c) == s
    decreases |s|
  {
    if |s| > 0 {
      RemoveCharAbsent(s[1..], c);
      assert [s[0]] + s[1..] == s;
    }
  }

  /** The first and the last character survive when they are not `c`. */
  lemma RemoveCharKeepsEnds(s: string, c: char)
    requires |s| > 0 && s[0] != c && s[|s| - 1] != c
    ensures var r := RemoveChar(s, c); |r| > 0 && r[0] == s[0] && r[|r| - 1] == s[|s| - 1]
  {
    var n := |s|;
    assert s == s[..n - 1] + [s[n - 1]];
    RemoveCharConcat(s[..n - 1], [s[n - 1]], c);
    assert RemoveChar([s[n - 1]], c) == [s[n - 1]];
  }

  // ---------------------------------------------------------------------------
  // Splitting on a separator
  // ---------------------------------------------------------------------------

  /** The position of the first `c` in `s`, or `|s|`: what `str.find`
      returns, with `|s|` for "not found". */
  function Find(s: string, c: char): (i: nat)
    ensures i <= |s| && (forall j :: 0 <= j < i ==> s[j] != c) && (i < |s| ==> s[i] == c)
  {
    if |s| == 0 || s[0] == c then 0 else 1 + Find(s[1..], c)
  }

  /** The properties of `Find` pin it down. */
  lemma FindUnique(s: string, c: char, i: nat)
    requires i <= |s| && (forall j :: 0 <= j < i ==> s[j] != c) && (i < |s| ==> s[i] == c)
    ensures Find(s, c) == i
  {
  }

  /** `s.split(sep)` for a one-character separator: the pieces between the
      separators, at least one, empty ones included. */
  function Split(s: string, sep: char): (ps: seq<string>)
    ensures |ps| >= 1
    decreases |s|
  {
    var i := Find(s, sep);
    if i == |s| then [s] else [s[..i]] + Split(s[i + 1..], sep)
  }

  /** No piece of a split holds the separator. */
  lemma {:induction false} SplitPiecesFree(s: string, sep: char)
    ensures forall k :: 0 <= k < |Split(s, sep)| ==> sep !in Split(s, sep)[k]
    decreases |s|
  {
    var i := Find(s, sep);
    if i < |s| {
      var rest := s[i + 1..];
      SplitPiecesFree(rest, sep);
      assert forall k :: 1 <= k < |Split(s, sep)| ==> Split(s, sep)[k] == Split(rest, sep)[k - 1];
    }
  }

  /** `sep.join(ps)`. */
  function Join(ps: seq<string>, sep: char): string
    requires |ps| >= 1
  {
    if |ps| == 1 then ps[0] else ps[0] + [sep] + Join(ps[1..], sep)
  }

  /** `s` is what comes before position `i`, the character there, and what
      comes after. */
  lemma Around(s: string, i: nat)
    requires i < |s|
    ensures s == s[..i] + [s[i]] + s[i + 1..]
  {
  }

  lemma JoinCons(p: string, ps: seq<string>, sep: char)
    requires |ps| >= 1
    ensures Join([p] + ps, sep) == p + [sep] + Join(ps, sep)
  {
    assert ([p] + ps)[1..] == ps;
  }

  /** Joining the pieces of a split gives back the text. */
  lemma {:induction false} JoinSplit(s: string, sep: char)
    ensures Join(Split(s, sep), sep) == s
    decreases |s|
  {
    var i := Find(s, sep);
    if i < |s| {
      var rest := s[i + 1..];
      JoinSplit(rest, sep);
      JoinCons(s[..i], Split(rest, sep), sep);
      Around(s, i);
    }
  }

  /** Splitting at a separator splits the two sides independently. */
  lemma {:induction false} SplitConcat(a: string, b: string, sep: char)
    ensures Split(a + [sep] + b, sep) == Split(a, sep) + Split(b, sep)
    decreases |a|
  {
    var k := Find(a, sep);
    if k < |a| {
      SplitConcat(a[k + 1..], b, sep);
      SplitConcatAt(a, b, sep);
    } else {
      SplitConcatFree(a, b, sep);
    }
  }

  /** `SplitConcat` when `a` holds no separator. */
  lemma SplitConcatFree(a: string, b: string, sep: char)
    requires Find(a, sep) == |a|
    ensures Split(a + [sep] + b, sep) == Split(a, sep) + Split(b, sep)
  {
    var s, k := a + [sep] + b, |a|;
    FindConcat(a, b, sep);
    ConcatSlices(a, b, sep, k);
    assert a[..k] == a;
    assert Split(s, sep) == [s[..k]] + Split(s[k + 1..], sep);
  }

  /** `SplitConcat` when `a` holds a separator, from the claim for what
      follows it. */
  lemma SplitConcatAt(a: string, b: string, sep: char)
    requires Find(a, sep) < |a|
    requires var rest := a[Find(a, sep) + 1..];
             Split(rest + [sep] + b, sep) == Split(rest, sep) + Split(b, sep)
    ensures Split(a + [sep] + b, sep) == Split(a, sep) + Split(b, sep)
  {
    var s, k := a + [sep] + b, Find(a, sep);
    var rest := a[k + 1..];
    FindConcat(a, b, sep);
    ConcatSlices(a, b, sep, k);
    ConsAssoc(a[..k], Split(rest, sep), Split(b, sep));
    assert Split(s, sep) == [s[..k]] + Split(s[k + 1..], sep);
  }

  /** The first separator of `a + [sep] + b` is the first of `a`, or the one
      in between. */
  lemma FindConcat(a: string, b: string, sep: char)
    ensures Find(a + [sep] + b, sep) == Find(a, sep)
  {
    var s, k := a + [sep] + b, Find(a, sep);
    assert forall j :: 0 <= j < k ==> s[j] == a[j];
    FindUnique(s, sep, k);
  }

  lemma ConcatSlices(a: string, b: string, sep: char, k: nat)
    requires k <= |a|
    ensures (a + [sep] + b)[..k] == a[..k]
    ensures k < |a| ==> (a + [sep] + b)[k + 1..] == a[k + 1..] + [sep] + b
    ensures k == |a| ==> (a + [sep] + b)[k + 1..] == b
  {
  }

  lemma ConsAssoc(x: string, p: seq<string>, q: seq<string>)
    ensures [x] + (p + q) == ([x] + p) + q
  {
  }
}
