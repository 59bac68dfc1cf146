/**
 * The JavaScript string operations the browser controllers rely on:
 * `String.prototype.trim`, the regular-expression class `\s`, and `length`
 * (which counts UTF-16 code units, not characters).
 */
module JsText {
  import opened Sequences


  /** WhiteSpace and LineTerminator code points of ECMAScript: the set that both
      `trim` removes and `\s` matches. */
  predicate IsSpace(c: char) {
    c in SpaceChars
  }

  const SpaceChars: set<char> := {
    '\t', '\n', '\U{000B}', '\U{000C}', '\r', ' ', '\U{00A0}', '\U{1680}',
    '\U{2000}', '\U{2001}', '\U{2002}', '\U{2003}', '\U{2004}', '\U{2005}', '\U{2006}',
    '\U{2007}', '\U{2008}', '\U{2009}', '\U{200A}',
    '\U{2028}', '\U{2029}', '\U{202F}', '\U{205F}', '\U{3000}', '\U{FEFF}'
  }

  /** Every character of `s` is whitespace. */
  predicate AllSpace(s: string) {
    s == [] || (IsSpace(s[0]) && AllSpace(s[1..]))
  }

  /** Neither the first nor the last character is whitespace. */
  predicate NoEdgeSpace(s: string) {
    s == [] || (!IsSpace(s[0]) && !IsSpace(s[|s| - 1]))
  }

  /** Every whitespace character is a plain space, and no two are adjacent. */
  predicate SingleSpaced(s: string) {
    s == [] ||
    ((IsSpace(s[0]) ==> s[0] == ' ' && (|s| == 1 || !IsSpace(s[1]))) && SingleSpaced(s[1..]))
  }

  /** The characters of `s` that are not whitespace, in order. */
  function NonSpace(s: string): string {
    if s == [] then []
    else if IsSpace(s[0]) then NonSpace(s[1..])
    else [s[0]] + NonSpace(s[1..])
  }

  lemma AllSpaceCons(c: char, t: string)
    requires IsSpace(c) && AllSpace(t)
    ensures AllSpace([c] + t)
  {
    assert ([c] + t)[1..] == t;
  }

  lemma {:induction false} AllSpaceSnoc(t: string, c: char)
    requires AllSpace(t) && IsSpace(c)
    ensures AllSpace(t + [c])
  {
    if t == [] {
      assert [c][1..] == [];
    } else {
      assert (t + [c])[1..] == t[1..] + [c];
      AllSpaceSnoc(t[1..], c);
    }
  }

  /** Drops the leading run of whitespace. */
  function TrimStart(s: string): (r: string)
    ensures |r| <= |s| && r == s[|s| - |r|..]
    ensures r == [] || !IsSpace(r[0])
  {
    if s != [] && IsSpace(s[0]) then
      var r := TrimStart(s[1..]);
      assert s[1..][|s| - 1 - |r|..] == s[|s| - |r|..];
      r
    else s
  }

  /** What `TrimStart` drops is whitespace. */
  lemma {:induction false} TrimStartCut(s: string)
    ensures AllSpace(s[..|s| - |TrimStart(s)|])
  {
    if s != [] && IsSpace(s[0]) {
      var r := TrimStart(s[1..]);
      TrimStartCut(s[1..]);
      AllSpaceCons(s[0], s[1..][..|s| - 1 - |r|]);
      assert s[..|s| - |r|] == [s[0]] + s[1..][..|s| - 1 - |r|];
    }
  }

  /** Drops the trailing run of whitespace. */
  function TrimEnd(s: string): (r: string)
    ensures |r| <= |s| && r == s[..|r|]
    ensures r == [] || !IsSpace(r[|r| - 1])
  {
    if s != [] && IsSpace(s[|s| - 1]) then
      var r := TrimEnd(s[..|s| - 1]);
      assert s[..|s| - 1][..|r|] == s[..|r|];
      r
    else s
  }

  /** What `TrimEnd` drops is whitespace. */
  lemma {:induction false} TrimEndCut(s: string)
    ensures AllSpace(s[|TrimEnd(s)|..])
  {
    if s != [] && IsSpace(s[|s| - 1]) {
      var r := TrimEnd(s[..|s| - 1]);
      TrimEndCut(s[..|s| - 1]);
      AllSpaceSnoc(s[..|s| - 1][|r|..], s[|s| - 1]);
      assert s[|r|..] == s[..|s| - 1][|r|..] + [s[|s| - 1]];
    }
  }

  /** `s.trim()`: the result neither starts nor ends with whitespace;
      `TrimSplits` adds that it is what lies between a leading and a trailing
      run of whitespace. */
  function Trim(s: string): (r: string)
    ensures NoEdgeSpace(r) && |r| <= |s|
  {
    var t := TrimStart(s);
    var r := TrimEnd(t);
    assert r == [] || !IsSpace(r[0]) by {
      if r != [] { assert r[0] == t[0]; }
    }
    r
  }

  /** `s` is a run of whitespace, `s.trim()` and another run of whitespace. */
  lemma TrimSplits(s: string)
    ensures exists lead, trail :: s == lead + Trim(s) + trail && AllSpace(lead) && AllSpace(trail)
  {
    var lead, trail := TrimInfix(s, TrimStart(s), Trim(s));
  }

  lemma TrimInfix(s: string, t: string, r: string) returns (lead: string, trail: string)
    requires t == TrimStart(s) && r == TrimEnd(t)
    ensures s == lead + r + trail && AllSpace(lead) && AllSpace(trail)
  {
    lead, trail := s[..|s| - |t|], t[|r|..];
    assert AllSpace(lead) by { TrimStartCut(s); }
    assert AllSpace(trail) by { TrimEndCut(t); }
    SplitThree(s, |s| - |t|, t, r);
  }

  /** A nonempty all-whitespace string ends with whitespace. */
  lemma {:induction false} AllSpaceLast(s: string)
    requires AllSpace(s) && s != []
    ensures IsSpace(s[|s| - 1])
  {
    if |s| > 1 {
      AllSpaceLast(s[1..]);
    }
  }

  /** The length of the leading run of non-whitespace characters. */
  function WordLength(s: string): (n: nat)
    ensures n <= |s|
    ensures n < |s| ==> IsSpace(s[n])
  {
    if s == [] || IsSpace(s[0]) then 0 else 1 + WordLength(s[1..])
  }

  /** The words of `s`: its maximal runs of non-whitespace characters, in
      order. */
  function Words(s: string): (ws: seq<string>)
    decreases |s|
  {
    if s == [] then []
    else if IsSpace(s[0]) then Words(s[1..])
    else
      var n := WordLength(s);
      [s[..n]] + Words(s[n..])
  }

  /** The words joined by single plain spaces. */
  function JoinWords(ws: seq<string>): string {
    if ws == [] then []
    else if |ws| == 1 then ws[0]
    else ws[0] + " " + JoinWords(ws[1..])
  }

  /** A non-whitespace character in front of `x` starts the first word, or
      joins the first word of `x` when `x` starts with one. */
  lemma WordsCons(c: char, x: string)
    requires !IsSpace(c)
    ensures x != [] && !IsSpace(x[0]) ==> Words(x) != []
    ensures Words([c] + x) ==
      if x == [] || IsSpace(x[0]) then [[c]] + Words(x)
      else [[c] + Words(x)[0]] + Words(x)[1..]
  {
    var y := [c] + x;
    assert y[1..] == x;
    if x == [] || IsSpace(x[0]) {
      assert WordLength(y) == 1;
      assert y[..1] == [c];
    } else {
      var m := WordLength(x);
      assert WordLength(y) == 1 + m;
      assert y[..1 + m] == [c] + x[..m];
      assert y[1 + m..] == x[m..];
    }
  }

  lemma {:induction false} WordLengthSnocSpace(a: string, c: char)
    requires IsSpace(c)
    ensures WordLength(a + [c]) == WordLength(a)
  {
    if a != [] && !IsSpace(a[0]) {
      assert (a + [c])[1..] == a[1..] + [c];
      WordLengthSnocSpace(a[1..], c);
    }
  }

  /** Whitespace at the end adds no word. */
  lemma {:induction false} WordsSnocSpace(a: string, c: char)
    requires IsSpace(c)
    ensures Words(a + [c]) == Words(a)
    decreases |a|
  {
    if a == [] {
      assert [c][1..] == [];
    } else if IsSpace(a[0]) {
      assert (a + [c])[1..] == a[1..] + [c];
      WordsSnocSpace(a[1..], c);
    } else {
      var n := WordLength(a);
      WordLengthSnocSpace(a, c);
      assert (a + [c])[..n] == a[..n];
      assert (a + [c])[n..] == a[n..] + [c];
      WordsSnocSpace(a[n..], c);
    }
  }

  lemma {:induction false} WordsTrimStart(s: string)
    ensures Words(TrimStart(s)) == Words(s)
  {
    if s != [] && IsSpace(s[0]) {
      WordsTrimStart(s[1..]);
    }
  }

  lemma {:induction false} WordsTrimEnd(s: string)
    ensures Words(TrimEnd(s)) == Words(s)
    decreases |s|
  {
    if s != [] && IsSpace(s[|s| - 1]) {
      var a := s[..|s| - 1];
      WordsTrimEnd(a);
      assert s == a + [s[|s| - 1]];
      WordsSnocSpace(a, s[|s| - 1]);
    }
  }

  /** Trimming keeps the words. */
  lemma WordsTrim(s: string)
    ensures Words(Trim(s)) == Words(s)
  {
    WordsTrimStart(s);
    WordsTrimEnd(TrimStart(s));
  }

  /** Prepending a character keeps a text single-spaced, unless it is
      whitespace other than a plain space or it lands next to whitespace. */
  lemma SingleSpacedCons(c: char, r: string)
    requires SingleSpaced(r)
    requires IsSpace(c) ==> c == ' ' && (r == [] || !IsSpace(r[0]))
    ensures SingleSpaced([c] + r)
  {
    assert ([c] + r)[1..] == r;
  }

  /** `s.replace(/\s+/g, ' ')`: the result is single-spaced, and is empty or
      starts with whitespace exactly when `s` is or does; `CollapseLast` adds
      the same for the last character and `CollapseKeepsWords` that it has the
      same words. */
  function Collapse(s: string): (r: string)
    ensures SingleSpaced(r)
    ensures s == [] <==> r == []
    ensures s != [] ==> (IsSpace(r[0]) <==> IsSpace(s[0]))
    decreases |s|
  {
    if s == [] then []
    else if IsSpace(s[0]) then
      var r := Collapse(TrimStart(s));
      SingleSpacedCons(' ', r);
      [' '] + r
    else
      var r := Collapse(s[1..]);
      SingleSpacedCons(s[0], r);
      [s[0]] + r
  }

  /** The result of `Collapse` ends with whitespace exactly when its input does. */
  lemma {:induction false} CollapseLast(s: string)
    ensures s != [] ==> (IsSpace(Collapse(s)[|Collapse(s)| - 1]) <==> IsSpace(s[|s| - 1]))
    decreases |s|
  {
    if s != [] && IsSpace(s[0]) {
      var t := TrimStart(s);
      assert Collapse(s) == [' '] + Collapse(t);
      if t == [] {
        TrimStartAll(s);
      } else {
        CollapseLast(t);
        LastOfCons(' ', Collapse(t));
      }
    } else if s != [] {
      var t := s[1..];
      assert Collapse(s) == [s[0]] + Collapse(t);
      CollapseLast(t);
      if t != [] {
        LastOfCons(s[0], Collapse(t));
      }
    }
  }

  /** A text that `TrimStart` empties ends with whitespace, if it is not empty. */
  lemma TrimStartAll(s: string)
    requires s != [] && TrimStart(s) == []
    ensures IsSpace(s[|s| - 1])
  {
    TrimStartCut(s);
    assert s[..|s|] == s;
    AllSpaceLast(s);
  }

  /** Collapsing keeps the words. With `Collapse`'s own contract this says
      that every maximal run of whitespace, between words or at either end,
      becomes exactly one plain space. */
  lemma {:induction false} CollapseKeepsWords(s: string)
    ensures Words(Collapse(s)) == Words(s)
    decreases |s|
  {
    if s == [] {
    } else if IsSpace(s[0]) {
      var t := TrimStart(s);
      CollapseKeepsWords(t);
      assert ([' '] + Collapse(t))[1..] == Collapse(t);
      WordsTrimStart(s);
    } else {
      CollapseKeepsWords(s[1..]);
      WordsConsSame(s[0], Collapse(s[1..]), s[1..]);
      assert s == [s[0]] + s[1..];
    }
  }

  /** Two texts with the same words, that are empty together and start with
      whitespace together, keep the same words behind a non-whitespace
      character. */
  lemma WordsConsSame(c: char, x: string, y: string)
    requires !IsSpace(c) && Words(x) == Words(y)
    requires x == [] <==> y == []
    requires x != [] ==> (IsSpace(x[0]) <==> IsSpace(y[0]))
    ensures Words([c] + x) == Words([c] + y)
  {
    WordsCons(c, x);
    WordsCons(c, y);
  }

  /** The query normalisation of the autocomplete controller,
      `query.trim().replace(/\s+/g, ' ')`. `NormalizeWords` says what it
      computes: the words of the query joined by single spaces. */
  function Normalize(s: string): string {
    Collapse(Trim(s))
  }

  /** Normalising a query joins its words with single plain spaces: every run
      of whitespace between two words becomes one space, and whitespace at
      either end disappears. */
  lemma NormalizeWords(s: string)
    ensures Normalize(s) == JoinWords(Words(s))
  {
    var t := Trim(s);
    var r := Collapse(t);
    assert Words(r) == Words(s) by {
      WordsTrim(s);
      CollapseKeepsWords(t);
    }
    assert JoinWords(Words(r)) == r by {
      CollapseClean(t);
      JoinOfClean(r);
    }
  }

  /** Collapsing a text without edge whitespace gives a text without edge
      whitespace. */
  lemma CollapseClean(t: string)
    requires NoEdgeSpace(t)
    ensures NoEdgeSpace(Collapse(t))
  {
    CollapseLast(t);
  }

  /** `s.length`: the number of UTF-16 code units, so a character outside the
      Basic Multilingual Plane counts twice. */
  function Utf16Length(s: string): (n: nat)
    ensures |s| <= n <= 2 * |s|
    ensures (forall i | 0 <= i < |s| :: s[i] as int <= 0xFFFF) ==> n == |s|
    ensures (forall i | 0 <= i < |s| :: s[i] as int > 0xFFFF) ==> n == 2 * |s|
    ensures |s| == 1 ==> n == if s[0] as int > 0xFFFF then 2 else 1
  {
    if s == [] then 0
    else (if s[0] as int > 0xFFFF then 2 else 1) + Utf16Length(s[1..])
  }

  /** The UTF-16 length of a concatenation is the sum of the lengths. */
  lemma {:induction false} Utf16LengthAppend(a: string, b: string)
    ensures Utf16Length(a + b) == Utf16Length(a) + Utf16Length(b)
  {
    if a == [] {
      assert a + b == b;
    } else {
      assert (a + b)[1..] == a[1..] + b;
      Utf16LengthAppend(a[1..], b);
    }
  }


  lemma {:induction false} NonSpaceOfAllSpace(s: string)
    requires AllSpace(s)
    ensures NonSpace(s) == []
  {
    if s != [] { NonSpaceOfAllSpace(s[1..]); }
  }

  lemma {:induction false} NonSpaceAppend(a: string, b: string)
    ensures NonSpace(a + b) == NonSpace(a) + NonSpace(b)
  {
    if a == [] {
      assert a + b == b;
    } else {
      assert (a + b)[1..] == a[1..] + b;
      NonSpaceAppend(a[1..], b);
    }
  }

  lemma {:induction false} TrimStartKeepsText(s: string)
    ensures NonSpace(TrimStart(s)) == NonSpace(s)
  {
    if s != [] && IsSpace(s[0]) {
      TrimStartKeepsText(s[1..]);
    }
  }

  lemma {:induction false} TrimEndKeepsText(t: string)
    ensures NonSpace(TrimEnd(t)) == NonSpace(t)
  {
    var r := TrimEnd(t);
    TrimEndCut(t);
    assert t == r + t[|r|..];
    NonSpaceAppend(r, t[|r|..]);
    NonSpaceOfAllSpace(t[|r|..]);
  }

  /** Trimming removes only whitespace: the other characters survive, in order. */
  lemma TrimKeepsText(s: string)
    ensures NonSpace(Trim(s)) == NonSpace(s)
  {
    TrimStartKeepsText(s);
    TrimEndKeepsText(TrimStart(s));
  }

  /** Collapsing whitespace runs removes only whitespace. */
  lemma {:induction false} CollapseKeepsText(s: string)
    ensures NonSpace(Collapse(s)) == NonSpace(s)
    decreases |s|
  {
    if s == [] {
    } else if IsSpace(s[0]) {
      var t := TrimStart(s);
      CollapseKeepsText(t);
      TrimStartKeepsText(s);
      assert ([' '] + Collapse(t))[1..] == Collapse(t);
    } else {
      CollapseKeepsText(s[1..]);
      assert ([s[0]] + Collapse(s[1..]))[1..] == Collapse(s[1..]);
    }
  }

  /** Normalisation drops and merges whitespace and nothing else. */
  lemma NormalizeKeepsText(s: string)
    ensures NonSpace(Normalize(s)) == NonSpace(s)
  {
    CollapseKeepsText(Trim(s));
    TrimKeepsText(s);
  }

  /** A normalised query has no leading, trailing or doubled whitespace, and
      every whitespace character in it is a plain space. */
  lemma NormalizeShape(s: string)
    ensures NoEdgeSpace(Normalize(s)) && SingleSpaced(Normalize(s))
  {
    CollapseClean(Trim(s));
  }

  lemma {:induction false} TrimOfNoEdgeSpace(s: string)
    requires NoEdgeSpace(s)
    ensures Trim(s) == s
  {
    assert TrimStart(s) == s;
    assert TrimEnd(s) == s;
  }

  lemma {:induction false} SingleSpacedSuffix(s: string, k: nat)
    requires k <= |s| && SingleSpaced(s)
    ensures SingleSpaced(s[k..])
  {
    if k > 0 {
      SingleSpacedSuffix(s[1..], k - 1);
      assert s[1..][k - 1..] == s[k..];
    }
  }

  /** In a single-spaced text, a whitespace character is a plain space followed
      by a non-whitespace character or by the end. */
  lemma {:induction false} SingleSpacedAt(s: string, i: nat)
    requires SingleSpaced(s) && i < |s| && IsSpace(s[i])
    ensures s[i] == ' ' && (i + 1 == |s| || !IsSpace(s[i + 1]))
  {
    if i > 0 {
      SingleSpacedAt(s[1..], i - 1);
    }
  }

  /** A single-spaced text without edge whitespace is its words joined by
      single spaces. */
  lemma {:induction false} JoinOfClean(t: string)
    requires NoEdgeSpace(t) && SingleSpaced(t)
    ensures JoinWords(Words(t)) == t
    decreases |t|
  {
    if t != [] {
      var n := WordLength(t);
      if n == |t| {
        assert t[..n] == t && t[n..] == [];
      } else {
        assert t[n] == ' ' && n + 1 < |t| && !IsSpace(t[n + 1]) by {
          SingleSpacedAt(t, n);
        }
        SingleSpacedSuffix(t, n + 1);
        JoinOfClean(t[n + 1..]);
        JoinAfterWord(t, n);
      }
    }
  }

  /** The step of `JoinOfClean`: a word, a space and a rest that is already
      its words joined. */
  lemma JoinAfterWord(t: string, n: nat)
    requires t != [] && !IsSpace(t[0]) && n == WordLength(t)
    requires n + 1 < |t| && t[n] == ' ' && !IsSpace(t[n + 1])
    requires JoinWords(Words(t[n + 1..])) == t[n + 1..]
    ensures JoinWords(Words(t)) == t
  {
    var u := t[n + 1..];
    WordsAfterSpace(t, n);
    JoinWordsCons(t[..n], Words(u));
    SplitAt(t, n);
    assert [t[n]] == " ";
  }

  lemma JoinWordsCons(w: string, ws: seq<string>)
    requires ws != []
    ensures JoinWords([w] + ws) == w + " " + JoinWords(ws)
  {
    assert ([w] + ws)[1..] == ws;
  }

  /** After the first word and one space comes the rest of the words. */
  lemma WordsAfterSpace(t: string, n: nat)
    requires t != [] && !IsSpace(t[0]) && n == WordLength(t) && n + 1 < |t|
    requires !IsSpace(t[n + 1])
    ensures Words(t) == [t[..n]] + Words(t[n + 1..]) && Words(t[n + 1..]) != []
  {
    assert t[n..][1..] == t[n + 1..];
  }

  /** On single-spaced text, `Collapse` copies the first character and
      carries on with the rest. */
  lemma CollapseStep(s: string)
    requires s != [] && SingleSpaced(s)
    ensures Collapse(s) == [s[0]] + Collapse(s[1..])
  {
    if IsSpace(s[0]) {
      var t := s[1..];
      assert t == [] || !IsSpace(t[0]);
      assert TrimStart(t) == t;
      assert TrimStart(s) == t;
    }
  }

  lemma {:induction false} CollapseOfSingleSpaced(s: string)
    requires SingleSpaced(s)
    ensures Collapse(s) == s
    decreases |s|
  {
    if s != [] {
      SingleSpacedSuffix(s, 1);
      CollapseOfSingleSpaced(s[1..]);
      CollapseStep(s);
      assert s == [s[0]] + s[1..];
    }
  }

  /** Exactly the single-spaced texts without edge whitespace are left alone by
      normalisation. */
  lemma NormalizeFixedPoints(s: string)
    ensures Normalize(s) == s <==> NoEdgeSpace(s) && SingleSpaced(s)
  {
    NormalizeShape(s);
    if NoEdgeSpace(s) && SingleSpaced(s) {
      TrimOfNoEdgeSpace(s);
      CollapseOfSingleSpaced(s);
    }
  }

  /** Normalising twice is normalising once. */
  lemma NormalizeIdempotent(s: string)
    ensures Normalize(Normalize(s)) == Normalize(s)
  {
    NormalizeShape(s);
    NormalizeFixedPoints(Normalize(s));
  }

  /** Trimming twice is trimming once. */
  lemma TrimIdempotent(s: string)
    ensures Trim(Trim(s)) == Trim(s)
  {
    TrimOfNoEdgeSpace(Trim(s));
  }
}
