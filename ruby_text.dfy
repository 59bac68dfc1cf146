/**
 * The Ruby and Rails string operations the server controller relies on:
 * `String#strip`, `Object#blank?` and `to_i`. Ruby's `length` counts
 * characters, which is Dafny's `|s|`.
 */
module RubyText {
  import opened Wrappers
  import opened Sequences

  /** The characters `strip` removes: NUL, tab, line feed, vertical tab, form
      feed, carriage return and space. */
  predicate IsStripSpace(c: char) {
    c as int == 0 || (9 <= c as int <= 13) || c == ' '
  }

  /** The characters of the POSIX class `[[:space:]]` on a Unicode string, that
      is the Unicode White_Space property, as `blank?` uses it. */
  predicate IsBlankSpace(c: char) {
    var n := c as int;
    (9 <= n <= 13) || n == 0x20 || n == 0x85 || n == 0xA0 || n == 0x1680 ||
    (0x2000 <= n <= 0x200A) || n == 0x2028 || n == 0x2029 ||
    n == 0x202F || n == 0x205F || n == 0x3000
  }

  /** `value.blank?` for a request parameter: `nil`, or a string of nothing but
      whitespace. */
  predicate Blank(value: Option<string>) {
    value.None? || forall i | 0 <= i < |value.value| :: IsBlankSpace(value.value[i])
  }

  /** Every character of `s` is one that `strip` removes. */
  predicate AllStripSpace(s: string) {
    s == [] || (IsStripSpace(s[0]) && AllStripSpace(s[1..]))
  }

  lemma AllStripSpaceCons(c: char, t: string)
    requires IsStripSpace(c) && AllStripSpace(t)
    ensures AllStripSpace([c] + t)
  {
    assert ([c] + t)[1..] == t;
  }

  lemma {:induction false} AllStripSpaceSnoc(t: string, c: char)
    requires AllStripSpace(t) && IsStripSpace(c)
    ensures AllStripSpace(t + [c])
  {
    if t == [] {
      assert [c][1..] == [];
    } else {
      assert (t + [c])[1..] == t[1..] + [c];
      AllStripSpaceSnoc(t[1..], c);
    }
  }

  /** A concatenation is blank exactly when both parts are. */
  lemma BlankAppend(s: string, t: string)
    ensures Blank(Some(s + t)) <==> Blank(Some(s)) && Blank(Some(t))
  {
    if Blank(Some(s)) && Blank(Some(t)) {
      forall i | 0 <= i < |s + t| ensures IsBlankSpace((s + t)[i]) {
        if i >= |s| { assert (s + t)[i] == t[i - |s|]; }
      }
    }
    if Blank(Some(s + t)) {
      forall i | 0 <= i < |s| ensures IsBlankSpace(s[i]) {
        assert (s + t)[i] == s[i];
      }
      forall i | 0 <= i < |t| ensures IsBlankSpace(t[i]) {
        assert (s + t)[i + |s|] == t[i];
      }
    }
  }

  function StripStart(s: string): (r: string)
    ensures |r| <= |s| && r == s[|s| - |r|..]
    ensures r == [] || !IsStripSpace(r[0])
  {
    if s != [] && IsStripSpace(s[0]) then
      var r := StripStart(s[1..]);
      assert s[1..][|s| - 1 - |r|..] == s[|s| - |r|..];
      r
    else s
  }

  /** What `StripStart` drops is strip-whitespace. */
  lemma {:induction false} StripStartCut(s: string)
    ensures AllStripSpace(s[..|s| - |StripStart(s)|])
  {
    if s != [] && IsStripSpace(s[0]) {
      var r := StripStart(s[1..]);
      StripStartCut(s[1..]);
      AllStripSpaceCons(s[0], s[1..][..|s| - 1 - |r|]);
      assert s[..|s| - |r|] == [s[0]] + s[1..][..|s| - 1 - |r|];
    }
  }

  function StripEnd(s: string): (r: string)
    ensures |r| <= |s| && r == s[..|r|]
    ensures r == [] || !IsStripSpace(r[|r| - 1])
  {
    if s != [] && IsStripSpace(s[|s| - 1]) then
      var r := StripEnd(s[..|s| - 1]);
      assert s[..|s| - 1][..|r|] == s[..|r|];
      r
    else s
  }

  /** What `StripEnd` drops is strip-whitespace. */
  lemma {:induction false} StripEndCut(s: string)
    ensures AllStripSpace(s[|StripEnd(s)|..])
  {
    if s != [] && IsStripSpace(s[|s| - 1]) {
      var r := StripEnd(s[..|s| - 1]);
      StripEndCut(s[..|s| - 1]);
      AllStripSpaceSnoc(s[..|s| - 1][|r|..], s[|s| - 1]);
      assert s[|r|..] == s[..|s| - 1][|r|..] + [s[|s| - 1]];
    }
  }

  /** `s.strip`: the result neither starts nor ends with a character that
      `strip` removes; `StripSplits` adds that it is what lies between a
      leading and a trailing run of such characters. */
  function Strip(s: string): (r: string)
    ensures |r| <= |s|
    ensures r == [] || (!IsStripSpace(r[0]) && !IsStripSpace(r[|r| - 1]))
  {
    var t := StripStart(s);
    var r := StripEnd(t);
    assert r == [] || !IsStripSpace(r[0]) by {
      if r != [] { assert r[0] == t[0]; }
    }
    r
  }

  /** `s` is a run of characters that `strip` removes, `s.strip` and another
      such run; any other whitespace (a no-break space, say) is kept. */
  lemma StripSplits(s: string)
    ensures exists lead, trail ::
      s == lead + Strip(s) + trail && AllStripSpace(lead) && AllStripSpace(trail)
  {
    var lead, trail := StripInfix(s, StripStart(s), Strip(s));
  }

  lemma StripInfix(s: string, t: string, r: string) returns (lead: string, trail: string)
    requires t == StripStart(s) && r == StripEnd(t)
    ensures s == lead + r + trail && AllStripSpace(lead) && AllStripSpace(trail)
  {
    lead, trail := s[..|s| - |t|], t[|r|..];
    assert AllStripSpace(lead) by { StripStartCut(s); }
    assert AllStripSpace(trail) by { StripEndCut(t); }
    SplitThree(s, |s| - |t|, t, r);
  }

  lemma {:induction false} StripOfClean(s: string)
    requires s == [] || (!IsStripSpace(s[0]) && !IsStripSpace(s[|s| - 1]))
    ensures Strip(s) == s
  {
    assert StripStart(s) == s;
    assert StripEnd(s) == s;
  }

  predicate IsDigit(c: char) { '0' <= c <= '9' }

  function DigitValue(c: char): nat
    requires IsDigit(c)
  {
    c as int - '0' as int
  }

  /** Reads decimal digits onto `acc`; an underscore counts only between two
      digits. */
  function ParseDigits(s: string, acc: nat): nat {
    if s != [] && IsDigit(s[0]) then ParseDigits(s[1..], acc * 10 + DigitValue(s[0]))
    else if |s| >= 2 && s[0] == '_' && IsDigit(s[1]) then ParseDigits(s[1..], acc)
    else acc
  }

  /** The magnitude after the sign: 0 unless a digit comes first. */
  function Magnitude(s: string): nat {
    if s != [] && IsDigit(s[0]) then ParseDigits(s, 0) else 0
  }

  /** `String#to_i`: leading whitespace, an optional sign, then as many digits
      as there are; anything unreadable gives 0. */
  function StringToI(s: string): (r: int)
    ensures var t := StripLeadingAsciiSpace(s);
      (t == [] || !(IsDigit(t[0]) || ((t[0] == '-' || t[0] == '+') && |t| > 1 && IsDigit(t[1]))))
      ==> r == 0
    ensures r < 0 ==> StripLeadingAsciiSpace(s)[0] == '-'
  {
    var t := StripLeadingAsciiSpace(s);
    if t != [] && t[0] == '-' then -(Magnitude(t[1..]) as int)
    else if t != [] && t[0] == '+' then Magnitude(t[1..])
    else Magnitude(t)
  }

  /** `to_i` skips leading whitespace: a space in front changes nothing. */
  lemma LeadingSpaceIgnored(s: string)
    ensures StringToI(" " + s) == StringToI(s)
  {
    assert (" " + s)[1..] == s;
  }

  function StripLeadingAsciiSpace(s: string): string {
    if s != [] && (s[0] == ' ' || 9 <= s[0] as int <= 13) then StripLeadingAsciiSpace(s[1..]) else s
  }

  /** A JSON value as it may stand in a response's "cod" field; `NoToI` is
      `true`, `false`, an array or an object, the values without a `to_i`
      method. */
  datatype CodValue = IntCod(n: int) | StrCod(s: string) | NilCod | NoToI

  /** `value.to_i`: integers as they are, strings parsed, `nil` is 0; `None`
      where calling `to_i` raises `NoMethodError`. */
  function ToI(v: CodValue): (r: Option<int>)
    ensures r.None? <==> v.NoToI?
    ensures v.IntCod? ==> r == Some(v.n)
    ensures v.NilCod? ==> r == Some(0)
  {
    match v
    case IntCod(n) => Some(n)
    case StrCod(s) => Some(StringToI(s))
    case NilCod => Some(0)
    case NoToI => None
  }

  function Digit(d: nat): char
    requires d < 10
  {
    ('0' as int + d) as char
  }

  /** The decimal text of `n`, as the weather API writes a status code. */
  function Decimal(n: nat): (r: string)
    ensures r != [] && forall i | 0 <= i < |r| :: IsDigit(r[i])
  {
    if n < 10 then [Digit(n)] else Decimal(n / 10) + [Digit(n % 10)]
  }

  lemma {:induction false} ParseDigitsAppend(a: string, d: char, acc: nat)
    requires forall i | 0 <= i < |a| :: IsDigit(a[i])
    requires IsDigit(d)
    ensures ParseDigits(a + [d], acc) == ParseDigits(a, acc) * 10 + DigitValue(d)
  {
    if a == [] {
      assert [d][1..] == [];
    } else {
      assert (a + [d])[1..] == a[1..] + [d];
      ParseDigitsAppend(a[1..], d, acc * 10 + DigitValue(a[0]));
    }
  }

  lemma {:induction false} ParseDecimal(n: nat)
    ensures ParseDigits(Decimal(n), 0) == n
  {
    if n >= 10 {
      ParseDecimal(n / 10);
      ParseDigitsAppend(Decimal(n / 10), Digit(n % 10), 0);
    }
  }

  /** `to_i` reads back every status code written in decimal, with or without
      a minus sign. */
  lemma DecimalRoundTrip(n: nat)
    ensures ToI(StrCod(Decimal(n))) == Some(n)
    ensures ToI(StrCod("-" + Decimal(n))) == Some(-(n as int))
  {
    ParseDecimal(n);
    assert ("-" + Decimal(n))[1..] == Decimal(n);
  }
}
