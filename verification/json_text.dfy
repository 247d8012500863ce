/** How JSON numbers and strings are written as text, and why what was written
    can be read back without ambiguity. */
module JsonText {
  import opened CodeUnits

  const QUOTE: Unit := 0x22
  const BACKSLASH: Unit := 0x5C
  const COMMA: Unit := 0x2C
  const COLON: Unit := 0x3A
  const MINUS: Unit := 0x2D
  const OPEN_BRACKET: Unit := 0x5B
  const CLOSE_BRACKET: Unit := 0x5D
  const OPEN_BRACE: Unit := 0x7B
  const CLOSE_BRACE: Unit := 0x7D
  const NULL_TEXT: Text := [0x6E, 0x75, 0x6C, 0x6C]
  const TRUE_TEXT: Text := [0x74, 0x72, 0x75, 0x65]
  const FALSE_TEXT: Text := [0x66, 0x61, 0x6C, 0x73, 0x65]

  // ---------------------------------------------------------------------
  // Numbers

  predicate IsDigit(u: Unit) { 0x30 <= u <= 0x39 }

  function NatText(n: nat): (t: Text)
    ensures |t| > 0 && forall i :: 0 <= i < |t| ==> IsDigit(t[i])
  {
    if n < 10 then [0x30 + n] else NatText(n / 10) + [0x30 + n % 10]
  }

  function IntText(n: int): Text {
    if n < 0 then [MINUS] + NatText(-n) else NatText(n)
  }

  lemma {:induction false} NatTextInjective(m: nat, n: nat)
    requires NatText(m) == NatText(n)
    ensures m == n
  {
    assert m >= 10 ==> NatText(m)[..|NatText(m)| - 1] == NatText(m / 10);
    assert n >= 10 ==> NatText(n)[..|NatText(n)| - 1] == NatText(n / 10);
    if m >= 10 && n >= 10 {
      NatTextInjective(m / 10, n / 10);
      assert NatText(m)[|NatText(m)| - 1] == NatText(n)[|NatText(n)| - 1];
    }
  }

  /** What follows a number in a text never continues its digits. */
  predicate Stops(r: Text) { r == [] || !IsDigit(r[0]) }

  lemma LongerCoversNext(a: Text, r: Text, b: Text, q: Text)
    requires a + r == b + q && |a| < |b|
    ensures r != [] && r[0] == b[|a|]
  {
    assert (a + r)[|a|] == r[0] && (b + q)[|a|] == b[|a|];
  }

  lemma NatTextPrefix(m: nat, n: nat, r: Text, q: Text)
    requires NatText(m) + r == NatText(n) + q && Stops(r) && Stops(q)
    ensures m == n && r == q
  {
    var a, b := NatText(m), NatText(n);
    if |a| < |b| {
      LongerCoversNext(a, r, b, q);
      assert false;
    } else if |b| < |a| {
      LongerCoversNext(b, q, a, r);
      assert false;
    }
    SplitAt(a, r, b, q);
    NatTextInjective(m, n);
  }

  lemma SplitAt(a: Text, r: Text, b: Text, q: Text)
    requires a + r == b + q && |a| == |b|
    ensures a == b && r == q
  {
    assert a == (a + r)[..|a|] && b == (b + q)[..|a|];
    assert r == (a + r)[|a|..] && q == (b + q)[|a|..];
  }

  // ---------------------------------------------------------------------
  // Strings: QuoteJSONString of ECMA-262, with lone surrogates escaped

  predicate IsLead(u: Unit) { 0xD800 <= u <= 0xDBFF }
  predicate IsTrail(u: Unit) { 0xDC00 <= u <= 0xDFFF }

  function HexDigit(d: int): Unit
    requires 0 <= d < 16
  {
    if d < 10 then 0x30 + d else 0x61 + d - 10
  }

  function UnicodeEscape(u: Unit): Text {
    [BACKSLASH, 0x75, HexDigit(u / 16 / 16 / 16), HexDigit(u / 16 / 16 % 16), HexDigit(u / 16 % 16), HexDigit(u % 16)]
  }

  function EscapeUnit(u: Unit): Text {
    if u == 0x08 then [BACKSLASH, 0x62]
    else if u == 0x09 then [BACKSLASH, 0x74]
    else if u == 0x0A then [BACKSLASH, 0x6E]
    else if u == 0x0C then [BACKSLASH, 0x66]
    else if u == 0x0D then [BACKSLASH, 0x72]
    else if u == QUOTE then [BACKSLASH, QUOTE]
    else if u == BACKSLASH then [BACKSLASH, BACKSLASH]
    else if u < 0x20 || IsLead(u) || IsTrail(u) then UnicodeEscape(u)
    else [u]
  }

  predicate StartsWithPair(s: Text) {
    |s| >= 2 && IsLead(s[0]) && IsTrail(s[1])
  }

  function QuoteBody(s: Text): Text {
    if s == [] then []
    else if StartsWithPair(s) then s[..2] + QuoteBody(s[2..])
    else EscapeUnit(s[0]) + QuoteBody(s[1..])
  }

  function Quote(s: Text): Text {
    [QUOTE] + QuoteBody(s) + [QUOTE]
  }

  /** No escape sequence is a proper prefix of another, nor of a raw unit. */
  lemma EscapePrefixFree(u: Unit, v: Unit, r: Text, q: Text)
    requires EscapeUnit(u) + r == EscapeUnit(v) + q
    ensures u == v && r == q
  {
    var a, b := EscapeUnit(u), EscapeUnit(v);
    assert a[0] == (a + r)[0] == (b + q)[0] == b[0];
    if |a| > 1 && |b| > 1 {
      assert a[1] == (a + r)[1] == (b + q)[1] == b[1];
    }
    assert |a| == |b|;
    SplitAt(a, r, b, q);
    if a == UnicodeEscape(u) && b == UnicodeEscape(v) {
      UnicodeEscapeInjective(u, v);
    }
  }

  lemma HexDigitInjective(d: int, e: int)
    requires 0 <= d < 16 && 0 <= e < 16 && HexDigit(d) == HexDigit(e)
    ensures d == e
  {
  }

  lemma UnicodeEscapeInjective(u: Unit, v: Unit)
    requires UnicodeEscape(u) == UnicodeEscape(v)
    ensures u == v
  {
    var a, b := UnicodeEscape(u), UnicodeEscape(v);
    assert a[2] == b[2] && a[3] == b[3] && a[4] == b[4] && a[5] == b[5];
    HexDigitInjective(u / 16 / 16 / 16, v / 16 / 16 / 16);
    HexDigitInjective(u / 16 / 16 % 16, v / 16 / 16 % 16);
    HexDigitInjective(u / 16 % 16, v / 16 % 16);
    HexDigitInjective(u % 16, v % 16);
  }

  /** The first unit or pair of a string, and what it is written as. */
  function HeadLength(s: Text): nat
    requires s != []
  {
    if StartsWithPair(s) then 2 else 1
  }

  function HeadText(s: Text): (t: Text)
    requires s != []
    ensures t != [] && t[0] != QUOTE
  {
    if StartsWithPair(s) then s[..2] else EscapeUnit(s[0])
  }

  lemma HeadPrefixFree(s: Text, t: Text, r: Text, q: Text)
    requires s != [] && t != []
    requires HeadText(s) + r == HeadText(t) + q
    ensures HeadLength(s) == HeadLength(t) && s[..HeadLength(s)] == t[..HeadLength(t)] && r == q
  {
    assert HeadText(s)[0] == (HeadText(s) + r)[0] == (HeadText(t) + q)[0] == HeadText(t)[0];
    if StartsWithPair(s) {
      SplitAt(HeadText(s), r, HeadText(t), q);
    } else {
      EscapePrefixFree(s[0], t[0], r, q);
    }
  }

  /** The closing quote of a quoted string is found unambiguously and the
      string before it is recovered. */
  lemma {:induction false} QuoteBodyPrefix(s: Text, t: Text, r: Text, q: Text)
    requires QuoteBody(s) + ([QUOTE] + r) == QuoteBody(t) + ([QUOTE] + q)
    ensures s == t && r == q
    decreases |s|
  {
    hide EscapeUnit;
    QuoteBodyStart(s, [QUOTE] + r);
    QuoteBodyStart(t, [QUOTE] + q);
    if s == [] {
      assert r == (QuoteBody(s) + ([QUOTE] + r))[1..];
      assert q == (QuoteBody(t) + ([QUOTE] + q))[1..];
    } else {
      var m, n := HeadLength(s), HeadLength(t);
      var r', q' := QuoteBody(s[m..]) + ([QUOTE] + r), QuoteBody(t[n..]) + ([QUOTE] + q);
      assert QuoteBody(s) + ([QUOTE] + r) == HeadText(s) + r';
      assert QuoteBody(t) + ([QUOTE] + q) == HeadText(t) + q';
      HeadPrefixFree(s, t, r', q');
      QuoteBodyPrefix(s[m..], t[n..], r, q);
      assert s == s[..m] + s[m..] && t == t[..n] + t[n..];
    }
  }

  lemma QuoteBodyStart(s: Text, r: Text)
    requires r != [] && r[0] == QUOTE
    ensures (QuoteBody(s) + r)[0] == QUOTE <==> s == []
  {
    assert s != [] ==> QuoteBody(s) == HeadText(s) + QuoteBody(s[HeadLength(s)..]);
  }

  lemma QuotePrefix(s: Text, t: Text, r: Text, q: Text)
    requires Quote(s) + r == Quote(t) + q
    ensures s == t && r == q
  {
    hide QuoteBody;
    assert (Quote(s) + r)[1..] == QuoteBody(s) + ([QUOTE] + r);
    assert (Quote(t) + q)[1..] == QuoteBody(t) + ([QUOTE] + q);
    QuoteBodyPrefix(s, t, r, q);
  }
}
