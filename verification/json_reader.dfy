/** A reader of JSON text, defined from the grammar of RFC 8259 and not from the
    serializer: reading what the serializer writes gives the value back. */
module JsonReader {
  import opened Options
  import opened CodeUnits
  import opened JsonText
  import opened Json

  /** What was read and the text after it. */
  datatype Read<T> = Fail | Got(value: T, rest: Text)

  // ---------------------------------------------------------------------
  // Numbers (section 6 of RFC 8259, integers only)

  /** The value of a row of decimal digits, each worth its distance from `0`. */
  function DecimalValue(t: Text): int {
    if t == [] then 0 else 10 * DecimalValue(t[..|t| - 1]) + (t[|t| - 1] as int - 0x30)
  }

  function DigitCount(t: Text): (k: nat)
    ensures k <= |t|
  {
    if t == [] || !IsDigit(t[0]) then 0 else 1 + DigitCount(t[1..])
  }

  /** As many digits as there are; no leading zero but in `0` itself. */
  function ReadNat(t: Text): (r: Read<int>)
    ensures r.Got? ==> |r.rest| < |t|
  {
    var k := DigitCount(t);
    if k == 0 || (k > 1 && t[0] == 0x30) then Fail else Got(DecimalValue(t[..k]), t[k..])
  }

  function ReadNumber(t: Text): (r: Read<int>)
    ensures r.Got? ==> |r.rest| < |t|
  {
    if t != [] && t[0] == MINUS then
      match ReadNat(t[1..])
      case Fail => Fail
      case Got(n, rest) => Got(-n, rest)
    else
      ReadNat(t)
  }

  /** A number is written in decimal, without a leading zero. */
  lemma {:induction false} NatTextExact(n: nat)
    ensures DecimalValue(NatText(n)) == n
    ensures n > 0 ==> NatText(n)[0] != 0x30
    ensures n == 0 ==> NatText(n) == [0x30]
  {
    var t := NatText(n);
    if n < 10 {
      assert t[..0] == [];
    } else {
      NatTextExact(n / 10);
      assert t[..|t| - 1] == NatText(n / 10);
    }
  }

  lemma {:induction false} DigitCountOf(a: Text, r: Text)
    requires Stops(r) && forall i :: 0 <= i < |a| ==> IsDigit(a[i])
    ensures DigitCount(a + r) == |a|
  {
    if a == [] {
      assert a + r == r;
    } else {
      assert (a + r)[1..] == a[1..] + r;
      DigitCountOf(a[1..], r);
    }
  }

  lemma ReadNatText(n: nat, r: Text)
    requires Stops(r)
    ensures ReadNat(NatText(n) + r) == Got(n, r)
  {
    var a := NatText(n);
    NatTextExact(n);
    DigitCountOf(a, r);
    assert (a + r)[..|a|] == a && (a + r)[|a|..] == r;
    hide NatText, DecimalValue;
  }

  lemma ReadIntText(n: int, r: Text)
    requires Stops(r)
    ensures ReadNumber(IntText(n) + r) == Got(n, r)
  {
    hide NatText, ReadNat;
    if n < 0 {
      assert (IntText(n) + r)[1..] == NatText(-n) + r;
      ReadNatText(-n, r);
    } else {
      assert (NatText(n) + r)[0] == NatText(n)[0];
      ReadNatText(n, r);
    }
  }

  // ---------------------------------------------------------------------
  // Strings (section 7 of RFC 8259)

  /** The unit that a backslash and this one stand for. */
  function Unescaped(u: Unit): Option<Unit> {
    if u == 0x22 then Some(0x22)
    else if u == 0x5C then Some(0x5C)
    else if u == 0x2F then Some(0x2F)
    else if u == 0x62 then Some(0x08)
    else if u == 0x66 then Some(0x0C)
    else if u == 0x6E then Some(0x0A)
    else if u == 0x72 then Some(0x0D)
    else if u == 0x74 then Some(0x09)
    else None
  }

  /** The value of a hexadecimal digit of either case. */
  function HexValue(u: Unit): (d: Option<int>)
    ensures d.Some? ==> 0 <= d.value < 16
  {
    if 0x30 <= u <= 0x39 then Some(u - 0x30)
    else if 0x41 <= u <= 0x46 then Some(u - 0x41 + 10)
    else if 0x61 <= u <= 0x66 then Some(u - 0x61 + 10)
    else None
  }

  function HexValue4(a: Unit, b: Unit, c: Unit, d: Unit): Option<Unit> {
    match (HexValue(a), HexValue(b), HexValue(c), HexValue(d))
    case (Some(w), Some(x), Some(y), Some(z)) => Some(4096 * w + 256 * x + 16 * y + z)
    case _ => None
  }

  /** One unit of a string, as itself or escaped. */
  function ReadUnit(t: Text): (r: Read<Unit>)
    ensures r.Got? ==> |r.rest| < |t|
  {
    if t == [] || t[0] == QUOTE || t[0] < 0x20 then Fail
    else if t[0] != BACKSLASH then Got(t[0], t[1..])
    else if |t| >= 6 && t[1] == 0x75 then
      match HexValue4(t[2], t[3], t[4], t[5])
      case None => Fail
      case Some(u) => Got(u, t[6..])
    else if |t| >= 2 then
      match Unescaped(t[1])
      case None => Fail
      case Some(u) => Got(u, t[2..])
    else Fail
  }

  /** The rest of a string up to its closing quote. */
  function ReadBody(t: Text): (r: Read<Text>)
    ensures r.Got? ==> |r.rest| < |t|
    decreases |t|
  {
    if t != [] && t[0] == QUOTE then Got([], t[1..])
    else
      match ReadUnit(t)
      case Fail => Fail
      case Got(u, rest) =>
        match ReadBody(rest)
        case Fail => Fail
        case Got(s, after) => Got([u] + s, after)
  }

  function ReadString(t: Text): (r: Read<Text>)
    ensures r.Got? ==> |r.rest| < |t|
  {
    if t == [] || t[0] != QUOTE then Fail else ReadBody(t[1..])
  }

  /** A unit is written as itself where that is allowed, with its two-unit escape
      where there is one, and otherwise as `\u` and four lower-case digits. */
  lemma EscapeExact(u: Unit)
    ensures var t := EscapeUnit(u);
            if u >= 0x20 && u != 0x22 && u != 0x5C && !(0xD800 <= u <= 0xDFFF) then
              t == [u]
            else if u in {0x08, 0x09, 0x0A, 0x0C, 0x0D, 0x22, 0x5C} then
              |t| == 2 && t[0] == 0x5C && Unescaped(t[1]) == Some(u)
            else
              && |t| == 6 && t[0] == 0x5C && t[1] == 0x75
              && HexValue4(t[2], t[3], t[4], t[5]) == Some(u)
              && forall i :: 2 <= i < 6 ==> !(0x41 <= t[i] <= 0x46)
  {
    var t := EscapeUnit(u);
    if t == UnicodeEscape(u) {
      UnicodeEscapeValue(u);
    }
  }

  lemma HexDigitValue(d: int)
    requires 0 <= d < 16
    ensures HexValue(HexDigit(d)) == Some(d)
  {
  }

  lemma UnicodeEscapeValue(u: Unit)
    ensures var t := UnicodeEscape(u);
            && |t| == 6 && t[0] == 0x5C && t[1] == 0x75
            && HexValue4(t[2], t[3], t[4], t[5]) == Some(u)
            && forall i :: 2 <= i < 6 ==> !(0x41 <= t[i] <= 0x46)
  {
    var a, b, c, d := u / 16 / 16 / 16, u / 16 / 16 % 16, u / 16 % 16, u % 16;
    HexDigitValue(a);
    HexDigitValue(b);
    HexDigitValue(c);
    HexDigitValue(d);
    HexDigits(u);
  }

  lemma HexDigits(u: int)
    ensures u == 4096 * (u / 16 / 16 / 16) + 256 * (u / 16 / 16 % 16) + 16 * (u / 16 % 16) + u % 16
  {
    var a, b, c := u / 16, u / 16 / 16, u / 16 / 16 / 16;
    assert u == 16 * a + u % 16 && a == 16 * b + a % 16 && b == 16 * c + b % 16;
  }

  lemma ReadEscape(u: Unit, r: Text)
    ensures ReadUnit(EscapeUnit(u) + r) == Got(u, r)
  {
    EscapeExact(u);
    var t := EscapeUnit(u);
    hide EscapeUnit, HexValue4;
    assert (t + r)[|t|..] == r;
    assert forall i :: 0 <= i < |t| ==> (t + r)[i] == t[i];
  }

  /** Unit i of a string stands for itself, being half of a pair, or escaped. */
  function Written(s: Text, i: nat): Text
    requires i < |s|
  {
    if || (IsLead(s[i]) && i + 1 < |s| && IsTrail(s[i + 1]))
       || (IsTrail(s[i]) && i > 0 && IsLead(s[i - 1])) then [s[i]]
    else EscapeUnit(s[i])
  }

  function WrittenFrom(s: Text, i: nat): Text
    requires i <= |s|
    decreases |s| - i
  {
    if i == |s| then [] else Written(s, i) + WrittenFrom(s, i + 1)
  }

  /** A string is quoted unit by unit: surrogates that stand next to their
      other half as they are, every other unit by itself. */
  lemma QuoteByUnits(s: Text)
    ensures Quote(s) == [QUOTE] + WrittenFrom(s, 0) + [QUOTE]
  {
    QuoteBodyByUnits(s, 0);
    assert s[0..] == s;
  }

  lemma {:induction false} QuoteBodyByUnits(s: Text, i: nat)
    requires i <= |s|
    requires 0 < i < |s| && IsTrail(s[i]) ==> !IsLead(s[i - 1])
    ensures QuoteBody(s[i..]) == WrittenFrom(s, i)
    decreases |s| - i
  {
    hide EscapeUnit;
    if i < |s| {
      var rest := s[i..];
      if StartsWithPair(rest) {
        QuoteBodyByUnits(s, i + 2);
        assert rest[2..] == s[i + 2..] && rest[..2] == [s[i]] + [s[i + 1]];
        assert Written(s, i) == [s[i]] && Written(s, i + 1) == [s[i + 1]];
        assert WrittenFrom(s, i) == [s[i]] + ([s[i + 1]] + WrittenFrom(s, i + 2));
      } else {
        QuoteBodyByUnits(s, i + 1);
        assert rest[1..] == s[i + 1..] && rest[0] == s[i];
        assert i + 1 < |s| ==> rest[1] == s[i + 1];
      }
    }
  }

  lemma ReadEnd(r: Text)
    ensures ReadBody([QUOTE] + r) == Got([], r)
  {
    assert ([QUOTE] + r)[1..] == r;
  }

  lemma QuoteNothing(after: Text)
    ensures QuoteBody([]) + after == after
  {
  }

  lemma QuotePairFirst(s: Text, after: Text)
    requires StartsWithPair(s)
    ensures QuoteBody(s) + after == [s[0]] + ([s[1]] + (QuoteBody(s[2..]) + after))
  {
    assert QuoteBody(s) == s[..2] + QuoteBody(s[2..]);
    hide QuoteBody;
    PairThen(s, QuoteBody(s[2..]), after);
  }

  lemma QuoteOneFirst(s: Text, after: Text)
    requires s != [] && !StartsWithPair(s)
    ensures QuoteBody(s) + after == EscapeUnit(s[0]) + (QuoteBody(s[1..]) + after)
  {
    hide EscapeUnit;
    assert QuoteBody(s) == EscapeUnit(s[0]) + QuoteBody(s[1..]);
    hide QuoteBody;
  }

  lemma PairPlain(s: Text)
    requires StartsWithPair(s)
    ensures |s| >= 2 && forall i :: 0 <= i < 2 ==> s[i] >= 0x20 && s[i] != QUOTE && s[i] != BACKSLASH
  {
  }

  lemma PairThen(s: Text, t: Text, r: Text)
    requires |s| >= 2
    ensures s[..2] + t + r == [s[0]] + ([s[1]] + (t + r))
  {
  }

  lemma ReadPlain(u: Unit, t: Text, s: Text, r: Text)
    requires u >= 0x20 && u != QUOTE && u != BACKSLASH && ReadBody(t) == Got(s, r)
    ensures ReadBody([u] + t) == Got([u] + s, r)
  {
    assert ([u] + t)[1..] == t;
  }

  lemma ReadEscaped(u: Unit, t: Text, s: Text, r: Text)
    requires ReadBody(t) == Got(s, r)
    ensures ReadBody(EscapeUnit(u) + t) == Got([u] + s, r)
  {
    ReadEscape(u, t);
    assert EscapeUnit(u)[0] == (EscapeUnit(u) + t)[0];
    assert EscapeUnit(u)[0] != QUOTE;
    hide EscapeUnit, ReadUnit;
  }

  lemma {:induction false} ReadQuoteBody(s: Text, r: Text)
    ensures ReadBody(QuoteBody(s) + ([QUOTE] + r)) == Got(s, r)
    decreases |s|
  {
    hide *;
    var after := [QUOTE] + r;
    if s == [] {
      QuoteNothing(after);
      ReadEnd(r);
    } else if StartsWithPair(s) {
      PairPlain(s);
      var rest := QuoteBody(s[2..]) + after;
      ReadQuoteBody(s[2..], r);
      QuotePairFirst(s, after);
      ReadPlain(s[1], rest, s[2..], r);
      ReadPlain(s[0], [s[1]] + rest, [s[1]] + s[2..], r);
      assert s == [s[0]] + ([s[1]] + s[2..]);
    } else {
      ReadQuoteBody(s[1..], r);
      QuoteOneFirst(s, after);
      ReadEscaped(s[0], QuoteBody(s[1..]) + after, s[1..], r);
      assert s == [s[0]] + s[1..];
    }
  }

  lemma ReadQuote(s: Text, r: Text)
    ensures ReadString(Quote(s) + r) == Got(s, r)
  {
    hide QuoteBody, ReadBody;
    assert (Quote(s) + r)[1..] == QuoteBody(s) + ([QUOTE] + r);
    ReadQuoteBody(s, r);
  }

  // ---------------------------------------------------------------------
  // Values (sections 2 to 5 of RFC 8259, no white space)

  predicate Begins(t: Text, word: Text) {
    |word| <= |t| && t[..|word|] == word
  }

  function ReadValue(t: Text): (r: Read<Json>)
    ensures r.Got? ==> |r.rest| < |t|
    decreases |t|, 0
  {
    if t == [] then Fail
    else if t[0] == QUOTE then
      match ReadString(t)
      case Fail => Fail
      case Got(s, rest) => Got(Str(s), rest)
    else if t[0] == OPEN_BRACKET then
      match ReadElements(t[1..])
      case Fail => Fail
      case Got(es, rest) => Got(Arr(es), rest)
    else if t[0] == OPEN_BRACE then
      match ReadMembers(t[1..])
      case Fail => Fail
      case Got(ms, rest) => Got(Obj(ms), rest)
    else if Begins(t, NULL_TEXT) then Got(Null, t[4..])
    else if Begins(t, TRUE_TEXT) then Got(Bool(true), t[4..])
    else if Begins(t, FALSE_TEXT) then Got(Bool(false), t[5..])
    else
      match ReadNumber(t)
      case Fail => Fail
      case Got(n, rest) => Got(Num(n), rest)
  }

  /** The elements of an array, up to its closing bracket. */
  function ReadElements(t: Text): (r: Read<seq<Json>>)
    ensures r.Got? ==> |r.rest| < |t|
    decreases |t|, 2
  {
    if t != [] && t[0] == CLOSE_BRACKET then Got([], t[1..]) else ReadSomeElements(t)
  }

  function ReadSomeElements(t: Text): (r: Read<seq<Json>>)
    ensures r.Got? ==> |r.rest| < |t|
    decreases |t|, 1
  {
    match ReadValue(t)
    case Fail => Fail
    case Got(v, rest) =>
      if rest == [] then Fail
      else if rest[0] == CLOSE_BRACKET then Got([v], rest[1..])
      else if rest[0] == COMMA then
        match ReadSomeElements(rest[1..])
        case Fail => Fail
        case Got(vs, after) => Got([v] + vs, after)
      else Fail
  }

  /** The members of an object, up to its closing brace. */
  function ReadMembers(t: Text): (r: Read<seq<Member>>)
    ensures r.Got? ==> |r.rest| < |t|
    decreases |t|, 3
  {
    if t != [] && t[0] == CLOSE_BRACE then Got([], t[1..]) else ReadSomeMembers(t)
  }

  function ReadMember(t: Text): (r: Read<Member>)
    ensures r.Got? ==> |r.rest| < |t|
    decreases |t|, 1
  {
    match ReadString(t)
    case Fail => Fail
    case Got(key, rest) =>
      if rest == [] || rest[0] != COLON then Fail
      else
        match ReadValue(rest[1..])
        case Fail => Fail
        case Got(v, after) => Got(Member(key, v), after)
  }

  function ReadSomeMembers(t: Text): (r: Read<seq<Member>>)
    ensures r.Got? ==> |r.rest| < |t|
    decreases |t|, 2
  {
    match ReadMember(t)
    case Fail => Fail
    case Got(m, rest) =>
      if rest == [] then Fail
      else if rest[0] == CLOSE_BRACE then Got([m], rest[1..])
      else if rest[0] == COMMA then
        match ReadSomeMembers(rest[1..])
        case Fail => Fail
        case Got(ms, after) => Got([m] + ms, after)
      else Fail
  }

  /** Reading a canonical text gives the value it was written from, absent values
      as null and the members of each object in the order of their keys. */
  lemma {:induction false} ReadCanonical(v: Json, r: Text)
    requires Delimits(r)
    ensures ReadValue(Canonicalize(v) + r) == Got(Normal(v), r)
    decreases v, 2
  {
    var t := Canonicalize(v) + r;
    CanonicalStart(v);
    assert t[0] == Canonicalize(v)[0];
    match v
    case Num(n) => NumberStart(t); ReadIntText(n, r);
    case Str(s) => ReadQuote(s, r);
    case Arr(es) =>
      ArrayText(v, r);
      ReadCanonicalElements(v, es, r);
    case Obj(_) =>
      ObjectText(v, r);
      ReadCanonicalMembers(v, SortedMembers(v), r);
    case _ =>
      assert t[..|Canonicalize(v)|] == Canonicalize(v) && t[|Canonicalize(v)|..] == r;
      LiteralStart(t);
  }

  lemma NumberStart(t: Text)
    requires t != [] && (t[0] == MINUS || IsDigit(t[0]))
    ensures !Begins(t, NULL_TEXT) && !Begins(t, TRUE_TEXT) && !Begins(t, FALSE_TEXT)
  {
  }

  lemma LiteralStart(t: Text)
    ensures Begins(t, TRUE_TEXT) ==> !Begins(t, NULL_TEXT)
    ensures Begins(t, FALSE_TEXT) ==> !Begins(t, NULL_TEXT) && !Begins(t, TRUE_TEXT)
  {
  }

  lemma {:induction false} ReadCanonicalElements(v: Json, es: seq<Json>, r: Text)
    requires forall i :: 0 <= i < |es| ==> es[i] < v
    ensures ReadElements(Join(CanonicalizeEach(v, es)) + ([CLOSE_BRACKET] + r)) == Got(NormalEach(v, es), r)
    decreases v, 1, |es|, 1
  {
    hide ReadSomeElements, NormalEach;
    ElementsStart(v, es, r);
    if es == [] {
      EmptyList(CLOSE_BRACKET, r);
      assert NormalEach(v, es) == [];
    } else {
      ReadCanonicalSome(v, es, r);
    }
  }

  lemma EmptyList(close: Unit, r: Text)
    ensures Join([]) + ([close] + r) == [close] + r
    ensures ([close] + r)[1..] == r
  {
  }

  lemma {:induction false} ReadCanonicalSome(v: Json, es: seq<Json>, r: Text)
    requires es != [] && forall i :: 0 <= i < |es| ==> es[i] < v
    ensures ReadSomeElements(Join(CanonicalizeEach(v, es)) + ([CLOSE_BRACKET] + r)) == Got(NormalEach(v, es), r)
    decreases v, 1, |es|, 0
  {
    hide Canonicalize, Normal, ReadValue, Join;
    var a := CanonicalizeEach(v, es);
    var rest := JoinedRest(a, CLOSE_BRACKET, r);
    JoinUnfold(a, CLOSE_BRACKET, r);
    ReadCanonical(es[0], rest);
    RestParts(a, CLOSE_BRACKET, r);
    assert NormalEach(v, es) == [Normal(es[0])] + NormalEach(v, es[1..]);
    assert a[1..] == CanonicalizeEach(v, es[1..]);
    if |es| > 1 {
      ReadCanonicalSome(v, es[1..], r);
    } else {
      assert NormalEach(v, es) == [Normal(es[0])];
    }
  }

  lemma RestParts(a: seq<Text>, close: Unit, r: Text)
    requires a != [] && close != COMMA
    ensures var rest := JoinedRest(a, close, r);
            && rest != []
            && rest[0] == (if |a| == 1 then close else COMMA)
            && rest[1..] == if |a| == 1 then r else Join(a[1..]) + ([close] + r)
  {
  }

  lemma {:induction false} ReadCanonicalMembers(v: Json, ms: seq<Member>, r: Text)
    requires forall i :: 0 <= i < |ms| ==> ms[i].val < v
    ensures ReadMembers(Join(CanonicalizeMembers(v, ms)) + ([CLOSE_BRACE] + r)) == Got(NormalMembers(v, ms), r)
    decreases v, 1, |ms|, 1
  {
    hide ReadSomeMembers, NormalMembers;
    MembersStart(v, ms, r);
    if ms == [] {
      EmptyList(CLOSE_BRACE, r);
      assert NormalMembers(v, ms) == [];
    } else {
      ReadCanonicalSomeMembers(v, ms, r);
    }
  }

  lemma {:induction false} ReadCanonicalSomeMembers(v: Json, ms: seq<Member>, r: Text)
    requires ms != [] && forall i :: 0 <= i < |ms| ==> ms[i].val < v
    ensures ReadSomeMembers(Join(CanonicalizeMembers(v, ms)) + ([CLOSE_BRACE] + r)) == Got(NormalMembers(v, ms), r)
    decreases v, 1, |ms|, 0
  {
    hide Canonicalize, Normal, MemberText, ReadMember, Join;
    var a := CanonicalizeMembers(v, ms);
    var rest := JoinedRest(a, CLOSE_BRACE, r);
    JoinUnfold(a, CLOSE_BRACE, r);
    RestParts(a, CLOSE_BRACE, r);
    ReadCanonical(ms[0].val, rest);
    ReadMemberText(ms[0], Normal(ms[0].val), rest);
    assert NormalMembers(v, ms) == [Member(ms[0].key, Normal(ms[0].val))] + NormalMembers(v, ms[1..]);
    assert a[1..] == CanonicalizeMembers(v, ms[1..]);
    if |ms| > 1 {
      ReadCanonicalSomeMembers(v, ms[1..], r);
    } else {
      assert NormalMembers(v, ms) == [Member(ms[0].key, Normal(ms[0].val))];
    }
  }

  lemma ReadMemberText(m: Member, val: Json, r: Text)
    requires ReadValue(Canonicalize(m.val) + r) == Got(val, r)
    ensures ReadMember(MemberText(m.key, Canonicalize(m.val)) + r) == Got(Member(m.key, val), r)
  {
    hide ReadValue, ReadString, Canonicalize, Quote;
    var after := [COLON] + (Canonicalize(m.val) + r);
    MemberTextSplit(m.key, Canonicalize(m.val), r);
    ReadQuote(m.key, after);
    assert after[1..] == Canonicalize(m.val) + r;
  }

  // ---------------------------------------------------------------------
  // What the reader gives is the value

  /** At every depth the members of an object stand in ascending order of keys. */
  ghost predicate KeysAscend(v: Json) {
    match v
    case Arr(es) => forall i :: 0 <= i < |es| ==> KeysAscend(es[i])
    case Obj(ms) => Ascending(Keys(ms)) && forall i :: 0 <= i < |ms| ==> KeysAscend(ms[i].val)
    case _ => true
  }

  lemma {:induction false} NormalExact(v: Json)
    requires WellFormed(v)
    ensures Equivalent(Normal(v), v) && KeysAscend(Normal(v))
  {
    hide Less, Ascending;
    match v
    case Arr(es) =>
      forall i | 0 <= i < |es|
        ensures Equivalent(Normal(es[i]), es[i]) && KeysAscend(Normal(es[i]))
      {
        NormalExact(es[i]);
      }
    case Obj(ms) =>
      forall i | 0 <= i < |ms|
        ensures Equivalent(Normal(ms[i].val), ms[i].val) && KeysAscend(Normal(ms[i].val))
      {
        NormalExact(ms[i].val);
      }
      NormalObjectExact(v);
    case _ =>
  }

  lemma NormalObjectExact(v: Json)
    requires v.Obj? && DistinctKeys(v.ms)
    requires forall i :: 0 <= i < |v.ms| ==>
                           Equivalent(Normal(v.ms[i].val), v.ms[i].val) && KeysAscend(Normal(v.ms[i].val))
    ensures Equivalent(Normal(v), v) && KeysAscend(Normal(v))
  {
    var s := SortedMembers(v);
    var r := NormalMembers(v, s);
    SortAscending(v.ms);
    KeysOfPermutation(v.ms, s);
    assert s == SortByKey(v.ms) && Keys(r) == Keys(s) && Normal(v) == Obj(r);
    hide Less, Ascending, SortedMembers, NormalMembers, SortByKey, Normal, Keys;
    forall i | 0 <= i < |r|
      ensures r[i].key == s[i].key && s[i] in v.ms && KeysAscend(r[i].val)
    {
      assert s[i] in v.ms;
    }
    MembersEquivalent(v, s, r);
  }

  lemma MembersEquivalent(v: Json, s: seq<Member>, r: seq<Member>)
    requires v.Obj? && DistinctKeys(v.ms) && |r| == |s|
    requires forall k :: k in Keys(r) <==> k in Keys(v.ms)
    requires forall i :: 0 <= i < |v.ms| ==> Equivalent(Normal(v.ms[i].val), v.ms[i].val)
    requires forall i :: 0 <= i < |r| ==> s[i] in v.ms && r[i] == Member(s[i].key, Normal(s[i].val))
    ensures Equivalent(Obj(r), v)
  {
    hide Keys, Normal;
    forall i, j | 0 <= i < |r| && 0 <= j < |v.ms| && r[i].key == v.ms[j].key
      ensures Equivalent(r[i].val, v.ms[j].val)
    {
      var k :| 0 <= k < |v.ms| && v.ms[k] == s[i];
      assert k == j;
    }
  }

  /** The canonical text is JSON that stands for the value: the reader takes all
      of it and gives the same value up to the order of members, with the members
      of every object in ascending order of their keys. */
  lemma CanonicalReadsBack(v: Json)
    requires WellFormed(v)
    ensures var r := ReadValue(Canonicalize(v));
            r.Got? && r.rest == [] && Equivalent(r.value, v) && KeysAscend(r.value)
  {
    ReadCanonical(v, []);
    assert Canonicalize(v) + [] == Canonicalize(v);
    NormalExact(v);
  }
}
