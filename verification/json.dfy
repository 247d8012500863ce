/** JSON values and the deterministic serializer that the evidence ledger hashes:
    two values give the same text exactly when they are the same value up to the
    order of object members. */
module Json {
  import opened CodeUnits
  import opened JsonText

  /** A JavaScript value made of JSON values and `undefined`. */
  datatype Json =
    | Undefined
    | Null
    | Bool(b: bool)
    | Num(n: int)
    | Str(s: Text)
    | Arr(es: seq<Json>)
    | Obj(ms: seq<Member>)

  /** One property; an object lists its properties in insertion order. */
  datatype Member = Member(key: Text, val: Json)

  function Keys(ms: seq<Member>): (keys: seq<Text>)
    ensures |keys| == |ms| && forall i :: 0 <= i < |ms| ==> keys[i] == ms[i].key
  {
    seq(|ms|, i requires 0 <= i < |ms| => ms[i].key)
  }

  /** Within one object no key occurs twice. */
  ghost predicate DistinctKeys(ms: seq<Member>) {
    forall i, j :: 0 <= i < j < |ms| ==> ms[i].key != ms[j].key
  }

  /** Every object in the value has distinct keys, as every JavaScript object does. */
  ghost predicate WellFormed(v: Json) {
    match v
    case Arr(es) => forall i :: 0 <= i < |es| ==> WellFormed(es[i])
    case Obj(ms) => DistinctKeys(ms) && forall i :: 0 <= i < |ms| ==> WellFormed(ms[i].val)
    case _ => true
  }

  // ---------------------------------------------------------------------
  // Sorting members by key

  function Insert(m: Member, ms: seq<Member>): (r: seq<Member>)
    ensures |r| == |ms| + 1
    ensures forall x :: x in r <==> x == m || x in ms
  {
    if ms == [] then [m]
    else if Less(ms[0].key, m.key) then
      assert ms == [ms[0]] + ms[1..];
      [ms[0]] + Insert(m, ms[1..])
    else [m] + ms
  }

  function SortByKey(ms: seq<Member>): (r: seq<Member>)
    ensures |r| == |ms|
    ensures forall x :: x in r <==> x in ms
  {
    if ms == [] then []
    else
      assert ms == [ms[0]] + ms[1..];
      Insert(ms[0], SortByKey(ms[1..]))
  }

  /** The members of an object in the order of their sorted keys. */
  function SortedMembers(v: Json): (r: seq<Member>)
    requires v.Obj?
    ensures |r| == |v.ms| && forall x :: x in r <==> x in v.ms
    ensures forall i :: 0 <= i < |r| ==> r[i].val < v
  {
    var r := SortByKey(v.ms);
    assert forall i :: 0 <= i < |r| ==> r[i].val < v by {
      forall i | 0 <= i < |r|
        ensures r[i].val < v
      {
        assert r[i] in v.ms;
        var j :| 0 <= j < |v.ms| && v.ms[j] == r[i];
      }
    }
    r
  }

  lemma KeysCons(m: Member, ms: seq<Member>)
    ensures Keys([m] + ms) == [m.key] + Keys(ms)
  {
  }

  lemma {:induction false} InsertKeepsAscending(m: Member, ms: seq<Member>)
    requires Ascending(Keys(ms))
    requires forall x :: x in ms ==> x.key != m.key
    ensures Ascending(Keys(Insert(m, ms)))
  {
    KeysCons(m, ms);
    hide Less;
    if ms != [] {
      var first, rest := ms[0], ms[1..];
      KeysCons(first, rest);
      assert ms == [first] + rest;
      assert Keys(ms)[1..] == Keys(rest);
      AscendingTail(Keys(ms));
      LessTotal(first.key, m.key);
      if Less(first.key, m.key) {
        InsertKeepsAscending(m, rest);
        KeysCons(first, Insert(m, rest));
        AllKeysAbove(first.key, m, rest);
        AscendingCons(first.key, Keys(Insert(m, rest)));
      } else {
        BelowFirstIsBelowAll(m.key, Keys(ms));
        AscendingCons(m.key, Keys(ms));
      }
    }
  }

  lemma AllKeysAbove(k: Text, m: Member, ms: seq<Member>)
    requires Less(k, m.key) && forall j :: 0 <= j < |ms| ==> Less(k, Keys(ms)[j])
    ensures forall j :: 0 <= j < |ms| + 1 ==> Less(k, Keys(Insert(m, ms))[j])
  {
    hide Less;
    forall j | 0 <= j < |ms| + 1
      ensures Less(k, Keys(Insert(m, ms))[j])
    {
      var x := Insert(m, ms)[j];
      assert x in Insert(m, ms);
      if x != m {
        var i :| 0 <= i < |ms| && ms[i] == x;
        assert Keys(ms)[i] == x.key;
      }
    }
  }

  lemma BelowFirstIsBelowAll(k: Text, keys: seq<Text>)
    requires Ascending(keys) && keys != [] && Less(k, keys[0])
    ensures forall j :: 0 <= j < |keys| ==> Less(k, keys[j])
  {
    hide Less;
    forall j | 0 < j < |keys|
      ensures Less(k, keys[j])
    {
      LessTransitive(k, keys[0], keys[j]);
    }
  }

  lemma {:induction false} SortAscending(ms: seq<Member>)
    requires DistinctKeys(ms)
    ensures Ascending(Keys(SortByKey(ms)))
  {
    if ms != [] {
      SortAscending(ms[1..]);
      InsertKeepsAscending(ms[0], SortByKey(ms[1..]));
    }
  }

  // ---------------------------------------------------------------------
  // The serializer

  function Join(ts: seq<Text>): Text {
    if ts == [] then [] else if |ts| == 1 then ts[0] else ts[0] + [COMMA] + Join(ts[1..])
  }

  /** Deterministic JSON text: members sorted by key at every depth. */
  function Canonicalize(v: Json): Text
    decreases v, 2
  {
    match v
    case Undefined => NULL_TEXT
    case Null => NULL_TEXT
    case Bool(b) => if b then TRUE_TEXT else FALSE_TEXT
    case Num(n) => IntText(n)
    case Str(s) => Quote(s)
    case Arr(es) => [OPEN_BRACKET] + Join(CanonicalizeEach(v, es)) + [CLOSE_BRACKET]
    case Obj(ms) => [OPEN_BRACE] + Join(CanonicalizeMembers(v, SortedMembers(v))) + [CLOSE_BRACE]
  }

  function CanonicalizeEach(v: Json, es: seq<Json>): (ts: seq<Text>)
    requires forall i :: 0 <= i < |es| ==> es[i] < v
    ensures |ts| == |es|
    decreases v, 1, |es|
  {
    if es == [] then [] else [Canonicalize(es[0])] + CanonicalizeEach(v, es[1..])
  }

  function CanonicalizeMembers(v: Json, ms: seq<Member>): (ts: seq<Text>)
    requires forall i :: 0 <= i < |ms| ==> ms[i].val < v
    ensures |ts| == |ms|
    decreases v, 1, |ms|
  {
    if ms == [] then [] else [MemberText(ms[0].key, Canonicalize(ms[0].val))] + CanonicalizeMembers(v, ms[1..])
  }

  function MemberText(key: Text, val: Text): Text {
    Quote(key) + [COLON] + val
  }

  // ---------------------------------------------------------------------
  // Equality up to the order of members

  /** The same value up to the order of object members, an absent value
      (`undefined`) being the same as null. */
  ghost predicate Equivalent(v: Json, w: Json) {
    match v
    case Undefined => w.Undefined? || w.Null?
    case Null => w.Undefined? || w.Null?
    case Arr(es) =>
      && w.Arr? && |es| == |w.es|
      && forall i :: 0 <= i < |es| ==> Equivalent(es[i], w.es[i])
    case Obj(ms) =>
      && w.Obj?
      && (forall k :: k in Keys(ms) <==> k in Keys(w.ms))
      && forall i, j :: 0 <= i < |ms| && 0 <= j < |w.ms| && ms[i].key == w.ms[j].key ==>
                          Equivalent(ms[i].val, w.ms[j].val)
    case _ => v == w
  }

  /** The representative of a value: null for absent, members in key order. */
  function Normal(v: Json): Json
    decreases v, 2
  {
    match v
    case Undefined => Null
    case Arr(es) => Arr(NormalEach(v, es))
    case Obj(ms) => Obj(NormalMembers(v, SortedMembers(v)))
    case _ => v
  }

  function NormalEach(v: Json, es: seq<Json>): (r: seq<Json>)
    requires forall i :: 0 <= i < |es| ==> es[i] < v
    ensures |r| == |es| && forall i :: 0 <= i < |es| ==> r[i] == Normal(es[i])
    decreases v, 1, |es|
  {
    if es == [] then [] else [Normal(es[0])] + NormalEach(v, es[1..])
  }

  function NormalMembers(v: Json, ms: seq<Member>): (r: seq<Member>)
    requires forall i :: 0 <= i < |ms| ==> ms[i].val < v
    ensures |r| == |ms| && forall i :: 0 <= i < |ms| ==> r[i] == Member(ms[i].key, Normal(ms[i].val))
    decreases v, 1, |ms|
  {
    if ms == [] then [] else [Member(ms[0].key, Normal(ms[0].val))] + NormalMembers(v, ms[1..])
  }

  lemma {:induction false} NormalIffEquivalent(v: Json, w: Json)
    requires WellFormed(v) && WellFormed(w)
    ensures Normal(v) == Normal(w) <==> Equivalent(v, w)
    decreases v
  {
    if v.Arr? && w.Arr? {
      forall i | 0 <= i < |v.es| && i < |w.es|
        ensures Normal(v.es[i]) == Normal(w.es[i]) <==> Equivalent(v.es[i], w.es[i])
      {
        NormalIffEquivalent(v.es[i], w.es[i]);
      }
      NormalArrays(v, w);
    } else if v.Obj? && w.Obj? {
      forall i, j | 0 <= i < |v.ms| && 0 <= j < |w.ms|
        ensures Normal(v.ms[i].val) == Normal(w.ms[j].val) <==> Equivalent(v.ms[i].val, w.ms[j].val)
      {
        NormalIffEquivalent(v.ms[i].val, w.ms[j].val);
      }
      NormalObjects(v, w);
    }
  }

  lemma NormalArrays(v: Json, w: Json)
    requires v.Arr? && w.Arr?
    ensures Normal(v) == Normal(w) <==>
            |v.es| == |w.es| && forall i :: 0 <= i < |v.es| ==> Normal(v.es[i]) == Normal(w.es[i])
  {
    var a, b := NormalEach(v, v.es), NormalEach(w, w.es);
    if a == b {
      forall i | 0 <= i < |v.es|
        ensures Normal(v.es[i]) == Normal(w.es[i])
      {
        assert a[i] == b[i];
      }
    }
  }

  /** Two objects with distinct keys have one representative exactly when they
      have the same keys with values of one representative under each. */
  lemma NormalObjects(v: Json, w: Json)
    requires v.Obj? && w.Obj? && DistinctKeys(v.ms) && DistinctKeys(w.ms)
    ensures Normal(v) == Normal(w) <==>
            && (forall k :: k in Keys(v.ms) <==> k in Keys(w.ms))
            && forall i, j :: 0 <= i < |v.ms| && 0 <= j < |w.ms| && v.ms[i].key == w.ms[j].key ==>
                                Normal(v.ms[i].val) == Normal(w.ms[j].val)
  {
    var a, b := SortedMembers(v), SortedMembers(w);
    SortAscending(v.ms);
    SortAscending(w.ms);
    KeysOfPermutation(v.ms, a);
    KeysOfPermutation(w.ms, b);
    assert Normal(v) == Normal(w) <==> NormalMembers(v, a) == NormalMembers(w, b);
    hide Less, Ascending, SortedMembers, Normal;
    if NormalMembers(v, a) == NormalMembers(w, b) {
      SameNormalMembers(v, w, a, b);
    }
    if && (forall k :: k in Keys(v.ms) <==> k in Keys(w.ms))
       && forall i, j :: 0 <= i < |v.ms| && 0 <= j < |w.ms| && v.ms[i].key == w.ms[j].key ==>
                           Normal(v.ms[i].val) == Normal(w.ms[j].val)
    {
      MatchingMembers(v, w, a, b);
    }
  }

  /** Members that give one representative agree key by key. */
  lemma SameNormalMembers(v: Json, w: Json, a: seq<Member>, b: seq<Member>)
    requires v.Obj? && w.Obj? && a == SortedMembers(v) && b == SortedMembers(w)
    requires Ascending(Keys(a)) && NormalMembers(v, a) == NormalMembers(w, b)
    ensures Keys(a) == Keys(b)
    ensures forall i, j :: 0 <= i < |v.ms| && 0 <= j < |w.ms| && v.ms[i].key == w.ms[j].key ==>
                             Normal(v.ms[i].val) == Normal(w.ms[j].val)
  {
    hide Less, Ascending, SortedMembers, Normal;
    var x, y := NormalMembers(v, a), NormalMembers(w, b);
    assert forall i :: 0 <= i < |a| ==> x[i] == y[i];
    assert Keys(a) == Keys(b);
    forall i, j | 0 <= i < |v.ms| && 0 <= j < |w.ms| && v.ms[i].key == w.ms[j].key
      ensures Normal(v.ms[i].val) == Normal(w.ms[j].val)
    {
      assert v.ms[i] in a && w.ms[j] in b;
      var m :| 0 <= m < |a| && a[m] == v.ms[i];
      var n :| 0 <= n < |b| && b[n] == w.ms[j];
      AscendingInjective(Keys(a), m, n);
    }
  }

  /** Members that agree key by key give one representative. */
  lemma MatchingMembers(v: Json, w: Json, a: seq<Member>, b: seq<Member>)
    requires v.Obj? && w.Obj? && a == SortedMembers(v) && b == SortedMembers(w)
    requires Ascending(Keys(a)) && Ascending(Keys(b)) && forall k :: k in Keys(a) <==> k in Keys(b)
    requires forall i, j :: 0 <= i < |v.ms| && 0 <= j < |w.ms| && v.ms[i].key == w.ms[j].key ==>
                              Normal(v.ms[i].val) == Normal(w.ms[j].val)
    ensures NormalMembers(v, a) == NormalMembers(w, b)
  {
    hide Less, Ascending, SortedMembers, Normal;
    var x, y := NormalMembers(v, a), NormalMembers(w, b);
    AscendingUnique(Keys(a), Keys(b));
    assert |a| == |Keys(a)| == |Keys(b)| == |b|;
    forall i | 0 <= i < |a|
      ensures x[i] == y[i]
    {
      assert Keys(a)[i] == Keys(b)[i];
      assert a[i] in v.ms && b[i] in w.ms;
    }
    assert x == y;
  }

  lemma KeysOfPermutation(ms: seq<Member>, r: seq<Member>)
    requires forall x :: x in r <==> x in ms
    ensures forall k :: k in Keys(r) <==> k in Keys(ms)
  {
    forall k | k in Keys(ms)
      ensures k in Keys(r)
    {
      var i :| 0 <= i < |ms| && Keys(ms)[i] == k;
      assert ms[i] in r;
      var j :| 0 <= j < |r| && r[j] == ms[i];
      assert Keys(r)[j] == k;
    }
    forall k | k in Keys(r)
      ensures k in Keys(ms)
    {
      var i :| 0 <= i < |r| && Keys(r)[i] == k;
      assert r[i] in ms;
      var j :| 0 <= j < |ms| && ms[j] == r[i];
      assert Keys(ms)[j] == k;
    }
  }

  lemma AscendingInjective(keys: seq<Text>, i: nat, j: nat)
    requires Ascending(keys) && i < |keys| && j < |keys| && keys[i] == keys[j]
    ensures i == j
  {
    LessIrreflexive(keys[i]);
  }

  // ---------------------------------------------------------------------
  // The text determines the value

  /** What can follow a value inside a larger text. */
  predicate Delimits(r: Text) {
    r == [] || r[0] in {COMMA, CLOSE_BRACKET, CLOSE_BRACE}
  }

  /** The first unit of a text tells which kind of value it writes. */
  lemma CanonicalStart(v: Json)
    ensures Canonicalize(v) != []
    ensures var u := Canonicalize(v)[0];
            match v
            case Undefined => u == 0x6E
            case Null => u == 0x6E
            case Bool(b) => u == if b then 0x74 else 0x66
            case Num(n) => u == MINUS || IsDigit(u)
            case Str(_) => u == QUOTE
            case Arr(_) => u == OPEN_BRACKET
            case Obj(_) => u == OPEN_BRACE
  {
  }

  lemma {:induction false} CanonicalPrefix(v: Json, w: Json, r: Text, q: Text)
    requires Canonicalize(v) + r == Canonicalize(w) + q
    requires Delimits(r) && Delimits(q)
    ensures Normal(v) == Normal(w) && r == q
    decreases v, 2
  {
    CanonicalStart(v);
    CanonicalStart(w);
    assert Canonicalize(v)[0] == (Canonicalize(v) + r)[0] == (Canonicalize(w) + q)[0] == Canonicalize(w)[0];
    match v
    case Num(m) => IntTextPrefix(m, w.n, r, q);
    case Str(s) => QuotePrefix(s, w.s, r, q);
    case Arr(es) =>
      ArrayText(v, r);
      ArrayText(w, q);
      ElementsPrefix(v, es, w, w.es, r, q);
    case Obj(_) =>
      ObjectText(v, r);
      ObjectText(w, q);
      MembersPrefix(v, SortedMembers(v), w, SortedMembers(w), r, q);
    case _ => SplitAt(Canonicalize(v), r, Canonicalize(w), q);
  }

  lemma ArrayText(v: Json, r: Text)
    requires v.Arr?
    ensures (Canonicalize(v) + r)[1..] == Join(CanonicalizeEach(v, v.es)) + ([CLOSE_BRACKET] + r)
  {
  }

  lemma ObjectText(v: Json, r: Text)
    requires v.Obj?
    ensures (Canonicalize(v) + r)[1..] == Join(CanonicalizeMembers(v, SortedMembers(v))) + ([CLOSE_BRACE] + r)
  {
  }

  lemma IntTextPrefix(m: int, n: int, r: Text, q: Text)
    requires IntText(m) + r == IntText(n) + q && Delimits(r) && Delimits(q)
    ensures m == n && r == q
  {
    IntTextSplit(m, r);
    IntTextSplit(n, q);
    if m < 0 {
      NatTextPrefix(-m, -n, r, q);
    } else {
      NatTextPrefix(m, n, r, q);
    }
  }

  lemma IntTextSplit(n: int, r: Text)
    ensures (IntText(n) + r)[0] == MINUS <==> n < 0
    ensures n < 0 ==> (IntText(n) + r)[1..] == NatText(-n) + r
  {
  }

  /** The rest of a joined list after its first text. */
  function JoinedRest(ts: seq<Text>, close: Unit, r: Text): Text
    requires ts != []
  {
    if |ts| == 1 then [close] + r else [COMMA] + (Join(ts[1..]) + ([close] + r))
  }

  lemma JoinUnfold(ts: seq<Text>, close: Unit, r: Text)
    requires ts != []
    ensures Join(ts) + ([close] + r) == ts[0] + JoinedRest(ts, close, r)
  {
  }

  lemma {:induction false} ElementsPrefix(v: Json, es: seq<Json>, w: Json, fs: seq<Json>, r: Text, q: Text)
    requires forall i :: 0 <= i < |es| ==> es[i] < v
    requires forall i :: 0 <= i < |fs| ==> fs[i] < w
    requires Join(CanonicalizeEach(v, es)) + ([CLOSE_BRACKET] + r) ==
             Join(CanonicalizeEach(w, fs)) + ([CLOSE_BRACKET] + q)
    ensures NormalEach(v, es) == NormalEach(w, fs) && r == q
    decreases v, 1, |es|
  {
    hide Canonicalize;
    var a, b := CanonicalizeEach(v, es), CanonicalizeEach(w, fs);
    ElementsStart(v, es, r);
    ElementsStart(w, fs, q);
    if es == [] {
      assert r == (Join(a) + ([CLOSE_BRACKET] + r))[1..] && q == (Join(b) + ([CLOSE_BRACKET] + q))[1..];
    } else {
      JoinUnfold(a, CLOSE_BRACKET, r);
      JoinUnfold(b, CLOSE_BRACKET, q);
      CanonicalPrefix(es[0], fs[0], JoinedRest(a, CLOSE_BRACKET, r), JoinedRest(b, CLOSE_BRACKET, q));
      RestsAgree(a, b, CLOSE_BRACKET, r, q);
      if |es| > 1 {
        ElementsPrefix(v, es[1..], w, fs[1..], r, q);
      }
      assert NormalEach(v, es) == [Normal(es[0])] + NormalEach(v, es[1..]);
      assert NormalEach(w, fs) == [Normal(fs[0])] + NormalEach(w, fs[1..]);
    }
  }

  lemma ElementsStart(v: Json, es: seq<Json>, r: Text)
    requires forall i :: 0 <= i < |es| ==> es[i] < v
    ensures (Join(CanonicalizeEach(v, es)) + ([CLOSE_BRACKET] + r))[0] == CLOSE_BRACKET <==> es == []
  {
    if es != [] {
      CanonicalStart(es[0]);
      JoinUnfold(CanonicalizeEach(v, es), CLOSE_BRACKET, r);
    }
  }

  /** After equal first texts, both lists go on or both end. */
  lemma RestsAgree(a: seq<Text>, b: seq<Text>, close: Unit, r: Text, q: Text)
    requires a != [] && b != [] && close != COMMA
    requires JoinedRest(a, close, r) == JoinedRest(b, close, q)
    ensures |a| == 1 <==> |b| == 1
    ensures |a| == 1 ==> r == q
    ensures |a| > 1 ==> Join(a[1..]) + ([close] + r) == Join(b[1..]) + ([close] + q)
  {
    var x, y := JoinedRest(a, close, r), JoinedRest(b, close, q);
    assert x[0] == y[0];
    assert x[1..] == if |a| == 1 then r else Join(a[1..]) + ([close] + r);
    assert y[1..] == if |b| == 1 then q else Join(b[1..]) + ([close] + q);
  }

  lemma {:induction false} MembersPrefix(v: Json, ms: seq<Member>, w: Json, ns: seq<Member>, r: Text, q: Text)
    requires forall i :: 0 <= i < |ms| ==> ms[i].val < v
    requires forall i :: 0 <= i < |ns| ==> ns[i].val < w
    requires Join(CanonicalizeMembers(v, ms)) + ([CLOSE_BRACE] + r) ==
             Join(CanonicalizeMembers(w, ns)) + ([CLOSE_BRACE] + q)
    ensures NormalMembers(v, ms) == NormalMembers(w, ns) && r == q
    decreases v, 1, |ms|
  {
    hide MemberText, Canonicalize, Normal;
    var a, b := CanonicalizeMembers(v, ms), CanonicalizeMembers(w, ns);
    MembersStart(v, ms, r);
    MembersStart(w, ns, q);
    if ms == [] {
      assert r == (Join(a) + ([CLOSE_BRACE] + r))[1..] && q == (Join(b) + ([CLOSE_BRACE] + q))[1..];
    } else {
      var r', q' := JoinedRest(a, CLOSE_BRACE, r), JoinedRest(b, CLOSE_BRACE, q);
      JoinUnfold(a, CLOSE_BRACE, r);
      JoinUnfold(b, CLOSE_BRACE, q);
      MemberPrefix(ms[0], ns[0], r', q');
      CanonicalPrefix(ms[0].val, ns[0].val, r', q');
      RestsAgree(a, b, CLOSE_BRACE, r, q);
      if |ms| > 1 {
        MembersPrefix(v, ms[1..], w, ns[1..], r, q);
      }
      assert NormalMembers(v, ms) == [Member(ms[0].key, Normal(ms[0].val))] + NormalMembers(v, ms[1..]);
      assert NormalMembers(w, ns) == [Member(ns[0].key, Normal(ns[0].val))] + NormalMembers(w, ns[1..]);
    }
  }

  lemma MemberPrefix(m: Member, n: Member, r: Text, q: Text)
    requires MemberText(m.key, Canonicalize(m.val)) + r == MemberText(n.key, Canonicalize(n.val)) + q
    ensures m.key == n.key && Canonicalize(m.val) + r == Canonicalize(n.val) + q
  {
    var x, y := [COLON] + (Canonicalize(m.val) + r), [COLON] + (Canonicalize(n.val) + q);
    MemberTextSplit(m.key, Canonicalize(m.val), r);
    MemberTextSplit(n.key, Canonicalize(n.val), q);
    QuotePrefix(m.key, n.key, x, y);
    assert x[1..] == Canonicalize(m.val) + r && y[1..] == Canonicalize(n.val) + q;
  }

  lemma MemberTextSplit(key: Text, val: Text, r: Text)
    ensures MemberText(key, val) + r == Quote(key) + ([COLON] + (val + r))
  {
  }

  lemma MembersStart(v: Json, ms: seq<Member>, r: Text)
    requires forall i :: 0 <= i < |ms| ==> ms[i].val < v
    ensures (Join(CanonicalizeMembers(v, ms)) + ([CLOSE_BRACE] + r))[0] == CLOSE_BRACE <==> ms == []
  {
    if ms != [] {
      JoinUnfold(CanonicalizeMembers(v, ms), CLOSE_BRACE, r);
    }
  }

  lemma {:induction false} CanonicalOfNormal(v: Json, w: Json)
    requires Normal(v) == Normal(w)
    ensures Canonicalize(v) == Canonicalize(w)
    decreases v, 2
  {
    if v.Arr? {
      CanonicalElements(v, v.es, w, w.es);
    } else if v.Obj? {
      CanonicalMembers(v, SortedMembers(v), w, SortedMembers(w));
    }
  }

  lemma {:induction false} CanonicalElements(v: Json, es: seq<Json>, w: Json, fs: seq<Json>)
    requires forall i :: 0 <= i < |es| ==> es[i] < v
    requires forall i :: 0 <= i < |fs| ==> fs[i] < w
    requires NormalEach(v, es) == NormalEach(w, fs)
    ensures CanonicalizeEach(v, es) == CanonicalizeEach(w, fs)
    decreases v, 1, |es|
  {
    assert |es| == |NormalEach(v, es)| == |fs|;
    if es != [] {
      assert NormalEach(v, es)[0] == NormalEach(w, fs)[0];
      CanonicalOfNormal(es[0], fs[0]);
      assert NormalEach(v, es)[1..] == NormalEach(v, es[1..]) && NormalEach(w, fs)[1..] == NormalEach(w, fs[1..]);
      CanonicalElements(v, es[1..], w, fs[1..]);
    }
  }

  lemma {:induction false} CanonicalMembers(v: Json, ms: seq<Member>, w: Json, ns: seq<Member>)
    requires forall i :: 0 <= i < |ms| ==> ms[i].val < v
    requires forall i :: 0 <= i < |ns| ==> ns[i].val < w
    requires NormalMembers(v, ms) == NormalMembers(w, ns)
    ensures CanonicalizeMembers(v, ms) == CanonicalizeMembers(w, ns)
    decreases v, 1, |ms|
  {
    assert |ms| == |NormalMembers(v, ms)| == |ns|;
    if ms != [] {
      assert NormalMembers(v, ms)[0] == NormalMembers(w, ns)[0];
      CanonicalOfNormal(ms[0].val, ns[0].val);
      assert NormalMembers(v, ms)[1..] == NormalMembers(v, ms[1..]);
      assert NormalMembers(w, ns)[1..] == NormalMembers(w, ns[1..]);
      CanonicalMembers(v, ms[1..], w, ns[1..]);
    }
  }

  /** Unambiguous and order-free: one text means one value, up to member order. */
  lemma CanonicalizeUnambiguous(v: Json, w: Json)
    requires WellFormed(v) && WellFormed(w)
    ensures Canonicalize(v) == Canonicalize(w) <==> Equivalent(v, w)
  {
    NormalIffEquivalent(v, w);
    if Canonicalize(v) == Canonicalize(w) {
      assert Canonicalize(v) + [] == Canonicalize(w) + [];
      CanonicalPrefix(v, w, [], []);
    }
    if Normal(v) == Normal(w) {
      CanonicalOfNormal(v, w);
    }
  }
}
