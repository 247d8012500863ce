/** The hash chain of the evidence ledger. SHA-256 is a parameter: any function
    from texts to base64 digests. Tamper evidence is therefore stated as a
    reduction that names two different texts with one digest. */
module EvidenceChain {
  import opened Options
  import opened CodeUnits
  import opened JsonText
  import opened Json
  import opened JsonReader

  predicate IsBase64(u: Unit) {
    0x41 <= u <= 0x5A || 0x61 <= u <= 0x7A || IsDigit(u) || u == 0x2B || u == 0x2F || u == 0x3D
  }

  /** The base64 text of 32 bytes. */
  type Digest = t: Text | IsDigest(t) witness GenesisText()

  predicate IsDigest(t: Text) {
    |t| == 44 && forall i :: 0 <= i < |t| ==> IsBase64(t[i])
  }

  type HashFunction = Text -> Digest

  /** Base64 of 32 zero bytes: 43 times `A` and `=`. */
  function GenesisText(): (t: Text)
    ensures IsDigest(t)
  {
    seq(43, i => 0x41) + [0x3D]
  }

  const GENESIS_PREV_HASH: Digest := GenesisText()

  const DOT: Unit := 0x2E

  /** The fields of a record that its payload hash protects. */
  datatype Core = Core(id: Json, typ: Json, data: Json, createdAt: Json)

  /** A stored record. A field that the file lacks is `Undefined`; `extra` holds
      every other property. */
  datatype Record = Record(
    core: Core,
    seqNo: Json,
    payloadHash: Json,
    prevHash: Json,
    hash: Json,
    migrated: bool,
    extra: seq<Member>)

  const ID: Text := [0x69, 0x64]
  const TYPE: Text := [0x74, 0x79, 0x70, 0x65]
  const DATA: Text := [0x64, 0x61, 0x74, 0x61]
  const CREATED_AT: Text := [0x63, 0x72, 0x65, 0x61, 0x74, 0x65, 0x64, 0x41, 0x74]

  function CoreObject(c: Core): Json {
    Obj([Member(ID, c.id), Member(TYPE, c.typ), Member(DATA, c.data), Member(CREATED_AT, c.createdAt)])
  }

  ghost predicate WellFormedCore(c: Core) {
    WellFormed(c.id) && WellFormed(c.typ) && WellFormed(c.data) && WellFormed(c.createdAt)
  }

  ghost predicate WellFormedCores(rs: seq<Record>) {
    forall i :: 0 <= i < |rs| ==> WellFormedCore(rs[i].core)
  }

  ghost predicate SameCore(c: Core, d: Core) {
    && Equivalent(c.id, d.id) && Equivalent(c.typ, d.typ)
    && Equivalent(c.data, d.data) && Equivalent(c.createdAt, d.createdAt)
  }

  function PayloadText(c: Core): Text { Canonicalize(CoreObject(c)) }

  function LinkText(seqNo: int, prevHash: Text, payloadHash: Text): Text {
    IntText(seqNo) + [DOT] + prevHash + [DOT] + payloadHash
  }

  function PayloadHash(h: HashFunction, c: Core): Digest { h(PayloadText(c)) }

  function RecordHash(h: HashFunction, seqNo: int, prevHash: Text, payloadHash: Text): Digest {
    h(LinkText(seqNo, prevHash, payloadHash))
  }

  lemma CoreKeysDistinct(c: Core)
    ensures DistinctKeys(CoreObject(c).ms)
  {
    assert ID[0] == 0x69 && TYPE[0] == 0x74 && DATA[0] == 0x64 && CREATED_AT[0] == 0x63;
  }

  lemma PayloadTextUnambiguous(c: Core, d: Core)
    requires WellFormedCore(c) && WellFormedCore(d)
    ensures PayloadText(c) == PayloadText(d) <==> SameCore(c, d)
  {
    CoreKeysDistinct(c);
    CoreKeysDistinct(d);
    CanonicalizeUnambiguous(CoreObject(c), CoreObject(d));
    CoreObjectEquivalent(c, d);
  }

  lemma CoreObjectEquivalent(c: Core, d: Core)
    ensures Equivalent(CoreObject(c), CoreObject(d)) <==> SameCore(c, d)
  {
    var a, b := CoreObject(c).ms, CoreObject(d).ms;
    CoreKeysDistinct(c);
    assert Keys(a) == Keys(b);
    forall i, j | 0 <= i < 4 && 0 <= j < 4
      ensures a[i].key == b[j].key <==> i == j
    {
      assert a[j].key == b[j].key;
    }
    if Equivalent(CoreObject(c), CoreObject(d)) {
      assert Equivalent(a[0].val, b[0].val) && Equivalent(a[1].val, b[1].val);
      assert Equivalent(a[2].val, b[2].val) && Equivalent(a[3].val, b[3].val);
    }
  }

  lemma LinkTextUnambiguous(m: nat, p: Digest, x: Text, n: nat, q: Digest, y: Text)
    requires LinkText(m, p, x) == LinkText(n, q, y)
    ensures m == n && p == q && x == y
  {
    var r, s := p + ([DOT] + x), q + ([DOT] + y);
    LinkTextSplit(m, p, x);
    LinkTextSplit(n, q, y);
    NatTextPrefix(m, n, [DOT] + r, [DOT] + s);
    SplitAt([DOT], r, [DOT], s);
    SplitAt(p, [DOT] + x, q, [DOT] + y);
    SplitAt([DOT], x, [DOT], y);
  }

  lemma LinkTextSplit(n: nat, p: Text, x: Text)
    ensures LinkText(n, p, x) == NatText(n) + ([DOT] + (p + ([DOT] + x)))
  {
  }

  // ---------------------------------------------------------------------
  // What is hashed

  lemma NamesSpelled()
    ensures ID == Ascii("id") && TYPE == Ascii("type") && DATA == Ascii("data") && CREATED_AT == Ascii("createdAt")
    ensures NULL_TEXT == Ascii("null") && TRUE_TEXT == Ascii("true") && FALSE_TEXT == Ascii("false")
  {
  }

  /** The hashed payload text is JSON for an object of exactly the four core
      fields, by name, in the order of their names. */
  lemma PayloadTextReads(c: Core)
    ensures ReadValue(PayloadText(c)) ==
            Got(Obj([Member(Ascii("createdAt"), Normal(c.createdAt)), Member(Ascii("data"), Normal(c.data)),
                     Member(Ascii("id"), Normal(c.id)), Member(Ascii("type"), Normal(c.typ))]), [])
  {
    hide ReadValue, Canonicalize, Ascii;
    var v := CoreObject(c);
    ReadCanonical(v, []);
    assert Canonicalize(v) + [] == Canonicalize(v);
    SortedCore(c);
    var s := SortedMembers(v);
    assert NormalMembers(v, s) == [Member(s[0].key, Normal(s[0].val)), Member(s[1].key, Normal(s[1].val)),
                                   Member(s[2].key, Normal(s[2].val)), Member(s[3].key, Normal(s[3].val))];
    NamesSpelled();
  }

  lemma SortedCore(c: Core)
    ensures SortedMembers(CoreObject(c)) ==
            [Member(CREATED_AT, c.createdAt), Member(DATA, c.data), Member(ID, c.id), Member(TYPE, c.typ)]
  {
    var i, t, d, k := Member(ID, c.id), Member(TYPE, c.typ), Member(DATA, c.data), Member(CREATED_AT, c.createdAt);
    FirstUnitDecides(CREATED_AT, DATA);
    FirstUnitDecides(CREATED_AT, ID);
    FirstUnitDecides(CREATED_AT, TYPE);
    FirstUnitDecides(DATA, ID);
    FirstUnitDecides(DATA, TYPE);
    FirstUnitDecides(ID, TYPE);
    SortFour(i, t, d, k);
    assert SortedMembers(CoreObject(c)) == SortByKey([i, t, d, k]);
  }

  lemma FirstUnitDecides(a: Text, b: Text)
    requires a != [] && b != [] && a[0] < b[0]
    ensures Less(a, b) && !Less(b, a)
  {
  }

  lemma SortFour(i: Member, t: Member, d: Member, k: Member)
    requires Less(k.key, d.key) && Less(k.key, t.key) && Less(d.key, t.key)
    requires Less(k.key, i.key) && Less(d.key, i.key) && !Less(t.key, i.key)
    ensures SortByKey([i, t, d, k]) == [k, d, i, t]
  {
    hide Less, SortByKey, Insert;
    SortFirst(k, []);
    SortFirst(d, [k]);
    SortFirst(t, [d, k]);
    SortFirst(i, [t, d, k]);
    assert [d] + [] == [d];
    assert [k] + [] == [k] && [d] + [k] == [d, k] && [t] + [d, k] == [t, d, k] && [i] + [t, d, k] == [i, t, d, k];
    InsertAfter(d, k, []);
    InsertAfter(t, k, [d]);
    InsertAfter(t, d, []);
    InsertAfter(i, k, [d, t]);
    InsertAfter(i, d, [t]);
    InsertBefore(i, t);
    assert [k] + [d] == [k, d] && [d] + [t] == [d, t] && [k] + [d, t] == [k, d, t];
    assert [d] + [i, t] == [d, i, t] && [k] + [d, i, t] == [k, d, i, t];
  }

  lemma SortFirst(m: Member, ms: seq<Member>)
    ensures SortByKey([m] + ms) == Insert(m, SortByKey(ms))
    ensures ms == [] ==> SortByKey(ms) == [] && Insert(m, []) == [m]
  {
    assert ([m] + ms)[1..] == ms;
  }

  lemma InsertBefore(m: Member, n: Member)
    requires !Less(n.key, m.key)
    ensures Insert(m, [n]) == [m, n]
  {
  }

  lemma InsertAfter(m: Member, first: Member, rest: seq<Member>)
    requires Less(first.key, m.key)
    ensures Insert(m, [first] + rest) == [first] + Insert(m, rest)
    ensures Insert(m, []) == [m]
  {
    assert ([first] + rest)[1..] == rest;
  }

  /** Text between separators. */
  function Split(t: Text, sep: Unit): (fields: seq<Text>)
    ensures fields != []
  {
    if t == [] then [[]]
    else
      var rest := Split(t[1..], sep);
      if t[0] == sep then [[]] + rest else [[t[0]] + rest[0]] + rest[1..]
  }

  lemma {:induction false} SplitField(a: Text, sep: Unit, t: Text)
    requires sep !in a
    ensures Split(a, sep) == [a]
    ensures Split(a + ([sep] + t), sep) == [a] + Split(t, sep)
  {
    if a == [] {
      assert a + ([sep] + t) == [sep] + t && ([sep] + t)[1..] == t;
    } else {
      SplitField(a[1..], sep, t);
      assert a == [a[0]] + a[1..];
      assert (a + ([sep] + t))[1..] == a[1..] + ([sep] + t);
    }
  }

  /** The hashed link text is the sequence number in decimal, the previous hash
      and the payload hash, between dots. */
  lemma LinkTextReads(n: nat, p: Digest, x: Digest)
    ensures Split(LinkText(n, p, x), '.' as int) == [NatText(n), p, x]
    ensures DecimalValue(NatText(n)) == n && (n > 0 ==> NatText(n)[0] != '0' as int)
  {
    hide Split, DecimalValue;
    NatTextExact(n);
    LinkTextSplit(n, p, x);
    SplitField(NatText(n), DOT, p + ([DOT] + x));
    SplitField(p, DOT, x);
    SplitField(x, DOT, []);
  }

  /** The first record names 32 zero bytes as the hash before it: in base64
      (section 4 of RFC 4648) 43 times the first letter, worth zero, and `=`. */
  lemma GenesisIsZero()
    ensures |GENESIS_PREV_HASH| == 44 && GENESIS_PREV_HASH[43] == '=' as int
    ensures forall i :: 0 <= i < 43 ==> GENESIS_PREV_HASH[i] == 'A' as int
  {
  }

  // ---------------------------------------------------------------------
  // Building

  /** What a record needs to know of the record before it. */
  datatype Head = Head(seqNo: int, hash: Text)

  predicate HasHead(r: Record) { r.seqNo.Num? && r.hash.Str? }

  function HeadOf(r: Record): Head
    requires HasHead(r)
  {
    Head(r.seqNo.n, r.hash.s)
  }

  function LastHead(rs: seq<Record>): Option<Head>
    requires rs != [] ==> HasHead(rs[|rs| - 1])
  {
    if rs == [] then None else Some(HeadOf(rs[|rs| - 1]))
  }

  function BuildChainedRecord(h: HashFunction, prev: Option<Head>, c: Core): (r: Record)
    ensures HasHead(r)
  {
    var seqNo := if prev.Some? then prev.value.seqNo + 1 else 0;
    var prevHash := if prev.Some? then prev.value.hash else GENESIS_PREV_HASH;
    var payloadHash := PayloadHash(h, c);
    Record(c, Num(seqNo), Str(payloadHash), Str(prevHash), Str(RecordHash(h, seqNo, prevHash, payloadHash)), false, [])
  }

  /** Re-chaining keeps every field of the record outside the chain. */
  function Rechain(h: HashFunction, prev: Option<Head>, r: Record): (c: Record)
    ensures HasHead(c)
  {
    BuildChainedRecord(h, prev, r.core).(migrated := r.migrated, extra := r.extra)
  }

  function ChainFrom(h: HashFunction, prev: Option<Head>, rs: seq<Record>): (out: seq<Record>)
    ensures |out| == |rs|
    ensures forall i :: 0 <= i < |out| ==> HasHead(out[i])
    decreases |rs|
  {
    if rs == [] then []
    else
      var r := Rechain(h, prev, rs[0]);
      [r] + ChainFrom(h, Some(HeadOf(r)), rs[1..])
  }

  method ChainAll(h: HashFunction, records: seq<Record>) returns (out: seq<Record>)
    ensures out == ChainFrom(h, None, records)
  {
    hide *;
    out := [];
    var prev: Option<Head> := None;
    assert records[0..] == records && [] + ChainFrom(h, None, records) == ChainFrom(h, None, records);
    for i := 0 to |records|
      invariant out + ChainFrom(h, prev, records[i..]) == ChainFrom(h, None, records)
    {
      var chained := Rechain(h, prev, records[i]);
      ChainStep(h, prev, records, i);
      AppendAssociates(out, chained, ChainFrom(h, Some(HeadOf(chained)), records[i + 1..]));
      out := out + [chained];
      prev := Some(HeadOf(chained));
    }
    assert out + ChainFrom(h, prev, records[|records|..]) == out;
  }

  lemma ChainStep(h: HashFunction, prev: Option<Head>, rs: seq<Record>, i: nat)
    requires i < |rs|
    ensures var r := Rechain(h, prev, rs[i]);
            ChainFrom(h, prev, rs[i..]) == [r] + ChainFrom(h, Some(HeadOf(r)), rs[i + 1..])
  {
    hide Rechain, HeadOf;
    assert rs[i..][0] == rs[i] && rs[i..][1..] == rs[i + 1..];
  }

  /** Re-chaining sets the four chain fields and nothing else. */
  lemma {:induction false} ChainKeeps(h: HashFunction, prev: Option<Head>, rs: seq<Record>, i: nat)
    requires i < |rs|
    ensures var c := ChainFrom(h, prev, rs)[i];
            c.core == rs[i].core && c.migrated == rs[i].migrated && c.extra == rs[i].extra
    decreases |rs|
  {
    if i > 0 {
      ChainKeeps(h, Some(HeadOf(Rechain(h, prev, rs[0]))), rs[1..], i - 1);
    }
  }

  /** What the record after these needs to know. */
  function HeadAfter(h: HashFunction, prev: Option<Head>, rs: seq<Record>): Option<Head> {
    if rs == [] then prev else LastHead(ChainFrom(h, prev, rs))
  }

  /** Appending to a re-chained list is re-chaining the appended list. */
  lemma {:induction false} ChainSnoc(h: HashFunction, prev: Option<Head>, rs: seq<Record>, r: Record)
    ensures ChainFrom(h, prev, rs + [r]) == ChainFrom(h, prev, rs) + [Rechain(h, HeadAfter(h, prev, rs), r)]
    decreases |rs|
  {
    hide Rechain;
    if rs == [] {
      assert rs + [r] == [r];
      assert ChainFrom(h, Some(HeadOf(Rechain(h, prev, r))), []) == [];
    } else {
      var head := Some(HeadOf(Rechain(h, prev, rs[0])));
      assert (rs + [r])[1..] == rs[1..] + [r];
      ChainSnoc(h, head, rs[1..], r);
      if |rs| > 1 {
        var out := ChainFrom(h, prev, rs);
        assert out[|out| - 1] == ChainFrom(h, head, rs[1..])[|rs| - 2];
      }
    }
  }

  // ---------------------------------------------------------------------
  // Verifying

  datatype Reason = SeqOutOfOrder | PrevHashMismatch | PayloadTampered | HashMismatch

  datatype Verdict =
    | Ok(count: nat)
    | Broken(brokenAtSeq: int, reason: Reason, count: nat)

  /** The hash that record i has to name as its predecessor. */
  function ExpectedPrev(rs: seq<Record>, i: nat): Json
    requires i < |rs|
  {
    if i == 0 then Str(GENESIS_PREV_HASH) else rs[i - 1].hash
  }

  /** Record i carries exactly the chain fields that its core and its
      predecessor's hash determine. */
  ghost predicate Linked(h: HashFunction, rs: seq<Record>, i: nat)
    requires i < |rs|
  {
    var r := rs[i];
    && r.seqNo == Num(i)
    && r.prevHash == ExpectedPrev(rs, i)
    && r.payloadHash == Str(PayloadHash(h, r.core))
    && r.prevHash.Str?
    && r.hash == Str(RecordHash(h, i, r.prevHash.s, PayloadHash(h, r.core)))
  }

  ghost predicate ChainOk(h: HashFunction, rs: seq<Record>) {
    forall i :: 0 <= i < |rs| ==> Linked(h, rs, i)
  }

  /** The text of `prevHash` inside the link text. The verifier gets there only
      with a `prevHash` equal to a digest it has already checked. */
  function PrevText(prev: Json): Text {
    if prev.Str? then prev.s else []
  }

  /** The first check that record i fails, in the order they are made. */
  function Fault(h: HashFunction, rs: seq<Record>, i: nat, prevHash: Json): Option<Reason>
    requires i < |rs|
  {
    var r := rs[i];
    if r.seqNo != Num(i) then Some(SeqOutOfOrder)
    else if r.prevHash != prevHash then Some(PrevHashMismatch)
    else
      var payloadHash := PayloadHash(h, r.core);
      if r.payloadHash != Str(payloadHash) then Some(PayloadTampered)
      else if r.hash != Str(RecordHash(h, i, PrevText(r.prevHash), payloadHash)) then Some(HashMismatch)
      else None
  }

  function Fail(i: nat, r: Record, reason: Reason): Verdict {
    Broken(if r.seqNo.Num? then r.seqNo.n else i, reason, i)
  }

  function VerdictFrom(h: HashFunction, rs: seq<Record>, i: nat): Verdict
    requires i <= |rs|
    decreases |rs| - i
  {
    if i == |rs| then Ok(i)
    else
      match Fault(h, rs, i, ExpectedPrev(rs, i))
      case Some(reason) => Fail(i, rs[i], reason)
      case None => VerdictFrom(h, rs, i + 1)
  }

  method VerifyChain(h: HashFunction, records: seq<Record>) returns (v: Verdict)
    ensures v == VerdictFrom(h, records, 0)
  {
    var prevHash := Str(GENESIS_PREV_HASH);
    for index := 0 to |records|
      invariant index < |records| ==> prevHash == ExpectedPrev(records, index)
      invariant VerdictFrom(h, records, 0) == VerdictFrom(h, records, index)
    {
      var record := records[index];
      if record.seqNo != Num(index) {
        return Fail(index, record, SeqOutOfOrder);
      }
      if record.prevHash != prevHash {
        return Fail(index, record, PrevHashMismatch);
      }
      var payloadHash := PayloadHash(h, record.core);
      if record.payloadHash != Str(payloadHash) {
        return Fail(index, record, PayloadTampered);
      }
      var hash := RecordHash(h, index, PrevText(record.prevHash), payloadHash);
      if record.hash != Str(hash) {
        return Fail(index, record, HashMismatch);
      }
      prevHash := record.hash;
    }
    return Ok(|records|);
  }

  lemma FaultIffUnlinked(h: HashFunction, rs: seq<Record>, i: nat)
    requires i < |rs|
    requires i > 0 ==> rs[i - 1].hash.Str?
    ensures Fault(h, rs, i, ExpectedPrev(rs, i)).None? <==> Linked(h, rs, i)
  {
  }

  /** The verifier answers ok exactly for the lists in which every record links,
      and otherwise names the first one that does not, and why. */
  lemma VerdictExact(h: HashFunction, rs: seq<Record>)
    ensures var v := VerdictFrom(h, rs, 0);
            && (v.Ok? <==> ChainOk(h, rs))
            && (v.Ok? ==> v.count == |rs|)
            && (v.Broken? ==>
                  && v.count < |rs| && ChainOk(h, rs[..v.count]) && !Linked(h, rs, v.count)
                  && Fault(h, rs, v.count, ExpectedPrev(rs, v.count)) == Some(v.reason)
                  && v == Fail(v.count, rs[v.count], v.reason))
  {
    VerdictExactFrom(h, rs, 0);
    var v := VerdictFrom(h, rs, 0);
    if v.Broken? {
      forall i | 0 <= i < v.count
        ensures Linked(h, rs[..v.count], i)
      {
        LinkedPrefix(h, rs, v.count, i);
      }
    }
  }

  /** Why a chain does not verify: the reason names the first of four comparisons
      that the record fails, with its index, the hash of the record before it and
      the digests of its own fields. */
  lemma VerdictReason(h: HashFunction, rs: seq<Record>)
    requires VerdictFrom(h, rs, 0).Broken?
    ensures var v := VerdictFrom(h, rs, 0);
            var k := v.count;
            && k < |rs|
            && var r := rs[k];
               var inPlace := r.seqNo == Num(k);
               var follows := r.prevHash == if k == 0 then Str(GENESIS_PREV_HASH) else rs[k - 1].hash;
               var genuine := r.payloadHash == Str(h(PayloadText(r.core)));
               && v.brokenAtSeq == (if r.seqNo.Num? then r.seqNo.n else k)
               && (v.reason == SeqOutOfOrder <==> !inPlace)
               && (v.reason == PrevHashMismatch <==> inPlace && !follows)
               && (v.reason == PayloadTampered <==> inPlace && follows && !genuine)
               && (v.reason == HashMismatch <==>
                     && inPlace && follows && genuine && r.prevHash.Str?
                     && r.hash != Str(h(LinkText(k, r.prevHash.s, h(PayloadText(r.core))))))
  {
    hide GenesisText, LinkText, PayloadText, VerdictFrom;
    VerdictExact(h, rs);
    var k := VerdictFrom(h, rs, 0).count;
    if k > 0 {
      assert Linked(h, rs[..k], k - 1);
      LinkedPrefix(h, rs, k, k - 1);
    }
  }

  lemma {:induction false} VerdictExactFrom(h: HashFunction, rs: seq<Record>, i: nat)
    requires i <= |rs|
    requires forall k :: 0 <= k < i ==> Linked(h, rs, k)
    ensures var v := VerdictFrom(h, rs, i);
            && (v.Ok? <==> ChainOk(h, rs))
            && (v.Ok? ==> v.count == |rs|)
            && (v.Broken? ==>
                  && i <= v.count < |rs| && (forall k :: 0 <= k < v.count ==> Linked(h, rs, k))
                     && !Linked(h, rs, v.count)
                  && Fault(h, rs, v.count, ExpectedPrev(rs, v.count)) == Some(v.reason)
                  && v == Fail(v.count, rs[v.count], v.reason))
    decreases |rs| - i
  {
    if i < |rs| {
      assert i > 0 ==> Linked(h, rs, i - 1);
      FaultIffUnlinked(h, rs, i);
      if Linked(h, rs, i) {
        VerdictExactFrom(h, rs, i + 1);
      }
    }
  }

  lemma LinkedPrefix(h: HashFunction, rs: seq<Record>, n: nat, i: nat)
    requires i < n <= |rs|
    ensures Linked(h, rs[..n], i) <==> Linked(h, rs, i)
  {
  }

  /** The verdict is settled by the first failing record. */
  lemma {:induction false} VerdictAt(h: HashFunction, rs: seq<Record>, k: nat, reason: Reason)
    requires k < |rs| && ChainOk(h, rs[..k])
    requires Fault(h, rs, k, ExpectedPrev(rs, k)) == Some(reason)
    ensures VerdictFrom(h, rs, 0) == Fail(k, rs[k], reason)
  {
    VerdictReaches(h, rs, 0, k);
  }

  lemma {:induction false} VerdictReaches(h: HashFunction, rs: seq<Record>, i: nat, k: nat)
    requires i <= k <= |rs| && ChainOk(h, rs[..k])
    ensures VerdictFrom(h, rs, i) == VerdictFrom(h, rs, k)
    decreases k - i
  {
    hide GenesisText, LinkText, PayloadText, Fault;
    if i < k {
      LinkedPrefix(h, rs, k, i);
      if i > 0 {
        LinkedPrefix(h, rs, k, i - 1);
        assert Linked(h, rs[..k], i - 1);
      }
      assert Linked(h, rs[..k], i);
      FaultIffUnlinked(h, rs, i);
      VerdictReaches(h, rs, i + 1, k);
    }
  }

  // ---------------------------------------------------------------------
  // Building meets verifying

  /** Re-chaining any records onto a correct chain gives a correct chain. */
  lemma {:induction false} ChainExtends(h: HashFunction, a: seq<Record>, rs: seq<Record>)
    requires ChainOk(h, a)
    requires a != [] ==> HasHead(a[|a| - 1])
    ensures ChainOk(h, a + ChainFrom(h, LastHead(a), rs))
    decreases |rs|
  {
    if rs == [] {
      assert a + [] == a;
    } else {
      var r := Rechain(h, LastHead(a), rs[0]);
      AppendLinks(h, a, r);
      ChainExtends(h, a + [r], rs[1..]);
      AppendAssociates(a, r, ChainFrom(h, Some(HeadOf(r)), rs[1..]));
    }
  }

  lemma AppendAssociates(a: seq<Record>, r: Record, rest: seq<Record>)
    ensures (a + [r]) + rest == a + ([r] + rest)
  {
  }

  lemma AppendLinks(h: HashFunction, a: seq<Record>, r: Record)
    requires ChainOk(h, a)
    requires a != [] ==> HasHead(a[|a| - 1])
    requires r == BuildChainedRecord(h, LastHead(a), r.core).(migrated := r.migrated, extra := r.extra)
    ensures ChainOk(h, a + [r])
  {
    hide GenesisText, LinkText, PayloadText;
    var b := a + [r];
    forall i | 0 <= i < |b|
      ensures Linked(h, b, i)
    {
      if i < |a| {
        assert b[..|a|] == a;
        LinkedPrefix(h, b, |a|, i);
      } else if i > 0 {
        assert Linked(h, a, i - 1);
      }
    }
  }

  /** Re-chaining gives a chain that verifies and is the identity on exactly
      the chains that verify. */
  lemma ChainAllVerifies(h: HashFunction, rs: seq<Record>)
    ensures VerdictFrom(h, ChainFrom(h, None, rs), 0) == Ok(|rs|)
    ensures ChainFrom(h, None, rs) == rs <==> ChainOk(h, rs)
  {
    var out := ChainFrom(h, None, rs);
    ChainExtends(h, [], rs);
    assert [] + out == out;
    VerdictExact(h, out);
    if ChainOk(h, rs) {
      ChainIdentity(h, rs);
    }
  }

  lemma {:induction false} ChainIdentity(h: HashFunction, rs: seq<Record>)
    requires ChainOk(h, rs)
    ensures ChainFrom(h, None, rs) == rs
    decreases |rs|
  {
    hide *;
    if rs == [] {
      assert ChainFrom(h, None, rs) == [];
    } else {
      var n := |rs| - 1;
      ChainPrefix(h, rs, n);
      ChainIdentity(h, rs[..n]);
      ChainSnoc(h, None, rs[..n], rs[n]);
      assert rs == rs[..n] + [rs[n]];
      RechainLinked(h, rs, n);
    }
  }

  lemma RechainLinked(h: HashFunction, rs: seq<Record>, n: nat)
    requires ChainOk(h, rs) && n < |rs| && ChainFrom(h, None, rs[..n]) == rs[..n]
    ensures Rechain(h, HeadAfter(h, None, rs[..n]), rs[n]) == rs[n]
  {
    hide GenesisText, LinkText, PayloadText, ChainFrom;
    assert Linked(h, rs, n);
    if n > 0 {
      assert Linked(h, rs, n - 1) && rs[..n][n - 1] == rs[n - 1];
    }
  }

  // ---------------------------------------------------------------------
  // Tamper evidence

  /** x is one of the texts whose digests the records of the chain carry. */
  ghost predicate Hashed(rs: seq<Record>, x: Text) {
    exists i :: 0 <= i < |rs| && HashedAt(rs[i], x)
  }

  ghost predicate HashedAt(r: Record, x: Text) {
    || x == PayloadText(r.core)
    || (r.seqNo.Num? && r.prevHash.Str? && r.payloadHash.Str?
        && x == LinkText(r.seqNo.n, r.prevHash.s, r.payloadHash.s))
  }

  /** Two different texts with one digest, hashed by the two chains. */
  ghost predicate Collision(h: HashFunction, a: seq<Record>, b: seq<Record>, x: Text, y: Text) {
    x != y && h(x) == h(y) && Hashed(a, x) && Hashed(b, y)
  }

  /** Two verifying chains with the same head hash have the same length and the
      same cores, position by position; otherwise x and y are a collision among
      the texts these chains hashed. */
  lemma {:induction false} TamperEvidence(h: HashFunction, a: seq<Record>, b: seq<Record>) returns (x: Text, y: Text)
    requires ChainOk(h, a) && ChainOk(h, b) && a != [] && b != []
    requires WellFormedCores(a) && WellFormedCores(b)
    requires a[|a| - 1].hash == b[|b| - 1].hash
    ensures SameCores(a, b) || Collision(h, a, b, x, y)
    decreases |a|
  {
    hide *;
    var m, n := |a| - 1, |b| - 1;
    x, y := HeadEvidence(h, a, b);
    if !Collision(h, a, b, x, y) {
      if m > 0 {
        ChainPrefix(h, a, m);
        ChainPrefix(h, b, n);
        WellFormedPrefix(a, m);
        WellFormedPrefix(b, n);
        x, y := TamperEvidence(h, a[..m], b[..n]);
        if Collision(h, a[..m], b[..n], x, y) {
          CollisionPrefix(h, a, m, b, n, x, y);
        } else {
          SameCoresSnoc(a, b);
        }
      } else {
        SameCoresSnoc(a, b);
      }
    }
  }

  lemma WellFormedPrefix(rs: seq<Record>, n: nat)
    requires WellFormedCores(rs) && n <= |rs|
    ensures WellFormedCores(rs[..n])
  {
  }

  lemma CollisionPrefix(h: HashFunction, a: seq<Record>, m: nat, b: seq<Record>, n: nat, x: Text, y: Text)
    requires m <= |a| && n <= |b| && Collision(h, a[..m], b[..n], x, y)
    ensures Collision(h, a, b, x, y)
  {
    HashedPrefix(a, m, x);
    HashedPrefix(b, n, y);
  }

  ghost predicate SameCores(a: seq<Record>, b: seq<Record>) {
    |a| == |b| && forall i :: 0 <= i < |a| ==> SameCore(a[i].core, b[i].core)
  }

  lemma SameCoresSnoc(a: seq<Record>, b: seq<Record>)
    requires |a| == |b| > 0 && (|a| > 1 ==> SameCores(a[..|a| - 1], b[..|b| - 1]))
    requires SameCore(a[|a| - 1].core, b[|b| - 1].core)
    ensures SameCores(a, b)
  {
    hide SameCore;
    forall i | 0 <= i < |a| - 1
      ensures SameCore(a[i].core, b[i].core)
    {
      assert a[..|a| - 1][i] == a[i] && b[..|b| - 1][i] == b[i];
    }
  }

  /** One step back from equal head hashes. */
  lemma HeadEvidence(h: HashFunction, a: seq<Record>, b: seq<Record>) returns (x: Text, y: Text)
    requires ChainOk(h, a) && ChainOk(h, b) && a != [] && b != []
    requires WellFormedCores(a) && WellFormedCores(b)
    requires a[|a| - 1].hash == b[|b| - 1].hash
    ensures || Collision(h, a, b, x, y)
            || (|a| == |b| && SameCore(a[|a| - 1].core, b[|b| - 1].core) &&
                (|a| > 1 ==> a[|a| - 2].hash == b[|b| - 2].hash))
  {
    hide PayloadText, LinkText, SameCore;
    var m, n := |a| - 1, |b| - 1;
    var r, s := a[m], b[n];
    assert Linked(h, a, m) && Linked(h, b, n);
    PrevIsDigest(h, a, m);
    PrevIsDigest(h, b, n);
    x, y := LinkText(m, r.prevHash.s, r.payloadHash.s), LinkText(n, s.prevHash.s, s.payloadHash.s);
    assert HashedAt(r, x) && HashedAt(s, y);
    if x == y {
      LinkTextUnambiguous(m, r.prevHash.s, r.payloadHash.s, n, s.prevHash.s, s.payloadHash.s);
      x, y := PayloadText(r.core), PayloadText(s.core);
      assert HashedAt(r, x) && HashedAt(s, y);
      PayloadTextUnambiguous(r.core, s.core);
    }
  }

  lemma PrevIsDigest(h: HashFunction, rs: seq<Record>, i: nat)
    requires ChainOk(h, rs) && i < |rs|
    ensures rs[i].prevHash.Str? && IsDigest(rs[i].prevHash.s)
  {
    assert Linked(h, rs, i);
    if i > 0 {
      assert Linked(h, rs, i - 1);
    }
  }

  /** Dropping records from the tail leaves a verifying prefix. */
  lemma ChainPrefix(h: HashFunction, rs: seq<Record>, n: nat)
    requires ChainOk(h, rs) && n <= |rs|
    ensures ChainOk(h, rs[..n])
    ensures VerdictFrom(h, rs[..n], 0) == Ok(n)
  {
    forall i | 0 <= i < n
      ensures Linked(h, rs[..n], i)
    {
      LinkedPrefix(h, rs, n, i);
    }
    VerdictExact(h, rs[..n]);
  }

  lemma HashedPrefix(rs: seq<Record>, n: nat, x: Text)
    requires n <= |rs| && Hashed(rs[..n], x)
    ensures Hashed(rs, x)
  {
    var i :| 0 <= i < n && HashedAt(rs[..n][i], x);
    assert HashedAt(rs[i], x);
  }

  /** Replacing one core inside a verifying chain is reported at that record,
      unless the two payload texts have one digest: then they are one text,
      that is the same core, or a collision. */
  lemma EditPinpointed(h: HashFunction, rs: seq<Record>, i: nat, c: Core)
    requires ChainOk(h, rs) && i < |rs|
    requires WellFormedCore(c) && WellFormedCore(rs[i].core)
    ensures var edited := rs[i := rs[i].(core := c)];
            var x, y := PayloadText(rs[i].core), PayloadText(c);
            && (h(x) != h(y) ==> VerdictFrom(h, edited, 0) == Broken(i, PayloadTampered, i))
            && (h(x) == h(y) ==> VerdictFrom(h, edited, 0) == Ok(|rs|))
            && (x == y <==> SameCore(rs[i].core, c))
  {
    PayloadTextUnambiguous(rs[i].core, c);
    if h(PayloadText(rs[i].core)) != h(PayloadText(c)) {
      EditReported(h, rs, i, c);
    } else {
      EditUnnoticed(h, rs, i, c);
    }
  }

  lemma EditReported(h: HashFunction, rs: seq<Record>, i: nat, c: Core)
    requires ChainOk(h, rs) && i < |rs|
    requires PayloadHash(h, c) != PayloadHash(h, rs[i].core)
    ensures VerdictFrom(h, rs[i := rs[i].(core := c)], 0) == Broken(i, PayloadTampered, i)
  {
    var edited := rs[i := rs[i].(core := c)];
    assert Linked(h, rs, i);
    ChainPrefix(h, rs, i);
    assert edited[..i] == rs[..i];
    assert ExpectedPrev(edited, i) == ExpectedPrev(rs, i);
    VerdictAt(h, edited, i, PayloadTampered);
  }

  lemma EditUnnoticed(h: HashFunction, rs: seq<Record>, i: nat, c: Core)
    requires ChainOk(h, rs) && i < |rs|
    requires PayloadHash(h, c) == PayloadHash(h, rs[i].core)
    ensures VerdictFrom(h, rs[i := rs[i].(core := c)], 0) == Ok(|rs|)
  {
    var edited := rs[i := rs[i].(core := c)];
    forall k | 0 <= k < |rs|
      ensures Linked(h, edited, k)
    {
      assert Linked(h, rs, k);
      assert ExpectedPrev(edited, k) == ExpectedPrev(rs, k);
    }
    VerdictExact(h, edited);
  }

  /** Removing a record that is not the last is reported at the index it left. */
  lemma RemovalPinpointed(h: HashFunction, rs: seq<Record>, i: nat)
    requires ChainOk(h, rs) && i < |rs| - 1
    ensures VerdictFrom(h, rs[..i] + rs[i + 1..], 0) == Broken(i + 1, SeqOutOfOrder, i)
  {
    var cut := rs[..i] + rs[i + 1..];
    ChainPrefix(h, rs, i);
    assert cut[..i] == rs[..i];
    assert Linked(h, rs, i + 1) && cut[i] == rs[i + 1];
    VerdictAt(h, cut, i, SeqOutOfOrder);
  }
}
