/** Conversion of ECDSA P-256 signatures from DER to the fixed-width JOSE form. */
module EcSignature {
  import opened Options

  type Byte = b: int | 0 <= b < 256
  type Bytes = seq<Byte>

  datatype Result<+T> = Ok(value: T) | InvalidSignature

  // ---------------------------------------------------------------------
  // Big-endian numbers

  function Value(bs: Bytes): nat {
    if bs == [] then 0 else Value(bs[..|bs| - 1]) * 256 + bs[|bs| - 1]
  }

  function Pow256(k: nat): nat {
    if k == 0 then 1 else Pow256(k - 1) * 256
  }

  /** The k low-order bytes of n. */
  function ToBytes(n: nat, k: nat): (bs: Bytes)
    ensures |bs| == k
  {
    if k == 0 then [] else ToBytes(n / 256, k - 1) + [n % 256]
  }

  function Zeros(k: nat): (bs: Bytes)
    ensures |bs| == k && forall i :: 0 <= i < k ==> bs[i] == 0
  {
    if k == 0 then [] else [0] + Zeros(k - 1)
  }

  lemma {:induction false} ValueOfToBytes(n: nat, k: nat)
    requires n < Pow256(k)
    ensures Value(ToBytes(n, k)) == n
  {
    if k > 0 {
      ValueOfToBytes(n / 256, k - 1);
      assert ToBytes(n, k)[..k - 1] == ToBytes(n / 256, k - 1);
    }
  }

  /** Reading bytes as a number and writing k of them keeps the last k. */
  lemma {:induction false} ToBytesOfValue(bs: Bytes, k: nat)
    ensures ToBytes(Value(bs), k) == if |bs| >= k then bs[|bs| - k..] else Zeros(k - |bs|) + bs
    decreases k
  {
    hide Zeros, Value, ToBytes;
    if k == 0 {
      NoBytes(bs);
    } else {
      if bs == [] {
        NoDigits(k);
        ToBytesOfValue([], k - 1);
        ZerosSnoc(k - 1);
        assert Zeros(k - 1) + [] == Zeros(k - 1) && Zeros(k) + [] == Zeros(k);
      } else {
        ValueDigits(bs, k);
        ToBytesOfValue(bs[..|bs| - 1], k - 1);
        LastBytesSnoc(bs, k);
      }
    }
  }

  lemma NoBytes(bs: Bytes)
    ensures ToBytes(Value(bs), 0) == [] == bs[|bs|..] && Zeros(0) == []
  {
  }

  lemma NoDigits(k: nat)
    requires k > 0
    ensures ToBytes(Value([]), k) == ToBytes(Value([]), k - 1) + [0]
  {
  }

  lemma ValueDigits(bs: Bytes, k: nat)
    requires bs != [] && k > 0
    ensures ToBytes(Value(bs), k) == ToBytes(Value(bs[..|bs| - 1]), k - 1) + [bs[|bs| - 1]]
  {
  }

  lemma LastBytesSnoc(bs: Bytes, k: nat)
    requires bs != [] && k > 0
    ensures var front, last := bs[..|bs| - 1], bs[|bs| - 1];
            if |bs| >= k then front[|front| - (k - 1)..] + [last] == bs[|bs| - k..]
            else Zeros(k - |bs|) + front + [last] == Zeros(k - |bs|) + bs
  {
    hide Zeros;
  }

  lemma {:induction false} ZerosSnoc(k: nat)
    ensures Zeros(k) + [0] == Zeros(k + 1)
  {
    if k > 0 {
      ZerosSnoc(k - 1);
      assert Zeros(k) + [0] == [0] + (Zeros(k - 1) + [0]);
    }
  }

  // ---------------------------------------------------------------------
  // The converter

  function LeftPadTo32(value: Bytes): Bytes {
    if |value| == 32 then value
    else if |value| > 32 then value[|value| - 32..]
    else Zeros(32 - |value|) + value
  }

  function StripZeros(value: Bytes): Bytes
    decreases |value|
  {
    if |value| > 32 && value[0] == 0 then StripZeros(value[1..]) else value
  }

  /** `subarray`, which clamps both ends to the buffer. */
  function Subarray(bs: Bytes, start: nat, end: nat): Bytes
    requires start <= end
  {
    var n := |bs|;
    bs[(if start < n then start else n)..(if end < n then end else n)]
  }

  /** An integer's bytes and the offset after it: none when its length byte is
      missing, which no later read accepts. */
  datatype DerInteger = DerInteger(value: Bytes, nextOffset: Option<nat>)

  function IntegerAt(signature: Bytes, offset: Option<nat>): Result<DerInteger> {
    if offset.None? || offset.value >= |signature| || signature[offset.value] != 0x02 then InvalidSignature
    else if offset.value + 1 >= |signature| then Ok(DerInteger([], None))
    else
      var start := offset.value + 2;
      var end := start + signature[offset.value + 1];
      Ok(DerInteger(StripZeros(Subarray(signature, start, end)), Some(end)))
  }

  function BodyOffset(signature: Bytes): nat {
    if |signature| > 1 && signature[1] >= 0x80 then 2 + signature[1] % 0x80 else 2
  }

  function JoseOf(signature: Bytes): Result<Bytes> {
    var r := IntegerAt(signature, Some(BodyOffset(signature)));
    if r.InvalidSignature? then InvalidSignature
    else
      var s := IntegerAt(signature, r.value.nextOffset);
      if s.InvalidSignature? then InvalidSignature
      else Ok(LeftPadTo32(r.value.value) + LeftPadTo32(s.value.value))
  }

  function Normalized(signature: Bytes): Result<Bytes> {
    if |signature| == 64 then Ok(signature)
    else if signature == [] || signature[0] != 0x30 then Ok(signature)
    else JoseOf(signature)
  }

  method ReadDerInteger(signature: Bytes, offset: Option<nat>) returns (r: Result<DerInteger>)
    ensures r == IntegerAt(signature, offset)
  {
    if offset.None? || offset.value >= |signature| || signature[offset.value] != 0x02 {
      return InvalidSignature;
    }
    if offset.value + 1 >= |signature| {
      return Ok(DerInteger([], None));
    }
    var start := offset.value + 2;
    var end := start + signature[offset.value + 1];
    var value := Subarray(signature, start, end);
    while |value| > 32 && value[0] == 0x00
      invariant StripZeros(value) == StripZeros(Subarray(signature, start, end))
      decreases |value|
    {
      value := value[1..];
    }
    return Ok(DerInteger(value, Some(end)));
  }

  method DerToJoseSignature(signature: Bytes) returns (result: Result<Bytes>)
    ensures result == JoseOf(signature)
  {
    var offset := 2;
    if |signature| > 1 && signature[1] >= 0x80 {
      offset := 2 + signature[1] % 0x80;
    }
    var r := ReadDerInteger(signature, Some(offset));
    if r.InvalidSignature? {
      return InvalidSignature;
    }
    var s := ReadDerInteger(signature, r.value.nextOffset);
    if s.InvalidSignature? {
      return InvalidSignature;
    }
    return Ok(LeftPadTo32(r.value.value) + LeftPadTo32(s.value.value));
  }

  method NormalizeEcSignatureToJose(signature: Bytes) returns (result: Result<Bytes>)
    ensures result == Normalized(signature)
  {
    if |signature| == 64 {
      return Ok(signature);
    }
    if signature == [] || signature[0] != 0x30 {
      return Ok(signature);
    }
    result := DerToJoseSignature(signature);
  }

  // ---------------------------------------------------------------------
  // What it computes, for every length form and every integer width

  /** Stripping and padding write the number's 32 low-order bytes. */
  lemma PaddedValue(value: Bytes)
    ensures LeftPadTo32(StripZeros(value)) == ToBytes(Value(value), 32)
  {
    hide ToBytes, Pow256, Value, Zeros;
    StripKeepsEnd(value);
    ToBytesOfValue(value, 32);
  }

  lemma {:induction false} StripKeepsEnd(value: Bytes)
    ensures |value| <= 32 ==> StripZeros(value) == value
    ensures |value| > 32 ==> |StripZeros(value)| >= 32 && LeftPadTo32(StripZeros(value)) == value[|value| - 32..]
    decreases |value|
  {
    if |value| > 32 && value[0] == 0 {
      var tail := value[1..];
      StripKeepsEnd(tail);
      EndOfTail(value);
      if |tail| == 32 {
        assert LeftPadTo32(tail) == tail;
      }
    }
  }

  lemma EndOfTail(value: Bytes)
    requires |value| > 32
    ensures value[1..][|value| - 33..] == value[|value| - 32..]
  {
  }

  /** The length field: one byte below 0x80, or 0x80 + k and k further bytes. */
  predicate LengthField(bs: Bytes) {
    bs != [] && if bs[0] < 0x80 then |bs| == 1 else bs[0] == |bs| - 1 + 0x80
  }

  function Tlv(content: Bytes): Bytes
    requires |content| < 256
  {
    [0x02, |content|] + content
  }

  lemma IntegerAtTlv(before: Bytes, content: Bytes, rest: Bytes)
    requires |content| < 256
    ensures IntegerAt(before + Tlv(content) + rest, Some(|before|)) ==
            Ok(DerInteger(StripZeros(content), Some(|before| + 2 + |content|)))
  {
    hide *;
    TlvSlices(before, content, rest);
    IntegerAtField(before + Tlv(content) + rest, |before|, content);
  }

  lemma IntegerAtField(s: Bytes, n: nat, content: Bytes)
    requires n + 2 + |content| <= |s| && s[n] == 0x02 && s[n + 1] == |content|
    requires s[n + 2..n + 2 + |content|] == content
    ensures IntegerAt(s, Some(n)) == Ok(DerInteger(StripZeros(content), Some(n + 2 + |content|)))
  {
    hide StripZeros;
  }

  lemma TlvSlices(before: Bytes, content: Bytes, rest: Bytes)
    requires |content| < 256
    ensures var s, n := before + Tlv(content) + rest, |before|;
            && |s| >= n + 2 + |content|
            && s[n] == 0x02 && s[n + 1] == |content| && s[n + 2..n + 2 + |content|] == content
  {
    var s, n := before + Tlv(content) + rest, |before|;
    assert s == before + (Tlv(content) + rest);
    assert s[n] == Tlv(content)[0] && s[n + 1] == Tlv(content)[1];
  }

  /** For any two integers behind any length field, whatever follows them, the
      result is the 32 low-order bytes of each number. */
  lemma JoseOfSequence(field: Bytes, r: Bytes, s: Bytes, rest: Bytes)
    requires LengthField(field) && |r| < 256 && |s| < 256
    ensures JoseOf([0x30] + field + Tlv(r) + Tlv(s) + rest) ==
            Ok(ToBytes(Value(r), 32) + ToBytes(Value(s), 32))
  {
    hide ToBytes, Value, IntegerAt, LeftPadTo32, StripZeros, Tlv, LengthField;
    var head := [0x30] + field;
    var signature := head + Tlv(r) + Tlv(s) + rest;
    BodyAfterLength(field, Tlv(r) + Tlv(s) + rest);
    Regroup(head, Tlv(r), Tlv(s), rest);
    TlvLength(r);
    IntegerAtTlv(head, r, Tlv(s) + rest);
    IntegerAtTlv(head + Tlv(r), s, rest);
    PaddedValue(r);
    PaddedValue(s);
  }

  lemma TlvLength(content: Bytes)
    requires |content| < 256
    ensures |Tlv(content)| == 2 + |content|
  {
  }

  lemma Regroup(a: Bytes, b: Bytes, c: Bytes, d: Bytes)
    ensures a + b + c + d == a + b + (c + d) == a + (b + c + d)
  {
  }

  lemma BodyAfterLength(field: Bytes, rest: Bytes)
    requires LengthField(field)
    ensures BodyOffset([0x30] + field + rest) == 1 + |field|
  {
    assert ([0x30] + field + rest)[1] == field[0];
  }

  /** A signature is converted exactly if an integer tag stands behind the length
      field and another one where the first integer ends, and then to 64 bytes. */
  lemma ConvertedExactly(signature: Bytes)
    ensures var o := if |signature| > 1 && signature[1] >= 0x80 then 2 + (signature[1] - 0x80) else 2;
            JoseOf(signature).Ok? <==>
              && o + 1 < |signature| && signature[o] == 0x02
              && var end := o + 2 + signature[o + 1];
                 end < |signature| && signature[end] == 0x02
    ensures JoseOf(signature).Ok? ==> |JoseOf(signature).value| == 64
  {
    hide IntegerAt, LeftPadTo32, BodyOffset;
    var o := BodyOffset(signature);
    BodyOffsetSpelled(signature);
    IntegerTag(signature, Some(o));
    if o + 1 < |signature| && signature[o] == 0x02 {
      IntegerTag(signature, Some(o + 2 + signature[o + 1]));
    } else {
      IntegerTag(signature, None);
    }
    if JoseOf(signature).Ok? {
      var r := IntegerAt(signature, Some(o)).value;
      PaddedLength(r.value);
      PaddedLength(IntegerAt(signature, r.nextOffset).value.value);
    }
  }

  lemma BodyOffsetSpelled(signature: Bytes)
    ensures BodyOffset(signature) == if |signature| > 1 && signature[1] >= 0x80 then 2 + (signature[1] - 0x80) else 2
  {
  }

  lemma PaddedLength(value: Bytes)
    ensures |LeftPadTo32(value)| == 32
  {
  }

  lemma IntegerTag(signature: Bytes, offset: Option<nat>)
    ensures var r := IntegerAt(signature, offset);
            && (r.Ok? <==> offset.Some? && offset.value < |signature| && signature[offset.value] == 0x02)
            && (r.Ok? ==>
                  r.value.nextOffset == if offset.value + 1 < |signature|
                                        then Some(offset.value + 2 + signature[offset.value + 1]) else None)
  {
    hide StripZeros, Subarray;
  }

  // ---------------------------------------------------------------------
  // Minimal DER of two numbers below 2^256

  /** The shortest unsigned big-endian form, one byte for zero. */
  function MinimalBytes(n: nat): (bs: Bytes)
    ensures bs != []
  {
    if n < 256 then [n] else MinimalBytes(n / 256) + [n % 256]
  }

  /** The content bytes of a non-negative INTEGER. */
  function Content(n: nat): (bs: Bytes)
    ensures bs != []
  {
    var bs := MinimalBytes(n);
    if bs[0] >= 0x80 then [0] + bs else bs
  }

  /** Non-negative, and no leading byte that could be left out. */
  predicate MinimalContent(c: Bytes) {
    c != [] && c[0] < 0x80 && (|c| > 1 && c[0] == 0 ==> c[1] >= 0x80)
  }

  lemma {:induction false} MinimalBytesOf(n: nat, k: nat)
    requires n < Pow256(k) && k > 0
    ensures Value(MinimalBytes(n)) == n && |MinimalBytes(n)| <= k
    ensures |MinimalBytes(n)| > 1 ==> MinimalBytes(n)[0] != 0
  {
    var bs := MinimalBytes(n);
    if n < 256 {
      assert bs[..0] == [];
    } else {
      assert k > 1 by { assert Pow256(1) == 256; }
      MinimalBytesOf(n / 256, k - 1);
      assert bs[..|bs| - 1] == MinimalBytes(n / 256);
      if |bs| == 2 {
        assert MinimalBytes(n / 256) == [n / 256] by { assert bs[0] == MinimalBytes(n / 256)[0]; }
      }
    }
  }

  lemma ContentOf(n: nat)
    requires n < Pow256(32)
    ensures Value(Content(n)) == n && |Content(n)| <= 33 && MinimalContent(Content(n))
    ensures |Content(n)| == 33 ==> Content(n)[0] == 0
  {
    hide ToBytes, Pow256, Value, Zeros;
    MinimalBytesOf(n, 32);
    ValueLeadingZero(MinimalBytes(n));
  }

  lemma {:induction false} ValueLeadingZero(bs: Bytes)
    ensures Value([0] + bs) == Value(bs)
  {
    if bs == [] {
      assert ([0] + bs)[..0] == [];
    } else {
      ValueLeadingZero(bs[..|bs| - 1]);
      assert ([0] + bs)[..|bs|] == [0] + bs[..|bs| - 1];
    }
  }

  function Der(r: nat, s: nat): Bytes
    requires r < Pow256(32) && s < Pow256(32)
  {
    ContentOf(r);
    ContentOf(s);
    [0x30, 4 + |Content(r)| + |Content(s)|] + Tlv(Content(r)) + Tlv(Content(s))
  }

  function Jose(r: nat, s: nat): Bytes {
    ToBytes(r, 32) + ToBytes(s, 32)
  }

  /** The conversion preserves both numbers: 64 bytes, r and s in 32 each. */
  lemma DerToJosePreservesValues(r: nat, s: nat)
    requires r < Pow256(32) && s < Pow256(32)
    ensures JoseOf(Der(r, s)) == Ok(Jose(r, s))
    ensures |Jose(r, s)| == 64 && Value(Jose(r, s)[..32]) == r && Value(Jose(r, s)[32..]) == s
  {
    hide ToBytes, Pow256, Value, JoseOf, Tlv, Content, MinimalContent;
    ContentOf(r);
    ContentOf(s);
    var field: Bytes := [4 + |Content(r)| + |Content(s)|];
    JoseOfSequence(field, Content(r), Content(s), []);
    assert [0x30] + field == [0x30, 4 + |Content(r)| + |Content(s)|];
    DerIsSequence([0x30] + field, Tlv(Content(r)), Tlv(Content(s)));
    JoseHalves(r, s);
  }

  lemma DerIsSequence(a: Bytes, b: Bytes, c: Bytes)
    ensures a + b + c + [] == a + b + c
  {
  }

  lemma JoseHalves(r: nat, s: nat)
    requires r < Pow256(32) && s < Pow256(32)
    ensures |Jose(r, s)| == 64 && Value(Jose(r, s)[..32]) == r && Value(Jose(r, s)[32..]) == s
  {
    hide ToBytes, Pow256, Value;
    ValueOfToBytes(r, 32);
    ValueOfToBytes(s, 32);
    assert Jose(r, s)[..32] == ToBytes(r, 32) && Jose(r, s)[32..] == ToBytes(s, 32);
  }

  /** Normalizing a DER signature gives its JOSE form exactly when the DER form
      is not 64 bytes long. */
  lemma NormalizeExact(r: nat, s: nat)
    requires r < Pow256(32) && s < Pow256(32)
    ensures Normalized(Der(r, s)) == Ok(Jose(r, s)) <==> |Der(r, s)| != 64
  {
    hide ToBytes, Pow256, Value, Zeros;
    DerToJosePreservesValues(r, s);
    if |Der(r, s)| == 64 {
      DerIsNotJose(r, s);
    }
  }

  /** No 64-byte DER signature is the JOSE form of its own numbers. */
  lemma DerIsNotJose(r: nat, s: nat)
    requires r < Pow256(32) && s < Pow256(32) && |Der(r, s)| == 64
    ensures Der(r, s) != Jose(r, s)
  {
    hide ToBytes, Pow256, Value;
    ContentOf(r);
    ContentOf(s);
    var c, d, der, jose := Content(r), Content(s), Der(r, s), Jose(r, s);
    if der == jose {
      ToBytesOfValue(c, 32);
      ToBytesOfValue(d, 32);
      assert der[0] == 0x30 && jose[0] == ToBytes(r, 32)[0];
      assert |c| == 32;
      assert ToBytes(r, 32) == c;
      ShiftedByFour(der, c);
      assert false;
    }
  }

  /** A sequence whose first 32 bytes recur 4 places on repeats its first byte. */
  lemma ShiftedByFour(der: Bytes, c: Bytes)
    requires |der| == 64 && |c| == 32
    requires forall i :: 0 <= i < 32 ==> der[i] == c[i] && der[4 + i] == c[i]
    ensures der[32] == der[0]
  {
    assert der[32] == der[28] == der[24] == der[20] == der[16] == der[12] == der[8] == der[4] == der[0];
  }

  lemma {:induction false} PowerBytes(k: nat)
    ensures |MinimalBytes(Pow256(k))| == k + 1 && MinimalBytes(Pow256(k))[0] == 1
    ensures Pow256(k) < Pow256(k + 1)
  {
    if k > 0 {
      PowerBytes(k - 1);
      assert Pow256(k) / 256 == Pow256(k - 1);
    }
  }

  /** A DER signature of 64 bytes exists: r = 256^31, s = 256^25. Its numbers
      are not converted. */
  lemma SixtyFourByteDer()
    ensures Pow256(31) < Pow256(32) && Pow256(25) < Pow256(32)
    ensures |Der(Pow256(31), Pow256(25))| == 64
    ensures Normalized(Der(Pow256(31), Pow256(25))) == Ok(Der(Pow256(31), Pow256(25)))
  {
    hide ToBytes, Pow256, Value, Zeros;
    PowerBytes(31);
    PowerBytes(25);
    PowGrows(25, 32);
  }

  lemma {:induction false} PowGrows(j: nat, k: nat)
    requires j < k
    ensures Pow256(j) < Pow256(k)
  {
    PowerBytes(k - 1);
    if j < k - 1 {
      PowGrows(j, k - 1);
    }
  }

  /** On every input: what normalizing accepts is a fixed point of it, and what it
      converts has 64 bytes. */
  lemma NormalizeIdempotent(signature: Bytes)
    ensures var n := Normalized(signature);
            n.Ok? ==> Normalized(n.value) == n && (n.value == signature || |n.value| == 64)
  {
  }
}
