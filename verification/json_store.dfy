/** What a value becomes after it is written to the JSON file store and read
    back, and the redaction applied to event data before it is recorded. */
module JsonStore {
  import opened Options
  import opened CodeUnits
  import opened Json

  // ---------------------------------------------------------------------
  // Places in a value

  /** One step down: to the member of an object or the element of an array. */
  datatype Step = Key(key: Text) | Index(i: nat)

  function Lookup(ms: seq<Member>, key: Text): Option<Json> {
    if ms == [] then None
    else if ms[0].key == key then Some(ms[0].val)
    else Lookup(ms[1..], key)
  }

  function Child(v: Json, step: Step): (r: Option<Json>) {
    match step
    case Key(key) => if v.Obj? then Lookup(v.ms, key) else None
    case Index(i) => if v.Arr? && i < |v.es| then Some(v.es[i]) else None
  }

  /** What stands at a path, if there is such a place. */
  function At(v: Json, path: seq<Step>): Option<Json>
    decreases |path|
  {
    if path == [] then Some(v)
    else
      match Child(v, path[0])
      case None => None
      case Some(c) => At(c, path[1..])
  }

  lemma {:induction false} LookupMember(ms: seq<Member>, i: nat)
    requires DistinctKeys(ms) && i < |ms|
    ensures Lookup(ms, ms[i].key) == Some(ms[i].val)
  {
    if i > 0 {
      LookupMember(ms[1..], i - 1);
    }
  }

  lemma {:induction false} LookupExact(ms: seq<Member>, key: Text) returns (i: nat)
    ensures match Lookup(ms, key)
            case None => forall j :: 0 <= j < |ms| ==> ms[j].key != key
            case Some(v) => i < |ms| && ms[i] == Member(key, v)
  {
    i := 0;
    if ms != [] && ms[0].key != key {
      i := LookupExact(ms[1..], key);
      i := i + 1;
    }
  }

  // ---------------------------------------------------------------------
  // JSON.parse(JSON.stringify(v))

  /** Members that are `undefined` are dropped; array elements that are
      `undefined` come back as null. */
  function Stored(v: Json): (r: Json)
    ensures r.Undefined? <==> v.Undefined?
    decreases v, 2
  {
    match v
    case Arr(es) => Arr(StoredEach(v, es))
    case Obj(ms) => Obj(StoredMembers(v, ms))
    case _ => v
  }

  function StoredEach(v: Json, es: seq<Json>): (r: seq<Json>)
    requires forall i :: 0 <= i < |es| ==> es[i] < v
    ensures |r| == |es|
    ensures forall i :: 0 <= i < |es| ==> r[i] == if es[i].Undefined? then Null else Stored(es[i])
    decreases v, 1, |es|
  {
    if es == [] then []
    else [if es[0].Undefined? then Null else Stored(es[0])] + StoredEach(v, es[1..])
  }

  function StoredMembers(v: Json, ms: seq<Member>): (r: seq<Member>)
    requires forall i :: 0 <= i < |ms| ==> ms[i].val < v
    ensures |r| <= |ms|
    decreases v, 1, |ms|
  {
    if ms == [] then []
    else if ms[0].val.Undefined? then StoredMembers(v, ms[1..])
    else [Member(ms[0].key, Stored(ms[0].val))] + StoredMembers(v, ms[1..])
  }

  /** No object member anywhere in the value is `undefined`. */
  ghost predicate NoUndefinedMember(v: Json) {
    match v
    case Arr(es) => forall i :: 0 <= i < |es| ==> NoUndefinedMember(es[i])
    case Obj(ms) => forall i :: 0 <= i < |ms| ==> !ms[i].val.Undefined? && NoUndefinedMember(ms[i].val)
    case _ => true
  }

  /** Where each surviving member came from. */
  lemma {:induction false} StoredMemberOrigin(v: Json, ms: seq<Member>, x: Member) returns (i: nat)
    requires forall i :: 0 <= i < |ms| ==> ms[i].val < v
    requires x in StoredMembers(v, ms)
    ensures i < |ms| && !ms[i].val.Undefined? && x == Member(ms[i].key, Stored(ms[i].val))
    decreases |ms|
  {
    if !ms[0].val.Undefined? && x == Member(ms[0].key, Stored(ms[0].val)) {
      i := 0;
    } else {
      i := StoredMemberOrigin(v, ms[1..], x);
      i := i + 1;
    }
  }

  lemma {:induction false} StoredKeepsDistinct(v: Json, ms: seq<Member>)
    requires forall i :: 0 <= i < |ms| ==> ms[i].val < v
    requires DistinctKeys(ms)
    ensures DistinctKeys(StoredMembers(v, ms))
    decreases |ms|
  {
    if ms != [] {
      StoredKeepsDistinct(v, ms[1..]);
      var r := StoredMembers(v, ms[1..]);
      forall j | 0 <= j < |r|
        ensures r[j].key != ms[0].key
      {
        var i := StoredMemberOrigin(v, ms[1..], r[j]);
      }
    }
  }

  lemma {:induction false} StoredMembersAllDefined(v: Json, ms: seq<Member>)
    requires forall i :: 0 <= i < |ms| ==> ms[i].val < v
    requires forall i :: 0 <= i < |ms| ==> !ms[i].val.Undefined?
    ensures |StoredMembers(v, ms)| == |ms|
    ensures forall i :: 0 <= i < |ms| ==> StoredMembers(v, ms)[i] == Member(ms[i].key, Stored(ms[i].val))
    decreases |ms|
  {
    if ms != [] {
      StoredMembersAllDefined(v, ms[1..]);
    }
  }

  lemma {:induction false} StoredWellFormed(v: Json)
    requires WellFormed(v)
    ensures WellFormed(Stored(v))
  {
    match v
    case Arr(es) =>
      forall i | 0 <= i < |es|
        ensures WellFormed(Stored(v).es[i])
      {
        StoredWellFormed(es[i]);
      }
    case Obj(ms) =>
      var r := StoredMembers(v, ms);
      StoredKeepsDistinct(v, ms);
      forall j | 0 <= j < |r|
        ensures WellFormed(r[j].val)
      {
        var i := StoredMemberOrigin(v, ms, r[j]);
        StoredWellFormed(ms[i].val);
      }
    case _ =>
  }

  /** Storing keeps the value exactly when no object member is `undefined`. */
  lemma {:induction false} StoredEquivalent(v: Json)
    requires WellFormed(v)
    ensures Equivalent(Stored(v), v) <==> NoUndefinedMember(v)
  {
    match v
    case Arr(es) =>
      forall i | 0 <= i < |es|
        ensures Equivalent(Stored(v).es[i], es[i]) <==> NoUndefinedMember(es[i])
      {
        StoredEquivalent(es[i]);
      }
    case Obj(ms) =>
      forall i | 0 <= i < |ms|
        ensures Equivalent(Stored(ms[i].val), ms[i].val) <==> NoUndefinedMember(ms[i].val)
      {
        StoredEquivalent(ms[i].val);
      }
      if forall i :: 0 <= i < |ms| ==> !ms[i].val.Undefined? {
        StoredMembersAllDefined(v, ms);
        StoredObjectEquivalent(v);
      } else {
        var i :| 0 <= i < |ms| && ms[i].val.Undefined?;
        DroppedKeyIsMissing(v, i);
        assert Keys(ms)[i] in Keys(ms);
      }
    case _ =>
  }

  lemma StoredObjectEquivalent(v: Json)
    requires v.Obj? && DistinctKeys(v.ms)
    requires |StoredMembers(v, v.ms)| == |v.ms|
    requires forall i :: 0 <= i < |v.ms| ==>
                           StoredMembers(v, v.ms)[i] == Member(v.ms[i].key, Stored(v.ms[i].val))
    ensures Equivalent(Stored(v), v) <==>
            forall i :: 0 <= i < |v.ms| ==> Equivalent(Stored(v.ms[i].val), v.ms[i].val)
  {
    var r := StoredMembers(v, v.ms);
    assert Keys(r) == Keys(v.ms);
    if Equivalent(Stored(v), v) {
      forall i | 0 <= i < |v.ms|
        ensures Equivalent(Stored(v.ms[i].val), v.ms[i].val)
      {
        assert r[i].key == v.ms[i].key;
      }
    }
  }

  lemma DroppedKeyIsMissing(v: Json, i: nat)
    requires v.Obj? && DistinctKeys(v.ms) && i < |v.ms| && v.ms[i].val.Undefined?
    ensures v.ms[i].key !in Keys(StoredMembers(v, v.ms))
  {
    var r := StoredMembers(v, v.ms);
    forall j | 0 <= j < |r|
      ensures r[j].key != v.ms[i].key
    {
      var k := StoredMemberOrigin(v, v.ms, r[j]);
    }
  }

  /** The text hashed before a write equals the text hashed after the read
      exactly when no object member is `undefined`. */
  lemma StoredCanonical(v: Json)
    requires WellFormed(v)
    ensures Canonicalize(Stored(v)) == Canonicalize(v) <==> NoUndefinedMember(v)
  {
    StoredWellFormed(v);
    StoredEquivalent(v);
    CanonicalizeUnambiguous(Stored(v), v);
  }

  /** The keys of the members that are not `undefined`, in their order. */
  function DefinedKeys(ms: seq<Member>): seq<Text> {
    if ms == [] then []
    else if ms[0].val.Undefined? then DefinedKeys(ms[1..])
    else [ms[0].key] + DefinedKeys(ms[1..])
  }

  /** What the file gives for a value, one level deep: an array of the same
      length, an object with the defined members, a scalar as it is. */
  ghost predicate StoredShape(v: Json, r: Json) {
    match v
    case Arr(es) => r.Arr? && |r.es| == |es|
    case Obj(ms) => r.Obj? && Keys(r.ms) == DefinedKeys(ms)
    case _ => r == v
  }

  /** Place by place: whatever is not `undefined` stays where it was, an element
      that is `undefined` becomes null and a member that is `undefined` is gone. */
  lemma {:induction false} StoredKeeps(v: Json, path: seq<Step>)
    requires WellFormed(v)
    ensures var x, y := At(v, path), At(Stored(v), path);
            match x
            case None => y.None?
            case Some(u) =>
              if u.Undefined? && path != [] then
                y == if path[|path| - 1].Key? then None else Some(Null)
              else y.Some? && StoredShape(u, y.value)
    decreases |path|
  {
    if path == [] {
      if v.Obj? {
        StoredKeys(v, v.ms);
      }
    } else {
      StoredChild(v, path[0]);
      var c := Child(v, path[0]);
      if c.Some? && c.value.Undefined? {
        if |path| > 1 {
          assert Child(c.value, path[1..][0]).None? && Child(Null, path[1..][0]).None?;
        }
      } else if c.Some? {
        StoredKeeps(c.value, path[1..]);
        assert |path| > 1 ==> path[1..][|path| - 2] == path[|path| - 1];
      }
    }
  }

  lemma StoredChild(v: Json, step: Step)
    requires WellFormed(v)
    ensures match Child(v, step)
            case None => Child(Stored(v), step).None?
            case Some(c) =>
              && WellFormed(c)
              && Child(Stored(v), step) ==
                 if !c.Undefined? then Some(Stored(c)) else if step.Key? then None else Some(Null)
  {
    if v.Obj? && step.Key? {
      var i := LookupExact(v.ms, step.key);
      StoredLookup(v, v.ms, step.key);
    }
  }

  lemma {:induction false} StoredLookup(v: Json, ms: seq<Member>, key: Text)
    requires DistinctKeys(ms) && forall i :: 0 <= i < |ms| ==> ms[i].val < v
    ensures match Lookup(ms, key)
            case None => Lookup(StoredMembers(v, ms), key).None?
            case Some(c) =>
              Lookup(StoredMembers(v, ms), key) == if c.Undefined? then None else Some(Stored(c))
    decreases |ms|
  {
    if ms != [] {
      StoredLookup(v, ms[1..], key);
      var i := LookupExact(ms[1..], key);
    }
  }

  lemma {:induction false} StoredKeys(v: Json, ms: seq<Member>)
    requires forall i :: 0 <= i < |ms| ==> ms[i].val < v
    ensures Keys(StoredMembers(v, ms)) == DefinedKeys(ms)
    decreases |ms|
  {
    if ms != [] {
      StoredKeys(v, ms[1..]);
      if !ms[0].val.Undefined? {
        KeysCons(Member(ms[0].key, Stored(ms[0].val)), StoredMembers(v, ms[1..]));
      }
    }
  }

  /** Reading what was read changes nothing more. */
  lemma {:induction false} StoredIdempotent(v: Json)
    ensures Stored(Stored(v)) == Stored(v)
    decreases v, 2
  {
    match v
    case Arr(es) =>
      var r := StoredEach(v, es);
      forall i | 0 <= i < |es|
        ensures StoredEach(Arr(r), r)[i] == r[i]
      {
        StoredIdempotent(es[i]);
      }
      assert StoredEach(Arr(r), r) == r;
    case Obj(ms) =>
      var r := StoredMembers(v, ms);
      forall j | 0 <= j < |r|
        ensures !r[j].val.Undefined? && Stored(r[j].val) == r[j].val
      {
        var i := StoredMemberOrigin(v, ms, r[j]);
        StoredIdempotent(ms[i].val);
      }
      StoredMembersAllDefined(Obj(r), r);
      assert StoredMembers(Obj(r), r) == r;
    case _ =>
  }

  // ---------------------------------------------------------------------
  // Redaction of event data

  const SENSITIVE_KEYS: set<Text> := {
    Ascii("accessToken"),
    Ascii("authorization"),
    Ascii("clientSecret"),
    Ascii("credential"),
    Ascii("idToken"),
    Ascii("privateKey"),
    Ascii("rawCredential"),
    Ascii("token")
  }

  const REDACTED: Json := Str(Ascii("[redacted]"))

  function Redact(v: Json): Json
    decreases v, 2
  {
    match v
    case Arr(es) => Arr(RedactEach(v, es))
    case Obj(ms) => Obj(RedactMembers(v, ms))
    case _ => v
  }

  function RedactEach(v: Json, es: seq<Json>): (r: seq<Json>)
    requires forall i :: 0 <= i < |es| ==> es[i] < v
    ensures |r| == |es| && forall i :: 0 <= i < |es| ==> r[i] == Redact(es[i])
    decreases v, 1, |es|
  {
    if es == [] then [] else [Redact(es[0])] + RedactEach(v, es[1..])
  }

  function RedactMembers(v: Json, ms: seq<Member>): (r: seq<Member>)
    requires forall i :: 0 <= i < |ms| ==> ms[i].val < v
    ensures |r| == |ms|
    ensures forall i :: 0 <= i < |ms| ==> r[i].key == ms[i].key &&
                                          r[i].val == (if ms[i].key in SENSITIVE_KEYS then REDACTED
                                                       else Redact(ms[i].val))
    decreases v, 1, |ms|
  {
    if ms == [] then []
    else
      [Member(ms[0].key, if ms[0].key in SENSITIVE_KEYS then REDACTED else Redact(ms[0].val))] +
      RedactMembers(v, ms[1..])
  }

  /** No sensitive member anywhere still shows its value. */
  ghost predicate NoSecret(v: Json) {
    match v
    case Arr(es) => forall i :: 0 <= i < |es| ==> NoSecret(es[i])
    case Obj(ms) => forall i :: 0 <= i < |ms| ==>
        (ms[i].key in SENSITIVE_KEYS ==> ms[i].val == REDACTED) && NoSecret(ms[i].val)
    case _ => true
  }

  /** Every `undefined` member of the value sits at or below a sensitive key. */
  ghost predicate OnlySensitiveUndefined(v: Json) {
    match v
    case Arr(es) => forall i :: 0 <= i < |es| ==> OnlySensitiveUndefined(es[i])
    case Obj(ms) =>
      forall i :: 0 <= i < |ms| && ms[i].key !in SENSITIVE_KEYS ==>
                    !ms[i].val.Undefined? && OnlySensitiveUndefined(ms[i].val)
    case _ => true
  }

  lemma {:induction false} RedactHidesSecrets(v: Json)
    ensures NoSecret(Redact(v))
    ensures WellFormed(v) ==> WellFormed(Redact(v))
    ensures NoUndefinedMember(Redact(v)) <==> OnlySensitiveUndefined(v)
  {
    match v
    case Arr(es) =>
      var r := RedactEach(v, es);
      forall i | 0 <= i < |es|
        ensures NoSecret(r[i])
        ensures WellFormed(es[i]) ==> WellFormed(r[i])
        ensures NoUndefinedMember(r[i]) <==> OnlySensitiveUndefined(es[i])
      {
        RedactHidesSecrets(es[i]);
      }
    case Obj(ms) =>
      var r := RedactMembers(v, ms);
      forall i | 0 <= i < |ms|
        ensures NoSecret(r[i].val)
        ensures WellFormed(ms[i].val) ==> WellFormed(r[i].val)
        ensures !r[i].val.Undefined? && NoUndefinedMember(r[i].val) <==>
                ms[i].key in SENSITIVE_KEYS || (!ms[i].val.Undefined? && OnlySensitiveUndefined(ms[i].val))
      {
        RedactHidesSecrets(ms[i].val);
      }
    case _ =>
  }

  /** The path names no sensitive key. */
  predicate Open(path: seq<Step>) {
    forall i :: 0 <= i < |path| ==> path[i].Key? ==> path[i].key !in SENSITIVE_KEYS
  }

  /** The same value one level deep: an array of the same length, an object with
      the same keys in the same order, an equal scalar. */
  ghost predicate SameShape(v: Json, r: Json) {
    match v
    case Arr(es) => r.Arr? && |r.es| == |es|
    case Obj(ms) => r.Obj? && Keys(r.ms) == Keys(ms)
    case _ => r == v
  }

  /** Place by place: what no sensitive key leads to stays as it is, the value of
      the first sensitive key on a path reads `[redacted]`, and nothing is below. */
  lemma {:induction false} RedactKeeps(v: Json, path: seq<Step>)
    ensures var x, y := At(v, path), At(Redact(v), path);
            if Open(path) then
              (x.None? <==> y.None?) && (x.Some? ==> SameShape(x.value, y.value))
            else if Open(path[..|path| - 1]) then
              y == if x.None? then None else Some(REDACTED)
            else y.None?
    decreases |path|
  {
    hide SENSITIVE_KEYS;
    if path != [] {
      var step, rest := path[0], path[1..];
      var c := Child(v, step);
      RedactChild(v, step);
      OpenCons(path);
      if c.Some? && Open([step]) {
        RedactKeeps(c.value, rest);
        if rest != [] {
          OpenCons(path[..|path| - 1]);
          assert path[..|path| - 1][1..] == rest[..|rest| - 1];
        }
      } else if c.Some? && rest != [] {
        assert Child(REDACTED, rest[0]).None?;
        OpenCons(path[..|path| - 1]);
      } else if c.Some? {
        assert path[..|path| - 1] == [];
      }
    }
  }

  lemma RedactChild(v: Json, step: Step)
    ensures match Child(v, step)
            case None => Child(Redact(v), step).None?
            case Some(c) => Child(Redact(v), step) == Some(if Open([step]) then Redact(c) else REDACTED)
  {
    hide SENSITIVE_KEYS, REDACTED;
    if step.Key? {
      assert Open([step]) <==> [step][0].key !in SENSITIVE_KEYS;
      if v.Obj? {
        RedactLookup(v, v.ms, step.key);
      }
    }
  }

  lemma {:induction false} RedactLookup(v: Json, ms: seq<Member>, key: Text)
    requires forall i :: 0 <= i < |ms| ==> ms[i].val < v
    ensures match Lookup(ms, key)
            case None => Lookup(RedactMembers(v, ms), key).None?
            case Some(c) =>
              Lookup(RedactMembers(v, ms), key) == Some(if key in SENSITIVE_KEYS then REDACTED else Redact(c))
    decreases |ms|
  {
    hide SENSITIVE_KEYS, REDACTED;
    if ms != [] {
      RedactLookup(v, ms[1..], key);
    }
  }

  lemma OpenCons(path: seq<Step>)
    requires path != []
    ensures Open(path) <==> Open([path[0]]) && Open(path[1..])
  {
    hide SENSITIVE_KEYS;
    assert path == [path[0]] + path[1..];
    if Open([path[0]]) && Open(path[1..]) {
      assert [path[0]][0] == path[0];
      assert forall i :: 1 <= i < |path| ==> path[i] == path[1..][i - 1];
    }
  }

  /** Exactly these eight names are sensitive. */
  lemma SensitiveNames(key: Text)
    ensures key in SENSITIVE_KEYS <==>
            || key == Ascii("accessToken") || key == Ascii("authorization") || key == Ascii("clientSecret")
            || key == Ascii("credential") || key == Ascii("idToken") || key == Ascii("privateKey")
            || key == Ascii("rawCredential") || key == Ascii("token")
  {
  }
}
