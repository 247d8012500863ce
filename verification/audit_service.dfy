/** Appending audit events to the ledger and reporting on it, with signing and
    anchoring disabled. */
module AuditService {
  import opened Options
  import opened CodeUnits
  import opened Json
  import opened JsonStore
  import opened EvidenceChain

  /** Contiguous sequence numbers from 0 and a hash on every record. */
  predicate IsChained(rs: seq<Record>) {
    forall i :: 0 <= i < |rs| ==> rs[i].seqNo == Num(i) && rs[i].hash.Str?
  }

  /** Records without a sequence number are marked before they are re-chained. */
  function FlagLegacy(rs: seq<Record>): (r: seq<Record>)
    ensures |r| == |rs| && forall i :: 0 <= i < |rs| ==> r[i].core == rs[i].core
  {
    seq(|rs|, i requires 0 <= i < |rs| => if rs[i].seqNo.Num? then rs[i] else rs[i].(migrated := true))
  }

  function Migrated(h: HashFunction, existing: seq<Record>): (rs: seq<Record>)
    ensures |rs| == |existing|
    ensures forall i :: 0 <= i < |rs| ==> HasHead(rs[i])
  {
    if IsChained(existing) then existing else ChainFrom(h, None, FlagLegacy(existing))
  }

  function AppendEvent(h: HashFunction, existing: seq<Record>, c: Core): seq<Record> {
    var records := Migrated(h, existing);
    records + [BuildChainedRecord(h, LastHead(records), c)]
  }

  /** The core of a new event: the data is redacted, absent data is `{}`. */
  function EventCore(id: Text, typ: Text, data: Json, createdAt: Text): Core {
    Core(Str(id), Str(typ), Redact(if data.Undefined? then Obj([]) else data), Str(createdAt))
  }

  function Unchained(c: Core): Record {
    Record(c, Undefined, Undefined, Undefined, Undefined, false, [])
  }

  // ---------------------------------------------------------------------
  // What the file holds after a write

  function StoredCore(c: Core): Core {
    Core(Stored(c.id), Stored(c.typ), Stored(c.data), Stored(c.createdAt))
  }

  function Reread(r: Record): Record {
    Record(StoredCore(r.core), Stored(r.seqNo), Stored(r.payloadHash), Stored(r.prevHash), Stored(r.hash),
           r.migrated, StoredMembers(Obj(r.extra), r.extra))
  }

  function RereadStore(rs: seq<Record>): (r: seq<Record>)
    ensures |r| == |rs| && forall i :: 0 <= i < |rs| ==> r[i] == Reread(rs[i])
  {
    seq(|rs|, i requires 0 <= i < |rs| => Reread(rs[i]))
  }

  /** The records came from reading a JSON file. */
  ghost predicate AsRead(rs: seq<Record>) { RereadStore(rs) == rs }

  /** One append to the file, as the next read will see it. */
  function Commit(h: HashFunction, existing: seq<Record>, c: Core): seq<Record> {
    RereadStore(AppendEvent(h, existing, c))
  }

  function CoresOf(rs: seq<Record>): (cs: seq<Core>)
    ensures |cs| == |rs| && forall i :: 0 <= i < |rs| ==> cs[i] == rs[i].core
  {
    seq(|rs|, i requires 0 <= i < |rs| => rs[i].core)
  }

  datatype Report = NotChained | Checked(verdict: Verdict)

  function AuditReport(h: HashFunction, rs: seq<Record>): Report {
    if rs == [] then Checked(Ok(0))
    else if !IsChained(rs) then NotChained
    else Checked(VerdictFrom(h, rs, 0))
  }

  /** The service: its store holds what reading the file returns. */
  class Service {
    const h: HashFunction
    const chainingEnabled: bool
    var store: seq<Record>

    constructor (h: HashFunction, chainingEnabled: bool, initial: seq<Record>)
      ensures this.h == h && this.chainingEnabled == chainingEnabled && store == initial
    {
      this.h := h;
      this.chainingEnabled := chainingEnabled;
      store := initial;
    }

    method WriteAuditEvent(id: Text, typ: Text, data: Json, createdAt: Text) returns (record: Record)
      modifies this
      ensures var c := EventCore(id, typ, data, createdAt);
              if chainingEnabled then
                store == Commit(h, old(store), c) &&
                record == AppendEvent(h, old(store), c)[|old(store)|]
              else store == RereadStore(old(store) + [Unchained(c)]) && record == Unchained(c)
      ensures record.core.id == Str(id) && record.core.typ == Str(typ) && record.core.createdAt == Str(createdAt)
      ensures data.Undefined? ==> record.core.data == Obj([])
    {
      var existing := store;
      var c := EventCore(id, typ, data, createdAt);
      if !chainingEnabled {
        record := Unchained(c);
        store := RereadStore(existing + [record]);
        return;
      }
      var records := existing;
      if !IsChained(existing) {
        records := ChainAll(h, FlagLegacy(existing));
      }
      record := BuildChainedRecord(h, LastHead(records), c);
      store := RereadStore(records + [record]);
    }

    method VerifyAuditChain() returns (report: Report)
      ensures report == AuditReport(h, store)
    {
      if store == [] {
        return Checked(Ok(0));
      }
      if !IsChained(store) {
        return NotChained;
      }
      var v := VerifyChain(h, store);
      return Checked(v);
    }
  }

  // ---------------------------------------------------------------------
  // What one append does to a store

  lemma VerifyingIsChained(h: HashFunction, rs: seq<Record>)
    requires ChainOk(h, rs)
    ensures IsChained(rs)
  {
    forall i | 0 <= i < |rs|
      ensures rs[i].seqNo == Num(i) && rs[i].hash.Str?
    {
      assert Linked(h, rs, i);
    }
  }

  /** The service reports ok exactly on the stores in which every record links. */
  lemma ReportExact(h: HashFunction, rs: seq<Record>)
    ensures AuditReport(h, rs) == Checked(Ok(|rs|)) <==> ChainOk(h, rs)
    ensures AuditReport(h, rs) == NotChained <==>
            exists i :: 0 <= i < |rs| && (rs[i].seqNo != Num(i) || !rs[i].hash.Str?)
    ensures AuditReport(h, rs).Checked? ==> AuditReport(h, rs).verdict == VerdictFrom(h, rs, 0)
  {
    VerdictExact(h, rs);
    if ChainOk(h, rs) {
      VerifyingIsChained(h, rs);
    }
  }

  /** One append makes a verifying or unchained store verify, keeps every core in
      place and adds the new one; a contiguous but broken store keeps its verdict. */
  lemma AppendOutcome(h: HashFunction, existing: seq<Record>, c: Core)
    ensures var all := AppendEvent(h, existing, c);
            && CoresOf(all) == CoresOf(existing) + [c]
            && (ChainOk(h, all) <==> ChainOk(h, existing) || !IsChained(existing))
            && (IsChained(existing) && !ChainOk(h, existing) ==> VerdictFrom(h, all, 0) == VerdictFrom(h, existing, 0))
  {
    var records := Migrated(h, existing);
    var all := AppendEvent(h, existing, c);
    ChainFromKeepsCores(h, None, FlagLegacy(existing));
    AppendedCores(h, records, CoresOf(existing), c);
    hide BuildChainedRecord, LastHead, VerdictFrom, ChainFrom, FlagLegacy;
    if IsChained(existing) && !ChainOk(h, existing) {
      BrokenStaysBroken(h, existing, all[|existing|]);
    } else {
      if !IsChained(existing) {
        ChainAllVerifies(h, FlagLegacy(existing));
        VerdictExact(h, records);
      }
      AppendLinks(h, records, all[|records|]);
    }
  }

  /** Everything else about the stored records: a contiguous store is kept as it
      is; otherwise every record keeps its properties outside the chain, and is
      marked as migrated if it had no sequence number. */
  lemma AppendKeeps(h: HashFunction, existing: seq<Record>, c: Core, i: nat)
    requires i < |existing|
    ensures var r := AppendEvent(h, existing, c)[i];
            && (IsChained(existing) ==> r == existing[i])
            && (!IsChained(existing) ==>
                  && r.core == existing[i].core && r.extra == existing[i].extra
                  && r.migrated == (existing[i].migrated || !existing[i].seqNo.Num?))
  {
    hide BuildChainedRecord, LastHead, ChainFrom;
    if !IsChained(existing) {
      ChainKeeps(h, None, FlagLegacy(existing), i);
    }
  }

  lemma AppendedCores(h: HashFunction, records: seq<Record>, cores: seq<Core>, c: Core)
    requires CoresOf(records) == cores && (records == [] || HasHead(records[|records| - 1]))
    ensures CoresOf(records + [BuildChainedRecord(h, LastHead(records), c)]) == cores + [c]
  {
  }

  lemma {:induction false} ChainFromKeepsCores(h: HashFunction, prev: Option<Head>, rs: seq<Record>)
    ensures CoresOf(ChainFrom(h, prev, rs)) == CoresOf(rs)
    decreases |rs|
  {
    if rs != [] {
      ChainFromKeepsCores(h, Some(HeadOf(Rechain(h, prev, rs[0]))), rs[1..]);
      forall i | 0 <= i < |rs|
        ensures ChainFrom(h, prev, rs)[i].core == rs[i].core
      {
        if i > 0 {
          assert CoresOf(rs[1..])[i - 1] == rs[i].core;
          assert CoresOf(ChainFrom(h, prev, rs))[i] ==
                 CoresOf(ChainFrom(h, Some(HeadOf(Rechain(h, prev, rs[0]))), rs[1..]))[i - 1];
        }
      }
    }
  }

  lemma BrokenStaysBroken(h: HashFunction, rs: seq<Record>, r: Record)
    requires !ChainOk(h, rs)
    ensures VerdictFrom(h, rs + [r], 0) == VerdictFrom(h, rs, 0)
    ensures !ChainOk(h, rs + [r])
  {
    var all := rs + [r];
    VerdictExact(h, rs);
    var v := VerdictFrom(h, rs, 0);
    assert all[..v.count] == rs[..v.count];
    assert ExpectedPrev(all, v.count) == ExpectedPrev(rs, v.count);
    VerdictAt(h, all, v.count, v.reason);
    VerdictExact(h, all);
  }

  /** A verifying store from which a middle record was removed is taken for an
      unchained one: it is reported as not chained until the next append, which
      re-chains it, and after that append it verifies. */
  lemma RemovalThenAppend(h: HashFunction, rs: seq<Record>, i: nat, c: Core)
    requires ChainOk(h, rs) && i < |rs| - 1
    ensures var cut := rs[..i] + rs[i + 1..];
            && AuditReport(h, cut) == NotChained
            && AuditReport(h, AppendEvent(h, cut, c)) == Checked(Ok(|rs|))
  {
    var cut := rs[..i] + rs[i + 1..];
    assert Linked(h, rs, i + 1) && cut[i] == rs[i + 1];
    AppendOutcome(h, cut, c);
    ReportExact(h, AppendEvent(h, cut, c));
    assert |AppendEvent(h, cut, c)| == |rs|;
  }

  // ---------------------------------------------------------------------
  // What was hashed is what is re-read

  ghost predicate NoUndefinedInCore(c: Core) {
    NoUndefinedMember(c.id) && NoUndefinedMember(c.typ) && NoUndefinedMember(c.data) && NoUndefinedMember(c.createdAt)
  }

  lemma RereadPayload(c: Core)
    requires WellFormedCore(c)
    ensures WellFormedCore(StoredCore(c))
    ensures PayloadText(StoredCore(c)) == PayloadText(c) <==> NoUndefinedInCore(c)
  {
    StoredWellFormed(c.id); StoredWellFormed(c.typ); StoredWellFormed(c.data); StoredWellFormed(c.createdAt);
    StoredEquivalent(c.id); StoredEquivalent(c.typ); StoredEquivalent(c.data); StoredEquivalent(c.createdAt);
    PayloadTextUnambiguous(StoredCore(c), c);
  }

  lemma {:induction false} ChainFromAsRead(h: HashFunction, prev: Option<Head>, rs: seq<Record>)
    requires AsRead(rs)
    ensures AsRead(ChainFrom(h, prev, rs))
    decreases |rs|
  {
    if rs != [] {
      AsReadTail(rs);
      var r := Rechain(h, prev, rs[0]);
      ChainFromAsRead(h, Some(HeadOf(r)), rs[1..]);
      assert RereadStore(rs)[0] == rs[0];
      assert Reread(r) == r;
      AsReadCons(r, ChainFrom(h, Some(HeadOf(r)), rs[1..]));
    }
  }

  lemma AsReadTail(rs: seq<Record>)
    requires AsRead(rs) && rs != []
    ensures AsRead(rs[1..])
  {
    forall i | 0 <= i < |rs| - 1
      ensures RereadStore(rs[1..])[i] == rs[1..][i]
    {
      assert RereadStore(rs)[i + 1] == rs[i + 1];
    }
  }

  lemma AsReadCons(r: Record, rs: seq<Record>)
    requires Reread(r) == r && AsRead(rs)
    ensures AsRead([r] + rs)
  {
    forall i | 0 <= i < |rs| + 1
      ensures RereadStore([r] + rs)[i] == ([r] + rs)[i]
    {
      if i > 0 {
        assert RereadStore(rs)[i - 1] == rs[i - 1];
      }
    }
  }

  lemma MigratedAsRead(h: HashFunction, existing: seq<Record>)
    requires AsRead(existing)
    ensures AsRead(Migrated(h, existing))
  {
    var flagged := FlagLegacy(existing);
    forall i | 0 <= i < |flagged|
      ensures Reread(flagged[i]) == flagged[i]
    {
      assert RereadStore(existing)[i] == existing[i];
    }
    assert RereadStore(flagged) == flagged;
    ChainFromAsRead(h, None, flagged);
  }

  /** The file differs from what was built only in the new record's core. */
  lemma CommitIsEdit(h: HashFunction, existing: seq<Record>, c: Core)
    requires AsRead(existing)
    ensures var all, n := AppendEvent(h, existing, c), |existing|;
            |all| == n + 1 && all[n].core == c && Commit(h, existing, c) == all[n := all[n].(core := StoredCore(c))]
    ensures AsRead(Commit(h, existing, c))
  {
    var all, n := AppendEvent(h, existing, c), |existing|;
    MigratedAsRead(h, existing);
    var records := Migrated(h, existing);
    forall i | 0 <= i < n
      ensures Reread(all[i]) == all[i]
    {
      assert RereadStore(records)[i] == records[i];
    }
    assert StoredMembers(Obj([]), []) == [];
    var edited := all[n := all[n].(core := StoredCore(c))];
    assert RereadStore(all) == edited;
    StoredIdempotent(c.id); StoredIdempotent(c.typ); StoredIdempotent(c.data); StoredIdempotent(c.createdAt);
    forall i | 0 <= i < n + 1
      ensures Reread(edited[i]) == edited[i]
    {
      if i < n {
        assert Reread(all[i]) == all[i];
      }
    }
    assert RereadStore(edited) == edited;
  }

  /** After a write and a read, a verifying or unchained store verifies if no
      member of the event is `undefined`. Otherwise the payload text read back is
      a different one: the new record is reported as tampered with, or the two
      texts are a collision. */
  lemma CommitVerifies(h: HashFunction, existing: seq<Record>, c: Core)
    requires AsRead(existing) && WellFormedCore(c)
    requires ChainOk(h, existing) || !IsChained(existing)
    ensures var v, n := VerdictFrom(h, Commit(h, existing, c), 0), |existing|;
            var x, y := PayloadText(c), PayloadText(StoredCore(c));
            && (x == y <==> NoUndefinedInCore(c))
            && (h(x) == h(y) ==> v == Ok(n + 1))
            && (h(x) != h(y) ==> v == Broken(n, PayloadTampered, n))
  {
    var all, n := AppendEvent(h, existing, c), |existing|;
    AppendOutcome(h, existing, c);
    CommitIsEdit(h, existing, c);
    RereadPayload(c);
    EditPinpointed(h, all, n, StoredCore(c));
  }

  /** A committed store is contiguous, so the report is the verifier's verdict. */
  lemma CommitReport(h: HashFunction, existing: seq<Record>, c: Core)
    requires AsRead(existing) && (ChainOk(h, existing) || !IsChained(existing))
    ensures AuditReport(h, Commit(h, existing, c)) == Checked(VerdictFrom(h, Commit(h, existing, c), 0))
  {
    var all := AppendEvent(h, existing, c);
    AppendOutcome(h, existing, c);
    CommitIsEdit(h, existing, c);
    VerifyingIsChained(h, all);
    hide AppendEvent, VerdictFrom;
    assert IsChained(Commit(h, existing, c));
  }

  /** A concrete event that does not survive: its data is { a: undefined }. The file
      gives back {}, which is hashed differently, so the ledger reports the record
      it has just written as tampered with. */
  lemma UndefinedMemberBreaks(h: HashFunction)
    ensures var c := EventCore([0x31], [0x74], Obj([Member([0x61], Undefined)]), [0x30]);
            && StoredCore(c).data == Obj([])
            && PayloadText(c) != PayloadText(StoredCore(c))
            && (h(PayloadText(c)) != h(PayloadText(StoredCore(c))) ==>
                  AuditReport(h, Commit(h, [], c)) == Checked(Broken(0, PayloadTampered, 0)))
  {
    var c := EventCore([0x31], [0x74], Obj([Member([0x61], Undefined)]), [0x30]);
    UndefinedMemberDropped();
    hide PayloadText, AppendEvent, VerdictFrom, AuditReport;
    CommitVerifies(h, [], c);
    CommitReport(h, [], c);
  }

  lemma UndefinedMemberDropped()
    ensures var data := Obj([Member([0x61], Undefined)]);
            Redact(data) == data && Stored(data) == Obj([]) && !NoUndefinedMember(data) && WellFormed(data)
  {
    var m := Member([0x61], Undefined);
    var data := Obj([m]);
    assert data.ms[0] == m && [m][1..] == [];
    assert RedactMembers(data, [m]) == [m];
    assert StoredMembers(data, [m]) == [];
  }

  lemma EventCoreKeepsUndefined(id: Text, typ: Text, data: Json, createdAt: Text)
    requires WellFormed(data)
    ensures var c := EventCore(id, typ, data, createdAt);
            && WellFormedCore(c) && NoSecret(c.data)
            && (NoUndefinedInCore(c) <==> OnlySensitiveUndefined(data))
  {
    RedactHidesSecrets(if data.Undefined? then Obj([]) else data);
  }

  datatype Event = Event(id: Text, typ: Text, data: Json, createdAt: Text)

  /** What one call records: the id, type and time that it was given and, place
      by place, the data with exactly the values of sensitive keys replaced. */
  lemma EventRecorded(h: HashFunction, existing: seq<Record>, e: Event, path: seq<Step>)
    ensures var c := EventCore(e.id, e.typ, e.data, e.createdAt);
            var all := AppendEvent(h, existing, c);
            && |all| == |existing| + 1
            && all[|existing|].core == c == Unchained(c).core
            && c.id == Str(e.id) && c.typ == Str(e.typ) && c.createdAt == Str(e.createdAt)
            && (e.data.Undefined? ==> c.data == Obj([]))
            && (!e.data.Undefined? ==>
                  var x, y := At(e.data, path), At(c.data, path);
                  if Open(path) then (x.None? <==> y.None?) && (x.Some? ==> SameShape(x.value, y.value))
                  else if Open(path[..|path| - 1]) then y == if x.None? then None else Some(REDACTED)
                  else y.None?)
    ensures var u := Unchained(EventCore(e.id, e.typ, e.data, e.createdAt));
            && u.seqNo.Undefined? && u.payloadHash.Undefined? && u.prevHash.Undefined? && u.hash.Undefined?
            && !u.migrated && u.extra == []
  {
    hide SENSITIVE_KEYS;
    RedactKeeps(e.data, path);
    var none := Obj([]);
    assert RedactMembers(none, []) == [];
  }

  ghost predicate Scalar(v: Json) { v.Null? || v.Bool? || v.Num? || v.Str? }

  /** And what the file then holds: every scalar of the data that no sensitive key
      leads to, at its place, and `[redacted]` for the value of a sensitive key. */
  lemma EventOnFile(h: HashFunction, existing: seq<Record>, e: Event, path: seq<Step>)
    requires AsRead(existing) && WellFormed(e.data) && !e.data.Undefined?
    ensures var file := Commit(h, existing, EventCore(e.id, e.typ, e.data, e.createdAt));
            && |file| == |existing| + 1
            && var r := file[|existing|].core;
               var x := At(e.data, path);
               && r.id == Str(e.id) && r.typ == Str(e.typ) && r.createdAt == Str(e.createdAt)
               && (Open(path) && x.Some? && Scalar(x.value) ==> At(r.data, path) == x)
               && (!Open(path) && Open(path[..|path| - 1]) && x.Some? ==> At(r.data, path) == Some(REDACTED))
  {
    hide *;
    var c := EventCore(e.id, e.typ, e.data, e.createdAt);
    CommitIsEdit(h, existing, c);
    EventCoreOnFile(e);
    RedactedOnFile(e.data, path);
    var all := AppendEvent(h, existing, c);
    assert Commit(h, existing, c)[|existing|].core == StoredCore(c);
  }

  lemma EventCoreOnFile(e: Event)
    requires !e.data.Undefined?
    ensures var r := StoredCore(EventCore(e.id, e.typ, e.data, e.createdAt));
            r == Core(Str(e.id), Str(e.typ), Stored(Redact(e.data)), Str(e.createdAt))
  {
    hide SENSITIVE_KEYS, Redact;
  }

  lemma RedactedOnFile(data: Json, path: seq<Step>)
    requires WellFormed(data) && !data.Undefined?
    ensures var x, y := At(data, path), At(Stored(Redact(data)), path);
            && (Open(path) && x.Some? && Scalar(x.value) ==> y == x)
            && (!Open(path) && Open(path[..|path| - 1]) && x.Some? ==> y == Some(REDACTED))
  {
    hide At, Open, Redact, Stored, SENSITIVE_KEYS;
    RedactKeeps(data, path);
    RedactHidesSecrets(data);
    StoredKeeps(Redact(data), path);
  }

  // ---------------------------------------------------------------------
  // Runs of writes

  function CommitAll(h: HashFunction, store: seq<Record>, events: seq<Event>): seq<Record>
    decreases |events|
  {
    if events == [] then store else CommitAll(h, CommitEvent(h, store, events[0]), events[1..])
  }

  function CommitEvent(h: HashFunction, store: seq<Record>, e: Event): seq<Record> {
    Commit(h, store, EventCore(e.id, e.typ, e.data, e.createdAt))
  }

  /** Read from a file, and either verifying or not chained at all. */
  ghost predicate Extendable(h: HashFunction, store: seq<Record>) {
    AsRead(store) && (ChainOk(h, store) || !IsChained(store))
  }

  ghost predicate KeepsAllMembers(e: Event) {
    WellFormed(e.data) && OnlySensitiveUndefined(e.data)
  }

  /** Any non-empty run of writes whose undefined members are all under
      sensitive keys turns a verifying or unchained file into a verifying one. */
  lemma RunVerifies(h: HashFunction, store: seq<Record>, events: seq<Event>)
    requires Extendable(h, store) && events != []
    requires forall i :: 0 <= i < |events| ==> KeepsAllMembers(events[i])
    ensures ChainOk(h, CommitAll(h, store, events)) && |CommitAll(h, store, events)| == |store| + |events|
  {
    assert ChainOk(h, CommitAll(h, store, events)) && |CommitAll(h, store, events)| == |store| + |events| by {
      CommitEventVerifies(h, store, events[0]);
      CommitAllVerifies(h, CommitEvent(h, store, events[0]), events[1..]);
    }
  }

  lemma {:induction false} CommitAllVerifies(h: HashFunction, store: seq<Record>, events: seq<Event>)
    requires AsRead(store) && ChainOk(h, store)
    requires forall i :: 0 <= i < |events| ==> KeepsAllMembers(events[i])
    ensures ChainOk(h, CommitAll(h, store, events)) && |CommitAll(h, store, events)| == |store| + |events|
    decreases |events|
  {
    if events != [] {
      CommitEventVerifies(h, store, events[0]);
      CommitAllVerifies(h, CommitEvent(h, store, events[0]), events[1..]);
    }
  }

  lemma CommitEventVerifies(h: HashFunction, store: seq<Record>, e: Event)
    requires Extendable(h, store) && KeepsAllMembers(e)
    ensures var next := CommitEvent(h, store, e);
            AsRead(next) && ChainOk(h, next) && |next| == |store| + 1
  {
    var c := EventCore(e.id, e.typ, e.data, e.createdAt);
    EventCoreKeepsUndefined(e.id, e.typ, e.data, e.createdAt);
    CommitVerifies(h, store, c);
    CommitIsEdit(h, store, c);
    VerdictExact(h, CommitEvent(h, store, e));
  }
}
