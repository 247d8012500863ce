/** Break-glass codes: inert when issued, switched on by a confirmed root wallet in
    time, redeemed at most once. Each service call is one step on the store. */
module BreakGlass {
  import opened Options

  datatype Status = AwaitingAuthorisation | Active | Redeemed | Revoked

  /** `code` stands for the salted hash that only the code matches. */
  datatype Record = Record(
    id: string,
    workspaceId: string,
    code: string,
    status: Status,
    authorisationToken: Option<string>,
    authorisedByWalletId: Option<string>,
    authoriseBy: int,
    redeemedBy: Option<string>,
    ticketReference: Option<string>)

  const AUTHORISATION_TTL_MS := 72 * 60 * 60 * 1000

  /** History: an authorisation that was accepted, and who was confirmed then. */
  datatype Authorisation = Authorisation(codeId: string, workspaceId: string, walletId: string, at: int,
                                         confirmed: set<(string, string)>)

  datatype State = State(
    records: seq<Record>,
    now: int,
    confirmed: set<(string, string)>,          // oracle: (workspace, wallet) confirmed now
    issuedIds: set<string>,                    // the random ids drawn so far
    authorised: seq<Authorisation>,            // history
    redeemed: seq<string>)                     // history: ids in the order of redemption

  datatype Refusal =
    | NoRootWallet | AlreadyHasCode | InvalidAuthorisation | AuthorisationTooLate
    | TicketMissing | InvalidCode | NothingToRevoke

  predicate AuthorisationExpired(r: Record, now: int) {
    r.status.AwaitingAuthorisation? && r.authoriseBy <= now
  }

  /** A code that can still come into use. */
  predicate Live(r: Record, now: int) {
    (r.status.Active? || r.status.AwaitingAuthorisation?) && !AuthorisationExpired(r, now)
  }

  // ---------------------------------------------------------------------
  // The steps

  predicate HasLive(records: seq<Record>, workspaceId: string, now: int) {
    exists i :: 0 <= i < |records| && records[i].workspaceId == workspaceId && Live(records[i], now)
  }

  function Issue(s: State, workspaceId: string, id: string, code: string, token: string): (State, Option<Refusal>) {
    if forall c :: c in s.confirmed ==> c.0 != workspaceId then (s, Some(NoRootWallet))
    else if HasLive(s.records, workspaceId, s.now) then (s, Some(AlreadyHasCode))
    else
      (s.(records := [Record(id, workspaceId, code, AwaitingAuthorisation, Some(token), None,
                             s.now + AUTHORISATION_TTL_MS, None, None)] + s.records,
          issuedIds := s.issuedIds + {id}),
       None)
  }

  predicate Awaits(r: Record, token: string) {
    r.status.AwaitingAuthorisation? && r.authorisationToken == Some(token) && token != ""
  }

  function AwaitingIndex(records: seq<Record>, token: string): (i: nat)
    ensures i <= |records|
    ensures i < |records| ==> Awaits(records[i], token)
    ensures forall k :: 0 <= k < i ==> !Awaits(records[k], token)
  {
    if records == [] || Awaits(records[0], token) then 0
    else
      assert forall k :: 1 <= k < |records| ==> records[k] == records[1..][k - 1];
      1 + AwaitingIndex(records[1..], token)
  }

  function Authorise(s: State, walletId: string, token: string): (State, Option<Refusal>) {
    var i := AwaitingIndex(s.records, token);
    if i == |s.records| then (s, Some(InvalidAuthorisation))
    else
      var r := s.records[i];
      if AuthorisationExpired(r, s.now) then (s, Some(AuthorisationTooLate))
      else if (r.workspaceId, walletId) !in s.confirmed then (s, Some(InvalidAuthorisation))
      else
        (s.(records := s.records[i := r.(status := Active, authorisedByWalletId := Some(walletId),
                                         authorisationToken := None)],
            authorised := s.authorised + [Authorisation(r.id, r.workspaceId, walletId, s.now, s.confirmed)]),
         None)
  }

  function CodeIndex(records: seq<Record>, code: string): (i: nat)
    ensures i <= |records|
    ensures i < |records| ==> records[i].code == code
    ensures forall k :: 0 <= k < i ==> records[k].code != code
  {
    if records == [] || records[0].code == code then 0
    else
      assert forall k :: 1 <= k < |records| ==> records[k] == records[1..][k - 1];
      1 + CodeIndex(records[1..], code)
  }

  function Redeem(s: State, code: string, actor: Option<string>, ticket: string): (State, Option<Refusal>) {
    if ticket == "" then (s, Some(TicketMissing))
    else
      var i := CodeIndex(s.records, code);
      if i == |s.records| then (s, Some(InvalidCode))
      else
        var r := s.records[i];
        if !r.status.Active? then (s, Some(InvalidCode))
        else
          (s.(records := s.records[i := r.(status := Status.Redeemed, redeemedBy := actor,
                                           ticketReference := Some(if |ticket| > 120 then ticket[..120] else ticket))],
              redeemed := s.redeemed + [r.id]),
           None)
  }

  function IdIndex(records: seq<Record>, workspaceId: string, id: string): (i: nat)
    ensures i <= |records|
    ensures i < |records| ==> records[i].id == id && records[i].workspaceId == workspaceId
    ensures forall k :: 0 <= k < i ==> !(records[k].id == id && records[k].workspaceId == workspaceId)
  {
    if records == [] || (records[0].id == id && records[0].workspaceId == workspaceId) then 0
    else
      assert forall k :: 1 <= k < |records| ==> records[k] == records[1..][k - 1];
      1 + IdIndex(records[1..], workspaceId, id)
  }

  function Revoke(s: State, workspaceId: string, id: string): (State, Option<Refusal>) {
    var i := IdIndex(s.records, workspaceId, id);
    if i == |s.records| || s.records[i].status.Redeemed? then (s, Some(NothingToRevoke))
    else (s.(records := s.records[i := s.records[i].(status := Revoked, authorisationToken := None)]), None)
  }

  datatype Step =
    | DoIssue(workspaceId: string, id: string, code: string, token: string)
    | DoAuthorise(walletId: string, token: string)
    | DoRedeem(code: string, actor: Option<string>, ticket: string)
    | DoRevoke(workspaceId: string, id: string)
    | SetConfirmed(confirmed: set<(string, string)>)
    | Advance(elapsed: nat)

  /** Record ids are random and so fresh. */
  predicate Allowed(s: State, step: Step) {
    step.DoIssue? ==> step.id !in s.issuedIds
  }

  function Next(s: State, step: Step): State {
    match step
    case DoIssue(workspaceId, id, code, token) => Issue(s, workspaceId, id, code, token).0
    case DoAuthorise(walletId, token) => Authorise(s, walletId, token).0
    case DoRedeem(code, actor, ticket) => Redeem(s, code, actor, ticket).0
    case DoRevoke(workspaceId, id) => Revoke(s, workspaceId, id).0
    case SetConfirmed(confirmed) => s.(confirmed := confirmed)
    case Advance(elapsed) => s.(now := s.now + elapsed)
  }

  function Initial(now: int): State { State([], now, {}, {}, [], []) }

  ghost predicate ValidRun(s: State, steps: seq<Step>)
    decreases |steps|
  {
    steps != [] ==> Allowed(s, steps[0]) && ValidRun(Next(s, steps[0]), steps[1..])
  }

  function Run(s: State, steps: seq<Step>): State
    decreases |steps|
  {
    if steps == [] then s else Run(Next(s, steps[0]), steps[1..])
  }

  // ---------------------------------------------------------------------
  // The service

  class BreakGlassService {
    var records: seq<Record>
    var now: int
    var confirmed: set<(string, string)>
    ghost var issuedIds: set<string>
    ghost var authorised: seq<Authorisation>
    ghost var redeemed: seq<string>

    ghost function View(): State
      reads this
    {
      State(records, now, confirmed, issuedIds, authorised, redeemed)
    }

    constructor (now: int)
      ensures View() == Initial(now)
    {
      records, this.now, confirmed := [], now, {};
      issuedIds, authorised, redeemed := {}, [], [];
    }

    method IssueBreakGlassCode(workspaceId: string, id: string, code: string, token: string)
        returns (refused: Option<Refusal>)
      modifies this
      ensures (View(), refused) == Issue(old(View()), workspaceId, id, code, token)
    {
      if forall c :: c in confirmed ==> c.0 != workspaceId {
        return Some(NoRootWallet);
      }
      if HasLive(records, workspaceId, now) {
        return Some(AlreadyHasCode);
      }
      var record := Record(id, workspaceId, code, AwaitingAuthorisation, Some(token), None,
                           now + AUTHORISATION_TTL_MS, None, None);
      records := [record] + records;
      issuedIds := issuedIds + {id};
      return None;
    }

    method AuthoriseBreakGlassCode(walletId: string, token: string) returns (refused: Option<Refusal>)
      modifies this
      ensures (View(), refused) == Authorise(old(View()), walletId, token)
    {
      var index := AwaitingIndex(records, token);
      if index == |records| {
        return Some(InvalidAuthorisation);
      }
      var record := records[index];
      if AuthorisationExpired(record, now) {
        return Some(AuthorisationTooLate);
      }
      if (record.workspaceId, walletId) !in confirmed {
        return Some(InvalidAuthorisation);
      }
      records := records[index := record.(status := Active, authorisedByWalletId := Some(walletId),
                                          authorisationToken := None)];
      authorised := authorised + [Authorisation(record.id, record.workspaceId, walletId, now, confirmed)];
      return None;
    }

    method RedeemBreakGlassCode(candidate: string, actor: Option<string>, ticket: string)
        returns (refused: Option<Refusal>)
      modifies this
      ensures (View(), refused) == Redeem(old(View()), candidate, actor, ticket)
    {
      if ticket == "" {
        return Some(TicketMissing);
      }
      var index := CodeIndex(records, candidate);
      if index == |records| {
        return Some(InvalidCode);
      }
      var record := records[index];
      if record.status != Active {
        return Some(InvalidCode);
      }
      var reference := if |ticket| > 120 then ticket[..120] else ticket;
      records := records[index := record.(status := Status.Redeemed, redeemedBy := actor,
                                          ticketReference := Some(reference))];
      redeemed := redeemed + [record.id];
      return None;
    }

    method RevokeBreakGlassCode(workspaceId: string, codeId: string) returns (refused: Option<Refusal>)
      modifies this
      ensures (View(), refused) == Revoke(old(View()), workspaceId, codeId)
    {
      var index := IdIndex(records, workspaceId, codeId);
      if index == |records| || records[index].status == Status.Redeemed {
        return Some(NothingToRevoke);
      }
      records := records[index := records[index].(status := Revoked, authorisationToken := None)];
      return None;
    }
  }

  // ---------------------------------------------------------------------
  // When a call succeeds

  /** A code of the workspace is on, or waits for its authorisation in time. */
  ghost predicate InUse(s: State, workspaceId: string) {
    exists i :: 0 <= i < |s.records| && s.records[i].workspaceId == workspaceId &&
                (s.records[i].status.Active? ||
                 (s.records[i].status.AwaitingAuthorisation? && s.now < s.records[i].authoriseBy))
  }

  /** A code is issued exactly if the workspace has a confirmed root wallet and no
      code in use; the new one is first in the store and waits for 72 hours. */
  lemma IssueExact(s: State, workspaceId: string, id: string, code: string, token: string)
    ensures var (s', refused) := Issue(s, workspaceId, id, code, token);
            var wallet := exists w :: (workspaceId, w) in s.confirmed;
            && (refused == Some(NoRootWallet) <==> !wallet)
            && (refused == Some(AlreadyHasCode) <==> wallet && InUse(s, workspaceId))
            && (refused.None? <==> wallet && !InUse(s, workspaceId))
            && (refused.Some? ==> s' == s)
            && (refused.None? ==>
                  s'.records == [Record(id, workspaceId, code, AwaitingAuthorisation, Some(token), None,
                                        s.now + 72 * 3600 * 1000, None, None)] + s.records)
  {
    if c :| c in s.confirmed && c.0 == workspaceId {
      assert (workspaceId, c.1) in s.confirmed;
    }
    assert HasLive(s.records, workspaceId, s.now) <==> InUse(s, workspaceId);
  }

  /** The first record that satisfies a condition. */
  ghost predicate First(records: seq<Record>, i: int, p: Record -> bool) {
    0 <= i < |records| && p(records[i]) && forall k :: 0 <= k < i ==> !p(records[k])
  }

  /** A code is activated exactly if the token is that of a waiting code, presented
      in time by a then confirmed root wallet of its workspace. */
  lemma AuthoriseExact(s: State, walletId: string, token: string, i: nat)
    requires i == AwaitingIndex(s.records, token)
    ensures var (s', refused) := Authorise(s, walletId, token);
            var waits := (r: Record) =>
              r.status.AwaitingAuthorisation? && token != "" && r.authorisationToken == Some(token);
            && (i < |s.records| <==> First(s.records, i, waits))
            && (i == |s.records| <==> forall k :: 0 <= k < |s.records| ==> !waits(s.records[k]))
            && (refused.None? <==>
                  i < |s.records| && s.now < s.records[i].authoriseBy
                  && (s.records[i].workspaceId, walletId) in s.confirmed)
            && (refused == Some(AuthorisationTooLate) <==> i < |s.records| && s.records[i].authoriseBy <= s.now)
            && (refused.Some? ==> s' == s)
            && (refused.None? ==>
                  s'.records == s.records[i := s.records[i].(status := Active, authorisationToken := None,
                                                             authorisedByWalletId := Some(walletId))])
  {
  }

  /** A code is redeemed exactly if a ticket is given and the first record that it
      matches is active. */
  lemma RedeemExact(s: State, code: string, actor: Option<string>, ticket: string, i: nat)
    requires i == CodeIndex(s.records, code)
    ensures var (s', refused) := Redeem(s, code, actor, ticket);
            && (i < |s.records| <==> First(s.records, i, (r: Record) => r.code == code))
            && (i == |s.records| <==> forall k :: 0 <= k < |s.records| ==> s.records[k].code != code)
            && (refused.None? <==> ticket != "" && i < |s.records| && s.records[i].status.Active?)
            && (refused == Some(TicketMissing) <==> ticket == "")
            && (refused.Some? ==> s' == s)
            && (refused.None? ==>
                  var r := s'.records[i];
                  && s'.records == s.records[i := r] && r.status.Redeemed? && r.redeemedBy == actor
                  && r == s.records[i].(status := r.status, redeemedBy := actor, ticketReference := r.ticketReference)
                  && r.ticketReference.Some? && r.ticketReference.value <= ticket
                  && |r.ticketReference.value| == if |ticket| < 120 then |ticket| else 120)
  {
  }

  /** A code is revoked exactly if the workspace has one with this id that was not
      redeemed; a revoked one may be revoked again. */
  lemma RevokeExact(s: State, workspaceId: string, id: string, i: nat)
    requires i == IdIndex(s.records, workspaceId, id)
    ensures var (s', refused) := Revoke(s, workspaceId, id);
            && (i < |s.records| <==> First(s.records, i, (r: Record) => r.id == id && r.workspaceId == workspaceId))
            && (i == |s.records| <==>
                  forall k :: 0 <= k < |s.records| ==> s.records[k].id != id || s.records[k].workspaceId != workspaceId)
            && (refused.None? <==> i < |s.records| && !s.records[i].status.Redeemed?)
            && (refused.Some? ==> refused == Some(NothingToRevoke) && s' == s)
            && (refused.None? ==>
                  && s' == s.(records := s'.records)
                  && s'.records == s.records[i := s.records[i].(status := Revoked, authorisationToken := None)])
  {
  }

  // ---------------------------------------------------------------------
  // What every step keeps

  ghost predicate DistinctIds(records: seq<Record>) {
    forall i, j :: 0 <= i < j < |records| ==> records[i].id != records[j].id
  }

  ghost predicate OneLive(records: seq<Record>, now: int) {
    forall i, j :: 0 <= i < j < |records| && Live(records[i], now) && Live(records[j], now) ==>
                     records[i].workspaceId != records[j].workspaceId
  }

  /** A wallet that was then a confirmed root wallet of the code's own workspace
      authorised the code before its authorisation ran out. */
  ghost predicate Authorised(s: State, r: Record) {
    exists a :: a in s.authorised && a.codeId == r.id && a.workspaceId == r.workspaceId
                && r.authorisedByWalletId == Some(a.walletId) && a.at < r.authoriseBy && a.at <= s.now
                && (a.workspaceId, a.walletId) in a.confirmed
  }

  ghost predicate RecordsOk(s: State) {
    forall i :: 0 <= i < |s.records| ==> RecordOk(s, s.records[i])
  }

  ghost predicate RecordOk(s: State, r: Record) {
    && r.id in s.issuedIds
    && (r.status.Active? || r.status.Redeemed? ==> Authorised(s, r))
    && (r.status.Redeemed? <==> r.id in s.redeemed)
    && (!r.status.AwaitingAuthorisation? ==> r.authorisationToken.None?)
  }

  ghost predicate Inv(s: State) {
    && DistinctIds(s.records)
    && OneLive(s.records, s.now)
    && RecordsOk(s)
    && (forall id :: id in s.redeemed ==> id in s.issuedIds)
    && (forall i, j :: 0 <= i < j < |s.redeemed| ==> s.redeemed[i] != s.redeemed[j])
  }

  lemma AuthorisedKept(s: State, s': State, r: Record, t: Record)
    requires Authorised(s, r) && s.authorised <= s'.authorised && s.now <= s'.now
    requires t.id == r.id && t.workspaceId == r.workspaceId && t.authoriseBy == r.authoriseBy
    requires t.authorisedByWalletId == r.authorisedByWalletId
    ensures Authorised(s', t)
  {
    var a :| a in s.authorised && a.codeId == r.id && a.workspaceId == r.workspaceId
             && r.authorisedByWalletId == Some(a.walletId) && a.at < r.authoriseBy && a.at <= s.now
             && (a.workspaceId, a.walletId) in a.confirmed;
    assert a in s'.authorised;
  }

  lemma IssueKeepsInv(s: State, workspaceId: string, id: string, code: string, token: string)
    requires Inv(s) && id !in s.issuedIds
    ensures Inv(Issue(s, workspaceId, id, code, token).0)
  {
    var s' := Issue(s, workspaceId, id, code, token).0;
    if s' != s {
      forall i | 0 < i < |s'.records|
        ensures s'.records[i] == s.records[i - 1]
      {
      }
      forall i | 0 < i < |s'.records|
        ensures s'.records[i].id != id
        ensures Live(s'.records[i], s.now) ==> s'.records[i].workspaceId != workspaceId
      {
        assert s.records[i - 1] == s'.records[i];
      }
      IssuePairs(s, s'.records[0], s'.records);
      forall i | 0 < i < |s'.records| && (s'.records[i].status.Active? || s'.records[i].status.Redeemed?)
        ensures Authorised(s', s'.records[i])
      {
        AuthorisedKept(s, s', s.records[i - 1], s'.records[i]);
      }
      assert RecordsOk(s');
    }
  }

  lemma IssuePairs(s: State, r: Record, all: seq<Record>)
    requires DistinctIds(s.records) && OneLive(s.records, s.now) && all == [r] + s.records
    requires forall i :: 0 < i < |all| ==> all[i].id != r.id
    requires forall i :: 0 < i < |all| && Live(all[i], s.now) ==> all[i].workspaceId != r.workspaceId
    ensures DistinctIds(all) && OneLive(all, s.now)
  {
    hide Live;
    forall i, j | 0 <= i < j < |all|
      ensures all[i].id != all[j].id
      ensures Live(all[i], s.now) && Live(all[j], s.now) ==> all[i].workspaceId != all[j].workspaceId
    {
      assert all[j] == s.records[j - 1];
      if i > 0 {
        assert all[i] == s.records[i - 1];
      } else {
        assert all[i] == r;
      }
    }
  }

  /** Changing one record keeps the invariant if the record keeps its identity, is
      live only if it was, and stays as justified as its new status needs. */
  lemma UpdateKeepsInv(s: State, s': State, i: nat)
    requires Inv(s) && i < |s.records| && |s'.records| == |s.records|
    requires s'.now == s.now && s'.issuedIds == s.issuedIds
    requires s.authorised <= s'.authorised
    requires forall k :: 0 <= k < |s.records| && k != i ==> s'.records[k] == s.records[k]
    requires var a, b := s.records[i], s'.records[i];
             && a.id == b.id && a.workspaceId == b.workspaceId
             && (Live(b, s.now) ==> Live(a, s.now))
             && (b.status.Active? || b.status.Redeemed? ==> Authorised(s', b))
             && (!b.status.AwaitingAuthorisation? ==> b.authorisationToken.None?)
             && !a.status.Redeemed?
             && s'.redeemed == if b.status.Redeemed? then s.redeemed + [a.id] else s.redeemed
    ensures Inv(s')
  {
    var a := s.records[i];
    assert a.id !in s.redeemed;
    forall k | 0 <= k < |s.records| && k != i && (s.records[k].status.Active? || s.records[k].status.Redeemed?)
      ensures Authorised(s', s'.records[k])
    {
      AuthorisedKept(s, s', s.records[k], s'.records[k]);
    }
    hide Authorised, Live;
    forall k | 0 <= k < |s.records| && k != i
      ensures s.records[k].id != a.id
    {
      assert k < i ==> s.records[k].id != s.records[i].id;
    }
    assert RecordsOk(s');
  }

  lemma AuthoriseKeepsInv(s: State, walletId: string, token: string)
    requires Inv(s)
    ensures Inv(Authorise(s, walletId, token).0)
  {
    var s' := Authorise(s, walletId, token).0;
    if s' != s {
      var i := AwaitingIndex(s.records, token);
      var a := s'.authorised[|s.authorised|];
      assert a in s'.authorised;
      assert Authorised(s', s'.records[i]);
      UpdateKeepsInv(s, s', i);
    }
  }

  lemma RedeemKeepsInv(s: State, code: string, actor: Option<string>, ticket: string)
    requires Inv(s)
    ensures Inv(Redeem(s, code, actor, ticket).0)
  {
    var s' := Redeem(s, code, actor, ticket).0;
    if s' != s {
      var i := CodeIndex(s.records, code);
      AuthorisedKept(s, s', s.records[i], s'.records[i]);
      UpdateKeepsInv(s, s', i);
    }
  }

  lemma RevokeKeepsInv(s: State, workspaceId: string, id: string)
    requires Inv(s)
    ensures Inv(Revoke(s, workspaceId, id).0)
  {
    var s' := Revoke(s, workspaceId, id).0;
    var i := IdIndex(s.records, workspaceId, id);
    if i < |s.records| && !s.records[i].status.Redeemed? {
      UpdateKeepsInv(s, s', i);
    }
  }

  lemma NextKeepsInv(s: State, step: Step)
    requires Inv(s) && Allowed(s, step)
    ensures Inv(Next(s, step))
  {
    match step
    case DoIssue(workspaceId, id, code, token) => IssueKeepsInv(s, workspaceId, id, code, token);
    case DoAuthorise(walletId, token) => AuthoriseKeepsInv(s, walletId, token);
    case DoRedeem(code, actor, ticket) => RedeemKeepsInv(s, code, actor, ticket);
    case DoRevoke(workspaceId, id) => RevokeKeepsInv(s, workspaceId, id);
    case _ =>
      var s' := Next(s, step);
      forall i | 0 <= i < |s.records| && (s.records[i].status.Active? || s.records[i].status.Redeemed?)
        ensures Authorised(s', s.records[i])
      {
        AuthorisedKept(s, s', s.records[i], s.records[i]);
      }
      hide Authorised;
      assert RecordsOk(s');
  }

  /** How a stored code may move on: redeemed and revoked are final, only an
      active code is redeemed, only an awaiting one becomes active, and identity
      and code never change. */
  ghost predicate MovesOn(a: Record, b: Record) {
    && a.id == b.id && a.workspaceId == b.workspaceId && a.code == b.code && a.authoriseBy == b.authoriseBy
    && (a.status.Redeemed? ==> b == a)
    && (a.status.Revoked? ==> b == a)
    && (b.status.Redeemed? ==> a.status.Redeemed? || a.status.Active?)
    && (b.status.Active? ==> a.status.Active? || a.status.AwaitingAuthorisation?)
    && (b.status.AwaitingAuthorisation? ==> b == a)
  }

  lemma StatusMoves(s: State, step: Step)
    requires Inv(s)
    ensures var after := Next(s, step).records;
            AllMove(s.records, after) || (after != [] && AllMove(s.records, after[1..]))
  {
    match step
    case DoAuthorise(walletId, token) => AuthoriseMoves(s, walletId, token);
    case DoRedeem(code, actor, ticket) => RedeemMoves(s, code, actor, ticket);
    case DoRevoke(workspaceId, id) => RevokeMoves(s, workspaceId, id);
    case _ =>
      hide Inv;
      AllStay(s.records);
  }

  lemma AuthoriseMoves(s: State, walletId: string, token: string)
    requires Inv(s)
    ensures AllMove(s.records, Authorise(s, walletId, token).0.records)
  {
    hide Inv, AllMove;
    OneMoves(s, Authorise(s, walletId, token).0, AwaitingIndex(s.records, token));
  }

  lemma RedeemMoves(s: State, code: string, actor: Option<string>, ticket: string)
    requires Inv(s)
    ensures AllMove(s.records, Redeem(s, code, actor, ticket).0.records)
  {
    hide Inv, AllMove;
    OneMoves(s, Redeem(s, code, actor, ticket).0, CodeIndex(s.records, code));
  }

  lemma RevokeMoves(s: State, workspaceId: string, id: string)
    requires Inv(s)
    ensures AllMove(s.records, Revoke(s, workspaceId, id).0.records)
  {
    hide Inv, AllMove;
    OneMoves(s, Revoke(s, workspaceId, id).0, IdIndex(s.records, workspaceId, id));
  }

  ghost predicate AllMove(a: seq<Record>, b: seq<Record>) {
    |a| == |b| && forall i :: 0 <= i < |a| ==> MovesOn(a[i], b[i])
  }

  lemma AllStay(records: seq<Record>)
    ensures forall i :: 0 <= i < |records| ==> MovesOn(records[i], records[i])
  {
  }

  /** What a single update of a stored code has to be. */
  ghost predicate Update(a: Record, b: Record) {
    || b == a
    || (a.status.AwaitingAuthorisation?
        && b == a.(status := Active, authorisedByWalletId := b.authorisedByWalletId, authorisationToken := None))
    || (a.status.Active?
        && b == a.(status := Status.Redeemed, redeemedBy := b.redeemedBy, ticketReference := b.ticketReference))
    || (!a.status.Redeemed? && b == a.(status := Revoked, authorisationToken := None))
  }

  lemma OneMoves(s: State, s': State, i: nat)
    requires Inv(s) && |s'.records| == |s.records| && i <= |s.records|
    requires i == |s.records| ==> s'.records == s.records
    requires i < |s.records| ==> s'.records == s.records[i := s'.records[i]] && Update(s.records[i], s'.records[i])
    ensures AllMove(s.records, s'.records)
  {
    AllStay(s.records);
    if i < |s.records| {
      RecordOkAt(s, i);
    }
  }

  lemma RecordOkAt(s: State, i: nat)
    requires Inv(s) && i < |s.records|
    ensures RecordOk(s, s.records[i])
  {
  }

  // ---------------------------------------------------------------------
  // Over every run

  lemma {:induction false} RunKeepsInv(s: State, steps: seq<Step>)
    requires Inv(s) && ValidRun(s, steps)
    ensures Inv(Run(s, steps))
    decreases |steps|
  {
    hide Inv, Next, Allowed;
    if steps != [] {
      NextKeepsInv(s, steps[0]);
      RunKeepsInv(Next(s, steps[0]), steps[1..]);
    }
  }

  /** Over every run with advancing time: a workspace has at most one live code,
      every active or redeemed code was authorised in time by a then confirmed
      root wallet of its workspace, and no code is redeemed twice. */
  lemma BreakGlassSafe(now: int, steps: seq<Step>)
    requires ValidRun(Initial(now), steps)
    ensures var s := Run(Initial(now), steps);
            && OneLive(s.records, s.now)
            && (forall i :: 0 <= i < |s.records| ==>
                              var r := s.records[i]; r.status.Active? || r.status.Redeemed? ==> Authorised(s, r))
            && (forall i, j :: 0 <= i < j < |s.redeemed| ==> s.redeemed[i] != s.redeemed[j])
  {
    RunKeepsInv(Initial(now), steps);
  }

  /** The intended course: a fresh code is refused before its authorisation, a
      confirmed root wallet can authorise it exactly within 72 hours, then it is
      redeemed with a ticket, once. */
  lemma IssuedCodeWorksOnce(s: State, workspaceId: string, id: string, code: string, token: string, walletId: string,
                            wait: nat, actor: Option<string>, ticket: string)
    requires (workspaceId, walletId) in s.confirmed && !HasLive(s.records, workspaceId, s.now)
    requires token != "" && ticket != ""
    ensures var issued := Issue(s, workspaceId, id, code, token);
            var waited := Next(issued.0, Advance(wait));
            var authorised := Authorise(waited, walletId, token);
            var redeemed := Redeem(authorised.0, code, actor, ticket);
            && issued.1.None?
            && Redeem(issued.0, code, actor, ticket).1 == Some(InvalidCode)
            && (authorised.1.None? <==> wait < AUTHORISATION_TTL_MS)
            && (redeemed.1.None? <==> wait < AUTHORISATION_TTL_MS)
            && Redeem(redeemed.0, code, actor, ticket).1 == Some(InvalidCode)
  {
  }

  /** Every record that this code matches is revoked. */
  ghost predicate Withdrawn(records: seq<Record>, code: string) {
    forall k :: 0 <= k < |records| && records[k].code == code ==> records[k].status.Revoked?
  }

  lemma NextWithdrawn(s: State, step: Step, code: string)
    requires Withdrawn(s.records, code) && (step.DoIssue? ==> step.code != code)
    ensures Withdrawn(Next(s, step).records, code)
  {
    hide HasLive;
  }

  lemma {:induction false} RunWithdrawn(s: State, steps: seq<Step>, code: string)
    requires Withdrawn(s.records, code) && forall step :: step in steps && step.DoIssue? ==> step.code != code
    ensures Withdrawn(Run(s, steps).records, code)
    decreases |steps|
  {
    hide Next, Withdrawn;
    if steps != [] {
      assert steps[0] in steps;
      NextWithdrawn(s, steps[0], code);
      RunWithdrawn(Next(s, steps[0]), steps[1..], code);
    }
  }

  /** A revoked code is refused ever after, whatever happens in between, and the
      attempt changes nothing. */
  lemma RevokedCodeRefused(s: State, workspaceId: string, id: string, steps: seq<Step>, actor: Option<string>,
                           ticket: string)
    requires Revoke(s, workspaceId, id).1.None?
    requires forall i, j :: 0 <= i < j < |s.records| ==> s.records[i].code != s.records[j].code
    requires forall step :: step in steps && step.DoIssue? ==>
             step.code != s.records[IdIndex(s.records, workspaceId, id)].code
    ensures var code := s.records[IdIndex(s.records, workspaceId, id)].code;
            var later := Run(Revoke(s, workspaceId, id).0, steps);
            Redeem(later, code, actor, ticket).0 == later && Redeem(later, code, actor, ticket).1.Some?
  {
    var i := IdIndex(s.records, workspaceId, id);
    var after := Revoke(s, workspaceId, id).0;
    assert forall k :: 0 <= k < |s.records| && k != i ==> s.records[k].code != s.records[i].code;
    assert Withdrawn(after.records, s.records[i].code);
    RunWithdrawn(after, steps, s.records[i].code);
    hide Run, Revoke, IdIndex;
  }
}
