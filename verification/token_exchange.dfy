/** Redemption of authorization codes and of backchannel (CIBA) requests: two
    exchange routes over one record store, with wallet challenges as an oracle. */
module TokenExchange {
  import opened Options

  datatype ChallengeStatus = Waiting | Accepted | Declined

  datatype Challenge = Challenge(status: ChallengeStatus, assurance: string, expiresAt: Option<int>)

  datatype Claims = Claims(subject: string, acr: string, challengeId: Option<string>, authTime: int)

  datatype Status = Issued | PendingChallenge | Redeemed | Expired

  /** A stored code or backchannel request. A code record has no `authReqId`, a
      backchannel record neither `code` nor `redirectUri`. */
  datatype Record = Record(
    backchannel: bool,
    code: Option<string>,
    authReqId: Option<string>,
    clientId: string,
    redirectUri: Option<string>,
    challengeId: Option<string>,
    claims: Claims,
    status: Status,
    expiresAt: int)

  datatype Refusal =
    | GrantNotFound | GrantMismatch | GrantUsed | GrantExpired
    | AccessDenied | ChallengeExpired | AuthorizationPending | ChallengeMissing

  datatype Outcome = Token(claims: Claims) | Refused(why: Refusal)

  datatype Route = CodeRoute(redirectUri: Option<string>) | BackchannelRoute

  /** History: one token set handed out for the record at `index`. */
  datatype Grant = Grant(index: nat, route: Route, clientId: string, at: int, claims: Claims)

  datatype State = State(
    records: seq<Record>,
    challenges: map<string, Challenge>,
    now: int,
    granted: seq<Grant>,  // history
    everAccepted: set<(string, string)>)  // history: challenges that a wallet accepted, and their assurance

  const CODE_TTL_MS := 5 * 60 * 1000

  /** `parseInt(...) || 300`, clamped to 60..900 seconds. */
  function BackchannelTtlSeconds(requested: Option<int>): (ttl: int)
    ensures 60 <= ttl <= 900
    ensures requested.Some? && 60 <= requested.value <= 900 ==> ttl == requested.value
    ensures requested.Some? && requested.value > 900 ==> ttl == 900
    ensures requested.Some? && requested.value < 60 && requested.value != 0 ==> ttl == 60
    ensures requested.None? || requested.value == 0 ==> ttl == 300
  {
    var t := if requested.Some? && requested.value != 0 then requested.value else 300;
    if t < 60 then 60 else if t > 900 then 900 else t
  }

  function ApplyChallengeClaims(claims: Claims, id: string, challenge: Challenge, now: int): Claims {
    var assurance := if challenge.assurance == "" then "wallet" else challenge.assurance;
    claims.(acr := "urn:vanguard:aegis-id:auth:" + assurance, challengeId := Some(id), authTime := now / 1000)
  }

  /** The refusal, if any, of the challenge that a pending record waits for. */
  function ChallengeRefusal(s: State, id: string): Option<Refusal> {
    if id !in s.challenges then Some(ChallengeMissing)
    else
      var c := s.challenges[id];
      if c.status.Declined? then Some(AccessDenied)
      else if !c.status.Accepted? then
        if c.expiresAt.Some? && c.expiresAt.value < s.now then Some(ChallengeExpired) else Some(AuthorizationPending)
      else None
  }

  // ---------------------------------------------------------------------
  // Finding records

  /** The first record whose code is the one presented; a request without a code
      matches a record without one. */
  function CodeIndex(records: seq<Record>, code: Option<string>): (i: nat)
    ensures i <= |records|
    ensures i < |records| ==> records[i].code == code
    ensures forall k :: 0 <= k < i ==> records[k].code != code
  {
    if records == [] then 0
    else if records[0].code == code then 0
    else
      assert forall k :: 1 <= k < |records| ==> records[k] == records[1..][k - 1];
      1 + CodeIndex(records[1..], code)
  }

  function RequestIndex(records: seq<Record>, authReqId: Option<string>): (i: nat)
    ensures i <= |records|
    ensures i < |records| ==> records[i].backchannel && records[i].authReqId == authReqId
    ensures forall k :: 0 <= k < i ==> !(records[k].backchannel && records[k].authReqId == authReqId)
  {
    if records == [] then 0
    else if records[0].backchannel && records[0].authReqId == authReqId then 0
    else
      assert forall k :: 1 <= k < |records| ==> records[k] == records[1..][k - 1];
      1 + RequestIndex(records[1..], authReqId)
  }

  // ---------------------------------------------------------------------
  // Steps

  function CreateCode(s: State, code: string, clientId: string, redirectUri: string, challengeId: Option<string>,
                      claims: Claims): State
  {
    var tokenClaims :=
      if challengeId.Some? && challengeId.value in s.challenges
      then ApplyChallengeClaims(claims, challengeId.value, s.challenges[challengeId.value], s.now) else claims;
    s.(records := s.records + [Record(false, Some(code), None, clientId, Some(redirectUri), challengeId, tokenClaims,
                                      if challengeId.Some? then PendingChallenge else Issued, s.now + CODE_TTL_MS)])
  }

  function CreateBackchannel(s: State, authReqId: string, clientId: string, challengeId: string, claims: Claims,
                             requestedTtl: Option<int>): State
  {
    var tokenClaims :=
      if challengeId in s.challenges then ApplyChallengeClaims(claims, challengeId, s.challenges[challengeId], s.now)
      else claims;
    s.(records := s.records + [Record(true, None, Some(authReqId), clientId, None, Some(challengeId), tokenClaims,
                                      PendingChallenge, s.now + BackchannelTtlSeconds(requestedTtl) * 1000)])
  }

  /** Store the redeemed record and hand out the token set. */
  function Redeem(s: State, i: nat, route: Route, claims: Claims): (r: (State, Outcome))
    requires i < |s.records|
    ensures r.1.Token?
  {
    (s.(records := s.records[i := s.records[i].(claims := claims, status := Redeemed)],
        granted := s.granted + [Grant(i, route, s.records[i].clientId, s.now, claims)]),
     Token(claims))
  }

  function AcceptedClaims(s: State, r: Record): Claims {
    if r.challengeId.Some? && r.challengeId.value in s.challenges
    then ApplyChallengeClaims(r.claims, r.challengeId.value, s.challenges[r.challengeId.value], s.now)
    else r.claims
  }

  function PendingRefusal(s: State, r: Record): Option<Refusal> {
    if r.challengeId.None? then Some(ChallengeMissing) else ChallengeRefusal(s, r.challengeId.value)
  }

  function ExchangeCode(s: State, clientId: string, code: Option<string>, redirectUri: Option<string>): (State, Outcome)
  {
    var i := CodeIndex(s.records, code);
    if i == |s.records| then (s, Refused(GrantNotFound))
    else
      var r := s.records[i];
      if r.clientId != clientId || r.redirectUri != redirectUri then (s, Refused(GrantMismatch))
      else if !r.status.Issued? && !r.status.PendingChallenge? then (s, Refused(GrantUsed))
      else if r.expiresAt < s.now then (s, Refused(GrantExpired))
      else if r.status.Issued? then Redeem(s, i, CodeRoute(redirectUri), r.claims)
      else
        match PendingRefusal(s, r)
        case Some(why) => (s, Refused(why))
        case None => Redeem(s, i, CodeRoute(redirectUri), AcceptedClaims(s, r))
  }

  function ExchangeBackchannel(s: State, clientId: string, authReqId: Option<string>): (State, Outcome) {
    var i := RequestIndex(s.records, authReqId);
    if i == |s.records| then (s, Refused(GrantNotFound))
    else
      var r := s.records[i];
      if r.clientId != clientId then (s, Refused(GrantMismatch))
      else if r.status.Redeemed? then (s, Refused(GrantUsed))
      else if r.expiresAt < s.now then (s.(records := s.records[i := r.(status := Expired)]), Refused(GrantExpired))
      else
        match PendingRefusal(s, r)
        case Some(why) => (s, Refused(why))
        case None => Redeem(s, i, BackchannelRoute, AcceptedClaims(s, r))
  }

  function SetChallenge(s: State, id: string, challenge: Challenge): State {
    s.(challenges := s.challenges[id := challenge],
       everAccepted := if challenge.status.Accepted? then s.everAccepted + {(id, challenge.assurance)}
           else s.everAccepted)
  }

  datatype Step =
    | DoCreateCode(code: string, clientId: string, redirectUri: string, challengeId: Option<string>, claims: Claims)
    | DoCreateBackchannel(authReqId: string, clientId: string, challenge: string, claims: Claims,
                          requestedTtl: Option<int>)
    | DoExchangeCode(clientId: string, presented: Option<string>, redirect: Option<string>)
    | DoExchangeBackchannel(clientId: string, request: Option<string>)
    | DoSetChallenge(id: string, answer: Challenge)
    | Advance(elapsed: nat)

  function Next(s: State, step: Step): State {
    match step
    case DoCreateCode(code, clientId, redirectUri, challengeId, claims) =>
      CreateCode(s, code, clientId, redirectUri, challengeId, claims)
    case DoCreateBackchannel(authReqId, clientId, challenge, claims, requestedTtl) =>
      CreateBackchannel(s, authReqId, clientId, challenge, claims, requestedTtl)
    case DoExchangeCode(clientId, presented, redirect) => ExchangeCode(s, clientId, presented, redirect).0
    case DoExchangeBackchannel(clientId, request) => ExchangeBackchannel(s, clientId, request).0
    case DoSetChallenge(id, answer) => SetChallenge(s, id, answer)
    case Advance(elapsed) => s.(now := s.now + elapsed)
  }

  function Run(s: State, steps: seq<Step>): State
    decreases |steps|
  {
    if steps == [] then s else Run(Next(s, steps[0]), steps[1..])
  }

  function Initial(now: int): State { State([], map[], now, [], {}) }

  // ---------------------------------------------------------------------
  // The service

  class ConnectedApps {
    var records: seq<Record>
    var challenges: map<string, Challenge>
    var now: int
    ghost var granted: seq<Grant>
    ghost var everAccepted: set<(string, string)>

    ghost function View(): State
      reads this
    {
      State(records, challenges, now, granted, everAccepted)
    }

    constructor (now: int)
      ensures View() == Initial(now)
    {
      records, challenges, this.now, granted, everAccepted := [], map[], now, [], {};
    }

    method CreateConnectedAuthorizationCode(code: string, clientId: string, redirectUri: string,
                                            challengeId: Option<string>, claims: Claims)
      modifies this
      ensures View() == CreateCode(old(View()), code, clientId, redirectUri, challengeId, claims)
    {
      var tokenClaims := claims;
      if challengeId.Some? && challengeId.value in challenges {
        tokenClaims := ApplyChallengeClaims(claims, challengeId.value, challenges[challengeId.value], now);
      }
      var status := if challengeId.Some? then PendingChallenge else Issued;
      records := records + [Record(false, Some(code), None, clientId, Some(redirectUri), challengeId, tokenClaims,
                                   status, now + CODE_TTL_MS)];
    }

    method CreateBackchannelAuthenticationRequest(authReqId: string, clientId: string, challengeId: string,
                                                  claims: Claims, requestedTtl: Option<int>)
      modifies this
      ensures View() == CreateBackchannel(old(View()), authReqId, clientId, challengeId, claims, requestedTtl)
    {
      var tokenClaims := claims;
      if challengeId in challenges {
        tokenClaims := ApplyChallengeClaims(claims, challengeId, challenges[challengeId], now);
      }
      records := records + [Record(true, None, Some(authReqId), clientId, None, Some(challengeId), tokenClaims,
                                   PendingChallenge, now + BackchannelTtlSeconds(requestedTtl) * 1000)];
    }

    method ExchangeConnectedAuthorizationCode(clientId: string, code: Option<string>, redirectUri: Option<string>)
      returns (outcome: Outcome)
      modifies this
      ensures (View(), outcome) == ExchangeCode(old(View()), clientId, code, redirectUri)
    {
      var index := CodeIndex(records, code);
      if index == |records| {
        return Refused(GrantNotFound);
      }
      var record := records[index];
      if record.clientId != clientId || record.redirectUri != redirectUri {
        return Refused(GrantMismatch);
      }
      if record.status != Issued && record.status != PendingChallenge {
        return Refused(GrantUsed);
      }
      if record.expiresAt < now {
        return Refused(GrantExpired);
      }
      var tokenClaims := record.claims;
      if record.status == PendingChallenge {
        var refusal, accepted := AssertChallengeAccepted(record);
        if refusal.Some? {
          return Refused(refusal.value);
        }
        tokenClaims := accepted;
      }
      records := records[index := record.(claims := tokenClaims, status := Redeemed)];
      granted := granted + [Grant(index, CodeRoute(redirectUri), record.clientId, now, tokenClaims)];
      return Token(tokenClaims);
    }

    method ExchangeBackchannelAuthenticationToken(clientId: string, authReqId: Option<string>)
        returns (outcome: Outcome)
      modifies this
      ensures (View(), outcome) == ExchangeBackchannel(old(View()), clientId, authReqId)
    {
      var index := RequestIndex(records, authReqId);
      if index == |records| {
        return Refused(GrantNotFound);
      }
      var record := records[index];
      if record.clientId != clientId {
        return Refused(GrantMismatch);
      }
      if record.status == Redeemed {
        return Refused(GrantUsed);
      }
      if record.expiresAt < now {
        records := records[index := record.(status := Expired)];
        return Refused(GrantExpired);
      }
      var refusal, tokenClaims := AssertChallengeAccepted(record);
      if refusal.Some? {
        return Refused(refusal.value);
      }
      records := records[index := record.(claims := tokenClaims, status := Redeemed)];
      granted := granted + [Grant(index, BackchannelRoute, record.clientId, now, tokenClaims)];
      return Token(tokenClaims);
    }

    method AssertChallengeAccepted(record: Record) returns (refusal: Option<Refusal>, claims: Claims)
      ensures refusal == PendingRefusal(View(), record)
      ensures refusal.None? ==> claims == AcceptedClaims(View(), record)
    {
      claims := record.claims;
      if record.challengeId.None? || record.challengeId.value !in challenges {
        return Some(ChallengeMissing), claims;
      }
      var challenge := challenges[record.challengeId.value];
      if challenge.status == Declined {
        return Some(AccessDenied), claims;
      }
      if challenge.status != Accepted {
        if challenge.expiresAt.Some? && challenge.expiresAt.value < now {
          return Some(ChallengeExpired), claims;
        }
        return Some(AuthorizationPending), claims;
      }
      return None, ApplyChallengeClaims(claims, record.challengeId.value, challenge, now);
    }
  }

  // ---------------------------------------------------------------------
  // What every step keeps

  /** The record waits for a challenge exactly if it was created pending. */
  ghost predicate RecordOk(r: Record) {
    && (r.status.Issued? ==> r.challengeId.None?)
    && (r.status.PendingChallenge? ==> r.challengeId.Some?)
    && (r.backchannel ==> r.code.None? && r.redirectUri.None? && r.challengeId.Some?)
    && (!r.backchannel ==> r.code.Some? && r.redirectUri.Some?)
  }

  /** What the claims say of an accepted sign-in: how strong it was, which
      challenge it answered and the second at which it was redeemed. */
  ghost predicate Attests(claims: Claims, id: string, assurance: string, at: int) {
    && claims.acr == "urn:vanguard:aegis-id:auth:" + (if assurance == "" then "wallet" else assurance)
    && claims.challengeId == Some(id)
    && claims.authTime * 1000 <= at < (claims.authTime + 1) * 1000
  }

  /** The token set attests a challenge that a wallet has accepted. */
  ghost predicate Backed(s: State, g: Grant, id: string) {
    exists assurance :: (id, assurance) in s.everAccepted && Attests(g.claims, id, assurance, g.at)
  }

  /** The token set was handed out in time, to the record's client, on the code
      route for its redirect URI, and for a record created pending only after a
      wallet accepted its challenge, which the claims then attest. */
  ghost predicate GrantOk(s: State, g: Grant) {
    && g.index < |s.records|
    && var r := s.records[g.index];
       && r.status.Redeemed?
       && g.clientId == r.clientId
       && (g.route.CodeRoute? ==> g.route.redirectUri == r.redirectUri)
       && g.at <= r.expiresAt && g.at <= s.now
       && g.claims == r.claims
       && (r.backchannel || g.route.CodeRoute?)
       && (r.challengeId.Some? ==> Backed(s, g, r.challengeId.value))
  }

  ghost predicate Inv(s: State) {
    && (forall i :: 0 <= i < |s.records| ==> RecordOk(s.records[i]))
    && (forall k :: 0 <= k < |s.granted| ==> GrantOk(s, s.granted[k]))
    && (forall k, l :: 0 <= k < l < |s.granted| ==> s.granted[k].index != s.granted[l].index)
    && (forall id :: id in s.challenges && s.challenges[id].status.Accepted? ==>
                       (id, s.challenges[id].assurance) in s.everAccepted)
  }

  lemma RedeemKeepsInv(s: State, i: nat, route: Route, claims: Claims)
    requires Inv(s) && i < |s.records| && !s.records[i].status.Redeemed?
    requires s.now <= s.records[i].expiresAt
    requires route.CodeRoute? ==> route.redirectUri == s.records[i].redirectUri
    requires s.records[i].backchannel || route.CodeRoute?
    requires var c := s.records[i].challengeId;
             c.Some? ==> Backed(s, Grant(i, route, s.records[i].clientId, s.now, claims), c.value)
    ensures Inv(Redeem(s, i, route, claims).0)
  {
    var s' := Redeem(s, i, route, claims).0;
    forall k | 0 <= k < |s'.granted|
      ensures GrantOk(s', s'.granted[k])
    {
      if k < |s.granted| {
        assert GrantOk(s, s.granted[k]);
      }
    }
    forall k, l | 0 <= k < l < |s'.granted|
      ensures s'.granted[k].index != s'.granted[l].index
    {
      assert GrantOk(s, s.granted[k]);
    }
  }

  lemma AppendKeepsInv(s: State, r: Record)
    requires Inv(s) && RecordOk(r)
    ensures Inv(s.(records := s.records + [r]))
  {
    hide RecordOk;
    var s' := s.(records := s.records + [r]);
    forall k | 0 <= k < |s.granted|
      ensures GrantOk(s', s.granted[k])
    {
      assert GrantOk(s, s.granted[k]);
    }
  }

  lemma ExpireKeepsInv(s: State, i: nat)
    requires Inv(s) && i < |s.records| && !s.records[i].status.Redeemed?
    ensures Inv(s.(records := s.records[i := s.records[i].(status := Expired)]))
  {
    var s' := s.(records := s.records[i := s.records[i].(status := Expired)]);
    forall k | 0 <= k < |s.granted|
      ensures GrantOk(s', s.granted[k])
    {
      assert GrantOk(s, s.granted[k]);
    }
  }

  lemma NextKeepsInv(s: State, step: Step)
    requires Inv(s)
    ensures Inv(Next(s, step))
  {
    hide Redeem;
    match step
    case DoCreateCode(_, _, _, _, _) =>
      var s' := Next(s, step);
      AppendKeepsInv(s, s'.records[|s.records|]);
    case DoCreateBackchannel(_, _, _, _, _) =>
      var s' := Next(s, step);
      AppendKeepsInv(s, s'.records[|s.records|]);
    case DoExchangeCode(clientId, code, redirectUri) => ExchangeCodeKeepsInv(s, clientId, code, redirectUri);
    case DoExchangeBackchannel(clientId, authReqId) => ExchangeBackchannelKeepsInv(s, clientId, authReqId);
    case _ =>
      forall k | 0 <= k < |s.granted|
        ensures GrantOk(Next(s, step), s.granted[k])
      {
        assert GrantOk(s, s.granted[k]);
      }
  }

  /** A pending record passes only with an accepted challenge, and its claims
      attest that challenge for the subject it was created with. */
  lemma PassedMeansAccepted(s: State, r: Record)
    requires Inv(s) && PendingRefusal(s, r).None?
    ensures r.challengeId.Some? && r.challengeId.value in s.challenges
    ensures var id := r.challengeId.value;
            var assurance := s.challenges[id].assurance;
            && s.challenges[id].status.Accepted? && (id, assurance) in s.everAccepted
            && Attests(AcceptedClaims(s, r), id, assurance, s.now)
            && AcceptedClaims(s, r).subject == r.claims.subject
  {
  }

  lemma ExchangeCodeKeepsInv(s: State, clientId: string, code: Option<string>, redirectUri: Option<string>)
    requires Inv(s)
    ensures Inv(ExchangeCode(s, clientId, code, redirectUri).0)
  {
    hide Redeem;
    var i := CodeIndex(s.records, code);
    var o := ExchangeCode(s, clientId, code, redirectUri);
    if i < |s.records| && o.1.Token? {
      var r := s.records[i];
      assert RecordOk(r);
      if r.status.PendingChallenge? {
        PassedMeansAccepted(s, r);
      }
      var claims := if r.status.PendingChallenge? then AcceptedClaims(s, r) else r.claims;
      RedeemKeepsInv(s, i, CodeRoute(redirectUri), claims);
    }
  }

  lemma ExchangeBackchannelKeepsInv(s: State, clientId: string, authReqId: Option<string>)
    requires Inv(s)
    ensures Inv(ExchangeBackchannel(s, clientId, authReqId).0)
  {
    hide Redeem;
    var i := RequestIndex(s.records, authReqId);
    var o := ExchangeBackchannel(s, clientId, authReqId);
    if i < |s.records| {
      if o.1.Token? {
        PassedMeansAccepted(s, s.records[i]);
        RedeemKeepsInv(s, i, BackchannelRoute, AcceptedClaims(s, s.records[i]));
      } else if o.0 != s {
        ExpireKeepsInv(s, i);
      }
    }
  }

  /** What a step may do to a stored record. */
  ghost predicate Evolves(a: Record, b: Record) {
    && b == a.(status := b.status, claims := b.claims)
    && (a.status.Redeemed? ==> b == a)
    && (b.status != a.status ==> b.status.Redeemed? || b.status.Expired?)
    && (b.claims != a.claims ==> b.status.Redeemed?)
    && b.claims.subject == a.claims.subject
  }

  /** Records are never lost, their binding never changes, and a redeemed record
      is final. */
  lemma NextEvolves(s: State, step: Step)
    ensures var s' := Next(s, step);
            && |s.records| <= |s'.records| && s.now <= s'.now && s.granted <= s'.granted
            && forall i :: 0 <= i < |s.records| ==> Evolves(s.records[i], s'.records[i])
  {
    hide Evolves, ApplyChallengeClaims;
    var s' := Next(s, step);
    forall i | 0 <= i < |s.records|
      ensures Evolves(s.records[i], s'.records[i])
    {
      SubjectKept(s, s.records[i]);
      StaysOrMoves(s.records[i], s'.records[i]);
    }
  }

  lemma SubjectKept(s: State, r: Record)
    ensures AcceptedClaims(s, r).subject == r.claims.subject
  {
  }

  lemma StaysOrMoves(a: Record, b: Record)
    requires || b == a
             || (!a.status.Redeemed? && b == a.(status := Expired))
             || (!a.status.Redeemed? && b == a.(status := Redeemed, claims := b.claims)
                 && b.claims.subject == a.claims.subject)
    ensures Evolves(a, b)
  {
  }

  // ---------------------------------------------------------------------
  // Over every run

  lemma {:induction false} RunKeepsInv(s: State, steps: seq<Step>)
    requires Inv(s)
    ensures Inv(Run(s, steps))
    decreases |steps|
  {
    hide Inv, Next;
    if steps != [] {
      NextKeepsInv(s, steps[0]);
      RunKeepsInv(Next(s, steps[0]), steps[1..]);
    }
  }

  /** Over every run from an empty store, each record yields at most one token set
      on the two routes together, and every token set was in order. */
  lemma AtMostOneTokenSet(now: int, steps: seq<Step>)
    ensures var s := Run(Initial(now), steps);
            && (forall k, l :: 0 <= k < l < |s.granted| ==> s.granted[k].index != s.granted[l].index)
            && (forall k :: 0 <= k < |s.granted| ==> GrantOk(s, s.granted[k]))
  {
    RunKeepsInv(Initial(now), steps);
  }

  // ---------------------------------------------------------------------
  // Tokens say what was asked for

  /** A call that created a record, and when. */
  datatype Made = Made(step: Step, at: int)

  /** The calls of a run that created records, in order. */
  ghost function MadeIn(s: State, steps: seq<Step>): (made: seq<Made>)
    decreases |steps|
  {
    if steps == [] then []
    else MadeBy(s, steps[0]) + MadeIn(Next(s, steps[0]), steps[1..])
  }

  ghost function MadeBy(s: State, step: Step): seq<Made> {
    if step.DoCreateCode? || step.DoCreateBackchannel? then [Made(step, s.now)] else []
  }

  /** The record is bound to what the call that created it asked for. */
  ghost predicate Bound(r: Record, m: Made) {
    match m.step
    case DoCreateCode(code, clientId, redirectUri, challengeId, claims) =>
      && !r.backchannel && r.code == Some(code) && r.redirectUri == Some(redirectUri)
      && r.clientId == clientId && r.challengeId == challengeId && r.claims.subject == claims.subject
      && r.expiresAt == m.at + 300 * 1000
      && (challengeId.None? ==> r.claims == claims)
    case DoCreateBackchannel(authReqId, clientId, challenge, claims, requestedTtl) =>
      && r.backchannel && r.authReqId == Some(authReqId)
      && r.clientId == clientId && r.challengeId == Some(challenge) && r.claims.subject == claims.subject
      && m.at + 60 * 1000 <= r.expiresAt <= m.at + 900 * 1000
    case _ => false
  }

  ghost predicate AllBound(s: State, made: seq<Made>) {
    |made| == |s.records| && forall i :: 0 <= i < |made| ==> Bound(s.records[i], made[i])
  }

  /** A record without a challenge keeps the claims it was created with. */
  ghost predicate ClaimsKept(a: Record, b: Record) {
    a.challengeId.None? ==> b.claims == a.claims
  }

  lemma {:induction false} BoundOverRun(s: State, made: seq<Made>, steps: seq<Step>)
    requires AllBound(s, made) && Inv(s)
    ensures AllBound(Run(s, steps), made + MadeIn(s, steps))
    decreases |steps|
  {
    hide Inv, Next, AllBound;
    if steps == [] {
      assert made + [] == made;
    } else {
      var s' := Next(s, steps[0]);
      BoundStep(s, made, steps[0]);
      NextKeepsInv(s, steps[0]);
      BoundOverRun(s', made + MadeBy(s, steps[0]), steps[1..]);
      assert (made + MadeBy(s, steps[0])) + MadeIn(s', steps[1..]) == made + MadeIn(s, steps);
    }
  }

  lemma BoundStep(s: State, made: seq<Made>, step: Step)
    requires AllBound(s, made) && Inv(s)
    ensures AllBound(Next(s, step), made + MadeBy(s, step))
  {
    var s' := Next(s, step);
    var all := made + MadeBy(s, step);
    NextEvolves(s, step);
    CreatedBound(s, step);
    hide Next, Bound;
    forall i | 0 <= i < |s.records|
      ensures Bound(s'.records[i], all[i])
    {
      KeepsClaims(s, step, i);
      BoundEvolves(s.records[i], s'.records[i], made[i]);
    }
  }

  lemma CreatedBound(s: State, step: Step)
    ensures var s', n := Next(s, step), |s.records|;
            if MadeBy(s, step) == [] then |s'.records| == n
            else |s'.records| == n + 1 && Bound(s'.records[n], MadeBy(s, step)[0])
  {
    hide Redeem;
    if step.DoExchangeCode? {
      SameCount(s, step);
    } else if step.DoExchangeBackchannel? {
      SameCount(s, step);
    }
  }

  lemma SameCount(s: State, step: Step)
    requires step.DoExchangeCode? || step.DoExchangeBackchannel?
    ensures |Next(s, step).records| == |s.records|
  {
    hide AcceptedClaims, PendingRefusal;
  }

  lemma KeepsClaims(s: State, step: Step, i: nat)
    requires Inv(s) && i < |s.records|
    ensures i < |Next(s, step).records| && ClaimsKept(s.records[i], Next(s, step).records[i])
  {
    hide ApplyChallengeClaims;
    assert RecordOk(s.records[i]);
  }

  lemma BoundEvolves(a: Record, b: Record, m: Made)
    requires Bound(a, m) && Evolves(a, b) && ClaimsKept(a, b)
    ensures Bound(b, m)
  {
  }

  /** What a token set says about the request that it answers: its subject and its
      client, all the claims that were passed if no challenge was asked for, and
      otherwise the accepted challenge with its assurance and the time. */
  ghost predicate Answers(s: State, g: Grant, m: Made) {
    match m.step
    case DoCreateCode(_, clientId, redirectUri, challengeId, claims) =>
      && g.route == CodeRoute(Some(redirectUri)) && g.clientId == clientId
      && g.claims.subject == claims.subject && g.at <= m.at + 300 * 1000
      && (if challengeId.None? then g.claims == claims else Backed(s, g, challengeId.value))
    case DoCreateBackchannel(_, clientId, challenge, claims, _) =>
      && g.clientId == clientId
      && g.claims.subject == claims.subject && g.at <= m.at + 900 * 1000
      && Backed(s, g, challenge)
    case _ => false
  }

  /** Over every run from an empty store, each record is bound to the call that
      created it and each token set answers that call. */
  lemma TokensAnswerRequests(now: int, steps: seq<Step>)
    ensures var s, made := Run(Initial(now), steps), MadeIn(Initial(now), steps);
            && AllBound(s, made)
            && forall k :: 0 <= k < |s.granted| ==>
                 s.granted[k].index < |made| && Answers(s, s.granted[k], made[s.granted[k].index])
  {
    var s, made := Run(Initial(now), steps), MadeIn(Initial(now), steps);
    RunKeepsInv(Initial(now), steps);
    BoundOverRun(Initial(now), [], steps);
    assert [] + made == made;
    hide Run, MadeIn;
    forall k | 0 <= k < |s.granted|
      ensures s.granted[k].index < |made| && Answers(s, s.granted[k], made[s.granted[k].index])
    {
      assert GrantOk(s, s.granted[k]);
      GrantAnswers(s, s.granted[k], made[s.granted[k].index]);
    }
  }

  lemma GrantAnswers(s: State, g: Grant, m: Made)
    requires GrantOk(s, g) && Bound(s.records[g.index], m) && RecordOk(s.records[g.index])
    ensures Answers(s, g, m)
  {
    hide Backed;
  }

  /** A refused attempt leaves the whole state as it was, a still-pending one
      included, except that an overdue backchannel request of the caller, not yet
      redeemed, is marked expired and nothing else changes. */
  lemma RefusalChangesNothing(s: State, clientId: string, code: Option<string>, redirectUri: Option<string>,
                              authReqId: Option<string>)
    ensures var o := ExchangeCode(s, clientId, code, redirectUri); o.1.Refused? ==> o.0 == s
    ensures var o := ExchangeBackchannel(s, clientId, authReqId);
            && (o.1.Refused? && o.1.why != GrantExpired ==> o.0 == s)
            && (o.1 == Refused(GrantExpired) <==> exists i :: OverdueRequest(s, clientId, authReqId, i))
            && forall i :: OverdueRequest(s, clientId, authReqId, i) ==>
                 o.0 == s.(records := s.records[i := s.records[i].(status := Expired)])
  {
    var o, i := ExchangeBackchannel(s, clientId, authReqId), RequestIndex(s.records, authReqId);
    assert forall k :: OverdueRequest(s, clientId, authReqId, k) ==> k == i;
    if o.1 == Refused(GrantExpired) {
      assert OverdueRequest(s, clientId, authReqId, i);
    }
  }

  /** The first backchannel request under this id is the caller's, unredeemed and
      past its lifetime. */
  ghost predicate OverdueRequest(s: State, clientId: string, authReqId: Option<string>, i: int) {
    && 0 <= i < |s.records| && s.records[i].backchannel && s.records[i].authReqId == authReqId
    && (forall k :: 0 <= k < i ==> !(s.records[k].backchannel && s.records[k].authReqId == authReqId))
    && s.records[i].clientId == clientId && !s.records[i].status.Redeemed? && s.records[i].expiresAt < s.now
  }

  /** How an attempt ends that depends on the challenge alone. */
  ghost predicate Decided(s: State, r: Record, o: Outcome) {
    if r.challengeId.None? || r.challengeId.value !in s.challenges then o == Refused(ChallengeMissing)
    else
      var c := s.challenges[r.challengeId.value];
      match c.status
      case Declined => o == Refused(AccessDenied)
      case Waiting =>
        o == Refused(if c.expiresAt.Some? && c.expiresAt.value < s.now then ChallengeExpired else AuthorizationPending)
      case Accepted =>
        o.Token? && o.claims.subject == r.claims.subject && Attests(o.claims, r.challengeId.value, c.assurance, s.now)
  }

  /** A pending record of the caller, on either route, is refused as expired once it
      is overdue, and until then its challenge decides: tokens exactly if it stands
      accepted, and otherwise the reason that its status and its time give. */
  lemma PendingExchange(s: State, clientId: string, authReqId: string, code: string, redirectUri: string)
    ensures var i := RequestIndex(s.records, Some(authReqId));
            i < |s.records| && s.records[i].status.PendingChallenge? && s.records[i].clientId == clientId ==>
              var o := ExchangeBackchannel(s, clientId, Some(authReqId)).1;
              if s.now > s.records[i].expiresAt then o == Refused(GrantExpired) else Decided(s, s.records[i], o)
    ensures var i := CodeIndex(s.records, Some(code));
            i < |s.records| && s.records[i].status.PendingChallenge? && s.records[i].clientId == clientId
            && s.records[i].redirectUri == Some(redirectUri) ==>
              var o := ExchangeCode(s, clientId, Some(code), Some(redirectUri)).1;
              if s.now > s.records[i].expiresAt then o == Refused(GrantExpired) else Decided(s, s.records[i], o)
  {
  }

  /** The attempt hands out one token set for record i, which becomes a redeemed
      record with the claims of the token set; nothing else changes. */
  ghost predicate Redeems(s: State, i: nat, o: (State, Outcome))
    requires i < |s.records|
  {
    && o.1.Token?
    && o.0.records == s.records[i := s.records[i].(status := Redeemed, claims := o.1.claims)]
    && |o.0.granted| == |s.granted| + 1
    && o.0 == s.(records := o.0.records, granted := o.0.granted)
  }

  /** How the code route ends, in the order of its checks. */
  lemma CodeRouteExact(s: State, clientId: string, code: Option<string>, redirectUri: Option<string>, i: nat)
    requires i == CodeIndex(s.records, code)
    ensures var o := ExchangeCode(s, clientId, code, redirectUri);
            && (o.1 == Refused(GrantNotFound) <==> forall k :: 0 <= k < |s.records| ==> s.records[k].code != code)
            && (i < |s.records| ==>
                  && s.records[i].code == code
                  && var r := s.records[i];
                     var caller := r.clientId == clientId && r.redirectUri == redirectUri;
                     var unused := r.status.Issued? || r.status.PendingChallenge?;
                     && (o.1 == Refused(GrantMismatch) <==> !caller)
                     && (o.1 == Refused(GrantUsed) <==> caller && !unused)
                     && (o.1 == Refused(GrantExpired) <==> caller && unused && s.now > r.expiresAt)
                     && (caller && s.now <= r.expiresAt && r.status.Issued? ==> o.1 == Token(r.claims))
                     && (o.1.Token? ==> Redeems(s, i, o)))
  {
    hide ApplyChallengeClaims;
  }

  /** How the backchannel route ends, in the order of its checks. */
  lemma BackchannelRouteExact(s: State, clientId: string, authReqId: Option<string>, i: nat)
    requires i == RequestIndex(s.records, authReqId)
    ensures var o := ExchangeBackchannel(s, clientId, authReqId);
            && (o.1 == Refused(GrantNotFound) <==>
                  forall k :: 0 <= k < |s.records| ==> !s.records[k].backchannel || s.records[k].authReqId != authReqId)
            && (i < |s.records| ==>
                  && s.records[i].backchannel && s.records[i].authReqId == authReqId
                  && var r := s.records[i];
                     && (o.1 == Refused(GrantMismatch) <==> r.clientId != clientId)
                     && (o.1 == Refused(GrantUsed) <==> r.clientId == clientId && r.status.Redeemed?)
                     && (o.1 == Refused(GrantExpired) <==>
                           r.clientId == clientId && !r.status.Redeemed? && s.now > r.expiresAt)
                     && (o.1.Token? ==> Redeems(s, i, o)))
  {
    hide ApplyChallengeClaims;
  }

  /** The oldest backchannel record. */
  ghost predicate FirstBackchannel(records: seq<Record>, i: int) {
    0 <= i < |records| && records[i].backchannel && forall k :: 0 <= k < i ==> !records[k].backchannel
  }

  /** What it takes for a backchannel record to be redeemed on the code route. */
  ghost predicate OpenTo(s: State, r: Record, clientId: string) {
    && r.clientId == clientId && r.status.PendingChallenge? && s.now <= r.expiresAt
    && r.challengeId.Some? && r.challengeId.value in s.challenges && s.challenges[r.challengeId.value].status.Accepted?
  }

  /** On the code route a request without a code redeems the oldest backchannel
      record, without its request id, exactly if it names no redirect URI and that
      record is the caller's, pending, in time and accepted; otherwise nothing. */
  lemma CodeRouteWithoutCode(s: State, clientId: string, redirectUri: Option<string>)
    requires Inv(s)
    ensures var o := ExchangeCode(s, clientId, None, redirectUri);
            && (o.1.Token? <==>
                  redirectUri.None? && exists i :: FirstBackchannel(s.records, i) && OpenTo(s, s.records[i], clientId))
            && (o.1.Token? ==> exists i :: FirstBackchannel(s.records, i) && |o.0.granted| == |s.granted| + 1
                                           && o.0.granted[|s.granted|].index == i && o.0.records[i].status.Redeemed?)
            && (o.1.Refused? ==> o.0 == s)
  {
    var i := CodeIndex(s.records, None);
    forall k | 0 <= k < |s.records|
      ensures s.records[k].backchannel <==> s.records[k].code.None?
    {
      assert RecordOk(s.records[k]);
    }
    if i < |s.records| {
      assert RecordOk(s.records[i]);
      assert FirstBackchannel(s.records, i);
    }
    assert forall k :: FirstBackchannel(s.records, k) ==> k == i;
  }

  /** A concrete run in which that happens: a token request that presents neither a
      code nor a request id is answered with the token set of a backchannel request. */
  lemma TokenWithoutCode(claims: Claims)
    ensures var steps := [DoCreateBackchannel("request", "app", "challenge", claims, None),
                          DoSetChallenge("challenge", Challenge(Accepted, "wallet", None))];
            ExchangeCode(Run(Initial(0), steps), "app", None, None).1.Token?
  {
    var create := DoCreateBackchannel("request", "app", "challenge", claims, None);
    var accept := DoSetChallenge("challenge", Challenge(Accepted, "wallet", None));
    var created := Next(Initial(0), create);
    var s := Next(created, accept);
    assert [create, accept][1..] == [accept] && [accept][1..] == [];
    assert Run(Initial(0), [create, accept]) == s by {
      hide Next;
      assert Run(s, []) == s && Run(created, [accept]) == s;
    }
    assert s.records[0].code.None? && CodeIndex(s.records, None) == 0;
  }

  lemma {:induction false} CodeIndexAppend(records: seq<Record>, r: Record)
    requires forall k :: 0 <= k < |records| ==> records[k].code != r.code
    ensures CodeIndex(records + [r], r.code) == |records|
  {
    if records != [] {
      assert (records + [r])[1..] == records[1..] + [r];
      CodeIndexAppend(records[1..], r);
    } else {
      assert [] + [r] == [r];
    }
  }

  /** The code of an unchallenged sign-in, fresh when issued, is exchanged by its
      client with its redirect URI within five minutes, exactly then, and once. */
  lemma FreshCodeExchangesOnce(s: State, code: string, clientId: string, redirectUri: string, claims: Claims,
                               elapsed: nat, later: nat, caller: string, presentedUri: Option<string>)
    requires forall k :: 0 <= k < |s.records| ==> s.records[k].code != Some(code)
    ensures var waited := Next(CreateCode(s, code, clientId, redirectUri, None, claims), Advance(elapsed));
            var first := ExchangeCode(waited, caller, Some(code), presentedUri);
            && (first.1.Token? <==> caller == clientId && presentedUri == Some(redirectUri) && elapsed <= CODE_TTL_MS)
            && (first.1.Token? ==> first.1.claims == claims
                                   && ExchangeCode(Next(first.0, Advance(later)), clientId, Some(code),
                                                   Some(redirectUri)).1 == Refused(GrantUsed))
  {
    var created := CreateCode(s, code, clientId, redirectUri, None, claims);
    var r := created.records[|s.records|];
    CodeIndexAppend(s.records, r);
    var waited := Next(created, Advance(elapsed));
    var first := ExchangeCode(waited, caller, Some(code), presentedUri);
    if first.1.Token? {
      var used := r.(claims := claims, status := Redeemed);
      assert first.0.records == s.records + [used];
      CodeIndexAppend(s.records, used);
    }
  }
}
