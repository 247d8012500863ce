/** Recovery of an administrator by the organization's own root wallets: two
    distinct wallets approve, then one re-enrolment grant is issued. Each service
    call is one step on the two stores. */
module ApproverRecovery {
  import opened Options
  import opened Reenrolment

  const APPROVALS_REQUIRED: nat := 2
  const REQUEST_TTL_MS := 24 * 60 * 60 * 1000

  /** One root wallet asked to approve. `token` stands for the salted hash of the
      token minted for this wallet; it is dropped when the request completes. */
  datatype Approver = Approver(walletId: string, token: Option<string>, approvedAt: Option<int>)

  datatype Request = Request(
    id: string,
    userId: string,
    statusToken: string,
    approvalsRequired: nat,
    approvers: seq<Approver>,
    expiresAt: int,
    completedAt: Option<int>)

  /** A token on its way to the wallet it names. */
  datatype Minted = Minted(walletId: string, token: string)

  datatype RootWallet = RootWallet(walletId: string, isConfirmed: bool)

  /** A workspace that the account administers, with its confirmed root wallets. */
  datatype Candidate = Candidate(workspaceId: string, confirmed: seq<RootWallet>)

  // History: what was started, with the wallets that were then confirmed, which
  // tokens were presented, what completed.
  datatype Started = Started(requestId: string, userId: string, at: int, confirmed: set<string>, minted: seq<Minted>)
  datatype Presented = Presented(requestId: string, walletId: string, token: string, at: int)
  datatype Completed = Completed(requestId: string, at: int)

  datatype State = State(
    requests: seq<Request>,
    grants: seq<Grant>,
    rootWallets: map<string, seq<RootWallet>>,  // an oracle: the wallets of each workspace
    now: int,
    started: seq<Started>,
    presented: seq<Presented>,
    completed: seq<Completed>,
    grantIds: set<string>,  // the random ids drawn for grants
    consumed: seq<string>)

  predicate IsLive(r: Request, now: int) { r.completedAt.None? && r.expiresAt > now }

  // ---------------------------------------------------------------------
  // The steps

  /** The requests that a new request for the user leaves in place. */
  function Others(requests: seq<Request>, userId: string, now: int): (r: seq<Request>)
    ensures forall x :: x in r <==> x in requests && (x.userId != userId || !IsLive(x, now))
  {
    if requests == [] then []
    else
      assert requests == [requests[0]] + requests[1..];
      (if requests[0].userId != userId || !IsLive(requests[0], now) then [requests[0]] else []) +
      Others(requests[1..], userId, now)
  }

  function NewApprovers(minted: seq<Minted>): (r: seq<Approver>)
    ensures |r| == |minted|
    ensures forall i :: 0 <= i < |r| ==> r[i] == Approver(minted[i].walletId, Some(minted[i].token), None)
  {
    seq(|minted|, i requires 0 <= i < |minted| => Approver(minted[i].walletId, Some(minted[i].token), None))
  }

  function Confirmed(wallets: seq<RootWallet>): (r: seq<RootWallet>)
    ensures forall x :: x in r <==> x in wallets && x.isConfirmed
  {
    if wallets == [] then []
    else
      assert wallets == [wallets[0]] + wallets[1..];
      (if wallets[0].isConfirmed then [wallets[0]] else []) + Confirmed(wallets[1..])
  }

  function WalletsOf(rootWallets: map<string, seq<RootWallet>>, workspaceId: string): seq<RootWallet> {
    if workspaceId in rootWallets then rootWallets[workspaceId] else []
  }

  /** The wallets that count as confirmed in a workspace. */
  function ConfirmedIds(wallets: seq<RootWallet>): set<string> {
    set w | w in wallets && w.isConfirmed :: w.walletId
  }

  function Candidates(rootWallets: map<string, seq<RootWallet>>, administered: seq<string>): (r: seq<Candidate>)
    ensures |r| == |administered|
    ensures forall i :: 0 <= i < |r| ==>
            r[i] == Candidate(administered[i], Confirmed(WalletsOf(rootWallets, administered[i])))
  {
    seq(|administered|, i requires 0 <= i < |administered| =>
      Candidate(administered[i], Confirmed(WalletsOf(rootWallets, administered[i]))))
  }

  /** The first of those with the most confirmed wallets. */
  function MostConfirmed(candidates: seq<Candidate>): (r: Option<Candidate>)
    ensures r.None? <==> candidates == []
    ensures r.Some? ==> r.value in candidates && forall c :: c in candidates ==> |c.confirmed| <= |r.value.confirmed|
  {
    if candidates == [] then None
    else
      assert candidates == [candidates[0]] + candidates[1..];
      var other := MostConfirmed(candidates[1..]);
      if other.Some? && |other.value.confirmed| > |candidates[0].confirmed| then other else Some(candidates[0])
  }

  /** One fresh token for each confirmed wallet, naming it. */
  function Mint(confirmed: seq<RootWallet>, tokenFor: string -> string): (r: seq<Minted>)
    ensures |r| == |confirmed|
    ensures forall i :: 0 <= i < |r| ==> r[i] == Minted(confirmed[i].walletId, tokenFor(confirmed[i].walletId))
  {
    seq(|confirmed|, i requires 0 <= i < |confirmed| => Minted(confirmed[i].walletId, tokenFor(confirmed[i].walletId)))
  }

  /** The organization whose wallets a new request would ask, if it can start. */
  function Asked(s: State, account: Account, administered: seq<string>): (r: Option<Candidate>)
    ensures r.Some? ==> account.Passwordless? && r.value in Candidates(s.rootWallets, administered)
  {
    var best := MostConfirmed(Candidates(s.rootWallets, administered));
    if account.Passwordless? && best.Some? && |best.value.confirmed| >= APPROVALS_REQUIRED then best else None
  }

  /** What the history notes of a start. */
  function StartOf(s: State, userId: string, organization: Candidate, requestId: string,
                   tokenFor: string -> string): Started
  {
    Started(requestId, userId, s.now, ConfirmedIds(WalletsOf(s.rootWallets, organization.workspaceId)),
            Mint(organization.confirmed, tokenFor))
  }

  function Start(s: State, userId: string, account: Account, administered: seq<string>, requestId: string,
                 statusToken: string, tokenFor: string -> string): State
  {
    match Asked(s, account, administered)
    case None => s
    case Some(organization) =>
      var approvers := NewApprovers(Mint(organization.confirmed, tokenFor));
      var request := Request(requestId, userId, statusToken, APPROVALS_REQUIRED, approvers, s.now + REQUEST_TTL_MS,
                             None);
      s.(requests := [request] + Others(s.requests, userId, s.now),
         started := s.started + [StartOf(s, userId, organization, requestId, tokenFor)])
  }

  function LiveIndex(requests: seq<Request>, id: string, now: int): (i: nat)
    ensures i <= |requests|
    ensures i < |requests| ==> requests[i].id == id && IsLive(requests[i], now)
    ensures forall k :: 0 <= k < i ==> !(requests[k].id == id && IsLive(requests[k], now))
  {
    if requests == [] || (requests[0].id == id && IsLive(requests[0], now)) then 0
    else
      assert forall k :: 1 <= k < |requests| ==> requests[k] == requests[1..][k - 1];
      1 + LiveIndex(requests[1..], id, now)
  }

  function ApproverIndex(approvers: seq<Approver>, walletId: string, token: string): (i: nat)
    ensures i <= |approvers|
    ensures i < |approvers| ==> approvers[i].walletId == walletId && approvers[i].token == Some(token)
    ensures forall k :: 0 <= k < i ==> !(approvers[k].walletId == walletId && approvers[k].token == Some(token))
  {
    if approvers == [] || (approvers[0].walletId == walletId && approvers[0].token == Some(token)) then 0
    else
      assert forall k :: 1 <= k < |approvers| ==> approvers[k] == approvers[1..][k - 1];
      1 + ApproverIndex(approvers[1..], walletId, token)
  }

  function WithApproval(r: Request, k: nat, at: int): Request
    requires k < |r.approvers|
  {
    r.(approvers := r.approvers[k := r.approvers[k].(approvedAt := Some(at))])
  }

  /** The state after an approval and whether it was a valid one. */
  function Approve(s: State, walletId: string, requestId: string, token: string): (State, bool) {
    if walletId == "" || token == "" then (s, false)
    else
      var i := LiveIndex(s.requests, requestId, s.now);
      if i == |s.requests| then (s, false)
      else
        var r := s.requests[i];
        var k := ApproverIndex(r.approvers, walletId, token);
        if k == |r.approvers| then (s, false)
        else if r.approvers[k].approvedAt.Some? then (s, true)
        else
          (s.(requests := s.requests[i := WithApproval(r, k, s.now)],
              presented := s.presented + [Presented(requestId, walletId, token, s.now)]),
           true)
  }

  function StatusIndex(requests: seq<Request>, statusToken: string, now: int): (i: nat)
    ensures i <= |requests|
    ensures i < |requests| ==> requests[i].statusToken == statusToken && IsLive(requests[i], now)
    ensures forall k :: 0 <= k < i ==> !(requests[k].statusToken == statusToken && IsLive(requests[k], now))
  {
    if requests == [] || (IsLive(requests[0], now) && requests[0].statusToken == statusToken) then 0
    else
      assert forall k :: 1 <= k < |requests| ==> requests[k] == requests[1..][k - 1];
      1 + StatusIndex(requests[1..], statusToken, now)
  }

  function ApprovedBy(approvers: seq<Approver>): seq<string> {
    if approvers == [] then []
    else (if approvers[0].approvedAt.Some? then [approvers[0].walletId] else []) + ApprovedBy(approvers[1..])
  }

  function WithoutTokens(approvers: seq<Approver>): (r: seq<Approver>)
    ensures |r| == |approvers| && forall i :: 0 <= i < |r| ==> r[i] == approvers[i].(token := None)
  {
    seq(|approvers|, i requires 0 <= i < |approvers| => approvers[i].(token := None))
  }

  /** A completed request; its approval tokens are spent with it. */
  function WhenCompleted(r: Request, at: int): Request {
    r.(completedAt := Some(at), approvers := WithoutTokens(r.approvers))
  }

  datatype ClaimResult = Granted | NotOpen | NeedsApprovals(count: nat) | GrantRefused

  /** Completing the request; the grant itself can still be refused by the account. */
  function Claim(s: State, statusToken: string, account: Account, grantId: string, grantToken: string)
    : (State, ClaimResult)
  {
    var i := StatusIndex(s.requests, statusToken, s.now);
    if i == |s.requests| then (s, NotOpen)
    else
      var r := s.requests[i];
      var approvedBy := ApprovedBy(r.approvers);
      if |approvedBy| < r.approvalsRequired then (s, NeedsApprovals(|approvedBy|))
      else
        var done := s.(requests := s.requests[i := WhenCompleted(r, s.now)],
                       completed := s.completed + [Completed(r.id, s.now)]);
        if account.Passwordless? then (IssueGrant(done, r.userId, grantId, grantToken), Granted)
        else (done, GrantRefused)
  }

  function IssueGrant(s: State, userId: string, grantId: string, grantToken: string): State {
    s.(grants := AddGrant(s.grants, userId, grantId, grantToken, s.now), grantIds := s.grantIds + {grantId})
  }

  function Spend(s: State, grantId: string): (State, bool) {
    var r := Consume(s.grants, grantId, s.now);
    (if r.1 then s.(grants := r.0, consumed := s.consumed + [grantId]) else s, r.1)
  }

  datatype Step =
    | DoStart(userId: string, applicant: Account, administered: seq<string>, requestId: string, statusToken: string,
              tokenFor: string -> string)
    | DoApprove(walletId: string, request: string, token: string)
    | DoClaim(status: string, account: Account, grantId: string, grantToken: string)
    | DoGrant(grantee: string, account: Account, grantId: string, grantToken: string)  // by an administrator
    | DoConsume(spent: string)
    | SetRootWallets(workspaceId: string, wallets: seq<RootWallet>)
    | Advance(elapsed: nat)

  /** Random ids are fresh, and a workspace lists each wallet once. */
  ghost predicate Allowed(s: State, step: Step) {
    match step
    case DoStart(_, _, _, requestId, _, _) => forall k :: 0 <= k < |s.started| ==> s.started[k].requestId != requestId
    case DoClaim(_, _, grantId, _) => grantId !in s.grantIds
    case DoGrant(_, _, grantId, _) => grantId !in s.grantIds
    case SetRootWallets(_, wallets) => ListedOnce(wallets)
    case _ => true
  }

  ghost predicate ListedOnce(wallets: seq<RootWallet>) {
    forall i, j :: 0 <= i < j < |wallets| ==> wallets[i].walletId != wallets[j].walletId
  }

  function Next(s: State, step: Step): State {
    match step
    case DoStart(userId, account, administered, requestId, statusToken, tokenFor) =>
      Start(s, userId, account, administered, requestId, statusToken, tokenFor)
    case DoApprove(walletId, requestId, token) => Approve(s, walletId, requestId, token).0
    case DoClaim(statusToken, account, grantId, grantToken) => Claim(s, statusToken, account, grantId, grantToken).0
    case DoGrant(userId, account, grantId, grantToken) =>
      if account.Passwordless? then IssueGrant(s, userId, grantId, grantToken) else s
    case DoConsume(grantId) => Spend(s, grantId).0
    case SetRootWallets(workspaceId, wallets) => s.(rootWallets := s.rootWallets[workspaceId := wallets])
    case Advance(elapsed) => s.(now := s.now + elapsed)
  }

  function Initial(now: int): State { State([], [], map[], now, [], [], [], {}, []) }

  ghost predicate ValidRun(s: State, steps: seq<Step>)
    decreases |steps|
  {
    steps != [] ==> Allowed(s, steps[0]) && ValidRun(Next(s, steps[0]), steps[1..])
  }

  function Run(s: State, steps: seq<Step>): State
    decreases |steps|
  {
    if steps == [] then s else Run(Next(s, steps[0]), steps[1..])
  }

  // ---------------------------------------------------------------------
  // What every step keeps

  /** A token that the start minted for a wallet was presented by it, in time. */
  ghost predicate PresentedFor(presented: seq<Presented>, st: Started, m: Minted, at: int) {
    Presented(st.requestId, m.walletId, m.token, at) in presented && st.at <= at < st.at + REQUEST_TTL_MS
  }

  /** The stored request is the one started under its id, with its tokens until it
      completes, and each of its approvals was given with the wallet's own token
      while the request was open. */
  ghost predicate Matches(s: State, r: Request, st: Started) {
    && st.requestId == r.id && st.userId == r.userId
    && r.approvalsRequired == APPROVALS_REQUIRED && r.expiresAt == st.at + REQUEST_TTL_MS
    && |r.approvers| == |st.minted|
    && (forall k :: 0 <= k < |r.approvers| ==> r.approvers[k].walletId == st.minted[k].walletId)
    && (forall k :: 0 <= k < |r.approvers| && r.completedAt.None? ==> r.approvers[k].token == Some(st.minted[k].token))
    && (forall k :: 0 <= k < |r.approvers| && r.approvers[k].approvedAt.Some? ==>
                      PresentedFor(s.presented, st, st.minted[k], r.approvers[k].approvedAt.value))
  }

  ghost predicate Matched(s: State, r: Request) {
    exists st :: st in s.started && Matches(s, r, st)
  }

  ghost predicate DistinctWallets(minted: seq<Minted>) {
    forall i, j :: 0 <= i < j < |minted| ==> minted[i].walletId != minted[j].walletId
  }

  /** A start asked distinct wallets, all of them confirmed then. */
  ghost predicate StartOk(st: Started, now: int) {
    && DistinctWallets(st.minted) && st.at <= now
    && forall i :: 0 <= i < |st.minted| ==> st.minted[i].walletId in st.confirmed
  }

  /** Two distinct wallets, confirmed when the request started, each presented the
      token minted for it while the request was open and not after it completed,
      and it completed before it expired. */
  ghost predicate JustifiedBy(s: State, c: Completed, st: Started, i: nat, j: nat, a: int, b: int) {
    && st in s.started && st.requestId == c.requestId
    && i < j < |st.minted| && st.minted[i].walletId != st.minted[j].walletId
    && st.minted[i].walletId in st.confirmed && st.minted[j].walletId in st.confirmed
    && PresentedFor(s.presented, st, st.minted[i], a) && PresentedFor(s.presented, st, st.minted[j], b)
    && a <= c.at && b <= c.at < st.at + REQUEST_TTL_MS
  }

  ghost predicate Justified(s: State, c: Completed) {
    exists st, i, j, a, b :: JustifiedBy(s, c, st, i, j, a, b)
  }

  /** An accepted presentation was made by a wallet that was confirmed when the
      request started, with the token minted for it, before the request expired. */
  ghost predicate Presentable(s: State, p: Presented) {
    exists st, m :: st in s.started && m in st.minted && p.requestId == st.requestId && p.walletId == m.walletId
                    && p.walletId in st.confirmed && p.token == m.token && st.at <= p.at < st.at + REQUEST_TTL_MS
                       && p.at <= s.now
  }

  ghost predicate StartsOk(s: State) {
    && (forall st :: st in s.started ==> StartOk(st, s.now))
    && (forall workspaceId :: workspaceId in s.rootWallets ==> ListedOnce(s.rootWallets[workspaceId]))
  }

  ghost predicate PresentedOk(s: State) {
    forall p :: p in s.presented ==> Presentable(s, p)
  }

  ghost predicate RequestsOk(s: State) {
    && (forall i :: 0 <= i < |s.requests| ==> Matched(s, s.requests[i]))
    && DistinctIds(s.requests)
  }

  ghost predicate OneLivePerUser(s: State) { DistinctLive(s.requests, s.now) }

  ghost predicate CompletionsOk(s: State) {
    && (forall i, j :: 0 <= i < j < |s.completed| ==> s.completed[i].requestId != s.completed[j].requestId)
    && (forall i :: 0 <= i < |s.completed| ==> Justified(s, s.completed[i]))
    && (forall r, i :: r in s.requests && r.completedAt.None? && 0 <= i < |s.completed| ==>
        s.completed[i].requestId != r.id)
  }

  ghost predicate GrantsOk(s: State) {
    && OnePerUser(s.grants)
    && (forall g :: g in s.grants ==> g.id in s.grantIds && (g.usedAt.None? ==> g.id !in s.consumed))
    && (forall id :: id in s.consumed ==> id in s.grantIds)
    && (forall i, j :: 0 <= i < j < |s.consumed| ==> s.consumed[i] != s.consumed[j])
  }

  ghost predicate Inv(s: State) {
    StartsOk(s) && PresentedOk(s) && RequestsOk(s) && OneLivePerUser(s) && CompletionsOk(s) && GrantsOk(s)
  }

  lemma {:induction false} ConfirmedOnce(wallets: seq<RootWallet>)
    requires ListedOnce(wallets)
    ensures ListedOnce(Confirmed(wallets))
  {
    if wallets != [] {
      var tail := wallets[1..];
      ConfirmedOnce(tail);
      var rest := Confirmed(tail);
      forall k | 0 <= k < |rest|
        ensures rest[k].walletId != wallets[0].walletId
      {
        assert rest[k] in tail;
        var j :| 0 <= j < |tail| && tail[j] == rest[k];
        assert wallets[j + 1] == rest[k];
      }
    }
  }

  /** A start asks each of the then confirmed wallets of one workspace once. */
  lemma StartAsksConfirmed(s: State, step: Step)
    requires StartsOk(s) && step.DoStart? && Next(s, step) != s
    ensures var s' := Next(s, step);
            StartsOk(s') && s.started <= s'.started
  {
    StartFrame(s, step);
    var organization := Asked(s, step.applicant, step.administered).value;
    StartOfOk(s, step.userId, organization, step.requestId, step.tokenFor);
    hide Next, StartOf, StartOk, ListedOnce;
  }

  lemma StartOfOk(s: State, userId: string, organization: Candidate, requestId: string, tokenFor: string -> string)
    requires StartsOk(s) && organization.confirmed == Confirmed(WalletsOf(s.rootWallets, organization.workspaceId))
    ensures StartOk(StartOf(s, userId, organization, requestId, tokenFor), s.now)
  {
    var wallets := WalletsOf(s.rootWallets, organization.workspaceId);
    assert ListedOnce(wallets);
    hide StartsOk;
    ConfirmedOnce(wallets);
  }

  lemma StartFrame(s: State, step: Step)
    requires step.DoStart? && Next(s, step) != s
    ensures var s' := Next(s, step);
            && s' == s.(requests := s'.requests, started := s'.started)
            && s'.requests != [] && s'.requests == [s'.requests[0]] + Others(s.requests, step.userId, s.now)
            && s'.requests[0].id == step.requestId && s'.requests[0].userId == step.userId
            && var organization := Asked(s, step.applicant, step.administered);
               && organization.Some?
               && organization.value.confirmed == Confirmed(WalletsOf(s.rootWallets, organization.value.workspaceId))
               && s'.started == s.started + [StartOf(s, step.userId, organization.value, step.requestId, step.tokenFor)]
  {
    hide Others, Asked, StartOf, Mint, NewApprovers, Confirmed, WalletsOf;
    assert Asked(s, step.applicant, step.administered).Some?;
  }

  lemma StartKeepsInv(s: State, step: Step)
    requires Inv(s) && Allowed(s, step) && step.DoStart?
    ensures Inv(Next(s, step))
  {
    var s' := Next(s, step);
    if s' != s {
      StartFrame(s, step);
      StartAsksConfirmed(s, step);
      hide Next, Asked, Allowed;
      HistoriesKept(s, s');
      StartRequests(s, step);
      StartCompletions(s, step);
      OthersKeepOrder(s.requests, step.userId, s.now);
      DistinctLiveCons(s'.requests[0], Others(s.requests, step.userId, s.now), s.now);
      GrantsSame(s, s');
      hide Presentable, GrantsOk, RequestsOk, CompletionsOk, DistinctLive, StartsOk, IsLive;
    }
  }

  lemma GrantsSame(s: State, s': State)
    requires GrantsOk(s) && s'.grants == s.grants && s'.grantIds == s.grantIds && s'.consumed == s.consumed
    ensures GrantsOk(s')
  {
  }

  lemma StartRequests(s: State, step: Step)
    requires Inv(s) && Allowed(s, step) && step.DoStart? && Next(s, step) != s
    ensures RequestsOk(Next(s, step))
  {
    var s' := Next(s, step);
    var others := Others(s.requests, step.userId, s.now);
    OthersKeepOrder(s.requests, step.userId, s.now);
    StartedMatches(s, step);
    StartFrame(s, step);
    assert forall x :: x in s.requests ==> Matched(s, x);
    hide *;
    forall x | x in others
      ensures Matched(s', x) && x.id != step.requestId
    {
      MatchedKept(s, s', x);
      MatchedIsStarted(s, step, x);
    }
    ConsRequests(s', s'.requests[0], others);
  }

  lemma ConsRequests(s: State, r: Request, others: seq<Request>)
    requires s.requests == [r] + others && Matched(s, r) && DistinctIds(others)
    requires forall x :: x in others ==> Matched(s, x) && x.id != r.id
    ensures RequestsOk(s)
  {
    hide Matched;
    DistinctIdsCons(r, others);
  }

  lemma StartedMatches(s: State, step: Step)
    requires step.DoStart? && Next(s, step) != s
    ensures var s' := Next(s, step); s'.requests != [] && Matched(s', s'.requests[0])
  {
    var s' := Next(s, step);
    var st := s'.started[|s.started|];
    assert st in s'.started && Matches(s', s'.requests[0], st);
  }

  lemma MatchedIsStarted(s: State, step: Step, r: Request)
    requires Matched(s, r) && Allowed(s, step) && step.DoStart?
    ensures r.id != step.requestId
  {
    var st :| st in s.started && Matches(s, r, st);
    hide Matches;
    var k :| 0 <= k < |s.started| && s.started[k] == st;
  }

  lemma MatchedKept(s: State, s': State, r: Request)
    requires Matched(s, r) && s.started <= s'.started && s.presented <= s'.presented
    ensures Matched(s', r)
  {
    var st :| st in s.started && Matches(s, r, st);
    assert st in s'.started && Matches(s', r, st);
  }

  ghost predicate DistinctIds(requests: seq<Request>) {
    forall i, j :: 0 <= i < j < |requests| ==> requests[i].id != requests[j].id
  }

  lemma DistinctIdsCons(r: Request, rest: seq<Request>)
    requires DistinctIds(rest) && forall x :: x in rest ==> x.id != r.id
    ensures DistinctIds([r] + rest)
  {
    var all := [r] + rest;
    forall i, j | 0 <= i < j < |all|
      ensures all[i].id != all[j].id
    {
      assert all[j] == rest[j - 1] && all[j] in rest;
      if i > 0 {
        assert all[i] == rest[i - 1];
      }
    }
  }

  /** At most one live request per user at this time. */
  ghost predicate DistinctLive(requests: seq<Request>, now: int) {
    forall i, j :: 0 <= i < j < |requests| && IsLive(requests[i], now) && IsLive(requests[j], now) ==>
                     requests[i].userId != requests[j].userId
  }

  lemma DistinctLiveCons(r: Request, rest: seq<Request>, now: int)
    requires DistinctLive(rest, now)
    requires forall x :: x in rest && IsLive(x, now) && IsLive(r, now) ==> x.userId != r.userId
    ensures DistinctLive([r] + rest, now)
  {
    hide IsLive;
    var all := [r] + rest;
    forall i, j | 0 <= i < j < |all| && IsLive(all[i], now) && IsLive(all[j], now)
      ensures all[i].userId != all[j].userId
    {
      assert all[j] == rest[j - 1] && all[j] in rest;
      if i > 0 {
        assert all[i] == rest[i - 1];
      }
    }
  }

  lemma StartCompletions(s: State, step: Step)
    requires Inv(s) && Allowed(s, step) && step.DoStart? && Next(s, step) != s
    ensures CompletionsOk(Next(s, step))
  {
    var s' := Next(s, step);
    var others := Others(s.requests, step.userId, s.now);
    StartFrame(s, step);
    FreshNotJustified(s, step);
    hide *;
    HistoriesKept(s, s');
    assert forall r :: r in s'.requests ==> r == s'.requests[0] || r in others;
    ConsCompletions(s, s', s'.requests[0]);
  }

  lemma ConsCompletions(s: State, s': State, r: Request)
    requires CompletionsOk(s) && s'.completed == s.completed && forall c :: Justified(s, c) ==> Justified(s', c)
    requires forall x :: x in s'.requests ==> x == r || x in s.requests
    requires forall c :: Justified(s, c) ==> c.requestId != r.id
    ensures CompletionsOk(s')
  {
    hide Justified;
  }

  lemma FreshNotJustified(s: State, step: Step)
    requires Allowed(s, step) && step.DoStart?
    ensures forall c :: Justified(s, c) ==> c.requestId != step.requestId
  {
    forall c | Justified(s, c)
      ensures c.requestId != step.requestId
    {
      var st, i, j, a, b :| JustifiedBy(s, c, st, i, j, a, b);
    }
  }

  /** Dropping requests keeps the rest in order, so what held for pairs holds. */
  lemma {:induction false} OthersKeepOrder(requests: seq<Request>, userId: string, now: int)
    requires DistinctIds(requests) && DistinctLive(requests, now)
    ensures var r := Others(requests, userId, now); DistinctIds(r) && DistinctLive(r, now)
  {
    hide IsLive;
    if requests != [] {
      var head, tail := requests[0], requests[1..];
      var rest := Others(tail, userId, now);
      HeadApart(requests, now);
      OthersKeepOrder(tail, userId, now);
      assert Others(requests, userId, now) == rest || Others(requests, userId, now) == [head] + rest;
      hide DistinctIds, DistinctLive, Others;
      DistinctIdsCons(head, rest);
      DistinctLiveCons(head, rest, now);
    }
  }

  lemma HeadApart(requests: seq<Request>, now: int)
    requires DistinctIds(requests) && DistinctLive(requests, now) && requests != []
    ensures DistinctIds(requests[1..]) && DistinctLive(requests[1..], now)
    ensures forall x :: x in requests[1..] ==>
              && x.id != requests[0].id
              && (IsLive(requests[0], now) && IsLive(x, now) ==> x.userId != requests[0].userId)
  {
    hide IsLive;
    forall x | x in requests[1..]
      ensures x.id != requests[0].id
      ensures IsLive(requests[0], now) && IsLive(x, now) ==> x.userId != requests[0].userId
    {
      var k :| 0 <= k < |requests| - 1 && requests[1..][k] == x;
      assert requests[k + 1] == x;
    }
  }

  /** Longer histories justify what shorter ones did. */
  lemma HistoriesKept(s: State, s': State)
    requires s.started <= s'.started && s.presented <= s'.presented && s.now <= s'.now
    ensures forall c :: Justified(s, c) ==> Justified(s', c)
    ensures forall p :: Presentable(s, p) ==> Presentable(s', p)
  {
    forall c | Justified(s, c)
      ensures Justified(s', c)
    {
      var st, i, j, a, b :| JustifiedBy(s, c, st, i, j, a, b);
      assert JustifiedBy(s', c, st, i, j, a, b);
    }
    forall p | Presentable(s, p)
      ensures Presentable(s', p)
    {
      var st, m :| st in s.started && m in st.minted && p.requestId == st.requestId && p.walletId == m.walletId
                   && p.walletId in st.confirmed && p.token == m.token && st.at <= p.at < st.at + REQUEST_TTL_MS
                      && p.at <= s.now;
      assert st in s'.started;
    }
  }

  lemma ApproveKeepsInv(s: State, walletId: string, requestId: string, token: string)
    requires Inv(s)
    ensures Inv(Approve(s, walletId, requestId, token).0)
  {
    var s' := Approve(s, walletId, requestId, token).0;
    if s' != s {
      var i := LiveIndex(s.requests, requestId, s.now);
      ApprovedMatches(s, walletId, requestId, token);
      hide Approve, Matched, Justified, Presentable, StartOk, ListedOnce;
      HistoriesKept(s, s');
      RequestUpdate(s, s', i);
      GrantsSame(s, s');
      UpdatedMatched(s, s', i);
      hide GrantsOk, DistinctLive, IsLive, RequestsOk, LiveIndex;
    }
  }

  lemma UpdatedMatched(s: State, s': State, i: nat)
    requires RequestsOk(s) && s.started <= s'.started && s.presented <= s'.presented
    requires i < |s.requests| && |s'.requests| == |s.requests| && Matched(s', s'.requests[i])
    requires forall j :: 0 <= j < |s.requests| && j != i ==> s'.requests[j] == s.requests[j]
    requires s'.requests[i].id == s.requests[i].id
    ensures RequestsOk(s')
  {
    hide Matched;
    forall j | 0 <= j < |s'.requests|
      ensures Matched(s', s'.requests[j])
    {
      if j != i {
        MatchedKept(s, s', s.requests[j]);
      }
    }
  }

  /** The approved request still matches its start, with one more token presented. */
  lemma ApprovedMatches(s: State, walletId: string, requestId: string, token: string)
    requires RequestsOk(s) && StartsOk(s) && Approve(s, walletId, requestId, token).0 != s
    ensures var s' := Approve(s, walletId, requestId, token).0;
            var i := LiveIndex(s.requests, requestId, s.now);
            && i < |s.requests| && IsLive(s.requests[i], s.now)
            && s'.requests == s.requests[i := s'.requests[i]] && Matched(s', s'.requests[i])
            && s'.requests[i] == s.requests[i].(approvers := s'.requests[i].approvers)
            && s' == s.(requests := s'.requests, presented := s'.presented)
            && s'.presented == s.presented + [s'.presented[|s.presented|]]
               && Presentable(s', s'.presented[|s.presented|])
  {
    var s' := Approve(s, walletId, requestId, token).0;
    var i := LiveIndex(s.requests, requestId, s.now);
    var r := s.requests[i];
    var k := ApproverIndex(r.approvers, walletId, token);
    ApproveFrame(s, walletId, requestId, token);
    assert Matched(s, r);
    var st :| st in s.started && Matches(s, r, st);
    assert StartOk(st, s.now);
    hide Approve, LiveIndex, ApproverIndex, RequestsOk, StartsOk;
    OneMorePresented(s, s', r, st, k);
    assert s'.requests[i] == WithApproval(r, k, s.now);
  }

  lemma ApproveFrame(s: State, walletId: string, requestId: string, token: string)
    requires Approve(s, walletId, requestId, token).0 != s
    ensures var s' := Approve(s, walletId, requestId, token).0;
            var i := LiveIndex(s.requests, requestId, s.now);
            && i < |s.requests| && IsLive(s.requests[i], s.now) && s.requests[i].id == requestId
            && var r := s.requests[i];
               var k := ApproverIndex(r.approvers, walletId, token);
               && k < |r.approvers|
               && s' == s.(requests := s.requests[i := WithApproval(r, k, s.now)],
                           presented := s.presented + [Presented(requestId, walletId, token, s.now)])
  {
    hide LiveIndex, ApproverIndex, IsLive;
  }

  /** A token of the request, presented while it is open. */
  lemma OneMorePresented(s: State, s': State, r: Request, st: Started, k: nat)
    requires st in s.started && Matches(s, r, st) && StartOk(st, s.now) && IsLive(r, s.now) && k < |r.approvers|
    requires r.approvers[k].token.Some? && s'.started == s.started && s'.now == s.now
    requires s'.presented == s.presented + [Presented(r.id, r.approvers[k].walletId, r.approvers[k].token.value, s.now)]
    ensures Matched(s', WithApproval(r, k, s.now))
    ensures Presentable(s', s'.presented[|s.presented|])
  {
    var p := s'.presented[|s.presented|];
    assert p in s'.presented && st.minted[k] in st.minted;
    assert PresentedFor(s'.presented, st, st.minted[k], s.now);
    assert Matches(s', WithApproval(r, k, s.now), st);
  }

  /** Changing one request's approvers or completing it keeps the pairwise facts. */
  lemma RequestUpdate(s: State, s': State, i: nat)
    requires RequestsOk(s) && OneLivePerUser(s) && CompletionsOk(s)
    requires i < |s.requests| && |s'.requests| == |s.requests| && s'.now == s.now
    requires forall j :: 0 <= j < |s.requests| && j != i ==> s'.requests[j] == s.requests[j]
    requires var a, b := s.requests[i], s'.requests[i];
             a.id == b.id && a.userId == b.userId && a.expiresAt == b.expiresAt && a.completedAt.None?
    ensures DistinctIds(s'.requests)
    ensures OneLivePerUser(s')
    ensures forall r, k :: r in s'.requests && r.completedAt.None? && 0 <= k < |s.completed| ==>
            s.completed[k].requestId != r.id
    ensures s'.requests[i].completedAt.Some? ==>
              forall r :: r in s'.requests && r.completedAt.None? ==> r.id != s.requests[i].id
  {
    hide Matched, Justified;
    forall r | r in s'.requests && r.completedAt.None?
      ensures forall k :: 0 <= k < |s.completed| ==> s.completed[k].requestId != r.id
      ensures s'.requests[i].completedAt.Some? ==> r.id != s.requests[i].id
    {
      var j :| 0 <= j < |s'.requests| && s'.requests[j] == r;
      assert s.requests[j] in s.requests && s.requests[j].id == r.id;
    }
  }

  lemma {:induction false} TwoApprovals(approvers: seq<Approver>) returns (i: nat, j: nat)
    requires |ApprovedBy(approvers)| >= 2
    ensures i < j < |approvers| && approvers[i].approvedAt.Some? && approvers[j].approvedAt.Some?
  {
    if approvers[0].approvedAt.None? {
      i, j := TwoApprovals(approvers[1..]);
      i, j := i + 1, j + 1;
    } else {
      i := 0;
      j := OneApproval(approvers[1..]);
      j := j + 1;
    }
  }

  lemma {:induction false} OneApproval(approvers: seq<Approver>) returns (i: nat)
    requires |ApprovedBy(approvers)| >= 1
    ensures i < |approvers| && approvers[i].approvedAt.Some?
  {
    if approvers[0].approvedAt.Some? {
      i := 0;
    } else {
      i := OneApproval(approvers[1..]);
      i := i + 1;
    }
  }

  /** The state when a request completes, before the grant is issued. */
  lemma CompleteKeepsInv(s: State, i: nat, s': State)
    requires Inv(s) && i < |s.requests| && IsLive(s.requests[i], s.now)
    requires |ApprovedBy(s.requests[i].approvers)| >= s.requests[i].approvalsRequired
    requires var r := s.requests[i];
             s' == s.(requests := s.requests[i := WhenCompleted(r, s.now)],
                      completed := s.completed + [Completed(r.id, s.now)])
    ensures Inv(s')
  {
    assert Matched(s, s.requests[i]);
    HistoriesKept(s, s');
    CompletedMatches(s, i, s');
    CompletedCompletions(s, i, s');
    RequestUpdate(s, s', i);
    hide CompletionsOk, Presentable, GrantsOk, StartOk, ListedOnce, DistinctIds, DistinctLive, Matched, WithoutTokens;
    forall j | 0 <= j < |s'.requests|
      ensures Matched(s', s'.requests[j])
    {
      if j != i {
        MatchedKept(s, s', s.requests[j]);
      }
    }
  }

  lemma CompletedCompletions(s: State, i: nat, s': State)
    requires Inv(s) && i < |s.requests| && IsLive(s.requests[i], s.now)
    requires |ApprovedBy(s.requests[i].approvers)| >= s.requests[i].approvalsRequired
    requires s'.started == s.started && s'.presented == s.presented && s'.now == s.now
    requires s'.completed == s.completed + [Completed(s.requests[i].id, s.now)]
    requires |s'.requests| == |s.requests|
    requires forall j :: 0 <= j < |s.requests| && j != i ==> s'.requests[j] == s.requests[j]
    requires s'.requests[i] == s.requests[i].(completedAt := Some(s.now), approvers := s'.requests[i].approvers)
    ensures CompletionsOk(s')
  {
    var r := s.requests[i];
    assert Matched(s, r) && r in s.requests;
    CompletionJustified(s, r);
    hide Justified, Matched, StartsOk, PresentedOk, GrantsOk, ApprovedBy;
    HistoriesKept(s, s');
    hide Presentable;
    RequestUpdate(s, s', i);
    AddCompletion(s, s', Completed(r.id, s.now));
  }

  lemma AddCompletion(s: State, s': State, c: Completed)
    requires CompletionsOk(s) && s'.completed == s.completed + [c] && Justified(s', c)
    requires forall x :: Justified(s, x) ==> Justified(s', x)
    requires forall k :: 0 <= k < |s.completed| ==> s.completed[k].requestId != c.requestId
    requires forall r, k :: r in s'.requests && r.completedAt.None? && 0 <= k < |s.completed| ==>
             s.completed[k].requestId != r.id
    requires forall r :: r in s'.requests && r.completedAt.None? ==> r.id != c.requestId
    ensures CompletionsOk(s')
  {
    hide Justified;
    var n := |s.completed|;
    assert s'.completed[n] == c;
    assert forall k :: 0 <= k < n ==> s'.completed[k] == s.completed[k];
  }

  lemma CompletedMatches(s: State, i: nat, s': State)
    requires RequestsOk(s) && i < |s.requests| && s'.started == s.started && s'.presented == s.presented
    requires |s'.requests| == |s.requests|
    requires s'.requests[i] == WhenCompleted(s.requests[i], s.now)
    ensures Matched(s', s'.requests[i])
  {
    assert Matched(s, s.requests[i]);
    var st :| st in s.started && Matches(s, s.requests[i], st);
    hide PresentedFor;
    assert Matches(s', s'.requests[i], st);
  }

  lemma CompletionJustified(s: State, r: Request)
    requires StartsOk(s) && PresentedOk(s) && Matched(s, r) && IsLive(r, s.now)
    requires |ApprovedBy(r.approvers)| >= r.approvalsRequired
    ensures Justified(s, Completed(r.id, s.now))
  {
    var st :| st in s.started && Matches(s, r, st);
    var i, j := TwoApprovals(r.approvers);
    assert StartOk(st, s.now);
    var a, b := r.approvers[i].approvedAt.value, r.approvers[j].approvedAt.value;
    assert Presentable(s, Presented(r.id, st.minted[i].walletId, st.minted[i].token, a));
    assert Presentable(s, Presented(r.id, st.minted[j].walletId, st.minted[j].token, b));
    hide Presentable;
    assert JustifiedBy(s, Completed(r.id, s.now), st, i, j, a, b);
  }

  lemma SameRequestsKeepInv(s: State, s': State)
    requires Inv(s) && GrantsOk(s') && StartsOk(s')
    requires s'.requests == s.requests && s'.started == s.started && s'.presented == s.presented
    requires s'.completed == s.completed && s'.now >= s.now
    ensures Inv(s')
  {
    hide GrantsOk, StartOk, ListedOnce;
    HistoriesKept(s, s');
    hide Justified, Presentable;
    forall i | 0 <= i < |s'.requests|
      ensures Matched(s', s'.requests[i])
    {
      MatchedKept(s, s', s.requests[i]);
    }
  }

  lemma IssueGrantKeepsInv(s: State, userId: string, grantId: string, grantToken: string)
    requires Inv(s) && grantId !in s.grantIds
    ensures Inv(IssueGrant(s, userId, grantId, grantToken))
  {
    var s' := IssueGrant(s, userId, grantId, grantToken);
    AddGrantOnePerUser(s.grants, userId, grantId, grantToken, s.now);
    assert GrantsOk(s');
    SameRequestsKeepInv(s, s');
  }

  lemma SpendKeepsInv(s: State, grantId: string)
    requires Inv(s)
    ensures Inv(Spend(s, grantId).0)
  {
    var s' := Spend(s, grantId).0;
    if s' != s {
      var i := GrantIndex(s.grants, grantId);
      assert s.grants[i] in s.grants;
      forall g | g in s'.grants
        ensures g.id in s'.grantIds && (g.usedAt.None? ==> g.id !in s'.consumed)
      {
        var k :| 0 <= k < |s'.grants| && s'.grants[k] == g;
        assert s.grants[k] in s.grants;
        if k != i {
          assert s.grants[k].id != grantId;
        }
      }
      assert GrantsOk(s');
      SameRequestsKeepInv(s, s');
    }
  }

  lemma ClaimKeepsInv(s: State, statusToken: string, account: Account, grantId: string, grantToken: string)
    requires Inv(s) && grantId !in s.grantIds
    ensures Inv(Claim(s, statusToken, account, grantId, grantToken).0)
  {
    hide Inv, IssueGrant, ApprovedBy;
    var i := StatusIndex(s.requests, statusToken, s.now);
    if i < |s.requests| {
      var r := s.requests[i];
      if |ApprovedBy(r.approvers)| >= r.approvalsRequired {
        var done := s.(requests := s.requests[i := WhenCompleted(r, s.now)],
                       completed := s.completed + [Completed(r.id, s.now)]);
        CompleteKeepsInv(s, i, done);
        IssueGrantKeepsInv(done, r.userId, grantId, grantToken);
      }
    }
  }

  lemma NextKeepsInv(s: State, step: Step)
    requires Inv(s) && Allowed(s, step)
    ensures Inv(Next(s, step))
  {
    match step
    case DoStart(_, _, _, _, _, _) => StartKeepsInv(s, step);
    case DoApprove(walletId, requestId, token) => ApproveKeepsInv(s, walletId, requestId, token);
    case DoClaim(statusToken, account, grantId, grantToken) =>
      ClaimKeepsInv(s, statusToken, account, grantId, grantToken);
    case DoGrant(userId, _, grantId, grantToken) => IssueGrantKeepsInv(s, userId, grantId, grantToken);
    case DoConsume(grantId) => SpendKeepsInv(s, grantId);
    case _ => SameRequestsKeepInv(s, Next(s, step));
  }

  // ---------------------------------------------------------------------
  // Over every run

  lemma {:induction false} RunKeepsInv(s: State, steps: seq<Step>)
    requires Inv(s) && ValidRun(s, steps)
    ensures Inv(Run(s, steps))
    decreases |steps|
  {
    hide Inv, Next, Allowed;
    if steps != [] {
      NextKeepsInv(s, steps[0]);
      RunKeepsInv(Next(s, steps[0]), steps[1..]);
    }
  }

  /** Over every run: an account has at most one live request and at most one
      grant, no request completes twice, every completion is justified by two
      distinct wallets, confirmed when the request started, that presented their
      own tokens while it was open, it completed before it expired, every approval
      was given by a wallet asked and in time, and no grant is spent twice. */
  lemma RecoverySafe(now: int, steps: seq<Step>)
    requires ValidRun(Initial(now), steps)
    ensures var s := Run(Initial(now), steps);
            && OneLivePerUser(s)
            && (forall i, j :: 0 <= i < j < |s.grants| ==> s.grants[i].userId != s.grants[j].userId)
            && (forall i, j :: 0 <= i < j < |s.completed| ==> s.completed[i].requestId != s.completed[j].requestId)
            && (forall i :: 0 <= i < |s.completed| ==> Justified(s, s.completed[i]))
            && (forall p :: p in s.presented ==> Presentable(s, p))
            && (forall i, j :: 0 <= i < j < |s.consumed| ==> s.consumed[i] != s.consumed[j])
  {
    RunKeepsInv(Initial(now), steps);
  }

  /** A passwordless account can start a request exactly if one of the workspaces it
      administers has two confirmed root wallets; a weaker one cannot block it. The
      request asks exactly the confirmed wallets of one such workspace. */
  lemma StartsExactly(s: State, userId: string, account: Account, administered: seq<string>, requestId: string,
                      statusToken: string, tokenFor: string -> string)
    ensures var s' := Start(s, userId, account, administered, requestId, statusToken, tokenFor);
            && (s' != s <==> account.Passwordless? &&
                             exists w :: w in administered
                                 && |Confirmed(WalletsOf(s.rootWallets, w))| >= APPROVALS_REQUIRED)
            && (s' != s ==>
                  && s'.requests != [] && s'.requests[0].id == requestId && s'.requests[0].userId == userId
                  && exists w :: w in administered && Asks(s'.requests[0], WalletsOf(s.rootWallets, w)))
  {
    var candidates := Candidates(s.rootWallets, administered);
    var s' := Start(s, userId, account, administered, requestId, statusToken, tokenFor);
    if w :| w in administered && |Confirmed(WalletsOf(s.rootWallets, w))| >= APPROVALS_REQUIRED {
      var i :| 0 <= i < |administered| && administered[i] == w;
      assert candidates[i] in candidates;
    }
    var asked := Asked(s, account, administered);
    if asked.Some? {
      assert |s'.started| == |s.started| + 1;
      var i :| 0 <= i < |candidates| && candidates[i] == asked.value;
      var w := administered[i];
      assert w in administered && asked.value.confirmed == Confirmed(WalletsOf(s.rootWallets, w));
      AsksConfirmed(s'.requests[0], WalletsOf(s.rootWallets, w), tokenFor);
    }
  }

  /** The wallets that a request asks are the confirmed ones of these. */
  ghost predicate Asks(r: Request, wallets: seq<RootWallet>) {
    forall id :: (exists k :: 0 <= k < |r.approvers| && r.approvers[k].walletId == id) <==> id in ConfirmedIds(wallets)
  }

  lemma AsksConfirmed(r: Request, wallets: seq<RootWallet>, tokenFor: string -> string)
    requires r.approvers == NewApprovers(Mint(Confirmed(wallets), tokenFor))
    ensures Asks(r, wallets)
  {
    var confirmed := Confirmed(wallets);
    forall id
      ensures (exists k :: 0 <= k < |r.approvers| && r.approvers[k].walletId == id) <==> id in ConfirmedIds(wallets)
    {
      if k :| 0 <= k < |r.approvers| && r.approvers[k].walletId == id {
        assert confirmed[k] in confirmed;
      }
      if id in ConfirmedIds(wallets) {
        var w :| w in wallets && w.isConfirmed && w.walletId == id;
        assert w in confirmed;
        var k :| 0 <= k < |confirmed| && confirmed[k] == w;
        assert r.approvers[k].walletId == id;
      }
    }
  }

  /** Scanning the same link again changes nothing and answers the same. */
  lemma ApproveTwiceIsOnce(s: State, walletId: string, requestId: string, token: string)
    ensures var once := Approve(s, walletId, requestId, token);
            Approve(once.0, walletId, requestId, token) == once
  {
    var once := Approve(s, walletId, requestId, token).0;
    if once != s {
      var i := LiveIndex(s.requests, requestId, s.now);
      var r := s.requests[i];
      LiveIndexSame(s.requests, once.requests, requestId, s.now);
      ApproverIndexSame(r.approvers, once.requests[i].approvers, walletId, token);
    }
  }

  lemma {:induction false} LiveIndexSame(a: seq<Request>, b: seq<Request>, id: string, now: int)
    requires |a| == |b|
    requires forall i :: 0 <= i < |a| ==> a[i].id == b[i].id && (IsLive(a[i], now) <==> IsLive(b[i], now))
    ensures LiveIndex(a, id, now) == LiveIndex(b, id, now)
  {
    if a != [] {
      LiveIndexSame(a[1..], b[1..], id, now);
    }
  }

  lemma {:induction false} ApproverIndexSame(a: seq<Approver>, b: seq<Approver>, walletId: string, token: string)
    requires |a| == |b|
    requires forall i :: 0 <= i < |a| ==> a[i].walletId == b[i].walletId && a[i].token == b[i].token
    ensures ApproverIndex(a, walletId, token) == ApproverIndex(b, walletId, token)
  {
    if a != [] {
      ApproverIndexSame(a[1..], b[1..], walletId, token);
    }
  }

  /** A request that could start, open for so long, with one approval. */
  function OnceApproved(s: State, userId: string, administered: seq<string>, requestId: string, statusToken: string,
                        tokenFor: string -> string, wait: nat, a: string): (State, bool)
  {
    var open := Start(s, userId, Passwordless, administered, requestId, statusToken, tokenFor).(now := s.now + wait);
    Approve(open, a, requestId, tokenFor(a))
  }

  /** Two different wallets that a new request would ask. */
  ghost predicate BothAsked(s: State, administered: seq<string>, tokenFor: string -> string, a: RootWallet,
                            b: RootWallet)
  {
    && Asked(s, Passwordless, administered).Some?
    && var asked := Asked(s, Passwordless, administered).value.confirmed;
       && a in asked && b in asked && a != b
       && forall w :: w in asked ==> w.walletId != "" && tokenFor(w.walletId) != ""
  }

  /** The intended course: after a start, two of the asked wallets approving while
      the request is open are enough, and one alone is not. The claim then issues
      a grant that its token resolves to. */
  lemma TwoApprovalsSuffice(s: State, userId: string, administered: seq<string>, requestId: string, statusToken: string,
                            tokenFor: string -> string, a: RootWallet, b: RootWallet, wait: nat,
                            grantId: string, grantToken: string, users: set<string>)
    requires StartsOk(s) && BothAsked(s, administered, tokenFor, a, b)
    requires wait < REQUEST_TTL_MS && grantToken != "" && userId in users
    requires forall g :: g in s.grants ==> g.token != grantToken
    ensures var one := OnceApproved(s, userId, administered, requestId, statusToken, tokenFor, wait, a.walletId);
            var two := Approve(one.0, b.walletId, requestId, tokenFor(b.walletId));
            var claimed := Claim(two.0, statusToken, Passwordless, grantId, grantToken);
            && one.1 && Claim(one.0, statusToken, Passwordless, grantId, grantToken).1 == NeedsApprovals(1)
            && two.1 && claimed.1 == Granted && ResolvesTo(claimed.0, users, grantToken, userId)
  {
    var open := Start(s, userId, Passwordless, administered, requestId, statusToken, tokenFor).(now := s.now + wait);
    ApprovalsOfOpen(s, userId, administered, requestId, statusToken, tokenFor, a, b, wait);
    hide *;
    var one := OnceApproved(s, userId, administered, requestId, statusToken, tokenFor, wait, a.walletId).0;
    var two := Approve(one, b.walletId, requestId, tokenFor(b.walletId)).0;
    ClaimCounted(open, one, 1, grantId, grantToken);
    ClaimCounted(open, two, 2, grantId, grantToken);
    ResolveAdded(Claim(two, statusToken, Passwordless, grantId, grantToken).0, s.grants, users, userId, grantId,
                 grantToken);
  }

  lemma ApprovalsOfOpen(s: State, userId: string, administered: seq<string>, requestId: string, statusToken: string,
                        tokenFor: string -> string, a: RootWallet, b: RootWallet, wait: nat)
    requires StartsOk(s) && BothAsked(s, administered, tokenFor, a, b) && wait < REQUEST_TTL_MS
    ensures var open := Start(s, userId, Passwordless, administered, requestId, statusToken,
                              tokenFor).(now := s.now + wait);
            var one := OnceApproved(s, userId, administered, requestId, statusToken, tokenFor, wait, a.walletId);
            var two := Approve(one.0, b.walletId, requestId, tokenFor(b.walletId));
            && open.grants == s.grants && open.requests != [] && IsLive(open.requests[0], open.now)
            && open.requests[0].statusToken == statusToken && open.requests[0].userId == userId
            && open.requests[0].approvalsRequired == 2
            && one.1 && two.1 && CountsApprovals(open, one.0, 1) && CountsApprovals(open, two.0, 2)
  {
    hide *;
    var i, j := AskedAt(s, administered, tokenFor, a, b);
    StartOpens(s, userId, administered, requestId, statusToken, tokenFor, wait);
    var open := Start(s, userId, Passwordless, administered, requestId, statusToken, tokenFor).(now := s.now + wait);
    assert OnceApproved(s, userId, administered, requestId, statusToken, tokenFor, wait, a.walletId) ==
           Approve(open, a.walletId, requestId, tokenFor(a.walletId)) by {
      OnceApprovedMeans(s, userId, administered, requestId, statusToken, tokenFor, wait, a.walletId);
    }
    TwoOfOpen(open, i, j);
  }

  lemma OnceApprovedMeans(s: State, userId: string, administered: seq<string>, requestId: string, statusToken: string,
                          tokenFor: string -> string, wait: nat, a: string)
    ensures OnceApproved(s, userId, administered, requestId, statusToken, tokenFor, wait, a) ==
            Approve(Start(s, userId, Passwordless, administered, requestId, statusToken,
                          tokenFor).(now := s.now + wait),
                    a, requestId, tokenFor(a))
  {
    hide Start, Approve;
  }

  lemma AskedAt(s: State, administered: seq<string>, tokenFor: string -> string, a: RootWallet, b: RootWallet)
    returns (i: nat, j: nat)
    requires BothAsked(s, administered, tokenFor, a, b)
    ensures Asked(s, Passwordless, administered).Some?
    ensures var asked := Asked(s, Passwordless, administered).value.confirmed;
            && i < |asked| && j < |asked| && i != j && asked[i] == a && asked[j] == b
            && forall k :: 0 <= k < |asked| ==> asked[k].walletId != "" && tokenFor(asked[k].walletId) != ""
  {
    hide Asked;
    var asked := Asked(s, Passwordless, administered).value.confirmed;
    i :| 0 <= i < |asked| && asked[i] == a;
    j :| 0 <= j < |asked| && asked[j] == b;
  }

  ghost predicate ResolvesTo(s: State, users: set<string>, grantToken: string, userId: string) {
    var g := Resolve(s.grants, users, grantToken, s.now); g.Some? && g.value.userId == userId
  }

  /** Two approvals of the request at the front, both valid, and how they count. */
  lemma TwoOfOpen(open: State, i: nat, j: nat)
    requires open.requests != [] && IsLive(open.requests[0], open.now)
    requires var a := open.requests[0].approvers;
             && i < |a| && j < |a| && i != j
             && (forall k :: 0 <= k < |a| ==>
                 a[k].walletId != "" && a[k].token.Some? && a[k].token.value != "" && a[k].approvedAt.None?)
             && forall k, l :: 0 <= k < l < |a| ==> a[k].walletId != a[l].walletId
    ensures var r := open.requests[0];
            var one := Approve(open, r.approvers[i].walletId, r.id, r.approvers[i].token.value);
            var two := Approve(one.0, r.approvers[j].walletId, r.id, r.approvers[j].token.value);
            && one.1 && two.1 && CountsApprovals(open, one.0, 1) && CountsApprovals(open, two.0, 2)
  {
    hide Approve, ApprovedBy;
    var r := open.requests[0];
    ApprovedNone(r.approvers);
    ApproveFirst(open, i);
    ApprovedCount(r.approvers, i, open.now);
    var one := Approve(open, r.approvers[i].walletId, r.id, r.approvers[i].token.value).0;
    ApproveFirst(one, j);
    ApprovedCount(one.requests[0].approvers, j, open.now);
  }

  /** The front request has gained this many approvals and nothing else. */
  ghost predicate CountsApprovals(open: State, s: State, n: nat)
    requires open.requests != []
  {
    && s.requests != [] && s.requests[0] == open.requests[0].(approvers := s.requests[0].approvers)
    && |ApprovedBy(s.requests[0].approvers)| == n && s.grants == open.grants && s.now == open.now
  }

  /** The new request stands at the front and asks each wallet with its token. */
  lemma StartOpens(s: State, userId: string, administered: seq<string>, requestId: string, statusToken: string,
                   tokenFor: string -> string, wait: nat)
    requires StartsOk(s) && wait < REQUEST_TTL_MS && Asked(s, Passwordless, administered).Some?
    ensures var asked := Asked(s, Passwordless, administered).value.confirmed;
            var open := Start(s, userId, Passwordless, administered, requestId, statusToken,
                              tokenFor).(now := s.now + wait);
            && open.grants == s.grants && open.requests != []
            && var r := open.requests[0];
               && r.id == requestId && r.userId == userId && r.statusToken == statusToken && r.approvalsRequired == 2
               && IsLive(r, open.now) && |r.approvers| == |asked|
               && (forall k, l :: 0 <= k < l < |asked| ==> r.approvers[k].walletId != r.approvers[l].walletId)
               && forall k :: 0 <= k < |asked| ==>
                  r.approvers[k] == Approver(asked[k].walletId, Some(tokenFor(asked[k].walletId)), None)
  {
    var organization := Asked(s, Passwordless, administered).value;
    var wallets := WalletsOf(s.rootWallets, organization.workspaceId);
    assert ListedOnce(wallets);
    ConfirmedOnce(wallets);
    hide Others, Confirmed, Asked, StartsOk;
  }

  /** A wallet that has not approved approves the request at the front. */
  lemma ApproveFirst(s: State, k: nat)
    requires s.requests != [] && IsLive(s.requests[0], s.now) && k < |s.requests[0].approvers|
    requires var a := s.requests[0].approvers;
             && a[k].approvedAt.None? && a[k].walletId != "" && a[k].token.Some? && a[k].token.value != ""
             && forall i, j :: 0 <= i < j < |a| ==> a[i].walletId != a[j].walletId
    ensures var r := s.requests[0];
            var o := Approve(s, r.approvers[k].walletId, r.id, r.approvers[k].token.value);
            && o.1 && o.0.grants == s.grants && o.0.now == s.now
            && o.0.requests == s.requests[0 := WithApproval(r, k, s.now)]
  {
    ApproverAt(s.requests[0].approvers, k);
  }

  /** What claiming the front request comes to after so many approvals. */
  lemma ClaimCounted(open: State, s: State, n: nat, grantId: string, grantToken: string)
    requires open.requests != [] && IsLive(open.requests[0], open.now) && CountsApprovals(open, s, n)
    ensures var r := open.requests[0];
            var o := Claim(s, r.statusToken, Passwordless, grantId, grantToken);
            && o.1 == (if n < r.approvalsRequired then NeedsApprovals(n) else Granted)
            && (o.1.Granted? ==>
                  o.0.grants == AddGrant(open.grants, r.userId, grantId, grantToken, open.now) && o.0.now == open.now)
  {
    hide ApprovedBy, AddGrant;
  }

  /** Among distinct wallets each token finds its own approver. */
  lemma {:induction false} ApproverAt(approvers: seq<Approver>, k: nat)
    requires k < |approvers| && approvers[k].token.Some?
    requires forall i, j :: 0 <= i < j < |approvers| ==> approvers[i].walletId != approvers[j].walletId
    ensures ApproverIndex(approvers, approvers[k].walletId, approvers[k].token.value) == k
  {
    if k > 0 {
      assert approvers[0].walletId != approvers[k].walletId;
      ApproverAt(approvers[1..], k - 1);
    }
  }

  lemma {:induction false} ApprovedNone(approvers: seq<Approver>)
    requires forall i :: 0 <= i < |approvers| ==> approvers[i].approvedAt.None?
    ensures ApprovedBy(approvers) == []
  {
    if approvers != [] {
      ApprovedNone(approvers[1..]);
    }
  }

  lemma {:induction false} ApprovedCount(approvers: seq<Approver>, k: nat, at: int)
    requires k < |approvers| && approvers[k].approvedAt.None?
    ensures |ApprovedBy(approvers[k := approvers[k].(approvedAt := Some(at))])| == |ApprovedBy(approvers)| + 1
  {
    var marked := approvers[k := approvers[k].(approvedAt := Some(at))];
    if k == 0 {
      assert marked[1..] == approvers[1..];
    } else {
      assert marked[1..] == approvers[1..][k - 1 := approvers[k].(approvedAt := Some(at))];
      ApprovedCount(approvers[1..], k - 1, at);
    }
  }

  lemma ResolveAdded(s: State, grants: seq<Grant>, users: set<string>, userId: string, id: string, token: string)
    requires s.grants == AddGrant(grants, userId, id, token, s.now)
    requires token != "" && userId in users && forall g :: g in grants ==> g.token != token
    ensures ResolvesTo(s, users, token, userId)
  {
    assert s.grants[|s.grants| - 1] in s.grants;
  }

  // ---------------------------------------------------------------------
  // The service

  class RecoveryService {
    var requests: seq<Request>
    const grantStore: GrantStore
    var rootWallets: map<string, seq<RootWallet>>
    var now: int
    ghost var started: seq<Started>
    ghost var presented: seq<Presented>
    ghost var completed: seq<Completed>
    ghost var grantIds: set<string>
    ghost var consumed: seq<string>

    ghost function View(): State
      reads this, grantStore
    {
      State(requests, grantStore.grants, rootWallets, now, started, presented, completed, grantIds, consumed)
    }

    constructor (now: int)
      ensures View() == Initial(now) && fresh(grantStore)
    {
      requests, rootWallets, started, presented, completed, grantIds, consumed := [], map[], [], [], [], {}, [];
      grantStore := new GrantStore();
      this.now := now;
    }

    method FindApproverOrganization(administered: seq<string>) returns (best: Option<Candidate>)
      ensures best == MostConfirmed(Candidates(rootWallets, administered))
    {
      hide Confirmed, WalletsOf, MostConfirmed;
      var candidates := [];
      for i := 0 to |administered|
        invariant |candidates| == i
        invariant forall k :: 0 <= k < i ==> candidates[k] == Candidates(rootWallets, administered)[k]
      {
        var confirmed := Confirmed(WalletsOf(rootWallets, administered[i]));
        candidates := candidates + [Candidate(administered[i], confirmed)];
      }
      assert candidates == Candidates(rootWallets, administered);
      best := MostConfirmed(candidates);
    }

    method StartApproverRecovery(userId: string, account: Account, administered: seq<string>, requestId: string,
                                 statusToken: string, tokenFor: string -> string)
      modifies this
      ensures View() == Start(old(View()), userId, account, administered, requestId, statusToken, tokenFor)
    {
      if !account.Passwordless? {
        return;
      }
      var organization := FindApproverOrganization(administered);
      if organization.None? || |organization.value.confirmed| < APPROVALS_REQUIRED {
        return;
      }
      var minted := Mint(organization.value.confirmed, tokenFor);
      var record := Request(requestId, userId, statusToken, APPROVALS_REQUIRED, NewApprovers(minted),
                            now + REQUEST_TTL_MS, None);
      requests := [record] + Others(requests, userId, now);
      started := started + [StartOf(View(), userId, organization.value, requestId, tokenFor)];
    }

    method ApproveRecoveryRequest(walletId: string, requestId: string, token: string) returns (valid: bool)
      modifies this
      ensures (View(), valid) == Approve(old(View()), walletId, requestId, token)
    {
      if walletId == "" || token == "" {
        return false;
      }
      var index := LiveIndex(requests, requestId, now);
      if index == |requests| {
        return false;
      }
      var record := requests[index];
      var k := ApproverIndex(record.approvers, walletId, token);
      if k == |record.approvers| {
        return false;
      }
      if record.approvers[k].approvedAt.None? {
        var approver := record.approvers[k].(approvedAt := Some(now));
        requests := requests[index := record.(approvers := record.approvers[k := approver])];
        presented := presented + [Presented(requestId, walletId, token, now)];
      }
      return true;
    }

    method ClaimApproverRecovery(statusToken: string, account: Account, grantId: string, grantToken: string)
      returns (result: ClaimResult)
      modifies this, grantStore
      ensures (View(), result) == Claim(old(View()), statusToken, account, grantId, grantToken)
    {
      var index := StatusIndex(requests, statusToken, now);
      if index == |requests| {
        return NotOpen;
      }
      var record := requests[index];
      var approvedBy := ApprovedBy(record.approvers);
      if |approvedBy| < record.approvalsRequired {
        return NeedsApprovals(|approvedBy|);
      }
      requests := requests[index := WhenCompleted(record, now)];
      completed := completed + [Completed(record.id, now)];
      var error := grantStore.GrantReenrolment(account, record.userId, grantId, grantToken, now);
      if error.Some? {
        return GrantRefused;
      }
      grantIds := grantIds + {grantId};
      return Granted;
    }

    method SpendGrant(grantId: string) returns (spent: bool)
      modifies this, grantStore
      ensures (View(), spent) == Spend(old(View()), grantId)
    {
      spent := grantStore.ConsumeGrant(grantId, now);
      if spent {
        consumed := consumed + [grantId];
      }
    }
  }
}
