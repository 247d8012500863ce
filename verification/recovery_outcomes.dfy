/** When each call of the recovery by root wallets succeeds and what it changes, in
    terms of the stored requests alone. */
module RecoveryOutcomes {
  import opened Options
  import opened Reenrolment
  import opened ApproverRecovery

  /** The request can still be approved and claimed. */
  ghost predicate IsOpen(r: Request, now: int) { r.completedAt.None? && now < r.expiresAt }

  /** The organization chosen is the first of those with the most confirmed wallets. */
  lemma {:induction false} MostConfirmedFirst(candidates: seq<Candidate>) returns (i: nat)
    requires candidates != []
    ensures i < |candidates| && MostConfirmed(candidates) == Some(candidates[i])
    ensures forall k :: 0 <= k < |candidates| ==>
              |candidates[k].confirmed| <= |candidates[i].confirmed| &&
              (k < i ==> |candidates[k].confirmed| < |candidates[i].confirmed|)
  {
    i := 0;
    var rest := candidates[1..];
    assert forall k :: 1 <= k < |candidates| ==> candidates[k] == rest[k - 1];
    if rest != [] {
      var j := MostConfirmedFirst(rest);
      if |rest[j].confirmed| > |candidates[0].confirmed| {
        i := j + 1;
      }
    }
  }

  /** Request by request: only an open one of the account is dropped, in place. */
  lemma {:induction false} OthersExact(a: seq<Request>, b: seq<Request>, userId: string, now: int)
    ensures Others(a + b, userId, now) == Others(a, userId, now) + Others(b, userId, now)
    ensures |a| == 1 ==> Others(a, userId, now) == if a[0].userId == userId && IsOpen(a[0], now) then [] else a
  {
    hide *;
    if a == [] {
      OthersOfNone(userId, now);
      assert a + b == b;
      assert Others([], userId, now) + Others(b, userId, now) == Others(b, userId, now);
    } else {
      assert a == [a[0]] + a[1..] && a + b == [a[0]] + (a[1..] + b);
      OthersExact(a[1..], b, userId, now);
      OthersFirst(a[0], a[1..], userId, now);
      OthersFirst(a[0], a[1..] + b, userId, now);
      OthersOfNone(userId, now);
    }
  }

  lemma OthersOfNone(userId: string, now: int)
    ensures Others([], userId, now) == []
  {
  }

  lemma OthersFirst(r: Request, rest: seq<Request>, userId: string, now: int)
    ensures Others([r] + rest, userId, now) ==
            (if r.userId == userId && IsOpen(r, now) then [] else [r]) + Others(rest, userId, now)
  {
    assert ([r] + rest)[1..] == rest;
  }

  /** A start puts a request in front that needs two approvals within a day and asks
      every wallet with a token of its own; of the others only the account's open
      request goes. */
  lemma StartExact(s: State, userId: string, account: Account, administered: seq<string>, requestId: string,
                   statusToken: string, tokenFor: string -> string)
    ensures var s' := Start(s, userId, account, administered, requestId, statusToken, tokenFor);
            s' != s ==>
              && s'.requests != []
              && var r := s'.requests[0];
                 && r.id == requestId && r.userId == userId && r.statusToken == statusToken
                 && r.approvalsRequired == 2 && r.expiresAt == s.now + 86400 * 1000 && r.completedAt.None?
                 && (forall k :: 0 <= k < |r.approvers| ==>
                       r.approvers[k] == Approver(r.approvers[k].walletId, Some(tokenFor(r.approvers[k].walletId)),
                                                  None))
                 && s'.requests[1..] == Others(s.requests, userId, s.now)
                 && s'.grants == s.grants && s'.rootWallets == s.rootWallets && s'.now == s.now
  {
    hide Others, Asked, StartOf;
  }

  /** A scan is answered as valid exactly if it names a wallet and shows the token
      that an open request keeps for it; the first valid one notes the time there and
      changes nothing else, every other scan changes nothing. */
  lemma ApproveExact(s: State, walletId: string, requestId: string, token: string, i: nat, k: nat)
    requires i == LiveIndex(s.requests, requestId, s.now)
    requires k == if i < |s.requests| then ApproverIndex(s.requests[i].approvers, walletId, token) else 0
    ensures i < |s.requests| <==> exists j :: 0 <= j < |s.requests| && s.requests[j].id == requestId &&
                                              IsOpen(s.requests[j], s.now)
    ensures i < |s.requests| ==>
              && s.requests[i].id == requestId && IsOpen(s.requests[i], s.now)
              && forall j :: 0 <= j < i ==> s.requests[j].id != requestId || !IsOpen(s.requests[j], s.now)
    ensures var (s', valid) := Approve(s, walletId, requestId, token);
            && (valid <==>
                  && walletId != "" && token != "" && i < |s.requests|
                  && exists j :: 0 <= j < |s.requests[i].approvers| &&
                                 Holds(s.requests[i].approvers[j], walletId, token))
            && (valid ==>
                  k < |s.requests[i].approvers| && Holds(s.requests[i].approvers[k], walletId, token))
            && (!valid || s.requests[i].approvers[k].approvedAt.Some? ==> s' == s)
            && (valid && s.requests[i].approvers[k].approvedAt.None? ==>
                  && s' == s.(requests := s'.requests, presented := s'.presented)
                  && s'.requests == s.requests[i := s'.requests[i]]
                  && s'.requests[i] == s.requests[i].(approvers := s'.requests[i].approvers)
                  && s'.requests[i].approvers ==
                     s.requests[i].approvers[k := s.requests[i].approvers[k].(approvedAt := Some(s.now))])
  {
    assert forall j :: 0 <= j < |s.requests| ==> (IsLive(s.requests[j], s.now) <==> IsOpen(s.requests[j], s.now));
  }

  ghost predicate Holds(a: Approver, walletId: string, token: string) {
    a.walletId == walletId && a.token == Some(token)
  }

  /** The wallets that approved, in the order in which they were asked. */
  lemma {:induction false} ApprovedByExact(a: seq<Approver>, b: seq<Approver>)
    ensures ApprovedBy(a + b) == ApprovedBy(a) + ApprovedBy(b)
    ensures |a| == 1 ==> ApprovedBy(a) == if a[0].approvedAt.Some? then [a[0].walletId] else []
  {
    if a == [] {
      assert a + b == b;
    } else {
      assert (a + b)[1..] == a[1..] + b;
      ApprovedByExact(a[1..], b);
      assert |a| == 1 ==> ApprovedBy(a[1..]) == [];
    }
  }

  /** A claim finds the first open request of its status token. With too few
      approvals it changes nothing; otherwise the request is completed, its tokens are
      dropped, and the account gets one grant for an hour unless it has a password or
      is gone. */
  lemma ClaimExact(s: State, statusToken: string, account: Account, grantId: string, grantToken: string, i: nat)
    requires i == StatusIndex(s.requests, statusToken, s.now)
    ensures i < |s.requests| ==>
              && s.requests[i].statusToken == statusToken && IsOpen(s.requests[i], s.now)
              && forall j :: 0 <= j < i ==> s.requests[j].statusToken != statusToken || !IsOpen(s.requests[j], s.now)
    ensures var (s', result) := Claim(s, statusToken, account, grantId, grantToken);
            && (result == NotOpen <==>
                  forall j :: 0 <= j < |s.requests| ==>
                                s.requests[j].statusToken != statusToken || !IsOpen(s.requests[j], s.now))
            && (result == NotOpen || result.NeedsApprovals? ==> s' == s)
            && (i < |s.requests| ==>
                  var r := s.requests[i];
                  var n := |ApprovedBy(r.approvers)|;
                  && (n < r.approvalsRequired <==> result == NeedsApprovals(n))
                  && (result == Granted <==> n >= r.approvalsRequired && account.Passwordless?)
                  && (result == GrantRefused <==> n >= r.approvalsRequired && !account.Passwordless?)
                  && (n >= r.approvalsRequired ==>
                        && s'.requests == s.requests[i := s'.requests[i]]
                        && s'.requests[i] == r.(completedAt := Some(s.now), approvers := s'.requests[i].approvers)
                        && Blanked(r.approvers, s'.requests[i].approvers))
                  && (result == Granted ==>
                        && s'.grants != []
                        && s'.grants[|s'.grants| - 1] ==
                           Grant(grantId, r.userId, grantToken, s.now + 3600 * 1000, None))
                  && (result == GrantRefused ==> s'.grants == s.grants))
  {
    hide ApprovedBy, Keep;
    assert forall j :: 0 <= j < |s.requests| ==> (IsLive(s.requests[j], s.now) <==> IsOpen(s.requests[j], s.now));
  }

  /** The same approvers without their tokens. */
  ghost predicate Blanked(a: seq<Approver>, b: seq<Approver>) {
    |a| == |b| && forall k :: 0 <= k < |a| ==> b[k] == Approver(a[k].walletId, None, a[k].approvedAt)
  }
}
