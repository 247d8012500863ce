/** One-time re-enrolment grants: at most one per account, spent at most once. */
module Reenrolment {
  import opened Options

  /** `token` stands for the salted hash that only the token matches. */
  datatype Grant = Grant(id: string, userId: string, token: string, expiresAt: int, usedAt: Option<int>)

  const GRANT_TTL_MS := 60 * 60 * 1000

  datatype GrantError = AccountNotFound | HasPassword

  /** What the user store says of an account. */
  datatype Account = Unknown | WithPassword | Passwordless

  /** The grants that a new grant for the user leaves in place: those of other
      users that have not expired. */
  function Keep(grants: seq<Grant>, userId: string, now: int): (r: seq<Grant>)
    ensures forall g :: g in r <==> g in grants && g.userId != userId && g.expiresAt > now
    ensures |r| <= |grants|
  {
    if grants == [] then []
    else
      assert grants == [grants[0]] + grants[1..];
      (if grants[0].userId != userId && grants[0].expiresAt > now then [grants[0]] else []) +
      Keep(grants[1..], userId, now)
  }

  function AddGrant(grants: seq<Grant>, userId: string, id: string, token: string, now: int): seq<Grant> {
    Keep(grants, userId, now) + [Grant(id, userId, token, now + GRANT_TTL_MS, None)]
  }

  predicate LiveGrant(g: Grant, now: int) { g.usedAt.None? && g.expiresAt > now }

  /** The first live grant that the token matches. */
  function MatchingGrant(grants: seq<Grant>, token: string, now: int): (r: Option<Grant>)
    ensures r.Some? ==> r.value in grants && LiveGrant(r.value, now) && r.value.token == token
    ensures r.None? ==> forall g :: g in grants && LiveGrant(g, now) ==> g.token != token
  {
    if grants == [] then None
    else if LiveGrant(grants[0], now) && grants[0].token == token then Some(grants[0])
    else
      assert grants == [grants[0]] + grants[1..];
      MatchingGrant(grants[1..], token, now)
  }

  /** The grant of a token, if its account still exists. */
  function Resolve(grants: seq<Grant>, users: set<string>, token: string, now: int): Option<Grant> {
    if token == "" then None
    else
      var g := MatchingGrant(grants, token, now);
      if g.Some? && g.value.userId in users then g else None
  }

  /** No two live grants match one token. */
  ghost predicate DistinctTokens(grants: seq<Grant>, now: int) {
    forall g, h :: g in grants && h in grants && LiveGrant(g, now) && LiveGrant(h, now) && g.token == h.token ==> g == h
  }

  /** A token resolves to a grant exactly if it matches it, the grant is live and
      its account exists. */
  lemma ResolveExact(grants: seq<Grant>, users: set<string>, token: string, now: int, g: Grant)
    requires DistinctTokens(grants, now)
    ensures Resolve(grants, users, token, now) == Some(g) <==>
              token != "" && g in grants && LiveGrant(g, now) && g.token == token && g.userId in users
  {
    var m := MatchingGrant(grants, token, now);
    assert m.Some? && g in grants && LiveGrant(g, now) && g.token == token ==> m.value == g;
  }

  function GrantIndex(grants: seq<Grant>, id: string): (i: nat)
    ensures i <= |grants|
    ensures i < |grants| ==> grants[i].id == id
    ensures forall k :: 0 <= k < i ==> grants[k].id != id
  {
    if grants == [] || grants[0].id == id then 0
    else
      assert forall k :: 1 <= k < |grants| ==> grants[k] == grants[1..][k - 1];
      1 + GrantIndex(grants[1..], id)
  }

  /** Spending a grant: the store after it and whether it was spent now. */
  function Consume(grants: seq<Grant>, id: string, now: int): (seq<Grant>, bool) {
    var i := GrantIndex(grants, id);
    if i == |grants| || grants[i].usedAt.Some? then (grants, false)
    else (grants[i := grants[i].(usedAt := Some(now))], true)
  }

  class GrantStore {
    var grants: seq<Grant>

    constructor ()
      ensures grants == []
    {
      grants := [];
    }

    method GrantReenrolment(account: Account, userId: string, id: string, token: string, now: int)
      returns (error: Option<GrantError>)
      modifies this
      ensures account.Unknown? ==> error == Some(AccountNotFound)
      ensures account.WithPassword? ==> error == Some(HasPassword)
      ensures account.Passwordless? ==> error == None
      ensures grants == if error.None? then AddGrant(old(grants), userId, id, token, now) else old(grants)
    {
      if account.Unknown? {
        return Some(AccountNotFound);
      }
      if account.WithPassword? {
        return Some(HasPassword);
      }
      grants := Keep(grants, userId, now);
      grants := grants + [Grant(id, userId, token, now + GRANT_TTL_MS, None)];
      return None;
    }

    method ConsumeGrant(id: string, now: int) returns (spent: bool)
      modifies this
      ensures (grants, spent) == Consume(old(grants), id, now)
    {
      var index := GrantIndex(grants, id);
      if index == |grants| || grants[index].usedAt.Some? {
        return false;
      }
      grants := grants[index := grants[index].(usedAt := Some(now))];
      return true;
    }
  }

  /** Every stored grant is the only one of its user, under an id of its own. */
  ghost predicate OnePerUser(grants: seq<Grant>) {
    forall i, j :: 0 <= i < j < |grants| ==> grants[i].userId != grants[j].userId && grants[i].id != grants[j].id
  }

  lemma {:induction false} KeepOnePerUser(grants: seq<Grant>, userId: string, now: int)
    requires OnePerUser(grants)
    ensures OnePerUser(Keep(grants, userId, now))
  {
    if grants != [] {
      var tail := grants[1..];
      assert OnePerUser(tail);
      KeepOnePerUser(tail, userId, now);
      var kept := Keep(tail, userId, now);
      forall j | 0 <= j < |kept|
        ensures kept[j].userId != grants[0].userId && kept[j].id != grants[0].id
      {
        assert kept[j] in kept;
        var k :| 0 <= k < |tail| && tail[k] == kept[j];
        assert grants[k + 1] == kept[j];
      }
    }
  }

  /** A new grant leaves at most one per user and, for its user, only itself. */
  lemma AddGrantOnePerUser(grants: seq<Grant>, userId: string, id: string, token: string, now: int)
    requires OnePerUser(grants) && forall g :: g in grants ==> g.id != id
    ensures OnePerUser(AddGrant(grants, userId, id, token, now))
    ensures var after := AddGrant(grants, userId, id, token, now);
            && (forall g :: g in after && g.userId == userId <==>
                g == Grant(id, userId, token, now + 3600 * 1000, None))
            && forall g: Grant :: g.userId != userId ==> (g in after <==> g in grants && now < g.expiresAt)
  {
    KeepOnePerUser(grants, userId, now);
    var kept := Keep(grants, userId, now);
    forall j | 0 <= j < |kept|
      ensures kept[j].userId != userId && kept[j].id != id
    {
      assert kept[j] in kept && kept[j] in grants;
    }
  }

  /** A grant is spent exactly if it is stored under its id and unspent; it alone
      then carries the time of it. */
  lemma ConsumeExact(grants: seq<Grant>, id: string, now: int)
    requires OnePerUser(grants)
    ensures var (after, spent) := Consume(grants, id, now);
            && (spent <==> exists g :: g in grants && g.id == id && g.usedAt.None?)
            && (!spent ==> after == grants)
            && (spent ==> |after| == |grants| && forall k :: 0 <= k < |grants| ==>
                  after[k] == if grants[k].id == id then grants[k].(usedAt := Some(now)) else grants[k])
  {
    var i := GrantIndex(grants, id);
    if i < |grants| {
      assert grants[i] in grants;
      forall k | 0 <= k < |grants| && k != i
        ensures grants[k].id != id
      {
        assert k < i ==> grants[k].id != grants[i].id;
      }
    }
    if g :| g in grants && g.id == id && g.usedAt.None? {
      var k :| 0 <= k < |grants| && grants[k] == g;
      assert k == i;
    }
  }

  /** A spent grant cannot be spent again, nor resolved by any token. */
  lemma ConsumeOnce(grants: seq<Grant>, id: string, now: int, later: int)
    requires OnePerUser(grants) && Consume(grants, id, now).1
    ensures var after := Consume(grants, id, now).0;
            && !Consume(after, id, later).1
            && forall users, token ::
                 Resolve(after, users, token, later).Some? ==> Resolve(after, users, token, later).value.id != id
  {
    var i := GrantIndex(grants, id);
    var after := Consume(grants, id, now).0;
    forall k | 0 <= k < |after|
      ensures after[k].id == id <==> k == i
    {
      if k < i {
        assert grants[k].id != grants[i].id;
      } else if k > i {
        assert grants[i].id != grants[k].id;
      }
    }
    var j := GrantIndex(after, id);
    assert after[i].id == id;
    assert j == i;
  }
}
