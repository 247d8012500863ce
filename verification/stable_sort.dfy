/** `Array.prototype.sort`, which is stable: an ordered permutation that keeps the
    elements that compare equal in their order. */
module StableSort {

  /** `leq` compares any two elements, and consistently. */
  ghost predicate TotalPreorder<T(!new)>(leq: (T, T) -> bool) {
    && (forall a, b :: leq(a, b) || leq(b, a))
    && (forall a, b, c :: leq(a, b) && leq(b, c) ==> leq(a, c))
  }

  function Insert<T>(x: T, xs: seq<T>, leq: (T, T) -> bool): seq<T> {
    if xs == [] || leq(x, xs[0]) then [x] + xs else [xs[0]] + Insert(x, xs[1..], leq)
  }

  function Sort<T>(xs: seq<T>, leq: (T, T) -> bool): seq<T> {
    if xs == [] then [] else Insert(xs[0], Sort(xs[1..], leq), leq)
  }

  ghost predicate Sorted<T>(xs: seq<T>, leq: (T, T) -> bool) {
    forall i, j :: 0 <= i < j < |xs| ==> leq(xs[i], xs[j])
  }

  /** The elements that compare equal to x, in their order. */
  function Alike<T>(xs: seq<T>, x: T, leq: (T, T) -> bool): seq<T> {
    if xs == [] then [] else OneAlike(xs[0], x, leq) + Alike(xs[1..], x, leq)
  }

  function OneAlike<T>(y: T, x: T, leq: (T, T) -> bool): seq<T> {
    if leq(x, y) && leq(y, x) then [y] else []
  }

  lemma {:induction false} InsertElements<T>(x: T, xs: seq<T>, leq: (T, T) -> bool)
    ensures multiset(Insert(x, xs, leq)) == multiset(xs) + multiset{x}
  {
    if xs != [] {
      InsertElements(x, xs[1..], leq);
      assert xs == [xs[0]] + xs[1..];
    }
  }

  lemma InsertMembers<T>(x: T, xs: seq<T>, leq: (T, T) -> bool)
    ensures forall y :: y in Insert(x, xs, leq) <==> y == x || y in xs
  {
    InsertElements(x, xs, leq);
    var r := Insert(x, xs, leq);
    hide Insert;
    forall y
      ensures y in r <==> y == x || y in xs
    {
      assert y in r <==> y in multiset(r);
      assert y in xs <==> y in multiset(xs);
    }
  }

  lemma SortedCons<T>(head: T, rest: seq<T>, leq: (T, T) -> bool)
    requires Sorted(rest, leq) && forall y :: y in rest ==> leq(head, y)
    ensures Sorted([head] + rest, leq)
  {
    assert forall k :: 0 <= k < |rest| ==> rest[k] in rest;
  }

  lemma {:induction false} InsertSorted<T(!new)>(x: T, xs: seq<T>, leq: (T, T) -> bool)
    requires TotalPreorder(leq) && Sorted(xs, leq)
    ensures Sorted(Insert(x, xs, leq), leq)
  {
    if xs == [] || leq(x, xs[0]) {
      forall y | y in xs
        ensures leq(x, y)
      {
        var k :| 0 <= k < |xs| && xs[k] == y;
        assert k == 0 || leq(xs[0], xs[k]);
      }
      SortedCons(x, xs, leq);
    } else {
      InsertSorted(x, xs[1..], leq);
      InsertMembers(x, xs[1..], leq);
      SortedCons(xs[0], Insert(x, xs[1..], leq), leq);
    }
  }

  lemma AlikeCons<T>(y: T, rest: seq<T>, x: T, leq: (T, T) -> bool)
    ensures Alike([y] + rest, x, leq) == OneAlike(y, x, leq) + Alike(rest, x, leq)
  {
    assert ([y] + rest)[1..] == rest;
  }

  /** Inserting passes only elements that are strictly less. */
  lemma {:induction false} InsertStable<T(!new)>(y: T, xs: seq<T>, x: T, leq: (T, T) -> bool)
    requires TotalPreorder(leq)
    ensures Alike(Insert(y, xs, leq), x, leq) == OneAlike(y, x, leq) + Alike(xs, x, leq)
  {
    if xs == [] || leq(y, xs[0]) {
      AlikeCons(y, xs, x, leq);
    } else {
      var head, tail := xs[0], xs[1..];
      InsertStable(y, tail, x, leq);
      AlikeCons(head, Insert(y, tail, leq), x, leq);
      assert OneAlike(head, x, leq) == [] || OneAlike(y, x, leq) == [];
      hide Alike, OneAlike, Insert, TotalPreorder;
      var a, b, c := OneAlike(head, x, leq), OneAlike(y, x, leq), Alike(tail, x, leq);
      assert a + (b + c) == b + (a + c);
    }
  }

  /** Sorting gives an ordered permutation that keeps equals in their order. */
  lemma {:induction false} SortIsStable<T(!new)>(xs: seq<T>, leq: (T, T) -> bool)
    requires TotalPreorder(leq)
    ensures Sorted(Sort(xs, leq), leq) && multiset(Sort(xs, leq)) == multiset(xs)
    ensures forall x :: Alike(Sort(xs, leq), x, leq) == Alike(xs, x, leq)
  {
    if xs != [] {
      var tail := Sort(xs[1..], leq);
      SortIsStable(xs[1..], leq);
      InsertSorted(xs[0], tail, leq);
      InsertElements(xs[0], tail, leq);
      assert xs == [xs[0]] + xs[1..];
      forall x
        ensures Alike(Sort(xs, leq), x, leq) == Alike(xs, x, leq)
      {
        InsertStable(xs[0], tail, x, leq);
      }
    }
  }

  lemma SortMembers<T(!new)>(xs: seq<T>, leq: (T, T) -> bool)
    requires TotalPreorder(leq)
    ensures forall y :: y in Sort(xs, leq) <==> y in xs
  {
    SortIsStable(xs, leq);
    var r := Sort(xs, leq);
    hide Sort;
    forall y
      ensures y in r <==> y in xs
    {
      assert y in r <==> y in multiset(r);
      assert y in xs <==> y in multiset(xs);
    }
  }
}
