/** largest_resource: the successor of a resource in descending (align, size), ties in traversal order. */
module Largest {
  import opened ResourceTree

  ghost function Pos(list: seq<nat>, x: nat): (i: nat)
    requires x in list
    ensures i < |list| && list[i] == x
  {
    var i :| 0 <= i < |list| && list[i] == x;
    i
  }

  // y comes strictly after x.
  ghost predicate After(list: seq<nat>, store: Store, x: nat, y: nat) {
    x in list && x < |store| && y in list && y < |store| &&
    var a, b := store[x], store[y];
    || b.align < a.align
    || (b.align == a.align && b.size < a.size)
    || (b.align == a.align && b.size == a.size && Pos(list, x) < Pos(list, y))
  }

  ghost predicate ValidList(list: seq<nat>, store: Store) {
    NoDuplicates(list) && forall r :: r in list ==> r < |store|
  }

  // The resources a caller holding `last` has not been given yet.
  ghost function Remaining(list: seq<nat>, store: Store, last: Option<nat>): set<nat>
    requires ValidList(list, store)
    requires last.Some? ==> last.value in list
  {
    set y | y in list && !store[y].flags.fixed && (last.None? || After(list, store, last.value, y))
  }

  ghost predicate IsNext(list: seq<nat>, store: Store, last: Option<nat>, result: Option<nat>)
    requires ValidList(list, store)
    requires last.Some? ==> last.value in list
  {
    match result
    case None => Remaining(list, store, last) == {}
    case Some(r) =>
      && r in Remaining(list, store, last)
      && forall y :: y in Remaining(list, store, last) && y != r ==> After(list, store, r, y)
  }

  // The state of pick_largest_resource over one traversal.
  method LargestResource(list: seq<nat>, store: Store, last: Option<nat>) returns (result: Option<nat>)
    requires ValidList(list, store)
    requires last.Some? ==> last.value in list
    ensures IsNext(list, store, last, result)
  {
    result := None;
    var seenLast := false;
    var i := 0;
    while i < |list|
      invariant 0 <= i <= |list|
      invariant last.Some? ==> (seenLast <==> Pos(list, last.value) < i)
      invariant result.None? ==> forall k :: 0 <= k < i ==> list[k] !in Remaining(list, store, last)
      invariant result.Some? ==> result.value in list[..i] && result.value in Remaining(list, store, last)
      invariant result.Some? ==> forall k :: 0 <= k < i && list[k] in Remaining(list, store, last) && list[k] != result.value
                                   ==> After(list, store, result.value, list[k])
    {
      var id := list[i];
      assert id in list;
      var resource := store[id];
      assert Pos(list, id) == i;
      if last == Some(id) {
        seenLast := true;
      } else if !resource.flags.fixed {
        var skip := last.Some? && (
          || store[last.value].align < resource.align
          || (store[last.value].align == resource.align && store[last.value].size < resource.size)
          || (store[last.value].align == resource.align && store[last.value].size == resource.size && !seenLast));
        assert skip <==> id !in Remaining(list, store, last);
        if !skip {
          if result.None?
             || store[result.value].align < resource.align
             || (store[result.value].align == resource.align && store[result.value].size < resource.size) {
            result := Some(id);
          }
        }
      }
      i := i + 1;
    }
  }

  lemma AfterTransitive(list: seq<nat>, store: Store, x: nat, y: nat, z: nat)
    requires ValidList(list, store) && x in list && y in list && z in list
    requires After(list, store, x, y) && After(list, store, y, z)
    ensures After(list, store, x, z)
  {
  }

  lemma RemainingShrinks(list: seq<nat>, store: Store, last: Option<nat>, r: nat)
    requires ValidList(list, store)
    requires last.Some? ==> last.value in list
    requires IsNext(list, store, last, Some(r))
    ensures r in list && Remaining(list, store, Some(r)) == Remaining(list, store, last) - {r}
  {
    forall y | y in Remaining(list, store, Some(r))
      ensures y in Remaining(list, store, last) && y != r
    {
      if last.Some? {
        AfterTransitive(list, store, last.value, r, y);
      }
    }
  }

  // Feeding each answer back in until there is none.
  ghost predicate IsRun(list: seq<nat>, store: Store, visits: seq<nat>)
    requires ValidList(list, store)
  {
    && (forall k :: 0 <= k < |visits| ==> visits[k] in list)
    && (forall k :: 0 <= k < |visits| ==>
          IsNext(list, store, if k == 0 then None else Some(visits[k - 1]), Some(visits[k])))
    && IsNext(list, store, if visits == [] then None else Some(visits[|visits| - 1]), None)
  }

  ghost function Seen(visits: seq<nat>, k: nat): set<nat>
    requires k <= |visits|
  {
    set j | 0 <= j < k :: visits[j]
  }

  lemma {:induction false} RunPrefix(list: seq<nat>, store: Store, visits: seq<nat>, k: nat)
    requires ValidList(list, store) && IsRun(list, store, visits) && k <= |visits|
    ensures forall j :: 0 <= j < k ==> visits[j] in Remaining(list, store, None)
    ensures NoDuplicates(visits[..k])
    ensures Remaining(list, store, if k == 0 then None else Some(visits[k - 1]))
         == Remaining(list, store, None) - Seen(visits, k)
  {
    if k > 0 {
      RunPrefix(list, store, visits, k - 1);
      var last := if k == 1 then None else Some(visits[k - 2]);
      RemainingShrinks(list, store, last, visits[k - 1]);
      assert Seen(visits, k) == Seen(visits, k - 1) + {visits[k - 1]};
      assert visits[..k] == visits[..k - 1] + [visits[k - 1]];
      forall j | 0 <= j < k - 1
        ensures visits[j] != visits[k - 1]
      {
        assert visits[j] in Seen(visits, k - 1);
      }
    }
  }

  lemma {:induction false} RunDescends(list: seq<nat>, store: Store, visits: seq<nat>, i: nat, j: nat)
    requires ValidList(list, store) && IsRun(list, store, visits) && i < j < |visits|
    ensures After(list, store, visits[i], visits[j])
  {
    assert visits[j] in Remaining(list, store, Some(visits[j - 1]));
    if i + 1 < j {
      RunDescends(list, store, visits, i, j - 1);
      AfterTransitive(list, store, visits[i], visits[j - 1], visits[j]);
    }
  }

  // Every non-fixed resource of the traversal exactly once, in descending order.
  lemma RunVisitsEachOnce(list: seq<nat>, store: Store, visits: seq<nat>)
    requires ValidList(list, store) && IsRun(list, store, visits)
    ensures NoDuplicates(visits)
    ensures forall r: nat :: r in visits <==> r in list && !store[r].flags.fixed
    ensures forall i, j :: 0 <= i < j < |visits| ==> After(list, store, visits[i], visits[j])
  {
    RunPrefix(list, store, visits, |visits|);
    assert visits[..|visits|] == visits;
    var last := if visits == [] then None else Some(visits[|visits| - 1]);
    assert Remaining(list, store, last) == {};
    var all, seen := Remaining(list, store, None), Seen(visits, |visits|);
    assert all - seen == {};
    forall r: nat
      ensures r in all ==> r in seen
    {
      assert r in all && r !in seen ==> r in all - seen;
    }
    forall r: nat
      ensures r in visits <==> r in list && !store[r].flags.fixed
    {
      assert r in visits <==> r in Seen(visits, |visits|);
    }
    forall i, j | 0 <= i < j < |visits|
      ensures After(list, store, visits[i], visits[j])
    {
      RunDescends(list, store, visits, i, j);
    }
  }
}
