/**
 The resource structures of devices: a singly linked list per device and one of spare structures, relinked in place.
 */
module ResourceList {

  const FIXED: nat := 0x8000_0000
  const MORE: nat := 64

  class Resource {
    var base: nat
    var size: nat
    var limit: nat
    var next: Resource?
    var flags: nat
    var index: nat
    var align: nat
    var gran: nat

    constructor ()
      ensures base == size == limit == flags == index == align == gran == 0 && next == null
    {
      base, size, limit, flags, index, align, gran := 0, 0, 0, 0, 0, 0, 0;
      next := null;
    }

    method Clear()
      modifies this
      ensures base == size == limit == flags == index == align == gran == 0 && next == null
    {
      base, size, limit, flags, index, align, gran := 0, 0, 0, 0, 0, 0, 0;
      next := null;
    }

    // A fixed resource keeps its flags and its base.
    method Initialize(i: nat)
      modifies this`base, this`flags, this`size, this`limit, this`index, this`align, this`gran
      ensures index == i && size == limit == align == gran == 0
      ensures if Fixed(old(flags)) then flags == old(flags) && base == old(base) else flags == base == 0
    {
      if !Fixed(flags) {
        flags := 0;
        base := 0;
      }
      size := 0;
      limit := 0;
      index := i;
      align := 0;
      gran := 0;
    }
  }

  class Device {
    var resourceList: Resource?

    constructor ()
      ensures resourceList == null
    {
      resourceList := null;
    }
  }

  predicate Fixed(flags: nat) {
    flags / FIXED % 2 == 1
  }

  // A fixed resource has bit 31 of its flags.
  lemma FixedIs()
    ensures forall flags: nat :: Fixed(flags) <==> flags / 0x8000_0000 % 2 == 1
  {
  }

  // ----- Lists

  ghost function Head(s: seq<Resource>): Resource? {
    if s == [] then null else s[0]
  }

  ghost function Last(s: seq<Resource>): Resource? {
    if s == [] then null else s[|s| - 1]
  }

  // By the pointers in next, head leads to exactly the structures in s, in this order, and there the list ends.
  ghost predicate Chain(next: map<Resource, Resource?>, head: Resource?, s: seq<Resource>) {
    && head == Head(s)
    && forall i :: 0 <= i < |s| ==> s[i] in next && next[s[i]] == Succ(s, i)
  }

  ghost function Succ(s: seq<Resource>, i: nat): Resource? {
    if i + 1 < |s| then s[i + 1] else null
  }

  ghost predicate Distinct(s: seq<Resource>) {
    forall i, j :: 0 <= i < j < |s| ==> s[i] != s[j]
  }

  ghost predicate Disjoint(s: seq<Resource>, t: seq<Resource>) {
    forall r :: r in s ==> r !in t
  }

  ghost predicate Within(s: seq<Resource>, all: set<Resource>) {
    forall r :: r in s ==> r in all
  }

  ghost predicate DistinctIndexes(index: map<Resource, nat>, s: seq<Resource>) {
    && (forall r :: r in s ==> r in index)
    && forall i, j :: 0 <= i < j < |s| ==> index[s[i]] != index[s[j]]
  }

  // The structures in use, in order.
  ghost function Live(s: seq<Resource>, used: set<Resource>): (t: seq<Resource>)
    decreases |s|
  {
    if s == [] then [] else
    Live(s[..|s| - 1], used) + if s[|s| - 1] in used then [s[|s| - 1]] else []
  }

  // The structures out of use, the last of them first.
  ghost function Dead(s: seq<Resource>, used: set<Resource>): (t: seq<Resource>)
    decreases |s|
  {
    if s == [] then [] else
    (if s[|s| - 1] in used then [] else [s[|s| - 1]]) + Dead(s[..|s| - 1], used)
  }

  /** Compaction loses nothing and invents nothing. */
  lemma {:induction false} LiveAndDead(s: seq<Resource>, used: set<Resource>)
    ensures multiset(Live(s, used)) + multiset(Dead(s, used)) == multiset(s)
    decreases |s|
  {
    if s != [] {
      LiveAndDead(s[..|s| - 1], used);
      assert s == s[..|s| - 1] + [s[|s| - 1]];
    }
  }

  lemma {:induction false} LiveAre(s: seq<Resource>, used: set<Resource>, r: Resource)
    ensures r in Live(s, used) <==> r in s && r in used
    ensures r in Dead(s, used) <==> r in s && r !in used
    decreases |s|
  {
    if s != [] {
      LiveAre(s[..|s| - 1], used, r);
      assert s == s[..|s| - 1] + [s[|s| - 1]];
    }
  }

  // Where the structures in use stand in the list.
  ghost function Places(s: seq<Resource>, used: set<Resource>): (p: seq<nat>)
    decreases |s|
  {
    if s == [] then [] else
    Places(s[..|s| - 1], used) + if s[|s| - 1] in used then [|s| - 1] else []
  }

  /** The structures in use keep their order. */
  lemma {:induction false} LiveKeepsOrder(s: seq<Resource>, used: set<Resource>)
    ensures |Places(s, used)| == |Live(s, used)|
    ensures forall i :: 0 <= i < |Live(s, used)| ==>
              Places(s, used)[i] < |s| && Live(s, used)[i] == s[Places(s, used)[i]]
    ensures forall i, j :: 0 <= i < j < |Live(s, used)| ==> Places(s, used)[i] < Places(s, used)[j]
    decreases |s|
  {
    if s != [] {
      LiveKeepsOrder(s[..|s| - 1], used);
    }
  }

  lemma LiveStep(s: seq<Resource>, used: set<Resource>, k: nat)
    requires k < |s|
    ensures Live(s[..k + 1], used) == Live(s[..k], used) + if s[k] in used then [s[k]] else []
    ensures Dead(s[..k + 1], used) == (if s[k] in used then [] else [s[k]]) + Dead(s[..k], used)
  {
    assert s[..k + 1][..k] == s[..k];
  }

  // ----- All lists

  ghost predicate Apart(lists: map<Device, seq<Resource>>, spare: seq<Resource>) {
    && Distinct(spare)
    && (forall d :: d in lists ==> Distinct(lists[d]) && Disjoint(lists[d], spare))
    && forall d, e :: d in lists && e in lists && d != e ==> Disjoint(lists[d], lists[e])
  }

  // Every structure is on some list.
  ghost predicate Complete(lists: map<Device, seq<Resource>>, spare: seq<Resource>, all: set<Resource>) {
    forall r :: r in all ==> r in spare || exists d :: d in lists && r in lists[d]
  }

  // What the fields of structures and devices hold.
  datatype Fields = Fields(next: map<Resource, Resource?>, index: map<Resource, nat>,
                                 heads: map<Device, Resource?>, free: Resource?)

  // The lists that the fields spell: each ends, no structure is on two, and none is lost.
  ghost predicate Spells(f: Fields, lists: map<Device, seq<Resource>>, spare: seq<Resource>, all: set<Resource>) {
    && f.heads.Keys == lists.Keys
    && (forall d :: d in lists ==> ListOk(f, d, lists[d], all))
    && Within(spare, all) && Chain(f.next, f.free, spare)
    && Apart(lists, spare) && Complete(lists, spare, all)
  }

  ghost predicate ListOk(f: Fields, d: Device, s: seq<Resource>, all: set<Resource>) {
    Within(s, all) && d in f.heads && Chain(f.next, f.heads[d], s) && DistinctIndexes(f.index, s)
  }

  // ----- Taking a structure off a list

  lemma WithoutOne(x: seq<Resource>, res: Resource, y: seq<Resource>)
    requires Distinct(x + [res] + y)
    ensures Distinct(x + y) && res !in x + y
    ensures forall r :: r in x + y ==> r in x + [res] + y
    ensures forall r :: r in x + [res] + y ==> r == res || r in x + y
  {
    var s := x + [res] + y;
    assert forall i :: 0 <= i < |x| ==> x[i] == s[i];
    assert forall i :: 0 <= i < |y| ==> y[i] == s[|x| + 1 + i];
    assert s[|x|] == res;
  }

  lemma RemoveKeepsApart(lists: map<Device, seq<Resource>>, spare: seq<Resource>, dev: Device,
                         x: seq<Resource>, res: Resource, y: seq<Resource>)
    requires Apart(lists, spare) && dev in lists && lists[dev] == x + [res] + y
    ensures Apart(lists[dev := x + y], [res] + spare)
  {
    WithoutOne(x, res, y);
    hide Distinct;
    assert res in lists[dev];
    DistinctCons(res, spare);
    var now := lists[dev := x + y];
    forall d | d in now
      ensures Distinct(now[d]) && Disjoint(now[d], [res] + spare)
    {
    }
  }

  lemma DistinctCons(r: Resource, s: seq<Resource>)
    requires Distinct(s) && r !in s
    ensures Distinct([r] + s)
  {
  }

  lemma RemoveKeepsComplete(lists: map<Device, seq<Resource>>, spare: seq<Resource>, all: set<Resource>, dev: Device,
                            x: seq<Resource>, res: Resource, y: seq<Resource>)
    requires Complete(lists, spare, all) && dev in lists && lists[dev] == x + [res] + y && Distinct(lists[dev])
    ensures Complete(lists[dev := x + y], [res] + spare, all)
  {
    WithoutOne(x, res, y);
    var now := lists[dev := x + y];
    forall r | r in all
      ensures r in [res] + spare || exists d :: d in now && r in now[d]
    {
      if r !in spare && r != res {
        var d: Device :| d in lists && r in lists[d];
        assert d in now && r in now[d];
      }
    }
  }

  // The pointers after res has been taken out between x and y and put before the structure at free.
  ghost function Unhooked(next: map<Resource, Resource?>, x: seq<Resource>, res: Resource, y: seq<Resource>,
                          free: Resource?): map<Resource, Resource?> {
    (if x == [] then next else next[x[|x| - 1] := Head(y)])[res := free]
  }

  lemma ChainAt(next: map<Resource, Resource?>, head: Resource?, s: seq<Resource>, i: nat)
    requires Chain(next, head, s) && i < |s|
    ensures s[i] in next && next[s[i]] == Succ(s, i)
  {
    hide Succ;
  }

  lemma UnhookOne(next: map<Resource, Resource?>, head: Resource?, x: seq<Resource>, res: Resource, y: seq<Resource>,
                  free: Resource?, i: nat)
    requires Chain(next, head, x + [res] + y) && Distinct(x + [res] + y) && i < |x + y|
    ensures (x + y)[i] in Unhooked(next, x, res, y, free)
    ensures Unhooked(next, x, res, y, free)[(x + y)[i]] == Succ(x + y, i)
  {
    hide Chain;
    var s, t := x + [res] + y, x + y;
    WithoutOne(x, res, y);
    assert t[i] in t;
    if i < |x| {
      ChainAt(next, head, s, i);
      assert s[i] == t[i] == x[i];
      if i + 1 < |x| {
        assert t[i] != t[|x| - 1];
        assert s[i + 1] == t[i + 1];
      }
    } else {
      ChainAt(next, head, s, i + 1);
      assert s[i + 1] == t[i];
      assert x != [] ==> t[|x| - 1] != t[i];
      assert i + 2 < |s| ==> s[i + 2] == t[i + 1];
    }
  }

  lemma UnhookChain(next: map<Resource, Resource?>, head: Resource?, x: seq<Resource>, res: Resource, y: seq<Resource>,
                    free: Resource?)
    requires Chain(next, head, x + [res] + y) && Distinct(x + [res] + y)
    ensures Chain(Unhooked(next, x, res, y, free), if x == [] then Head(y) else head, x + y)
    ensures res in next && next[res] == Head(y)
  {
    hide Unhooked, Distinct;
    var s, t := x + [res] + y, x + y;
    ChainAt(next, head, s, |x|);
    assert s[|x|] == res;
    assert y != [] ==> s[|x| + 1] == y[0];
    forall i: nat | i < |t|
      ensures t[i] in Unhooked(next, x, res, y, free) && Unhooked(next, x, res, y, free)[t[i]] == Succ(t, i)
    {
      UnhookOne(next, head, x, res, y, free, i);
    }
    assert x != [] ==> s[0] == t[0];
  }

  lemma OtherChain(next: map<Resource, Resource?>, head: Resource?, s: seq<Resource>,
                   x: seq<Resource>, res: Resource, y: seq<Resource>, free: Resource?)
    requires Chain(next, head, s) && Disjoint(x + [res] + y, s)
    ensures Chain(Unhooked(next, x, res, y, free), head, s)
  {
    assert res in x + [res] + y;
    assert x != [] ==> x[|x| - 1] in x + [res] + y;
    assert forall i :: 0 <= i < |s| ==> s[i] in s;
  }

  lemma ChainCons(next: map<Resource, Resource?>, head: Resource?, s: seq<Resource>, res: Resource)
    requires Chain(next, head, s) && res in next && next[res] == head
    ensures Chain(next, res, [res] + s)
  {
    var t := [res] + s;
    forall i: nat | i < |t|
      ensures t[i] in next && next[t[i]] == Succ(t, i)
    {
      if i > 0 {
        ChainAt(next, head, s, i - 1);
      }
    }
  }

  lemma IndexesWithout(index: map<Resource, nat>, x: seq<Resource>, res: Resource, y: seq<Resource>)
    requires DistinctIndexes(index, x + [res] + y)
    ensures DistinctIndexes(index, x + y)
  {
    var s, t := x + [res] + y, x + y;
    assert forall i :: 0 <= i < |t| ==> t[i] == s[if i < |x| then i else i + 1];
  }

  /** Taking a structure off a device's list and putting it in front of the spare ones. */
  lemma RemoveSpells(f: Fields, g: Fields, lists: map<Device, seq<Resource>>, spare: seq<Resource>, all: set<Resource>,
                     dev: Device, x: seq<Resource>, res: Resource, y: seq<Resource>)
    requires Spells(f, lists, spare, all) && dev in lists && lists[dev] == x + [res] + y
    requires g.next == Unhooked(f.next, x, res, y, f.free) && g.index == f.index && g.free == res
    requires g.heads == if x == [] then f.heads[dev := Head(y)] else f.heads
    ensures Spells(g, lists[dev := x + y], [res] + spare, all)
  {
    var now := lists[dev := x + y];
    hide Apart, Chain, Complete, Disjoint, Distinct, DistinctIndexes, Head, Unhooked;
    SpellsList(f, lists, spare, all, dev);
    SpellsAll(f, lists, spare, all);
    WithoutOne(x, res, y);
    RemoveKeepsApart(lists, spare, dev, x, res, y);
    RemoveKeepsComplete(lists, spare, all, dev, x, res, y);
    UnhookChain(f.next, f.heads[dev], x, res, y, f.free);
    IndexesWithout(f.index, x, res, y);
    assert forall r :: r in x + y ==> r in lists[dev];
    assert ListOk(g, dev, now[dev], all);
    forall d | d in now
      ensures ListOk(g, d, now[d], all)
    {
      if d != dev {
        SpellsList(f, lists, spare, all, d);
        ApartLists(lists, spare, dev, d);
        OtherChain(f.next, f.heads[d], lists[d], x, res, y, f.free);
      }
    }
    OtherChain(f.next, f.free, spare, x, res, y, f.free);
    UnhookedAt(f.next, x, res, y, f.free);
    ChainCons(g.next, f.free, spare, res);
    assert res in lists[dev];
  }

  lemma UnhookedAt(next: map<Resource, Resource?>, x: seq<Resource>, res: Resource, y: seq<Resource>, free: Resource?)
    ensures res in Unhooked(next, x, res, y, free) && Unhooked(next, x, res, y, free)[res] == free
  {
  }

  lemma SpellsList(f: Fields, lists: map<Device, seq<Resource>>, spare: seq<Resource>, all: set<Resource>, d: Device)
    requires Spells(f, lists, spare, all) && d in lists
    ensures ListOk(f, d, lists[d], all) && d in f.heads && Distinct(lists[d]) && Disjoint(lists[d], spare)
    ensures Within(lists[d], all) && Chain(f.next, f.heads[d], lists[d]) && DistinctIndexes(f.index, lists[d])
  {
    hide Chain, Within, DistinctIndexes, Distinct, Disjoint, Complete;
  }

  lemma SpellsAll(f: Fields, lists: map<Device, seq<Resource>>, spare: seq<Resource>, all: set<Resource>)
    requires Spells(f, lists, spare, all)
    ensures Within(spare, all) && Chain(f.next, f.free, spare) && f.heads.Keys == lists.Keys
    ensures Apart(lists, spare) && Complete(lists, spare, all)
  {
    hide Chain, Within, ListOk, Apart, Complete;
  }

  lemma ApartLists(lists: map<Device, seq<Resource>>, spare: seq<Resource>, d: Device, e: Device)
    requires Apart(lists, spare) && d in lists && e in lists && d != e
    ensures Disjoint(lists[d], lists[e])
  {
  }

  // ----- Putting a spare structure at the end of a list

  ghost function Hooked(next: map<Resource, Resource?>, s: seq<Resource>, res: Resource): map<Resource, Resource?> {
    var m := next[res := null];
    if s == [] then m else m[s[|s| - 1] := res]
  }

  lemma HookChain(next: map<Resource, Resource?>, head: Resource?, s: seq<Resource>, res: Resource)
    requires Chain(next, head, s) && res !in s && Distinct(s)
    ensures Chain(Hooked(next, s, res), if s == [] then res else head, s + [res])
  {
    var t, m := s + [res], Hooked(next, s, res);
    forall i: nat | i < |t|
      ensures t[i] in m && m[t[i]] == Succ(t, i)
    {
      if i < |s| {
        assert t[i] == s[i] && s[i] in s;
        assert i < |s| - 1 ==> s[i] != s[|s| - 1];
        ChainAt(next, head, s, i);
      }
    }
  }

  lemma UnhookedList(next: map<Resource, Resource?>, head: Resource?, t: seq<Resource>, s: seq<Resource>, res: Resource)
    requires Chain(next, head, t) && Disjoint(s, t) && res !in t
    ensures Chain(Hooked(next, s, res), head, t)
  {
    assert s != [] ==> s[|s| - 1] in s;
    assert forall i :: 0 <= i < |t| ==> t[i] in t;
  }

  lemma RestChain(next: map<Resource, Resource?>, head: Resource?, s: seq<Resource>)
    requires Chain(next, head, s) && s != []
    ensures Chain(next, Head(s[1..]), s[1..]) && s[0] in next && next[s[0]] == Head(s[1..])
  {
    var t := s[1..];
    ChainAt(next, head, s, 0);
    forall i: nat | i < |t|
      ensures t[i] in next && next[t[i]] == Succ(t, i)
    {
      ChainAt(next, head, s, i + 1);
    }
  }

  lemma AppendKeepsApart(lists: map<Device, seq<Resource>>, spare: seq<Resource>, dev: Device)
    requires Apart(lists, spare) && dev in lists && spare != []
    ensures Apart(lists[dev := lists[dev] + [spare[0]]], spare[1..])
    ensures spare[0] !in lists[dev] && spare[0] !in spare[1..]
  {
    var s, r, rest := lists[dev], spare[0], spare[1..];
    var now := lists[dev := s + [r]];
    assert forall i :: 0 <= i < |rest| ==> rest[i] == spare[i + 1];
    assert forall q :: q in rest ==> q in spare;
    assert r !in s;
    DistinctEnd(s, r);
    forall d | d in now
      ensures Distinct(now[d]) && Disjoint(now[d], rest)
    {
      assert Disjoint(lists[d], spare);
      assert forall q :: q in now[d] ==> q in lists[d] || q == r;
    }
    forall d, e | d in now && e in now && d != e
      ensures Disjoint(now[d], now[e])
    {
      assert Disjoint(lists[d], lists[e]) && Disjoint(lists[d], spare) && Disjoint(lists[e], spare);
      assert forall q :: q in now[d] ==> q in lists[d] || (d == dev && q == r);
      assert forall q :: q in now[e] ==> q in lists[e] || (e == dev && q == r);
    }
  }

  lemma DistinctEnd(s: seq<Resource>, r: Resource)
    requires Distinct(s) && r !in s
    ensures Distinct(s + [r])
  {
  }

  lemma AppendKeepsComplete(lists: map<Device, seq<Resource>>, spare: seq<Resource>, all: set<Resource>, dev: Device)
    requires Complete(lists, spare, all) && dev in lists && spare != []
    ensures Complete(lists[dev := lists[dev] + [spare[0]]], spare[1..], all)
  {
    var now := lists[dev := lists[dev] + [spare[0]]];
    assert spare[0] in now[dev];
    forall r | r in all
      ensures r in spare[1..] || exists d :: d in now && r in now[d]
    {
      if r !in spare {
        var d: Device :| d in lists && r in lists[d];
        assert d in now && r in now[d];
      } else if r != spare[0] {
        assert spare == [spare[0]] + spare[1..];
      } else {
        assert dev in now;
      }
    }
  }

  lemma IndexesWith(index: map<Resource, nat>, s: seq<Resource>, r: Resource, k: nat)
    requires DistinctIndexes(index, s) && r !in s && forall q :: q in s ==> index[q] != k
    ensures DistinctIndexes(index[r := k], s + [r])
  {
    var t := s + [r];
    assert forall i :: 0 <= i < |s| ==> t[i] == s[i] && s[i] in s;
  }

  lemma IndexesElsewhere(index: map<Resource, nat>, s: seq<Resource>, r: Resource, k: nat)
    requires DistinctIndexes(index, s) && r !in s
    ensures DistinctIndexes(index[r := k], s)
  {
    assert forall i :: 0 <= i < |s| ==> s[i] in s;
  }

  lemma AppendedListOk(f: Fields, g: Fields, dev: Device, s: seq<Resource>, r: Resource, k: nat, all: set<Resource>)
    requires ListOk(f, dev, s, all) && Distinct(s) && r !in s && r in all
    requires forall q :: q in s ==> q in f.index && f.index[q] != k
    requires g.next == Hooked(f.next, s, r) && g.index == f.index[r := k] && dev in g.heads
    requires g.heads[dev] == if s == [] then r else f.heads[dev]
    ensures ListOk(g, dev, s + [r], all)
  {
    hide Chain, Distinct, DistinctIndexes, Hooked;
    ListOkParts(f, dev, s, all);
    HookChain(f.next, f.heads[dev], s, r);
    IndexesWith(f.index, s, r, k);
  }

  lemma ListOkParts(f: Fields, d: Device, s: seq<Resource>, all: set<Resource>)
    requires ListOk(f, d, s, all)
    ensures Within(s, all) && d in f.heads && Chain(f.next, f.heads[d], s) && DistinctIndexes(f.index, s)
  {
    hide Within, Chain, DistinctIndexes;
  }

  lemma OtherListOk(f: Fields, g: Fields, d: Device, t: seq<Resource>, s: seq<Resource>, r: Resource, k: nat,
                    all: set<Resource>)
    requires ListOk(f, d, t, all) && Disjoint(s, t) && r !in t
    requires g.next == Hooked(f.next, s, r) && g.index == f.index[r := k] && d in g.heads && g.heads[d] == f.heads[d]
    ensures ListOk(g, d, t, all)
  {
    hide Chain, Disjoint, DistinctIndexes, Hooked, Within;
    ListOkParts(f, d, t, all);
    UnhookedList(f.next, f.heads[d], t, s, r);
    IndexesElsewhere(f.index, t, r, k);
  }

  lemma WithinRest(s: seq<Resource>, all: set<Resource>)
    requires Within(s, all) && s != []
    ensures s[0] in all && Within(s[1..], all)
  {
    assert forall r :: r in s[1..] ==> r in s;
  }

  /** Taking the first spare structure for a device that has none with this index. */
  lemma AppendSpells(f: Fields, g: Fields, lists: map<Device, seq<Resource>>, spare: seq<Resource>, all: set<Resource>,
                     dev: Device, k: nat)
    requires Spells(f, lists, spare, all) && dev in lists && spare != []
    requires forall q :: q in lists[dev] ==> q in f.index && f.index[q] != k
    requires g.next == Hooked(f.next, lists[dev], spare[0]) && g.index == f.index[spare[0] := k]
    requires g.free == Head(spare[1..])
    requires g.heads == if lists[dev] == [] then f.heads[dev := spare[0]] else f.heads
    ensures Spells(g, lists[dev := lists[dev] + [spare[0]]], spare[1..], all)
  {
    var s, r, rest := lists[dev], spare[0], spare[1..];
    var now := lists[dev := s + [r]];
    hide Apart, Chain, Complete, Disjoint, Distinct, DistinctIndexes, Head, Hooked, ListOk, Within;
    SpellsList(f, lists, spare, all, dev);
    SpellsAll(f, lists, spare, all);
    AppendKeepsApart(lists, spare, dev);
    AppendKeepsComplete(lists, spare, all, dev);
    WithinRest(spare, all);
    AppendedListOk(f, g, dev, s, r, k, all);
    RestChain(f.next, f.free, spare);
    SpareApart(lists, spare, dev);
    UnhookedList(f.next, Head(rest), rest, s, r);
    forall d | d in now
      ensures ListOk(g, d, now[d], all)
    {
      if d != dev {
        SpellsList(f, lists, spare, all, d);
        ApartLists(lists, spare, dev, d);
        SpareNotListed(lists[d], spare);
        OtherListOk(f, g, d, lists[d], s, r, k, all);
      }
    }
  }

  lemma SpareNotListed(s: seq<Resource>, spare: seq<Resource>)
    requires Disjoint(s, spare) && spare != []
    ensures spare[0] !in s
  {
  }

  lemma SpareApart(lists: map<Device, seq<Resource>>, spare: seq<Resource>, dev: Device)
    requires Apart(lists, spare) && dev in lists && spare != []
    ensures Disjoint(lists[dev], spare[1..])
  {
    hide Distinct;
    assert forall q :: q in spare[1..] ==> q in spare;
  }

  // ----- New structures and new devices

  // g holds at least what f holds.
  ghost predicate Extends(g: Fields, f: Fields) {
    && g.heads == f.heads
    && (forall r :: r in f.next ==> r in g.next && g.next[r] == f.next[r])
    && forall r :: r in f.index ==> r in g.index && g.index[r] == f.index[r]
  }

  lemma ExtendedListOk(f: Fields, g: Fields, d: Device, s: seq<Resource>, all: set<Resource>, all': set<Resource>)
    requires ListOk(f, d, s, all) && Extends(g, f) && all <= all'
    ensures ListOk(g, d, s, all')
  {
    hide Succ;
    assert forall i :: 0 <= i < |s| ==> s[i] in s;
  }

  lemma NewRowApart(lists: map<Device, seq<Resource>>, all: set<Resource>, row: seq<Resource>)
    requires Apart(lists, []) && Complete(lists, [], all) && Distinct(row) && forall r :: r in row ==> r !in all
    requires forall d :: d in lists ==> Within(lists[d], all)
    ensures Apart(lists, row) && Complete(lists, row, all + set r | r in row)
  {
    hide Distinct;
    forall d | d in lists
      ensures Distinct(lists[d]) && Disjoint(lists[d], row)
    {
      assert Within(lists[d], all);
    }
    assert forall r :: r in all ==> exists d :: d in lists && r in lists[d];
  }

  lemma MoreSpells(f: Fields, g: Fields, lists: map<Device, seq<Resource>>, all: set<Resource>, row: seq<Resource>)
    requires Spells(f, lists, [], all) && Distinct(row) && (forall r :: r in row ==> r !in all)
    requires Extends(g, f) && Chain(g.next, g.free, row)
    ensures Spells(g, lists, row, all + set r | r in row)
  {
    hide Apart, Chain, Complete, Disjoint, Distinct, DistinctIndexes, ListOk;
    var all' := all + set r | r in row;
    SpellsAll(f, lists, [], all);
    forall d | d in lists
      ensures ListOk(g, d, lists[d], all') && Within(lists[d], all)
    {
      SpellsList(f, lists, [], all, d);
      ExtendedListOk(f, g, d, lists[d], all, all');
    }
    NewRowApart(lists, all, row);
  }

  lemma NewListApart(lists: map<Device, seq<Resource>>, spare: seq<Resource>, all: set<Resource>, dev: Device)
    requires Apart(lists, spare) && Complete(lists, spare, all) && dev !in lists
    ensures Apart(lists[dev := []], spare) && Complete(lists[dev := []], spare, all)
  {
    var now := lists[dev := []];
    assert forall d :: d in lists ==> d in now && now[d] == lists[d];
    forall r | r in all
      ensures r in spare || exists d :: d in now && r in now[d]
    {
      if r !in spare {
        var d: Device :| d in lists && r in lists[d];
        assert d in now && r in now[d];
      }
    }
  }

  lemma EmptyListOk(g: Fields, d: Device, all: set<Resource>)
    requires d in g.heads && g.heads[d] == null
    ensures ListOk(g, d, [], all)
  {
  }

  lemma DeviceSpells(f: Fields, g: Fields, lists: map<Device, seq<Resource>>, spare: seq<Resource>, all: set<Resource>,
                     dev: Device)
    requires Spells(f, lists, spare, all) && dev !in lists
    requires g.next == f.next && g.index == f.index && g.free == f.free && g.heads == f.heads[dev := null]
    ensures Spells(g, lists[dev := []], spare, all)
  {
    hide Apart, Chain, Complete, Disjoint, Distinct, DistinctIndexes, ListOk, Within;
    var now := lists[dev := []];
    SpellsAll(f, lists, spare, all);
    NewListApart(lists, spare, all, dev);
    EmptyListOk(g, dev, all);
    assert now[dev] == [];
    forall d | d in now
      ensures ListOk(g, d, now[d], all)
    {
      if d != dev {
        assert d in lists && now[d] == lists[d];
        SpellsList(f, lists, spare, all, d);
        SameListOk(f, g, d, lists[d], all);
      }
    }
  }

  lemma SameListOk(f: Fields, g: Fields, d: Device, s: seq<Resource>, all: set<Resource>)
    requires ListOk(f, d, s, all) && g.next == f.next && g.index == f.index && d in g.heads && g.heads[d] == f.heads[d]
    ensures ListOk(g, d, s, all)
  {
  }

  // All structures of all devices' lists, and the list of the spare ones.
  class Resources {
    var freeResources: Resource?
    ghost var lists: map<Device, seq<Resource>>
    ghost var spare: seq<Resource>
    // Everything that has been allocated.
    ghost var all: set<Resource>

    ghost function StateOf(devices: set<Device>): Fields
      reads this`all, this`freeResources, devices, all`next, all`index
    {
      Fields(map r | r in all :: r.next, map r | r in all :: r.index, map d | d in devices :: d.resourceList, freeResources)
    }

    ghost function State(): Fields
      reads this, lists.Keys, all`next, all`index
    {
      StateOf(lists.Keys)
    }

    ghost function Used(): set<Resource>
      reads this`all, all`flags
    {
      set r | r in all && r.flags != 0
    }

    ghost predicate Valid()
      reads this, lists.Keys, all`next, all`index
    {
      Spells(State(), lists, spare, all)
    }

    constructor ()
      ensures Valid() && lists == map[] && spare == [] && all == {}
    {
      freeResources := null;
      lists := map[];
      spare := [];
      all := {};
    }

    // State spelled out.
    ghost predicate Shows(f: Fields)
      reads this, lists.Keys, all`next, all`index
    {
      && f.next.Keys == all && (forall r :: r in all ==> f.next[r] == r.next)
      && f.index.Keys == all && (forall r :: r in all ==> f.index[r] == r.index)
      && f.heads.Keys == lists.Keys && (forall d :: d in lists ==> f.heads[d] == d.resourceList)
      && f.free == freeResources
    }

    lemma StateShows(f: Fields)
      ensures f == State() <==> Shows(f)
    {
      if Shows(f) {
        assert f.next == State().next && f.index == State().index && f.heads == State().heads;
      }
    }

    lemma ListIs(dev: Device)
      requires Valid() && dev in lists
      ensures Shows(State()) && Spells(State(), lists, spare, all) && ListOk(State(), dev, lists[dev], all)
      ensures Within(lists[dev], all) && Distinct(lists[dev]) && dev.resourceList == Head(lists[dev])
      ensures Chain(State().next, State().heads[dev], lists[dev]) && Chain(State().next, State().free, spare)
      ensures Within(spare, all) && freeResources == Head(spare)
    {
      StateShows(State());
      hide Spells, Succ, Distinct, DistinctIndexes, Head;
      SpellsList(State(), lists, spare, all, dev);
      SpellsAll(State(), lists, spare, all);
    }

    // What the pointers are once res is out; f is what they were.
    ghost predicate Pulled(f: Fields, dev: Device, res: Resource, x: seq<Resource>, y: seq<Resource>)
      reads this, lists.Keys, all`next, all`index
    {
      && f.next.Keys == all && f.index.Keys == all && f.heads.Keys == lists.Keys && dev in lists
      && res in all && freeResources == res && res.next == f.free
      && (x == [] ==> dev.resourceList == Head(y))
      && (x != [] ==> x[|x| - 1] in all && x[|x| - 1] != res && x[|x| - 1].next == Head(y))
      && (forall d :: d in lists && (x != [] || d != dev) ==> d.resourceList == f.heads[d])
      && (forall r :: r in all && r != res && (x == [] || r != x[|x| - 1]) ==> r.next == f.next[r])
      && (forall r :: r in all ==> r.index == f.index[r])
    }

    lemma PulledState(f: Fields, dev: Device, res: Resource, x: seq<Resource>, y: seq<Resource>)
      requires Pulled(f, dev, res, x, y)
      ensures State() == Freed(f, dev, x, res, y)
    {
      UnhookedIs(f.next, x, res, y, f.free);
      hide Head, Unhooked;
      var g := Freed(f, dev, x, res, y);
      assert Shows(g);
      hide Shows, Pulled;
      StateShows(g);
    }

    lemma Around(dev: Device, x: seq<Resource>, res: Resource, y: seq<Resource>)
      requires Valid() && dev in lists && lists[dev] == x + [res] + y
      ensures Shows(State()) && res in all && res.next == Head(y)
      ensures x != [] ==> x[|x| - 1] in all && x[|x| - 1] != res
    {
      hide Chain, Distinct, Head, ListOk, Spells, State, Unhooked, Valid, Within;
      ListIs(dev);
      InParts(x, res, y, all);
      UnhookChain(State().next, State().heads[dev], x, res, y, State().free);
    }

    method FreeResource(dev: Device, res: Resource, prev: Resource?, ghost x: seq<Resource>, ghost y: seq<Resource>)
      requires Valid() && dev in lists && lists[dev] == x + [res] + y && prev == Last(x)
      modifies this`freeResources, dev, all`next
      ensures State() == Freed(old(State()), dev, x, res, y)
    {
      hide Valid, Spells, Head, Freed, State;
      ghost var f := State();
      Around(dev, x, res, y);
      if prev != null {
        prev.next := res.next;
      } else {
        dev.resourceList := res.next;
      }
      res.next := freeResources;
      freeResources := res;
      PulledState(f, dev, res, x, y);
    }

    lemma StateIs()
      ensures State() == StateOf(lists.Keys)
    {
      hide StateOf;
    }

    // The list of dev while its first structures have been compacted.
    ghost predicate Compacting(was: map<Device, seq<Resource>>, dev: Device, s: seq<Resource>, used: set<Resource>,
                               kept: seq<Resource>, k: nat)
      reads this, lists.Keys, all`next, all`index
    {
      && Valid() && k <= |s|
      && lists == was[dev := Live(s[..k], used) + s[k..]]
      && spare == Dead(s[..k], used) + kept
    }

    lemma CompactStep(was: map<Device, seq<Resource>>, dev: Device, s: seq<Resource>, used: set<Resource>,
                      kept: seq<Resource>, k: nat)
      requires Compacting(was, dev, s, used, kept, k) && k < |s|
      ensures dev in lists && lists[dev] == Live(s[..k], used) + [s[k]] + s[k + 1..] && Valid()
      ensures s[k] in all && s[k].next == Head(s[k + 1..]) && Head(s[k..]) == s[k]
      ensures Spells(State(), lists, spare, all) && State() == StateOf(lists.Keys)
      ensures lists == was[dev := Live(s[..k], used) + s[k..]] && spare == Dead(s[..k], used) + kept
    {
      hide Dead, Live, Shows, Spells, StateOf;
      assert s[k..] == [s[k]] + s[k + 1..];
      assert lists[dev] == Live(s[..k], used) + [s[k]] + s[k + 1..];
      Around(dev, Live(s[..k], used), s[k], s[k + 1..]);
    }

    lemma CompactKept(was: map<Device, seq<Resource>>, dev: Device, s: seq<Resource>, used: set<Resource>,
                      kept: seq<Resource>, k: nat)
      requires Compacting(was, dev, s, used, kept, k) && k < |s| && s[k] in used
      ensures Compacting(was, dev, s, used, kept, k + 1) && Last(Live(s[..k + 1], used)) == s[k]
    {
      hide Dead, Live, Valid;
      LiveStep(s, used, k);
      assert s[k..] == [s[k]] + s[k + 1..];
      assert Live(s[..k], used) + s[k..] == Live(s[..k + 1], used) + s[k + 1..];
      assert [] + Dead(s[..k], used) == Dead(s[..k], used);
    }

    // f is what the fields were, before what the lists were.
    lemma CompactFreed(f: Fields, before: map<Device, seq<Resource>>, free: seq<Resource>,
                       was: map<Device, seq<Resource>>, dev: Device, s: seq<Resource>, used: set<Resource>,
                       kept: seq<Resource>, k: nat)
      requires k < |s| && s[k] !in used && Spells(f, before, free, all)
      requires before == was[dev := Live(s[..k], used) + s[k..]] && free == Dead(s[..k], used) + kept
      requires State() == Freed(f, dev, Live(s[..k], used), s[k], s[k + 1..])
      requires lists == before[dev := Live(s[..k], used) + s[k + 1..]] && spare == [s[k]] + free
      ensures Compacting(was, dev, s, used, kept, k + 1) && Live(s[..k + 1], used) == Live(s[..k], used)
    {
      hide Dead, Head, Live, Spells, State, Unhooked;
      var x, y := Live(s[..k], used), s[k + 1..];
      LiveStep(s, used, k);
      assert x + [] == x;
      assert s[k..] == [s[k]] + y;
      assert x + s[k..] == x + [s[k]] + y;
      RemoveSpells(f, State(), before, free, all, dev, x, s[k], y);
      assert spare == Dead(s[..k + 1], used) + kept;
      assert lists == was[dev := x + y];
    }

    lemma UsedIs(r: Resource)
      requires r in all
      ensures r in Used() <==> r.flags != 0
    {
    }

    lemma CompactBegin(dev: Device)
      requires Valid() && dev in lists
      ensures Compacting(lists, dev, lists[dev], Used(), spare, 0) && dev.resourceList == Head(lists[dev])
      ensures Last(Live(lists[dev][..0], Used())) == null && lists[dev][0..] == lists[dev]
    {
      hide Chain, Distinct, Head, ListOk, Shows, Spells, State, Used, Valid, Within;
      ListIs(dev);
      var s := lists[dev];
      assert s[..0] == [] && s[0..] == s;
      assert [] + s == s && [] + spare == spare;
    }

    lemma CompactEnd(was: map<Device, seq<Resource>>, dev: Device, s: seq<Resource>, used: set<Resource>,
                     kept: seq<Resource>)
      requires Compacting(was, dev, s, used, kept, |s|)
      ensures Valid() && lists == was[dev := Live(s, used)] && spare == Dead(s, used) + kept
    {
      hide Dead, Live, Valid;
      assert s[..|s|] == s && s[|s|..] == [];
      assert Live(s, used) + [] == Live(s, used);
    }

    /** The structures without flags go to the spare list; the others stay in order, and other devices are not touched. */
    method CompactResources(dev: Device)
      requires Valid() && dev in lists
      modifies this, dev, all`next
      ensures Valid() && all == old(all) && Used() == old(Used())
      ensures lists == old(lists)[dev := Live(old(lists[dev]), old(Used()))]
      ensures spare == Dead(old(lists[dev]), old(Used())) + old(spare)
    {
      hide Compacting, Dead, Freed, Last, Live, Spells, State, StateOf, Used, Valid;
      ghost var was, s, used, kept, k := lists, lists[dev], Used(), spare, 0;
      CompactBegin(dev);
      var prev: Resource? := null;
      var res := dev.resourceList;
      while res != null
        invariant Compacting(was, dev, s, used, kept, k) && k <= |s|
        invariant all == old(all) && used == Used()
        invariant prev == Last(Live(s[..k], used)) && res == Head(s[k..])
        decreases |s| - k
      {
        assert k < |s|;
        CompactStep(was, dev, s, used, kept, k);
        UsedIs(res);
        var next := res.next;
        if res.flags == 0 {
          ghost var f, before, free, x := State(), lists, spare, Live(s[..k], used);
          FreeResource(dev, res, prev, x, s[k + 1..]);
          StateIs();
          lists := lists[dev := x + s[k + 1..]];
          spare := [res] + spare;
          assert lists.Keys == before.Keys;
          StateIs();
          CompactFreed(f, before, free, was, dev, s, used, kept, k);
        } else {
          CompactKept(was, dev, s, used, kept, k);
          prev := res;
        }
        res := next;
        k := k + 1;
      }
      assert k == |s|;
      CompactEnd(was, dev, s, used, kept);
    }

    /** The structure with this index, if there is one. */
    method ProbeResource(dev: Device, index: nat) returns (res: Resource?)
      requires Valid() && dev in lists
      ensures res == null <==> forall r :: r in lists[dev] ==> r.index != index
      ensures res != null ==> res in lists[dev] && res.index == index
    {
      hide Chain, Distinct, ListOk, Spells, State, Valid;
      ghost var s, k := lists[dev], 0;
      ListIs(dev);
      res := dev.resourceList;
      while res != null
        invariant 0 <= k <= |s| && res == Head(s[k..])
        invariant forall r :: r in s[..k] ==> r.index != index
        decreases |s| - k
      {
        assert res == s[k] && res in s;
        if res.index == index {
          return;
        }
        ChainAt(State().next, State().heads[dev], s, k);
        assert s[..k + 1] == s[..k] + [s[k]];
        res := res.next;
        k := k + 1;
      }
      assert s[..k] == s;
    }

    // Cleared structures in a row, each leading to the one behind it.
    static method NewRow() returns (row: seq<Resource>)
      ensures |row| == MORE && Distinct(row) && fresh(set r | r in row)
      ensures forall j :: 0 <= j < MORE ==> row[j].next == Succ(row, j)
    {
      row := [];
      ghost var made: set<Resource> := {};
      while |row| < MORE
        modifies {}
        invariant |row| <= MORE && Distinct(row)
        invariant fresh(made) && forall r :: r in row ==> r in made && r.next == null
      {
        var r := new Resource();
        made := made + {r};
        row := row + [r];
      }
      var i := 0;
      while i < MORE - 1
        modifies made
        invariant 0 <= i <= MORE - 1
        invariant forall j :: 0 <= j < i ==> row[j].next == row[j + 1]
        invariant forall j :: i <= j < MORE ==> row[j].next == null
      {
        assert forall j :: 0 <= j < MORE && j != i ==> row[j] != row[i];
        row[i].next := row[i + 1];
        i := i + 1;
      }
    }

    /** More structures when none is left. */
    method AllocateMoreResources()
      requires Valid() && spare == []
      modifies this
      ensures Valid() && lists == old(lists) && |spare| == 64
      ensures all == old(all) + (set r | r in spare) && fresh(set r | r in spare)
    {
      hide Distinct, Spells, State, Succ;
      ghost var f := State();
      StateShows(f);
      var row := NewRow();
      freeResources := row[0];
      ghost var was := all;
      spare := row;
      all := all + set r | r in row;
      MoreState(f, was, row);
    }

    lemma MoreState(f: Fields, was: set<Resource>, chunk: seq<Resource>)
      requires Spells(f, lists, [], was) && Distinct(chunk) && forall r :: r in chunk ==> r !in was
      requires all == was + (set r | r in chunk) && spare == chunk && chunk != [] && freeResources == chunk[0]
      requires f.next.Keys == was && f.index.Keys == was
      requires forall r :: r in was ==> f.next[r] == r.next && f.index[r] == r.index
      requires f.heads.Keys == lists.Keys && forall d :: d in lists ==> f.heads[d] == d.resourceList
      requires forall j :: 0 <= j < |chunk| ==> chunk[j].next == Succ(chunk, j)
      ensures Valid()
    {
      hide Chain, Distinct, Spells, State, Succ;
      var g := State();
      StateShows(g);
      assert Extends(g, f) by {
        assert g.heads == f.heads;
      }
      RowChain(chunk);
      MoreSpells(f, g, lists, was, chunk);
    }

    lemma RowChain(row: seq<Resource>)
      requires Shows(State()) && row != [] && freeResources == row[0] && all >= set r | r in row
      requires forall j :: 0 <= j < |row| ==> row[j].next == Succ(row, j)
      ensures Chain(State().next, State().free, row)
    {
      hide State, Succ;
      assert forall j :: 0 <= j < |row| ==> row[j] in set r | r in row;
    }

    lemma SpareHead(dev: Device)
      requires Valid() && dev in lists && spare != []
      ensures Shows(State()) && spare[0] in all && spare[0] !in lists[dev] && freeResources == spare[0]
      ensures spare[0].next == Head(spare[1..])
    {
      hide Disjoint, Distinct, DistinctIndexes, ListOk, Spells, State, Succ, Valid;
      ListIs(dev);
      SpellsList(State(), lists, spare, all, dev);
      SpareNotListed(lists[dev], spare);
      RestChain(State().next, State().free, spare);
    }

    // The first spare structure, cleared.
    method TakeSpare(dev: Device) returns (res: Resource)
      requires Valid() && dev in lists && spare != []
      modifies this`freeResources, spare[0]
      ensures res == spare[0] && State() == Taken(old(State()), spare)
      ensures res.base == res.size == res.limit == res.flags == res.align == res.gran == 0
    {
      hide Valid, Spells, Head, State, Distinct;
      ghost var f := State();
      SpareHead(dev);
      res := freeResources;
      freeResources := freeResources.next;
      res.Clear();
      StateShows(Taken(f, spare));
    }

    // The end of a list that is not empty.
    method Tail(dev: Device) returns (tail: Resource)
      requires dev in lists && ListOk(State(), dev, lists[dev], all) && lists[dev] != []
      ensures tail == lists[dev][|lists[dev]| - 1]
    {
      hide DistinctIndexes, State;
      ghost var s, k := lists[dev], 0;
      StateShows(State());
      tail := dev.resourceList;
      ChainAt(State().next, State().heads[dev], s, 0);
      assert s[0] in s;
      while tail.next != null
        invariant 0 <= k < |s| && tail == s[k] && tail.next == Succ(s, k)
        decreases |s| - k
      {
        tail := tail.next;
        k := k + 1;
        ChainAt(State().next, State().heads[dev], s, k);
        assert s[k] in s;
      }
    }

    method PutLast(dev: Device, res: Resource)
      requires dev in lists && ListOk(State(), dev, lists[dev], all) && res in all && res !in lists[dev]
      modifies dev, all`next
      ensures State() == Put(old(State()), dev, lists[dev], res)
    {
      hide Head, State, Distinct, DistinctIndexes;
      ghost var f, s := State(), lists[dev];
      StateShows(f);
      var tail: Resource? := dev.resourceList;
      assert tail == Head(s);
      HeadIs(s);
      if tail != null {
        tail := Tail(dev);
        assert tail in s;
        tail.next := res;
      } else {
        dev.resourceList := res;
      }
      StateShows(Put(f, dev, s, res));
    }

    lemma KnownHere(dev: Device, index: nat)
      requires Valid() && dev in lists
      ensures Known(State(), lists[dev], index) <==> exists r :: r in lists[dev] && r.index == index
      ensures forall r :: r in lists[dev] ==> r in all && r in State().index && State().index[r] == r.index
    {
      hide Chain, Distinct, Head, ListOk, Spells, State, Valid;
      ListIs(dev);
    }

    // A cleared structure at the end of the list; f and free are what the fields and the spare structures were.
    method AppendResource(dev: Device) returns (res: Resource, ghost f: Fields, ghost free: seq<Resource>)
      requires Valid() && dev in lists
      modifies this, dev, all
      ensures lists == old(lists) && spare == free && free != [] && res == free[0] && Spells(f, lists, free, all)
      ensures State() == Put(Taken(f, free), dev, lists[dev], res)
      ensures res in all && res !in lists[dev] && old(all) <= all && fresh(all - old(all))
      ensures forall r :: r in lists[dev] ==> r in f.index && f.index[r] == old(r.index)
      ensures old(spare) != [] ==> free == old(spare) && all == old(all)
      ensures old(spare) == [] ==> fresh(res)
      ensures old(spare) == [] ==>
                |free| == MORE && all == old(all) + (set r | r in free) && fresh(set r | r in free)
      ensures res.base == res.size == res.limit == res.flags == res.align == res.gran == 0
      ensures forall r :: r in old(all) && r != res ==> Values(r) == old(Values(r))
    {
      hide Chain, Disjoint, Distinct, DistinctIndexes, Known, ListOk, Put, Shows, Spells, State, Taken, Within;
      ListIs(dev);
      if freeResources == null {
        AllocateMoreResources();
      }
      f, free := State(), spare;
      KnownHere(dev, 0);
      SpareHead(dev);
      SpellsList(f, lists, free, all, dev);
      TakenListOk(f, dev, lists[dev], all, free);
      res := TakeSpare(dev);
      PutLast(dev, res);
    }

    // The structure res has been given the index; f is what the fields were.
    lemma NewState(f: Fields, was: map<Device, seq<Resource>>, dev: Device, free: seq<Resource>, res: Resource, index: nat)
      requires Spells(f, was, free, all) && dev in was && free != [] && res == free[0] && !Known(f, was[dev], index)
      requires lists == was[dev := was[dev] + [res]] && spare == free[1..]
      requires
        var g := Put(Taken(f, free), dev, was[dev], res);
        StateOf(lists.Keys) == g.(index := g.index[res := index])
      ensures Valid()
    {
      hide Chain, Disjoint, Distinct, Head, Hooked, ListOk, Put, Spells, State, StateOf, Taken, Within;
      SpellsList(f, was, free, all, dev);
      PutTaken(f, free, dev, was[dev], index);
      StateIs();
      AppendSpells(f, State(), was, free, all, dev, index);
    }

    // Giving a structure its index changes nothing else that lists are made of.
    method InitializeResource(res: Resource, i: nat)
      requires res in all
      modifies res`base, res`flags, res`size, res`limit, res`index, res`align, res`gran
      ensures res.index == i && res.size == res.limit == res.align == res.gran == 0
      ensures
        if Fixed(old(res.flags)) then res.flags == old(res.flags) && res.base == old(res.base)
        else res.flags == res.base == 0
      ensures State() == old(State()).(index := old(State()).index[res := i])
    {
      hide Fixed, State;
      ghost var f := State();
      StateShows(f);
      assert Shows(f);
      res.Initialize(i);
      ghost var g := f.(index := f.index[res := i]);
      StateShows(g);
    }

    // A spare structure for a device that has none with this index.
    method AddResource(dev: Device, index: nat) returns (res: Resource)
      requires Valid() && dev in lists && forall r :: r in lists[dev] ==> r.index != index
      modifies this, dev, all
      ensures Valid() && lists == old(lists)[dev := old(lists[dev]) + [res]] && Served(old(spare), old(all), spare, all, res)
      ensures res in all && res !in old(lists[dev]) && (old(spare) == [] ==> fresh(res))
      ensures old(all) <= all && fresh(all - old(all))
      ensures Cleared(res, index) && res.flags == res.base == 0
      ensures forall r :: r in old(all) && r != res ==> Values(r) == old(Values(r))
    {
      hide Put, Served, Spells, State, StateOf, Taken, Valid;
      ghost var was, all' := spare, all;
      ghost var f, free;
      res, f, free := AppendResource(dev);
      ghost var before := lists;
      InitializeResource(res, index);
      assert !Known(f, before[dev], index);
      ServedFirst(was, all', free, all, res);
      StateIs();
      lists := lists[dev := lists[dev] + [res]];
      spare := spare[1..];
      assert lists.Keys == before.Keys;
      NewState(f, before, dev, free, res, index);
    }

    // The structure that has this index.
    method ReuseResource(dev: Device, res: Resource, index: nat)
      requires Valid() && dev in lists && res in lists[dev] && res.index == index
      modifies res`base, res`flags, res`size, res`limit, res`index, res`align, res`gran
      ensures Valid() && res in all && Cleared(res, index)
      ensures
        if Fixed(old(res.flags)) then res.flags == old(res.flags) && res.base == old(res.base)
        else res.flags == res.base == 0
    {
      hide Fixed, Known, Spells, State;
      KnownHere(dev, index);
      ghost var f := State();
      InitializeResource(res, index);
      SameIndex(f, res, index);
    }

    /**
     A structure for the device with the index: the one that has it, if it is in use, else a spare one at the end of the
     list. Structures out of use are given up first. A fixed one keeps base and flags.
     */
    method NewResource(dev: Device, index: nat) returns (res: Resource)
      requires Valid() && dev in lists
      modifies this, dev, all
      ensures Valid() && res in all && Cleared(res, index)
      ensures lists.Keys == old(lists.Keys) && old(all) <= all && fresh(all - old(all))
      ensures Obtained(old(lists), old(spare), old(all), old(State()), dev, old(Used()), index, lists, spare, all, res)
      ensures res in old(lists[dev]) && res !in old(Used()) <==>
              !Known(old(State()), Live(old(lists[dev]), old(Used())), index) && Flagless(old(lists[dev]), old(Used()))
      ensures res.flags == res.base == 0 ||
              (res.flags / 0x8000_0000 % 2 == 1 && res in Live(old(lists[dev]), old(Used())))
      ensures forall r :: r in old(all) && r == res && r in Live(old(lists[dev]), old(Used())) &&
                          old(r.flags) / 0x8000_0000 % 2 == 1 ==>
                r.flags == old(r.flags) && r.base == old(r.base)
      ensures forall r :: r in old(all) && r != res ==> Values(r) == old(Values(r))
    {
      hide *;
      ghost var f, live := State(), Live(lists[dev], Used());
      ghost var was, free, wasAll, used := lists, spare, all, Used();
      LiveIndexes(dev);
      Sound(dev);
      CompactResources(dev);
      assert lists[dev] == live && forall r :: r in live ==> r in f.index && f.index[r] == r.index;
      var found := ProbeResource(dev, index);
      if found != null {
        res := found;
        FoundIs(was, free, wasAll, f, dev, used, index, res);
        ReuseResource(dev, res, index);
        FixedIs();
      } else {
        NotFound(f, live, index);
        res := AddResource(dev, index);
        AddedIs(was, free, wasAll, f, dev, used, index, spare, all, res);
        assert lists == was[dev := live + [res]];
      }
      GivenOutAgain(was, free, wasAll, f, dev, used, index, lists, spare, all, res);
    }

    lemma Sound(dev: Device)
      requires Valid() && dev in lists
      ensures Apart(lists, spare) && Within(lists[dev], all)
    {
      hide Spells, State;
      ListIs(dev);
      SpellsAll(State(), lists, spare, all);
    }

    // The resources in use, and that they are.
    lemma LiveAllocated(dev: Device)
      requires Valid() && dev in lists
      ensures forall r :: r in Live(lists[dev], Used()) ==> r in all && r in lists[dev] && r.flags != 0
    {
      hide Valid, Live, State;
      LiveIndexes(dev);
      forall r | r in Live(lists[dev], Used())
        ensures r in lists[dev] && r.flags != 0
      {
        LiveAre(lists[dev], Used(), r);
      }
    }

    lemma EndIsApart(dev: Device, s: seq<Resource>, res: Resource)
      requires Valid() && dev in lists && lists[dev] == s + [res]
      ensures res !in s && res in all
    {
      hide Valid, Spells, State;
      ListIs(dev);
      var t := lists[dev];
      assert t[|s|] == res && res in t;
      assert forall i :: 0 <= i < |s| ==> s[i] == t[i] != t[|s|];
    }

    lemma NotKnown(dev: Device, index: nat)
      requires Valid() && dev in lists && forall r :: r in lists[dev] && r.flags != 0 ==> r.index != index
      ensures !Known(State(), Live(lists[dev], Used()), index)
    {
      hide Valid, Live, State;
      LiveIndexes(dev);
      forall r | r in Live(lists[dev], Used())
        ensures r.index != index
      {
        LiveAre(lists[dev], Used(), r);
      }
    }

    lemma LiveIndexes(dev: Device)
      requires Valid() && dev in lists
      ensures forall r :: r in Live(lists[dev], Used()) ==> r in all && r in State().index && State().index[r] == r.index
    {
      hide *;
      KnownHere(dev, 0);
      forall r | r in Live(lists[dev], Used())
        ensures r in lists[dev]
      {
        LiveAre(lists[dev], Used(), r);
      }
    }

    /** A device without resources. */
    method AddDevice() returns (dev: Device)
      requires Valid()
      modifies this
      ensures Valid() && fresh(dev) && lists == old(lists)[dev := []] && spare == old(spare) && all == old(all)
    {
      hide Apart, Chain, Complete, Spells, State, Within;
      ghost var f, was := State(), lists;
      StateShows(f);
      SpellsAll(f, lists, spare, all);
      dev := new Device();
      lists := lists[dev := []];
      ghost var g := f.(heads := f.heads[dev := null]);
      StateShows(g);
      DeviceSpells(f, g, was, spare, all, dev);
    }
  }

  lemma SameIndex(f: Fields, res: Resource, i: nat)
    requires res in f.index && f.index[res] == i
    ensures f.(index := f.index[res := i]) == f
  {
    assert f.index[res := i] == f.index;
  }

  // What callers do: ask for a resource and set its flags, or compact.
  datatype Call = New(device: Device, index: nat, flags: nat) | Compact(device: Device)

  /** Over any calls, on any devices, the lists stay lists, apart from each other, and hold everything allocated. */
  method Serve(pool: Resources, calls: seq<Call>)
    requires pool.Valid() && forall c :: c in calls ==> c.device in pool.lists
    modifies pool, pool.lists.Keys, pool.all
    ensures pool.Valid() && pool.lists.Keys == old(pool.lists.Keys) && old(pool.all) <= pool.all
  {
    hide *;
    for i := 0 to |calls|
      invariant pool.Valid() && pool.lists.Keys == old(pool.lists.Keys) && old(pool.all) <= pool.all
      invariant fresh(pool.all - old(pool.all))
    {
      assert calls[i] in calls;
      match calls[i] {
        case New(device, index, flags) =>
          var r := pool.NewResource(device, index);
          r.flags := flags;
        case Compact(device) =>
          pool.CompactResources(device);
      }
    }
  }

  // Some structure on the list has no flags.
  ghost predicate Flagless(s: seq<Resource>, used: set<Resource>) {
    exists r :: r in s && r !in used
  }

  lemma DeadIsFlagless(s: seq<Resource>, used: set<Resource>)
    ensures Dead(s, used) != [] <==> Flagless(s, used)
    ensures forall r :: r in Dead(s, used) <==> r in s && r !in used
    ensures forall r :: r in Live(s, used) <==> r in s && r in used
  {
    forall r
      ensures r in Dead(s, used) <==> r in s && r !in used
      ensures r in Live(s, used) <==> r in s && r in used
    {
      LiveAre(s, used, r);
    }
    if Dead(s, used) != [] {
      assert Dead(s, used)[0] in Dead(s, used);
    }
  }

  /**
   new_resource gives out a structure that is on the device's list, with flags still zero, exactly if there is one and no
   structure in use has the index.
   */
  lemma GivenOutAgain(was: map<Device, seq<Resource>>, free: seq<Resource>, wasAll: set<Resource>, f: Fields, dev: Device,
                      used: set<Resource>, index: nat, lists: map<Device, seq<Resource>>, spare: seq<Resource>,
                      all: set<Resource>, res: Resource)
    requires Obtained(was, free, wasAll, f, dev, used, index, lists, spare, all, res)
    requires Apart(was, free) && Within(was[dev], wasAll)
    ensures res in was[dev] && res !in used <==>
            !Known(f, Live(was[dev], used), index) && Flagless(was[dev], used)
  {
    hide Known, Live, Dead, Distinct, Flagless;
    var s := was[dev];
    DeadIsFlagless(s, used);
    if !Known(f, Live(s, used), index) {
      var pool := Dead(s, used) + free;
      if Dead(s, used) != [] {
        assert res == pool[0] == Dead(s, used)[0];
      } else {
        assert pool == free;
        assert free != [] ==> res == free[0] && Disjoint(s, free);
      }
    }
  }

  /** Of several, it is the last one on the list. */
  lemma LastIsGivenOut(was: map<Device, seq<Resource>>, free: seq<Resource>, wasAll: set<Resource>, f: Fields, dev: Device,
                       used: set<Resource>, index: nat, lists: map<Device, seq<Resource>>, spare: seq<Resource>,
                       all: set<Resource>, res: Resource, s: seq<Resource>, last: Resource)
    requires Obtained(was, free, wasAll, f, dev, used, index, lists, spare, all, res)
    requires was[dev] == s + [last] && last !in used && !Known(f, Live(s, used), index)
    ensures res == last && lists[dev] == Live(s, used) + [last]
  {
    var t := was[dev];
    assert t[..|t| - 1] == s && t[|t| - 1] == last;
    assert Live(t, used) == Live(s, used) + [];
    assert Dead(t, used) == [last] + Dead(s, used);
    assert (Dead(t, used) + free)[0] == last;
  }

  lemma {:induction false} AllLive(s: seq<Resource>, used: set<Resource>)
    requires Within(s, used)
    ensures Live(s, used) == s
    decreases |s|
  {
    if s != [] {
      assert s[|s| - 1] in s && Within(s[..|s| - 1], used);
      AllLive(s[..|s| - 1], used);
      assert s == s[..|s| - 1] + [s[|s| - 1]];
    }
  }

  /**
   Two requests for indexes that no resource in use has, without setting flags in between: both callers hold the same
   structure, which now has the second index.
   */
  method AskTwice(pool: Resources, dev: Device, i: nat, j: nat) returns (a: Resource, b: Resource)
    requires pool.Valid() && dev in pool.lists
    requires forall r :: r in pool.lists[dev] && r.flags != 0 ==> r.index != i && r.index != j
    modifies pool, dev, pool.all
    ensures a == b && a.index == j && pool.Valid()
  {
    hide Obtained, Known, Live, Dead, Served, Fixed, Flagless, Resources.Valid, Resources.State, Resources.Used;
    ghost var s, live := pool.lists[dev], Live(pool.lists[dev], pool.Used());
    ghost var start, free0, all0, f0, used0 := pool.lists, pool.spare, pool.all, pool.State(), pool.Used();
    pool.NotKnown(dev, i);
    pool.LiveAllocated(dev);
    a := pool.NewResource(dev, i);
    ObtainedAtEnd(start, free0, all0, f0, dev, used0, i, pool.lists, pool.spare, pool.all, a);
    ghost var was, free, wasAll, f, used := pool.lists, pool.spare, pool.all, pool.State(), pool.Used();
    pool.EndIsApart(dev, live, a);
    pool.UsedIs(a);
    assert forall r :: r in pool.lists[dev] ==> r == a || r in live;
    pool.NotKnown(dev, j);
    EndIsDead(live, a, used);
    b := pool.NewResource(dev, j);
    LastIsGivenOut(was, free, wasAll, f, dev, used, j, pool.lists, pool.spare, pool.all, b, live, a);
  }

  lemma EndIsDead(s: seq<Resource>, last: Resource, used: set<Resource>)
    requires last !in used
    ensures Live(s + [last], used) == Live(s, used)
  {
    assert (s + [last])[..|s|] == s;
  }

  lemma ObtainedAtEnd(was: map<Device, seq<Resource>>, free: seq<Resource>, wasAll: set<Resource>, f: Fields, dev: Device,
                      used: set<Resource>, index: nat, lists: map<Device, seq<Resource>>, spare: seq<Resource>,
                      all: set<Resource>, res: Resource)
    requires Obtained(was, free, wasAll, f, dev, used, index, lists, spare, all, res)
    requires !Known(f, Live(was[dev], used), index)
    ensures dev in lists && lists[dev] == Live(was[dev], used) + [res]
  {
    hide Live, Dead, Served, Known;
  }

  /** On a new device, nothing has to be assumed. */
  method AskTwiceOnNewDevice(i: nat, j: nat) returns (a: Resource, b: Resource)
    ensures a == b && a.index == j
  {
    var pool := new Resources();
    var dev := pool.AddDevice();
    a, b := AskTwice(pool, dev, i, j);
  }

  lemma ServedFirst(was: seq<Resource>, wasAll: set<Resource>, free: seq<Resource>, all: set<Resource>, res: Resource)
    requires free != [] && res == free[0]
    requires was != [] ==> free == was && all == wasAll
    requires was == [] ==> |free| == MORE && res !in wasAll && all == wasAll + set r | r in free
    ensures Served(was, wasAll, free[1..], all, res)
  {
    assert free == [free[0]] + free[1..];
    assert (set r | r in free) == {free[0]} + set r | r in free[1..];
  }

  ghost predicate Cleared(r: Resource, index: nat)
    reads r
  {
    r.index == index && r.size == r.limit == r.align == r.gran == 0
  }

  /**
   What new_resource gives: after compaction, the structure in use that has the index, in place; else one more at the end,
   the first of those that are spare by then.
   */
  ghost predicate Obtained(was: map<Device, seq<Resource>>, free: seq<Resource>, wasAll: set<Resource>, f: Fields, dev: Device,
                           used: set<Resource>, index: nat, lists: map<Device, seq<Resource>>, spare: seq<Resource>,
                           all: set<Resource>, res: Resource) {
    && dev in was
    && var live, pool := Live(was[dev], used), Dead(was[dev], used) + free;
    if Known(f, live, index) then
      res in live && res in f.index && f.index[res] == index && lists == was[dev := live] && spare == pool && all == wasAll
    else
      lists == was[dev := live + [res]] && Served(pool, wasAll, spare, all, res)
  }

  lemma FoundIs(was: map<Device, seq<Resource>>, free: seq<Resource>, wasAll: set<Resource>, f: Fields, dev: Device,
                used: set<Resource>, index: nat, res: Resource)
    requires dev in was && res in Live(was[dev], used) && res in f.index && f.index[res] == index
    ensures Obtained(was, free, wasAll, f, dev, used, index, was[dev := Live(was[dev], used)], Dead(was[dev], used) + free,
                     wasAll, res)
  {
    hide Live, Dead, Served;
  }

  lemma NotFound(f: Fields, s: seq<Resource>, index: nat)
    requires forall r :: r in s ==> r in f.index && f.index[r] != index
    ensures !Known(f, s, index)
  {
  }

  lemma AddedIs(was: map<Device, seq<Resource>>, free: seq<Resource>, wasAll: set<Resource>, f: Fields, dev: Device,
                used: set<Resource>, index: nat, spare: seq<Resource>, all: set<Resource>, res: Resource)
    requires dev in was && !Known(f, Live(was[dev], used), index)
    requires Served(Dead(was[dev], used) + free, wasAll, spare, all, res)
    ensures Obtained(was, free, wasAll, f, dev, used, index, was[dev := Live(was[dev], used) + [res]], spare, all, res)
  {
    hide Live, Dead, Served, Known;
  }

  // res is the first of the spare structures, or of new ones if there are none.
  ghost predicate Served(was: seq<Resource>, wasAll: set<Resource>, spare: seq<Resource>, all: set<Resource>, res: Resource) {
    if was != [] then was == [res] + spare && all == wasAll
    else |spare| == MORE - 1 && res !in wasAll && all == wasAll + {res} + set r | r in spare
  }

  lemma PutTaken(f: Fields, free: seq<Resource>, dev: Device, s: seq<Resource>, k: nat)
    requires free != []
    ensures
      var g := Put(Taken(f, free), dev, s, free[0]);
      g.(index := g.index[free[0] := k]) ==
      Fields(Hooked(f.next, s, free[0]), f.index[free[0] := k], if s == [] then f.heads[dev := free[0]] else f.heads,
             Head(free[1..]))
  {
    hide Head;
    assert f.index[free[0] := 0][free[0] := k] == f.index[free[0] := k];
  }

  datatype Content = Content(base: nat, size: nat, limit: nat, flags: nat, index: nat, align: nat, gran: nat)

  ghost function Values(r: Resource): Content
    reads r`base, r`size, r`limit, r`flags, r`index, r`align, r`gran
  {
    Content(r.base, r.size, r.limit, r.flags, r.index, r.align, r.gran)
  }

  lemma TakenListOk(f: Fields, dev: Device, s: seq<Resource>, all: set<Resource>, free: seq<Resource>)
    requires ListOk(f, dev, s, all) && free != [] && free[0] !in s
    ensures ListOk(Taken(f, free), dev, s, all)
  {
    hide Within;
    assert forall i :: 0 <= i < |s| ==> s[i] in s;
  }
  ghost predicate Known(f: Fields, s: seq<Resource>, index: nat) {
    exists r :: r in s && r in f.index && f.index[r] == index
  }

  lemma HeadIs(s: seq<Resource>)
    ensures Head(s) == null <==> s == []
  {
  }

  // The fields after the first spare structure has been taken and cleared.
  ghost function Taken(f: Fields, spare: seq<Resource>): Fields
    requires spare != []
  {
    Fields(f.next[spare[0] := null], f.index[spare[0] := 0], f.heads, Head(spare[1..]))
  }

  // The fields after res has been put at the end of the list s of dev.
  ghost function Put(f: Fields, dev: Device, s: seq<Resource>, res: Resource): Fields {
    if s == [] then f.(heads := f.heads[dev := res]) else f.(next := f.next[s[|s| - 1] := res])
  }

  // The fields after res has been taken out between x and y and put before the spare structures.
  ghost function Freed(f: Fields, dev: Device, x: seq<Resource>, res: Resource, y: seq<Resource>): Fields {
    Fields(Unhooked(f.next, x, res, y, f.free), f.index, if x == [] then f.heads[dev := Head(y)] else f.heads, res)
  }

  lemma InParts(x: seq<Resource>, res: Resource, y: seq<Resource>, all: set<Resource>)
    requires Within(x + [res] + y, all)
    ensures res in all && (x != [] ==> x[|x| - 1] in all && (Distinct(x + [res] + y) ==> x[|x| - 1] != res))
  {
    var s := x + [res] + y;
    assert s[|x|] == res && res in s;
    assert x != [] ==> s[|x| - 1] == x[|x| - 1] && s[|x| - 1] in s;
  }

  lemma UnhookedIs(next: map<Resource, Resource?>, x: seq<Resource>, res: Resource, y: seq<Resource>, free: Resource?)
    ensures
      var m := Unhooked(next, x, res, y, free);
      && m.Keys == next.Keys + {res} + (if x == [] then {} else {x[|x| - 1]})
      && m[res] == free && (x != [] && x[|x| - 1] != res ==> m[x[|x| - 1]] == Head(y))
      && forall r :: r in next && r != res && (x == [] || r != x[|x| - 1]) ==> m[r] == next[r]
  {
    hide Head;
  }
}
