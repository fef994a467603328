/**
 What pass 2 of the resource allocator achieves below the domain: the resources behind an
 assigned window are placed inside it, everything else stays unassigned.
 */
module Placement {
  import opened Arith
  import opened ResourceTree
  import opened WindowLayout

  // assign_resource
  function AssignedAt(r: Resource, base: nat): Resource
    requires 0 < r.size
  {
    r.(base := base, limit := base + r.size - 1, flags := r.flags.(isAssigned := true, isStored := false))
  }

  // The type of some window.
  predicate Typed(f: Flags) {
    (f.kind == IO && !f.prefetch) || f.kind == MEM
  }

  ghost predicate Assigns(s: Store, t: Store, ids: set<nat>) {
    && |s| == |t|
    && forall i :: 0 <= i < |s| ==>
         || t[i] == s[i]
         || (i in ids && !s[i].flags.fixed && Typed(s[i].flags) && 0 < s[i].size && t[i] == AssignedAt(s[i], t[i].base))
  }

  // The window type a bridge resource is matched with.
  function WantedOf(f: Flags): Wanted {
    Wanted(f.kind, Some(f.prefetch), None)
  }

  ghost predicate PlacedWindow(x: Resource) {
    0 < x.size && IsMultiple(x.base, Pow2(x.align)) && x.limit == x.base + x.size - 1
  }

  ghost predicate AssignedWindow(s: Store, w: Wanted, q: nat) {
    IsWindow(s, w, q) && s[q].flags.isAssigned
  }

  // The window q of d is assigned and all below it is as pass 1 left it.
  ghost predicate WindowReady(d: Device, s: Store, w: Wanted, q: nat, always4G: bool)
    requires q < |s|
  {
    && PlacedWindow(s[q])
    && Laid(d.children, s, w, q, always4G)
    && forall j :: 0 <= j < |d.children| && d.children[j].children != [] ==> Computed(d.children[j], s, w, always4G)
  }

  ghost predicate Ready(d: Device, s: Store, always4G: bool) {
    && WellFormed(d, s)
    && (forall r: nat :: r in IdsOf(d.children) && r < |s| && !s[r].flags.fixed ==> !s[r].flags.isAssigned)
    && (forall w: Wanted, q: nat :: IsWindowType(w) && q in d.resources && AssignedWindow(s, w, q) ==>
          WindowReady(d, s, w, q, always4G))
  }

  // r lies inside the window q, aligned, below its limit.
  ghost predicate Inside(s: Store, t: Store, q: nat, r: nat, always4G: bool)
    requires q < |t| && r < |t| && r < |s|
  {
    && 0 < s[r].size && t[r] == AssignedAt(s[r], t[r].base)
    && IsMultiple(t[r].base, Pow2(t[r].align))
    && t[q].base <= t[r].base && t[r].base + t[r].size <= t[q].base + t[q].size
    && t[r].base + t[r].size - 1 <= EffectiveLimit(s[r], always4G)
  }

  // s is the store before pass 2, t the one after it.
  ghost predicate Holds(bus: seq<Device>, s: Store, t: Store, w: Wanted, q: nat, always4G: bool)
    requires q < |t| && |s| == |t|
  {
    && (forall r: nat :: IsKid(bus, s, w, r) ==> Inside(s, t, q, r, always4G))
    && (forall r: nat, r': nat :: IsKid(bus, s, w, r) && IsKid(bus, s, w, r') && r != r' ==> Disjoint(t[r], t[r']))
  }

  ghost predicate DirectlyBehind(bus: seq<Device>, r: nat) {
    exists j :: 0 <= j < |bus| && r in bus[j].resources
  }

  // Some device behind d has r, and r has been assigned.
  ghost predicate BehindAssigned(d: Device, s: Store, t: Store, w: Wanted, r: nat)
    requires |s| == |t|
  {
    && r < |s| && DirectlyBehind(d.children, r) && Matches(s[r].flags, w)
    && !s[r].flags.fixed && t[r].flags.isAssigned
  }

  // The windows of the wanted type in a whole bridge tree: the resources behind an assigned one are
  // placed in it, and nothing behind an unassigned one is assigned.
  ghost predicate PlacedTree(d: Device, s: Store, t: Store, w: Wanted, always4G: bool)
    decreases d
  {
    && |s| == |t|
    && (forall q: nat :: q in d.resources && IsWindow(s, w, q) && t[q].flags.isAssigned ==>
          Holds(d.children, s, t, w, q, always4G))
    && (forall r: nat :: BehindAssigned(d, s, t, w, r) ==>
          IsKid(d.children, s, w, r) && exists q: nat :: q in d.resources && IsWindow(s, w, q) && t[q].flags.isAssigned)
    && (forall j :: 0 <= j < |d.children| && d.children[j].children != [] ==> PlacedTree(d.children[j], s, t, w, always4G))
  }

  lemma WindowTypeOf(d: Device, s: Store, q: nat, w: Wanted)
    requires WellFormed(d, s) && q in d.resources && s[q].flags.bridge
    ensures IsWindowType(WantedOf(s[q].flags)) && Matches(s[q].flags, WantedOf(s[q].flags))
    ensures IsWindowType(w) && Matches(s[q].flags, w) ==> w == WantedOf(s[q].flags)
  {
  }

  lemma BehindInIds(bus: seq<Device>, r: nat)
    requires DirectlyBehind(bus, r)
    ensures r in IdsOf(bus)
  {
    var j :| 0 <= j < |bus| && r in bus[j].resources;
    ChildIds(bus, j);
  }

  lemma OnBusIsBehind(bus: seq<Device>, r: nat)
    requires OnBus(bus, r)
    ensures DirectlyBehind(bus, r)
  {
  }

  lemma {:induction false} PlacedTreeFrame(d: Device, s: Store, t: Store, s': Store, t': Store, w: Wanted, always4G: bool)
    requires |s| == |t| == |s'| == |t'|
    requires forall i: nat :: i in d.resources ==> i < |s| && s'[i].Identity() == s[i].Identity() && t'[i] == t[i]
    requires forall i: nat :: i in IdsOf(d.children) ==> i < |s| && s'[i] == s[i] && t'[i] == t[i]
    requires PlacedTree(d, s, t, w, always4G)
    ensures PlacedTree(d, s', t', w, always4G)
    decreases d
  {
    hide IsMultiple, Pow2;
    forall r: nat
      ensures IsKid(d.children, s', w, r) <==> IsKid(d.children, s, w, r)
      ensures IsKid(d.children, s, w, r) ==> s'[r] == s[r] && t'[r] == t[r]
    {
      if OnBus(d.children, r) {
        OnBusInIds(d.children, r);
      }
    }
    forall r: nat | DirectlyBehind(d.children, r)
      ensures r < |s| && s'[r] == s[r] && t'[r] == t[r]
    {
      BehindInIds(d.children, r);
    }
    forall q: nat | q in d.resources
      ensures q < |s| && (IsWindow(s', w, q) <==> IsWindow(s, w, q))
    {
    }
    forall r: nat
      ensures BehindAssigned(d, s', t', w, r) <==> BehindAssigned(d, s, t, w, r)
    {
    }
    forall j | 0 <= j < |d.children| && d.children[j].children != []
      ensures PlacedTree(d.children[j], s', t', w, always4G)
    {
      ChildIds(d.children, j);
      assert forall i: nat :: i in d.children[j].resources ==> i in Ids(d.children[j]);
      PlacedTreeFrame(d.children[j], s, t, s', t', w, always4G);
    }
  }

  // ----- Assigning the resources behind the windows of one bridge

  ghost predicate BehindWindow(d: Device, s: Store, k: nat, r: nat) {
    && k < |d.resources| && d.resources[k] < |s|
    && var q := s[d.resources[k]];
    && 0 < q.size && q.flags.bridge && q.flags.isAssigned
    && IsKid(d.children, s, WantedOf(q.flags), r)
  }

  // The first n resources of the bridge have been handled.
  ghost predicate KidsAssigned(d: Device, n: nat, s: Store, u: Store) {
    && |s| == |u| && n <= |d.resources|
    && (forall k: nat, r: nat :: k < n && BehindWindow(d, s, k, r) ==>
          u[r] == AssignedAt(s[r], s[d.resources[k]].base + s[r].base))
    && (forall r: nat :: r < |s| && (forall k: nat :: k < n ==> !BehindWindow(d, s, k, r)) ==> u[r] == s[r])
  }

  lemma KidsOfOneWindow(d: Device, s: Store, k: nat, k': nat, r: nat)
    requires WellFormed(d, s) && BehindWindow(d, s, k, r) && BehindWindow(d, s, k', r)
    ensures k == k'
  {
    var q, q' := d.resources[k], d.resources[k'];
    assert q != q' ==> !SameWindowType(s[q].flags, s[q'].flags);
  }

  lemma KidsAssignedStep(d: Device, n: nat, s: Store, u: Store, v: Store)
    requires WellFormed(d, s) && KidsAssigned(d, n, s, u) && n < |d.resources|
    requires |v| == |s|
    requires forall r: nat :: r < |s| ==>
               v[r] == if BehindWindow(d, s, n, r) then AssignedAt(s[r], s[d.resources[n]].base + s[r].base) else u[r]
    ensures KidsAssigned(d, n + 1, s, v)
  {
    forall k: nat, r: nat | k < n + 1 && BehindWindow(d, s, k, r)
      ensures v[r] == AssignedAt(s[r], s[d.resources[k]].base + s[r].base)
    {
      if BehindWindow(d, s, n, r) {
        KidsOfOneWindow(d, s, k, n, r);
      }
    }
  }

  // Where a resource behind an assigned window ends up.
  lemma KidPlace(d: Device, s: Store, w: Wanted, q: nat, r: nat, t: Store, always4G: bool)
    requires q < |s| && |s| == |t| && WindowReady(d, s, w, q, always4G)
    requires IsKid(d.children, s, w, r)
    requires t[q] == s[q] && t[r] == AssignedAt(s[r], s[q].base + s[r].base)
    ensures Inside(s, t, q, r, always4G)
    ensures s[r].flags.bridge ==> SameButPlace(s[r], t[r])
    ensures PlacedWindow(t[r])
  {
    assert FitsWindow(s[q], s[r], always4G);
    MultiplePow2(s[q].base, s[q].align, s[r].align);
    MultipleSum(s[q].base, s[r].base, Pow2(s[r].align));
  }

  lemma WindowHolds(d: Device, s: Store, w: Wanted, q: nat, t: Store, always4G: bool)
    requires q < |s| && |s| == |t| && WindowReady(d, s, w, q, always4G)
    requires t[q] == s[q]
    requires forall r: nat :: IsKid(d.children, s, w, r) ==> t[r] == AssignedAt(s[r], s[q].base + s[r].base)
    ensures Holds(d.children, s, t, w, q, always4G)
  {
    hide Computed, IsMultiple, Pow2, EffectiveLimit;
    forall r: nat | IsKid(d.children, s, w, r)
      ensures Inside(s, t, q, r, always4G)
    {
      KidPlace(d, s, w, q, r, t, always4G);
    }
    forall r: nat, r': nat | IsKid(d.children, s, w, r) && IsKid(d.children, s, w, r') && r != r'
      ensures Disjoint(t[r], t[r'])
    {
      assert Disjoint(s[r], s[r']);
    }
  }

  ghost predicate AllPlaced(d: Device, s: Store, t: Store, always4G: bool) {
    forall w: Wanted :: IsWindowType(w) ==> PlacedTree(d, s, t, w, always4G)
  }

  lemma DeeperIsNotBehind(bus: seq<Device>, j: nat, r: nat)
    requires SeparateOf(bus) && j < |bus| && r in IdsOf(bus[j].children)
    ensures !DirectlyBehind(bus, r)
  {
    if DirectlyBehind(bus, r) {
      var i :| 0 <= i < |bus| && r in bus[i].resources;
      assert r in Ids(bus[i]) && r in Ids(bus[j]);
      SeparateAt(bus, j);
    }
  }

  lemma DeeperIsDeep(bus: seq<Device>, r: nat)
    requires SeparateOf(bus) && Deeper(bus, r)
    ensures r in IdsOf(bus) && !DirectlyBehind(bus, r)
  {
    var j :| 0 <= j < |bus| && r in IdsOf(bus[j].children);
    ChildIds(bus, j);
    assert r in Ids(bus[j]);
    DeeperIsNotBehind(bus, j, r);
  }

  lemma TreeInStore(bus: seq<Device>, j: nat, store: Store)
    requires InStore(IdsOf(bus), store) && j < |bus|
    ensures forall i: nat :: i in bus[j].resources ==> i in Ids(bus[j]) && i < |store|
    ensures forall i: nat :: i in IdsOf(bus[j].children) ==> i in Ids(bus[j]) && i < |store|
  {
    ChildIds(bus, j);
  }

  lemma KidsAreAssigned(d: Device, s: Store, u: Store, always4G: bool)
    requires Ready(d, s, always4G) && KidsAssigned(d, |d.resources|, s, u)
    ensures Assigns(s, u, IdsOf(d.children)) && SameIdentity(s, u)
    ensures forall q: nat :: q in d.resources ==> q < |s| && u[q] == s[q]
    ensures forall r: nat :: r < |s| && u[r] != s[r] ==> OnBus(d.children, r)
  {
    hide EffectiveLimit, IsMultiple, Pow2, WindowReady;
    forall i: nat | i < |s|
      ensures || u[i] == s[i]
              || (i in IdsOf(d.children) && OnBus(d.children, i) && !s[i].flags.fixed && Typed(s[i].flags) && 0 < s[i].size
                  && u[i] == AssignedAt(s[i], u[i].base))
    {
      if u[i] != s[i] {
        var k: nat :| k < |d.resources| && BehindWindow(d, s, k, i);
        WindowTypeOf(d, s, d.resources[k], IO_WINDOW);
        OnBusInIds(d.children, i);
      }
    }
  }

  // A resource behind the bridge that is assigned now was assigned by one of its windows.
  lemma AssignedByWindow(d: Device, s: Store, u: Store, r: nat, w: Wanted, always4G: bool) returns (q: nat)
    requires Ready(d, s, always4G) && KidsAssigned(d, |d.resources|, s, u)
    requires r < |s| && r in IdsOf(d.children) && !s[r].flags.fixed && u[r].flags.isAssigned
    requires IsWindowType(w) && Matches(s[r].flags, w)
    ensures q in d.resources && AssignedWindow(s, w, q) && WindowReady(d, s, w, q, always4G)
    ensures IsKid(d.children, s, w, r) && u[r] == AssignedAt(s[r], s[q].base + s[r].base)
  {
    var k: nat :| k < |d.resources| && BehindWindow(d, s, k, r);
    q := d.resources[k];
    WindowTypeOf(d, s, q, w);
    assert WantedOf(s[q].flags) == w;
  }

  lemma KidsHeld(d: Device, s: Store, u: Store, w: Wanted, q: nat, always4G: bool)
    requires Ready(d, s, always4G) && KidsAssigned(d, |d.resources|, s, u)
    requires IsWindowType(w) && q in d.resources && AssignedWindow(s, w, q)
    ensures Holds(d.children, s, u, w, q, always4G)
  {
    KidsAreAssigned(d, s, u, always4G);
    assert WindowReady(d, s, w, q, always4G);
    var k: nat :| k < |d.resources| && d.resources[k] == q;
    WindowTypeOf(d, s, q, w);
    forall r: nat | IsKid(d.children, s, w, r)
      ensures u[r] == AssignedAt(s[r], s[q].base + s[r].base)
    {
      assert BehindWindow(d, s, k, r);
    }
    WindowHolds(d, s, w, q, u, always4G);
  }

  // After the resources behind a bridge are assigned, each bridge behind it is ready.
  lemma ChildIsReady(d: Device, s: Store, u: Store, j: nat, always4G: bool)
    requires Ready(d, s, always4G) && KidsAssigned(d, |d.resources|, s, u)
    requires j < |d.children| && d.children[j].children != []
    ensures Ready(d.children[j], u, always4G)
  {
    var c := d.children[j];
    KidsAreAssigned(d, s, u, always4G);
    WellFormedAt(d.children, s, j);
    WellFormedFrame(c, s, u);
    WellFormedIsSeparate(d, s);
    ChildIds(d.children, j);
    forall r: nat | r in IdsOf(c.children)
      ensures r in IdsOf(d.children) && r < |s| && u[r] == s[r]
    {
      assert r in Ids(c);
      DeeperIsNotBehind(d.children, j, r);
      if OnBus(d.children, r) {
        OnBusIsBehind(d.children, r);
      }
    }
    forall w: Wanted, q: nat | IsWindowType(w) && q in c.resources && AssignedWindow(u, w, q)
      ensures WindowReady(c, u, w, q, always4G)
    {
      ChildWindowReady(d, s, u, j, w, q, always4G);
    }
  }

  lemma ChildWindowShrinks(d: Device, s: Store, u: Store, w: Wanted, r: nat, always4G: bool)
    requires Ready(d, s, always4G) && KidsAssigned(d, |d.resources|, s, u)
    requires r in IdsOf(d.children) && IsWindowType(w) && IsWindow(s, w, r) && !s[r].flags.fixed
    ensures r < |u| && SameButPlace(s[r], u[r])
    ensures u[r].flags.isAssigned ==> PlacedWindow(u[r])
  {
    hide EffectiveLimit, IsMultiple, Pow2, Laid;
    KidsAreAssigned(d, s, u, always4G);
    if u[r].flags.isAssigned {
      var win := AssignedByWindow(d, s, u, r, w, always4G);
      KidPlace(d, s, w, win, r, u, always4G);
    }
  }

  lemma ChildWindowReady(d: Device, s: Store, u: Store, j: nat, w: Wanted, q: nat, always4G: bool)
    requires Ready(d, s, always4G) && KidsAssigned(d, |d.resources|, s, u)
    requires j < |d.children| && d.children[j].children != []
    requires IsWindowType(w) && q in d.children[j].resources && AssignedWindow(u, w, q)
    requires forall r: nat :: r in IdsOf(d.children[j].children) ==> r < |s| && u[r] == s[r]
    ensures WindowReady(d.children[j], u, w, q, always4G)
  {
    hide EffectiveLimit, IsMultiple, Pow2, Laid, PlacedWindow, SameButPlace, BehindWindow;
    var c := d.children[j];
    KidsAreAssigned(d, s, u, always4G);
    WellFormedAt(d.children, s, j);
    ChildIds(d.children, j);
    assert forall r: nat :: r in c.resources ==> r in Ids(c);
    assert s[q].Identity() == u[q].Identity();
    ChildWindowShrinks(d, s, u, w, q, always4G);
    var win := AssignedByWindow(d, s, u, q, w, always4G);
    forall r: nat | r in c.resources && IsWindow(s, w, r)
      ensures SameButPlace(s[r], u[r])
    {
      ChildWindowShrinks(d, s, u, w, r, always4G);
    }
    ComputedFrame(c, s, u, w, always4G);
  }

  lemma ReadyFrame(d: Device, s: Store, t: Store, always4G: bool)
    requires Ready(d, s, always4G) && SameIdentity(s, t)
    requires forall i: nat :: i in Ids(d) && i < |s| ==> t[i] == s[i]
    ensures Ready(d, t, always4G)
  {
    WellFormedFrame(d, s, t);
    WellFormedIsSeparate(d, s);
    assert forall r: nat :: r in d.resources ==> r in Ids(d);
    forall w: Wanted, q: nat | IsWindowType(w) && q in d.resources && AssignedWindow(t, w, q)
      ensures WindowReady(d, t, w, q, always4G)
    {
      assert AssignedWindow(s, w, q);
      LaidFrame(d.children, s, t, w, q, always4G);
      forall j | 0 <= j < |d.children| && d.children[j].children != []
        ensures Computed(d.children[j], t, w, always4G)
      {
        ChildIds(d.children, j);
        WellFormedAt(d.children, s, j);
        assert forall r: nat :: r in d.children[j].resources ==> r in Ids(d.children[j]);
        ComputedFrame(d.children[j], s, t, w, always4G);
      }
    }
  }

  // ----- Descending into the bridges behind a bridge

  // The first n devices have been descended into; the others are as they were.
  ghost predicate Descended(bus: seq<Device>, n: nat, u: Store, v: Store, always4G: bool) {
    && |u| == |v| && n <= |bus|
    && (forall j :: 0 <= j < n && bus[j].children != [] ==> AllPlaced(bus[j], u, v, always4G))
    && (forall j, i: nat :: n <= j < |bus| && i in Ids(bus[j]) && i < |u| ==> v[i] == u[i])
    && (forall i: nat :: i < |u| && v[i] != u[i] ==> Deeper(bus, i))
    && Assigns(u, v, IdsOf(bus))
  }

  ghost predicate Deeper(bus: seq<Device>, i: nat) {
    exists j :: 0 <= j < |bus| && i in IdsOf(bus[j].children)
  }

  lemma AssignsIdentity(s: Store, t: Store, ids: set<nat>)
    requires Assigns(s, t, ids)
    ensures SameIdentity(s, t)
  {
    forall i | 0 <= i < |s|
      ensures s[i].Identity() == t[i].Identity()
    {
      assert t[i] == s[i] || t[i] == AssignedAt(s[i], t[i].base);
    }
  }

  lemma AssignsOnce(s: Store, t: Store, u: Store, a: set<nat>, b: set<nat>, c: set<nat>)
    requires Assigns(s, t, a) && Assigns(t, u, b) && a <= c && b <= c
    requires forall i: nat :: i < |s| && u[i] != t[i] ==> t[i] == s[i]
    ensures Assigns(s, u, c)
  {
    forall i | 0 <= i < |s|
      ensures || u[i] == s[i]
              || (i in c && !s[i].flags.fixed && Typed(s[i].flags) && 0 < s[i].size && u[i] == AssignedAt(s[i], u[i].base))
    {
      assert u[i] == t[i] || t[i] == s[i];
    }
  }

  lemma DescendReady(bus: seq<Device>, n: nat, u: Store, v: Store, always4G: bool)
    requires WellFormedOf(bus, u) && n < |bus| && Descended(bus, n, u, v, always4G)
    requires Ready(bus[n], u, always4G)
    ensures Ready(bus[n], v, always4G)
  {
    AssignsIdentity(u, v, IdsOf(bus));
    ReadyFrame(bus[n], u, v, always4G);
  }

  lemma DescendStep(bus: seq<Device>, n: nat, u: Store, v: Store, v': Store, always4G: bool)
    requires WellFormedOf(bus, u) && n < |bus| && Descended(bus, n, u, v, always4G)
    requires Assigns(v, v', IdsOf(bus[n].children)) && AllPlaced(bus[n], v, v', always4G)
    ensures Descended(bus, n + 1, u, v', always4G)
  {
    hide PlacedTree;
    WellFormedOfIsSeparate(bus, u);
    SeparateAt(bus, n);
    ChildIds(bus, n);
    AssignsOnce(u, v, v', IdsOf(bus), IdsOf(bus[n].children), IdsOf(bus));
    forall j | 0 <= j < n + 1 && bus[j].children != []
      ensures AllPlaced(bus[j], u, v', always4G)
    {
      TreeInStore(bus, j, u);
      forall w: Wanted | IsWindowType(w)
        ensures PlacedTree(bus[j], u, v', w, always4G)
      {
        if j < n {
          PlacedTreeFrame(bus[j], u, v, u, v', w, always4G);
        } else {
          PlacedTreeFrame(bus[j], v, v', u, v', w, always4G);
        }
      }
    }
  }

  // Both steps together: the windows of d hold what is behind them, all the way down.
  lemma BridgePlaced(d: Device, s: Store, u: Store, t: Store, w: Wanted, always4G: bool)
    requires Ready(d, s, always4G) && KidsAssigned(d, |d.resources|, s, u)
    requires Descended(d.children, |d.children|, u, t, always4G)
    requires IsWindowType(w)
    ensures PlacedTree(d, s, t, w, always4G)
  {
    hide Inside, EffectiveLimit, IsMultiple, Pow2, WindowReady;
    KidsAreAssigned(d, s, u, always4G);
    WellFormedIsSeparate(d, s);
    forall r: nat | r in d.resources || DirectlyBehind(d.children, r)
      ensures r < |s| && t[r] == u[r]
    {
      DirectIsKept(d, s, u, t, r, always4G);
    }
    forall q: nat | q in d.resources && IsWindow(s, w, q) && t[q].flags.isAssigned
      ensures Holds(d.children, s, t, w, q, always4G)
    {
      KidsHeld(d, s, u, w, q, always4G);
      HoldsFrame(d.children, s, u, t, w, q, always4G);
    }
    forall r: nat | BehindAssigned(d, s, t, w, r)
      ensures IsKid(d.children, s, w, r)
      ensures exists q: nat :: q in d.resources && IsWindow(s, w, q) && t[q].flags.isAssigned
    {
      BehindInIds(d.children, r);
      var q := AssignedByWindow(d, s, u, r, w, always4G);
      assert t[q].flags.isAssigned;
    }
    forall j | 0 <= j < |d.children| && d.children[j].children != []
      ensures PlacedTree(d.children[j], s, t, w, always4G)
    {
      DeepPlaced(d, s, u, t, w, j, always4G);
    }
  }

  lemma DirectIsKept(d: Device, s: Store, u: Store, t: Store, r: nat, always4G: bool)
    requires Ready(d, s, always4G) && |u| == |s|
    requires Descended(d.children, |d.children|, u, t, always4G)
    requires r in d.resources || DirectlyBehind(d.children, r)
    ensures r < |s| && t[r] == u[r]
  {
    WellFormedIsSeparate(d, s);
    if DirectlyBehind(d.children, r) {
      BehindInIds(d.children, r);
    }
    assert r in Ids(d);
    if t[r] != u[r] {
      DeeperIsDeep(d.children, r);
    }
  }

  lemma HoldsFrame(bus: seq<Device>, s: Store, u: Store, t: Store, w: Wanted, q: nat, always4G: bool)
    requires |s| == |u| == |t| && q < |s| && Holds(bus, s, u, w, q, always4G)
    requires t[q] == u[q]
    requires forall r: nat :: DirectlyBehind(bus, r) ==> r < |s| && t[r] == u[r]
    ensures Holds(bus, s, t, w, q, always4G)
  {
    hide EffectiveLimit, IsMultiple, Pow2;
    forall r: nat | IsKid(bus, s, w, r)
      ensures t[r] == u[r]
    {
      OnBusIsBehind(bus, r);
    }
  }

  lemma DeepPlaced(d: Device, s: Store, u: Store, t: Store, w: Wanted, j: nat, always4G: bool)
    requires Ready(d, s, always4G) && KidsAssigned(d, |d.resources|, s, u)
    requires Descended(d.children, |d.children|, u, t, always4G)
    requires IsWindowType(w) && j < |d.children| && d.children[j].children != []
    ensures PlacedTree(d.children[j], s, t, w, always4G)
  {
    hide PlacedTree, WindowReady;
    var c := d.children[j];
    KidsAreAssigned(d, s, u, always4G);
    WellFormedIsSeparate(d, s);
    ChildIds(d.children, j);
    forall i: nat | i in IdsOf(c.children)
      ensures i < |s| && u[i] == s[i]
    {
      assert i in Ids(c);
      DeeperIsNotBehind(d.children, j, i);
      if OnBus(d.children, i) {
        OnBusIsBehind(d.children, i);
      }
    }
    forall i: nat | i in c.resources
      ensures i < |s| && s[i].Identity() == u[i].Identity()
    {
      assert i in Ids(c);
    }
    assert PlacedTree(c, u, t, w, always4G);
    PlacedTreeFrame(c, u, t, s, t, w, always4G);
  }

  // ----- The traversal that assigns the resources behind one window

  // The mask used here includes the fixed flag.
  function WantedExactly(f: Flags): Wanted {
    Wanted(f.kind, Some(f.prefetch), Some(f.fixed))
  }

  lemma AssignTraversal(d: Device, n: nat, s: Store, u: Store, list: seq<nat>, always4G: bool)
    requires Ready(d, s, always4G) && KidsAssigned(d, n, s, u) && n < |d.resources| && d.resources[n] < |s|
    requires var q := s[d.resources[n]].flags;
             q.bridge && s[d.resources[n]].flags.isAssigned && 0 < s[d.resources[n]].size
             && list == SearchOrder(d.children, s, WantedExactly(q))
    ensures NoDuplicates(list) && d.resources[n] !in list
    ensures forall r: nat :: r in list ==> r < |s| && u[r] == s[r]
    ensures forall r: nat :: BehindWindow(d, s, n, r) <==> r in list && 0 < s[r].size && 0 < s[r].limit
  {
    var w := WantedExactly(s[d.resources[n]].flags);
    WellFormedIsSeparate(d, s);
    SearchMembers(d.children, s, w);
    var q := d.resources[n];
    assert !s[q].flags.fixed;
    forall r: nat | r in list
      ensures r < |s| && u[r] == s[r] && r != q
    {
      OnBusInIds(d.children, r);
      forall k: nat | k < n
        ensures !BehindWindow(d, s, k, r)
      {
        if BehindWindow(d, s, k, r) {
          OneOwner(d, s, k, n, r);
        }
      }
    }
  }

  lemma OneOwner(d: Device, s: Store, k: nat, n: nat, r: nat)
    requires WellFormed(d, s) && BehindWindow(d, s, k, r)
    requires n < |d.resources| && d.resources[n] < |s| && s[d.resources[n]].flags.bridge
    requires Matches(s[r].flags, WantedExactly(s[d.resources[n]].flags))
    ensures k == n
  {
    var q, q' := d.resources[n], d.resources[k];
    assert q != q' ==> !SameWindowType(s[q].flags, s[q'].flags);
  }

  lemma WindowsKept(d: Device, n: nat, s: Store, u: Store, always4G: bool)
    requires Ready(d, s, always4G) && KidsAssigned(d, n, s, u)
    ensures forall q: nat :: q in d.resources ==> q < |s| && u[q] == s[q]
    ensures SameIdentity(s, u)
  {
    hide WindowReady;
    forall q: nat | q in d.resources
      ensures q < |s| && u[q] == s[q]
    {
      forall k: nat | k < n
        ensures !BehindWindow(d, s, k, q)
      {
        if OnBus(d.children, q) {
          OnBusInIds(d.children, q);
        }
      }
    }
    forall i: nat | i < |s|
      ensures s[i].Identity() == u[i].Identity()
    {
      if u[i] != s[i] {
        var k: nat :| k < n && BehindWindow(d, s, k, i);
      }
    }
  }

  lemma NotBehind(d: Device, s: Store, n: nat)
    requires n < |d.resources| && d.resources[n] < |s|
    requires var q := s[d.resources[n]]; q.size == 0 || !q.flags.bridge || !q.flags.isAssigned
    ensures forall r: nat :: !BehindWindow(d, s, n, r)
  {
  }

  lemma ReadyIsWellFormed(d: Device, s: Store, always4G: bool)
    requires Ready(d, s, always4G)
    ensures WellFormed(d, s) && WellFormedOf(d.children, s)
  {
  }

  lemma DescendSkip(bus: seq<Device>, n: nat, u: Store, v: Store, always4G: bool)
    requires n < |bus| && Descended(bus, n, u, v, always4G) && bus[n].children == []
    ensures Descended(bus, n + 1, u, v, always4G)
  {
  }

  lemma AllBridgePlaced(d: Device, s: Store, u: Store, t: Store, always4G: bool)
    requires Ready(d, s, always4G) && KidsAssigned(d, |d.resources|, s, u)
    requires Descended(d.children, |d.children|, u, t, always4G)
    ensures Assigns(s, t, IdsOf(d.children)) && AllPlaced(d, s, t, always4G)
  {
    hide Ready, KidsAssigned, PlacedTree;
    KidsAreAssigned(d, s, u, always4G);
    forall i: nat | i < |s| && t[i] != u[i]
      ensures u[i] == s[i]
    {
      if u[i] != s[i] {
        OnBusIsBehind(d.children, i);
        DirectIsKept(d, s, u, t, i, always4G);
      }
    }
    AssignsOnce(s, u, t, IdsOf(d.children), IdsOf(d.children), IdsOf(d.children));
    forall w: Wanted | IsWindowType(w)
      ensures PlacedTree(d, s, t, w, always4G)
    {
      BridgePlaced(d, s, u, t, w, always4G);
    }
  }

  lemma DescendStart(d: Device, s: Store, u: Store, always4G: bool)
    requires Ready(d, s, always4G) && KidsAssigned(d, |d.resources|, s, u)
    ensures WellFormedOf(d.children, u) && Descended(d.children, 0, u, u, always4G)
  {
    hide KidsAssigned;
    KidsAreAssigned(d, s, u, always4G);
    WellFormedOfFrame(d.children, s, u);
  }
}
