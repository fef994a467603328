/**
 What pass 1 of the resource allocator leaves behind: every bridge window is laid out,
 with relative offsets stored in the base fields of the resources behind the bridge.
 */
module WindowLayout {
  import opened Arith
  import opened ResourceTree

  // ----- Assumptions on the tree

  ghost predicate WellFormed(d: Device, store: Store)
    decreases d, 1
  {
    && NoDuplicates(d.resources)
    && (set r | r in d.resources) !! IdsOf(d.children)
    && (forall r: nat :: r in d.resources ==> r < |store| && !store[r].flags.subtractive)
    && (forall r: nat :: r in d.resources && store[r].flags.bridge ==>
          !store[r].flags.fixed && exists w :: IsWindowType(w) && Matches(store[r].flags, w))
    && (forall q: nat, r: nat :: q in d.resources && r in d.resources && q != r ==>
          !SameWindowType(store[q].flags, store[r].flags))
    && WellFormedOf(d.children, store)
  }

  ghost predicate WellFormedOf(bus: seq<Device>, store: Store)
    decreases bus, 0
  {
    bus == [] || (WellFormed(bus[0], store) && Ids(bus[0]) !! IdsOf(bus[1..]) && WellFormedOf(bus[1..], store))
  }

  // The three kinds of window pass 1 gathers requirements for.
  const IO_WINDOW := Wanted(IO, Some(false), None)
  const MEM_WINDOW := Wanted(MEM, Some(false), None)
  const PREFMEM_WINDOW := Wanted(MEM, Some(true), None)

  predicate IsWindowType(w: Wanted) {
    w == IO_WINDOW || w == MEM_WINDOW || w == PREFMEM_WINDOW
  }

  predicate SameWindowType(f: Flags, g: Flags) {
    f.bridge && g.bridge && f.kind == g.kind && f.prefetch == g.prefetch
  }

  lemma {:induction false} WellFormedIsSeparate(d: Device, store: Store)
    requires WellFormed(d, store)
    ensures Separate(d) && InStore(Ids(d), store) && NoSubtractive(Ids(d), store)
    decreases d, 1
  {
    WellFormedOfIsSeparate(d.children, store);
  }

  lemma {:induction false} WellFormedOfIsSeparate(bus: seq<Device>, store: Store)
    requires WellFormedOf(bus, store)
    ensures SeparateOf(bus) && InStore(IdsOf(bus), store) && NoSubtractive(IdsOf(bus), store)
    decreases bus, 0
  {
    if bus != [] {
      WellFormedIsSeparate(bus[0], store);
      WellFormedOfIsSeparate(bus[1..], store);
    }
  }

  lemma {:induction false} WellFormedAt(bus: seq<Device>, store: Store, i: nat)
    requires WellFormedOf(bus, store) && i < |bus|
    ensures WellFormed(bus[i], store)
  {
    if i > 0 {
      WellFormedAt(bus[1..], store, i - 1);
    }
  }

  lemma {:induction false} WellFormedFrame(d: Device, s: Store, t: Store)
    requires WellFormed(d, s) && SameIdentity(s, t)
    ensures WellFormed(d, t)
    decreases d, 1
  {
    forall r: nat | r in d.resources
      ensures r < |t| && t[r].flags == s[r].flags.(isAssigned := t[r].flags.isAssigned, isStored := t[r].flags.isStored)
    {
      assert s[r].Identity() == t[r].Identity();
    }
    WellFormedOfFrame(d.children, s, t);
  }

  lemma {:induction false} WellFormedOfFrame(bus: seq<Device>, s: Store, t: Store)
    requires WellFormedOf(bus, s) && SameIdentity(s, t)
    ensures WellFormedOf(bus, t)
    decreases bus, 0
  {
    if bus != [] {
      WellFormedFrame(bus[0], s, t);
      WellFormedOfFrame(bus[1..], s, t);
    }
  }

  // ----- Layout of one window

  // The resources behind a bridge that a window of the wanted type has to hold.
  ghost predicate IsKid(bus: seq<Device>, store: Store, w: Wanted, r: nat) {
    && r < |store| && OnBus(bus, r)
    && Matches(store[r].flags, w) && !store[r].flags.fixed
    && 0 < store[r].size && 0 < store[r].limit
  }

  ghost predicate IsWindow(store: Store, w: Wanted, r: nat) {
    r < |store| && store[r].flags.bridge && Matches(store[r].flags, w)
  }

  ghost predicate Disjoint(x: Resource, y: Resource) {
    x.base + x.size <= y.base || y.base + y.size <= x.base
  }

  ghost predicate FitsWindow(win: Resource, r: Resource, always4G: bool) {
    && IsMultiple(r.base, Pow2(r.align))
    && r.base + r.size <= win.size
    && r.align <= win.align
    && win.limit <= EffectiveLimit(r, always4G)
  }

  ghost predicate Laid(bus: seq<Device>, store: Store, w: Wanted, win: nat, always4G: bool)
    requires win < |store|
  {
    && (forall r: nat :: IsKid(bus, store, w, r) ==> FitsWindow(store[win], store[r], always4G))
    && (forall q: nat, r: nat :: IsKid(bus, store, w, q) && IsKid(bus, store, w, r) && q != r ==>
          Disjoint(store[q], store[r]))
  }

  ghost predicate InOrder(order: seq<nat>, store: Store) {
    forall i :: 0 <= i < |order| ==> order[i] < |store|
  }

  // Where the next resource may go after the first k of the order have been placed.
  ghost function Cursor(order: seq<nat>, store: Store, k: nat): nat
    requires k <= |order| && InOrder(order, store)
  {
    if k == 0 then 0 else
      var r := store[order[k - 1]];
      AlignUp(Cursor(order, store, k - 1), Pow2(r.align)) + r.size
  }

  ghost predicate Packed(order: seq<nat>, store: Store)
    requires InOrder(order, store)
  {
    forall k :: 0 <= k < |order| ==>
      store[order[k]].base == AlignUp(Cursor(order, store, k), Pow2(store[order[k]].align))
  }

  lemma {:induction false} CursorGrows(order: seq<nat>, store: Store, i: nat, j: nat)
    requires i <= j <= |order| && InOrder(order, store)
    ensures Cursor(order, store, i) <= Cursor(order, store, j)
  {
    hide Pow2, AlignUp;
    if i < j {
      CursorGrows(order, store, i, j - 1);
    }
  }

  // The cursor depends only on the resources already placed, their alignments and sizes.
  lemma {:induction false} CursorFrame(order: seq<nat>, s: Store, order': seq<nat>, t: Store, k: nat)
    requires k <= |order| && k <= |order'| && order[..k] == order'[..k]
    requires InOrder(order, s) && InOrder(order', t) && InOrder(order, t)
    requires forall j :: 0 <= j < k ==> s[order[j]].align == t[order[j]].align && s[order[j]].size == t[order[j]].size
    ensures Cursor(order, s, k) == Cursor(order', t, k)
  {
    if k > 0 {
      assert order[..k - 1] == order[..k][..k - 1] && order'[..k - 1] == order'[..k][..k - 1];
      assert order[k - 1] == order[..k][k - 1] && order'[k - 1] == order'[..k][k - 1];
      CursorFrame(order, s, order', t, k - 1);
    }
  }

  lemma PackedStep(order: seq<nat>, store: Store, i: nat)
    requires InOrder(order, store) && Packed(order, store) && i < |order|
    ensures var r := store[order[i]];
            && IsMultiple(r.base, Pow2(r.align))
            && Cursor(order, store, i) <= r.base
            && Cursor(order, store, i + 1) == r.base + r.size
  {
    hide Pow2, AlignUp, IsMultiple;
  }

  // Packed resources are aligned, below the cursor and pairwise disjoint.
  lemma PackedIsDisjoint(order: seq<nat>, store: Store)
    requires InOrder(order, store) && Packed(order, store)
    ensures forall i :: 0 <= i < |order| ==>
              IsMultiple(store[order[i]].base, Pow2(store[order[i]].align))
              && store[order[i]].base + store[order[i]].size <= Cursor(order, store, |order|)
    ensures forall i, j :: 0 <= i < j < |order| ==> Disjoint(store[order[i]], store[order[j]])
  {
    hide Pow2, IsMultiple, Cursor, Packed;
    forall i | 0 <= i < |order|
      ensures IsMultiple(store[order[i]].base, Pow2(store[order[i]].align))
              && store[order[i]].base + store[order[i]].size <= Cursor(order, store, |order|)
    {
      PackedStep(order, store, i);
      CursorGrows(order, store, i + 1, |order|);
    }
    forall i, j | 0 <= i < j < |order|
      ensures Disjoint(store[order[i]], store[order[j]])
    {
      PackedStep(order, store, i);
      PackedStep(order, store, j);
      CursorGrows(order, store, i + 1, j);
    }
  }

  ghost function SumSizes(order: seq<nat>, store: Store, k: nat): nat
    requires k <= |order| && InOrder(order, store)
  {
    if k == 0 then 0 else SumSizes(order, store, k - 1) + store[order[k - 1]].size
  }

  // In descending alignment, sizes that are multiples of their alignment leave no padding.
  lemma {:induction false} NoPadding(order: seq<nat>, store: Store, k: nat)
    requires k <= |order| && InOrder(order, store)
    requires forall i, j :: 0 <= i < j < |order| ==> store[order[j]].align <= store[order[i]].align
    requires forall i :: 0 <= i < |order| ==> IsMultiple(store[order[i]].size, Pow2(store[order[i]].align))
    ensures Cursor(order, store, k) == SumSizes(order, store, k)
    ensures k < |order| ==> IsMultiple(Cursor(order, store, k), Pow2(store[order[k]].align))
  {
    hide Pow2, AlignUp, IsMultiple;
    if k == 0 {
      if 0 < |order| {
        ZeroIsMultiple(Pow2(store[order[0]].align));
      }
    } else {
      NoPadding(order, store, k - 1);
      var r := store[order[k - 1]];
      MultipleSum(Cursor(order, store, k - 1), r.size, Pow2(r.align));
      if k < |order| {
        MultiplePow2(Cursor(order, store, k), r.align, store[order[k]].align);
      }
    }
  }

  // ----- Layout of a whole bridge tree

  // Every window of the type is laid out, here and, below an existing window, in every bridge further down.
  ghost predicate Computed(d: Device, store: Store, w: Wanted, always4G: bool)
    decreases d
  {
    forall win: nat :: win in d.resources && IsWindow(store, w, win) ==>
      && Laid(d.children, store, w, win, always4G)
      && forall i :: 0 <= i < |d.children| && d.children[i].children != [] ==> Computed(d.children[i], store, w, always4G)
  }

  // Only the base and the flags tied to it differ.
  ghost predicate SameButBase(x: Resource, y: Resource) {
    y == x.(base := y.base, flags := x.flags.(isAssigned := y.flags.isAssigned, isStored := y.flags.isStored))
  }

  // Besides the base, the limit may have shrunk, as it does when a resource is assigned.
  ghost predicate SameButPlace(x: Resource, y: Resource) {
    && y == x.(base := y.base, limit := y.limit, flags := x.flags.(isAssigned := y.flags.isAssigned, isStored := y.flags.isStored))
    && y.limit <= x.limit
  }

  lemma {:induction false} ComputedFrame(d: Device, s: Store, t: Store, w: Wanted, always4G: bool)
    requires SameIdentity(s, t) && WellFormed(d, s)
    requires forall r: nat :: r in d.resources && IsWindow(s, w, r) ==> SameButPlace(s[r], t[r])
    requires forall r: nat :: r in IdsOf(d.children) && r < |s| && Matches(s[r].flags, w) ==> s[r] == t[r]
    requires Computed(d, s, w, always4G)
    ensures Computed(d, t, w, always4G)
    decreases d
  {
    forall win: nat | win in d.resources && IsWindow(t, w, win)
      ensures && Laid(d.children, t, w, win, always4G)
              && forall i :: 0 <= i < |d.children| && d.children[i].children != [] ==> Computed(d.children[i], t, w, always4G)
    {
      assert s[win].Identity() == t[win].Identity();
      assert IsWindow(s, w, win);
      LaidFrame(d.children, s, t, w, win, always4G);
      forall i | 0 <= i < |d.children| && d.children[i].children != []
        ensures Computed(d.children[i], t, w, always4G)
      {
        ChildIds(d.children, i);
        WellFormedAt(d.children, s, i);
        assert forall r: nat :: r in d.children[i].resources ==> r in Ids(d.children[i]);
        ComputedFrame(d.children[i], s, t, w, always4G);
      }
    }
  }

  lemma LaidFrame(bus: seq<Device>, s: Store, t: Store, w: Wanted, win: nat, always4G: bool)
    requires SameIdentity(s, t) && win < |s|
    requires SameButPlace(s[win], t[win])
    requires forall r: nat :: r in IdsOf(bus) && r < |s| && Matches(s[r].flags, w) ==> s[r] == t[r]
    requires Laid(bus, s, w, win, always4G)
    ensures Laid(bus, t, w, win, always4G)
  {
    forall r: nat | IsKid(bus, t, w, r)
      ensures IsKid(bus, s, w, r) && s[r] == t[r]
    {
      OnBusInIds(bus, r);
      assert s[r].Identity() == t[r].Identity();
    }
  }

  // ----- How pass 1 may change a resource

  ghost predicate Pass1Change(x: Resource, y: Resource) {
    && x.Identity() == y.Identity()
    && (y.flags.isAssigned ==> x.flags.isAssigned)
    && (x.flags.fixed ==> x == y)
    && x.align <= y.align && y.limit <= x.limit
    && (!x.flags.bridge ==> y.size == x.size && y.limit == x.limit && y.align == x.align)
  }

  ghost predicate Pass1Changes(s: Store, t: Store) {
    |s| == |t| && forall i :: 0 <= i < |s| ==> Pass1Change(s[i], t[i])
  }

  lemma Pass1Transitive(s: Store, t: Store, u: Store)
    requires Pass1Changes(s, t) && Pass1Changes(t, u)
    ensures Pass1Changes(s, u)
  {
    forall i | 0 <= i < |s|
      ensures Pass1Change(s[i], u[i])
    {
      assert Pass1Change(s[i], t[i]) && Pass1Change(t[i], u[i]);
    }
  }

  lemma Pass1KeepsIdentity(s: Store, t: Store)
    requires Pass1Changes(s, t)
    ensures SameIdentity(s, t)
  {
    forall i | 0 <= i < |s|
      ensures s[i].Identity() == t[i].Identity()
    {
      assert Pass1Change(s[i], t[i]);
    }
  }

  // The limit a resource had before pass 1 bounds the one it has after it.
  lemma Pass1Limit(x: Resource, y: Resource, always4G: bool)
    requires Pass1Change(x, y)
    ensures EffectiveLimit(y, always4G) <= EffectiveLimit(x, always4G)
  {
    assert x.flags.bridge == y.flags.bridge && x.flags.pci64 == y.flags.pci64 && x.flags.above4G == y.flags.above4G;
  }
}
