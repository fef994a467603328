/** The two-pass resource allocator (resource_allocator_v4.c) over one domain. */
module ResourceAllocator {
  import opened Arith
  import opened ResourceTree
  import opened Largest
  import opened WindowLayout
  import opened WindowLoop
  import opened WindowTree
  import opened Placement
  import opened DomainTree
  import opened MemRange
  import opened SafeAllocation

  class Allocator {
    var store: Store
    const always4G: bool   // CONFIG(ALWAYS_ALLOW_ABOVE_4G_ALLOCATION)
    const topDown: bool    // CONFIG(RESOURCE_ALLOCATION_TOP_DOWN)

    constructor (store: Store, always4G: bool, topDown: bool)
      ensures this.store == store && this.always4G == always4G && this.topDown == topDown
    {
      this.store := store;
      this.always4G := always4G;
      this.topDown := topDown;
    }

    method LargestOnBus(bus: seq<Device>, last: Option<nat>, w: Wanted) returns (result: Option<nat>)
      requires ValidList(SearchOrder(bus, store, w), store)
      requires last.Some? ==> last.value in SearchOrder(bus, store, w)
      ensures IsNext(SearchOrder(bus, store, w), store, last, result)
    {
      result := LargestResource(SearchOrder(bus, store, w), store, last);
    }

    // update_bridge_resource
    method UpdateBridgeResource(bridge: Device, win: nat, w: Wanted) returns (ghost order: seq<nat>)
      requires WellFormed(bridge, store) && win in bridge.resources && IsWindow(store, w, win)
      modifies this`store
      ensures WindowDone(SearchOrder(bridge.children, old(store), w), old(store), store, win, order, always4G)
      ensures forall r: nat :: r in order <==> IsKid(bridge.children, old(store), w, r)
      ensures Laid(bridge.children, store, w, win, always4G)
      ensures Pass1Changes(old(store), store)
    {
      hide WellFormed, WindowDone, LoopState, Laid, IsKid, Pass1Changes, IsNext, Remaining, Placeable;
      ghost var s := store;
      ghost var list := SearchOrder(bridge.children, s, w);
      order := [];
      BeforeLoop(bridge, s, w, win, always4G);
      var base: nat := 0;
      var last: Option<nat> := None;
      while true
        invariant LoopState(list, s, store, win, last, order, base, always4G)
        decreases Remaining'(list, s, last)
      {
        UnderLoop(bridge, s, store, w, win, last, order, base, always4G);
        var child := LargestOnBus(bridge.children, last, w);
        NextInList(list, s, store, win, last, order, base, always4G, child);
        if child == None {
          break;
        }
        var r := child.value;
        if store[r].size == 0 || store[r].limit == 0 {
          SkipStep(list, s, store, win, last, order, base, always4G, r);
          last := child;
          continue;
        }
        ghost var t := store;
        ghost var base0 := base;
        store := store[win := Grown(store[win], store[r], always4G)];
        base := AlignUp(base, Pow2(store[r].align));
        store := store[r := PlacedAt(store[r], base)];
        base := base + store[r].size;
        PlaceStep(list, s, t, win, last, order, base0, always4G, r, store);
        order := order + [r];
        last := child;
      }
      ghost var t := store;
      store := store[win := store[win].(size := AlignUp(base, Pow2(store[win].gran)))];
      AfterLoop(bridge, s, t, w, win, last, order, base, always4G, store);
    }

    // The loop of compute_bridge_resources over the devices behind a bridge.
    method ComputeChildren(bridge: Device, w: Wanted)
      requires WellFormed(bridge, store) && w.prefetch.Some?
      modifies this`store
      ensures Touches(old(store), store, w, IdsOf(bridge.children))
      ensures BelowComputed(bridge.children, |bridge.children|, store, w, always4G)
      decreases bridge, 0
    {
      hide WellFormed, WellFormedOf, Touches, Pass1Done, Computed;
      ghost var s := store;
      TouchesRefl(s, w);
      TouchesTrans(s, s, s, w, {}, {}, IdsOf(bridge.children));
      var j := 0;
      while j < |bridge.children|
        invariant 0 <= j <= |bridge.children|
        invariant Touches(s, store, w, IdsOf(bridge.children))
        invariant BelowComputed(bridge.children, j, store, w, always4G)
      {
        var child := bridge.children[j];
        if child.children != [] {
          ghost var t := store;
          ChildReady(bridge, s, t, w, j);
          ComputeBridgeResources(child, w);
          ChildDone(bridge, s, t, store, w, j, always4G);
        }
        j := j + 1;
      }
    }

    // compute_bridge_resources
    method ComputeBridgeResources(bridge: Device, w: Wanted)
      requires WellFormed(bridge, store) && w.prefetch.Some?
      modifies this`store
      ensures Pass1Done(bridge, old(store), store, w, always4G)
      decreases bridge, 1
    {
      hide Touches, WindowDone, Laid, IsKid, BelowComputed;
      ghost var s := store;
      TouchesRefl(s, w);
      TouchesTrans(s, s, s, w, {}, {}, Ids(bridge));
      ghost var found := false;
      var i := 0;
      while i < |bridge.resources|
        invariant 0 <= i <= |bridge.resources|
        invariant found ==> Pass1Done(bridge, s, store, w, always4G)
        invariant found ==> exists k :: 0 <= k < i && IsWindow(s, w, bridge.resources[k])
        invariant !found ==> store == s && forall k :: 0 <= k < i ==> !IsWindow(s, w, bridge.resources[k])
      {
        var win := bridge.resources[i];
        assert win in bridge.resources;
        if found {
          StillWellFormed(bridge, s, store, w, Ids(bridge));
        }
        if store[win].flags.bridge && Matches(store[win].flags, w) {
          FirstWindow(bridge, s, w, i);
          assert !found;
          ComputeChildren(bridge, w);
          ghost var t := store;
          StillWellFormed(bridge, s, t, w, IdsOf(bridge.children));
          ghost var order := UpdateBridgeResource(bridge, win, w);
          BridgeStep(bridge, s, t, store, w, win, order, always4G);
          found := true;
        }
        i := i + 1;
      }
    }

    // assign_resource_cb on every resource the traversal finds
    method AssignBehind(bus: seq<Device>, win: nat, w: Wanted)
      requires win < |store|
      requires var list := SearchOrder(bus, store, w);
               NoDuplicates(list) && win !in list && forall r: nat :: r in list ==> r < |store|
      modifies this`store
      ensures |store| == |old(store)|
      ensures var list := SearchOrder(bus, old(store), w);
              forall r: nat :: r < |store| ==>
                store[r] == if r in list && 0 < old(store)[r].size && 0 < old(store)[r].limit
                            then AssignedAt(old(store)[r], old(store)[win].base + old(store)[r].base) else old(store)[r]
    {
      hide AssignedAt;
      var list := SearchOrder(bus, store, w);
      ghost var s := store;
      var i := 0;
      while i < |list|
        invariant 0 <= i <= |list| && |store| == |s|
        invariant forall r: nat :: r < |s| ==>
                    store[r] == if r in list[..i] && 0 < s[r].size && 0 < s[r].limit
                                then AssignedAt(s[r], s[win].base + s[r].base) else s[r]
      {
        var r := list[i];
        assert r in list;
        assert r !in list[..i];
        assert list[..i + 1] == list[..i] + [r];
        assert win !in list[..i];
        if store[r].size != 0 && store[r].limit != 0 {
          store := store[r := AssignedAt(store[r], store[win].base + store[r].base)];
        }
        i := i + 1;
      }
      assert list[..i] == list;
    }

    // The loop of allocate_bridge_resources over the windows of a bridge.
    method AssignWindows(bridge: Device)
      requires Ready(bridge, store, always4G)
      modifies this`store
      ensures KidsAssigned(bridge, |bridge.resources|, old(store), store)
    {
      hide Ready, AssignedAt, BehindWindow;
      ghost var s := store;
      ReadyIsWellFormed(bridge, s, always4G);
      var i := 0;
      while i < |bridge.resources|
        invariant 0 <= i <= |bridge.resources|
        invariant KidsAssigned(bridge, i, s, store)
      {
        hide KidsAssigned;
        var q := bridge.resources[i];
        assert q in bridge.resources;
        WindowsKept(bridge, i, s, store, always4G);
        ghost var u := store;
        if store[q].size != 0 && store[q].flags.bridge && store[q].flags.isAssigned {
          ghost var list := SearchOrder(bridge.children, s, WantedExactly(s[q].flags));
          AssignTraversal(bridge, i, s, u, list, always4G);
          SearchOrderFrame(bridge.children, s, u, WantedExactly(s[q].flags));
          AssignBehind(bridge.children, q, WantedExactly(store[q].flags));
        } else {
          NotBehind(bridge, s, i);
        }
        KidsAssignedStep(bridge, i, s, u, store);
        i := i + 1;
      }
    }

    // allocate_bridge_resources
    method AllocateBridgeResources(bridge: Device)
      requires Ready(bridge, store, always4G)
      modifies this`store
      ensures Assigns(old(store), store, IdsOf(bridge.children))
      ensures AllPlaced(bridge, old(store), store, always4G)
      decreases bridge
    {
      hide Ready, KidsAssigned, AllPlaced, Assigns, Descended;
      ghost var s := store;
      AssignWindows(bridge);
      ghost var u := store;
      DescendStart(bridge, s, u, always4G);
      var j := 0;
      while j < |bridge.children|
        invariant 0 <= j <= |bridge.children|
        invariant Descended(bridge.children, j, u, store, always4G)
      {
        ghost var v := store;
        var child := bridge.children[j];
        if child.children != [] {
          ChildIsReady(bridge, s, u, j, always4G);
          DescendReady(bridge.children, j, u, v, always4G);
          AllocateBridgeResources(child);
          DescendStep(bridge.children, j, u, v, store, always4G);
        } else {
          DescendSkip(bridge.children, j, u, v, always4G);
        }
        j := j + 1;
      }
      AllBridgePlaced(bridge, s, u, store, always4G);
    }

    // compute_domain_resources
    method ComputeDomainResources(domain: Device)
      requires WellFormedOf(domain.children, store)
      modifies this`store
      ensures WellFormedOf(domain.children, store)
      ensures ChangesOnly(old(store), store, IdsOf(domain.children))
      ensures AllComputed(domain.children, |domain.children|, store, always4G)
    {
      hide WellFormedOf, WellFormed, Pass1Done, Computed, Pass1Change;
      ghost var s := store;
      ChangesNothing(s, IdsOf(domain.children));
      var j := 0;
      while j < |domain.children|
        invariant 0 <= j <= |domain.children|
        invariant WellFormedOf(domain.children, store)
        invariant ChangesOnly(s, store, IdsOf(domain.children))
        invariant AllComputed(domain.children, j, store, always4G)
      {
        hide ChangesOnly, AllComputed;
        var child := domain.children[j];
        if child.children != [] {
          ghost var t0 := store;
          WellFormedAt(domain.children, store, j);
          ComputeBridgeResources(child, IO_WINDOW);
          ghost var t1 := store;
          AfterType(domain.children, j, t0, t1, IO_WINDOW, always4G);
          ComputeBridgeResources(child, MEM_WINDOW);
          ghost var t2 := store;
          AfterType(domain.children, j, t1, t2, MEM_WINDOW, always4G);
          ComputeBridgeResources(child, PREFMEM_WINDOW);
          ThreeTypes(domain.children, j, s, t0, t1, t2, store, always4G);
        } else {
          NoChildren(domain.children, j, store, always4G);
        }
        j := j + 1;
      }
    }

    // avoid_fixed_resources
    method AvoidFixedResources(ranges: MemRanges, dev: Device, kind: TypeBits)
      requires ranges.Valid() && ranges.align == Granularity(kind) && InStore(Ids(dev), store)
      modifies ranges`entries
      ensures ranges.Valid()
      ensures forall a: int {:trigger Covered(ranges.entries, a)} ::
                Covered(ranges.entries, a) <==> Covered(old(ranges.entries), a) && !Blocked(Ids(dev), store, kind, a)
      decreases dev
    {
      hide Covered, InBlock, Sorted;
      ghost var start := ranges.entries;
      ghost var done: set<nat> := {};
      BlockedNone(store, kind);
      var i := 0;
      while i < |dev.resources|
        invariant 0 <= i <= |dev.resources| && ranges.Valid()
        invariant done == set r | r in dev.resources[..i]
        invariant forall a: int {:trigger Covered(ranges.entries, a)} ::
                    Covered(ranges.entries, a) <==> Covered(start, a) && !Blocked(done, store, kind, a)
      {
        var r := dev.resources[i];
        assert r in Ids(dev);
        ghost var before := ranges.entries;
        if IsFixed(store[r], kind) {
          ranges.CreateHole(store[r].base, store[r].size);
        }
        forall a: int
          ensures Covered(ranges.entries, a) <==> Covered(start, a) && !Blocked(done + {r}, store, kind, a)
        {
          HoleStep(ranges.entries, before, start, done, r, store, kind, a);
        }
        assert dev.resources[..i + 1] == dev.resources[..i] + [r];
        done := done + {r};
        i := i + 1;
      }
      assert dev.resources[..i] == dev.resources;
      var j := 0;
      ghost var below: set<nat> := {};
      while j < |dev.children|
        invariant 0 <= j <= |dev.children| && ranges.Valid()
        invariant below + IdsOf(dev.children[j..]) == IdsOf(dev.children)
        invariant forall a: int {:trigger Covered(ranges.entries, a)} ::
                    Covered(ranges.entries, a) <==> Covered(start, a) && !Blocked(done + below, store, kind, a)
      {
        ghost var before := ranges.entries;
        ChildIds(dev.children, j);
        assert dev.children[j..][1..] == dev.children[j + 1..];
        AvoidFixedResources(ranges, dev.children[j], kind);
        forall a: int
          ensures Covered(ranges.entries, a) <==> Covered(start, a) && !Blocked(done + (below + Ids(dev.children[j])), store, kind, a)
        {
          BlockedSplit(done + below, Ids(dev.children[j]), store, kind, a);
          assert done + below + Ids(dev.children[j]) == done + (below + Ids(dev.children[j]));
          assert Covered(before, a) <==> Covered(start, a) && !Blocked(done + below, store, kind, a);
        }
        below := below + Ids(dev.children[j]);
        j := j + 1;
      }
      assert done + below == Ids(dev);
    }

    // setup_resource_ranges
    method SetupResourceRanges(domain: Device, kind: TypeBits) returns (ranges: MemRanges)
      requires InStore(Ids(domain), store) && (kind == IO || kind == MEM)
      ensures fresh(ranges) && ranges.Valid() && ranges.align == Granularity(kind)
      ensures forall a: int {:trigger Covered(ranges.entries, a)} ::
                Covered(ranges.entries, a) <==> Allowed(domain, store, kind, a)
    {
      hide Covered, InBlock, Sorted, Blocked;
      ranges := new MemRanges(Granularity(kind));
      CoveredNone(ranges.entries);
      var i := 0;
      while i < |domain.resources|
        invariant 0 <= i <= |domain.resources| && ranges.Valid()
        invariant forall a: int {:trigger Covered(ranges.entries, a)} ::
                    Covered(ranges.entries, a) <==> Offered(domain.resources, i, store, kind, a)
      {
        var r := domain.resources[i];
        assert r in Ids(domain);
        ghost var before := ranges.entries;
        if IsDomainWindow(store[r].flags, kind) {
          ranges.Insert(store[r].base, WindowSize(store[r]));
        }
        forall a: int
          ensures Covered(ranges.entries, a) <==> Offered(domain.resources, i + 1, store, kind, a)
        {
          OfferStep(ranges.entries, before, domain.resources, i, store, kind, a);
        }
        i := i + 1;
      }
      ghost var offered := ranges.entries;
      if kind == IO {
        ranges.CreateHole(VGA_BASE, VGA_SIZE);
      }
      ghost var holed := ranges.entries;
      assert forall a: int {:trigger Covered(holed, a)} ::
          Covered(holed, a) <==> Covered(offered, a) && !(kind == IO && InBlock(Granularity(kind), VGA_BASE, VGA_SIZE, a)) by {
        forall a: int
          ensures Covered(holed, a) <==> Covered(offered, a) && !(kind == IO && InBlock(Granularity(kind), VGA_BASE, VGA_SIZE, a))
        {
          VgaStep(holed, offered, kind, a);
        }
      }
      AvoidFixedResources(ranges, domain, kind);
    }

    // allocate_toplevel_resources
    method AllocateToplevelResources(domain: Device, kind: TypeBits)
      requires InStore(Ids(domain), store) && (kind == IO || kind == MEM)
      requires SeparateOf(domain.children) && NoSubtractive(IdsOf(domain.children), store)
      modifies this`store
      requires Unplaced(domain, store, kind)
      ensures var list := SearchOrder(domain.children, old(store), AnyPrefetch(kind));
              && TopPlaced(domain, list, old(store), store, kind, always4G)
              && TopFull(domain, list, old(store), store, kind, always4G)
    {
      hide Allowed, Covered, Remaining, TopPlaced, TopLoop, TopFull, Unplaced, EffectiveLimit, Merged, RoomAt, IsMultiple, AlignUp, AlignDown, Pow2;
      ghost var s := store;
      ghost var list := SearchOrder(domain.children, s, AnyPrefetch(kind));
      TopListValid(domain, s, kind);
      if domain.children == [] {
        TopNothing(domain, list, s, kind, always4G);
        return;
      }
      var ranges := SetupResourceRanges(domain, kind);
      TopStart(domain, list, s, ranges.entries, kind, always4G);
      var last: Option<nat> := None;
      while true
        invariant ranges.Valid() && fresh(ranges)
        invariant TopLoop(domain, list, s, store, last, ranges.entries, kind, always4G)
        decreases Remaining'(list, s, last)
      {
        TopUnder(domain, list, s, store, last, ranges.entries, kind, always4G);
        var next := LargestOnBus(domain.children, last, AnyPrefetch(kind));
        TopNext(domain, list, s, store, last, ranges.entries, kind, always4G, next);
        if next == None {
          break;
        }
        var r := next.value;
        ghost var t, before := store, ranges.entries;
        TopSkip(domain, list, s, t, last, before, kind, always4G, r);
        TopUnassigned(domain, s, kind, r);
        if store[r].size != 0 {
          var ok, base := ranges.Steal(EffectiveLimit(store[r], always4G), store[r].size, store[r].align, topDown);
          if ok {
            store := store[r := AssignedAt(store[r], base)];
            TopStep(domain, list, s, t, last, before, kind, always4G, r, base, store, ranges.entries);
          }
        }
        last := next;
      }
      TopEnd(domain, list, s, store, last, ranges.entries, kind, always4G);
    }

    // allocate_domain_resources
    method AllocateDomainResources(domain: Device) returns (ghost t: Store)
      requires StartOk(domain, store) && AllComputed(domain.children, |domain.children|, store, always4G)
      modifies this`store
      ensures TopBoth(domain, old(store), t, always4G) && SameIdentity(old(store), t)
      ensures WellFormedOf(domain.children, t)
      ensures Descended(domain.children, |domain.children|, t, store, always4G)
    {
      hide StartOk, AllComputed, TopPlaced, TopFull, Unplaced, TopBoth, Descended, WellFormedOf, Ready, AllPlaced;
      ghost var s := store;
      StartFacts(domain, s);
      StartKept(domain, s, s);
      AllocateToplevelResources(domain, IO);
      ghost var m := store;
      TopKeeps(domain, s, m, IO, always4G);
      StartKept(domain, s, m);
      StillUnplaced(domain, s, m);
      AllocateToplevelResources(domain, MEM);
      t := store;
      TopCombine(domain, s, m, t, always4G);
      StartKept(domain, s, t);
      DescendNothing(domain.children, t, always4G);
      var j := 0;
      while j < |domain.children|
        invariant 0 <= j <= |domain.children|
        invariant Descended(domain.children, j, t, store, always4G)
      {
        ghost var v := store;
        var child := domain.children[j];
        if child.children != [] {
          TopReady(domain, s, t, j, always4G);
          DescendReady(domain.children, j, t, v, always4G);
          AllocateBridgeResources(child);
          DescendStep(domain.children, j, t, v, store, always4G);
        } else {
          DescendSkip(domain.children, j, t, v, always4G);
        }
        j := j + 1;
      }
    }

    /** allocate_resources for one domain: both passes. */
    method AllocateResources(domain: Device)
      requires StartOk(domain, store)
      modifies this`store
      ensures Safe(domain, old(store), store, always4G)
    {
      hide StartOk, AllComputed, ChangesOnly, TopBoth, Descended, WellFormedOf, Safe;
      ghost var s0 := store;
      StartFacts(domain, s0);
      ComputeDomainResources(domain);
      ghost var s := store;
      StartAfterPass1(domain, s0, s);
      ghost var t := AllocateDomainResources(domain);
      RunIsSafe(domain, s0, s, t, store, always4G);
    }
  }
}
