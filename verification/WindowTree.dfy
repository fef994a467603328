/** Pass 1 over a bridge tree: what one recursive call may touch, and why earlier layouts survive later calls. */
module WindowTree {
  import opened Arith
  import opened ResourceTree
  import opened Largest
  import opened WindowLayout
  import opened WindowLoop

  // Only resources of the wanted type in a set of ids change, in the ways pass 1 may change them.
  ghost predicate Touches(s: Store, t: Store, w: Wanted, ids: set<nat>) {
    && Pass1Changes(s, t)
    && forall i :: 0 <= i < |s| && !(i in ids && Matches(s[i].flags, w)) ==> t[i] == s[i]
  }

  // A bridge's own resources keep everything but what a window asks for.
  ghost predicate KeepsBases(s: Store, t: Store, list: seq<nat>) {
    |s| == |t| && forall r: nat :: r in list && r < |s| ==> t[r].base == s[r].base && t[r].flags == s[r].flags
  }

  ghost predicate BelowComputed(bus: seq<Device>, n: nat, store: Store, w: Wanted, always4G: bool) {
    n <= |bus| && forall j :: 0 <= j < n && bus[j].children != [] ==> Computed(bus[j], store, w, always4G)
  }

  // The contract of compute_bridge_resources.
  ghost predicate Pass1Done(d: Device, s: Store, t: Store, w: Wanted, always4G: bool) {
    && Touches(s, t, w, Ids(d))
    && KeepsBases(s, t, d.resources)
    && Computed(d, t, w, always4G)
  }

  lemma TouchesRefl(s: Store, w: Wanted)
    ensures Touches(s, s, w, {})
  {
  }

  lemma TouchesTrans(s: Store, t: Store, u: Store, w: Wanted, a: set<nat>, b: set<nat>, c: set<nat>)
    requires Touches(s, t, w, a) && Touches(t, u, w, b) && a <= c && b <= c
    ensures Touches(s, u, w, c)
  {
    Pass1Transitive(s, t, u);
    forall i | 0 <= i < |s| && !(i in c && Matches(s[i].flags, w))
      ensures u[i] == s[i]
    {
      assert t[i] == s[i];
    }
  }

  lemma OthersUntouched(d: Device, s: Store, t: Store, w: Wanted, ids: set<nat>, always4G: bool)
    requires WellFormed(d, s) && Computed(d, s, w, always4G)
    requires Touches(s, t, w, ids) && ids !! Ids(d)
    ensures Computed(d, t, w, always4G)
  {
    Pass1KeepsIdentity(s, t);
    WellFormedIsSeparate(d, s);
    assert forall r: nat :: r in d.resources ==> r in Ids(d);
    assert forall r: nat :: r in Ids(d) && r < |s| ==> t[r] == s[r];
    ComputedFrame(d, s, t, w, always4G);
  }

  // One more child subtree is computed; the layouts of the earlier ones stay.
  lemma ChildStep(bus: seq<Device>, j: nat, s: Store, t: Store, w: Wanted, always4G: bool)
    requires WellFormedOf(bus, s) && j < |bus|
    requires BelowComputed(bus, j, s, w, always4G)
    requires Pass1Done(bus[j], s, t, w, always4G)
    ensures BelowComputed(bus, j + 1, t, w, always4G)
  {
    WellFormedOfIsSeparate(bus, s);
    forall i | 0 <= i < j && bus[i].children != []
      ensures Computed(bus[i], t, w, always4G)
    {
      SeparateAt(bus, i);
      WellFormedAt(bus, s, i);
      OthersUntouched(bus[i], s, t, w, Ids(bus[j]), always4G);
    }
  }

  // Placing the resources behind a bridge does not disturb the windows further down.
  lemma UpdateKeepsBelow(bridge: Device, s: Store, t: Store, w: Wanted, win: nat, order: seq<nat>, j: nat, always4G: bool)
    requires WellFormed(bridge, s) && win in bridge.resources
    requires OnlyPlaced(s, t, win, order) && Pass1Changes(s, t)
    requires forall r: nat :: r in order ==> OnBus(bridge.children, r)
    requires j < |bridge.children| && Computed(bridge.children[j], s, w, always4G)
    ensures Computed(bridge.children[j], t, w, always4G)
  {
    var bus, d := bridge.children, bridge.children[j];
    WellFormedIsSeparate(bridge, s);
    WellFormedAt(bus, s, j);
    WellFormedIsSeparate(d, s);
    SeparateAt(bus, j);
    ChildIds(bus, j);
    Pass1KeepsIdentity(s, t);
    forall r: nat | r in d.resources
      ensures r < |s| && SameButBase(s[r], t[r])
    {
      assert r in Ids(d) && r != win;
      assert r in order || t[r] == s[r];
    }
    forall r: nat | r in IdsOf(d.children) && r < |s|
      ensures s[r] == t[r]
    {
      assert r in Ids(d) && r != win;
      if r in order {
        DeeperIsNotOnBus(bus, j, r);
      }
    }
    ComputedFrame(d, s, t, w, always4G);
  }

  lemma DeeperIsNotOnBus(bus: seq<Device>, j: nat, r: nat)
    requires SeparateOf(bus) && j < |bus| && r in IdsOf(bus[j].children)
    ensures !OnBus(bus, r)
  {
    if OnBus(bus, r) {
      var i :| 0 <= i < |bus| && bus[i].enabled && r in bus[i].resources;
      assert r in Ids(bus[i]) && r in Ids(bus[j]);
      SeparateAt(bus, j);
    }
  }

  lemma UpdateKeepsAllBelow(bridge: Device, s: Store, t: Store, w: Wanted, win: nat, order: seq<nat>, always4G: bool)
    requires WellFormed(bridge, s) && win in bridge.resources
    requires OnlyPlaced(s, t, win, order) && Pass1Changes(s, t)
    requires forall r: nat :: r in order ==> OnBus(bridge.children, r)
    requires BelowComputed(bridge.children, |bridge.children|, s, w, always4G)
    ensures BelowComputed(bridge.children, |bridge.children|, t, w, always4G)
  {
    forall j | 0 <= j < |bridge.children| && bridge.children[j].children != []
      ensures Computed(bridge.children[j], t, w, always4G)
    {
      UpdateKeepsBelow(bridge, s, t, w, win, order, j, always4G);
    }
  }

  lemma UpdateTouches(bridge: Device, s: Store, t: Store, w: Wanted, win: nat, order: seq<nat>)
    requires WellFormed(bridge, s) && win in bridge.resources && IsWindow(s, w, win)
    requires OnlyPlaced(s, t, win, order) && Pass1Changes(s, t)
    requires forall r: nat :: r in order <==> IsKid(bridge.children, s, w, r)
    ensures Touches(s, t, w, Ids(bridge)) && KeepsBases(s, t, bridge.resources)
  {
    forall r: nat | r in order
      ensures r in IdsOf(bridge.children)
    {
      OnBusInIds(bridge.children, r);
    }
    forall i | 0 <= i < |s| && !(i in Ids(bridge) && Matches(s[i].flags, w))
      ensures t[i] == s[i]
    {
      assert i !in order && i != win;
    }
  }

  lemma KeepsBasesBelow(d: Device, s: Store, t: Store, w: Wanted)
    requires WellFormed(d, s) && Touches(s, t, w, IdsOf(d.children))
    ensures KeepsBases(s, t, d.resources)
  {
  }

  // At most one window of a type per bridge: the one found is the only one.
  lemma OnlyWindow(d: Device, s: Store, w: Wanted, win: nat, q: nat)
    requires WellFormed(d, s) && w.prefetch.Some?
    requires win in d.resources && IsWindow(s, w, win)
    requires q in d.resources && IsWindow(s, w, q)
    ensures q == win
  {
    assert q != win ==> !SameWindowType(s[q].flags, s[win].flags);
  }

  lemma WindowComputed(bridge: Device, t: Store, w: Wanted, win: nat, always4G: bool)
    requires WellFormed(bridge, t) && w.prefetch.Some?
    requires win in bridge.resources && IsWindow(t, w, win)
    requires Laid(bridge.children, t, w, win, always4G)
    requires BelowComputed(bridge.children, |bridge.children|, t, w, always4G)
    ensures Computed(bridge, t, w, always4G)
  {
    forall q: nat | q in bridge.resources && IsWindow(t, w, q)
      ensures q == win
    {
      OnlyWindow(bridge, t, w, win, q);
    }
  }

  // The window of a bridge is computed after everything below it.
  lemma BridgeStep(bridge: Device, s: Store, t: Store, u: Store, w: Wanted, win: nat, order: seq<nat>, always4G: bool)
    requires WellFormed(bridge, s) && w.prefetch.Some?
    requires Touches(s, t, w, IdsOf(bridge.children))
    requires WellFormed(bridge, t) && win in bridge.resources && IsWindow(t, w, win)
    requires BelowComputed(bridge.children, |bridge.children|, t, w, always4G)
    requires WindowDone(SearchOrder(bridge.children, t, w), t, u, win, order, always4G)
    requires forall r: nat :: r in order <==> IsKid(bridge.children, t, w, r)
    requires Laid(bridge.children, u, w, win, always4G) && Pass1Changes(t, u)
    ensures Pass1Done(bridge, s, u, w, always4G)
  {
    hide Laid, Computed, Placeable, Inherits, Packed, Cursor, AlignUp, Pow2, SearchOrder;
    UpdateTouches(bridge, t, u, w, win, order);
    KeepsBasesBelow(bridge, s, t, w);
    UpdateKeepsAllBelow(bridge, t, u, w, win, order, always4G);
    TouchesTrans(s, t, u, w, IdsOf(bridge.children), Ids(bridge), Ids(bridge));
    Pass1KeepsIdentity(t, u);
    WellFormedFrame(bridge, t, u);
    assert IsWindow(u, w, win);
    WindowComputed(bridge, u, w, win, always4G);
  }

  lemma StillWellFormed(d: Device, s: Store, t: Store, w: Wanted, ids: set<nat>)
    requires WellFormed(d, s) && Touches(s, t, w, ids)
    ensures WellFormed(d, t)
    ensures forall r: nat :: r in d.resources ==> r < |t| && (IsWindow(t, w, r) <==> IsWindow(s, w, r))
  {
    Pass1KeepsIdentity(s, t);
    WellFormedFrame(d, s, t);
    assert forall r: nat :: r in d.resources ==> s[r].Identity() == t[r].Identity();
  }

  // Entering the body of the loop over the children.
  lemma ChildReady(bridge: Device, s: Store, t: Store, w: Wanted, j: nat)
    requires WellFormed(bridge, s) && Touches(s, t, w, IdsOf(bridge.children)) && j < |bridge.children|
    ensures WellFormedOf(bridge.children, t) && WellFormed(bridge.children[j], t)
  {
    StillWellFormed(bridge, s, t, w, IdsOf(bridge.children));
    WellFormedAt(bridge.children, t, j);
  }

  lemma ChildDone(bridge: Device, s: Store, t: Store, u: Store, w: Wanted, j: nat, always4G: bool)
    requires WellFormedOf(bridge.children, t) && j < |bridge.children|
    requires Touches(s, t, w, IdsOf(bridge.children))
    requires BelowComputed(bridge.children, j, t, w, always4G)
    requires Pass1Done(bridge.children[j], t, u, w, always4G)
    ensures Touches(s, u, w, IdsOf(bridge.children))
    ensures BelowComputed(bridge.children, j + 1, u, w, always4G)
  {
    hide Computed, Pass1Changes;
    ChildIds(bridge.children, j);
    TouchesTrans(s, t, u, w, IdsOf(bridge.children), Ids(bridge.children[j]), IdsOf(bridge.children));
    ChildStep(bridge.children, j, t, u, w, always4G);
  }

  lemma FirstWindow(d: Device, s: Store, w: Wanted, i: nat)
    requires WellFormed(d, s) && w.prefetch.Some? && i < |d.resources| && IsWindow(s, w, d.resources[i])
    ensures forall k :: 0 <= k < i ==> !IsWindow(s, w, d.resources[k])
  {
    forall k | 0 <= k < i && IsWindow(s, w, d.resources[k])
      ensures false
    {
      OnlyWindow(d, s, w, d.resources[i], d.resources[k]);
    }
  }
}
