/** The loop of update_bridge_resource: its state after any number of resources, and its two kinds of step. */
module WindowLoop {
  import opened Arith
  import opened ResourceTree
  import opened Largest
  import opened WindowLayout

  // A resource of the traversal that the loop does not skip.
  ghost predicate Placeable(list: seq<nat>, s: Store, r: nat) {
    r in list && r < |s| && !s[r].flags.fixed && 0 < s[r].size && 0 < s[r].limit
  }

  // What placing resources may do to a store: offsets for the placed ones, requirements for the window.
  ghost predicate OnlyPlaced(s: Store, t: Store, win: nat, order: seq<nat>) {
    && |s| == |t| && win < |s| && InOrder(order, s) && win !in order
    && (forall i :: 0 <= i < |s| && i !in order && i != win ==> t[i] == s[i])
    && (forall i :: 0 <= i < |s| && i in order ==>
          SameButBase(s[i], t[i]) && !t[i].flags.isAssigned && !t[i].flags.isStored)
    && t[win] == s[win].(align := t[win].align, limit := t[win].limit, size := t[win].size)
  }

  // The requirements a window inherits: the largest alignment and the smallest limit below it.
  ghost predicate Inherits(s: Store, x: Resource, y: Resource, order: seq<nat>, always4G: bool)
    requires InOrder(order, s)
  {
    && x.align <= y.align && y.limit <= x.limit
    && (forall i :: 0 <= i < |order| ==> s[order[i]].align <= y.align && y.limit <= EffectiveLimit(s[order[i]], always4G))
    && (y.align == x.align || exists i :: 0 <= i < |order| && y.align == s[order[i]].align)
    && (y.limit == x.limit || exists i :: 0 <= i < |order| && y.limit == EffectiveLimit(s[order[i]], always4G))
  }

  ghost predicate Visited(list: seq<nat>, s: Store, last: Option<nat>, order: seq<nat>)
    requires ValidList(list, s)
    requires last.Some? ==> last.value in list
  {
    && NoDuplicates(order)
    && (forall r: nat :: r in order <==> Placeable(list, s, r) && r !in Remaining(list, s, last))
    && (forall i, j :: 0 <= i < j < |order| ==> After(list, s, order[i], order[j]))
    && (forall i, y :: 0 <= i < |order| && y in Remaining(list, s, last) ==> After(list, s, order[i], y))
  }

  ghost predicate LoopState(list: seq<nat>, s: Store, t: Store, win: nat, last: Option<nat>, order: seq<nat>, base: nat,
                            always4G: bool)
  {
    && ValidList(list, s) && (last.Some? ==> last.value in list) && win !in list
    && Visited(list, s, last, order)
    && OnlyPlaced(s, t, win, order) && t[win].size == s[win].size
    && Inherits(s, s[win], t[win], order, always4G)
    && Packed(order, t) && base == Cursor(order, t, |order|)
  }

  // The order of the traversal does not depend on what is placed.
  lemma RemainingFrame(list: seq<nat>, s: Store, t: Store, last: Option<nat>, next: Option<nat>)
    requires ValidList(list, s) && ValidList(list, t) && (last.Some? ==> last.value in list)
    requires forall r: nat :: r in list ==>
               s[r].align == t[r].align && s[r].size == t[r].size && s[r].flags.fixed == t[r].flags.fixed
    requires IsNext(list, t, last, next)
    ensures IsNext(list, s, last, next)
  {
    forall x: nat, y: nat | x in list && y in list
      ensures After(list, s, x, y) == After(list, t, x, y)
    {
    }
    assert Remaining(list, s, last) == Remaining(list, t, last);
  }

  lemma ListUnchanged(list: seq<nat>, s: Store, t: Store, win: nat, order: seq<nat>)
    requires ValidList(list, s) && win !in list && OnlyPlaced(s, t, win, order)
    ensures ValidList(list, t)
    ensures forall r: nat :: r in list ==> SameButBase(s[r], t[r])
  {
  }

  lemma VisitedSkip(list: seq<nat>, s: Store, last: Option<nat>, order: seq<nat>, r: nat)
    requires ValidList(list, s) && (last.Some? ==> last.value in list)
    requires Visited(list, s, last, order) && IsNext(list, s, last, Some(r))
    requires r in list && !Placeable(list, s, r)
    ensures Visited(list, s, Some(r), order)
  {
    RemainingShrinks(list, s, last, r);
  }

  lemma VisitedPlace(list: seq<nat>, s: Store, last: Option<nat>, order: seq<nat>, r: nat)
    requires ValidList(list, s) && (last.Some? ==> last.value in list)
    requires Visited(list, s, last, order) && IsNext(list, s, last, Some(r))
    requires Placeable(list, s, r)
    ensures Visited(list, s, Some(r), order + [r]) && r !in order
  {
    RemainingShrinks(list, s, last, r);
    var order' := order + [r];
    forall i, y | 0 <= i < |order'| && y in Remaining(list, s, Some(r))
      ensures After(list, s, order'[i], y)
    {
      assert y in Remaining(list, s, last);
    }
  }

  // The window and the resource after one round.
  function Grown(win: Resource, r: Resource, always4G: bool): Resource {
    var align := if r.align > win.align then r.align else win.align;
    var limit := if EffectiveLimit(r, always4G) < win.limit then EffectiveLimit(r, always4G) else win.limit;
    win.(align := align, limit := limit)
  }

  function PlacedAt(r: Resource, base: nat): Resource {
    r.(base := base, flags := r.flags.(isAssigned := false, isStored := false))
  }

  lemma CursorPlace(order: seq<nat>, t: Store, u: Store, r: nat, k: nat)
    requires InOrder(order, t) && |t| == |u| && r < |t| && k <= |order|
    requires forall i :: 0 <= i < |order| ==> u[order[i]] == t[order[i]]
    ensures InOrder(order + [r], u) && Cursor(order + [r], u, k) == Cursor(order, t, k)
  {
    var order' := order + [r];
    assert order[..k] == order'[..k];
    assert forall j :: 0 <= j < |order| ==> order'[j] == order[j];
    CursorFrame(order', u, order, t, k);
  }

  lemma CursorNext(order: seq<nat>, store: Store, k: nat)
    requires InOrder(order, store) && k < |order|
    ensures Cursor(order, store, k + 1) == AlignUp(Cursor(order, store, k), Pow2(store[order[k]].align)) + store[order[k]].size
  {
  }

  lemma PackedPlace(order: seq<nat>, t: Store, u: Store, r: nat)
    requires InOrder(order, t) && |t| == |u| && r < |t|
    requires forall i :: 0 <= i < |order| ==> u[order[i]] == t[order[i]]
    requires Packed(order, t)
    requires u[r].base == AlignUp(Cursor(order, t, |order|), Pow2(u[r].align))
    ensures InOrder(order + [r], u) && Packed(order + [r], u)
    ensures Cursor(order + [r], u, |order| + 1) == u[r].base + u[r].size
  {
    hide AlignUp, Pow2, Cursor;
    var order' := order + [r];
    CursorPlace(order, t, u, r, |order|);
    CursorNext(order', u, |order|);
    forall k | 0 <= k < |order'|
      ensures u[order'[k]].base == AlignUp(Cursor(order', u, k), Pow2(u[order'[k]].align))
    {
      CursorPlace(order, t, u, r, k);
      assert k < |order| ==> order'[k] == order[k];
    }
  }

  lemma PackedSame(order: seq<nat>, t: Store, u: Store)
    requires InOrder(order, t) && InOrder(order, u) && Packed(order, t)
    requires forall i :: 0 <= i < |order| ==> u[order[i]] == t[order[i]]
    ensures Packed(order, u) && Cursor(order, u, |order|) == Cursor(order, t, |order|)
  {
    hide AlignUp, Pow2, Cursor;
    CursorFrame(order, u, order, t, |order|);
    forall k | 0 <= k < |order|
      ensures u[order[k]].base == AlignUp(Cursor(order, u, k), Pow2(u[order[k]].align))
    {
      CursorFrame(order, u, order, t, k);
    }
  }

  lemma InheritsPlace(s: Store, x: Resource, y: Resource, order: seq<nat>, r: nat, always4G: bool)
    requires InOrder(order, s) && r < |s| && Inherits(s, x, y, order, always4G)
    ensures Inherits(s, x, Grown(y, s[r], always4G), order + [r], always4G)
  {
    var order', z := order + [r], Grown(y, s[r], always4G);
    assert order'[|order|] == r;
    assert forall i :: 0 <= i < |order| ==> order'[i] == order[i];
  }

  lemma OnlyPlacedStep(s: Store, t: Store, win: nat, order: seq<nat>, r: nat, always4G: bool, base: nat, u: Store)
    requires OnlyPlaced(s, t, win, order)
    requires r < |s| && r != win && r !in order
    requires u == t[win := Grown(t[win], t[r], always4G)][r := PlacedAt(t[r], base)]
    ensures t[r] == s[r] && OnlyPlaced(s, u, win, order + [r])
    ensures forall i :: 0 <= i < |order| ==> u[order[i]] == t[order[i]]
    ensures u[win] == Grown(t[win], t[r], always4G) && u[r] == PlacedAt(t[r], base)
  {
    hide EffectiveLimit;
    assert forall i :: 0 <= i < |order| ==> order[i] in order;
  }

  lemma PlaceStep(list: seq<nat>, s: Store, t: Store, win: nat, last: Option<nat>, order: seq<nat>, base: nat,
                  always4G: bool, r: nat, u: Store)
    requires LoopState(list, s, t, win, last, order, base, always4G)
    requires IsNext(list, s, last, Some(r)) && Placeable(list, s, r)
    requires u == t[win := Grown(t[win], t[r], always4G)][r := PlacedAt(t[r], AlignUp(base, Pow2(t[r].align)))]
    ensures LoopState(list, s, u, win, Some(r), order + [r], AlignUp(base, Pow2(t[r].align)) + t[r].size, always4G)
  {
    hide AlignUp, Pow2, EffectiveLimit, Visited, IsNext, Remaining, After, Inherits, Packed, Cursor;
    VisitedPlace(list, s, last, order, r);
    OnlyPlacedStep(s, t, win, order, r, always4G, AlignUp(base, Pow2(t[r].align)), u);
    PackedPlace(order, t, u, r);
    InheritsPlace(s, s[win], t[win], order, r, always4G);
  }

  lemma SkipStep(list: seq<nat>, s: Store, t: Store, win: nat, last: Option<nat>, order: seq<nat>, base: nat,
                 always4G: bool, r: nat)
    requires LoopState(list, s, t, win, last, order, base, always4G)
    requires IsNext(list, s, last, Some(r)) && r in list && !Placeable(list, s, r)
    ensures LoopState(list, s, t, win, Some(r), order, base, always4G)
  {
    VisitedSkip(list, s, last, order, r);
  }

  // The contract of one window computation: who was placed, where, and what the window now asks for.
  ghost predicate WindowDone(list: seq<nat>, s: Store, t: Store, win: nat, order: seq<nat>, always4G: bool) {
    && ValidList(list, s)
    && NoDuplicates(order)
    && (forall r: nat :: r in order <==> Placeable(list, s, r))
    && (forall i, j :: 0 <= i < j < |order| ==> After(list, s, order[i], order[j]))
    && OnlyPlaced(s, t, win, order)
    && Inherits(s, s[win], t[win], order, always4G)
    && Packed(order, t)
    && t[win].size == AlignUp(Cursor(order, t, |order|), Pow2(s[win].gran))
  }

  lemma OnlyPlacedWindow(s: Store, t: Store, win: nat, order: seq<nat>, size: nat, u: Store)
    requires OnlyPlaced(s, t, win, order)
    requires u == t[win := t[win].(size := size)]
    ensures OnlyPlaced(s, u, win, order) && InOrder(order, u)
    ensures forall i :: 0 <= i < |order| ==> u[order[i]] == t[order[i]]
  {
    assert forall i :: 0 <= i < |order| ==> order[i] in order;
  }

  lemma LastStep(list: seq<nat>, s: Store, t: Store, win: nat, last: Option<nat>, order: seq<nat>, base: nat,
                 always4G: bool, u: Store)
    requires LoopState(list, s, t, win, last, order, base, always4G)
    requires IsNext(list, s, last, None)
    requires u == t[win := t[win].(size := AlignUp(base, Pow2(t[win].gran)))]
    ensures WindowDone(list, s, u, win, order, always4G)
  {
    hide AlignUp, Pow2, EffectiveLimit, After, Packed, Cursor;
    OnlyPlacedWindow(s, t, win, order, u[win].size, u);
    PackedSame(order, t, u);
    assert Remaining(list, s, last) == {};
    assert t[win].gran == s[win].gran;
  }

  lemma KidsPlaced(bus: seq<Device>, s: Store, t: Store, w: Wanted, win: nat, order: seq<nat>, always4G: bool)
    requires SeparateOf(bus) && InStore(IdsOf(bus), s) && NoSubtractive(IdsOf(bus), s)
    requires WindowDone(SearchOrder(bus, s, w), s, t, win, order, always4G)
    ensures forall r: nat :: r in order <==> IsKid(bus, s, w, r)
    ensures forall r: nat :: r != win ==> (IsKid(bus, t, w, r) <==> IsKid(bus, s, w, r))
  {
    hide AlignUp, Pow2, EffectiveLimit, After, Packed, Cursor, Inherits, OnBus;
    SearchMembers(bus, s, w);
    forall r: nat | r != win
      ensures IsKid(bus, t, w, r) <==> IsKid(bus, s, w, r)
    {
      if r < |s| {
        assert r in order || t[r] == s[r];
      }
    }
  }

  lemma DoneIsPass1(list: seq<nat>, s: Store, t: Store, win: nat, order: seq<nat>, always4G: bool)
    requires WindowDone(list, s, t, win, order, always4G)
    requires s[win].flags.bridge && !s[win].flags.fixed
    ensures Pass1Changes(s, t)
  {
    hide AlignUp, Pow2, EffectiveLimit, After, Packed, Cursor;
    forall i | 0 <= i < |s|
      ensures Pass1Change(s[i], t[i])
    {
      if i in order {
        assert SameButBase(s[i], t[i]);
      }
    }
  }

  lemma DoneFits(bus: seq<Device>, s: Store, t: Store, w: Wanted, win: nat, order: seq<nat>, always4G: bool)
    requires WindowDone(SearchOrder(bus, s, w), s, t, win, order, always4G)
    requires win !in IdsOf(bus)
    requires forall r: nat :: r in order <==> IsKid(bus, s, w, r)
    requires forall r: nat :: r != win ==> (IsKid(bus, t, w, r) <==> IsKid(bus, s, w, r))
    ensures Laid(bus, t, w, win, always4G)
  {
    hide AlignUp, Pow2, After, Packed, Cursor, IsKid, IsMultiple, SearchOrder, Placeable;
    PackedIsDisjoint(order, t);
    forall r: nat | IsKid(bus, t, w, r)
      ensures r in order && FitsWindow(t[win], t[r], always4G)
    {
      NotTheWindow(bus, t, w, win, r);
      var i :| 0 <= i < |order| && order[i] == r;
      assert SameButBase(s[r], t[r]);
    }
    forall q: nat, r: nat | IsKid(bus, t, w, q) && IsKid(bus, t, w, r) && q != r
      ensures Disjoint(t[q], t[r])
    {
      assert q in order && r in order;
      var i :| 0 <= i < |order| && order[i] == q;
      var j :| 0 <= j < |order| && order[j] == r;
      assert i < j || j < i;
    }
  }

  lemma NotTheWindow(bus: seq<Device>, t: Store, w: Wanted, win: nat, r: nat)
    requires IsKid(bus, t, w, r) && win !in IdsOf(bus)
    ensures r != win && r < |t|
  {
    OnBusInIds(bus, r);
  }

  // Pass 1 wastes nothing: sizes that are multiples of their alignment add up exactly.
  lemma ExactWindow(list: seq<nat>, s: Store, t: Store, win: nat, order: seq<nat>, always4G: bool)
    requires WindowDone(list, s, t, win, order, always4G)
    requires forall r: nat :: Placeable(list, s, r) ==> IsMultiple(s[r].size, Pow2(s[r].align))
    ensures t[win].size == AlignUp(SumSizes(order, s, |order|), Pow2(s[win].gran))
    ensures forall k :: 0 <= k < |order| ==> t[order[k]].base == SumSizes(order, s, k)
  {
    hide AlignUp, Pow2, IsMultiple;
    assert forall i :: 0 <= i < |order| ==> order[i] in order;
    forall k | 0 <= k <= |order|
      ensures Cursor(order, t, k) == Cursor(order, s, k) == SumSizes(order, s, k)
      ensures k < |order| ==> IsMultiple(Cursor(order, t, k), Pow2(t[order[k]].align))
    {
      CursorFrame(order, t, order, s, k);
      NoPadding(order, s, k);
    }
  }

  // ----- The loop of update_bridge_resource on a bridge

  ghost function Remaining'(list: seq<nat>, s: Store, last: Option<nat>): nat {
    if ValidList(list, s) && (last.Some? ==> last.value in list) then |Remaining(list, s, last)| else 0
  }

  lemma NextShrinks(list: seq<nat>, s: Store, last: Option<nat>, r: nat)
    requires ValidList(list, s) && (last.Some? ==> last.value in list)
    requires IsNext(list, s, last, Some(r))
    ensures Remaining'(list, s, Some(r)) < Remaining'(list, s, last)
  {
    RemainingShrinks(list, s, last, r);
  }

  lemma BeforeLoop(bridge: Device, s: Store, w: Wanted, win: nat, always4G: bool)
    requires WellFormed(bridge, s) && win in bridge.resources && IsWindow(s, w, win)
    ensures LoopState(SearchOrder(bridge.children, s, w), s, s, win, None, [], 0, always4G)
    ensures !s[win].flags.fixed && win !in IdsOf(bridge.children)
  {
    hide Pow2, AlignUp, EffectiveLimit, After;
    WellFormedIsSeparate(bridge, s);
    SearchMembers(bridge.children, s, w);
    forall r: nat | r in SearchOrder(bridge.children, s, w)
      ensures r in IdsOf(bridge.children)
    {
      OnBusInIds(bridge.children, r);
    }
  }

  // The traversal of the current store is still the one of the first.
  lemma UnderLoop(bridge: Device, s: Store, t: Store, w: Wanted, win: nat, last: Option<nat>, order: seq<nat>, base: nat,
                  always4G: bool)
    requires LoopState(SearchOrder(bridge.children, s, w), s, t, win, last, order, base, always4G)
    ensures SearchOrder(bridge.children, t, w) == SearchOrder(bridge.children, s, w)
    ensures ValidList(SearchOrder(bridge.children, t, w), t)
    ensures last.Some? ==> last.value in SearchOrder(bridge.children, t, w)
  {
    hide Visited, Inherits, Packed, Cursor, EffectiveLimit;
    SearchOrderFrame(bridge.children, s, t, w);
  }

  lemma NextInList(list: seq<nat>, s: Store, t: Store, win: nat, last: Option<nat>, order: seq<nat>, base: nat,
                   always4G: bool, next: Option<nat>)
    requires LoopState(list, s, t, win, last, order, base, always4G)
    requires ValidList(list, t) && IsNext(list, t, last, next)
    ensures IsNext(list, s, last, next)
    ensures win < |t|
    ensures next.Some? ==> next.value in list && next.value < |t| && next.value != win
    ensures next.Some? ==> Remaining'(list, s, next) < Remaining'(list, s, last)
    ensures next.Some? ==> (Placeable(list, s, next.value) <==> 0 < t[next.value].size && 0 < t[next.value].limit)
  {
    hide Visited, Inherits, Packed, Cursor, EffectiveLimit;
    ListUnchanged(list, s, t, win, order);
    RemainingFrame(list, s, t, last, next);
    if next.Some? {
      NextShrinks(list, s, last, next.value);
    }
  }

  lemma AfterLoop(bridge: Device, s: Store, t: Store, w: Wanted, win: nat, last: Option<nat>, order: seq<nat>, base: nat,
                  always4G: bool, u: Store)
    requires WellFormed(bridge, s) && win in bridge.resources && IsWindow(s, w, win)
    requires LoopState(SearchOrder(bridge.children, s, w), s, t, win, last, order, base, always4G)
    requires IsNext(SearchOrder(bridge.children, s, w), s, last, None)
    requires u == t[win := t[win].(size := AlignUp(base, Pow2(t[win].gran)))]
    ensures WindowDone(SearchOrder(bridge.children, s, w), s, u, win, order, always4G)
    ensures forall r: nat :: r in order <==> IsKid(bridge.children, s, w, r)
    ensures Laid(bridge.children, u, w, win, always4G)
    ensures Pass1Changes(s, u)
  {
    hide AlignUp, Pow2, LoopState, WindowDone, Laid, IsKid, Pass1Changes, IsNext;
    var list := SearchOrder(bridge.children, s, w);
    WellFormedIsSeparate(bridge, s);
    LastStep(list, s, t, win, last, order, base, always4G, u);
    KidsPlaced(bridge.children, s, u, w, win, order, always4G);
    DoneIsPass1(list, s, u, win, order, always4G);
    DoneFits(bridge.children, s, u, w, win, order, always4G);
  }
}
