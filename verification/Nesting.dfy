/** Containment and disjointness over a whole bridge tree, from what pass 2 guarantees bridge by bridge. */
module Nesting {
  import opened Arith
  import opened ResourceTree
  import opened WindowLayout
  import opened Placement

  // r is behind a window of type w of d, directly or through windows of the same type further down.
  ghost predicate Under(d: Device, s: Store, w: Wanted, r: nat)
    decreases d
  {
    || IsKid(d.children, s, w, r)
    || exists j :: 0 <= j < |d.children| && d.children[j].children != []
                   && HasKidWindow(d, s, w, j) && Under(d.children[j], s, w, r)
  }

  ghost predicate KidWindow(d: Device, s: Store, w: Wanted, j: nat, q: nat) {
    j < |d.children| && q in d.children[j].resources && IsWindow(s, w, q) && IsKid(d.children, s, w, q)
  }

  ghost predicate HasKidWindow(d: Device, s: Store, w: Wanted, j: nat) {
    exists q: nat :: KidWindow(d, s, w, j, q)
  }

  // a is a window somewhere on the bus or below it, and r is behind it.
  ghost predicate IsAncestor(bus: seq<Device>, s: Store, w: Wanted, a: nat, r: nat)
    decreases bus
  {
    exists j :: 0 <= j < |bus| &&
      (|| (a in bus[j].resources && IsWindow(s, w, a) && Under(bus[j], s, w, r))
       || IsAncestor(bus[j].children, s, w, a, r))
  }

  ghost predicate Within(x: Resource, y: Resource) {
    y.base <= x.base && x.base + x.size <= y.base + y.size
  }

  // The resource directly behind d through which r is reached.
  lemma UnderVia(d: Device, s: Store, w: Wanted, r: nat) returns (k: nat, j: nat)
    requires Under(d, s, w, r)
    ensures IsKid(d.children, s, w, k)
    ensures k == r || (j < |d.children| && d.children[j].children != [] && KidWindow(d, s, w, j, k) && Under(d.children[j], s, w, r))
  {
    if IsKid(d.children, s, w, r) {
      k, j := r, 0;
    } else {
      j :| 0 <= j < |d.children| && d.children[j].children != []
           && HasKidWindow(d, s, w, j) && Under(d.children[j], s, w, r);
      k :| KidWindow(d, s, w, j, k);
    }
  }

  lemma {:induction false} UnderInIds(d: Device, s: Store, w: Wanted, r: nat)
    requires Under(d, s, w, r)
    ensures r in IdsOf(d.children) && r < |s| && Matches(s[r].flags, w)
    decreases d
  {
    if IsKid(d.children, s, w, r) {
      OnBusInIds(d.children, r);
    } else {
      var k, j := UnderVia(d, s, w, r);
      UnderInIds(d.children[j], s, w, r);
      ChildIds(d.children, j);
    }
  }

  // Everything behind an assigned window is assigned inside it.
  lemma {:induction false} UnderPlaced(d: Device, s: Store, t: Store, w: Wanted, q: nat, r: nat, always4G: bool)
    requires PlacedTree(d, s, t, w, always4G)
    requires q in d.resources && IsWindow(s, w, q) && t[q].flags.isAssigned
    requires Under(d, s, w, r)
    ensures r < |s| && 0 < s[r].size && t[r] == AssignedAt(s[r], t[r].base)
    ensures Within(t[r], t[q]) && IsMultiple(t[r].base, Pow2(t[r].align))
    ensures t[r].base + t[r].size - 1 <= EffectiveLimit(s[r], always4G)
    decreases d
  {
    hide EffectiveLimit, IsMultiple, Pow2;
    var k, j := UnderVia(d, s, w, r);
    assert Inside(s, t, q, k, always4G);
    if k != r {
      UnderPlaced(d.children[j], s, t, w, k, r, always4G);
    }
  }

  // An assigned resource anywhere behind d is behind an assigned window of d.
  lemma {:induction false} AssignedIsUnder(d: Device, s: Store, t: Store, w: Wanted, r: nat, always4G: bool) returns (q: nat)
    requires PlacedTree(d, s, t, w, always4G)
    requires r in IdsOf(d.children) && r < |s| && Matches(s[r].flags, w) && !s[r].flags.fixed && t[r].flags.isAssigned
    requires forall i: nat :: i in IdsOf(d.children) ==> i < |s|
    requires forall i: nat :: i in IdsOf(d.children) && s[i].flags.bridge ==> !s[i].flags.fixed
    ensures Under(d, s, w, r)
    ensures q in d.resources && IsWindow(s, w, q) && t[q].flags.isAssigned
    decreases d
  {
    var j := IdsOfOwner(d.children, r);
    if r in d.children[j].resources {
      assert BehindAssigned(d, s, t, w, r);
      q :| q in d.resources && IsWindow(s, w, q) && t[q].flags.isAssigned;
    } else {
      ChildIds(d.children, j);
      var c := d.children[j];
      assert c.children != [];
      assert forall i: nat :: i in IdsOf(c.children) ==> i in Ids(c);
      var k := AssignedIsUnder(c, s, t, w, r, always4G);
      assert k in Ids(c);
      assert BehindAssigned(d, s, t, w, k);
      assert KidWindow(d, s, w, j, k);
      q :| q in d.resources && IsWindow(s, w, q) && t[q].flags.isAssigned;
    }
  }

  lemma WithinDisjoint(x: Resource, a: Resource, y: Resource, b: Resource)
    requires Within(x, a) && Within(y, b) && Disjoint(a, b)
    ensures Disjoint(x, y)
  {
  }

  // Two resources behind the same window are disjoint unless one is behind the other.
  lemma {:induction false} PairUnder(d: Device, s: Store, t: Store, w: Wanted, q: nat, r: nat, r': nat, always4G: bool)
    requires SeparateOf(d.children) && PlacedTree(d, s, t, w, always4G)
    requires q in d.resources && IsWindow(s, w, q) && t[q].flags.isAssigned
    requires Under(d, s, w, r) && Under(d, s, w, r') && r != r'
    ensures r < |t| && r' < |t|
    ensures || Disjoint(t[r], t[r'])
            || IsAncestor(d.children, s, w, r, r')
            || IsAncestor(d.children, s, w, r', r)
    decreases d
  {
    hide EffectiveLimit, IsMultiple, Pow2;
    var k, j := UnderVia(d, s, w, r);
    var k', j' := UnderVia(d, s, w, r');
    assert Inside(s, t, q, k, always4G) && Inside(s, t, q, k', always4G);
    UnderInIds(d, s, w, r);
    UnderInIds(d, s, w, r');
    if k != k' {
      InsideKid(d, s, t, w, q, k, j, r, always4G);
      InsideKid(d, s, t, w, q, k', j', r', always4G);
      WithinDisjoint(t[r], t[k], t[r'], t[k']);
    } else if k != r && k' != r' {
      SameOwner(d.children, j, j', k);
      SeparateAt(d.children, j);
      PairUnder(d.children[j], s, t, w, k, r, r', always4G);
    }
  }

  lemma InsideKid(d: Device, s: Store, t: Store, w: Wanted, q: nat, k: nat, j: nat, r: nat, always4G: bool)
    requires PlacedTree(d, s, t, w, always4G)
    requires q in d.resources && IsWindow(s, w, q) && t[q].flags.isAssigned
    requires IsKid(d.children, s, w, k)
    requires k == r || (j < |d.children| && d.children[j].children != [] && KidWindow(d, s, w, j, k) && Under(d.children[j], s, w, r))
    ensures r < |t| && Within(t[r], t[k])
  {
    assert Inside(s, t, q, k, always4G);
    if k != r {
      UnderPlaced(d.children[j], s, t, w, k, r, always4G);
    }
  }

  lemma SameOwner(bus: seq<Device>, i: nat, j: nat, k: nat)
    requires SeparateOf(bus) && i < |bus| && j < |bus| && k in bus[i].resources && k in bus[j].resources
    ensures i == j
  {
    assert k in Ids(bus[i]) && k in Ids(bus[j]);
    SeparateAt(bus, i);
  }
}
