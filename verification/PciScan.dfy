/**
 PCI bus numbering (src/device/pci_device.c): a depth-first scan that opens every bridge wide before it scans behind
 it and narrows it afterwards. At every access the bridges route to the bus meant and to no other.
 */
module PciScan {

  const U16_SIZE: nat := 0x1_0000
  const U8_SIZE: nat := 0x100

  // The bridges of a topology: buses to keep for hotplug, and the bridges behind.
  datatype Bridge = Bridge(hotplug: nat, below: seq<Bridge>)

  // struct bus with the bus number registers of its bridge. Link 0 is the root bus, which has no bridge.
  datatype Link = Link(parent: nat, hotplug: nat, secondary: nat, subordinate: nat, max: nat,
                       primaryReg: nat, secondaryReg: nat, subordinateReg: nat, scanning: bool)

  // An access to a device on bus links[bus], with all registers as they are.
  datatype Access = Access(links: seq<Link>, bus: nat)

  // ----- Ancestors

  predicate ParentsFirst(links: seq<Link>) {
    forall k :: 0 < k < |links| ==> links[k].parent < k
  }

  // Link j is link k or in front of it.
  predicate Above(links: seq<Link>, j: nat, k: nat)
    requires ParentsFirst(links) && k < |links|
    decreases k
  {
    j == k || (k > 0 && Above(links, j, links[k].parent))
  }

  predicate Covers(l: Link, bus: nat) {
    l.secondaryReg <= bus <= l.subordinateReg
  }

  // Exactly the bridges in front of a bus claim its number.
  ghost predicate Routed(links: seq<Link>, bus: nat) {
    && ParentsFirst(links) && bus < |links|
    && forall k :: 0 < k < |links| ==> (Covers(links[k], links[bus].secondary) <==> Above(links, k, bus))
  }

  // ----- What every step keeps

  ghost predicate Registers(links: seq<Link>, k: nat)
    requires ParentsFirst(links) && 0 < k < |links|
  {
    && links[k].primaryReg == links[links[k].parent].secondary
    && links[k].secondaryReg == links[k].secondary
    && links[k].subordinateReg == if links[k].scanning then links[k].max else links[k].subordinate
  }

  // The pair of an earlier and a later link.
  ghost predicate Apart(links: seq<Link>, j: nat, k: nat)
    requires ParentsFirst(links) && j < k < |links|
  {
    && links[j].secondary < links[k].secondary
    && (Above(links, j, k) || (!links[j].scanning && links[j].subordinate < links[k].secondary))
  }

  // The ancestors of the bus being scanned are the links still scanning.
  ghost predicate Chain(links: seq<Link>, current: nat)
    requires ParentsFirst(links) && current < |links|
  {
    forall k :: 0 <= k < |links| ==> (links[k].scanning <==> Above(links, k, current))
  }

  // Numbers stay below the one that was given out last, and a finished bridge stays inside its parent.
  ghost predicate Bounded(links: seq<Link>, k: nat, current: nat, top: nat)
    requires ParentsFirst(links) && k < |links| && current < |links|
  {
    && links[k].secondary <= links[k].subordinate <= links[current].subordinate
    && (k > 0 ==> links[k].max == top && links[k].subordinate <= top && Registers(links, k))
    && (k > 0 && !links[k].scanning ==> links[k].subordinate <= links[links[k].parent].subordinate)
  }

  ghost predicate Numbers(links: seq<Link>, current: nat, top: nat)
    requires ParentsFirst(links) && current < |links|
  {
    forall k :: 0 <= k < |links| ==> Bounded(links, k, current, top)
  }

  ghost predicate Pairs(links: seq<Link>)
    requires ParentsFirst(links)
  {
    forall j, k :: 0 <= j < k < |links| ==> Apart(links, j, k)
  }

  ghost predicate Ordered(links: seq<Link>, current: nat, top: nat) {
    && ParentsFirst(links) && current < |links|
    && Chain(links, current) && Numbers(links, current, top) && Pairs(links)
  }

  lemma {:induction false} AboveIsEarlier(links: seq<Link>, j: nat, k: nat)
    requires ParentsFirst(links) && k < |links| && Above(links, j, k)
    ensures j <= k
    decreases k
  {
    if j != k {
      AboveIsEarlier(links, j, links[k].parent);
    }
  }

  lemma {:induction false} AboveFrame(links: seq<Link>, more: seq<Link>, j: nat, k: nat)
    requires ParentsFirst(links) && ParentsFirst(more) && k < |links| <= |more|
    requires forall i :: 0 <= i < |links| ==> more[i].parent == links[i].parent
    ensures Above(more, j, k) == Above(links, j, k)
    decreases k
  {
    if j != k && k > 0 {
      AboveFrame(links, more, j, links[k].parent);
    }
  }

  lemma {:induction false} AboveTransitive(links: seq<Link>, i: nat, j: nat, k: nat)
    requires ParentsFirst(links) && k < |links| && j < |links| && Above(links, j, k) && Above(links, i, j)
    ensures Above(links, i, k)
    decreases k
  {
    if j != k {
      AboveTransitive(links, i, j, links[k].parent);
    }
  }

  lemma {:induction false} RootIsAbove(links: seq<Link>, k: nat)
    requires ParentsFirst(links) && k < |links|
    ensures Above(links, 0, k)
    decreases k
  {
    if k > 0 {
      RootIsAbove(links, links[k].parent);
    }
  }

  /** Every bus on the way to the one being scanned can be reached, and only it answers. */
  lemma OrderedRoutes(links: seq<Link>, current: nat, top: nat, bus: nat)
    requires Ordered(links, current, top) && bus < |links| && Above(links, bus, current)
    ensures Routed(links, bus)
  {
    hide Above;
    forall k | 0 < k < |links|
      ensures Covers(links[k], links[bus].secondary) <==> Above(links, k, bus)
    {
      assert Bounded(links, k, current, top);
      if Above(links, k, bus) {
        AboveTransitive(links, k, bus, current);
        AboveIsEarlier(links, k, bus);
        if k < bus {
          assert Apart(links, k, bus);
        }
        BusInside(links, current, top, bus, k);
      } else if k < bus {
        assert Apart(links, k, bus);
      } else {
        NotItself(links, k, bus);
        assert Apart(links, bus, k);
      }
    }
  }

  lemma NotItself(links: seq<Link>, k: nat, bus: nat)
    requires ParentsFirst(links) && bus < |links| && !Above(links, k, bus)
    ensures k != bus
  {
  }

  lemma BusInside(links: seq<Link>, current: nat, top: nat, bus: nat, k: nat)
    requires Ordered(links, current, top) && bus < |links| && 0 < k <= bus
    ensures links[bus].secondary <= top
  {
    hide Above;
    assert Bounded(links, bus, current, top);
  }

  // ----- Opening a bridge

  function Opened(links: seq<Link>, p: nat, hotplug: nat, top: nat): Link
    requires p < |links|
  {
    var secondary := links[p].subordinate + 1;
    var wanted := (secondary + hotplug) % U16_SIZE;
    var subordinate := if wanted > top then top else wanted;
    Link(p, hotplug, secondary, subordinate, top, links[p].secondary, secondary, top, true)
  }

  lemma OpenChain(links: seq<Link>, p: nat, l: Link)
    requires ParentsFirst(links) && p < |links| && Chain(links, p) && l.parent == p && l.scanning
    ensures ParentsFirst(links + [l]) && Chain(links + [l], |links|)
  {
    var n, more := |links|, links + [l];
    assert more[n] == l && forall k :: 0 <= k < n ==> more[k] == links[k];
    assert ParentsFirst(more);
    hide Above;
    forall k | 0 <= k < n
      ensures Above(more, k, n) <==> links[k].scanning
    {
      AboveFrame(links, more, k, p);
      AboveStep(more, k, n);
    }
    AboveStep(more, n, n);
  }

  lemma OpenNumbers(links: seq<Link>, p: nat, l: Link, top: nat)
    requires ParentsFirst(links) && p < |links| && Numbers(links, p, top) && l.parent == p && l.scanning
    requires links[p].subordinate < l.secondary <= l.subordinate <= top == l.max
    requires l.primaryReg == links[p].secondary && l.secondaryReg == l.secondary && l.subordinateReg == top
    ensures ParentsFirst(links + [l]) && Numbers(links + [l], |links|, top)
  {
    var n, more := |links|, links + [l];
    assert more[n] == l && forall k :: 0 <= k < n ==> more[k] == links[k];
    assert ParentsFirst(more);
    forall k | 0 <= k <= n
      ensures Bounded(more, k, n, top)
    {
      if k < n {
        assert Bounded(links, k, p, top);
        assert k > 0 ==> Registers(links, k);
      }
    }
  }

  lemma OpenPairs(links: seq<Link>, p: nat, l: Link, top: nat)
    requires ParentsFirst(links) && p < |links| && Chain(links, p) && Numbers(links, p, top) && Pairs(links)
    requires l.parent == p && links[p].subordinate < l.secondary
    ensures ParentsFirst(links + [l]) && Pairs(links + [l])
  {
    var n, more := |links|, links + [l];
    assert more[n] == l && forall k :: 0 <= k < n ==> more[k] == links[k];
    assert ParentsFirst(more);
    hide Above;
    forall j, k | 0 <= j < k <= n
      ensures Apart(more, j, k)
    {
      assert Bounded(links, j, p, top);
      if k < n {
        assert Apart(links, j, k);
        AboveFrame(links, more, j, k);
      } else {
        AboveFrame(links, more, j, p);
        AboveStep(more, j, n);
      }
    }
  }

  lemma OpenKeepsOrder(links: seq<Link>, p: nat, hotplug: nat, top: nat)
    requires Ordered(links, p, top) && links[p].subordinate + 1 <= top < 0x1_0000 && hotplug < 0x1_0000
    ensures Ordered(links + [Opened(links, p, hotplug, top)], |links|, top) <==>
            links[p].subordinate + 1 + hotplug < 0x1_0000
  {
    var l := Opened(links, p, hotplug, top);
    if links[p].subordinate + 1 + hotplug < U16_SIZE {
      hide Chain, Numbers, Pairs;
      OpenChain(links, p, l);
      OpenNumbers(links, p, l, top);
      OpenPairs(links, p, l, top);
    } else {
      assert l.subordinate < l.secondary;
      hide *;
      if Ordered(links + [l], |links|, top) {
        OrderedBounds(links + [l], |links|, top);
      }
    }
  }

  lemma OrderedBounds(links: seq<Link>, current: nat, top: nat)
    requires Ordered(links, current, top)
    ensures current < |links| && links[current].secondary <= links[current].subordinate
  {
    hide Chain, Pairs, Above;
    assert Bounded(links, current, current, top);
  }

  lemma AboveStep(links: seq<Link>, j: nat, k: nat)
    requires ParentsFirst(links) && k < |links|
    ensures Above(links, k, k)
    ensures j != k && k > 0 ==> (Above(links, j, k) <==> Above(links, j, links[k].parent))
  {
  }

  // ----- Narrowing a bridge

  // The registers of a bridge after its bus has been scanned, and what its parent takes over.
  function Narrowed(links: seq<Link>, k: nat): seq<Link>
    requires 0 < k < |links| && links[k].parent < k
  {
    var p := links[k].parent;
    var l := links[k].(scanning := false, primaryReg := links[p].secondary, secondaryReg := links[k].secondary,
                       subordinateReg := links[k].subordinate);
    links[k := l][p := links[p].(subordinate := l.subordinate)]
  }

  lemma NarrowChain(links: seq<Link>, k: nat)
    requires ParentsFirst(links) && 0 < k < |links| && Chain(links, k)
    ensures ParentsFirst(Narrowed(links, k)) && Chain(Narrowed(links, k), links[k].parent)
  {
    var p, now := links[k].parent, Narrowed(links, k);
    assert ParentsFirst(now) && forall i :: 0 <= i < |links| ==> now[i].parent == links[i].parent;
    hide Above;
    forall i | 0 <= i < |links|
      ensures now[i].scanning <==> Above(now, i, p)
    {
      AboveFrame(links, now, i, p);
      AboveStep(links, i, k);
      if i == k {
        NotAbove(links, k, p);
      }
    }
  }

  lemma NarrowNumbers(links: seq<Link>, k: nat, top: nat)
    requires ParentsFirst(links) && 0 < k < |links| && Numbers(links, k, top)
    requires links[links[k].parent].scanning
    ensures ParentsFirst(Narrowed(links, k)) && Numbers(Narrowed(links, k), links[k].parent, top)
  {
    var p, now := links[k].parent, Narrowed(links, k);
    assert ParentsFirst(now);
    assert Bounded(links, p, k, top) && Bounded(links, k, k, top);
    forall i | 0 <= i < |links|
      ensures Bounded(now, i, p, top)
    {
      assert Bounded(links, i, k, top);
      assert i > 0 ==> Registers(links, i);
    }
  }

  lemma NarrowPairs(links: seq<Link>, k: nat)
    requires ParentsFirst(links) && 0 < k < |links| && Chain(links, k) && Pairs(links)
    ensures ParentsFirst(Narrowed(links, k)) && Pairs(Narrowed(links, k))
  {
    var p, now := links[k].parent, Narrowed(links, k);
    assert ParentsFirst(now) && forall i :: 0 <= i < |links| ==> now[i].parent == links[i].parent;
    hide Above;
    AboveStep(links, p, k);
    AboveStep(links, p, p);
    forall i, j | 0 <= i < j < |links|
      ensures Apart(now, i, j)
    {
      assert Apart(links, i, j);
      AboveFrame(links, now, i, j);
      if i == k && !Above(links, k, j) {
        AboveStep(links, k, k);
      }
    }
  }

  lemma NarrowKeepsOrder(links: seq<Link>, k: nat, top: nat)
    requires Ordered(links, k, top) && k > 0
    ensures Ordered(Narrowed(links, k), links[k].parent, top)
  {
    var p := links[k].parent;
    AboveStep(links, p, k);
    AboveStep(links, p, p);
    assert links[p].scanning;
    hide Chain, Numbers, Pairs;
    NarrowChain(links, k);
    NarrowNumbers(links, k, top);
    NarrowPairs(links, k);
  }

  lemma NotAbove(links: seq<Link>, k: nat, p: nat)
    requires ParentsFirst(links) && p < k && p < |links|
    ensures !Above(links, k, p)
  {
    if Above(links, k, p) {
      AboveIsEarlier(links, k, p);
    }
  }

  // ----- A finished scan

  // Ranges of bridges are nested along the tree and disjoint otherwise.
  ghost predicate Numbered(links: seq<Link>)
    requires ParentsFirst(links)
  {
    forall j, k :: 0 < j < k < |links| ==>
      && links[j].secondary != links[k].secondary
      && if Above(links, j, k) then links[j].secondary <= links[k].secondary && links[k].subordinate <= links[j].subordinate
         else links[j].subordinate < links[k].secondary
  }

  lemma {:induction false} InsideAncestor(links: seq<Link>, top: nat, j: nat, k: nat)
    requires Ordered(links, 0, top) && j <= k < |links| && Above(links, j, k)
    ensures links[k].subordinate <= links[j].subordinate
    decreases k
  {
    if j != k {
      hide Above;
      NotAbove(links, k, 0);
      assert Bounded(links, k, 0, top);
      AboveStep(links, j, k);
      AboveIsEarlier(links, j, links[k].parent);
      InsideAncestor(links, top, j, links[k].parent);
    }
  }

  /** When the scan has come back to the root bus, all bridges are final and their ranges form a tree. */
  lemma ScanIsNumbered(links: seq<Link>, top: nat)
    requires Ordered(links, 0, top)
    ensures Numbered(links)
    ensures forall k :: 0 < k < |links| ==>
              && !links[k].scanning && Registers(links, k) && links[k].secondary <= links[k].subordinate <= top
              && links[0].secondary < links[k].secondary && links[k].subordinate <= links[0].subordinate
  {
    hide Above;
    forall k | 0 < k < |links|
      ensures !links[k].scanning && Registers(links, k) && links[k].secondary <= links[k].subordinate <= top
      ensures links[0].secondary < links[k].secondary && links[k].subordinate <= links[0].subordinate
    {
      NotAbove(links, k, 0);
      assert Bounded(links, k, 0, top) && Apart(links, 0, k);
    }
    forall j, k | 0 < j < k < |links|
      ensures links[j].secondary < links[k].secondary
      ensures Above(links, j, k) ==> links[k].subordinate <= links[j].subordinate
      ensures !Above(links, j, k) ==> links[j].subordinate < links[k].secondary
    {
      assert Apart(links, j, k);
      if Above(links, j, k) {
        InsideAncestor(links, top, j, k);
      }
    }
  }

  // ----- How many buses a topology takes

  datatype Option<T> = None | Some(value: T)

  // The last number given out once a bridge is done, or none if the numbers run out.
  function After(last: nat, top: nat, b: Bridge): Option<nat>
    decreases b, 1
  {
    if last + 1 > top then None
    else
      var wanted := last + 1 + b.hotplug;
      AfterAll(if wanted > top then top else wanted, top, b.below)
  }

  function AfterAll(last: nat, top: nat, bs: seq<Bridge>): Option<nat>
    decreases bs, 0
  {
    if bs == [] then Some(last)
    else
      match After(last, top, bs[0])
      case None => None
      case Some(next) => AfterAll(next, top, bs[1..])
  }

  function Buses(b: Bridge): (n: nat)
    ensures n >= 1 + b.hotplug
    decreases b, 1
  {
    1 + b.hotplug + BusesOf(b.below)
  }

  function BusesOf(bs: seq<Bridge>): (n: nat)
    ensures bs != [] ==> n >= 1
    decreases bs, 0
  {
    if bs == [] then 0 else Buses(bs[0]) + BusesOf(bs[1..])
  }

  // The hotplug buses of the bridge that comes last are cut to what is left.
  function Spare(b: Bridge): (n: nat)
    ensures n < Buses(b)
    decreases b, 1
  {
    if b.below == [] then b.hotplug else SpareOf(b.below)
  }

  function SpareOf(bs: seq<Bridge>): (n: nat)
    requires bs != []
    ensures n < BusesOf(bs)
    decreases bs, 0
  {
    if |bs| == 1 then Spare(bs[0]) else SpareOf(bs[1..])
  }

  /** The scan dies exactly if the buses needed, short of the last spare ones, do not fit. */
  lemma {:induction false} BusesNeeded(last: nat, top: nat, b: Bridge)
    requires last <= top
    ensures After(last, top, b).Some? <==> last + Buses(b) - Spare(b) <= top
    ensures After(last, top, b).Some? ==>
              After(last, top, b).value == if last + Buses(b) <= top then last + Buses(b) else top
    decreases b, 1
  {
    if last + 1 <= top {
      var wanted := last + 1 + b.hotplug;
      BusesNeededOf(if wanted > top then top else wanted, top, b.below);
    }
  }

  lemma {:induction false} BusesNeededOf(last: nat, top: nat, bs: seq<Bridge>)
    requires last <= top
    ensures bs == [] ==> AfterAll(last, top, bs) == Some(last)
    ensures bs != [] ==> (AfterAll(last, top, bs).Some? <==> last + BusesOf(bs) - SpareOf(bs) <= top)
    ensures AfterAll(last, top, bs).Some? ==>
              AfterAll(last, top, bs).value == if last + BusesOf(bs) <= top then last + BusesOf(bs) else top
    decreases bs, 0
  {
    if bs != [] {
      BusesNeeded(last, top, bs[0]);
      if After(last, top, bs[0]).Some? {
        BusesNeededOf(After(last, top, bs[0]).value, top, bs[1..]);
      }
    }
  }

  // ----- The order in which links appear

  function Size(b: Bridge): nat
    decreases b, 1
  {
    1 + SizeOf(b.below)
  }

  function SizeOf(bs: seq<Bridge>): nat
    decreases bs, 0
  {
    if bs == [] then 0 else Size(bs[0]) + SizeOf(bs[1..])
  }

  // Parent and hotplug buses of every bridge in the order of the scan; the first gets number base.
  function Preorder(b: Bridge, parent: nat, base: nat): (s: seq<(nat, nat)>)
    ensures |s| == Size(b)
    decreases b, 1
  {
    [(parent, b.hotplug)] + PreorderOf(b.below, base, base + 1)
  }

  function PreorderOf(bs: seq<Bridge>, parent: nat, base: nat): (s: seq<(nat, nat)>)
    ensures |s| == SizeOf(bs)
    decreases bs, 0
  {
    if bs == [] then [] else Preorder(bs[0], parent, base) + PreorderOf(bs[1..], parent, base + Size(bs[0]))
  }

  function Shape(links: seq<Link>): (s: seq<(nat, nat)>)
    ensures |s| == |links| && forall k :: 0 <= k < |links| ==> s[k] == (links[k].parent, links[k].hotplug)
  {
    seq(|links|, k requires 0 <= k < |links| => (links[k].parent, links[k].hotplug))
  }

  // Sums of 16 bits do not wrap.
  ghost predicate SmallHotplug(b: Bridge, top: nat) {
    top + b.hotplug < 0x1_0000 && forall c :: c in b.below ==> SmallHotplug(c, top)
  }

  // An access to bus k under the number it has now.
  ghost predicate Scanned(log: seq<Access>, links: seq<Link>, k: nat)
    requires k < |links|
  {
    exists a :: a in log && a.bus == k && k < |a.links| && a.links[k].secondary == links[k].secondary
  }

  ghost predicate ScannedFrom(log: seq<Access>, links: seq<Link>, first: nat) {
    forall k: nat :: first <= k < |links| ==> Scanned(log, links, k)
  }

  // Later accesses and steps that leave its number do not matter.
  lemma StaysScanned(log: seq<Access>, links: seq<Link>, more: seq<Access>, now: seq<Link>, k: nat)
    requires k < |links| <= |now| && Scanned(log, links, k) && log <= more && now[k].secondary == links[k].secondary
    ensures Scanned(more, now, k)
  {
    var a :| a in log && a.bus == k && k < |a.links| && a.links[k].secondary == links[k].secondary;
    assert a in more;
  }

  // ----- The scan

  class BusScan {
    const busesPerSegment: nat
    const top: nat
    var links: seq<Link>
    ghost var log: seq<Access>

    // links[0] is the root bus; a root without a limit leaves the whole segment.
    constructor (root: Link, busesPerSegment: nat)
      requires root.scanning && root.secondary == root.subordinate && 0 < busesPerSegment
      requires (if root.max != 0 then root.max else busesPerSegment - 1) < 0x100
      ensures Limits() && links == [root] && log == [] && this.busesPerSegment == busesPerSegment
      ensures top == if root.max != 0 then root.max else busesPerSegment - 1
      ensures Ordered(links, 0, top)
    {
      this.busesPerSegment := busesPerSegment;
      top := if root.max != 0 then root.max else busesPerSegment - 1;
      links := [root];
      log := [];
    }

    // Every access so far reached its bus, and only its bus.
    ghost predicate AllRouted()
      reads this
    {
      forall a :: a in log ==> Routed(a.links, a.bus)
    }

    ghost predicate Limits()
      reads this
    {
      && 0 < busesPerSegment && links != [] && top < U8_SIZE
      && top == if links[0].max != 0 then links[0].max else busesPerSegment - 1
    }

    // An access to a device on bus k.
    ghost method Touch(k: nat, current: nat)
      requires Ordered(links, current, top) && k < |links| && Above(links, k, current) && AllRouted()
      modifies this`log
      ensures AllRouted() && log == old(log) + [Access(links, k)]
    {
      OrderedRoutes(links, current, top, k);
      log := log + [Access(links, k)];
    }

    /** pci_bridge_route in its scanning state, for a bridge on bus p; failure is the source's die(). */
    method RouteScan(p: nat, hotplug: nat) returns (ok: bool)
      requires Ordered(links, p, top) && Limits() && AllRouted() && hotplug < 0x1_0000
      modifies this
      ensures AllRouted() && old(log) <= log && (ok <==> old(links)[p].subordinate + 1 <= top)
      ensures links == if ok then old(links) + [Opened(old(links), p, hotplug, top)] else old(links)
      ensures ok ==> (Ordered(links, |old(links)|, top) <==> old(links)[p].subordinate + 1 + hotplug < 0x1_0000)
    {
      AboveStep(links, p, p);
      var parent := links[p];
      var secondary := parent.subordinate + 1;
      var subordinate := (secondary + hotplug) % U16_SIZE;
      ParentLimit(links, p, top);
      var max := if parent.max != 0 then parent.max else busesPerSegment - 1;
      if secondary > max {
        return false;
      }
      if subordinate > max {
        subordinate := max;
      }
      Touch(p, p);
      OpenKeepsOrder(links, p, hotplug, top);
      // The registers have eight bits.
      assert Bounded(links, p, p, top);
      links := links + [Link(p, hotplug, secondary, subordinate, max,
                             parent.secondary % U8_SIZE, secondary % U8_SIZE, max % U8_SIZE, true)];
      return true;
    }

    /** pci_bridge_route in its final state, for the bridge of link k. */
    method RouteFinal(k: nat)
      requires Ordered(links, k, top) && k > 0 && AllRouted() && Limits()
      modifies this
      ensures links == Narrowed(old(links), k) && AllRouted() && old(log) <= log && Ordered(links, old(links)[k].parent, top)
    {
      var p := links[k].parent;
      AboveStep(links, p, p);
      AboveStep(links, p, k);
      Touch(p, k);
      NarrowKeepsOrder(links, k, top);
      assert Bounded(links, k, k, top) && Bounded(links, p, k, top);
      var l := links[k];
      links := links[k := l.(scanning := false, primaryReg := links[p].secondary % U8_SIZE,
                             secondaryReg := l.secondary % U8_SIZE, subordinateReg := l.subordinate % U8_SIZE)];
      links := links[p := links[p].(subordinate := links[k].subordinate)];
    }

    /** Scanning a bus: its devices are looked at, then each bridge on it is scanned. */
    method ScanBus(current: nat, below: seq<Bridge>) returns (ok: bool)
      requires Ordered(links, current, top) && Limits() && AllRouted() && links[current].subordinate <= top
      requires forall b :: b in below ==> SmallHotplug(b, top)
      modifies this
      ensures AllRouted() && (ok <==> AfterAll(old(links)[current].subordinate, top, below).Some?)
      ensures ok ==> Limits() && Ordered(links, current, top) && SameBut(old(links), links, current)
      ensures ok ==> links[current].subordinate == AfterAll(old(links)[current].subordinate, top, below).value <= top
      ensures ok ==> Shape(links) == Shape(old(links)) + PreorderOf(below, current, |old(links)|)
      ensures old(log) <= log
      ensures ok ==> Scanned(log, links, current) && ScannedFrom(log, links, |old(links)|)
      decreases below, 0
    {
      ghost var start := links[current].subordinate;
      AboveStep(links, current, current);
      Touch(current, current);
      TouchedNow(old(log), links, current);
      hide *;
      BusStart(links, current, below);
      for i := 0 to |below|
        invariant AllRouted() && Limits() && Ordered(links, current, top)
        invariant SameBut(old(links), links, current) && current < |links| && links[current].subordinate <= top
        invariant AfterAll(start, top, below) == AfterAll(links[current].subordinate, top, below[i..])
        invariant Shape(old(links)) + PreorderOf(below, current, |old(links)|) ==
                  Shape(links) + PreorderOf(below[i..], current, |links|)
        invariant old(log) <= log && Scanned(log, links, current) && ScannedFrom(log, links, |old(links)|)
      {
        BusStep(links, current, top, below, i);
        ghost var before, logged := links, log;
        var done := ScanBridge(current, below[i]);
        if !done {
          return false;
        }
        SameButTwice(old(links), before, links, current);
        StillScanned(logged, before, log, links, current, |old(links)|);
        Regroup(Shape(before), Preorder(below[i], current, |before|), PreorderOf(below[i + 1..], current, |links|));
        ShapeSize(before, links, below[i]);
      }
      BusEnd(links, current, top, below);
      return true;
    }

    /** do_pci_scan_bridge: open, scan behind, narrow. */
    method ScanBridge(p: nat, b: Bridge) returns (ok: bool)
      requires Ordered(links, p, top) && Limits() && AllRouted() && SmallHotplug(b, top)
      requires links[p].subordinate <= top
      modifies this
      ensures AllRouted() && (ok <==> After(old(links)[p].subordinate, top, b).Some?)
      ensures ok ==> Limits() && Ordered(links, p, top) && SameBut(old(links), links, p)
      ensures ok ==> links[p].subordinate == After(old(links)[p].subordinate, top, b).value <= top
      ensures ok ==> Shape(links) == Shape(old(links)) + Preorder(b, p, |old(links)|)
      ensures old(log) <= log
      ensures ok ==> ScannedFrom(log, links, |old(links)|)
      decreases b, 1
    {
      ghost var was := links;
      var k := |links|;
      ok := RouteScan(p, b.hotplug);
      if !ok {
        return;
      }
      ghost var wide := links;
      assert wide[k] == Opened(was, p, b.hotplug, top) && wide[..k] == was;
      hide Ordered, Above, AfterAll, Preorder, PreorderOf, Shape;
      ok := ScanBus(k, b.below);
      if !ok {
        return;
      }
      ghost var scanned, logged := links, log;
      assert links[k].parent == p;
      RouteFinal(k);
      NarrowedScanned(logged, scanned, log, links, k);
      BridgeDone(was, wide, scanned, links, p, b, top);
    }
  }

  lemma TouchedNow(log: seq<Access>, links: seq<Link>, k: nat)
    requires k < |links|
    ensures Scanned(log + [Access(links, k)], links, k) && ScannedFrom(log + [Access(links, k)], links, |links|)
  {
    assert Access(links, k) in log + [Access(links, k)];
  }

  lemma StillScanned(log: seq<Access>, links: seq<Link>, more: seq<Access>, now: seq<Link>, p: nat, first: nat)
    requires SameBut(links, now, p) && log <= more && first <= |links|
    requires Scanned(log, links, p) && ScannedFrom(log, links, first) && ScannedFrom(more, now, |links|)
    ensures Scanned(more, now, p) && ScannedFrom(more, now, first)
  {
    hide Scanned;
    StaysScanned(log, links, more, now, p);
    forall k: nat | first <= k < |now|
      ensures Scanned(more, now, k)
    {
      if k < |links| {
        StaysScanned(log, links, more, now, k);
      }
    }
  }

  lemma NarrowedScanned(log: seq<Access>, links: seq<Link>, more: seq<Access>, now: seq<Link>, k: nat)
    requires ParentsFirst(links) && 0 < k < |links| && now == Narrowed(links, k) && log <= more
    requires Scanned(log, links, k) && ScannedFrom(log, links, k + 1)
    ensures ScannedFrom(more, now, k)
  {
    hide Scanned;
    forall j: nat | k <= j < |now|
      ensures Scanned(more, now, j)
    {
      StaysScanned(log, links, more, now, j);
    }
  }

  // Only the subordinate number of link p changes among the links of before.
  ghost predicate SameBut(was: seq<Link>, now: seq<Link>, p: nat) {
    && p < |was| <= |now|
    && forall j :: 0 <= j < |was| ==> now[j] == if j == p then was[j].(subordinate := now[j].subordinate) else was[j]
  }

  lemma SameButTwice(x: seq<Link>, y: seq<Link>, z: seq<Link>, p: nat)
    requires SameBut(x, y, p) && SameBut(y, z, p)
    ensures SameBut(x, z, p)
  {
  }

  lemma Regroup<T>(x: seq<T>, y: seq<T>, z: seq<T>)
    ensures x + (y + z) == x + y + z
  {
  }

  lemma BusStart(links: seq<Link>, current: nat, below: seq<Bridge>)
    requires current < |links|
    ensures SameBut(links, links, current) && below[0..] == below
  {
  }

  lemma BusStep(links: seq<Link>, current: nat, top: nat, below: seq<Bridge>, i: nat)
    requires i < |below| && current < |links|
    ensures AfterAll(links[current].subordinate, top, below[i..]) ==
            match After(links[current].subordinate, top, below[i])
            case None => None
            case Some(next) => AfterAll(next, top, below[i + 1..])
    ensures PreorderOf(below[i..], current, |links|) ==
            Preorder(below[i], current, |links|) + PreorderOf(below[i + 1..], current, |links| + Size(below[i]))
  {
    hide After, Preorder, Size;
    assert below[i..][0] == below[i] && below[i..][1..] == below[i + 1..];
  }

  lemma ShapeSize(before: seq<Link>, now: seq<Link>, b: Bridge)
    requires |Shape(now)| == |Shape(before)| + Size(b)
    ensures |now| == |before| + Size(b)
  {
  }

  lemma BusEnd(links: seq<Link>, current: nat, top: nat, below: seq<Bridge>)
    requires current < |links|
    ensures below[|below|..] == []
    ensures AfterAll(links[current].subordinate, top, []) == Some(links[current].subordinate)
    ensures Shape(links) + PreorderOf([], current, |links|) == Shape(links)
  {
  }

  lemma BridgeDone(was: seq<Link>, wide: seq<Link>, scanned: seq<Link>, now: seq<Link>, p: nat, b: Bridge, top: nat)
    requires p < |was| && wide == was + [Opened(was, p, b.hotplug, top)]
    requires SameBut(wide, scanned, |was|)
    requires Shape(scanned) == Shape(wide) + PreorderOf(b.below, |was|, |wide|)
    requires now == Narrowed(scanned, |was|)
    ensures SameBut(was, now, p) && now[p].subordinate == scanned[|was|].subordinate
    ensures Shape(now) == Shape(was) + Preorder(b, p, |was|)
  {
    var k := |was|;
    assert scanned[k].parent == p;
    forall j | 0 <= j < |was|
      ensures now[j] == if j == p then was[j].(subordinate := now[j].subordinate) else was[j]
    {
      assert wide[j] == was[j] && scanned[j] == wide[j];
    }
    hide SameBut;
    SameShape(scanned, now);
    hide Narrowed;
    ShapeOfOpened(was, Opened(was, p, b.hotplug, top));
    hide Opened, Shape;
    PreorderIs(b, p, k);
    hide PreorderOf, Preorder;
    Regroup(Shape(was), [(p, b.hotplug)], PreorderOf(b.below, k, k + 1));
  }

  lemma SameShape(links: seq<Link>, now: seq<Link>)
    requires |now| == |links|
    requires forall k :: 0 <= k < |links| ==> now[k].parent == links[k].parent && now[k].hotplug == links[k].hotplug
    ensures Shape(now) == Shape(links)
  {
  }

  lemma ShapeOfOpened(links: seq<Link>, l: Link)
    ensures Shape(links + [l]) == Shape(links) + [(l.parent, l.hotplug)]
  {
  }

  lemma PreorderIs(b: Bridge, p: nat, base: nat)
    ensures Preorder(b, p, base) == [(p, b.hotplug)] + PreorderOf(b.below, base, base + 1)
  {
  }

  lemma ParentLimit(links: seq<Link>, p: nat, top: nat)
    requires Ordered(links, p, top)
    ensures p > 0 ==> links[p].max == top && top != 0
  {
    hide Above;
    assert Bounded(links, p, p, top);
    assert p > 0 ==> Apart(links, 0, p);
  }

  /**
   pci_host_bridge_scan_bus from the root: it dies exactly if the numbers run out, every access on the way was
   routed to its bus alone, and in the end the ranges are nested, disjoint and as many as the topology needs.
   */
  method ScanHostBridge(root: Link, busesPerSegment: nat, below: seq<Bridge>) returns (ok: bool, scan: BusScan)
    requires root.scanning && root.secondary == root.subordinate && 0 < busesPerSegment
    requires var top := if root.max != 0 then root.max else busesPerSegment - 1;
               top < 0x100 && root.secondary <= top && forall b :: b in below ==> SmallHotplug(b, top)
    ensures fresh(scan) && scan.AllRouted()
    ensures ok ==> ScannedFrom(scan.log, scan.links, 0)
    ensures scan.top == if root.max != 0 then root.max else busesPerSegment - 1
    ensures ok <==> below == [] || root.secondary + BusesOf(below) - SpareOf(below) <= scan.top
    ensures ok ==> ParentsFirst(scan.links) && Numbered(scan.links)
    ensures ok ==> Shape(scan.links) == [(root.parent, root.hotplug)] + PreorderOf(below, 0, 1)
    ensures ok ==> scan.links[0].subordinate ==
                   if root.secondary + BusesOf(below) <= scan.top then root.secondary + BusesOf(below) else scan.top
  {
    scan := new BusScan(root, busesPerSegment);
    assert Shape(scan.links) == [(root.parent, root.hotplug)];
    hide AfterAll, PreorderOf, Shape, BusesOf, SpareOf, Ordered, Numbered;
    BusesNeededOf(root.secondary, scan.top, below);
    ok := scan.ScanBus(0, below);
    if ok {
      ScanIsNumbered(scan.links, scan.top);
      assert forall k: nat :: k < |scan.links| ==> Scanned(scan.log, scan.links, k);
    }
  }
}
