/**
 Renumbering the phandles of an overlay (src/commonlib/device_tree.c, dt_adjust_phandle and
 dt_adjust_all_phandles).
 */
module OverlayPhandles {
  import opened Buffers
  import opened FdtFormat
  import opened TreeSearch
  import opened FdtReader
  import opened FdtBytes

  const PHANDLE_ILLEGAL: nat := 0xdeadbeef
  const NO_PHANDLE: nat := 0xffffffff

  // ----- One phandle inside a property

  // The sum wraps at 32 bits, as the source's does.
  predicate Adjustable(p: Property, base: nat, o: nat) {
    && o + 4 <= |p.data|
    && Be32(p.data, o) !in {0, PHANDLE_ILLEGAL, NO_PHANDLE}
    && 0 < (Be32(p.data, o) + base) % U32_SIZE < PHANDLE_ILLEGAL
  }

  function Poke(data: seq<byte>, o: nat, v: nat): (r: seq<byte>)
    requires o + 4 <= |data| && v < U32_SIZE
    ensures |r| == |data|
  {
    data[..o] + Enc32(v) + data[o + 4..]
  }

  // A sum that wraps to exactly 0 is stored although it is reported as an error.
  function Adjusted(p: Property, base: nat, o: nat): (r: Property)
    ensures r.name == p.name && |r.data| == |p.data|
  {
    if o + 4 <= |p.data| && Be32(p.data, o) !in {0, PHANDLE_ILLEGAL, NO_PHANDLE} &&
       (Be32(p.data, o) + base) % U32_SIZE < PHANDLE_ILLEGAL
    then p.(data := Poke(p.data, o, (Be32(p.data, o) + base) % U32_SIZE))
    else p
  }

  lemma PokeReads(data: seq<byte>, o: nat, v: nat)
    requires o + 4 <= |data| && v < U32_SIZE
    ensures Be32(Poke(data, o, v), o) == v
    ensures forall k: nat :: k + 4 <= |data| && (k + 4 <= o || o + 4 <= k) ==> Be32(Poke(data, o, v), k) == Be32(data, k)
    ensures forall i :: 0 <= i < |data| && !(o <= i < o + 4) ==> Poke(data, o, v)[i] == data[i]
  {
    var r := Poke(data, o, v);
    var e := Enc32(v);
    assert r[o] == e[0] && r[o + 1] == e[1] && r[o + 2] == e[2] && r[o + 3] == e[3];
    hide Enc32;
  }

  // What an adjustment reads back as.
  lemma AdjustedReads(p: Property, base: nat, o: nat)
    requires Adjustable(p, base, o)
    ensures Be32(Adjusted(p, base, o).data, o) == (Be32(p.data, o) + base) % U32_SIZE
    ensures forall k: nat :: k + 4 <= |p.data| && (k + 4 <= o || o + 4 <= k) ==>
              Be32(Adjusted(p, base, o).data, k) == Be32(p.data, k)
  {
    hide Be32, Poke;
    PokeReads(p.data, o, (Be32(p.data, o) + base) % U32_SIZE);
  }

  /** The number at o is in big-endian bytes; 0, 0xdeadbeef and 0xffffffff are no phandles, and the sum must stay below. */
  lemma AdjustedBytes(p: Property, base: nat, o: nat)
    requires o + 4 <= |p.data|
    ensures var v, q := BigEndian(p.data[o..o + 4]), Adjusted(p, base, o);
              && (Adjustable(p, base, o) <==>
                  v != 0 && v != 0xdead_beef && v != 0xffff_ffff && 0 < (v + base) % 0x1_0000_0000 < 0xdead_beef)
              && (Adjustable(p, base, o) ==> BigEndian(q.data[o..o + 4]) == (v + base) % 0x1_0000_0000)
  {
    hide BigEndian, Be32;
    WordIsBigEndian(p.data, o);
    WordIsBigEndian(Adjusted(p, base, o).data, o);
    if Adjustable(p, base, o) {
      AdjustedReads(p, base, o);
    }
  }

  method DtAdjustPhandle(prop: Property, adjustment: nat, offset: nat) returns (after: Property, phandle: nat)
    ensures phandle == 0 <==> !Adjustable(prop, adjustment, offset)
    ensures phandle != 0 ==> offset + 4 <= |after.data| && phandle == Be32(after.data, offset)
    ensures after == Adjusted(prop, adjustment, offset)
  {
    hide Be32, Poke;
    if offset + 4 > |prop.data| {
      return prop, 0;
    }
    phandle := Be32(prop.data, offset);
    if phandle == 0 || phandle == PHANDLE_ILLEGAL || phandle == NO_PHANDLE {
      return prop, 0;
    }
    phandle := (phandle + adjustment) % U32_SIZE;
    if phandle >= PHANDLE_ILLEGAL {
      return prop, 0;
    }
    PokeReads(prop.data, offset, phandle);
    after := prop.(data := Poke(prop.data, offset, phandle));
  }

  // ----- All phandles of a tree

  predicate CanRenumber(p: Property, base: nat) {
    IsPhandle(p) ==> Adjustable(p, base, 0)
  }

  function Renumbered(p: Property, base: nat): Property {
    if IsPhandle(p) then Adjusted(p, base, 0) else p
  }

  // The source stops at the first property it cannot renumber.
  function FirstBad(ps: seq<Property>, base: nat): (k: nat)
    ensures k <= |ps| && (k < |ps| ==> !CanRenumber(ps[k], base))
    ensures forall i :: 0 <= i < k ==> CanRenumber(ps[i], base)
  {
    if ps == [] || !CanRenumber(ps[0], base) then 0 else 1 + FirstBad(ps[1..], base)
  }

  function RenumberedAll(ps: seq<Property>, base: nat): (qs: seq<Property>)
    ensures |qs| == |ps| && forall i :: 0 <= i < |ps| ==> qs[i] == Renumbered(ps[i], base)
  {
    seq(|ps|, i requires 0 <= i < |ps| => Renumbered(ps[i], base))
  }

  // The node's phandle after its first properties.
  function HandleAfter(ps: seq<Property>, base: nat, before: nat): nat
    decreases |ps|
  {
    if ps == [] then before
    else
      var last := ps[|ps| - 1];
      if !IsPhandle(last) then HandleAfter(ps[..|ps| - 1], base, before)
      else if Adjustable(last, base, 0) then Cell(Adjusted(last, base, 0)) else 0
  }

  function RenumberedNode(n: Node, base: nat): (r: Node)
    ensures r.name == n.name && |r.properties| == |n.properties| && |r.children| == |n.children|
    decreases n
  {
    var ps, k := n.properties, FirstBad(n.properties, base);
    if k < |ps| then
      Node(n.name, 0, RenumberedAll(ps[..k + 1], base) + ps[k + 1..], n.children)
    else
      Node(n.name, HandleAfter(ps, base, n.phandle), RenumberedAll(ps, base),
           seq(|n.children|, i requires 0 <= i < |n.children| => RenumberedNode(n.children[i], base)))
  }

  // The new values that reach the result: a node that fails hides itself and everything below.
  function Reported(n: Node, base: nat): set<nat>
    decreases n
  {
    if FirstBad(n.properties, base) < |n.properties| then {}
    else
      PhandlesIn(RenumberedAll(n.properties, base)) +
      set i, h | 0 <= i < |n.children| && h in Reported(n.children[i], base) :: h
  }

  // Every node has usable phandles only.
  ghost predicate AllAdjustable(n: Node, base: nat) {
    FirstBad(n.properties, base) == |n.properties| && forall c :: c in n.children ==> AllAdjustable(c, base)
  }

  // The children done so far.
  function ReportedOf(ns: seq<Node>, base: nat): set<nat> {
    set i, h | 0 <= i < |ns| && h in Reported(ns[i], base) :: h
  }

  lemma ReportedParts(n: Node, base: nat)
    requires FirstBad(n.properties, base) == |n.properties|
    ensures Reported(n, base) == PhandlesIn(RenumberedAll(n.properties, base)) + ReportedOf(n.children, base)
  {
  }

  lemma OneMoreReported(ns: seq<Node>, n: Node, base: nat)
    ensures ReportedOf(ns + [n], base) == ReportedOf(ns, base) + Reported(n, base)
  {
    var all := ns + [n];
    forall h
      ensures h in ReportedOf(all, base) <==> h in ReportedOf(ns, base) + Reported(n, base)
    {
      if h in ReportedOf(ns, base) {
        var i :| 0 <= i < |ns| && h in Reported(ns[i], base);
        assert all[i] == ns[i];
      }
      if h in Reported(n, base) {
        assert all[|ns|] == n;
      }
    }
  }

  // One more property that can be renumbered.
  lemma RenumberStep(ps: seq<Property>, base: nat, before: nat, i: nat)
    requires i < |ps| && CanRenumber(ps[i], base)
    ensures RenumberedAll(ps[..i + 1], base) == RenumberedAll(ps[..i], base) + [Renumbered(ps[i], base)]
    ensures HandleAfter(ps[..i + 1], base, before) ==
            if IsPhandle(ps[i]) then Cell(Adjusted(ps[i], base, 0)) else HandleAfter(ps[..i], base, before)
  {
    hide Adjustable, Adjusted, Cell;
    assert ps[..i + 1][..i] == ps[..i];
  }

  lemma FirstBadIs(ps: seq<Property>, base: nat, k: nat)
    requires k <= |ps| && (k < |ps| ==> !CanRenumber(ps[k], base))
    requires forall i :: 0 <= i < k ==> CanRenumber(ps[i], base)
    ensures FirstBad(ps, base) == k
    ensures k < |ps| <==> exists p :: p in ps && !CanRenumber(p, base)
  {
    var m := FirstBad(ps, base);
    assert k < |ps| ==> ps[k] in ps;
  }

  lemma FailedNode(n: Node, base: nat, k: nat)
    requires k < |n.properties| && FirstBad(n.properties, base) == k
    ensures RenumberedNode(n, base) ==
            Node(n.name, 0, RenumberedAll(n.properties[..k], base) + [Renumbered(n.properties[k], base)]
                            + n.properties[k + 1..], n.children)
  {
    hide CanRenumber, Renumbered;
    var ps := n.properties;
    assert RenumberedAll(ps[..k + 1], base) == RenumberedAll(ps[..k], base) + [Renumbered(ps[k], base)];
  }

  lemma WholeNode(n: Node, base: nat, children: seq<Node>)
    requires FirstBad(n.properties, base) == |n.properties| && |children| == |n.children|
    requires forall i :: 0 <= i < |children| ==> children[i] == RenumberedNode(n.children[i], base)
    ensures RenumberedNode(n, base) ==
            Node(n.name, HandleAfter(n.properties, base, n.phandle), RenumberedAll(n.properties, base), children)
  {
    hide CanRenumber, Renumbered, HandleAfter, RenumberedAll, FirstBad;
    assert RenumberedNode(n, base).children == children;
  }

  lemma HighestSame(r: nat, floor: nat, handles: set<nat>, h: nat)
    requires IsHighest(r, floor, handles)
    ensures IsHighest(if h > r then h else r, floor, handles + {h})
  {
  }

  // A child's own floor is the parent's too.
  lemma HighestChild(r: nat, q: nat, floor: nat, these: set<nat>, those: set<nat>)
    requires IsHighest(r, floor, these) && IsHighest(q, floor, those)
    ensures IsHighest(if q > r then q else r, floor, these + those)
  {
  }

  lemma ReportsNothing(n: Node, base: nat)
    requires FirstBad(n.properties, base) < |n.properties|
    ensures Reported(n, base) == {}
  {
  }

  lemma Empty(base: nat, before: nat, floor: nat)
    ensures RenumberedAll([], base) == [] && HandleAfter([], base, before) == before
    ensures IsHighest(floor, floor, PhandlesIn([])) && ReportedOf([], base) == {}
  {
  }

  // One property of the source's loop.
  method RenumberProperty(prop: Property, base: nat, phandle: nat, max: nat, ghost floor: nat, ghost done: seq<Property>)
    returns (after: Property, newPhandle: nat, newMax: nat, ok: bool)
    requires IsHighest(max, floor, PhandlesIn(done))
    ensures ok <==> CanRenumber(prop, base)
    ensures after == Renumbered(prop, base)
    ensures ok ==> newPhandle == (if IsPhandle(prop) then Cell(Adjusted(prop, base, 0)) else phandle)
    ensures ok ==> IsHighest(newMax, floor, PhandlesIn(done + [after]))
  {
    hide Be32, PhandlesIn, PhandleOf, IsHighest, Adjusted, Adjustable, PHANDLE, LINUX_PHANDLE;
    after, newPhandle, newMax, ok := prop, phandle, max, true;
    if IsPhandle(prop) {
      after, newPhandle := DtAdjustPhandle(prop, base, 0);
      ok := newPhandle != 0;
      newMax := if newPhandle > max then newPhandle else max;
      HighestSame(max, floor, PhandlesIn(done), newPhandle);
    }
    OneMoreProperty(done, after);
    assert PhandlesIn(done) + {} == PhandlesIn(done);
  }

  /**
   dt_adjust_all_phandles. A result of 0 says that a phandle of this very node could not be renumbered; a
   child that fails is not noticed, since its 0 disappears in the maximum.
   */
  method DtAdjustAllPhandles(node: Node, base: nat) returns (after: Node, newMax: nat)
    ensures after == RenumberedNode(node, base)
    ensures newMax == 0 <==> exists p :: p in node.properties && !CanRenumber(p, base)
    ensures newMax == 0 ==> Reported(node, base) == {}
    ensures newMax != 0 ==> IsHighest(newMax, if base > 1 then base else 1, Reported(node, base))
    decreases node
  {
    hide *;
    newMax := if base > 1 then base else 1;
    ghost var floor := newMax;
    var ps, phandle, properties := node.properties, node.phandle, [];
    Empty(base, node.phandle, floor);
    assert ps[..0] == [];
    for i := 0 to |ps|
      invariant forall j :: 0 <= j < i ==> CanRenumber(ps[j], base)
      invariant properties == RenumberedAll(ps[..i], base)
      invariant phandle == HandleAfter(ps[..i], base, node.phandle)
      invariant floor <= newMax && IsHighest(newMax, floor, PhandlesIn(properties))
    {
      var prop, ok;
      prop, phandle, newMax, ok := RenumberProperty(ps[i], base, phandle, newMax, floor, properties);
      if !ok {
        FirstBadIs(ps, base, i);
        FailedNode(node, base, i);
        ReportsNothing(node, base);
        return Node(node.name, 0, properties + [prop] + ps[i + 1..], node.children), 0;
      }
      RenumberStep(ps, base, node.phandle, i);
      HighestFloor(newMax, floor, PhandlesIn(properties + [prop]));
      properties := properties + [prop];
    }
    assert ps[..|ps|] == ps;
    FirstBadIs(ps, base, |ps|);
    ReportedParts(node, base);

    var children: seq<Node> := [];
    assert node.children[..0] == [];
    assert PhandlesIn(properties) + {} == PhandlesIn(properties);
    for i := 0 to |node.children|
      invariant |children| == i
      invariant forall j :: 0 <= j < i ==> children[j] == RenumberedNode(node.children[j], base)
      invariant floor <= newMax
      invariant IsHighest(newMax, floor, PhandlesIn(properties) + ReportedOf(node.children[..i], base))
    {
      var child, childMax := DtAdjustAllPhandles(node.children[i], base);
      ghost var these := PhandlesIn(properties) + ReportedOf(node.children[..i], base);
      assert node.children[..i + 1] == node.children[..i] + [node.children[i]];
      OneMoreReported(node.children[..i], node.children[i], base);
      JoinChild(newMax, childMax, floor, these, Reported(node.children[i], base));
      newMax := if childMax > newMax then childMax else newMax;
      assert these + Reported(node.children[i], base) ==
             PhandlesIn(properties) + ReportedOf(node.children[..i + 1], base);
      children := children + [child];
    }
    assert node.children[..|node.children|] == node.children;
    WholeNode(node, base, children);
    after := Node(node.name, phandle, properties, children);
  }

  lemma HighestFloor(r: nat, floor: nat, handles: set<nat>)
    requires IsHighest(r, floor, handles)
    ensures floor <= r
  {
  }

  lemma JoinChild(r: nat, q: nat, floor: nat, these: set<nat>, those: set<nat>)
    requires IsHighest(r, floor, these)
    requires q == 0 ==> those == {}
    requires q != 0 ==> IsHighest(q, floor, those)
    ensures floor <= r && IsHighest(if q > r then q else r, floor, these + those)
  {
    if q == 0 {
      assert these + those == these;
    } else {
      HighestChild(r, q, floor, these, those);
    }
  }
}
