/**
 Local references of an overlay follow its renumbered phandles (src/commonlib/device_tree.c,
 dt_fixup_locals and the first half of dt_apply_overlay).
 */
module OverlayFixups {
  import opened Buffers
  import opened FdtFormat
  import opened TreeSearch
  import opened TreeMerge
  import opened FdtReader
  import opened OverlayPhandles

  // ----- The fixups of one property: a list of offsets

  function Offsets(f: Property): (offsets: seq<nat>)
    ensures |offsets| == |f.data| / 4
  {
    seq(|f.data| / 4, i requires 0 <= i < |f.data| / 4 => Be32(f.data, 4 * i))
  }

  // All of them adjusted, one after the other.
  function AdjustedAt(p: Property, base: nat, offsets: seq<nat>): (r: Property)
    ensures r.name == p.name && |r.data| == |p.data|
    decreases |offsets|
  {
    if offsets == [] then p
    else Adjusted(AdjustedAt(p, base, offsets[..|offsets| - 1]), base, offsets[|offsets| - 1])
  }

  // Each reference is listed once.
  ghost predicate Apart(offsets: seq<nat>) {
    forall i, j :: 0 <= i < j < |offsets| ==> offsets[i] + 4 <= offsets[j] || offsets[j] + 4 <= offsets[i]
  }

  // Listed cells get the sum, cells beside all of them stay.
  lemma {:induction false} AdjustedAtReads(p: Property, base: nat, offsets: seq<nat>, k: nat)
    requires Apart(offsets) && forall o :: o in offsets ==> Adjustable(p, base, o)
    requires k + 4 <= |p.data|
    ensures k in offsets ==> Be32(AdjustedAt(p, base, offsets).data, k) == (Be32(p.data, k) + base) % U32_SIZE
    ensures (forall o :: o in offsets ==> o + 4 <= k || k + 4 <= o) ==>
              Be32(AdjustedAt(p, base, offsets).data, k) == Be32(p.data, k)
    decreases |offsets|
  {
    hide Adjusted, Be32;
    if offsets != [] {
      var before, last := offsets[..|offsets| - 1], offsets[|offsets| - 1];
      var q := AdjustedAt(p, base, before);
      assert offsets == before + [last];
      assert last in offsets && forall o :: o in before ==> o in offsets;
      assert AdjustedAt(p, base, offsets) == Adjusted(q, base, last);
      LastStillAdjustable(p, base, offsets);
      AdjustedReads(q, base, last);
      hide Adjustable, AdjustedAt;
      AdjustedAtReads(p, base, before, k);
      AdjustedAtReads(p, base, before, last);
    }
  }

  // The last of some offsets, after the others.
  lemma {:induction false} LastStillAdjustable(p: Property, base: nat, offsets: seq<nat>)
    requires offsets != [] && Apart(offsets)
    requires var before := offsets[..|offsets| - 1]; forall o :: o in before ==> Adjustable(p, base, o)
    ensures var last, q := offsets[|offsets| - 1], AdjustedAt(p, base, offsets[..|offsets| - 1]);
              && (Adjustable(q, base, last) <==> Adjustable(p, base, last))
              && (last + 4 <= |p.data| ==> Be32(q.data, last) == Be32(p.data, last))
    decreases |offsets|, 0
  {
    var before, last := offsets[..|offsets| - 1], offsets[|offsets| - 1];
    hide AdjustedAt, Be32;
    if last + 4 <= |p.data| {
      BesideAll(p, base, before, last);
    }
  }

  lemma {:induction false} BesideAll(p: Property, base: nat, offsets: seq<nat>, k: nat)
    requires Apart(offsets) && forall o :: o in offsets ==> Adjustable(p, base, o)
    requires k + 4 <= |p.data| && forall o :: o in offsets ==> o + 4 <= k || k + 4 <= o
    ensures Be32(AdjustedAt(p, base, offsets).data, k) == Be32(p.data, k)
    decreases |offsets|, 1
  {
    hide Adjusted, Be32;
    if offsets != [] {
      var before, last := offsets[..|offsets| - 1], offsets[|offsets| - 1];
      var q := AdjustedAt(p, base, before);
      assert last in offsets && forall o :: o in before ==> o in offsets;
      assert AdjustedAt(p, base, offsets) == Adjusted(q, base, last);
      LastStillAdjustable(p, base, offsets);
      AdjustedReads(q, base, last);
      hide Adjustable, AdjustedAt;
      BesideAll(p, base, before, k);
    }
  }

  // ----- The fixups of a node

  function FixedProperty(ps: seq<Property>, j: nat, fs: seq<Property>, base: nat): (r: Property)
    requires j < |ps|
    ensures r.name == ps[j].name && |r.data| == |ps[j].data|
  {
    match Lookup(fs, ps[j].name)
    case None => ps[j]
    case Some(f) => if PropertyIndex(ps, ps[j].name) == j then AdjustedAt(ps[j], base, Offsets(f)) else ps[j]
  }

  function FixedProperties(ps: seq<Property>, fs: seq<Property>, base: nat): (qs: seq<Property>)
    ensures |qs| == |ps| && forall j :: 0 <= j < |ps| ==> qs[j] == FixedProperty(ps, j, fs, base)
  {
    seq(|ps|, j requires 0 <= j < |ps| => FixedProperty(ps, j, fs, base))
  }

  function Fixed(n: Node, fix: Node, base: nat): (r: Node)
    ensures r.name == n.name && r.phandle == n.phandle && |r.children| == |n.children|
    decreases fix, 2
  {
    Node(n.name, n.phandle, FixedProperties(n.properties, fix.properties, base),
         FixedChildren(n.children, fix.children, base))
  }

  function FixedChildren(ns: seq<Node>, gs: seq<Node>, base: nat): (ms: seq<Node>)
    ensures |ms| == |ns| && forall j :: 0 <= j < |ns| ==> ms[j] == FixedChild(ns, j, gs, base)
    decreases gs, 1
  {
    seq(|ns|, j requires 0 <= j < |ns| => FixedChild(ns, j, gs, base))
  }

  function FixedChild(ns: seq<Node>, j: nat, gs: seq<Node>, base: nat): (r: Node)
    requires j < |ns|
    ensures r.name == ns[j].name && r.phandle == ns[j].phandle
    decreases gs, 0
  {
    ChildIsIn(gs, ns[j].name);
    match FirstChild(gs, ns[j].name)
    case None => ns[j]
    case Some(g) => if IndexOf(ns, ns[j].name) == j then Fixed(ns[j], g, base) else ns[j]
  }

  // Names and references are listed once.
  ghost predicate WellListed(fix: Node) {
    && UniqueNames(fix.properties) && UniqueChildren(fix.children)
    && (forall f :: f in fix.properties ==> Apart(Offsets(f)))
    && (forall g :: g in fix.children ==> WellListed(g))
  }

  ghost predicate FixableProperty(ps: seq<Property>, f: Property, base: nat) {
    && Lookup(ps, f.name).Some? && |f.data| % 4 == 0
    && forall o :: o in Offsets(f) ==> Adjustable(Lookup(ps, f.name).value, base, o)
  }

  // Every fixup has its place, and every place holds a usable phandle.
  ghost predicate Fixable(n: Node, fix: Node, base: nat)
    decreases fix
  {
    && (forall f :: f in fix.properties ==> FixableProperty(n.properties, f, base))
    && (forall g :: g in fix.children ==>
          FirstChild(n.children, g.name).Some? && Fixable(FirstChild(n.children, g.name).value, g, base))
  }

  // ----- Any fixups, one after the other

  function AdjustEach(p: Property, base: nat, offsets: seq<nat>): (r: Option<Property>)
    ensures r.Some? ==> r.value.name == p.name
    decreases |offsets|
  {
    if offsets == [] then Some(p)
    else
      var q, last := AdjustEach(p, base, offsets[..|offsets| - 1]), offsets[|offsets| - 1];
      if q.Some? && Adjustable(q.value, base, last) then Some(Adjusted(q.value, base, last)) else None
  }

  function FixOneProperty(ps: seq<Property>, f: Property, base: nat): Option<seq<Property>> {
    var k := PropertyIndex(ps, f.name);
    if k == |ps| || |f.data| % 4 != 0 then None
    else
      var q := AdjustEach(ps[k], base, Offsets(f));
      if q.Some? then Some(ps[k := q.value]) else None
  }

  function FixEachProperty(ps: seq<Property>, fs: seq<Property>, base: nat): Option<seq<Property>>
    decreases |fs|
  {
    if fs == [] then Some(ps)
    else
      var qs := FixEachProperty(ps, fs[..|fs| - 1], base);
      if qs.Some? then FixOneProperty(qs.value, fs[|fs| - 1], base) else None
  }

  function FixNode(n: Node, fix: Node, base: nat): Option<Node>
    decreases fix, 2
  {
    var ps, ns := FixEachProperty(n.properties, fix.properties, base), FixEachChild(n.children, fix.children, base);
    if ps.Some? && ns.Some? then Some(Node(n.name, n.phandle, ps.value, ns.value)) else None
  }

  function FixOneChild(ns: seq<Node>, g: Node, base: nat): Option<seq<Node>>
    decreases g, 3
  {
    var k := IndexOf(ns, g.name);
    if k == |ns| then None
    else
      var m := FixNode(ns[k], g, base);
      if m.Some? then Some(ns[k := m.value]) else None
  }

  function FixEachChild(ns: seq<Node>, gs: seq<Node>, base: nat): Option<seq<Node>>
    decreases gs, 1
  {
    if gs == [] then Some(ns)
    else
      var ms := FixEachChild(ns, gs[..|gs| - 1], base);
      if ms.Some? then FixOneChild(ms.value, gs[|gs| - 1], base) else None
  }

  // ----- Each reference listed once

  lemma {:induction false} EachApart(p: Property, base: nat, offsets: seq<nat>)
    requires Apart(offsets)
    ensures AdjustEach(p, base, offsets) ==
            if forall o :: o in offsets ==> Adjustable(p, base, o) then Some(AdjustedAt(p, base, offsets)) else None
    decreases |offsets|
  {
    hide *;
    if offsets == [] {
      NoOffsets(p, base);
      NoneAdjusted(p, base);
    } else {
      var k := |offsets| - 1;
      ApartPrefix(offsets);
      EachApart(p, base, offsets[..k]);
      EachStep(p, base, offsets, k);
      assert offsets[..k + 1] == offsets == offsets[..k] + [offsets[k]];
      if forall o :: o in offsets[..k] ==> Adjustable(p, base, o) {
        ApplyStep(p, base, offsets, k);
      } else {
        var o :| o in offsets[..k] && !Adjustable(p, base, o);
        assert o in offsets;
      }
    }
  }

  lemma ApartPrefix(offsets: seq<nat>)
    requires Apart(offsets) && offsets != []
    ensures Apart(offsets[..|offsets| - 1])
  {
  }

  lemma {:induction false} EachPropertyUnique(ps: seq<Property>, fs: seq<Property>, base: nat)
    requires UniqueNames(fs) && forall f :: f in fs ==> Apart(Offsets(f))
    ensures FixEachProperty(ps, fs, base) ==
            if forall f :: f in fs ==> FixableProperty(ps, f, base) then Some(FixedProperties(ps, fs, base)) else None
    decreases |fs|
  {
    hide Apart, AdjustedAt, Offsets, FixOneProperty, FixableProperty, FixedProperties, Lookup;
    if fs == [] {
      NoFixups(ps, base);
    } else {
      var i := |fs| - 1;
      var before, f := fs[..i], fs[i];
      assert fs == before + [f] && fs[..i + 1] == fs;
      EachPropertyUnique(ps, before, base);
      if forall g :: g in before ==> FixableProperty(ps, g, base) {
        FixOneExactly(ps, FixedProperties(ps, before, base), f, base);
        if PropertyIndex(ps, f.name) < |ps| {
          FixPropertyStep(ps, fs, base, i);
        }
      }
    }
  }

  // qs are the properties ps, of which the one named by f has not changed yet.
  lemma FixOneExactly(ps: seq<Property>, qs: seq<Property>, f: Property, base: nat)
    requires |qs| == |ps| && (forall j :: 0 <= j < |ps| ==> qs[j].name == ps[j].name) && Apart(Offsets(f))
    ensures PropertyIndex(ps, f.name) == |ps| ==> FixOneProperty(qs, f, base) == None && !FixableProperty(ps, f, base)
    ensures var k := PropertyIndex(ps, f.name);
              k < |ps| && qs[k] == ps[k] ==>
                FixOneProperty(qs, f, base) ==
                if FixableProperty(ps, f, base) then Some(qs[k := AdjustedAt(ps[k], base, Offsets(f))]) else None
  {
    hide Apart, AdjustedAt, AdjustEach, Offsets, Adjustable, Lookup;
    SamePropertyIndex(ps, qs, f.name);
    var k := PropertyIndex(ps, f.name);
    if k < |ps| {
      EachApart(ps[k], base, Offsets(f));
    }
  }

  /** Where names and references are listed once, fixing succeeds exactly if everything is fixable, and this is its result. */
  lemma {:induction false} FixNodeExactly(n: Node, fix: Node, base: nat)
    requires WellListed(fix)
    ensures FixNode(n, fix, base) == if Fixable(n, fix, base) then Some(Fixed(n, fix, base)) else None
    decreases fix, 2
  {
    hide *;
    WellListedParts(fix);
    EachPropertyUnique(n.properties, fix.properties, base);
    EachChildUnique(n.children, fix.children, base);
    FixableParts(n, fix, base);
    FixedIs(n, fix, base);
    FixNodeIs(n, fix, base);
  }

  lemma FixNodeIs(n: Node, fix: Node, base: nat)
    ensures FixNode(n, fix, base) ==
            var ps, ns := FixEachProperty(n.properties, fix.properties, base), FixEachChild(n.children, fix.children, base);
              if ps.Some? && ns.Some? then Some(Node(n.name, n.phandle, ps.value, ns.value)) else None
  {
    hide FixEachProperty, FixEachChild;
  }

  lemma {:induction false} EachChildUnique(ns: seq<Node>, gs: seq<Node>, base: nat)
    requires UniqueChildren(gs) && forall g :: g in gs ==> WellListed(g)
    ensures FixEachChild(ns, gs, base) ==
            if forall g :: g in gs ==> FixableChild(ns, g, base) then Some(FixedChildren(ns, gs, base)) else None
    decreases gs, 1
  {
    hide *;
    if gs == [] {
      NoFixupNodes(ns, base);
      NoFixupChildren(ns, base);
    } else {
      var i := |gs| - 1;
      var before, g := gs[..i], gs[i];
      assert gs == before + [g] && gs[..i + 1] == gs;
      UniquePrefix(gs);
      EachChildUnique(ns, before, base);
      EachChildStep(ns, gs, base, i);
      if forall h :: h in before ==> FixableChild(ns, h, base) {
        var ms := FixedChildren(ns, before, base);
        var k := IndexOf(ms, g.name);
        IndexOfIs(ms, g.name);
        FirstChildIndex(ns, ms, g.name, k);
        FixableChildIs(ns, g, base);
        FixChildIs(ms, g, base, k);
        if k < |ns| {
          FixChildStep(ns, gs, base, i);
          FixNodeExactly(ns[k], g, base);
        }
      }
    }
  }

  lemma UniquePrefix(gs: seq<Node>)
    requires UniqueChildren(gs) && gs != []
    ensures UniqueChildren(gs[..|gs| - 1])
  {
  }

  lemma IndexOfIs(ns: seq<Node>, name: seq<byte>)
    ensures var k := IndexOf(ns, name);
              k <= |ns| && (k < |ns| ==> ns[k].name == name) && forall j :: 0 <= j < k ==> ns[j].name != name
  {
  }

  // ----- The source's loops

  lemma ApplyStep(p: Property, base: nat, offsets: seq<nat>, k: nat)
    requires Apart(offsets) && k < |offsets| && forall o :: o in offsets[..k] ==> Adjustable(p, base, o)
    ensures var q := AdjustedAt(p, base, offsets[..k]);
              && (Adjustable(q, base, offsets[k]) <==> Adjustable(p, base, offsets[k]))
              && AdjustedAt(p, base, offsets[..k + 1]) == Adjusted(q, base, offsets[k])
    ensures offsets[..k + 1] == offsets[..k] + [offsets[k]] && offsets[k] in offsets
  {
    hide Adjustable, Adjusted, Be32;
    assert offsets[..k + 1][..k] == offsets[..k];
    LastStillAdjustable(p, base, offsets[..k + 1]);
  }

  lemma OffsetsAre(f: Property, k: nat)
    requires k < |Offsets(f)|
    ensures 4 * k + 4 <= |f.data| && Offsets(f)[k] == Be32(f.data, 4 * k)
  {
  }

  lemma NoneAdjusted(p: Property, base: nat)
    ensures AdjustedAt(p, base, []) == p
  {
  }

  lemma NoOffsets(p: Property, base: nat)
    ensures AdjustEach(p, base, []) == Some(p)
  {
  }

  lemma EachStep(p: Property, base: nat, offsets: seq<nat>, k: nat)
    requires k < |offsets|
    ensures var q := AdjustEach(p, base, offsets[..k]);
              AdjustEach(p, base, offsets[..k + 1]) ==
              if q.Some? && Adjustable(q.value, base, offsets[k]) then Some(Adjusted(q.value, base, offsets[k])) else None
  {
    hide Adjustable, Adjusted;
    assert offsets[..k + 1][..k] == offsets[..k];
  }

  lemma {:induction false} EachFails(p: Property, base: nat, offsets: seq<nat>, k: nat)
    requires k <= |offsets| && AdjustEach(p, base, offsets[..k]).None?
    ensures AdjustEach(p, base, offsets).None?
    decreases |offsets| - k
  {
    hide *;
    if k < |offsets| {
      EachStep(p, base, offsets, k);
      EachFails(p, base, offsets, k + 1);
    } else {
      assert offsets[..k] == offsets;
    }
  }

  method ApplyFixups(prop: Property, f: Property, base: nat) returns (after: Property, ok: bool)
    requires |f.data| % 4 == 0
    ensures ok <==> AdjustEach(prop, base, Offsets(f)).Some?
    ensures ok ==> Some(after) == AdjustEach(prop, base, Offsets(f))
  {
    hide *;
    after := prop;
    ghost var offsets := Offsets(f);
    assert offsets[..0] == [];
    NoOffsets(prop, base);
    var i := 0;
    while i < |f.data|
      invariant i <= |f.data| && i % 4 == 0
      invariant Some(after) == AdjustEach(prop, base, offsets[..i / 4])
    {
      EachStep(prop, base, offsets, i / 4);
      OffsetsAre(f, i / 4);
      var phandle;
      after, phandle := DtAdjustPhandle(after, base, Be32(f.data, i));
      if phandle == 0 {
        EachFails(prop, base, offsets, i / 4 + 1);
        return after, false;
      }
      i := i + 4;
    }
    assert offsets[..|offsets|] == offsets;
    return after, true;
  }

  // One more fixup property done.
  lemma FixPropertyStep(ps: seq<Property>, fs: seq<Property>, base: nat, i: nat)
    requires i < |fs| && UniqueNames(fs) && Lookup(ps, fs[i].name).Some?
    ensures var k := PropertyIndex(ps, fs[i].name);
              && FixedProperties(ps, fs[..i], base)[k] == ps[k]
              && FixedProperties(ps, fs[..i + 1], base) ==
                 FixedProperties(ps, fs[..i], base)[k := AdjustedAt(ps[k], base, Offsets(fs[i]))]
  {
    hide AdjustedAt, Offsets;
    var k := PropertyIndex(ps, fs[i].name);
    assert fs[..i + 1] == fs[..i] + [fs[i]];
    LookupNone(fs[..i], fs[i].name);
    forall j | 0 <= j < |ps|
      ensures FixedProperty(ps, j, fs[..i + 1], base) ==
              if j == k then AdjustedAt(ps[k], base, Offsets(fs[i])) else FixedProperty(ps, j, fs[..i], base)
    {
      LookupAppend(fs[..i], fs[i], ps[j].name);
    }
  }

  lemma NotListed(ps: seq<Property>, j: nat, base: nat)
    requires j < |ps|
    ensures FixedProperty(ps, j, [], base) == ps[j]
  {
  }

  lemma NoFixups(ps: seq<Property>, base: nat)
    ensures FixedProperties(ps, [], base) == ps
  {
    forall j | 0 <= j < |ps| {
      NotListed(ps, j, base);
    }
  }

  lemma SamePropertyIndex(ps: seq<Property>, qs: seq<Property>, name: seq<byte>)
    requires |ps| == |qs| && forall j :: 0 <= j < |ps| ==> ps[j].name == qs[j].name
    ensures PropertyIndex(ps, name) == PropertyIndex(qs, name)
  {
    var a, b := PropertyIndex(ps, name), PropertyIndex(qs, name);
    assert a < |ps| ==> qs[a].name == name;
    assert b < |qs| ==> ps[b].name == name;
  }

  lemma NoFixupProperties(ps: seq<Property>, base: nat)
    ensures FixEachProperty(ps, [], base) == Some(ps)
  {
  }

  lemma EachPropertyStep(ps: seq<Property>, fs: seq<Property>, base: nat, i: nat)
    requires i < |fs|
    ensures var qs := FixEachProperty(ps, fs[..i], base);
              FixEachProperty(ps, fs[..i + 1], base) ==
              if qs.Some? then FixOneProperty(qs.value, fs[i], base) else None
  {
    hide FixOneProperty;
    assert fs[..i + 1][..i] == fs[..i];
  }

  lemma {:induction false} EachPropertyFails(ps: seq<Property>, fs: seq<Property>, base: nat, i: nat)
    requires i <= |fs| && FixEachProperty(ps, fs[..i], base).None?
    ensures FixEachProperty(ps, fs, base).None?
    decreases |fs| - i
  {
    hide *;
    if i < |fs| {
      EachPropertyStep(ps, fs, base, i);
      EachPropertyFails(ps, fs, base, i + 1);
    } else {
      assert fs[..i] == fs;
    }
  }

  lemma FixOneIs(ps: seq<Property>, f: Property, base: nat, k: nat)
    requires k <= |ps| && (k < |ps| ==> ps[k].name == f.name) && forall j :: 0 <= j < k ==> ps[j].name != f.name
    ensures k == |ps| || |f.data| % 4 != 0 ==> FixOneProperty(ps, f, base) == None
    ensures k < |ps| && |f.data| % 4 == 0 ==>
              var q := AdjustEach(ps[k], base, Offsets(f));
                FixOneProperty(ps, f, base) == if q.Some? then Some(ps[k := q.value]) else None
  {
    hide AdjustEach, Offsets;
    IndexIs(ps, f.name, k);
  }

  method FixProperties(ps: seq<Property>, fs: seq<Property>, base: nat) returns (after: seq<Property>, ok: bool)
    ensures ok <==> FixEachProperty(ps, fs, base).Some?
    ensures ok ==> Some(after) == FixEachProperty(ps, fs, base)
  {
    hide *;
    after := ps;
    assert fs[..0] == [];
    NoFixupProperties(ps, base);
    for i := 0 to |fs|
      invariant Some(after) == FixEachProperty(ps, fs[..i], base)
    {
      var f := fs[i];
      var k := 0;
      while k < |after| && after[k].name != f.name
        invariant k <= |after| && forall j :: 0 <= j < k ==> after[j].name != f.name
      {
        k := k + 1;
      }
      EachPropertyStep(ps, fs, base, i);
      FixOneIs(after, f, base, k);
      if k == |after| || |f.data| % 4 != 0 {
        EachPropertyFails(ps, fs, base, i + 1);
        return after, false;
      }
      var prop, done := ApplyFixups(after[k], f, base);
      if !done {
        EachPropertyFails(ps, fs, base, i + 1);
        return after, false;
      }
      after := after[k := prop];
    }
    assert fs[..|fs|] == fs;
    return after, true;
  }

  lemma IndexIs(ps: seq<Property>, name: seq<byte>, k: nat)
    requires k <= |ps| && (k < |ps| ==> ps[k].name == name) && forall j :: 0 <= j < k ==> ps[j].name != name
    ensures PropertyIndex(ps, name) == k
  {
    var m := PropertyIndex(ps, name);
  }

  // One more fixup child done.
  lemma FixChildStep(ns: seq<Node>, gs: seq<Node>, base: nat, i: nat)
    requires i < |gs| && UniqueChildren(gs) && IndexOf(ns, gs[i].name) < |ns|
    ensures var k := IndexOf(ns, gs[i].name);
              && FixedChildren(ns, gs[..i], base)[k] == ns[k]
              && FixedChildren(ns, gs[..i + 1], base) ==
                 FixedChildren(ns, gs[..i], base)[k := Fixed(ns[k], gs[i], base)]
  {
    hide Fixed;
    var k := IndexOf(ns, gs[i].name);
    assert gs[..i + 1] == gs[..i] + [gs[i]];
    assert FirstChild(gs[..i], gs[i].name) == None by {
      var m := IndexOf(gs[..i], gs[i].name);
    }
    forall j | 0 <= j < |ns|
      ensures FixedChild(ns, j, gs[..i + 1], base) ==
              if j == k then Fixed(ns[k], gs[i], base) else FixedChild(ns, j, gs[..i], base)
    {
      ChildAppend(gs[..i], gs[i], ns[j].name);
    }
  }

  lemma ChildNotListed(ns: seq<Node>, j: nat, base: nat)
    requires j < |ns|
    ensures FixedChild(ns, j, [], base) == ns[j]
  {
  }

  lemma NoFixupChildren(ns: seq<Node>, base: nat)
    ensures FixedChildren(ns, [], base) == ns
  {
    forall j | 0 <= j < |ns| {
      ChildNotListed(ns, j, base);
    }
  }

  lemma FirstChildIndex(ns: seq<Node>, ms: seq<Node>, name: seq<byte>, k: nat)
    requires |ms| == |ns| && forall j :: 0 <= j < |ns| ==> ms[j].name == ns[j].name
    requires k <= |ns| && (k < |ns| ==> ms[k].name == name) && forall j :: 0 <= j < k ==> ms[j].name != name
    ensures IndexOf(ns, name) == k && FirstChild(ns, name) == if k < |ns| then Some(ns[k]) else None
  {
    var m := IndexOf(ns, name);
    assert m < |ns| ==> ms[m].name == name;
  }

  ghost predicate FixableChild(ns: seq<Node>, g: Node, base: nat) {
    FirstChild(ns, g.name).Some? && Fixable(FirstChild(ns, g.name).value, g, base)
  }

  lemma FixableParts(n: Node, fix: Node, base: nat)
    ensures Fixable(n, fix, base) <==>
              && (forall f :: f in fix.properties ==> FixableProperty(n.properties, f, base))
              && (forall g :: g in fix.children ==> FixableChild(n.children, g, base))
  {
    hide FixableProperty;
  }

  lemma WellListedParts(fix: Node)
    requires WellListed(fix)
    ensures UniqueNames(fix.properties) && UniqueChildren(fix.children)
    ensures forall f :: f in fix.properties ==> Apart(Offsets(f))
    ensures forall g :: g in fix.children ==> WellListed(g)
  {
    hide UniqueNames, UniqueChildren, Apart, Offsets;
  }

  lemma EachChildStep(ns: seq<Node>, gs: seq<Node>, base: nat, i: nat)
    requires i < |gs|
    ensures var ms := FixEachChild(ns, gs[..i], base);
              FixEachChild(ns, gs[..i + 1], base) == if ms.Some? then FixOneChild(ms.value, gs[i], base) else None
  {
    hide FixOneChild;
    assert gs[..i + 1][..i] == gs[..i];
  }

  lemma {:induction false} EachChildFails(ns: seq<Node>, gs: seq<Node>, base: nat, i: nat)
    requires i <= |gs| && FixEachChild(ns, gs[..i], base).None?
    ensures FixEachChild(ns, gs, base).None?
    decreases |gs| - i
  {
    hide *;
    if i < |gs| {
      EachChildStep(ns, gs, base, i);
      EachChildFails(ns, gs, base, i + 1);
    } else {
      assert gs[..i] == gs;
    }
  }

  lemma FixChildIs(ns: seq<Node>, g: Node, base: nat, k: nat)
    requires k <= |ns| && (k < |ns| ==> ns[k].name == g.name) && forall j :: 0 <= j < k ==> ns[j].name != g.name
    ensures k == |ns| ==> FixOneChild(ns, g, base) == None
    ensures k < |ns| ==> var m := FixNode(ns[k], g, base);
                           FixOneChild(ns, g, base) == if m.Some? then Some(ns[k := m.value]) else None
  {
    hide FixNode;
    FirstChildIndex(ns, ns, g.name, k);
  }

  lemma NoFixupNodes(ns: seq<Node>, base: nat)
    ensures FixEachChild(ns, [], base) == Some(ns)
  {
  }

  /** dt_fixup_locals: whether it succeeds, and what node becomes then. */
  method DtFixupLocals(node: Node, fixup: Node, base: nat) returns (after: Node, ok: bool)
    ensures ok <==> FixNode(node, fixup, base).Some?
    ensures ok ==> Some(after) == FixNode(node, fixup, base)
    decreases fixup
  {
    hide *;
    FixNodeIs(node, fixup, base);
    var properties;
    properties, ok := FixProperties(node.properties, fixup.properties, base);
    if !ok {
      return node.(properties := properties), false;
    }

    var children := node.children;
    assert fixup.children[..0] == [];
    NoFixupNodes(children, base);
    for i := 0 to |fixup.children|
      invariant Some(children) == FixEachChild(node.children, fixup.children[..i], base)
    {
      var g := fixup.children[i];
      var k := 0;
      while k < |children| && children[k].name != g.name
        invariant k <= |children| && forall j :: 0 <= j < k ==> children[j].name != g.name
      {
        k := k + 1;
      }
      EachChildStep(node.children, fixup.children, base, i);
      FixChildIs(children, g, base, k);
      if k == |children| {
        EachChildFails(node.children, fixup.children, base, i + 1);
        return Node(node.name, node.phandle, properties, children), false;
      }
      var child;
      child, ok := DtFixupLocals(children[k], g, base);
      if !ok {
        EachChildFails(node.children, fixup.children, base, i + 1);
        return Node(node.name, node.phandle, properties, children[k := child]), false;
      }
      children := children[k := child];
    }
    assert fixup.children[..|fixup.children|] == fixup.children;
    return Node(node.name, node.phandle, properties, children), true;
  }

  lemma AdjustedAgain(p: Property, base: nat, o: nat)
    requires Adjustable(p, base, o) && Be32(p.data, o) + 2 * base < PHANDLE_ILLEGAL
    ensures var q := Adjusted(p, base, o);
              Adjustable(q, base, o) && Be32(Adjusted(q, base, o).data, o) == Be32(p.data, o) + 2 * base
    ensures |Adjusted(Adjusted(p, base, o), base, o).data| == |p.data| >= o + 4
  {
    hide Be32, Poke, Adjusted;
    AdjustedReads(p, base, o);
    AdjustedReads(Adjusted(p, base, o), base, o);
  }

  /** A reference that is listed twice moves twice. */
  lemma ListedTwice(p: Property, base: nat, o: nat)
    requires Adjustable(p, base, o) && Be32(p.data, o) + 2 * base < PHANDLE_ILLEGAL
    ensures var q := AdjustEach(p, base, [o, o]);
              q.Some? && o + 4 <= |q.value.data| && Be32(q.value.data, o) == Be32(p.data, o) + 2 * base
  {
    hide *;
    AdjustedAgain(p, base, o);
    assert [o, o][..1] == [o, o][..0] + [o] && [o, o][..0] == [] && [o, o][..2] == [o, o];
    EachStep(p, base, [o, o], 1);
    EachStep(p, base, [o, o], 0);
    NoOffsets(p, base);
  }

  lemma FixableChildIs(ns: seq<Node>, g: Node, base: nat)
    ensures FixableChild(ns, g, base) <==>
            FirstChild(ns, g.name).Some? && Fixable(FirstChild(ns, g.name).value, g, base)
  {
  }

  lemma FixedIs(n: Node, fix: Node, base: nat)
    ensures Fixed(n, fix, base) == Node(n.name, n.phandle, FixedProperties(n.properties, fix.properties, base),
                                        FixedChildren(n.children, fix.children, base))
  {
  }
}
