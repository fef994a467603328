/**
 Merging one devicetree subtree into another (src/commonlib/device_tree.c, dt_copy_subtree): an override of
 maps, path by path and property by property.
 */
module TreeMerge {
  import opened Buffers
  import opened FdtFormat
  import opened TreeSearch

  const NAME: seq<byte> := [110, 97, 109, 101] // name

  // Properties that are never copied into an existing node.
  predicate IsIllegal(p: Property) {
    IsPhandle(p) || p.name == NAME
  }

  predicate IllegalName(name: seq<byte>) {
    name == PHANDLE || name == LINUX_PHANDLE || name == NAME
  }

  /** What is never copied is called phandle, linux,phandle or name. */
  lemma IllegalNames(p: Property)
    ensures IsIllegal(p) <==> IllegalName(p.name)
    ensures IllegalName(p.name) <==> p.name in [Ascii("phandle"), Ascii("linux,phandle"), Ascii("name")]
  {
    assert Ascii("phandle") == PHANDLE && Ascii("linux,phandle") == LINUX_PHANDLE && Ascii("name") == NAME;
  }

  // ----- Looking up properties

  function Lookup(ps: seq<Property>, name: seq<byte>): (found: Option<Property>)
    ensures found.Some? ==> found.value in ps && found.value.name == name
    ensures found.None? ==> forall p :: p in ps ==> p.name != name
  {
    if ps == [] then None
    else if ps[0].name == name then Some(ps[0])
    else Lookup(ps[1..], name)
  }

  function PropertyIndex(ps: seq<Property>, name: seq<byte>): (k: nat)
    ensures k <= |ps|
    ensures Lookup(ps, name) == if k < |ps| then Some(ps[k]) else None
    ensures k < |ps| ==> ps[k].name == name
    ensures forall i :: 0 <= i < k ==> ps[i].name != name
  {
    if ps == [] || ps[0].name == name then 0 else 1 + PropertyIndex(ps[1..], name)
  }

  // ----- What merging does, in the order of the source

  // One property of the source of the merge, into the properties of the destination.
  function MergedProperty(ps: seq<Property>, p: Property, upd: bool): seq<Property> {
    var k := PropertyIndex(ps, p.name);
    if IsIllegal(p) then ps
    else if k < |ps| then (if upd then ps[k := p] else ps)
    else [p] + ps
  }

  function MergedProperties(ps: seq<Property>, from: seq<Property>, upd: bool): seq<Property>
    decreases |from|
  {
    if from == [] then ps
    else MergedProperty(MergedProperties(ps, from[..|from| - 1], upd), from[|from| - 1], upd)
  }

  function Merged(dst: Node, src: Node, upd: bool): Node
    decreases src, 1
  {
    Node(dst.name, dst.phandle, MergedProperties(dst.properties, src.properties, upd),
         MergedNodes(dst.children, src.children, upd))
  }

  function MergedNode(ns: seq<Node>, n: Node, upd: bool): seq<Node>
    decreases n, 2
  {
    var k := IndexOf(ns, n.name);
    if k < |ns| then ns[k := Merged(ns[k], n, upd)] else [n] + ns
  }

  function MergedNodes(ns: seq<Node>, from: seq<Node>, upd: bool): seq<Node>
    decreases from, 0
  {
    if from == [] then ns
    else MergedNode(MergedNodes(ns, from[..|from| - 1], upd), from[|from| - 1], upd)
  }

  // ----- Properties

  ghost predicate UniqueNames(ps: seq<Property>) {
    forall i, j :: 0 <= i < j < |ps| ==> ps[i].name != ps[j].name
  }

  lemma LookupFirst(ps: seq<Property>, name: seq<byte>, k: nat)
    requires k < |ps| && ps[k].name == name && forall i :: 0 <= i < k ==> ps[i].name != name
    ensures Lookup(ps, name) == Some(ps[k])
  {
    var m := PropertyIndex(ps, name);
    assert m < |ps|;
  }

  lemma LookupNone(ps: seq<Property>, name: seq<byte>)
    requires forall p :: p in ps ==> p.name != name
    ensures Lookup(ps, name) == None
  {
  }

  // One property changes the value of its own name only.
  lemma MergedPropertyLookup(ps: seq<Property>, p: Property, upd: bool, name: seq<byte>)
    ensures Lookup(MergedProperty(ps, p, upd), name) ==
            if name != p.name || IsIllegal(p) || (!upd && Lookup(ps, name).Some?) then Lookup(ps, name) else Some(p)
  {
    var k := PropertyIndex(ps, p.name);
    var qs := MergedProperty(ps, p, upd);
    if !IsIllegal(p) && k < |ps| && upd {
      assert qs == ps[k := p];
      if name == p.name {
        LookupFirst(qs, name, k);
      } else {
        var m := PropertyIndex(ps, name);
        if m < |ps| {
          LookupFirst(qs, name, m);
        } else {
          LookupNone(qs, name);
        }
      }
    } else if !IsIllegal(p) && k == |ps| {
      assert qs[1..] == ps;
    }
  }

  lemma LookupAppend(ps: seq<Property>, p: Property, name: seq<byte>)
    ensures Lookup(ps + [p], name) ==
            if Lookup(ps, name).Some? then Lookup(ps, name) else if p.name == name then Some(p) else None
  {
    var k := PropertyIndex(ps, name);
    if k < |ps| {
      LookupFirst(ps + [p], name, k);
    } else if p.name == name {
      LookupFirst(ps + [p], name, |ps|);
    } else {
      LookupNone(ps + [p], name);
    }
  }

  // With upd the source wins wherever it has a value, without it the destination does; illegal names never move.
  lemma {:induction false} MergedPropertiesLookup(ps: seq<Property>, from: seq<Property>, upd: bool, name: seq<byte>)
    requires UniqueNames(from)
    ensures Lookup(MergedProperties(ps, from, upd), name) ==
            if IllegalName(name) || Lookup(from, name).None? || (!upd && Lookup(ps, name).Some?) then Lookup(ps, name)
            else Lookup(from, name)
    decreases |from|
  {
    hide MergedProperty, IsPhandle;
    if from != [] {
      var before, last := from[..|from| - 1], from[|from| - 1];
      MergedPropertiesLookup(ps, before, upd, name);
      MergedPropertyLookup(MergedProperties(ps, before, upd), last, upd, name);
      assert from == before + [last];
      LookupAppend(before, last, name);
      IllegalIsName(last);
      assert last.name == name ==> Lookup(before, name).None?;
    }
  }

  lemma IllegalIsName(p: Property)
    ensures IsIllegal(p) <==> IllegalName(p.name)
  {
  }

  // ----- Children

  ghost predicate UniqueChildren(ns: seq<Node>) {
    forall i, j :: 0 <= i < j < |ns| ==> ns[i].name != ns[j].name
  }

  ghost predicate UniqueTree(n: Node) {
    UniqueNames(n.properties) && UniqueChildren(n.children) && forall c :: c in n.children ==> UniqueTree(c)
  }

  function MergedChild(d: Option<Node>, s: Option<Node>, upd: bool): Option<Node> {
    match (d, s)
    case (Some(m), Some(n)) => Some(Merged(m, n, upd))
    case (None, _) => s
    case (_, None) => d
  }

  lemma MergedNodeChild(ns: seq<Node>, n: Node, upd: bool, name: seq<byte>)
    ensures FirstChild(MergedNode(ns, n, upd), name) ==
            if name == n.name then MergedChild(FirstChild(ns, name), Some(n), upd) else FirstChild(ns, name)
  {
    var k := IndexOf(ns, n.name);
    var ms := MergedNode(ns, n, upd);
    if k < |ns| {
      assert Merged(ns[k], n, upd).name == n.name;
      hide Merged;
      assert ms == ns[k := Merged(ns[k], n, upd)];
      SameNames(ms, ns, name, k);
      if name == n.name {
        IndexIsFirst(ms, name, k);
      } else {
        var m := IndexOf(ns, name);
        assert m < |ns| ==> m != k;
      }
    } else {
      assert ms[1..] == ns;
    }
  }

  lemma ChildAppend(ns: seq<Node>, n: Node, name: seq<byte>)
    ensures FirstChild(ns + [n], name) ==
            if FirstChild(ns, name).Some? then FirstChild(ns, name) else if n.name == name then Some(n) else None
  {
    var k := IndexOf(ns, name);
    var m := IndexOf(ns + [n], name);
    if k < |ns| {
      IndexIsFirst(ns + [n], name, k);
    } else if n.name == name {
      IndexIsFirst(ns + [n], name, |ns|);
    } else {
      assert m < |ns| + 1 ==> (ns + [n])[m].name == name;
    }
  }

  lemma {:induction false} MergedNodesChild(ns: seq<Node>, from: seq<Node>, upd: bool, name: seq<byte>)
    requires UniqueChildren(from)
    ensures FirstChild(MergedNodes(ns, from, upd), name) == MergedChild(FirstChild(ns, name), FirstChild(from, name), upd)
    decreases |from|
  {
    hide MergedNode, Merged;
    if from != [] {
      var before, last := from[..|from| - 1], from[|from| - 1];
      MergedNodesChild(ns, before, upd, name);
      MergedNodeChild(MergedNodes(ns, before, upd), last, upd, name);
      assert from == before + [last];
      ChildAppend(before, last, name);
      assert last.name == name ==> FirstChild(before, name).None? by {
        var k := IndexOf(before, name);
        assert k < |before| ==> before[k].name == name;
      }
    }
  }

  // ----- The whole subtree

  // One place of the merged tree, from what the two trees have there.
  ghost predicate Overridden(after: Option<Node>, d: Option<Node>, s: Option<Node>, upd: bool) {
    match (d, s)
    case (None, _) => after == s
    case (_, None) => after == d
    case (Some(m), Some(n)) =>
      && after.Some? && after.value.name == m.name && after.value.phandle == m.phandle
      && forall name :: Lookup(after.value.properties, name) ==
                        if IllegalName(name) || Lookup(n.properties, name).None? || (!upd && Lookup(m.properties, name).Some?)
                        then Lookup(m.properties, name) else Lookup(n.properties, name)
  }

  /**
   At every path: what only one tree has is there unchanged, and where both have a node the properties are
   overridden one by one.
   */
  lemma {:induction false} MergeIsOverride(dst: Node, src: Node, upd: bool, path: Path)
    requires UniqueTree(src)
    ensures Overridden(Find(Merged(dst, src, upd), path), Find(dst, path), Find(src, path), upd)
    decreases |path|
  {
    if path == [] {
      forall name {
        MergedPropertiesLookup(dst.properties, src.properties, upd, name);
      }
    } else {
      MergedNodesChild(dst.children, src.children, upd, path[0]);
      match (FirstChild(dst.children, path[0]), FirstChild(src.children, path[0]))
      case (Some(m), Some(n)) =>
        ChildIsIn(src.children, path[0]);
        MergeIsOverride(m, n, upd, path[1..]);
      case _ =>
    }
  }

  lemma ChildIsIn(ns: seq<Node>, name: seq<byte>)
    ensures FirstChild(ns, name).Some? ==> FirstChild(ns, name).value in ns
  {
  }

  // ----- The source's merge

  method DtCopyProperties(dst: seq<Property>, src: seq<Property>, upd: bool) returns (properties: seq<Property>)
    ensures properties == MergedProperties(dst, src, upd)
  {
    properties := dst;
    for i := 0 to |src|
      invariant properties == MergedProperties(dst, src[..i], upd)
    {
      var p := src[i];
      assert src[..i + 1][..i] == src[..i];
      if IsIllegal(p) {
        continue;
      }

      var k := 0;
      while k < |properties| && properties[k].name != p.name
        invariant k <= |properties| && forall j :: 0 <= j < k ==> properties[j].name != p.name
      {
        k := k + 1;
      }
      assert k == PropertyIndex(properties, p.name);
      if k < |properties| {
        if !upd {
          continue;
        }
        properties := properties[k := p];
      } else {
        properties := [p] + properties;
      }
    }
    assert src[..|src|] == src;
  }

  lemma MergedNodesStep(ns: seq<Node>, from: seq<Node>, upd: bool, i: nat, k: nat)
    requires i < |from| && var m := MergedNodes(ns, from[..i], upd);
               && k <= |m| && (k < |m| ==> m[k].name == from[i].name)
               && forall j :: 0 <= j < k ==> m[j].name != from[i].name
    ensures var m := MergedNodes(ns, from[..i], upd);
              MergedNodes(ns, from[..i + 1], upd) == if k < |m| then m[k := Merged(m[k], from[i], upd)] else [from[i]] + m
  {
    assert from[..i + 1][..i] == from[..i];
    assert k == IndexOf(MergedNodes(ns, from[..i], upd), from[i].name);
    hide Merged;
  }

  lemma MergedParts(dst: Node, src: Node, upd: bool)
    ensures Merged(dst, src, upd) == Node(dst.name, dst.phandle,
                                          MergedProperties(dst.properties, src.properties, upd),
                                          MergedNodes(dst.children, src.children, upd))
    ensures MergedNodes(dst.children, [], upd) == dst.children
  {
  }

  /** dt_copy_subtree: gives what dst becomes. */
  method DtCopySubtree(dst: Node, src: Node, upd: bool) returns (after: Node)
    ensures after == Merged(dst, src, upd)
    decreases src
  {
    hide *;
    MergedParts(dst, src, upd);
    var properties := DtCopyProperties(dst.properties, src.properties, upd);
    var children := dst.children;
    assert src.children[..0] == [];
    for i := 0 to |src.children|
      invariant children == MergedNodes(dst.children, src.children[..i], upd)
    {
      var n := src.children[i];
      var k := 0;
      while k < |children| && children[k].name != n.name
        invariant k <= |children| && forall j :: 0 <= j < k ==> children[j].name != n.name
      {
        k := k + 1;
      }
      MergedNodesStep(dst.children, src.children, upd, i, k);
      if k == |children| {
        children := [n] + children;
      } else {
        var merged := DtCopySubtree(children[k], n, upd);
        children := children[k := merged];
      }
    }
    assert src.children[..|src.children|] == src.children;
    after := Node(dst.name, dst.phandle, properties, children);
  }
}
