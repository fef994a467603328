/**
 The exact bytes a flattened node has: which field says what, and the strings block as the
 concatenation of all property names in the order of the tree. Lists are laid out from their end,
 as the writer extends them.
 */
module FdtLayout {
  import opened Buffers
  import opened FdtFormat

  function NamesIn(ps: seq<Property>): seq<byte>
    decreases |ps|
  {
    if ps == [] then [] else NamesIn(ps[..|ps| - 1]) + Terminated(ps[|ps| - 1].name)
  }

  function Names(n: Node): seq<byte>
    decreases n, 1
  {
    NamesIn(n.properties) + NamesOf(n.children)
  }

  function NamesOf(ns: seq<Node>): seq<byte>
    decreases ns, 0
  {
    if ns == [] then [] else NamesOf(ns[..|ns| - 1]) + Names(ns[|ns| - 1])
  }

  function Terminated(name: seq<byte>): seq<byte> {
    name + [0]
  }

  ghost predicate PropertyLaid(b: seq<byte>, p: Property, name: nat) {
    && |b| == PropertySize(p)
    && WordAt(b, 0, TOKEN_PROPERTY) && WordAt(b, 4, |p.data|) && WordAt(b, 8, name)
    && b[12..12 + |p.data|] == p.data
  }

  ghost predicate PropertiesLaid(b: seq<byte>, ps: seq<Property>, name: nat)
    decreases |ps|
  {
    if ps == [] then b == []
    else
      var before, last := ps[..|ps| - 1], ps[|ps| - 1];
      var k := |b| - PropertySize(last);
      && 0 <= k
      && PropertiesLaid(b[..k], before, name)
      && PropertyLaid(b[k..], last, name + |NamesIn(before)|)
  }

  // The bytes of node n, whose first property name is at offset name of the strings block.
  ghost predicate NodeLaid(b: seq<byte>, n: Node, name: nat)
    decreases n, 1
  {
    var properties, children := PropertiesStart(0, n), ChildrenStart(0, n);
    && |b| == NodeSize(n)
    && WordAt(b, 0, TOKEN_BEGIN_NODE)
    && b[4..4 + |n.name| + 1] == Terminated(n.name)
    && PropertiesLaid(b[properties..children], n.properties, name)
    && NodesLaid(b[children..|b| - 4], n.children, name + |NamesIn(n.properties)|)
    && WordAt(b, |b| - 4, TOKEN_END_NODE)
  }

  ghost predicate NodesLaid(b: seq<byte>, ns: seq<Node>, name: nat)
    decreases ns, 0
  {
    if ns == [] then b == []
    else
      var before, last := ns[..|ns| - 1], ns[|ns| - 1];
      var k := |b| - NodeSize(last);
      && 0 <= k
      && NodesLaid(b[..k], before, name)
      && NodeLaid(b[k..], last, name + |NamesOf(before)|)
  }

  // Names end at their NUL, and the phandle is the one the properties give.
  ghost predicate Flattenable(n: Node) {
    && 0 !in n.name
    && (forall p :: p in n.properties ==> 0 !in p.name)
    && n.phandle == PhandleOf(n.properties)
    && (forall c :: c in n.children ==> Flattenable(c))
  }

  // ----- Lists grow at their end

  lemma {:induction false} OneMoreSize(ps: seq<Property>, p: Property)
    ensures PropertiesSize(ps + [p]) == PropertiesSize(ps) + PropertySize(p)
    decreases |ps|
  {
    hide PropertySize;
    if ps == [] {
      assert ps + [p] == [p] && [p][1..] == [];
    } else {
      OneMoreSize(ps[1..], p);
      assert (ps + [p])[1..] == ps[1..] + [p];
    }
  }

  lemma {:induction false} OneMoreNodeSize(ns: seq<Node>, n: Node)
    ensures NodesSize(ns + [n]) == NodesSize(ns) + NodeSize(n)
    decreases |ns|
  {
    hide NodeSize;
    if ns == [] {
      assert ns + [n] == [n] && [n][1..] == [];
    } else {
      OneMoreNodeSize(ns[1..], n);
      assert (ns + [n])[1..] == ns[1..] + [n];
    }
  }

  lemma NothingLaid(name: nat)
    ensures PropertiesLaid([], [], name) && PropertiesSize([]) == 0 && NamesIn([]) == []
    ensures NodesLaid([], [], name) && NodesSize([]) == 0 && NamesOf([]) == []
  {
  }

  lemma OneMorePropertyLaid(b: seq<byte>, c: seq<byte>, ps: seq<Property>, p: Property, name: nat)
    requires PropertiesLaid(b, ps, name) && PropertyLaid(c, p, name + |NamesIn(ps)|)
    ensures PropertiesLaid(b + c, ps + [p], name)
    ensures NamesIn(ps + [p]) == NamesIn(ps) + Terminated(p.name)
  {
    assert |c| == PropertySize(p);
    hide PropertySize, PropertyLaid, Terminated;
    Cut(ps, [p]);
    Cut(b, c);
  }

  lemma OneMoreNodeLaid(b: seq<byte>, c: seq<byte>, ns: seq<Node>, n: Node, name: nat)
    requires NodesLaid(b, ns, name) && NodeLaid(c, n, name + |NamesOf(ns)|)
    ensures NodesLaid(b + c, ns + [n], name)
    ensures NamesOf(ns + [n]) == NamesOf(ns) + Names(n)
  {
    assert |c| == NodeSize(n);
    hide NodeSize, NodeLaid, Names;
    Cut(ns, [n]);
    Cut(b, c);
  }

  // ----- Laid out bytes are what the reader expects

  // t is a part of s.
  ghost predicate Part(s: seq<byte>, o: nat, t: seq<byte>) {
    o + |t| <= |s| && s[o..o + |t|] == t
  }

  lemma PartOfPart(s: seq<byte>, o: nat, t: seq<byte>, lo: nat, hi: nat)
    requires Part(s, o, t) && lo <= hi <= |t|
    ensures Part(s, o + lo, t[lo..hi])
  {
    forall k | 0 <= k < hi - lo
      ensures t[lo..hi][k] == s[o + lo..o + hi][k]
    {
      assert t[lo + k] == s[o..o + |t|][lo + k];
    }
  }

  lemma PartSplit(s: seq<byte>, o: nat, t: seq<byte>, k: nat)
    requires Part(s, o, t) && k <= |t|
    ensures Part(s, o, t[..k]) && Part(s, o + k, t[k..])
  {
    PartOfPart(s, o, t, 0, k);
    PartOfPart(s, o, t, k, |t|);
    assert t[0..k] == t[..k] && t[k..|t|] == t[k..];
  }

  lemma PartsOfSum(s: seq<byte>, o: nat, x: seq<byte>, y: seq<byte>)
    requires Part(s, o, x + y)
    ensures Part(s, o, x) && Part(s, o + |x|, y)
  {
    PartSplit(s, o, x + y, |x|);
    Cut(x, y);
  }

  lemma PartWord(s: seq<byte>, o: nat, t: seq<byte>, k: nat, word: nat)
    requires Part(s, o, t) && WordAt(t, k, word)
    ensures WordAt(s, o + k, word)
  {
    Be32Slice(s, t, k, o, o + |t|);
  }

  lemma PartString(s: seq<byte>, o: nat, name: seq<byte>)
    requires Part(s, o, Terminated(name)) && 0 !in name
    ensures StringAt(s, o, name)
  {
    PartsOfSum(s, o, name, [0]);
    assert s[o + |name|] == s[o + |name|..o + |name| + 1][0];
  }

  lemma PropertyLaidIsAt(s: seq<byte>, o: nat, b: seq<byte>, p: Property, strings: nat, name: nat)
    requires Part(s, o, b) && PropertyLaid(b, p, name)
    requires Part(s, strings + name, Terminated(p.name)) && 0 !in p.name
    ensures PropertyAt(s, o, p, strings)
  {
    hide Be32;
    PartWord(s, o, b, 0, TOKEN_PROPERTY);
    PartWord(s, o, b, 4, |p.data|);
    PartWord(s, o, b, 8, name);
    PartOfPart(s, o, b, 12, 12 + |p.data|);
    PartString(s, strings + name, p.name);
    hide StringAt;
  }

  lemma {:induction false} OneMorePropertyAt(s: seq<byte>, o: nat, ps: seq<Property>, p: Property, strings: nat)
    requires PropertiesAt(s, o, ps, strings) && PropertyAt(s, o + PropertiesSize(ps), p, strings)
    ensures PropertiesAt(s, o, ps + [p], strings)
    decreases |ps|
  {
    hide PropertyAt, PropertySize;
    if ps == [] {
      assert ps + [p] == [p] && [p][1..] == [];
    } else {
      OneMorePropertyAt(s, o + PropertySize(ps[0]), ps[1..], p, strings);
      assert (ps + [p])[1..] == ps[1..] + [p];
    }
  }

  lemma {:induction false} OneMoreNodeAt(s: seq<byte>, o: nat, ns: seq<Node>, n: Node, strings: nat)
    requires NodesAt(s, o, ns, strings) && NodeAt(s, o + NodesSize(ns), n, strings)
    ensures NodesAt(s, o, ns + [n], strings)
    decreases |ns|
  {
    hide NodeAt, NodeSize;
    if ns == [] {
      assert ns + [n] == [n] && [n][1..] == [];
    } else {
      OneMoreNodeAt(s, o + NodeSize(ns[0]), ns[1..], n, strings);
      assert (ns + [n])[1..] == ns[1..] + [n];
    }
  }

  lemma {:induction false} PropertiesLaidAreAt(s: seq<byte>, o: nat, b: seq<byte>, ps: seq<Property>,
                                               strings: nat, name: nat)
    requires Part(s, o, b) && PropertiesLaid(b, ps, name)
    requires Part(s, strings + name, NamesIn(ps)) && (forall p :: p in ps ==> 0 !in p.name)
    ensures PropertiesAt(s, o, ps, strings) && |b| == PropertiesSize(ps)
    decreases |ps|
  {
    hide Part, PropertyLaid, PropertyAt, PropertySize, Terminated;
    if ps != [] {
      var before, last := ps[..|ps| - 1], ps[|ps| - 1];
      var k := |b| - PropertySize(last);
      PartSplit(s, o, b, k);
      PartsOfSum(s, strings + name, NamesIn(before), Terminated(last.name));
      PropertiesLaidAreAt(s, o, b[..k], before, strings, name);
      PropertyLaidIsAt(s, o + k, b[k..], last, strings, name + |NamesIn(before)|);
      assert before + [last] == ps;
      OneMoreSize(before, last);
      OneMorePropertyAt(s, o, before, last, strings);
    }
  }

  // The parts of a laid out node, and the same parts of a node in a blob.
  lemma NodeLaidParts(b: seq<byte>, n: Node, name: nat)
    requires NodeLaid(b, n, name)
    ensures 4 + |n.name| + 1 <= PropertiesStart(0, n) <= ChildrenStart(0, n) <= |b| - 4 && |b| == NodeSize(n)
    ensures WordAt(b, 0, TOKEN_BEGIN_NODE) && WordAt(b, |b| - 4, TOKEN_END_NODE)
    ensures b[4..4 + |n.name| + 1] == Terminated(n.name) && |Terminated(n.name)| == |n.name| + 1
    ensures PropertiesLaid(b[PropertiesStart(0, n)..ChildrenStart(0, n)], n.properties, name)
    ensures NodesLaid(b[ChildrenStart(0, n)..|b| - 4], n.children, name + |NamesIn(n.properties)|)
  {
  }

  lemma NodeAtFromParts(s: seq<byte>, o: nat, n: Node, strings: nat)
    requires WordAt(s, o, TOKEN_BEGIN_NODE) && WordAt(s, o + NodeSize(n) - 4, TOKEN_END_NODE)
    requires StringAt(s, o + 4, n.name) && n.phandle == PhandleOf(n.properties)
    requires PropertiesAt(s, o + PropertiesStart(0, n), n.properties, strings)
    requires NodesAt(s, o + ChildrenStart(0, n), n.children, strings)
    ensures NodeAt(s, o, n, strings)
  {
    hide WordAt, StringAt, PropertiesAt, NodesAt, PhandleOf, Align4;
  }

  lemma FlattenableParts(n: Node)
    requires Flattenable(n)
    ensures 0 !in n.name && n.phandle == PhandleOf(n.properties)
    ensures (forall p :: p in n.properties ==> 0 !in p.name) && (forall c :: c in n.children ==> Flattenable(c))
    ensures Names(n) == NamesIn(n.properties) + NamesOf(n.children)
  {
  }

  lemma {:induction false} NodeLaidIsAt(s: seq<byte>, o: nat, b: seq<byte>, n: Node, strings: nat, name: nat)
    requires Part(s, o, b) && NodeLaid(b, n, name)
    requires Part(s, strings + name, Names(n)) && Flattenable(n)
    ensures NodeAt(s, o, n, strings)
    decreases n, 1
  {
    hide *;
    NodeLaidParts(b, n, name);
    FlattenableParts(n);
    var properties, children := PropertiesStart(0, n), ChildrenStart(0, n);
    PartWord(s, o, b, 0, TOKEN_BEGIN_NODE);
    PartWord(s, o, b, |b| - 4, TOKEN_END_NODE);
    PartOfPart(s, o, b, 4, 4 + |n.name| + 1);
    PartString(s, o + 4, n.name);
    PartsOfSum(s, strings + name, NamesIn(n.properties), NamesOf(n.children));
    PartOfPart(s, o, b, properties, children);
    PropertiesLaidAreAt(s, o + properties, b[properties..children], n.properties, strings, name);
    PartOfPart(s, o, b, children, |b| - 4);
    NodesLaidAreAt(s, o + children, b[children..|b| - 4], n.children, strings, name + |NamesIn(n.properties)|);
    NodeAtFromParts(s, o, n, strings);
  }

  lemma LastNodeLaid(b: seq<byte>, ns: seq<Node>, name: nat)
    requires NodesLaid(b, ns, name)
    ensures ns == [] ==> b == [] && NodesSize(ns) == 0
    ensures ns != [] ==>
              var before, last := ns[..|ns| - 1], ns[|ns| - 1];
              var k := |b| - NodeSize(last);
              && 0 <= k
              && NodesLaid(b[..k], before, name)
              && NodeLaid(b[k..], last, name + |NamesOf(before)|)
              && NamesOf(ns) == NamesOf(before) + Names(last)
  {
    hide NodeLaid, NodeSize, Names;
  }

  lemma NoNodesAt(s: seq<byte>, o: nat, strings: nat)
    ensures NodesAt(s, o, [], strings)
  {
  }

  lemma {:induction false} NodesLaidAreAt(s: seq<byte>, o: nat, b: seq<byte>, ns: seq<Node>, strings: nat, name: nat)
    requires Part(s, o, b) && NodesLaid(b, ns, name)
    requires Part(s, strings + name, NamesOf(ns)) && (forall c :: c in ns ==> Flattenable(c))
    ensures NodesAt(s, o, ns, strings) && |b| == NodesSize(ns)
    decreases ns, 0
  {
    hide *;
    LastNodeLaid(b, ns, name);
    if ns == [] {
      NoNodesAt(s, o, strings);
    } else {
      var before, last := ns[..|ns| - 1], ns[|ns| - 1];
      var k := |b| - NodeSize(last);
      PartSplit(s, o, b, k);
      PartsOfSum(s, strings + name, NamesOf(before), Names(last));
      NodesLaidAreAt(s, o, b[..k], before, strings, name);
      NodeLaidIsAt(s, o + k, b[k..], last, strings, name + |NamesOf(before)|);
      assert before + [last] == ns;
      OneMoreNodeSize(before, last);
      OneMoreNodeAt(s, o, before, last, strings);
    }
  }
}
