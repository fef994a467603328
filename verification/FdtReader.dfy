/**
 Reading flattened devicetrees (src/commonlib/device_tree.c): the readers against FdtFormat.
 A blob is constant memory, so it is a sequence of bytes.
 */
module FdtReader {
  import opened Buffers
  import opened FdtFormat
  import opened TreeSearch

  const STRINGS_OFFSET: nat := 12

  ghost predicate Strings(s: seq<byte>, strings: nat) {
    40 <= |s| && Be32(s, STRINGS_OFFSET) == strings
  }

  // The first place from o on, word by word, that is not a NOP.
  ghost function PastNops(s: seq<byte>, o: nat): (r: nat)
    ensures o <= r && !WordAt(s, r, TOKEN_NOP)
    decreases |s| - o
  {
    if WordAt(s, o, TOKEN_NOP) then PastNops(s, o + 4) else o
  }

  method FdtSkipNops(blob: seq<byte>, offset: nat) returns (skipped: nat)
    requires PastNops(blob, offset) + 4 <= |blob|
    ensures offset + skipped == PastNops(blob, offset)
  {
    var index := 0;
    while Be32(blob, offset + index * 4) == TOKEN_NOP
      invariant PastNops(blob, offset + index * 4) == PastNops(blob, offset)
      decreases |blob| - index * 4
    {
      index := index + 1;
    }
    return index * 4;
  }

  method ReadString(blob: seq<byte>, o: nat, ghost name: seq<byte>) returns (read: seq<byte>)
    requires StringAt(blob, o, name)
    ensures read == name
  {
    var i := 0;
    while blob[o + i] != 0
      invariant i <= |name|
      decreases |name| - i
    {
      i := i + 1;
    }
    if i < |name| {
      NotYetNul(blob, o, name, i);
    }
    return blob[o..o + i];
  }

  /**
   fdt_next_property. The word looked at is the one at offset even when that is a NOP: the source moves
   past NOPs only in a variable it does not read again, so a property behind a NOP is not seen.
   */
  method FdtNextProperty(blob: seq<byte>, offset: nat, ghost p: Property, ghost strings: nat)
    returns (size: nat, prop: Property)
    requires Strings(blob, strings) && PastNops(blob, offset) + 4 <= |blob|
    requires Be32(blob, offset) == TOKEN_PROPERTY ==> PropertyAt(blob, offset, p, strings)
    ensures Be32(blob, offset) != TOKEN_PROPERTY ==> size == 0
    ensures Be32(blob, offset) == TOKEN_PROPERTY ==> size == PropertySize(p) && prop == p
  {
    hide Be32, StringAt;
    var _ := FdtSkipNops(blob, offset);
    prop := Property([], []);
    var index := 4;
    if Be32(blob, offset) != TOKEN_PROPERTY {
      return 0, prop;
    }
    var dataSize := Be32(blob, offset + index);
    index := index + 4;
    var nameOffset := Be32(blob, offset + index);
    index := index + 4;
    nameOffset := nameOffset + Be32(blob, STRINGS_OFFSET);

    var name := ReadString(blob, nameOffset, p.name);
    prop := Property(name, blob[offset + index..offset + index + dataSize]);

    index := index + Align4(dataSize);
    return index, prop;
  }

  /** fdt_next_node_name finds a name behind NOPs, but the size it returns leaves them out. */
  method FdtNextNodeName(blob: seq<byte>, start: nat, ghost expected: seq<byte>) returns (size: nat, name: seq<byte>)
    requires PastNops(blob, start) + 4 <= |blob|
    requires WordAt(blob, PastNops(blob, start), TOKEN_BEGIN_NODE) ==>
               StringAt(blob, PastNops(blob, start) + 4, expected)
    ensures size == if WordAt(blob, PastNops(blob, start), TOKEN_BEGIN_NODE) then 4 + Align4(|expected| + 1) else 0
    ensures size != 0 ==> name == expected
  {
    hide Be32, StringAt;
    var skipped := FdtSkipNops(blob, start);
    var offset := start + skipped;
    name := [];
    if Be32(blob, offset) != TOKEN_BEGIN_NODE {
      return 0, name;
    }
    name := ReadString(blob, offset + 4, expected);
    return Align4(|name| + 1) + 4, name;
  }

  // ----- Reading where a list of properties or nodes is known to be

  method NextRecord(blob: seq<byte>, offset: nat, ghost ps: seq<Property>, ghost strings: nat)
    returns (size: nat, prop: Property)
    requires Strings(blob, strings) && RecordsAt(blob, offset, ps, strings)
    ensures ps == [] ==> size == 0
    ensures ps != [] ==> size == PropertySize(ps[0]) && prop == ps[0]
    ensures ps != [] ==> RecordsAt(blob, offset + size, ps[1..], strings)
  {
    hide Be32, StringAt, PropertyAt, RecordsAt, PropertySize;
    FirstRecord(blob, offset, ps, strings);
    size, prop := FdtNextProperty(blob, offset, if ps == [] then Property([], []) else ps[0], strings);
  }

  method NextName(blob: seq<byte>, offset: nat, ghost ns: seq<Node>, ghost strings: nat)
    returns (size: nat, name: seq<byte>)
    requires ListAt(blob, offset, ns, strings)
    ensures ns == [] ==> size == 0
    ensures ns != [] ==> size == 4 + Align4(|ns[0].name| + 1) && name == ns[0].name
  {
    hide Be32, StringAt, NodeAt, ListAt;
    FirstNode(blob, offset, ns, strings);
    if ns != [] {
      NodeParts(blob, offset, ns[0], strings);
    }
    size, name := FdtNextNodeName(blob, offset, if ns == [] then [] else ns[0].name);
  }

  lemma NoNops(blob: seq<byte>, o: nat, ns: seq<Node>, strings: nat)
    requires ListAt(blob, o, ns, strings)
    ensures PastNops(blob, o) == o && o + 4 <= |blob|
  {
    hide Be32, NodeAt, ListAt;
    FirstNode(blob, o, ns, strings);
  }

  /** fdt_skip_node, at the nodes ns still to come: 0 at the end of the list. */
  method FdtSkipNode(blob: seq<byte>, start: nat, ghost ns: seq<Node>, ghost strings: nat) returns (skipped: nat)
    requires Strings(blob, strings) && ListAt(blob, start, ns, strings)
    ensures skipped == if ns == [] then 0 else NodeSize(ns[0])
    decreases NodesSize(ns)
  {
    hide *;
    FirstNode(blob, start, ns, strings);
    var offset: nat := start;
    var size, _ := NextName(blob, offset, ns, strings);
    if size == 0 {
      return 0;
    }
    ghost var n := ns[0];
    NodeParts(blob, start, n, strings);
    offset := offset + size;

    ghost var ps := n.properties;
    var prop;
    size, prop := NextRecord(blob, offset, ps, strings);
    while size != 0
      invariant offset + PropertiesSize(ps) == ChildrenStart(start, n)
      invariant RecordsAt(blob, offset, ps, strings)
      invariant size == if ps == [] then 0 else PropertySize(ps[0])
      decreases |ps|
    {
      FirstRecord(blob, offset, ps, strings);
      offset := offset + size;
      ps := ps[1..];
      size, prop := NextRecord(blob, offset, ps, strings);
    }

    FirstRecord(blob, offset, ps, strings);
    ghost var rest := n.children;
    size := FdtSkipNode(blob, offset, rest, strings);
    while size != 0
      invariant offset + NodesSize(rest) + 4 == start + NodeSize(n)
      invariant NodesSize(rest) < NodesSize(ns)
      invariant ListAt(blob, offset, rest, strings)
      invariant size == if rest == [] then 0 else NodeSize(rest[0])
      decreases |rest|
    {
      FirstNode(blob, offset, rest, strings);
      offset := offset + size;
      rest := rest[1..];
      size := FdtSkipNode(blob, offset, rest, strings);
    }

    FirstNode(blob, offset, rest, strings);
    NoNops(blob, offset, rest, strings);
    skipped := FdtSkipNops(blob, offset);
    offset := offset + skipped;
    return offset - start + 4;
  }

  // ----- Building the tree

  // The highest of some phandles and of what was seen before.
  ghost predicate IsHighest(r: nat, floor: nat, handles: set<nat>) {
    floor <= r && (forall h :: h in handles ==> h <= r) && (r == floor || r in handles)
  }

  lemma HighestJoin(floor: nat, q: nat, r: nat, these: set<nat>, those: set<nat>)
    requires IsHighest(q, floor, these) && IsHighest(r, q, those)
    ensures IsHighest(r, floor, these + those)
  {
  }

  lemma OneMoreProperty(ps: seq<Property>, p: Property)
    ensures PhandleOf(ps + [p]) == if IsPhandle(p) then Cell(p) else PhandleOf(ps)
    ensures PhandlesIn(ps + [p]) == PhandlesIn(ps) + if IsPhandle(p) then {Cell(p)} else {}
  {
    assert (ps + [p])[..|ps|] == ps;
  }

  lemma {:induction false} OneMoreNode(ns: seq<Node>, n: Node)
    ensures PhandlesOf(ns + [n]) == PhandlesOf(ns) + Phandles(n)
    decreases |ns|
  {
    hide Phandles;
    if ns == [] {
      assert ns + [n] == [n] && [n][1..] == [];
    } else {
      OneMoreNode(ns[1..], n);
      assert (ns + [n])[1..] == ns[1..] + [n];
    }
  }

  // Taking over one property: the node's phandle and the tree's highest.
  method TakePhandle(prop: Property, phandle: nat, maxPhandle: nat, ghost floor: nat, ghost done: seq<Property>)
    returns (newPhandle: nat, newMax: nat)
    requires IsPhandle(prop) ==> 4 <= |prop.data|
    requires phandle == PhandleOf(done) && IsHighest(maxPhandle, floor, PhandlesIn(done))
    ensures newPhandle == PhandleOf(done + [prop]) && IsHighest(newMax, floor, PhandlesIn(done + [prop]))
  {
    hide Be32, PhandleOf, PhandlesIn;
    OneMoreProperty(done, prop);
    newPhandle, newMax := phandle, maxPhandle;
    if IsPhandle(prop) {
      newPhandle := Be32(prop.data, 0);
      if newPhandle > newMax {
        newMax := newPhandle;
      }
    }
  }

  lemma NoPhandles(floor: nat)
    ensures PhandleOf([]) == 0 && IsHighest(floor, floor, PhandlesIn([])) && IsHighest(floor, floor, PhandlesOf([]))
  {
  }

  lemma PhandlesOfParts(n: Node)
    ensures Phandles(n) == PhandlesIn(n.properties) + PhandlesOf(n.children)
  {
  }

  lemma PhandlesInside(n: Node)
    requires PhandlesPresent(n)
    ensures forall p :: p in n.properties && IsPhandle(p) ==> 4 <= |p.data|
    ensures forall c :: c in n.children ==> PhandlesPresent(c)
  {
  }

  lemma CountsInside(n: Node, w: Wanted)
    requires CountsPresent(n, w)
    ensures forall p :: p in n.properties && IsRead(p, w) ==> 4 <= |p.data|
    ensures forall c :: c in n.children ==> CountsPresent(c, w)
  {
  }

  // A list taken apart so far.
  ghost predicate IsSplit<T>(all: seq<T>, done: seq<T>, rest: seq<T>) {
    done + rest == all
  }

  lemma SplitStart<T>(all: seq<T>)
    ensures IsSplit(all, [], all)
  {
    assert [] + all == all;
  }

  lemma SplitStep<T>(all: seq<T>, done: seq<T>, rest: seq<T>)
    requires IsSplit(all, done, rest) && rest != []
    ensures IsSplit(all, done + [rest[0]], rest[1..]) && rest[0] in all
  {
    assert done + [rest[0]] + rest[1..] == done + rest;
    assert all[|done|] == rest[0];
  }

  lemma SplitDone<T>(all: seq<T>, done: seq<T>, rest: seq<T>)
    requires IsSplit(all, done, rest) && rest == []
    ensures done == all
  {
  }

  lemma ChildTaken(all: seq<Node>, done: seq<Node>, rest: seq<Node>, floor: nat, before: nat, after: nat)
    requires IsSplit(all, done, rest) && rest != []
    requires IsHighest(before, floor, PhandlesOf(done)) && IsHighest(after, before, Phandles(rest[0]))
    ensures IsSplit(all, done + [rest[0]], rest[1..]) && rest[0] in all
    ensures IsHighest(after, floor, PhandlesOf(done + [rest[0]]))
  {
    hide *;
    SplitStep(all, done, rest);
    OneMoreNode(done, rest[0]);
    HighestJoin(floor, before, after, PhandlesOf(done), Phandles(rest[0]));
  }

  /** fdt_unflatten_node, at the nodes ns still to come: nothing at the end of the list. */
  method FdtUnflattenNode(blob: seq<byte>, start: nat, floor: nat, ghost ns: seq<Node>, ghost strings: nat)
    returns (taken: nat, node: Option<Node>, maxPhandle: nat)
    requires Strings(blob, strings) && ListAt(blob, start, ns, strings)
    requires ns != [] ==> PhandlesPresent(ns[0])
    ensures ns == [] ==> taken == 0 && node == None && maxPhandle == floor
    ensures ns != [] ==> taken == NodeSize(ns[0]) && node == Some(ns[0])
    ensures ns != [] ==> IsHighest(maxPhandle, floor, Phandles(ns[0]))
    decreases NodesSize(ns)
  {
    hide *;
    FirstNode(blob, start, ns, strings);
    maxPhandle := floor;
    var offset: nat := start;
    var size, name := NextName(blob, offset, ns, strings);
    if size == 0 {
      return 0, None, floor;
    }
    ghost var n := ns[0];
    NodeParts(blob, start, n, strings);
    PhandlesInside(n);
    NoPhandles(floor);
    offset := offset + size;

    var phandle, properties := 0, [];
    ghost var ps := n.properties;
    SplitStart(n.properties);
    var prop;
    size, prop := NextRecord(blob, offset, ps, strings);
    while size != 0
      invariant offset + PropertiesSize(ps) == ChildrenStart(start, n)
      invariant RecordsAt(blob, offset, ps, strings)
      invariant size == if ps == [] then 0 else PropertySize(ps[0])
      invariant ps != [] ==> prop == ps[0]
      invariant IsSplit(n.properties, properties, ps)
      invariant phandle == PhandleOf(properties) && IsHighest(maxPhandle, floor, PhandlesIn(properties))
      decreases |ps|
    {
      FirstRecord(blob, offset, ps, strings);
      SplitStep(n.properties, properties, ps);
      phandle, maxPhandle := TakePhandle(prop, phandle, maxPhandle, floor, properties);
      properties := properties + [prop];
      offset := offset + size;
      ps := ps[1..];
      size, prop := NextRecord(blob, offset, ps, strings);
    }
    FirstRecord(blob, offset, ps, strings);
    SplitDone(n.properties, properties, ps);

    var children: seq<Node> := [];
    ghost var rest := n.children;
    ghost var ownMax := maxPhandle;
    var child;
    NoPhandles(ownMax);
    SplitStart(n.children);
    size, child, maxPhandle := FdtUnflattenNode(blob, offset, maxPhandle, rest, strings);
    ghost var before := ownMax;
    while size != 0
      invariant offset + NodesSize(rest) + 4 == start + NodeSize(n)
      invariant NodesSize(rest) < NodesSize(ns)
      invariant ListAt(blob, offset, rest, strings)
      invariant size == if rest == [] then 0 else NodeSize(rest[0])
      invariant rest != [] ==> child == Some(rest[0]) && IsHighest(maxPhandle, before, Phandles(rest[0]))
      invariant rest == [] ==> maxPhandle == before
      invariant IsSplit(n.children, children, rest) && forall c :: c in rest ==> c in n.children
      invariant IsHighest(before, ownMax, PhandlesOf(children))
      decreases |rest|
    {
      FirstNode(blob, offset, rest, strings);
      ChildTaken(n.children, children, rest, ownMax, before, maxPhandle);
      before := maxPhandle;
      children := children + [child.value];
      offset := offset + size;
      rest := rest[1..];
      size, child, maxPhandle := FdtUnflattenNode(blob, offset, maxPhandle, rest, strings);
    }
    FirstNode(blob, offset, rest, strings);
    SplitDone(n.children, children, rest);
    HighestJoin(floor, ownMax, maxPhandle, PhandlesIn(n.properties), PhandlesOf(n.children));
    PhandlesOfParts(n);

    return offset - start + 4, Some(Node(name, phandle, properties, children)), maxPhandle;
  }

  // ----- Searching without building

  lemma OneMoreCell(ps: seq<Property>, p: Property, c: Cells)
    ensures ReadCells(ps + [p], c) == TakenCells(p, ReadCells(ps, c))
  {
    assert (ps + [p])[..|ps|] == ps;
  }

  method TakeCells(prop: Property, before: Cells) returns (cells: Cells)
    requires IsRead(prop, WantedOf(before)) ==> 4 <= |prop.data|
    ensures cells == TakenCells(prop, before)
  {
    hide Be32;
    cells := before;
    if cells.address.Some? && prop.name == ADDRESS_CELLS {
      cells := cells.(address := Some(Be32(prop.data, 0)));
    }
    if cells.size.Some? && prop.name == SIZE_CELLS {
      cells := cells.(size := Some(Be32(prop.data, 0)));
    }
  }

  /** fdt_read_cell_props, from the first property of n on: gives the offset behind the last one as well. */
  method FdtReadCellProps(blob: seq<byte>, nodeOffset: nat, before: Cells, ghost n: Node, ghost strings: nat)
    returns (offset: nat, cells: Cells)
    requires Strings(blob, strings) && RecordsAt(blob, nodeOffset, n.properties, strings)
    requires CountsPresent(n, WantedOf(before))
    ensures offset == nodeOffset + PropertiesSize(n.properties)
    ensures cells == ReadCells(n.properties, before)
  {
    hide *;
    CountsInside(n, WantedOf(before));
    offset, cells := nodeOffset, before;
    ghost var ps, done: seq<Property> := n.properties, [];
    assert ReadCells([], before) == before by { NoCells(before); }
    var size, prop := NextRecord(blob, offset, ps, strings);
    while size != 0
      invariant offset + PropertiesSize(ps) == nodeOffset + PropertiesSize(n.properties)
      invariant RecordsAt(blob, offset, ps, strings)
      invariant size == if ps == [] then 0 else PropertySize(ps[0])
      invariant ps != [] ==> prop == ps[0]
      invariant done + ps == n.properties
      invariant cells == ReadCells(done, before)
      decreases |ps|
    {
      FirstRecord(blob, offset, ps, strings);
      assert prop in n.properties;
      OneMoreCell(done, prop, before);
      cells := TakeCells(prop, cells);
      done := done + [prop];
      offset := offset + size;
      ps := ps[1..];
      size, prop := NextRecord(blob, offset, ps, strings);
    }
    FirstRecord(blob, offset, ps, strings);
    assert done == n.properties;
  }

  lemma NoCells(c: Cells)
    ensures ReadCells([], c) == c
  {
  }

  lemma FindStep(n: Node, path: Path, c: Cells)
    requires path != []
    ensures Find(n, path) == match FirstChild(n.children, path[0])
                             case None => None
                             case Some(child) => Find(child, path[1..])
    ensures CellsAbove(n, path, c) == match FirstChild(n.children, path[0])
                                      case None => ReadCells(n.properties, c)
                                      case Some(child) => CellsAbove(child, path[1..], ReadCells(n.properties, c))
  {
  }

  lemma FindHere(n: Node, c: Cells)
    ensures Find(n, []) == Some(n) && CellsAbove(n, [], c) == c
  {
  }

  lemma FirstChildStep(ns: seq<Node>, name: seq<byte>)
    ensures ns == [] ==> FirstChild(ns, name) == None
    ensures ns != [] ==> FirstChild(ns, name) == if ns[0].name == name then Some(ns[0]) else FirstChild(ns[1..], name)
  {
  }

  lemma NodeIsBehindName(blob: seq<byte>, o: nat, n: Node, strings: nat)
    requires NodeAt(blob, o, n, strings)
    ensures PastNops(blob, o) == o && WordAt(blob, o, TOKEN_BEGIN_NODE) && StringAt(blob, o + 4, n.name)
    ensures o + 4 <= |blob|
  {
  }

  /** fdt_find_node: the search lands on the node that a search of the unflattened tree finds. */
  method FdtFindNode(blob: seq<byte>, parentOffset: nat, path: Path, before: Cells, ghost n: Node, ghost strings: nat)
    returns (found: nat, cells: Cells)
    requires Strings(blob, strings) && NodeAt(blob, parentOffset, n, strings) && parentOffset > 0
    requires CountsPresent(n, WantedOf(before))
    ensures found == 0 <==> Find(n, path) == None
    ensures found != 0 ==> NodeAt(blob, found, Find(n, path).value, strings)
    ensures cells == CellsAbove(n, path, before)
    decreases |path|
  {
    hide *;
    if path == [] {
      FindHere(n, before);
      return parentOffset, before;
    }
    FindStep(n, path, before);
    NodeParts(blob, parentOffset, n, strings);
    NodeIsBehindName(blob, parentOffset, n, strings);
    CountsInside(n, WantedOf(before));
    var size, _ := FdtNextNodeName(blob, parentOffset, n.name);
    var nodeOffset: nat;
    nodeOffset, cells := FdtReadCellProps(blob, parentOffset + size, before, n, strings);

    ghost var rest := n.children;
    var nodeName;
    size, nodeName := NextName(blob, nodeOffset, rest, strings);
    while size != 0
      invariant 0 < nodeOffset && ListAt(blob, nodeOffset, rest, strings)
      invariant size == 0 <==> rest == []
      invariant rest != [] ==> nodeName == rest[0].name
      invariant FirstChild(rest, path[0]) == FirstChild(n.children, path[0])
      invariant forall c :: c in rest ==> c in n.children
      invariant cells == ReadCells(n.properties, before)
      decreases |rest|
    {
      FirstNode(blob, nodeOffset, rest, strings);
      FirstChildStep(rest, path[0]);
      if path[0] == nodeName {
        found, cells := FdtFindNode(blob, nodeOffset, path[1..], cells, rest[0], strings);
        return;
      }
      var skipped := FdtSkipNode(blob, nodeOffset, rest, strings);
      nodeOffset := nodeOffset + skipped;
      rest := rest[1..];
      size, nodeName := NextName(blob, nodeOffset, rest, strings);
    }
    FirstChildStep(rest, path[0]);
    return 0, cells;
  }
}
