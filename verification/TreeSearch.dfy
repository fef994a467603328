/**
 Searching an unflattened devicetree by a path of node names, creating what is missing
 (src/commonlib/device_tree.c, dt_read_cell_props and dt_find_node).
 */
module TreeSearch {
  import opened Buffers
  import opened FdtFormat

  type Path = seq<seq<byte>>

  // The two counts a search updates on its way, each unless its pointer is NULL.
  datatype Cells = Cells(address: Option<nat>, size: Option<nat>)

  datatype Wanted = Wanted(address: bool, size: bool)

  function WantedOf(c: Cells): Wanted {
    Wanted(c.address.Some?, c.size.Some?)
  }

  // The counts that are read hold a cell to read.
  predicate IsRead(p: Property, w: Wanted) {
    (p.name == ADDRESS_CELLS && w.address) || (p.name == SIZE_CELLS && w.size)
  }

  ghost predicate CountsPresent(n: Node, w: Wanted) {
    && (forall p :: p in n.properties && IsRead(p, w) ==> 4 <= |p.data|)
    && (forall c :: c in n.children ==> CountsPresent(c, w))
  }

  /** A search without pointers reads no counts. */
  lemma {:induction false} NothingRead(n: Node)
    ensures CountsPresent(n, Wanted(false, false))
    decreases n
  {
    forall c | c in n.children
      ensures CountsPresent(c, Wanted(false, false))
    {
      NothingRead(c);
    }
  }

  // ----- What a search finds

  function FirstChild(ns: seq<Node>, name: seq<byte>): Option<Node> {
    if ns == [] then None
    else if ns[0].name == name then Some(ns[0])
    else FirstChild(ns[1..], name)
  }

  function Find(n: Node, path: Path): Option<Node>
    decreases |path|
  {
    if path == [] then Some(n)
    else
      match FirstChild(n.children, path[0])
      case None => None
      case Some(child) => Find(child, path[1..])
  }

  // The last count of a kind among the properties wins.
  function ReadCells(ps: seq<Property>, c: Cells): (r: Cells)
    ensures WantedOf(r) == WantedOf(c)
  {
    if ps == [] then c
    else
      var last := ps[|ps| - 1];
      TakenCells(last, ReadCells(ps[..|ps| - 1], c))
  }

  function TakenCells(p: Property, c: Cells): (r: Cells)
    ensures WantedOf(r) == WantedOf(c)
  {
    if p.name == ADDRESS_CELLS && c.address.Some? then c.(address := Some(Cell(p)))
    else if p.name == SIZE_CELLS && c.size.Some? then c.(size := Some(Cell(p)))
    else c
  }

  // Counts gathered on every node from n to where the search ends, that node included.
  function CellsThrough(n: Node, path: Path, c: Cells): Cells
    decreases |path|
  {
    var here := ReadCells(n.properties, c);
    if path == [] then here
    else
      match FirstChild(n.children, path[0])
      case None => here
      case Some(child) => CellsThrough(child, path[1..], here)
  }

  // The same, leaving out the node that was looked for.
  function CellsAbove(n: Node, path: Path, c: Cells): Cells
    decreases |path|
  {
    if path == [] then c
    else
      var here := ReadCells(n.properties, c);
      match FirstChild(n.children, path[0])
      case None => here
      case Some(child) => CellsAbove(child, path[1..], here)
  }

  /** The two differ by the counts of the node found, so they agree exactly if reading those changes nothing. */
  lemma {:induction false} CellsOfFound(n: Node, path: Path, c: Cells)
    ensures CellsThrough(n, path, c) == match Find(n, path)
                                        case None => CellsAbove(n, path, c)
                                        case Some(found) => ReadCells(found.properties, CellsAbove(n, path, c))
    ensures CellsThrough(n, path, c) == CellsAbove(n, path, c) <==>
            var above := CellsAbove(n, path, c);
              Find(n, path).None? || ReadCells(Find(n, path).value.properties, above) == above
    decreases |path|
  {
    if path != [] {
      match FirstChild(n.children, path[0])
      case None =>
      case Some(child) => CellsOfFound(child, path[1..], ReadCells(n.properties, c));
    }
  }

  // ----- Creating what is missing

  // The index of the first child of that name, or the number of children.
  function IndexOf(ns: seq<Node>, name: seq<byte>): (k: nat)
    ensures k <= |ns|
    ensures FirstChild(ns, name) == if k < |ns| then Some(ns[k]) else None
    ensures k < |ns| ==> ns[k].name == name
    ensures forall i :: 0 <= i < k ==> ns[i].name != name
  {
    if ns == [] || ns[0].name == name then 0 else 1 + IndexOf(ns[1..], name)
  }

  function Fresh(name: seq<byte>): Node {
    Node(name, 0, [], [])
  }

  // A node is put in front of its new siblings.
  function Created(n: Node, path: Path): Node
    decreases |path|
  {
    if path == [] then n
    else
      var k := IndexOf(n.children, path[0]);
      if k < |n.children| then n.(children := n.children[k := Created(n.children[k], path[1..])])
      else n.(children := [Created(Fresh(path[0]), path[1..])] + n.children)
  }

  lemma IndexIsFirst(ns: seq<Node>, name: seq<byte>, k: nat)
    requires k < |ns| && ns[k].name == name
    requires forall i :: 0 <= i < k ==> ns[i].name != name
    ensures IndexOf(ns, name) == k && FirstChild(ns, name) == Some(ns[k])
  {
  }

  lemma {:induction false} CreatedHead(n: Node, path: Path)
    ensures Created(n, path).name == n.name
    ensures Created(n, path).phandle == n.phandle
    ensures Created(n, path).properties == n.properties
    decreases |path|
  {
  }

  // One level of Created, seen by a search for any name.
  lemma CreatedChild(n: Node, path: Path, name: seq<byte>)
    requires path != []
    ensures FirstChild(Created(n, path).children, name) ==
            if name != path[0] then FirstChild(n.children, name)
            else match FirstChild(n.children, name)
                 case None => Some(Created(Fresh(name), path[1..]))
                 case Some(child) => Some(Created(child, path[1..]))
  {
    var k := IndexOf(n.children, path[0]);
    var ns := Created(n, path).children;
    if k < |n.children| {
      CreatedHead(n.children[k], path[1..]);
      SameNames(ns, n.children, name, k);
    } else {
      CreatedHead(Fresh(path[0]), path[1..]);
      assert ns[1..] == n.children;
      hide Created;
      assert name == path[0] ==> FirstChild(ns, name) == Some(ns[0]);
    }
  }

  // Replacing a child by one of the same name.
  lemma SameNames(ms: seq<Node>, ns: seq<Node>, name: seq<byte>, k: nat)
    requires |ms| == |ns| && k < |ns| && ms[k].name == ns[k].name
    requires forall i :: 0 <= i < |ns| && i != k ==> ms[i] == ns[i]
    ensures IndexOf(ms, name) == IndexOf(ns, name)
  {
    var a, b := IndexOf(ms, name), IndexOf(ns, name);
    assert b < |ns| ==> ms[b].name == name;
    assert a < |ms| ==> ns[a].name == name;
  }

  // What could be found before is still found, as the same node but for new children.
  lemma {:induction false} CreatedKeeps(n: Node, path: Path, other: Path)
    ensures Find(n, other).Some? ==>
              var after := Find(Created(n, path), other);
              && after.Some?
              && after.value.name == Find(n, other).value.name
              && after.value.phandle == Find(n, other).value.phandle
              && after.value.properties == Find(n, other).value.properties
    decreases |path|
  {
    CreatedHead(n, path);
    if path != [] && other != [] {
      CreatedChild(n, path, other[0]);
      if other[0] == path[0] && FirstChild(n.children, other[0]).Some? {
        CreatedKeeps(FirstChild(n.children, other[0]).value, path[1..], other[1..]);
      }
    }
  }

  // Everything new lies on the path, and carries nothing.
  lemma {:induction false} CreatedAddsOnlyPath(n: Node, path: Path, other: Path)
    ensures Find(n, other).None? && Find(Created(n, path), other).Some? ==>
              && other <= path
              && Find(Created(n, path), other).value.properties == []
              && Find(Created(n, path), other).value.phandle == 0
    decreases |path|
  {
    if path != [] && other != [] {
      CreatedChild(n, path, other[0]);
      if other[0] == path[0] {
        assert other <= path <==> other[1..] <= path[1..] by { PrefixTail(other, path); }
        match FirstChild(n.children, other[0])
        case Some(child) => CreatedAddsOnlyPath(child, path[1..], other[1..]);
        case None =>
          CreatedAddsOnlyPath(Fresh(path[0]), path[1..], other[1..]);
          CreatedHead(Fresh(path[0]), path[1..]);
      }
    }
  }

  lemma PrefixTail(p: Path, q: Path)
    requires p != [] && q != [] && p[0] == q[0]
    ensures p <= q <==> p[1..] <= q[1..]
  {
    assert p == [p[0]] + p[1..] && q == [q[0]] + q[1..];
  }

  lemma {:induction false} CreatedIsFound(n: Node, path: Path)
    ensures Find(Created(n, path), path).Some?
    ensures Find(n, path).Some? ==> Created(n, path) == n
    decreases |path|
  {
    if path != [] {
      CreatedChild(n, path, path[0]);
      match FirstChild(n.children, path[0])
      case None => CreatedIsFound(Fresh(path[0]), path[1..]);
      case Some(child) => CreatedIsFound(child, path[1..]);
    }
  }

  // ----- The source's search

  method DtReadCellProps(node: Node, before: Cells) returns (cells: Cells)
    requires forall p :: p in node.properties && IsRead(p, WantedOf(before)) ==> 4 <= |p.data|
    ensures cells == ReadCells(node.properties, before)
  {
    cells := before;
    for i := 0 to |node.properties|
      invariant cells == ReadCells(node.properties[..i], before)
    {
      var prop := node.properties[i];
      assert node.properties[..i + 1][..i] == node.properties[..i];
      if cells.address.Some? && prop.name == ADDRESS_CELLS {
        cells := cells.(address := Some(Be32(prop.data, 0)));
      }
      if cells.size.Some? && prop.name == SIZE_CELLS {
        cells := cells.(size := Some(Be32(prop.data, 0)));
      }
    }
    assert node.properties[..|node.properties|] == node.properties;
  }

  /** dt_find_node: found is a node of the tree that parent has become. */
  method DtFindNode(parent: Node, path: Path, before: Cells, create: bool)
    returns (after: Node, found: Option<Node>, cells: Cells)
    requires CountsPresent(parent, WantedOf(before))
    ensures after == if create then Created(parent, path) else parent
    ensures found == Find(after, path)
    ensures create ==> found.Some?
    ensures cells == CellsThrough(parent, path, before)
    decreases |path|
  {
    after := parent;
    cells := DtReadCellProps(parent, before);
    if path == [] {
      return parent, Some(parent), cells;
    }

    var k := 0;
    while k < |parent.children| && parent.children[k].name != path[0]
      invariant k <= |parent.children|
      invariant forall i :: 0 <= i < k ==> parent.children[i].name != path[0]
    {
      k := k + 1;
    }
    assert k == IndexOf(parent.children, path[0]);
    CreatedIsFound(parent, path);
    CreatedChild(parent, path, path[0]);

    if k == |parent.children| {
      if !create {
        return parent, None, cells;
      }
      var child;
      child, found, cells := DtFindNode(Fresh(path[0]), path[1..], cells, create);
      after := parent.(children := [child] + parent.children);
    } else {
      var child;
      child, found, cells := DtFindNode(parent.children[k], path[1..], cells, create);
      after := parent.(children := parent.children[k := child]);
    }
  }
}
