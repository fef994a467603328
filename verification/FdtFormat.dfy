/**
 Flattened devicetrees (Devicetree Specification, sections 5.2 to 5.5): what a place in a blob says.
 NodeAt relates an offset to a tree. Padding bytes are left open: the reader skips them and the
 writer does not set them.
 */
module FdtFormat {

  import opened Buffers

  const TOKEN_BEGIN_NODE: nat := 1
  const TOKEN_END_NODE: nat := 2
  const TOKEN_PROPERTY: nat := 3
  const TOKEN_NOP: nat := 4
  const TOKEN_END: nat := 9
  const HEADER_MAGIC: nat := 0xd00dfeed
  const SUPPORTED_VERSION: nat := 17
  const U32_SIZE: nat := 0x1_0000_0000

  datatype Option<T> = None | Some(value: T)

  datatype Property = Property(name: seq<byte>, data: seq<byte>)

  // The lists of the source, as the sequences they link.
  datatype Node = Node(name: seq<byte>, phandle: nat, properties: seq<Property>, children: seq<Node>)

  // ----- Big-endian numbers, strings, alignment

  function Be32(s: seq<byte>, o: nat): (n: nat)
    requires o + 4 <= |s|
    ensures n < U32_SIZE
  {
    s[o] as int * 0x100_0000 + s[o + 1] as int * 0x1_0000 + s[o + 2] as int * 0x100 + s[o + 3]
  }

  lemma Digits(n: nat)
    ensures n == n / 0x100 / 0x100 / 0x100 * 0x100_0000 + n / 0x100 / 0x100 % 0x100 * 0x1_0000
                 + n / 0x100 % 0x100 * 0x100 + n % 0x100
  {
  }

  function Enc32(n: nat): (e: seq<byte>)
    requires n < U32_SIZE
    ensures |e| == 4 && Be32(e, 0) == n
  {
    Digits(n);
    [n / 0x100 / 0x100 / 0x100, n / 0x100 / 0x100 % 0x100, n / 0x100 % 0x100, n % 0x100]
  }

  // Equal bytes read the same.
  lemma Be32Slice(s: seq<byte>, t: seq<byte>, o: nat, lo: nat, hi: nat)
    requires lo <= hi <= |s| && t == s[lo..hi] && o + 4 <= |t|
    ensures Be32(t, o) == Be32(s, lo + o)
  {
  }

  function Align4(n: nat): (r: nat)
    ensures n <= r < n + 4 && r % 4 == 0
  {
    (n + 3) / 4 * 4
  }

  // A NUL-terminated string.
  ghost predicate StringAt(s: seq<byte>, o: nat, name: seq<byte>) {
    && o + |name| < |s|
    && s[o..o + |name|] == name
    && s[o + |name|] == 0
    && 0 !in name
  }

  lemma NotYetNul(s: seq<byte>, o: nat, name: seq<byte>, k: nat)
    requires StringAt(s, o, name) && k < |name|
    ensures s[o + k] != 0
  {
    assert name[k] == s[o..o + |name|][k];
  }

  lemma StringNoLonger(s: seq<byte>, o: nat, x: seq<byte>, y: seq<byte>)
    requires StringAt(s, o, x) && StringAt(s, o, y)
    ensures |x| <= |y|
  {
    if |y| < |x| {
      NotYetNul(s, o, x, |y|);
    }
  }

  lemma StringUnique(s: seq<byte>, o: nat, x: seq<byte>, y: seq<byte>)
    requires StringAt(s, o, x) && StringAt(s, o, y)
    ensures x == y
  {
    StringNoLonger(s, o, x, y);
    StringNoLonger(s, o, y, x);
  }

  // ----- Sizes

  function PropertySize(p: Property): (size: nat)
    ensures size >= 12
  {
    12 + Align4(|p.data|)
  }

  function PropertiesSize(ps: seq<Property>): nat {
    if ps == [] then 0 else PropertySize(ps[0]) + PropertiesSize(ps[1..])
  }

  function NodeSize(n: Node): (size: nat)
    ensures size >= 12 + NodesSize(n.children)
    decreases n, 1
  {
    4 + Align4(|n.name| + 1) + PropertiesSize(n.properties) + NodesSize(n.children) + 4
  }

  function NodesSize(ns: seq<Node>): nat
    decreases ns, 0
  {
    if ns == [] then 0 else NodeSize(ns[0]) + NodesSize(ns[1..])
  }

  // ----- What a blob says

  ghost predicate WordAt(s: seq<byte>, o: nat, word: nat) {
    o + 4 <= |s| && Be32(s, o) == word
  }

  // A property record at o; its name is in the strings block at strings.
  ghost predicate PropertyAt(s: seq<byte>, o: nat, p: Property, strings: nat) {
    && o + PropertySize(p) <= |s|
    && WordAt(s, o, TOKEN_PROPERTY)
    && WordAt(s, o + 4, |p.data|)
    && StringAt(s, strings + Be32(s, o + 8), p.name)
    && s[o + 12..o + 12 + |p.data|] == p.data
  }

  ghost predicate PropertiesAt(s: seq<byte>, o: nat, ps: seq<Property>, strings: nat)
    decreases |ps|
  {
    ps == [] || (PropertyAt(s, o, ps[0], strings) && PropertiesAt(s, o + PropertySize(ps[0]), ps[1..], strings))
  }

  ghost predicate NodeAt(s: seq<byte>, o: nat, n: Node, strings: nat)
    decreases n, 1
  {
    && WordAt(s, o, TOKEN_BEGIN_NODE)
    && StringAt(s, o + 4, n.name)
    && PropertiesAt(s, PropertiesStart(o, n), n.properties, strings)
    && NodesAt(s, ChildrenStart(o, n), n.children, strings)
    && WordAt(s, o + NodeSize(n) - 4, TOKEN_END_NODE)
    && n.phandle == PhandleOf(n.properties)
  }

  ghost predicate NodesAt(s: seq<byte>, o: nat, ns: seq<Node>, strings: nat)
    decreases ns, 0
  {
    ns == [] || (NodeAt(s, o, ns[0], strings) && NodesAt(s, o + NodeSize(ns[0]), ns[1..], strings))
  }

  function PropertiesStart(o: nat, n: Node): nat {
    o + 4 + Align4(|n.name| + 1)
  }

  function ChildrenStart(o: nat, n: Node): nat {
    PropertiesStart(o, n) + PropertiesSize(n.properties)
  }

  // The token after a list of nodes: the end of their parent or of the structure block.
  ghost predicate ListEnd(s: seq<byte>, o: nat) {
    WordAt(s, o, TOKEN_END_NODE) || WordAt(s, o, TOKEN_END)
  }

  // Every node still to come at o, up to the end of the list.
  ghost predicate ListAt(s: seq<byte>, o: nat, ns: seq<Node>, strings: nat) {
    NodesAt(s, o, ns, strings) && ListEnd(s, o + NodesSize(ns))
  }

  // The token after the properties of a node.
  ghost predicate NotProperty(s: seq<byte>, o: nat) {
    WordAt(s, o, TOKEN_BEGIN_NODE) || WordAt(s, o, TOKEN_END_NODE)
  }

  ghost predicate RecordsAt(s: seq<byte>, o: nat, ps: seq<Property>, strings: nat) {
    PropertiesAt(s, o, ps, strings) && NotProperty(s, o + PropertiesSize(ps))
  }

  // ----- Phandles

  const PHANDLE: seq<byte> := [112, 104, 97, 110, 100, 108, 101]                                      // phandle
  const LINUX_PHANDLE: seq<byte> := [108, 105, 110, 117, 120, 44, 112, 104, 97, 110, 100, 108, 101]   // linux,phandle

  predicate IsPhandle(p: Property) {
    p.name == PHANDLE || p.name == LINUX_PHANDLE
  }

  // The first cell of a value.
  function Cell(p: Property): nat {
    if |p.data| >= 4 then Be32(p.data, 0) else 0
  }

  // The last phandle property of a node decides.
  function PhandleOf(ps: seq<Property>): nat {
    if ps == [] then 0
    else
      var last := ps[|ps| - 1];
      if IsPhandle(last) then Cell(last) else PhandleOf(ps[..|ps| - 1])
  }

  // Every phandle property of a node and below it.
  function PhandlesIn(ps: seq<Property>): set<nat> {
    set p | p in ps && IsPhandle(p) :: Cell(p)
  }

  function Phandles(n: Node): set<nat>
    decreases n, 1
  {
    PhandlesIn(n.properties) + PhandlesOf(n.children)
  }

  function PhandlesOf(ns: seq<Node>): set<nat>
    decreases ns, 0
  {
    if ns == [] then {} else Phandles(ns[0]) + PhandlesOf(ns[1..])
  }

  // Phandle properties hold a cell to read.
  ghost predicate PhandlesPresent(n: Node) {
    && (forall p :: p in n.properties && IsPhandle(p) ==> 4 <= |p.data|)
    && (forall c :: c in n.children ==> PhandlesPresent(c))
  }

  const ADDRESS_CELLS: seq<byte> := [35, 97, 100, 100, 114, 101, 115, 115, 45, 99, 101, 108, 108, 115] // #address-cells
  const SIZE_CELLS: seq<byte> := [35, 115, 105, 122, 101, 45, 99, 101, 108, 108, 115]                  // #size-cells

  // ----- A place in a blob says one thing only

  lemma PropertyUnique(s: seq<byte>, o: nat, p: Property, q: Property, strings: nat)
    requires PropertyAt(s, o, p, strings) && PropertyAt(s, o, q, strings)
    ensures p == q
  {
    hide StringAt, Be32, Align4;
    StringUnique(s, strings + Be32(s, o + 8), p.name, q.name);
  }

  lemma FirstRecord(s: seq<byte>, o: nat, ps: seq<Property>, strings: nat)
    requires RecordsAt(s, o, ps, strings)
    ensures o + 4 <= |s| && (Be32(s, o) == TOKEN_PROPERTY <==> ps != [])
    ensures ps == [] ==> NotProperty(s, o)
    ensures ps != [] ==> PropertyAt(s, o, ps[0], strings)
    ensures ps != [] ==> RecordsAt(s, o + PropertySize(ps[0]), ps[1..], strings)
    ensures PropertiesSize(ps) == if ps == [] then 0 else PropertySize(ps[0]) + PropertiesSize(ps[1..])
  {
    hide StringAt, Be32, Align4;
  }

  lemma {:induction false} RecordsUnique(s: seq<byte>, o: nat, ps: seq<Property>, qs: seq<Property>, strings: nat)
    requires RecordsAt(s, o, ps, strings) && RecordsAt(s, o, qs, strings)
    ensures ps == qs
    decreases |ps|
  {
    hide RecordsAt, PropertyAt, Be32, PropertySize;
    FirstRecord(s, o, ps, strings);
    FirstRecord(s, o, qs, strings);
    if ps != [] {
      PropertyUnique(s, o, ps[0], qs[0], strings);
      RecordsUnique(s, o + PropertySize(ps[0]), ps[1..], qs[1..], strings);
      assert ps == [ps[0]] + ps[1..] && qs == [qs[0]] + qs[1..];
    }
  }

  lemma FirstNode(s: seq<byte>, o: nat, ns: seq<Node>, strings: nat)
    requires ListAt(s, o, ns, strings)
    ensures o + 4 <= |s| && (Be32(s, o) == TOKEN_BEGIN_NODE <==> ns != [])
    ensures Be32(s, o) != TOKEN_PROPERTY && Be32(s, o) != TOKEN_NOP
    ensures ns != [] ==> NodeAt(s, o, ns[0], strings) && ListAt(s, o + NodeSize(ns[0]), ns[1..], strings)
    ensures NodesSize(ns) == if ns == [] then 0 else NodeSize(ns[0]) + NodesSize(ns[1..])
  {
    hide StringAt, Be32, Align4, PropertiesAt, NodeSize;
    hide PropertiesStart, ChildrenStart, PhandleOf;
    assert ns != [] ==> NodeAt(s, o, ns[0], strings);
  }

  // The parts of a node: its records end where its children begin, and those where its end token is.
  lemma NodeParts(s: seq<byte>, o: nat, n: Node, strings: nat)
    requires NodeAt(s, o, n, strings)
    ensures WordAt(s, o, TOKEN_BEGIN_NODE) && StringAt(s, o + 4, n.name) && n.phandle == PhandleOf(n.properties)
    ensures PropertiesStart(o, n) == o + 4 + Align4(|n.name| + 1)
    ensures RecordsAt(s, PropertiesStart(o, n), n.properties, strings)
    ensures PropertiesStart(o, n) + PropertiesSize(n.properties) == ChildrenStart(o, n)
    ensures ListAt(s, ChildrenStart(o, n), n.children, strings)
    ensures ChildrenStart(o, n) + NodesSize(n.children) + 4 == o + NodeSize(n)
    ensures WordAt(s, o + NodeSize(n) - 4, TOKEN_END_NODE)
  {
    hide StringAt, Be32, Align4, PropertiesAt, PhandleOf, NodesAt;
    assert ListAt(s, ChildrenStart(o, n), n.children, strings);
    hide ListAt;
    FirstNode(s, ChildrenStart(o, n), n.children, strings);
    ListStart(s, ChildrenStart(o, n), n.children, strings);
  }

  lemma ListStart(s: seq<byte>, o: nat, ns: seq<Node>, strings: nat)
    requires ListAt(s, o, ns, strings)
    ensures ns == [] ==> ListEnd(s, o)
    ensures ns != [] ==> WordAt(s, o, TOKEN_BEGIN_NODE)
  {
    hide StringAt, Be32, Align4, PropertiesAt, NodeSize, PhandleOf, PropertiesStart, ChildrenStart;
    assert ns != [] ==> NodeAt(s, o, ns[0], strings);
  }

  lemma {:induction false} NodeUnique(s: seq<byte>, o: nat, m: Node, n: Node, strings: nat)
    requires NodeAt(s, o, m, strings) && NodeAt(s, o, n, strings)
    ensures m == n
    decreases m, 1
  {
    hide NodeAt, RecordsAt, ListAt, StringAt, WordAt, Align4;
    NodeParts(s, o, m, strings);
    NodeParts(s, o, n, strings);
    StringUnique(s, o + 4, m.name, n.name);
    RecordsUnique(s, PropertiesStart(o, m), m.properties, n.properties, strings);
    ListUnique(s, ChildrenStart(o, m), m.children, n.children, strings);
  }

  lemma {:induction false} ListUnique(s: seq<byte>, o: nat, ms: seq<Node>, ns: seq<Node>, strings: nat)
    requires ListAt(s, o, ms, strings) && ListAt(s, o, ns, strings)
    ensures ms == ns
    decreases ms, 0
  {
    hide NodeAt, ListAt, NodeSize;
    FirstNode(s, o, ms, strings);
    FirstNode(s, o, ns, strings);
    if ms != [] {
      NodeUnique(s, o, ms[0], ns[0], strings);
      ListUnique(s, o + NodeSize(ms[0]), ms[1..], ns[1..], strings);
      assert ms == [ms[0]] + ms[1..] && ns == [ns[0]] + ns[1..];
    }
  }
}
