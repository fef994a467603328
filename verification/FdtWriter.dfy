/**
 Writing flattened nodes into a buffer in place (src/commonlib/device_tree.c): the structure block and
 the strings block grow side by side, and nothing else in the buffer changes.
 */
module FdtWriter {
  import opened Buffers
  import opened FdtFormat
  import opened FdtLayout

  // ----- Writing single items

  method Be32Enc(dest: array<byte>, o: nat, v: nat)
    requires o + 4 <= dest.Length && v < U32_SIZE
    modifies dest
    ensures Bytes(dest) == Put(old(Bytes(dest)), o, Enc32(v))
  {
    var e := Enc32(v);
    dest[o], dest[o + 1], dest[o + 2], dest[o + 3] := e[0], e[1], e[2], e[3];
    hide Enc32, Be32;
    assert Bytes(dest) == Put(old(Bytes(dest)), o, e);
  }

  method StrCpy(dest: array<byte>, o: nat, name: seq<byte>)
    requires o + |name| + 1 <= dest.Length
    modifies dest
    ensures Bytes(dest) == Put(old(Bytes(dest)), o, Terminated(name))
  {
    MemCpy(dest, o, name);
    dest[o + |name|] := 0;
    assert Bytes(dest) == Put(old(Bytes(dest)), o, Terminated(name));
  }

  lemma EncWord(v: nat, b: seq<byte>, k: nat)
    requires v < U32_SIZE && k + 4 <= |b| && b[k..k + 4] == Enc32(v)
    ensures WordAt(b, k, v)
  {
    var e := Enc32(v);
    assert e[0] == b[k] && e[1] == b[k + 1] && e[2] == b[k + 2] && e[3] == b[k + 3];
    hide Enc32;
  }

  lemma PutWord(s: seq<byte>, o: nat, v: nat)
    requires o + 4 <= |s| && v < U32_SIZE
    ensures WordAt(Put(s, o, Enc32(v)), o, v)
  {
    hide Enc32, Be32;
    PutThere(s, o, Enc32(v));
    EncWord(v, Put(s, o, Enc32(v)), o);
  }

  lemma PutOtherWord(s: seq<byte>, o: nat, bytes: seq<byte>, k: nat, v: nat)
    requires o + |bytes| <= |s| && WordAt(s, k, v)
    requires k + 4 <= o || o + |bytes| <= k
    ensures WordAt(Put(s, o, bytes), k, v)
  {
  }

  lemma PartsWord(s: seq<byte>, a: nat, b: nat, k: nat, v: nat)
    requires a + k + 4 <= b <= |s| && WordAt(s, a + k, v)
    ensures WordAt(s[a..b], k, v)
  {
    Be32Slice(s, s[a..b], k, a, b);
  }

  // ----- Sizes

  /** dt_flat_prop_size and dt_flat_node_size: running counters for the two blocks. */
  method DtFlatNodeSize(node: Node, structBefore: nat, stringsBefore: nat) returns (structSize: nat, stringsSize: nat)
    ensures structSize == structBefore + NodeSize(node) && stringsSize == stringsBefore + |Names(node)|
    decreases node
  {
    hide NodesSize, NamesOf;
    structSize, stringsSize := structBefore + 4, stringsBefore;
    structSize := structSize + Align4(|node.name| + 1);

    var ps := node.properties;
    NothingLaid(0);
    for i := 0 to |ps|
      invariant structSize == structBefore + 4 + Align4(|node.name| + 1) + PropertiesSize(ps[..i])
      invariant stringsSize == stringsBefore + |NamesIn(ps[..i])|
    {
      hide PropertiesSize, Align4;
      OneMorePropertySizes(ps, i);
      structSize := structSize + 4;
      structSize := structSize + 4;
      structSize := structSize + 4;
      structSize := structSize + Align4(|ps[i].data|);
      stringsSize := stringsSize + |ps[i].name| + 1;
    }
    assert ps[..|ps|] == ps;
    hide NamesIn, PropertiesSize;

    var ns := node.children;
    for i := 0 to |ns|
      invariant structSize == structBefore + 4 + Align4(|node.name| + 1) + PropertiesSize(ps) + NodesSize(ns[..i])
      invariant stringsSize == stringsBefore + |NamesIn(ps)| + |NamesOf(ns[..i])|
    {
      hide *;
      OneMoreNodeSizes(ns, i);
      structSize, stringsSize := DtFlatNodeSize(ns[i], structSize, stringsSize);
    }
    assert ns[..|ns|] == ns;
    structSize := structSize + 4;
  }

  lemma OneMoreName(ns: seq<Node>, n: Node)
    ensures |NamesOf(ns + [n])| == |NamesOf(ns)| + |Names(n)|
  {
    Cut(ns, [n]);
  }

  // ----- Writing a property

  // Three words in a row.
  ghost function Put3(s: seq<byte>, o: nat, u: nat, v: nat, w: nat): (r: seq<byte>)
    requires o + 12 <= |s| && u < U32_SIZE && v < U32_SIZE && w < U32_SIZE
    ensures |r| == |s|
  {
    Put(Put(Put(s, o, Enc32(u)), o + 4, Enc32(v)), o + 8, Enc32(w))
  }

  lemma ThreeWords(s: seq<byte>, o: nat, u: nat, v: nat, w: nat)
    requires o + 12 <= |s| && u < U32_SIZE && v < U32_SIZE && w < U32_SIZE
    ensures var r := Put3(s, o, u, v, w); WordAt(r, o, u) && WordAt(r, o + 4, v) && WordAt(r, o + 8, w)
  {
    var s1 := Put(s, o, Enc32(u));
    var s2 := Put(s1, o + 4, Enc32(v));
    assert Put3(s, o, u, v, w) == Put(s2, o + 8, Enc32(w));
    hide *;
    PutWord(s, o, u);
    PutOtherWord(s1, o + 4, Enc32(v), o, u);
    PutOtherWord(s2, o + 8, Enc32(w), o, u);
    PutWord(s1, o + 4, v);
    PutOtherWord(s2, o + 8, Enc32(w), o + 4, v);
    PutWord(s2, o + 8, w);
  }

  lemma ThreeWordsInside(s: seq<byte>, o: nat, u: nat, v: nat, w: nat, a: nat, b: nat, c: nat, d: nat)
    requires a <= o && o + 12 <= b && o + 12 <= |s| && u < U32_SIZE && v < U32_SIZE && w < U32_SIZE
    ensures Outside(s, Put3(s, o, u, v, w), a, b, c, d)
  {
    var s1 := Put(s, o, Enc32(u));
    var s2 := Put(s1, o + 4, Enc32(v));
    var s3 := Put(s2, o + 8, Enc32(w));
    assert Put3(s, o, u, v, w) == s3;
    hide *;
    PutInside(s, o, Enc32(u), a, b, c, d);
    PutInside(s1, o + 4, Enc32(v), a, b, c, d);
    PutInside(s2, o + 8, Enc32(w), a, b, c, d);
    OutsideTwice(s, s1, s2, a, b, c, d);
    OutsideTwice(s, s2, s3, a, b, c, d);
  }

  // All writes of a property.
  ghost function PutProperty(s: seq<byte>, p: Property, o: nat, strings: nat, name: nat): (r: seq<byte>)
    requires o + PropertySize(p) <= strings && strings + |p.name| + 1 <= |s| < U32_SIZE && name < U32_SIZE
    ensures |r| == |s|
  {
    Put(Put(Put3(s, o, TOKEN_PROPERTY, |p.data|, name), strings, Terminated(p.name)), o + 12, p.data)
  }

  lemma PropertyWord(s: seq<byte>, p: Property, o: nat, strings: nat, k: nat, v: nat)
    requires o + PropertySize(p) <= strings && strings + |p.name| + 1 <= |s|
    requires k + 4 <= 12 && WordAt(s, o + k, v)
    ensures WordAt(Put(Put(s, strings, Terminated(p.name)), o + 12, p.data)[o..o + PropertySize(p)], k, v)
  {
    assert 12 + |p.data| <= PropertySize(p) && |Terminated(p.name)| == |p.name| + 1;
    hide *;
    var s4 := Put(s, strings, Terminated(p.name));
    PutOtherWord(s, strings, Terminated(p.name), o + k, v);
    PutOtherWord(s4, o + 12, p.data, o + k, v);
    PartsWord(Put(s4, o + 12, p.data), o, o + PropertySize(p), k, v);
  }

  lemma PropertyData(s: seq<byte>, p: Property, o: nat)
    requires o + PropertySize(p) <= |s|
    ensures Put(s, o + 12, p.data)[o..o + PropertySize(p)][12..12 + |p.data|] == p.data
  {
    assert 12 + |p.data| <= PropertySize(p);
    hide *;
    var now := Put(s, o + 12, p.data);
    PutThere(s, o + 12, p.data);
    assert now[o..o + PropertySize(p)][12..12 + |p.data|] == now[o + 12..o + 12 + |p.data|];
  }

  lemma PropertyWords(s: seq<byte>, p: Property, o: nat, strings: nat, name: nat)
    requires o + PropertySize(p) <= strings && strings + |p.name| + 1 <= |s| < U32_SIZE && name < U32_SIZE
    ensures PropertyLaid(PutProperty(s, p, o, strings, name)[o..o + PropertySize(p)], p, name)
  {
    var s3 := Put3(s, o, TOKEN_PROPERTY, |p.data|, name);
    hide Put, Put3, Terminated, WordAt, Align4, Enc32, Be32;
    ThreeWords(s, o, TOKEN_PROPERTY, |p.data|, name);
    PropertyWord(s3, p, o, strings, 0, TOKEN_PROPERTY);
    PropertyWord(s3, p, o, strings, 4, |p.data|);
    PropertyWord(s3, p, o, strings, 8, name);
    PropertyData(Put(s3, strings, Terminated(p.name)), p, o);
  }

  lemma PropertyElsewhere(s: seq<byte>, p: Property, o: nat, strings: nat, name: nat)
    requires o + PropertySize(p) <= strings && strings + |p.name| + 1 <= |s| < U32_SIZE && name < U32_SIZE
    ensures PutProperty(s, p, o, strings, name)[strings..strings + |p.name| + 1] == Terminated(p.name)
    ensures Outside(s, PutProperty(s, p, o, strings, name), o, o + PropertySize(p), strings, strings + |p.name| + 1)
  {
    var size, end := PropertySize(p), strings + |p.name| + 1;
    var s3 := Put3(s, o, TOKEN_PROPERTY, |p.data|, name);
    var s4 := Put(s3, strings, Terminated(p.name));
    var now := Put(s4, o + 12, p.data);
    assert now == PutProperty(s, p, o, strings, name);
    assert 12 + |p.data| <= size && |Terminated(p.name)| == |p.name| + 1;
    hide *;
    PutThere(s3, strings, Terminated(p.name));
    PutElsewhere(s4, o + 12, p.data, strings, end);
    ThreeWordsInside(s, o, TOKEN_PROPERTY, |p.data|, name, o, o + size, strings, end);
    PutInside(s3, strings, Terminated(p.name), o, o + size, strings, end);
    PutInside(s4, o + 12, p.data, o, o + size, strings, end);
    OutsideTwice(s, s3, s4, o, o + size, strings, end);
    OutsideTwice(s, s4, now, o, o + size, strings, end);
  }

  lemma Put3Is(s: seq<byte>, o: nat, u: nat, v: nat, w: nat)
    requires o + 12 <= |s| && u < U32_SIZE && v < U32_SIZE && w < U32_SIZE
    ensures Put3(s, o, u, v, w) == Put(Put(Put(s, o, Enc32(u)), o + 4, Enc32(v)), o + 8, Enc32(w))
  {
  }

  lemma PutPropertyIs(s: seq<byte>, p: Property, o: nat, strings: nat, name: nat)
    requires o + PropertySize(p) <= strings && strings + |p.name| + 1 <= |s| < U32_SIZE && name < U32_SIZE
    ensures PutProperty(s, p, o, strings, name) ==
            Put(Put(Put3(s, o, TOKEN_PROPERTY, |p.data|, name), strings, Terminated(p.name)), o + 12, p.data)
  {
  }

  lemma PropertyBounds(p: Property)
    ensures 12 + |p.data| <= PropertySize(p) == 12 + Align4(|p.data|) && |Terminated(p.name)| == |p.name| + 1
    ensures TOKEN_PROPERTY < U32_SIZE
  {
  }

  method DtFlattenProp(p: Property, dest: array<byte>, structStart: nat, stringsBase: nat, stringsStart: nat)
    returns (structEnd: nat, stringsEnd: nat)
    requires structStart + PropertySize(p) <= stringsBase <= stringsStart
    requires stringsStart + |p.name| + 1 <= dest.Length < U32_SIZE
    modifies dest
    ensures structEnd == structStart + PropertySize(p) && stringsEnd == stringsStart + |p.name| + 1
    ensures PropertyLaid(Bytes(dest)[structStart..structEnd], p, stringsStart - stringsBase)
    ensures Bytes(dest)[stringsStart..stringsEnd] == Terminated(p.name)
    ensures Outside(old(Bytes(dest)), Bytes(dest), structStart, structEnd, stringsStart, stringsEnd)
  {
    ghost var was := Bytes(dest);
    var nameOffset := stringsStart - stringsBase;
    PropertyBounds(p);
    hide *;

    Be32Enc(dest, structStart, TOKEN_PROPERTY);
    Be32Enc(dest, structStart + 4, |p.data|);
    Be32Enc(dest, structStart + 8, nameOffset);
    Put3Is(was, structStart, TOKEN_PROPERTY, |p.data|, nameOffset);
    StrCpy(dest, stringsStart, p.name);
    MemCpy(dest, structStart + 12, p.data);
    PutPropertyIs(was, p, structStart, stringsStart, nameOffset);

    PropertyWords(was, p, structStart, stringsStart, nameOffset);
    PropertyElsewhere(was, p, structStart, stringsStart, nameOffset);
    structEnd := structStart + 12 + Align4(|p.data|);
    stringsEnd := stringsStart + |p.name| + 1;
  }

  // ----- Writing a node

  lemma NodeBounds(n: Node)
    ensures NodeSize(n) == 4 + Align4(|n.name| + 1) + PropertiesSize(n.properties) + NodesSize(n.children) + 4
    ensures PropertiesStart(0, n) == 4 + Align4(|n.name| + 1)
    ensures ChildrenStart(0, n) == PropertiesStart(0, n) + PropertiesSize(n.properties)
    ensures |Terminated(n.name)| == |n.name| + 1
    ensures Names(n) == NamesIn(n.properties) + NamesOf(n.children)
    ensures TOKEN_BEGIN_NODE < U32_SIZE && TOKEN_END_NODE < U32_SIZE
  {
  }

  // The first i properties and the rest take no more than all of them.
  lemma {:induction false} PrefixFits(ps: seq<Property>, i: nat)
    requires i < |ps|
    ensures PropertiesSize(ps[..i]) + PropertySize(ps[i]) <= PropertiesSize(ps)
    ensures |NamesIn(ps[..i])| + |ps[i].name| + 1 <= |NamesIn(ps)|
    decreases |ps|
  {
    hide PropertySize;
    var before, last := ps[..|ps| - 1], ps[|ps| - 1];
    assert ps == before + [last];
    OneMoreSize(before, last);
    if i < |before| {
      PrefixFits(before, i);
      assert before[..i] == ps[..i];
    }
  }

  lemma {:induction false} PrefixNodesFit(ns: seq<Node>, i: nat)
    requires i < |ns|
    ensures NodesSize(ns[..i]) + NodeSize(ns[i]) <= NodesSize(ns)
    ensures |NamesOf(ns[..i])| + |Names(ns[i])| <= |NamesOf(ns)|
    decreases |ns|
  {
    hide NodeSize, Names;
    var before, last := ns[..|ns| - 1], ns[|ns| - 1];
    assert ns == before + [last];
    OneMoreNodeSize(before, last);
    if i < |before| {
      PrefixNodesFit(before, i);
      assert before[..i] == ns[..i];
    }
  }

  // The start of a node: its token and its name.
  ghost predicate HeadLaid(b: seq<byte>, n: Node) {
    |b| == PropertiesStart(0, n) && WordAt(b, 0, TOKEN_BEGIN_NODE) && b[4..4 + |n.name| + 1] == Terminated(n.name)
  }

  lemma HeadWritten(s: seq<byte>, n: Node, o: nat, c: nat)
    requires o + PropertiesStart(0, n) <= |s|
    ensures var now := Put(Put(s, o, Enc32(TOKEN_BEGIN_NODE)), o + 4, Terminated(n.name));
      && HeadLaid(now[o..o + PropertiesStart(0, n)], n)
      && Outside(s, now, o, o + PropertiesStart(0, n), c, c)
  {
    var head := PropertiesStart(0, n);
    var s1 := Put(s, o, Enc32(TOKEN_BEGIN_NODE));
    var now := Put(s1, o + 4, Terminated(n.name));
    hide Put, Terminated, Outside, WordAt, Enc32, Align4;
    NodeBounds(n);
    PutWord(s, o, TOKEN_BEGIN_NODE);
    PutOtherWord(s1, o + 4, Terminated(n.name), o, TOKEN_BEGIN_NODE);
    PartsWord(now, o, o + head, 0, TOKEN_BEGIN_NODE);
    PutThere(s1, o + 4, Terminated(n.name));
    assert now[o..o + head][4..4 + |n.name| + 1] == now[o + 4..o + 4 + |n.name| + 1];
    PutInside(s, o, Enc32(TOKEN_BEGIN_NODE), o, o + head, c, c);
    PutInside(s1, o + 4, Terminated(n.name), o, o + head, c, c);
    OutsideTwice(s, s1, now, o, o + head, c, c);
  }

  lemma HeadOfBytes(b: seq<byte>, n: Node)
    requires PropertiesStart(0, n) <= |b| && HeadLaid(b[0..PropertiesStart(0, n)], n)
    ensures 4 + |n.name| + 1 <= |b| && WordAt(b, 0, TOKEN_BEGIN_NODE) && b[4..4 + |n.name| + 1] == Terminated(n.name)
  {
    var m := PropertiesStart(0, n);
    NodeBounds(n);
    hide Terminated, PropertiesStart, Be32;
    Be32Slice(b, b[0..m], 0, 0, m);
    SliceOfSlice(b, 0, m, 4, 4 + |n.name| + 1);
  }

  lemma NodeLaidFromParts(b: seq<byte>, n: Node, name: nat)
    requires 4 + |n.name| + 1 <= |b| == NodeSize(n)
    requires WordAt(b, 0, TOKEN_BEGIN_NODE) && WordAt(b, |b| - 4, TOKEN_END_NODE)
    requires b[4..4 + |n.name| + 1] == Terminated(n.name)
    requires PropertiesStart(0, n) <= ChildrenStart(0, n) <= |b| - 4
    requires PropertiesLaid(b[PropertiesStart(0, n)..ChildrenStart(0, n)], n.properties, name)
    requires NodesLaid(b[ChildrenStart(0, n)..|b| - 4], n.children, name + |NamesIn(n.properties)|)
    ensures NodeLaid(b, n, name)
  {
    hide Terminated, PropertiesStart, ChildrenStart, Be32, NodeSize, PropertiesLaid, NodesLaid, NamesIn, WordAt;
  }

  // A node written in four parts: o to m, m to c, c to e, and the end token.
  lemma NodeFromParts(s: seq<byte>, o: nat, m: nat, c: nat, e: nat, n: Node, name: nat)
    requires o <= m <= c <= e && e + 4 <= |s|
    requires m == o + PropertiesStart(0, n) && c == o + ChildrenStart(0, n) && e + 4 == o + NodeSize(n)
    requires HeadLaid(s[o..m], n) && PropertiesLaid(s[m..c], n.properties, name)
    requires NodesLaid(s[c..e], n.children, name + |NamesIn(n.properties)|) && WordAt(s, e, TOKEN_END_NODE)
    ensures NodeLaid(s[o..e + 4], n, name)
  {
    hide *;
    SliceOfSlice(s, o, e + 4, 0, m - o);
    SliceOfSlice(s, o, e + 4, m - o, c - o);
    SliceOfSlice(s, o, e + 4, c - o, e - o);
    PartsWord(s, o, e + 4, e - o, TOKEN_END_NODE);
    NodeBounds(n);
    HeadOfBytes(s[o..e + 4], n);
    NodeLaidFromParts(s[o..e + 4], n, name);
  }

  // The end token goes behind everything else.
  lemma EndWritten(was: seq<byte>, s: seq<byte>, a: nat, e: nat, c: nat, d: nat)
    requires a <= e && e + 4 <= c <= d <= |s| && Outside(was, s, a, e, c, d)
    ensures var now := Put(s, e, Enc32(TOKEN_END_NODE));
      && WordAt(now, e, TOKEN_END_NODE)
      && Outside(was, now, a, e + 4, c, d)
      && (forall lo: nat, hi: nat :: lo <= hi <= e || e + 4 <= lo <= hi <= |s| ==> now[lo..hi] == s[lo..hi])
  {
    var now := Put(s, e, Enc32(TOKEN_END_NODE));
    hide Put, Enc32, Outside;
    PutWord(s, e, TOKEN_END_NODE);
    PutInside(s, e, Enc32(TOKEN_END_NODE), e, e + 4, d, d);
    OutsideGrows(was, s, now, a, e, e + 4, c, d, d);
    forall lo: nat, hi: nat | lo <= hi <= e || e + 4 <= lo <= hi <= |s|
      ensures now[lo..hi] == s[lo..hi]
    {
      PutElsewhere(s, e, Enc32(TOKEN_END_NODE), lo, hi);
    }
  }

  // How far a node has got: its head is o to m, the records ps are m to d, their names c to e.
  ghost predicate RecordsWritten(was: seq<byte>, s: seq<byte>, o: nat, m: nat, d: nat, c: nat, e: nat,
                                 n: Node, ps: seq<Property>, name: nat) {
    && o <= m <= d <= c <= e <= |s|
    && d == m + PropertiesSize(ps) && e == c + |NamesIn(ps)|
    && HeadLaid(s[o..m], n) && PropertiesLaid(s[m..d], ps, name) && s[c..e] == NamesIn(ps)
    && Outside(was, s, o, d, c, e)
  }

  lemma NoRecordYet(was: seq<byte>, s: seq<byte>, o: nat, m: nat, c: nat, n: Node, name: nat)
    requires o <= m <= c <= |s| && HeadLaid(s[o..m], n) && Outside(was, s, o, m, c, c)
    ensures RecordsWritten(was, s, o, m, m, c, c, n, [], name)
  {
    hide HeadLaid, Outside;
    assert s[m..m] == [] && s[c..c] == [];
    NothingLaid(name);
  }

  lemma RecordStep(was: seq<byte>, mid: seq<byte>, now: seq<byte>, o: nat, m: nat, d: nat, d': nat,
                   c: nat, e: nat, e': nat, n: Node, ps: seq<Property>, p: Property, name: nat)
    requires RecordsWritten(was, mid, o, m, d, c, e, n, ps, name) && name + (e - c) == name + |NamesIn(ps)|
    requires d' == d + PropertySize(p) <= c && e' == e + |p.name| + 1 <= |now| && Outside(mid, now, d, d', e, e')
    requires PropertyLaid(now[d..d'], p, name + (e - c)) && now[e..e'] == Terminated(p.name)
    ensures RecordsWritten(was, now, o, m, d', c, e', n, ps + [p], name)
  {
    hide HeadLaid, Outside, PropertiesLaid, PropertyLaid, NamesIn, PropertiesSize, PropertySize, Terminated;
    OutsideSize(was, mid, o, d, c, e);
    OutsideSize(mid, now, d, d', e, e');
    Grow(was, mid, now, o, m, d, d', c, c, e, e');
    OneMorePropertyLaid(mid[m..d], now[d..d'], ps, p, name);
    OneMoreSize(ps, p);
    assert now[c..e'] == NamesIn(ps + [p]);
    assert |now[c..e']| == e' - c;
    OutsideSize(was, now, o, d', c, e');
  }

  lemma OutsideSize(was: seq<byte>, now: seq<byte>, a: nat, b: nat, c: nat, d: nat)
    requires Outside(was, now, a, b, c, d)
    ensures |was| == |now|
  {
  }

  // Then the children ns are k to d, and their names t to e.
  ghost predicate ChildrenWritten(was: seq<byte>, s: seq<byte>, o: nat, m: nat, k: nat, d: nat, c: nat, t: nat, e: nat,
                                  n: Node, ns: seq<Node>, name: nat) {
    && o <= m <= k <= d <= c <= t <= e <= |s|
    && d == k + NodesSize(ns) && e == t + |NamesOf(ns)| && t - c == |NamesIn(n.properties)|
    && HeadLaid(s[o..m], n) && PropertiesLaid(s[m..k], n.properties, name) && s[c..t] == NamesIn(n.properties)
    && NodesLaid(s[k..d], ns, name + (t - c)) && s[t..e] == NamesOf(ns)
    && Outside(was, s, o, d, c, e)
  }

  lemma NoChildYet(was: seq<byte>, s: seq<byte>, o: nat, m: nat, k: nat, c: nat, t: nat, n: Node, name: nat)
    requires RecordsWritten(was, s, o, m, k, c, t, n, n.properties, name)
    ensures ChildrenWritten(was, s, o, m, k, k, c, t, t, n, [], name)
  {
    hide HeadLaid, Outside, PropertiesLaid, NamesIn, PropertiesSize;
    assert s[k..k] == [] && s[t..t] == [];
    NothingLaid(name + (t - c));
  }

  lemma ChildStep(was: seq<byte>, mid: seq<byte>, now: seq<byte>, o: nat, m: nat, k: nat, d: nat, d': nat,
                  c: nat, t: nat, e: nat, e': nat, n: Node, ns: seq<Node>, child: Node, name: nat)
    requires ChildrenWritten(was, mid, o, m, k, d, c, t, e, n, ns, name)
    requires d' == d + NodeSize(child) <= c && e' == e + |Names(child)| <= |now| && Outside(mid, now, d, d', e, e')
    requires NodeLaid(now[d..d'], child, name + (e - c)) && now[e..e'] == Names(child)
    ensures ChildrenWritten(was, now, o, m, k, d', c, t, e', n, ns + [child], name)
  {
    hide HeadLaid, Outside, PropertiesLaid, NodesLaid, NodeLaid, NamesIn, NamesOf, Names, NodesSize, NodeSize;
    OutsideSize(was, mid, o, d, c, e);
    OutsideSize(mid, now, d, d', e, e');
    Grow(was, mid, now, o, k, d, d', c, t, e, e');
    OutsideKeeps(mid, now, d, d', e, e', o, m);
    OutsideKeeps(mid, now, d, d', e, e', m, k);
    OneMoreNodeLaid(mid[k..d], now[d..d'], ns, child, name + (t - c));
    OneMoreNodeSize(ns, child);
    assert |now[t..e']| == e' - t;
    OutsideSize(was, now, o, d', c, e');
  }

  lemma NodeDone(was: seq<byte>, s: seq<byte>, o: nat, m: nat, k: nat, d: nat, c: nat, t: nat, e: nat, n: Node, name: nat)
    requires ChildrenWritten(was, s, o, m, k, d, c, t, e, n, n.children, name)
    requires m == o + PropertiesStart(0, n) && k == o + ChildrenStart(0, n) && d + 4 == o + NodeSize(n) <= c
    ensures var now := Put(s, d, Enc32(TOKEN_END_NODE));
      && NodeLaid(now[o..d + 4], n, name) && now[c..e] == Names(n) && Outside(was, now, o, d + 4, c, e)
  {
    var now := Put(s, d, Enc32(TOKEN_END_NODE));
    ChildrenWrittenParts(was, s, o, m, k, d, c, t, e, n, n.children, name);
    NodeBounds(n);
    hide *;
    EndWritten(was, s, o, d, c, e);
    assert now[o..m] == s[o..m] && now[m..k] == s[m..k] && now[k..d] == s[k..d];
    assert now[c..t] == s[c..t] && now[t..e] == s[t..e];
    NodeFromParts(now, o, m, k, d, n, name);
    Join(now, c, t, e);
  }

  lemma ChildrenWrittenParts(was: seq<byte>, s: seq<byte>, o: nat, m: nat, k: nat, d: nat, c: nat, t: nat, e: nat,
                             n: Node, ns: seq<Node>, name: nat)
    requires ChildrenWritten(was, s, o, m, k, d, c, t, e, n, ns, name)
    ensures o <= m <= k <= d <= c <= t <= e <= |s|
    ensures HeadLaid(s[o..m], n) && PropertiesLaid(s[m..k], n.properties, name) && s[c..t] == NamesIn(n.properties)
    ensures NodesLaid(s[k..d], ns, name + |NamesIn(n.properties)|) && s[t..e] == NamesOf(ns)
    ensures Outside(was, s, o, d, c, e)
  {
    hide HeadLaid, Outside, PropertiesLaid, NodesLaid, NamesIn, NamesOf, NodesSize;
  }

  method DtFlattenNode(node: Node, dest: array<byte>, structStart: nat, stringsBase: nat, stringsStart: nat)
    returns (structEnd: nat, stringsEnd: nat)
    requires structStart + NodeSize(node) <= stringsBase <= stringsStart
    requires stringsStart + |Names(node)| <= dest.Length < U32_SIZE
    modifies dest
    ensures structEnd == structStart + NodeSize(node) && stringsEnd == stringsStart + |Names(node)|
    ensures NodeLaid(Bytes(dest)[structStart..structEnd], node, stringsStart - stringsBase)
    ensures Bytes(dest)[stringsStart..stringsEnd] == Names(node)
    ensures Outside(old(Bytes(dest)), Bytes(dest), structStart, structEnd, stringsStart, stringsEnd)
    decreases node
  {
    hide *;
    NodeBounds(node);
    ghost var was, name, o, c := Bytes(dest), stringsStart - stringsBase, structStart, stringsStart;
    var dstruct: nat, dstrings: nat := structStart, stringsStart;

    Be32Enc(dest, dstruct, TOKEN_BEGIN_NODE);
    dstruct := dstruct + 4;
    StrCpy(dest, dstruct, node.name);
    dstruct := dstruct + Align4(|node.name| + 1);
    HeadWritten(was, node, o, c);
    ghost var m := dstruct;

    var ps := node.properties;
    assert ps[..0] == [];
    NothingLaid(name);
    NoRecordYet(was, Bytes(dest), o, m, c, node, name);
    for i := 0 to |ps|
      invariant dstruct == m + PropertiesSize(ps[..i]) && dstrings == c + |NamesIn(ps[..i])|
      invariant RecordsWritten(was, Bytes(dest), o, m, dstruct, c, dstrings, node, ps[..i], name)
    {
      PrefixFits(ps, i);
      ghost var mid, d, e := Bytes(dest), dstruct, dstrings;
      dstruct, dstrings := DtFlattenProp(ps[i], dest, dstruct, stringsBase, dstrings);
      RecordStep(was, mid, Bytes(dest), o, m, d, dstruct, c, e, dstrings, node, ps[..i], ps[i], name);
      OneMorePropertySizes(ps, i);
    }
    assert ps[..|ps|] == ps;

    var ns := node.children;
    ghost var k, t := dstruct, dstrings;
    assert ns[..0] == [];
    NoChildYet(was, Bytes(dest), o, m, k, c, t, node, name);
    for i := 0 to |ns|
      invariant dstruct == k + NodesSize(ns[..i]) && dstrings == t + |NamesOf(ns[..i])|
      invariant ChildrenWritten(was, Bytes(dest), o, m, k, dstruct, c, t, dstrings, node, ns[..i], name)
    {
      PrefixNodesFit(ns, i);
      ghost var mid, d, e := Bytes(dest), dstruct, dstrings;
      dstruct, dstrings := DtFlattenNode(ns[i], dest, dstruct, stringsBase, dstrings);
      ChildStep(was, mid, Bytes(dest), o, m, k, d, dstruct, c, t, e, dstrings, node, ns[..i], ns[i], name);
      OneMoreNodeSizes(ns, i);
    }
    assert ns[..|ns|] == ns;

    NodeDone(was, Bytes(dest), o, m, k, dstruct, c, t, dstrings, node, name);
    Be32Enc(dest, dstruct, TOKEN_END_NODE);
    dstruct := dstruct + 4;
    return dstruct, dstrings;
  }

  lemma OneMorePropertySizes(ps: seq<Property>, i: nat)
    requires i < |ps|
    ensures ps[..i + 1] == ps[..i] + [ps[i]]
    ensures PropertiesSize(ps[..i + 1]) == PropertiesSize(ps[..i]) + PropertySize(ps[i])
    ensures |NamesIn(ps[..i + 1])| == |NamesIn(ps[..i])| + |ps[i].name| + 1
  {
    hide PropertySize;
    assert ps[..i + 1] == ps[..i] + [ps[i]];
    OneMoreSize(ps[..i], ps[i]);
    Cut(ps[..i], [ps[i]]);
  }

  lemma OneMoreNodeSizes(ns: seq<Node>, i: nat)
    requires i < |ns|
    ensures ns[..i + 1] == ns[..i] + [ns[i]]
    ensures NodesSize(ns[..i + 1]) == NodesSize(ns[..i]) + NodeSize(ns[i])
    ensures |NamesOf(ns[..i + 1])| == |NamesOf(ns[..i])| + |Names(ns[i])|
  {
    hide NodeSize, Names;
    assert ns[..i + 1] == ns[..i] + [ns[i]];
    OneMoreNodeSize(ns[..i], ns[i]);
    OneMoreName(ns[..i], ns[i]);
  }
}
