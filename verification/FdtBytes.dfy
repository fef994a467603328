/**
 Flattened devicetrees byte by byte (Devicetree Specification, sections 5.2 to 5.5): numbers have their most significant
 byte first, tokens are four bytes, and property names are plain ASCII.
 */
module FdtBytes {
  import opened Buffers
  import opened FdtFormat
  import opened FdtLayout
  import opened TreeSearch

  // The number that bytes spell, first byte first.
  function BigEndian(b: seq<byte>): nat {
    if b == [] then 0 else BigEndian(b[..|b| - 1]) * 0x100 + b[|b| - 1]
  }

  lemma FourBytes(a: byte, b: byte, c: byte, d: byte)
    ensures BigEndian([a, b, c, d]) == ((a as nat * 0x100 + b as nat) * 0x100 + c as nat) * 0x100 + d as nat
  {
    var w: seq<byte> := [a, b, c, d];
    var x, y, z := w[..3], w[..2], w[..1];
    assert x[..2] == y && y[..1] == z && z[..0] == [];
    assert BigEndian(z) == a as nat;
    assert BigEndian(y) == a as nat * 0x100 + b as nat;
    assert BigEndian(x) == (a as nat * 0x100 + b as nat) * 0x100 + c as nat;
  }

  lemma Quotients(a: nat, b: nat, c: nat, d: nat)
    requires a < 0x100 && b < 0x100 && c < 0x100 && d < 0x100
    ensures var n := a * 0x100_0000 + b * 0x1_0000 + c * 0x100 + d;
              && n / 0x100_0000 == a && n / 0x1_0000 == a * 0x100 + b && n / 0x100 == a * 0x1_0000 + b * 0x100 + c
              && n % 0x100 == d
  {
  }

  lemma Remainders(a: nat, b: nat)
    requires b < 0x100
    ensures (a * 0x100 + b) % 0x100 == b
  {
  }

  /** The most significant byte comes first. */
  lemma WordIsBigEndian(s: seq<byte>, o: nat)
    requires o + 4 <= |s|
    ensures Be32(s, o) == BigEndian(s[o..o + 4])
    ensures s[o] == Be32(s, o) / 0x100_0000 && s[o + 3] == Be32(s, o) % 0x100
    ensures s[o + 1] == Be32(s, o) / 0x1_0000 % 0x100 && s[o + 2] == Be32(s, o) / 0x100 % 0x100
  {
    assert s[o..o + 4] == [s[o], s[o + 1], s[o + 2], s[o + 3]];
    FourBytes(s[o], s[o + 1], s[o + 2], s[o + 3]);
    hide BigEndian;
    Quotients(s[o], s[o + 1], s[o + 2], s[o + 3]);
    Remainders(s[o], s[o + 1]);
    Remainders(s[o] as nat * 0x100 + s[o + 1] as nat, s[o + 2]);
  }

  /** A number in four bytes: its quotient by 2^24 is the first, its remainder by 2^8 the last. */
  lemma EncodedIsBigEndian(n: nat)
    requires n < 0x1_0000_0000
    ensures Enc32(n) == [n / 0x100_0000, n / 0x1_0000 % 0x100, n / 0x100 % 0x100, n % 0x100]
    ensures BigEndian(Enc32(n)) == n
  {
    var e := Enc32(n);
    WordIsBigEndian(e, 0);
    assert e[0..4] == e == [e[0], e[1], e[2], e[3]];
  }

  lemma EightBytes(s: seq<byte>, o: nat)
    requires o + 8 <= |s|
    ensures BigEndian(s[o..o + 8]) == BigEndian(s[o..o + 4]) * 0x1_0000_0000 + BigEndian(s[o + 4..o + 8])
  {
    var w := s[o..o + 8];
    assert w[..7][..6] == w[..6] && w[..6][..5] == w[..5] && w[..5][..4] == w[..4] == s[o..o + 4];
    WordIsBigEndian(s, o + 4);
    assert BigEndian(w[..5]) == BigEndian(w[..4]) * 0x100 + w[4];
    assert BigEndian(w[..6]) == BigEndian(w[..5]) * 0x100 + w[5];
    assert BigEndian(w[..7]) == BigEndian(w[..6]) * 0x100 + w[6];
    assert BigEndian(w) == BigEndian(w[..7]) * 0x100 + w[7];
  }

  lemma SmallWord(s: seq<byte>, o: nat, word: nat)
    requires WordAt(s, o, word) && word < 0x100
    ensures o + 4 <= |s| && s[o..o + 4] == [0, 0, 0, word]
  {
    WordIsBigEndian(s, o);
    assert s[o..o + 4] == [s[o], s[o + 1], s[o + 2], s[o + 3]];
  }

  /** The tokens, byte by byte. */
  lemma Tokens(s: seq<byte>, o: nat)
    requires o + 4 <= |s|
    ensures WordAt(s, o, TOKEN_BEGIN_NODE) <==> s[o..o + 4] == [0, 0, 0, 1]
    ensures WordAt(s, o, TOKEN_END_NODE) <==> s[o..o + 4] == [0, 0, 0, 2]
    ensures WordAt(s, o, TOKEN_PROPERTY) <==> s[o..o + 4] == [0, 0, 0, 3]
    ensures WordAt(s, o, TOKEN_NOP) <==> s[o..o + 4] == [0, 0, 0, 4]
    ensures WordAt(s, o, TOKEN_END) <==> s[o..o + 4] == [0, 0, 0, 9]
  {
    hide BigEndian;
    WordIsBigEndian(s, o);
    assert s[o..o + 4] == [s[o], s[o + 1], s[o + 2], s[o + 3]];
    forall word: nat | word < 0x100
      ensures s[o..o + 4] == [0, 0, 0, word] <==> Be32(s, o) == word
    {
      assert [s[o], s[o + 1], s[o + 2], s[o + 3]] == [0, 0, 0, word] <==>
             s[o] == 0 && s[o + 1] == 0 && s[o + 2] == 0 && s[o + 3] == word;
    }
  }

  /** A property record in a blob: the token 3, the number of its bytes, the place of its name, its bytes. */
  lemma RecordBytes(s: seq<byte>, o: nat, p: Property, strings: nat)
    requires PropertyAt(s, o, p, strings)
    ensures o + 12 + |p.data| <= |s| && s[o..o + 4] == [0, 0, 0, 3] && BigEndian(s[o + 4..o + 8]) == |p.data|
    ensures StringAt(s, strings + BigEndian(s[o + 8..o + 12]), p.name) && s[o + 12..o + 12 + |p.data|] == p.data
  {
    hide Be32, BigEndian, StringAt;
    Tokens(s, o);
    WordIsBigEndian(s, o + 4);
    WordIsBigEndian(s, o + 8);
  }

  /** A laid out property is the token 3, the number of its bytes, the offset of its name and the bytes. */
  lemma PropertyBytes(b: seq<byte>, p: Property, name: nat)
    requires PropertyLaid(b, p, name)
    ensures |b| >= 12 + |p.data| && b[..4] == [0, 0, 0, 3] && BigEndian(b[4..8]) == |p.data| && BigEndian(b[8..12]) == name
    ensures b[12..12 + |p.data|] == p.data && |b| - 12 - |p.data| < 4 && |b| % 4 == 0
  {
    SmallWord(b, 0, TOKEN_PROPERTY);
    hide Be32;
    WordIsBigEndian(b, 4);
    WordIsBigEndian(b, 8);
    assert b[0..4] == b[..4];
  }

  /** A laid out node begins with the token 1 and its name, ended by a zero byte, and ends with the token 2. */
  lemma NodeBytes(b: seq<byte>, n: Node, name: nat)
    requires NodeLaid(b, n, name)
    ensures |b| >= 4 + |n.name| + 1 + 4 && b[..4] == [0, 0, 0, 1] && b[|b| - 4..] == [0, 0, 0, 2]
    ensures b[4..4 + |n.name|] == n.name && b[4 + |n.name|] == 0 && |b| % 4 == 0
  {
    SizesAligned(n);
    SmallWord(b, 0, TOKEN_BEGIN_NODE);
    SmallWord(b, |b| - 4, TOKEN_END_NODE);
    assert b[0..4] == b[..4] && b[|b| - 4..|b|] == b[|b| - 4..];
    var t := b[4..4 + |n.name| + 1];
    assert t == n.name + [0];
    assert b[4..4 + |n.name|] == t[..|n.name|] && b[4 + |n.name|] == t[|n.name|];
  }

  lemma {:induction false} SizesAligned(n: Node)
    ensures NodeSize(n) % 4 == 0 && NodeSize(n) >= 4 + |n.name| + 1 + 4
    decreases n, 1
  {
    RecordsAligned(n.properties);
    NodesAligned(n.children);
    hide Align4, PropertiesSize, NodesSize;
    SumAligned(Align4(|n.name| + 1), PropertiesSize(n.properties));
    SumAligned(Align4(|n.name| + 1) + PropertiesSize(n.properties), NodesSize(n.children));
    SumAligned(Align4(|n.name| + 1) + PropertiesSize(n.properties) + NodesSize(n.children), 8);
  }

  lemma SumAligned(x: nat, y: nat)
    requires x % 4 == 0 && y % 4 == 0
    ensures (x + y) % 4 == 0
  {
  }

  lemma {:induction false} RecordsAligned(ps: seq<Property>)
    ensures PropertiesSize(ps) % 4 == 0
    decreases |ps|
  {
    if ps != [] {
      RecordsAligned(ps[1..]);
    }
  }

  lemma {:induction false} NodesAligned(ns: seq<Node>)
    ensures NodesSize(ns) % 4 == 0
    decreases ns, 0
  {
    if ns != [] {
      SizesAligned(ns[0]);
      NodesAligned(ns[1..]);
    }
  }

  // ----- Cell counts by name

  // The last property of that name.
  ghost predicate IsLast(ps: seq<Property>, name: seq<byte>, k: nat) {
    k < |ps| && ps[k].name == name && forall j :: k < j < |ps| ==> ps[j].name != name
  }

  ghost predicate Absent(ps: seq<Property>, name: seq<byte>) {
    forall p :: p in ps ==> p.name != name
  }

  lemma CellNames()
    ensures Ascii("#address-cells") == ADDRESS_CELLS && Ascii("#size-cells") == SIZE_CELLS
    ensures ADDRESS_CELLS != SIZE_CELLS
  {
    assert |ADDRESS_CELLS| == 14 && |SIZE_CELLS| == 11;
  }

  lemma LastBefore(ps: seq<Property>, name: seq<byte>, k: nat)
    requires ps != [] && IsLast(ps, name, k) && k != |ps| - 1
    ensures IsLast(ps[..|ps| - 1], name, k) && ps[|ps| - 1].name != name && ps[..|ps| - 1][k] == ps[k]
  {
  }

  lemma FirstCell(p: Property)
    requires 4 <= |p.data|
    ensures Cell(p) == BigEndian(p.data[..4])
  {
    WordIsBigEndian(p.data, 0);
    assert p.data[0..4] == p.data[..4];
  }

  lemma LastIs(ps: seq<Property>, name: seq<byte>, k: nat)
    requires IsLast(ps, name, k)
    ensures k < |ps| && ps[k].name == name
  {
  }

  /**
   The address count that is read is the first cell of the last property called #address-cells; without a pointer for it or such
   a property it stays what it was.
   */
  lemma {:induction false} AddressCellsByName(ps: seq<Property>, c: Cells)
    ensures c.address.None? || Absent(ps, Ascii("#address-cells")) ==> ReadCells(ps, c).address == c.address
    ensures forall k: nat :: k < |ps| && IsLast(ps, Ascii("#address-cells"), k) && c.address.Some? && 4 <= |ps[k].data| ==>
              ReadCells(ps, c).address == Some(BigEndian(ps[k].data[..4]))
    decreases |ps|
  {
    CellNames();
    hide Ascii, Cell, BigEndian, ADDRESS_CELLS, SIZE_CELLS, IsLast;
    if ps != [] {
      var before, last := ps[..|ps| - 1], ps[|ps| - 1];
      AddressCellsByName(before, c);
      assert forall p :: p in before ==> p in ps;
      forall k: nat | k < |ps| && IsLast(ps, ADDRESS_CELLS, k) && c.address.Some? && 4 <= |ps[k].data|
        ensures ReadCells(ps, c).address == Some(BigEndian(ps[k].data[..4]))
      {
        LastIs(ps, ADDRESS_CELLS, k);
        if k == |ps| - 1 {
          FirstCell(last);
        } else {
          LastBefore(ps, ADDRESS_CELLS, k);
        }
      }
    }
  }

  /**
   The size count that is read is the first cell of the last property called #size-cells; without a pointer for it or such
   a property it stays what it was.
   */
  lemma {:induction false} SizeCellsByName(ps: seq<Property>, c: Cells)
    ensures c.size.None? || Absent(ps, Ascii("#size-cells")) ==> ReadCells(ps, c).size == c.size
    ensures forall k: nat :: k < |ps| && IsLast(ps, Ascii("#size-cells"), k) && c.size.Some? && 4 <= |ps[k].data| ==>
              ReadCells(ps, c).size == Some(BigEndian(ps[k].data[..4]))
    decreases |ps|
  {
    CellNames();
    hide Ascii, Cell, BigEndian, ADDRESS_CELLS, SIZE_CELLS, IsLast;
    if ps != [] {
      var before, last := ps[..|ps| - 1], ps[|ps| - 1];
      SizeCellsByName(before, c);
      assert forall p :: p in before ==> p in ps;
      forall k: nat | k < |ps| && IsLast(ps, SIZE_CELLS, k) && c.size.Some? && 4 <= |ps[k].data|
        ensures ReadCells(ps, c).size == Some(BigEndian(ps[k].data[..4]))
      {
        LastIs(ps, SIZE_CELLS, k);
        if k == |ps| - 1 {
          FirstCell(last);
        } else {
          LastBefore(ps, SIZE_CELLS, k);
        }
      }
    }
  }

  // The properties of all nodes from n down to where the search ends.
  function PropertiesOnPath(n: Node, path: Path): seq<Property>
    decreases |path|
  {
    if path == [] then n.properties
    else
      match FirstChild(n.children, path[0])
      case None => n.properties
      case Some(child) => n.properties + PropertiesOnPath(child, path[1..])
  }

  lemma {:induction false} CellsOfBoth(x: seq<Property>, y: seq<Property>, c: Cells)
    ensures ReadCells(x + y, c) == ReadCells(y, ReadCells(x, c))
    decreases |y|
  {
    hide TakenCells;
    if y == [] {
      assert x + y == x;
    } else {
      CellsOfBoth(x, y[..|y| - 1], c);
      assert (x + y)[..|x + y| - 1] == x + y[..|y| - 1];
    }
  }

  /** What a search gathers is what one reading of all the properties on its way gives, so the two lemmas above tell it by name. */
  lemma {:induction false} CellsOnPath(n: Node, path: Path, c: Cells)
    ensures CellsThrough(n, path, c) == ReadCells(PropertiesOnPath(n, path), c)
    decreases |path|
  {
    hide ReadCells;
    if path != [] {
      match FirstChild(n.children, path[0])
      case None =>
      case Some(child) =>
        CellsOnPath(child, path[1..], ReadCells(n.properties, c));
        CellsOfBoth(n.properties, PropertiesOnPath(child, path[1..]), c);
    }
  }

  // ----- Phandles by name

  /** A phandle property is one called phandle or linux,phandle. */
  lemma PhandleNames(p: Property)
    ensures IsPhandle(p) <==> p.name == Ascii("phandle") || p.name == Ascii("linux,phandle")
    ensures 4 <= |p.data| ==> Cell(p) == BigEndian(p.data[..4])
  {
    assert Ascii("phandle") == PHANDLE && Ascii("linux,phandle") == LINUX_PHANDLE;
    if 4 <= |p.data| {
      FirstCell(p);
    }
  }
}
