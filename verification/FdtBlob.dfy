/**
 Whole devicetrees: dt_flatten and fdt_unflatten undo each other (src/commonlib/device_tree.c).
 */
module FdtBlob {
  import opened Buffers
  import opened FdtFormat
  import opened FdtLayout
  import opened FdtBytes
  import opened FdtReader
  import opened FdtWriter

  const U64_SIZE: nat := 0x1_0000_0000_0000_0000

  // Fields of the header (Devicetree Specification, section 5.2).
  const MAGIC: nat := 0
  const TOTAL_SIZE: nat := 4
  const STRUCTURE_OFFSET: nat := 8
  const RESERVE_MAP_OFFSET: nat := 16
  const LAST_COMP_VERSION: nat := 24
  const STRINGS_SIZE: nat := 32
  const STRUCTURE_SIZE: nat := 36
  const HEADER_FIELDS: nat := 40

  datatype Reserve = Reserve(start: nat, size: nat)

  // header is everything in front of the blocks, header_size its length.
  datatype Tree = Tree(header: seq<byte>, maxPhandle: nat, reserve: seq<Reserve>, root: Node)

  // ----- The reserve map

  function Be64(s: seq<byte>, o: nat): (n: nat)
    requires o + 8 <= |s|
    ensures n < U64_SIZE
  {
    Be32(s, o) * U32_SIZE + Be32(s, o + 4)
  }

  function Enc64(n: nat): (e: seq<byte>)
    requires n < U64_SIZE
    ensures |e| == 8
  {
    Enc32(n / U32_SIZE) + Enc32(n % U32_SIZE)
  }

  ghost predicate EntryAt(s: seq<byte>, o: nat, e: Reserve) {
    o + 16 <= |s| && Be64(s, o) == e.start && Be64(s, o + 8) == e.size
  }

  ghost predicate EntriesAt(s: seq<byte>, o: nat, rs: seq<Reserve>) {
    o + 16 * |rs| <= |s| && forall i :: 0 <= i < |rs| ==> EntryAt(s, o + 16 * i, rs[i])
  }

  // The map ends with an entry of no size.
  ghost predicate MapAt(s: seq<byte>, o: nat, rs: seq<Reserve>) {
    EntriesAt(s, o, rs) && o + 16 * |rs| + 16 <= |s| && Be64(s, o + 16 * |rs| + 8) == 0
  }

  ghost predicate Reservable(rs: seq<Reserve>) {
    forall i :: 0 <= i < |rs| ==> 0 < rs[i].size < U64_SIZE && rs[i].start < U64_SIZE
  }

  lemma Enc64Reads(n: nat, s: seq<byte>, o: nat)
    requires n < U64_SIZE && o + 8 <= |s| && s[o..o + 8] == Enc64(n)
    ensures Be64(s, o) == n
  {
    var hi, lo := Enc32(n / U32_SIZE), Enc32(n % U32_SIZE);
    assert s[o..o + 4] == s[o..o + 8][..4] == hi;
    assert s[o + 4..o + 8] == s[o..o + 8][4..] == lo;
    hide Enc32, Be32;
    EncWord(n / U32_SIZE, s, o);
    EncWord(n % U32_SIZE, s, o + 4);
  }

  /** An entry is a start and a size of eight bytes each, most significant byte first. */
  lemma EntryBytes(s: seq<byte>, o: nat, e: Reserve)
    requires EntryAt(s, o, e)
    ensures o + 16 <= |s| && BigEndian(s[o..o + 8]) == e.start && BigEndian(s[o + 8..o + 16]) == e.size
  {
    hide Be32, BigEndian;
    EightBytes(s, o);
    EightBytes(s, o + 8);
    WordIsBigEndian(s, o);
    WordIsBigEndian(s, o + 4);
    WordIsBigEndian(s, o + 8);
    WordIsBigEndian(s, o + 12);
  }

  method FdtUnflattenMapEntry(blob: seq<byte>, offset: nat) returns (size: nat, entry: Reserve)
    requires offset + 16 <= |blob|
    ensures size == if Be64(blob, offset + 8) == 0 then 0 else 16
    ensures size != 0 ==> EntryAt(blob, offset, entry)
  {
    hide Be64;
    var start := Be64(blob, offset);
    var length := Be64(blob, offset + 8);
    entry := Reserve(start, length);
    if length == 0 {
      return 0, entry;
    }
    return 16, entry;
  }

  method DtFlattenMapEntry(entry: Reserve, dest: array<byte>, mapStart: nat) returns (mapEnd: nat)
    requires mapStart + 16 <= dest.Length && entry.start < U64_SIZE && entry.size < U64_SIZE
    modifies dest
    ensures mapEnd == mapStart + 16
    ensures EntryAt(Bytes(dest), mapStart, entry)
    ensures Outside(old(Bytes(dest)), Bytes(dest), mapStart, mapEnd, mapEnd, mapEnd)
  {
    ghost var was := Bytes(dest);
    hide *;
    MemCpy(dest, mapStart, Enc64(entry.start));
    MemCpy(dest, mapStart + 8, Enc64(entry.size));
    EntryWritten(was, mapStart, entry);
    return mapStart + 16;
  }

  lemma EntryWritten(s: seq<byte>, o: nat, e: Reserve)
    requires o + 16 <= |s| && e.start < U64_SIZE && e.size < U64_SIZE
    ensures var now := Put(Put(s, o, Enc64(e.start)), o + 8, Enc64(e.size));
      EntryAt(now, o, e) && Outside(s, now, o, o + 16, o + 16, o + 16)
  {
    var s1 := Put(s, o, Enc64(e.start));
    var now := Put(s1, o + 8, Enc64(e.size));
    hide Put, Enc64, Be64, Outside;
    PutThere(s, o, Enc64(e.start));
    PutElsewhere(s1, o + 8, Enc64(e.size), o, o + 8);
    PutThere(s1, o + 8, Enc64(e.size));
    Enc64Reads(e.start, now, o);
    Enc64Reads(e.size, now, o + 8);
    PutInside(s, o, Enc64(e.start), o, o + 16, o + 16, o + 16);
    PutInside(s1, o + 8, Enc64(e.size), o, o + 16, o + 16, o + 16);
    OutsideTwice(s, s1, now, o, o + 16, o + 16, o + 16);
  }

  lemma EntryKept(s: seq<byte>, now: seq<byte>, k: nat, e: Reserve, a: nat, b: nat)
    requires EntryAt(s, k, e) && Outside(s, now, a, b, b, b) && k + 16 <= a
    ensures EntryAt(now, k, e)
  {
  }

  // One more entry behind the others.
  lemma EntryStep(was: seq<byte>, s: seq<byte>, now: seq<byte>, o: nat, rs: seq<Reserve>, i: nat)
    requires i < |rs| && EntriesAt(s, o, rs[..i])
    requires EntryAt(now, o + 16 * i, rs[i]) && Outside(s, now, o + 16 * i, o + 16 * (i + 1), o + 16 * (i + 1), o + 16 * (i + 1))
    ensures EntriesAt(now, o, rs[..i + 1])
  {
    hide EntryAt, Outside;
    EntryEnds(now, o + 16 * i, rs[i]);
    forall j | 0 <= j < i + 1
      ensures EntryAt(now, o + 16 * j, rs[..i + 1][j])
    {
      if j < i {
        assert EntryAt(s, o + 16 * j, rs[..i][j]);
        EntryKept(s, now, o + 16 * j, rs[j], o + 16 * i, o + 16 * (i + 1));
      }
    }
  }

  lemma EntryEnds(s: seq<byte>, o: nat, e: Reserve)
    requires EntryAt(s, o, e)
    ensures o + 16 <= |s|
  {
  }

  // ----- Unflattening

  predicate FdtIsValid(blob: seq<byte>)
    requires HEADER_FIELDS <= |blob|
  {
    Be32(blob, MAGIC) == HEADER_MAGIC && Be32(blob, LAST_COMP_VERSION) <= SUPPORTED_VERSION
  }

  /** A valid blob begins with the magic number and is compatible with version 17 or an earlier one. */
  lemma ValidBytes(blob: seq<byte>)
    requires HEADER_FIELDS <= |blob|
    ensures FdtIsValid(blob) <==>
            && blob[0] == 0xd0 && blob[1] == 0x0d && blob[2] == 0xfe && blob[3] == 0xed
            && blob[24] == blob[25] == blob[26] == 0 && blob[27] <= 17
  {
    hide BigEndian;
    WordIsBigEndian(blob, 0);
    WordIsBigEndian(blob, 24);
  }

  // Everything in front of the first block.
  function HeaderSize(blob: seq<byte>): (size: nat)
    requires HEADER_FIELDS <= |blob|
    ensures size <= Be32(blob, STRUCTURE_OFFSET) && size <= Be32(blob, STRINGS_OFFSET)
    ensures size <= Be32(blob, RESERVE_MAP_OFFSET)
    ensures size in {Be32(blob, STRUCTURE_OFFSET), Be32(blob, STRINGS_OFFSET), Be32(blob, RESERVE_MAP_OFFSET)}
  {
    var blocks := if Be32(blob, STRUCTURE_OFFSET) < Be32(blob, STRINGS_OFFSET) then Be32(blob, STRUCTURE_OFFSET)
                  else Be32(blob, STRINGS_OFFSET);
    if blocks < Be32(blob, RESERVE_MAP_OFFSET) then blocks else Be32(blob, RESERVE_MAP_OFFSET)
  }

  // A blob without NOPs that stands for a reserve map and a tree.
  ghost predicate BlobAt(s: seq<byte>, reserve: seq<Reserve>, root: Node) {
    && HEADER_FIELDS <= |s|
    && MapAt(s, Be32(s, RESERVE_MAP_OFFSET), reserve) && Reservable(reserve)
    && ListAt(s, Be32(s, STRUCTURE_OFFSET), [root], Be32(s, STRINGS_OFFSET)) && PhandlesPresent(root)
  }

  /** The structure block is where the number at 8 says, the strings block at 12, the reserve map at 16. */
  lemma BlobBytes(s: seq<byte>, reserve: seq<Reserve>, root: Node)
    requires BlobAt(s, reserve, root)
    ensures 40 <= |s| && MapAt(s, BigEndian(s[16..20]), reserve)
    ensures ListAt(s, BigEndian(s[8..12]), [root], BigEndian(s[12..16]))
    ensures HeaderSize(s) <= BigEndian(s[8..12]) && HeaderSize(s) <= BigEndian(s[12..16])
    ensures HeaderSize(s) <= BigEndian(s[16..20])
    ensures HeaderSize(s) in {BigEndian(s[8..12]), BigEndian(s[12..16]), BigEndian(s[16..20])}
  {
    hide Be32, BigEndian, MapAt, ListAt, Reservable, PhandlesPresent;
    WordIsBigEndian(s, 8);
    WordIsBigEndian(s, 12);
    WordIsBigEndian(s, 16);
  }

  lemma BlobParts(s: seq<byte>, reserve: seq<Reserve>, root: Node)
    requires BlobAt(s, reserve, root)
    ensures HEADER_FIELDS <= |s| && Strings(s, Be32(s, STRINGS_OFFSET)) && HeaderSize(s) <= |s|
    ensures MapAt(s, Be32(s, RESERVE_MAP_OFFSET), reserve) && Reservable(reserve)
    ensures ListAt(s, Be32(s, STRUCTURE_OFFSET), [root], Be32(s, STRINGS_OFFSET)) && PhandlesPresent(root)
  {
    hide Be32, Be64, EntriesAt, Reservable, ListAt, PhandlesPresent;
  }

  lemma MapEntry(s: seq<byte>, o: nat, rs: seq<Reserve>, i: nat)
    requires MapAt(s, o, rs) && Reservable(rs) && i <= |rs|
    ensures o + 16 * i + 16 <= |s|
    ensures i < |rs| ==> EntryAt(s, o + 16 * i, rs[i]) && Be64(s, o + 16 * i + 8) != 0
    ensures i == |rs| ==> Be64(s, o + 16 * i + 8) == 0
  {
    hide Be64;
  }

  lemma SameEntry(s: seq<byte>, o: nat, x: Reserve, y: Reserve)
    requires EntryAt(s, o, x) && EntryAt(s, o, y)
    ensures x == y
  {
  }

  method FdtUnflatten(blob: seq<byte>, ghost reserve: seq<Reserve>, ghost root: Node) returns (tree: Option<Tree>)
    requires HEADER_FIELDS <= |blob|
    requires FdtIsValid(blob) ==> BlobAt(blob, reserve, root)
    ensures tree.Some? <==> FdtIsValid(blob)
    ensures tree.Some? <==> && blob[0] == 0xd0 && blob[1] == 0x0d && blob[2] == 0xfe && blob[3] == 0xed
                            && blob[24] == blob[25] == blob[26] == 0 && blob[27] <= 17
    ensures tree.Some? ==> tree.value.root == root && tree.value.reserve == reserve
    ensures tree.Some? ==> tree.value.header == blob[..HeaderSize(blob)]
    ensures tree.Some? ==> IsHighest(tree.value.maxPhandle, 0, Phandles(root))
  {
    ValidBytes(blob);
    if !FdtIsValid(blob) {
      return None;
    }
    hide *;
    BlobParts(blob, reserve, root);
    var structOffset := Be32(blob, STRUCTURE_OFFSET);
    ghost var stringsOffset := Be32(blob, STRINGS_OFFSET);
    var reserveOffset := Be32(blob, RESERVE_MAP_OFFSET);
    var headerSize := HeaderSize(blob);

    var offset: nat := reserveOffset;
    var entries := [];
    MapEntry(blob, reserveOffset, reserve, 0);
    var size, entry := FdtUnflattenMapEntry(blob, offset);
    while size != 0
      invariant |entries| <= |reserve| && entries == reserve[..|entries|]
      invariant offset == reserveOffset + 16 * |entries|
      invariant size == if |entries| < |reserve| then 16 else 0
      invariant size != 0 ==> EntryAt(blob, offset, entry)
      decreases |reserve| - |entries|
    {
      MapEntry(blob, reserveOffset, reserve, |entries|);
      SameEntry(blob, offset, entry, reserve[|entries|]);
      entries := entries + [entry];
      offset := offset + size;
      MapEntry(blob, reserveOffset, reserve, |entries|);
      size, entry := FdtUnflattenMapEntry(blob, offset);
    }

    var _, node, maxPhandle := FdtUnflattenNode(blob, structOffset, 0, [root], stringsOffset);
    return Some(Tree(blob[..headerSize], maxPhandle, entries, node.value));
  }
}
