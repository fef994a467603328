/**
 dt_flatten, dt_flat_size and the round trip (src/commonlib/device_tree.c).
 */
module FdtFlatten {
  import opened Buffers
  import opened FdtFormat
  import opened FdtLayout
  import opened FdtBytes
  import opened FdtReader
  import opened FdtWriter
  import opened FdtBlob

  // ----- Where the blocks are: header, reserve map, structure, END, strings

  function StructStart(t: Tree): nat {
    |t.header| + 16 * |t.reserve| + 16
  }

  function StructEnd(t: Tree): (e: nat)
    ensures StructStart(t) <= e
  {
    StructStart(t) + NodeSize(t.root)
  }

  function StringsStart(t: Tree): nat {
    StructEnd(t) + 4
  }

  function FlatSize(t: Tree): (size: nat)
    ensures StringsStart(t) <= size
  {
    StringsStart(t) + |Names(t.root)|
  }

  ghost predicate CanFlatten(t: Tree) {
    HEADER_FIELDS <= |t.header| && Reservable(t.reserve) && FlatSize(t) < U32_SIZE
  }

  // The header with the five fields that describe the layout; reserve_map_offset stays as it was.
  ghost function NewHeader(t: Tree): (h: seq<byte>)
    requires CanFlatten(t)
    ensures |h| == |t.header|
  {
    LastField(t, FirstFields(t))
  }

  ghost function FirstFields(t: Tree): (h: seq<byte>)
    requires CanFlatten(t)
    ensures |h| == |t.header|
  {
    var h1 := Put(t.header, STRUCTURE_OFFSET, Enc32(StructStart(t)));
    var h2 := Put(h1, STRUCTURE_SIZE, Enc32(StringsStart(t) - StructStart(t)));
    var h3 := Put(h2, STRINGS_OFFSET, Enc32(StringsStart(t)));
    Put(h3, STRINGS_SIZE, Enc32(|Names(t.root)|))
  }

  ghost function LastField(t: Tree, h: seq<byte>): (r: seq<byte>)
    requires CanFlatten(t) && |h| == |t.header|
    ensures |r| == |t.header|
  {
    Put(h, TOTAL_SIZE, Enc32(FlatSize(t)))
  }

  // What a tree looks like when flattened: the blocks abut, and each holds its part.
  ghost predicate FlattenedAs(s: seq<byte>, t: Tree)
    requires CanFlatten(t)
  {
    && FlatSize(t) <= |s|
    && Part(s, 0, NewHeader(t))
    && MapAt(s, |t.header|, t.reserve)
    && NodeLaid(s[StructStart(t)..StructEnd(t)], t.root, 0)
    && WordAt(s, StructEnd(t), TOKEN_END)
    && s[StringsStart(t)..FlatSize(t)] == Names(t.root)
  }

  // ----- While writing

  ghost predicate Blocks(was: seq<byte>, s: seq<byte>, t: Tree, h: seq<byte>, ended: bool) {
    && |h| == |t.header| && FlatSize(t) <= |s|
    && Part(s, 0, h) && MapAt(s, |h|, t.reserve)
    && (ended ==> WordAt(s, StructEnd(t), TOKEN_END))
    && Outside(was, s, 0, FlatSize(t), FlatSize(t), FlatSize(t))
  }

  lemma SameBe64(s: seq<byte>, now: seq<byte>, o: nat, size: nat, k: nat)
    requires |now| == |s| && o + size <= |s| && now[o..o + size] == s[o..o + size] && k + 8 <= size
    ensures Be64(now, o + k) == Be64(s, o + k)
  {
    hide Be32;
    Be32Slice(s, s[o..o + size], k, o, o + size);
    Be32Slice(now, now[o..o + size], k, o, o + size);
    Be32Slice(s, s[o..o + size], k + 4, o, o + size);
    Be32Slice(now, now[o..o + size], k + 4, o, o + size);
  }

  lemma MapSlice(s: seq<byte>, now: seq<byte>, o: nat, rs: seq<Reserve>)
    requires MapAt(s, o, rs) && |now| == |s| && now[o..o + 16 * |rs| + 16] == s[o..o + 16 * |rs| + 16]
    ensures MapAt(now, o, rs)
  {
    var size := 16 * |rs| + 16;
    hide Be64;
    forall i | 0 <= i < |rs|
      ensures EntryAt(now, o + 16 * i, rs[i])
    {
      assert EntryAt(s, o + 16 * i, rs[i]);
      SameBe64(s, now, o, size, 16 * i);
      SameBe64(s, now, o, size, 16 * i + 8);
    }
    SameBe64(s, now, o, size, 16 * |rs| + 8);
  }

  lemma PartPut(s: seq<byte>, o: nat, t: seq<byte>, k: nat, bytes: seq<byte>)
    requires Part(s, o, t) && k + |bytes| <= |t|
    ensures Part(Put(s, o + k, bytes), o, Put(t, k, bytes))
  {
    var now := Put(s, o + k, bytes);
    forall i | 0 <= i < |t|
      ensures now[o..o + |t|][i] == Put(t, k, bytes)[i]
    {
      assert s[o + i] == s[o..o + |t|][i];
    }
  }

  lemma FieldPut(was: seq<byte>, s: seq<byte>, t: Tree, h: seq<byte>, ended: bool, o: nat, v: nat)
    requires Blocks(was, s, t, h, ended) && o + 4 <= |h| && v < U32_SIZE
    ensures Blocks(was, Put(s, o, Enc32(v)), t, Put(h, o, Enc32(v)), ended)
  {
    var now := Put(s, o, Enc32(v));
    var z := FlatSize(t);
    hide Enc32, Part, MapAt, Outside, Names, NodeSize;
    BlocksInside(was, s, t, h, ended);
    PartPut(s, 0, h, o, Enc32(v));
    PutElsewhere(s, o, Enc32(v), |h|, |h| + 16 * |t.reserve| + 16);
    hide Put;
    MapSlice(s, now, |h|, t.reserve);
    if ended {
      PutOtherWord(s, o, Enc32(v), StructEnd(t), TOKEN_END);
    }
    PutInside(s, o, Enc32(v), 0, z, z, z);
    OutsideTwice(was, s, now, 0, z, z, z);
  }

  lemma BlocksInside(was: seq<byte>, s: seq<byte>, t: Tree, h: seq<byte>, ended: bool)
    requires Blocks(was, s, t, h, ended)
    ensures |h| + 16 * |t.reserve| + 16 == StructStart(t) <= StructEnd(t) && StructEnd(t) + 4 <= FlatSize(t) <= |s|
  {
  }

  lemma EndPut(was: seq<byte>, s: seq<byte>, t: Tree, h: seq<byte>)
    requires Blocks(was, s, t, h, false)
    ensures Blocks(was, Put(s, StructEnd(t), Enc32(TOKEN_END)), t, h, true)
  {
    var o, z := StructEnd(t), FlatSize(t);
    var now := Put(s, o, Enc32(TOKEN_END));
    hide Enc32, MapAt, Outside, Names, NodeSize;
    BlocksInside(was, s, t, h, false);
    PutElsewhere(s, o, Enc32(TOKEN_END), 0, |h|);
    PutElsewhere(s, o, Enc32(TOKEN_END), |h|, |h| + 16 * |t.reserve| + 16);
    hide Put;
    MapSlice(s, now, |h|, t.reserve);
    PutWord(s, o, TOKEN_END);
    PutInside(s, o, Enc32(TOKEN_END), 0, z, z, z);
    OutsideTwice(was, s, now, 0, z, z, z);
  }

  lemma NodeKeeps(was: seq<byte>, s: seq<byte>, now: seq<byte>, t: Tree, h: seq<byte>)
    requires Blocks(was, s, t, h, true)
    requires Outside(s, now, StructStart(t), StructEnd(t), StringsStart(t), FlatSize(t))
    ensures Blocks(was, now, t, h, true)
  {
    var o, e, z := StructStart(t), StructEnd(t), FlatSize(t);
    hide MapAt, Names, NodeSize;
    BlocksInside(was, s, t, h, true);
    OutsideKeeps(s, now, o, e, e + 4, z, 0, |h|);
    OutsideKeeps(s, now, o, e, e + 4, z, |h|, o);
    OutsideKeeps(s, now, o, e, e + 4, z, e, e + 4);
    assert Outside(was, now, 0, z, z, z);
    hide Outside;
    MapSlice(s, now, |h|, t.reserve);
    Be32Slice(s, s[e..e + 4], 0, e, e + 4);
    Be32Slice(now, now[e..e + 4], 0, e, e + 4);
  }

  lemma MapDone(was: seq<byte>, s: seq<byte>, now: seq<byte>, t: Tree)
    requires CanFlatten(t) && FlatSize(t) <= |s|
    requires Part(s, 0, t.header) && EntriesAt(s, |t.header|, t.reserve)
    requires Outside(was, s, 0, FlatSize(t), FlatSize(t), FlatSize(t))
    requires EntryAt(now, StructStart(t) - 16, Reserve(0, 0))
    requires Outside(s, now, StructStart(t) - 16, StructStart(t), StructStart(t), StructStart(t))
    ensures Blocks(was, now, t, t.header, false)
  {
    var h, z := |t.header|, FlatSize(t);
    TreeSizes(t);
    hide Be64, Names, NodeSize, FlatSize, StringsStart, StructEnd, StructStart, CanFlatten, Reservable;
    CanFlattenParts(t);
    forall i | 0 <= i < |t.reserve|
      ensures EntryAt(now, h + 16 * i, t.reserve[i])
    {
      assert EntryAt(s, h + 16 * i, t.reserve[i]);
      EntryKept(s, now, h + 16 * i, t.reserve[i], StructStart(t) - 16, StructStart(t));
    }
    OutsideKeeps(s, now, StructStart(t) - 16, StructStart(t), StructStart(t), StructStart(t), 0, h);
  }

  // The reserve map so far.
  ghost predicate Entries(was: seq<byte>, s: seq<byte>, t: Tree, i: nat) {
    && i <= |t.reserve| && FlatSize(t) <= |s|
    && Part(s, 0, t.header) && EntriesAt(s, |t.header|, t.reserve[..i])
    && Outside(was, s, 0, FlatSize(t), FlatSize(t), FlatSize(t))
  }

  lemma NoEntries(was: seq<byte>, t: Tree)
    requires FlatSize(t) <= |was|
    ensures Entries(was, Put(was, 0, t.header), t, 0)
  {
    hide Names, NodeSize;
    PutThere(was, 0, t.header);
    PutInside(was, 0, t.header, 0, FlatSize(t), FlatSize(t), FlatSize(t));
    hide Put, Outside;
  }

  lemma EntriesStep(was: seq<byte>, s: seq<byte>, now: seq<byte>, t: Tree, i: nat)
    requires Entries(was, s, t, i) && i < |t.reserve|
    requires EntryAt(now, |t.header| + 16 * i, t.reserve[i])
    requires var end := |t.header| + 16 * (i + 1); Outside(s, now, end - 16, end, end, end)
    ensures Entries(was, now, t, i + 1)
  {
    var end, z := |t.header| + 16 * (i + 1), FlatSize(t);
    hide Names, NodeSize, EntriesAt, EntryAt;
    EntryStep(was, s, now, |t.header|, t.reserve, i);
    OutsideKeeps(s, now, end - 16, end, end, end, 0, |t.header|);
    assert end <= z;
  }

  lemma EntriesDone(was: seq<byte>, s: seq<byte>, now: seq<byte>, t: Tree)
    requires CanFlatten(t) && Entries(was, s, t, |t.reserve|)
    requires EntryAt(now, StructStart(t) - 16, Reserve(0, 0))
    requires Outside(s, now, StructStart(t) - 16, StructStart(t), StructStart(t), StructStart(t))
    ensures Blocks(was, now, t, t.header, false)
  {
    hide Part, EntriesAt, EntryAt, Outside, NodeSize, Names, Reservable;
    assert t.reserve[..|t.reserve|] == t.reserve;
    MapDone(was, s, now, t);
  }

  lemma AllWritten(was: seq<byte>, s: seq<byte>, now: seq<byte>, t: Tree, h: seq<byte>)
    requires CanFlatten(t) && Blocks(was, now, t, NewHeader(t), true) && |s| == |now|
    requires NodeLaid(s[StructStart(t)..StructEnd(t)], t.root, 0)
    requires s[StringsStart(t)..FlatSize(t)] == Names(t.root)
    requires now == Put(s, TOTAL_SIZE, Enc32(FlatSize(t)))
    ensures FlattenedAs(now, t)
    ensures now[FlatSize(t)..] == was[FlatSize(t)..]
  {
    var o, e, z := StructStart(t), StructEnd(t), FlatSize(t);
    hide Part, MapAt, Outside, NodeSize, Names, NodeLaid, Enc32, NewHeader;
    PutElsewhere(s, TOTAL_SIZE, Enc32(z), o, e);
    PutElsewhere(s, TOTAL_SIZE, Enc32(z), e + 4, z);
    hide Put;
    OutsideKeepsTail(was, now, z);
  }

  lemma OutsideKeepsTail(was: seq<byte>, now: seq<byte>, z: nat)
    requires Outside(was, now, 0, z, z, z) && z <= |now|
    ensures |now| == |was| && now[z..] == was[z..]
  {
  }

  // ----- The source's operations

  lemma TreeSizes(t: Tree)
    ensures StructStart(t) == |t.header| + 16 * |t.reserve| + 16
    ensures StructEnd(t) == StructStart(t) + NodeSize(t.root) && StringsStart(t) == StructEnd(t) + 4
    ensures FlatSize(t) == StringsStart(t) + |Names(t.root)|
    ensures STRUCTURE_OFFSET == 8 && STRUCTURE_SIZE == 36 && STRINGS_OFFSET == 12 && STRINGS_SIZE == 32 && TOTAL_SIZE == 4
    ensures TOKEN_END < U32_SIZE && HEADER_FIELDS == 40 && 0 < U64_SIZE
  {
  }

  lemma NewHeaderIs(t: Tree)
    requires CanFlatten(t)
    ensures FirstFields(t) ==
            Put(Put(Put(Put(t.header, STRUCTURE_OFFSET, Enc32(StructStart(t))),
                        STRUCTURE_SIZE, Enc32(StringsStart(t) - StructStart(t))),
                    STRINGS_OFFSET, Enc32(StringsStart(t))),
                STRINGS_SIZE, Enc32(|Names(t.root)|))
    ensures NewHeader(t) == Put(FirstFields(t), TOTAL_SIZE, Enc32(FlatSize(t)))
  {
    hide Put, Enc32, Names, NodeSize;
  }

  lemma CanFlattenParts(t: Tree)
    requires CanFlatten(t)
    ensures HEADER_FIELDS <= |t.header| && FlatSize(t) < U32_SIZE
    ensures forall e :: e in t.reserve ==> e.start < U64_SIZE && e.size < U64_SIZE
  {
  }

  /** dt_flat_size. */
  method DtFlatSize(tree: Tree) returns (size: nat)
    ensures size == FlatSize(tree)
  {
    hide Names, NodeSize;
    size := |tree.header|;
    for i := 0 to |tree.reserve|
      invariant size == |tree.header| + 16 * i
    {
      size := size + 16;
    }
    size := size + 16;

    var structSize, stringsSize := DtFlatNodeSize(tree.root, 0, 0);
    size := size + structSize;
    size := size + 4;
    size := size + stringsSize;
  }

  /** dt_flatten fills exactly FlatSize(tree) bytes. */
  method DtFlatten(tree: Tree, dest: array<byte>)
    requires CanFlatten(tree) && FlatSize(tree) <= dest.Length < U32_SIZE
    modifies dest
    ensures FlattenedAs(Bytes(dest), tree)
    ensures Bytes(dest)[StructStart(tree)..StructStart(tree) + 4] == [0, 0, 0, 1]
    ensures Bytes(dest)[StringsStart(tree) - 8..StringsStart(tree)] == [0, 0, 0, 2, 0, 0, 0, 9]
    ensures Bytes(dest)[FlatSize(tree)..] == old(Bytes(dest))[FlatSize(tree)..]
  {
    hide *;
    TreeSizes(tree);
    CanFlattenParts(tree);
    ghost var was := Bytes(dest);
    MemCpy(dest, 0, tree.header);
    var offset: nat := |tree.header|;
    NoEntries(was, tree);

    for i := 0 to |tree.reserve|
      invariant offset == |tree.header| + 16 * i
      invariant Entries(was, Bytes(dest), tree, i)
    {
      ghost var before := Bytes(dest);
      offset := DtFlattenMapEntry(tree.reserve[i], dest, offset);
      EntriesStep(was, before, Bytes(dest), tree, i);
    }
    ghost var mapped := Bytes(dest);
    offset := DtFlattenMapEntry(Reserve(0, 0), dest, offset);
    EntriesDone(was, mapped, Bytes(dest), tree);

    var structSize, stringsSize := DtFlatNodeSize(tree.root, 0, 0);
    ghost var s0, h0 := Bytes(dest), tree.header;
    var structStart := offset;
    Be32Enc(dest, STRUCTURE_OFFSET, structStart);
    FieldPut(was, s0, tree, h0, false, STRUCTURE_OFFSET, structStart);
    ghost var s1, h1 := Bytes(dest), Put(h0, STRUCTURE_OFFSET, Enc32(structStart));
    Be32Enc(dest, offset + structSize, TOKEN_END);
    EndPut(was, s1, tree, h1);
    ghost var s2 := Bytes(dest);
    structSize := structSize + 4;
    Be32Enc(dest, STRUCTURE_SIZE, structSize);
    FieldPut(was, s2, tree, h1, true, STRUCTURE_SIZE, structSize);
    ghost var s3, h3 := Bytes(dest), Put(h1, STRUCTURE_SIZE, Enc32(structSize));
    offset := offset + structSize;

    var stringsStart := offset;
    Be32Enc(dest, STRINGS_OFFSET, stringsStart);
    FieldPut(was, s3, tree, h3, true, STRINGS_OFFSET, stringsStart);
    ghost var s4, h4 := Bytes(dest), Put(h3, STRINGS_OFFSET, Enc32(stringsStart));
    Be32Enc(dest, STRINGS_SIZE, stringsSize);
    FieldPut(was, s4, tree, h4, true, STRINGS_SIZE, stringsSize);
    offset := offset + stringsSize;
    NewHeaderIs(tree);

    ghost var laid := Bytes(dest);
    var _, _ := DtFlattenNode(tree.root, dest, structStart, stringsStart, stringsStart);
    NodeKeeps(was, laid, Bytes(dest), tree, FirstFields(tree));

    ghost var written := Bytes(dest);
    Be32Enc(dest, TOTAL_SIZE, offset);
    FieldPut(was, written, tree, FirstFields(tree), true, TOTAL_SIZE, offset);
    AllWritten(was, written, Bytes(dest), tree, FirstFields(tree));
    FlattenedBytes(Bytes(dest), tree);
  }

  /**
   A flattened tree byte by byte: the structure block begins with the token 1 and ends with the tokens 2 and 9, and the
   header has the numbers of the layout at 4, 8, 12, 32 and 36, most significant byte first.
   */
  lemma FlattenedBytes(s: seq<byte>, t: Tree)
    requires CanFlatten(t) && FlattenedAs(s, t)
    ensures HEADER_FIELDS <= |t.header| <= StructStart(t) <= StringsStart(t) - 8 <= |s|
    ensures s[StructStart(t)..StructStart(t) + 4] == [0, 0, 0, 1]
    ensures s[StringsStart(t) - 8..StringsStart(t)] == [0, 0, 0, 2, 0, 0, 0, 9]
    ensures BigEndian(s[4..8]) == FlatSize(t) && BigEndian(s[8..12]) == StructStart(t)
    ensures BigEndian(s[12..16]) == StringsStart(t) && BigEndian(s[32..36]) == |Names(t.root)|
    ensures BigEndian(s[36..40]) == StringsStart(t) - StructStart(t)
  {
    hide *;
    Offsets();
    CanFlattenParts(t);
    TreeSizes(t);
    FlattenedParts(s, t);
    LayoutFields(t);
    FieldBytes(s, NewHeader(t), 4, FlatSize(t));
    FieldBytes(s, NewHeader(t), 8, StructStart(t));
    FieldBytes(s, NewHeader(t), 12, StringsStart(t));
    FieldBytes(s, NewHeader(t), 32, |Names(t.root)|);
    FieldBytes(s, NewHeader(t), 36, StringsStart(t) - StructStart(t));
    BlockEnds(s, StructStart(t), StructEnd(t), t.root);
  }

  lemma FieldBytes(s: seq<byte>, h: seq<byte>, k: nat, v: nat)
    requires Part(s, 0, h) && WordAt(h, k, v)
    ensures k + 4 <= |s| && BigEndian(s[k..k + 4]) == v
  {
    hide *;
    FieldInBlob(s, h, k, v);
    WordIsBigEndian(s, k);
  }

  lemma BlockEnds(s: seq<byte>, start: nat, end: nat, root: Node)
    requires start <= end <= |s| && NodeLaid(s[start..end], root, 0) && WordAt(s, end, TOKEN_END)
    ensures start + 9 <= end && end + 4 <= |s|
    ensures s[start..start + 4] == [0, 0, 0, 1] && s[end - 4..end + 4] == [0, 0, 0, 2, 0, 0, 0, 9]
  {
    SmallWord(s, end, TOKEN_END);
    hide *;
    var b := s[start..end];
    NodeBytes(b, root, 0);
    assert b[..4] == s[start..start + 4] && b[|b| - 4..] == s[end - 4..end];
    assert s[end - 4..end + 4] == s[end - 4..end] + s[end..end + 4];
  }

  // ----- Round trip

  // The source writes the reserve map right behind the header, wherever the header says it is.
  ghost predicate MapBehindHeader(t: Tree) {
    WordAt(t.header, RESERVE_MAP_OFFSET, |t.header|)
  }

  lemma Offsets()
    ensures STRUCTURE_OFFSET == 8 && STRUCTURE_SIZE == 36 && STRINGS_OFFSET == 12 && STRINGS_SIZE == 32
    ensures TOTAL_SIZE == 4 && MAGIC == 0 && RESERVE_MAP_OFFSET == 16 && LAST_COMP_VERSION == 24 && HEADER_FIELDS == 40
  {
  }

  // A word that none of the five fields overlaps.
  lemma OtherField(t: Tree, k: nat, v: nat)
    requires CanFlatten(t) && k in {0, 16, 20, 24, 28} && WordAt(t.header, k, v)
    ensures WordAt(NewHeader(t), k, v)
  {
    var h0 := t.header;
    NewHeaderIs(t);
    TreeSizes(t);
    CanFlattenParts(t);
    hide *;
    var h1 := Put(h0, STRUCTURE_OFFSET, Enc32(StructStart(t)));
    var h2 := Put(h1, STRUCTURE_SIZE, Enc32(StringsStart(t) - StructStart(t)));
    var h3 := Put(h2, STRINGS_OFFSET, Enc32(StringsStart(t)));
    var h4 := Put(h3, STRINGS_SIZE, Enc32(|Names(t.root)|));
    PutOtherWord(h0, STRUCTURE_OFFSET, Enc32(StructStart(t)), k, v);
    PutOtherWord(h1, STRUCTURE_SIZE, Enc32(StringsStart(t) - StructStart(t)), k, v);
    PutOtherWord(h2, STRINGS_OFFSET, Enc32(StringsStart(t)), k, v);
    PutOtherWord(h3, STRINGS_SIZE, Enc32(|Names(t.root)|), k, v);
    PutOtherWord(h4, TOTAL_SIZE, Enc32(FlatSize(t)), k, v);
  }

  lemma PutOtherField(h: seq<byte>, o: nat, v: nat, k: nat, w: nat)
    requires o + 4 <= |h| && v < U32_SIZE && WordAt(h, k, w) && (k + 4 <= o || o + 4 <= k)
    ensures WordAt(Put(h, o, Enc32(v)), k, w)
  {
    hide *;
    PutOtherWord(h, o, Enc32(v), k, w);
  }

  lemma LayoutFields(t: Tree)
    requires CanFlatten(t)
    ensures WordAt(NewHeader(t), STRUCTURE_OFFSET, StructStart(t)) && WordAt(NewHeader(t), STRINGS_OFFSET, StringsStart(t))
    ensures WordAt(NewHeader(t), STRUCTURE_SIZE, StringsStart(t) - StructStart(t))
    ensures WordAt(NewHeader(t), STRINGS_SIZE, |Names(t.root)|) && WordAt(NewHeader(t), TOTAL_SIZE, FlatSize(t))
  {
    var h0 := t.header;
    NewHeaderIs(t);
    TreeSizes(t);
    CanFlattenParts(t);
    hide *;
    var s, e, n, z := StructStart(t), StringsStart(t), |Names(t.root)|, FlatSize(t);
    var h1 := Put(h0, STRUCTURE_OFFSET, Enc32(s));
    var h2 := Put(h1, STRUCTURE_SIZE, Enc32(e - s));
    var h3 := Put(h2, STRINGS_OFFSET, Enc32(e));
    var h4 := Put(h3, STRINGS_SIZE, Enc32(n));
    PutWord(h0, STRUCTURE_OFFSET, s);
    PutOtherField(h1, STRUCTURE_SIZE, e - s, STRUCTURE_OFFSET, s);
    PutOtherField(h2, STRINGS_OFFSET, e, STRUCTURE_OFFSET, s);
    PutOtherField(h3, STRINGS_SIZE, n, STRUCTURE_OFFSET, s);
    PutOtherField(h4, TOTAL_SIZE, z, STRUCTURE_OFFSET, s);
    PutWord(h1, STRUCTURE_SIZE, e - s);
    PutOtherField(h2, STRINGS_OFFSET, e, STRUCTURE_SIZE, e - s);
    PutOtherField(h3, STRINGS_SIZE, n, STRUCTURE_SIZE, e - s);
    PutOtherField(h4, TOTAL_SIZE, z, STRUCTURE_SIZE, e - s);
    PutWord(h2, STRINGS_OFFSET, e);
    PutOtherField(h3, STRINGS_SIZE, n, STRINGS_OFFSET, e);
    PutOtherField(h4, TOTAL_SIZE, z, STRINGS_OFFSET, e);
    PutWord(h3, STRINGS_SIZE, n);
    PutOtherField(h4, TOTAL_SIZE, z, STRINGS_SIZE, n);
    PutWord(h4, TOTAL_SIZE, z);
  }

  lemma ListOfRoot(s: seq<byte>, o: nat, n: Node, strings: nat)
    requires NodeAt(s, o, n, strings) && WordAt(s, o + NodeSize(n), TOKEN_END)
    ensures ListAt(s, o, [n], strings)
  {
    hide NodeAt, NodeSize;
    assert [n][1..] == [] && [n][0] == n;
    assert NodesSize([n]) == NodeSize(n) + NodesSize([]);
    assert NodesAt(s, o + NodeSize(n), [], strings);
    assert NodesAt(s, o, [n], strings);
  }

  lemma FlattenedParts(s: seq<byte>, t: Tree)
    requires CanFlatten(t) && FlattenedAs(s, t)
    ensures FlatSize(t) <= |s| && Part(s, 0, NewHeader(t)) && MapAt(s, |t.header|, t.reserve)
    ensures NodeLaid(s[StructStart(t)..StructEnd(t)], t.root, 0) && WordAt(s, StructEnd(t), TOKEN_END)
    ensures Part(s, StructStart(t), s[StructStart(t)..StructEnd(t)])
    ensures Part(s, StringsStart(t) + 0, Names(t.root))
    ensures |s| >= |t.header| && s[..|t.header|] == NewHeader(t)
    ensures Reservable(t.reserve)
  {
    hide MapAt, NodeLaid, NodeSize, Names, WordAt;
    assert s[0..|t.header|] == s[..|t.header|];
  }

  lemma FlattenedHeader(s: seq<byte>, t: Tree)
    requires CanFlatten(t) && FlattenedAs(s, t) && MapBehindHeader(t)
    ensures HEADER_FIELDS <= |s| && Be32(s, STRUCTURE_OFFSET) == StructStart(t)
    ensures Be32(s, STRINGS_OFFSET) == StringsStart(t) && Be32(s, RESERVE_MAP_OFFSET) == |t.header|
    ensures HeaderSize(s) == |t.header| && s[..HeaderSize(s)] == NewHeader(t)
  {
    assert WordAt(t.header, RESERVE_MAP_OFFSET, |t.header|);
    hide *;
    var h := NewHeader(t);
    Offsets();
    CanFlattenParts(t);
    TreeSizes(t);
    FlattenedParts(s, t);
    LayoutFields(t);
    OtherField(t, RESERVE_MAP_OFFSET, |t.header|);
    FieldInBlob(s, h, STRUCTURE_OFFSET, StructStart(t));
    FieldInBlob(s, h, STRINGS_OFFSET, StringsStart(t));
    FieldInBlob(s, h, RESERVE_MAP_OFFSET, |t.header|);
  }

  lemma FieldInBlob(s: seq<byte>, h: seq<byte>, k: nat, v: nat)
    requires Part(s, 0, h) && WordAt(h, k, v)
    ensures k + 4 <= |s| && Be32(s, k) == v
  {
    hide Be32, Part;
    PartWord(s, 0, h, k, v);
  }

  // A flattened tree is a blob that stands for it, if its header says where the map is.
  lemma FlattenedIsBlob(s: seq<byte>, t: Tree)
    requires CanFlatten(t) && FlattenedAs(s, t)
    requires Flattenable(t.root) && PhandlesPresent(t.root) && MapBehindHeader(t)
    ensures BlobAt(s, t.reserve, t.root)
    ensures FdtIsValid(s) <==> FdtIsValid(t.header)
    ensures HeaderSize(s) == |t.header| && s[..HeaderSize(s)] == NewHeader(t)
  {
    hide *;
    CanFlattenParts(t);
    TreeSizes(t);
    FlattenedParts(s, t);
    FlattenedHeader(s, t);
    NodeLaidIsAt(s, StructStart(t), s[StructStart(t)..StructEnd(t)], t.root, StringsStart(t), 0);
    ListOfRoot(s, StructStart(t), t.root, StringsStart(t));
    MakeBlob(s, t.reserve, t.root);
    SameValidity(s, t);
  }

  lemma MakeBlob(s: seq<byte>, reserve: seq<Reserve>, root: Node)
    requires HEADER_FIELDS <= |s| && MapAt(s, Be32(s, RESERVE_MAP_OFFSET), reserve) && Reservable(reserve)
    requires ListAt(s, Be32(s, STRUCTURE_OFFSET), [root], Be32(s, STRINGS_OFFSET)) && PhandlesPresent(root)
    ensures BlobAt(s, reserve, root)
  {
    hide Be32, MapAt, Reservable, ListAt, PhandlesPresent;
  }

  lemma SameValidity(s: seq<byte>, t: Tree)
    requires CanFlatten(t) && HEADER_FIELDS <= |s| && Part(s, 0, NewHeader(t))
    ensures FdtIsValid(s) <==> FdtIsValid(t.header)
  {
    hide Be32, NewHeader;
    var m, v := Be32(t.header, MAGIC), Be32(t.header, LAST_COMP_VERSION);
    OtherField(t, MAGIC, m);
    OtherField(t, LAST_COMP_VERSION, v);
    PartWord(s, 0, NewHeader(t), MAGIC, m);
    PartWord(s, 0, NewHeader(t), LAST_COMP_VERSION, v);
  }

  // Trees that flatten to the same bytes are the same but for the header fields that flattening rewrites.
  lemma FlattenIsInjective(s: seq<byte>, t: Tree, u: Tree)
    requires CanFlatten(t) && FlattenedAs(s, t) && Flattenable(t.root) && PhandlesPresent(t.root) && MapBehindHeader(t)
    requires CanFlatten(u) && FlattenedAs(s, u) && Flattenable(u.root) && PhandlesPresent(u.root) && MapBehindHeader(u)
    ensures t.root == u.root && t.reserve == u.reserve && NewHeader(t) == NewHeader(u)
  {
    hide *;
    Offsets();
    FlattenedIsBlob(s, t);
    FlattenedIsBlob(s, u);
    BlobParts(s, t.reserve, t.root);
    BlobParts(s, u.reserve, u.root);
    var st, strings, entries := Be32(s, STRUCTURE_OFFSET), Be32(s, STRINGS_OFFSET), Be32(s, RESERVE_MAP_OFFSET);
    ListUnique(s, st, [t.root], [u.root], strings);
    assert [t.root][0] == [u.root][0];
    MapUnique(s, entries, t.reserve, u.reserve);
  }

  lemma MapNoLonger(s: seq<byte>, o: nat, rs: seq<Reserve>, qs: seq<Reserve>)
    requires MapAt(s, o, rs) && MapAt(s, o, qs) && Reservable(rs)
    ensures |rs| <= |qs|
  {
    hide Be64, EntriesAt;
    if |qs| < |rs| {
      MapEntry(s, o, rs, |qs|);
    }
  }

  lemma MapUnique(s: seq<byte>, o: nat, rs: seq<Reserve>, qs: seq<Reserve>)
    requires MapAt(s, o, rs) && MapAt(s, o, qs) && Reservable(rs) && Reservable(qs)
    ensures rs == qs
  {
    hide *;
    MapNoLonger(s, o, rs, qs);
    MapNoLonger(s, o, qs, rs);
    forall i | 0 <= i < |rs|
      ensures rs[i] == qs[i]
    {
      MapEntry(s, o, rs, i);
      MapEntry(s, o, qs, i);
      SameEntry(s, o + 16 * i, rs[i], qs[i]);
    }
  }

  // A tree whose header already describes its own layout flattens that header as it is.
  ghost predicate Settled(t: Tree)
    requires CanFlatten(t)
  {
    NewHeader(t) == t.header
  }

  /**
   Flattening into any buffer and unflattening gives the tree back: names, properties in order, children in
   order, phandles and the reserve map; the header too when it described this layout already.
   */
  method RoundTrip(tree: Tree, dest: array<byte>) returns (again: Option<Tree>)
    requires CanFlatten(tree) && FlatSize(tree) <= dest.Length < U32_SIZE
    requires Flattenable(tree.root) && PhandlesPresent(tree.root) && MapBehindHeader(tree)
    requires FdtIsValid(tree.header) && IsHighest(tree.maxPhandle, 0, Phandles(tree.root))
    modifies dest
    ensures again == Some(tree.(header := NewHeader(tree)))
    ensures Settled(tree) ==> again == Some(tree)
  {
    hide IsHighest, NewHeader, FlattenedAs, FdtIsValid, BlobAt, CanFlatten, Phandles, Flattenable, PhandlesPresent;
    hide MapBehindHeader, FlatSize, HeaderSize, Be32;
    DtFlatten(tree, dest);
    ghost var s := Bytes(dest);
    FlattenedIsBlob(s, tree);
    CanFlattenParts(tree);
    FlattenedParts(s, tree);
    again := FdtUnflatten(dest[..], tree.reserve, tree.root);
    HighestIsUnique(again.value.maxPhandle, tree.maxPhandle, 0, Phandles(tree.root));
  }

  lemma HighestIsUnique(q: nat, r: nat, floor: nat, handles: set<nat>)
    requires IsHighest(q, floor, handles) && IsHighest(r, floor, handles)
    ensures q == r
  {
  }
}
