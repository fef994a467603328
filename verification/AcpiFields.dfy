/**
 Field lists (src/acpi/acpigen.c, acpigen_write_field): names with widths, gaps and absolute offsets. A reader of
 the generated bytes only sees widths and sums them up.
 */
module AcpiFields {
  import opened Buffers
  import opened PkgLength
  import opened AcpiGen

  const EXT_OP_PREFIX: byte := 0x5b
  const FIELD_OP: byte := 0x81
  const DOT: byte := 0x2e
  const PAD: byte := 0x5f

  const U32_SIZE: nat := 0x1_0000_0000

  // Names are C strings, without their NUL.
  datatype Entry = NameString(name: seq<byte>, bits: nat) | Reserved(bits: nat) | Offset(bits: nat)

  // ----- What is generated

  // Names of four characters, cut at a dot and padded with underscores.
  function Seg(name: seq<byte>): (s: seq<byte>)
    ensures |s| == 4
  {
    var k := SegEnd(name, 0);
    name[..k] + seq(4 - k, i => PAD)
  }

  /** A short name is padded with underscores, a long one cut after four characters, and either ends before a dot. */
  lemma SegBytes(name: seq<byte>)
    ensures 0x2e !in name && |name| <= 4 ==> name <= Seg(name) && forall j :: |name| <= j < 4 ==> Seg(name)[j] == 0x5f
    ensures 0x2e !in name && |name| >= 4 ==> Seg(name) == name[..4]
    ensures forall k: nat :: k < |name| && k < 4 && name[k] == 0x2e && 0x2e !in name[..k] ==>
              Seg(name)[..k] == name[..k] && forall j :: k <= j < 4 ==> Seg(name)[j] == 0x5f
  {
    var e := SegEnd(name, 0);
    forall k: nat | k < |name| && k < 4 && name[k] == 0x2e && 0x2e !in name[..k]
      ensures e == k
    {
      assert forall j :: 0 <= j < k ==> name[..k][j] == name[j] && name[j] in name[..k];
    }
  }

  function SegEnd(name: seq<byte>, i: nat): (k: nat)
    requires i <= 4 && i <= |name|
    ensures i <= k <= 4 && k <= |name|
    ensures forall j :: i <= j < k ==> name[j] != DOT
    ensures k < 4 ==> k == |name| || name[k] == DOT
    decreases 4 - i
  {
    if i == 4 || i == |name| || name[i] == DOT then i else SegEnd(name, i + 1)
  }

  // The source counts positions in 32 bits.
  function Counter(pos: nat): nat {
    pos % U32_SIZE
  }

  // An offset that the source can express from where its counter is.
  predicate Reachable(offset: nat, pos: nat) {
    pos <= offset && offset - pos < LENGTH_LIMIT
  }

  predicate Writable(e: Entry) {
    match e
    case NameString(name, bits) => 0 !in name && bits < LENGTH_LIMIT
    case Reserved(bits) => bits < LENGTH_LIMIT
    case Offset(offset) => offset < U32_SIZE
  }

  // From the counter pos on; an unreachable offset is left out, with a warning.
  function EntryBytes(e: Entry, pos: nat): seq<byte>
    requires Writable(e)
  {
    match e
    case NameString(name, bits) => Seg(name) + EncodeLength(bits)
    case Reserved(bits) => [0] + EncodeLength(bits)
    case Offset(offset) => if Reachable(offset, pos) then [0] + EncodeLength(offset - pos) else []
  }

  // The position that the list states; the source's counter is it in 32 bits. An offset is taken over even when it was
  // left out.
  function Advance(e: Entry, pos: nat): nat {
    match e
    case NameString(_, bits) => pos + bits
    case Reserved(bits) => pos + bits
    case Offset(offset) => offset
  }

  function PosAfter(es: seq<Entry>, pos: nat): nat
    decreases |es|
  {
    if es == [] then pos else PosAfter(es[1..], Advance(es[0], pos))
  }

  function FieldBytes(es: seq<Entry>, pos: nat): seq<byte>
    requires forall e :: e in es ==> Writable(e)
    decreases |es|
  {
    if es == [] then [] else EntryBytes(es[0], Counter(pos)) + FieldBytes(es[1..], Advance(es[0], pos))
  }

  // ----- What a reader makes of it

  datatype Item = Field(name: seq<byte>, width: nat) | Gap(width: nat)

  datatype Placed = Placed(name: seq<byte>, position: int, width: nat)

  function ReadFields(s: seq<byte>): seq<Item>
    decreases |s|
  {
    if s == [] then []
    else
      var head := if s[0] == 0 then 1 else 4;
      if |s| < head then []
      else
        match DecodeLength(s[head..])
        case Truncated => []
        case Decoded(value, width) =>
          if width == 0 || head + width > |s| then []
          else [if s[0] == 0 then Gap(value) else Field(s[..4], value)] + ReadFields(s[head + width..])
  }

  // The reader's position is the sum of all widths so far.
  function Place(items: seq<Item>, position: int): seq<Placed>
    decreases |items|
  {
    if items == [] then []
    else
      var rest := Place(items[1..], position + items[0].width);
      if items[0].Field? then [Placed(items[0].name, position, items[0].width)] + rest else rest
  }

  // Where the list puts its names.
  function Stated(es: seq<Entry>, pos: nat): seq<Placed>
    decreases |es|
  {
    if es == [] then []
    else
      var rest := Stated(es[1..], Advance(es[0], pos));
      if es[0].NameString? then [Placed(Seg(es[0].name), pos, es[0].bits)] + rest else rest
  }

  // Where a reader that is off by skew sees them.
  function Seen(es: seq<Entry>, pos: nat, skew: int): seq<Placed>
    decreases |es|
  {
    if es == [] then []
    else
      match es[0]
      case NameString(name, bits) => [Placed(Seg(name), pos + skew, bits)] + Seen(es[1..], pos + bits, skew)
      case Reserved(bits) => Seen(es[1..], pos + bits, skew)
      case Offset(offset) => Seen(es[1..], offset, Skewed(offset, pos, skew))
  }

  function Skewed(offset: nat, pos: nat, skew: int): int {
    if Reachable(offset, Counter(pos)) then skew + pos - Counter(pos) else skew + pos - offset
  }

  // ----- Reading back

  lemma SegIsName(name: seq<byte>)
    requires 0 !in name
    ensures Seg(name)[0] != 0
  {
    var k := SegEnd(name, 0);
    assert k > 0 ==> Seg(name)[0] == name[0];
  }

  lemma ReadName(name: seq<byte>, bits: nat, rest: seq<byte>)
    requires 0 !in name && bits < LENGTH_LIMIT
    ensures ReadFields(Seg(name) + EncodeLength(bits) + rest) == [Field(Seg(name), bits)] + ReadFields(rest)
  {
    var s := Seg(name) + EncodeLength(bits) + rest;
    SegIsName(name);
    LengthRoundTrip(bits, rest);
    hide EncodeLength, DecodeLength, Seg;
    assert s[4..] == EncodeLength(bits) + rest;
    assert s[..4] == Seg(name) && s[0] == Seg(name)[0];
    assert s[4 + Width(bits)..] == rest;
  }

  lemma ReadGap(bits: nat, rest: seq<byte>)
    requires bits < LENGTH_LIMIT
    ensures ReadFields([0] + EncodeLength(bits) + rest) == [Gap(bits)] + ReadFields(rest)
  {
    var s := [0] + EncodeLength(bits) + rest;
    LengthRoundTrip(bits, rest);
    hide EncodeLength, DecodeLength;
    assert s[1..] == EncodeLength(bits) + rest;
    assert s[0] == 0;
    assert s[1 + Width(bits)..] == rest;
  }

  // What one entry adds to what a reader sees.
  function ItemsOf(e: Entry, pos: nat): seq<Item> {
    match e
    case NameString(name, bits) => [Field(Seg(name), bits)]
    case Reserved(bits) => [Gap(bits)]
    case Offset(offset) => if Reachable(offset, pos) then [Gap(offset - pos)] else []
  }

  lemma EntryReads(e: Entry, pos: nat, rest: seq<byte>)
    requires Writable(e)
    ensures ReadFields(EntryBytes(e, pos) + rest) == ItemsOf(e, pos) + ReadFields(rest)
  {
    hide EncodeLength, Seg, ReadFields;
    match e
    case NameString(name, bits) => ReadName(name, bits, rest);
    case Reserved(bits) => ReadGap(bits, rest);
    case Offset(offset) =>
      if Reachable(offset, pos) {
        ReadGap(offset - pos, rest);
      } else {
        assert [] + rest == rest;
      }
  }

  // The reader's position after an entry is the source's, off by the new skew.
  function SkewAfter(e: Entry, pos: nat, skew: int): int {
    if e.Offset? then Skewed(e.bits, pos, skew) else skew
  }

  lemma PlaceItems(e: Entry, pos: nat, skew: int, items: seq<Item>)
    ensures Place(ItemsOf(e, Counter(pos)) + items, pos + skew) ==
            (if e.NameString? then [Placed(Seg(e.name), pos + skew, e.bits)] else []) +
            Place(items, Advance(e, pos) + SkewAfter(e, pos, skew))
  {
    hide Seg, Place, Counter;
    if ItemsOf(e, Counter(pos)) == [] {
      assert [] + items == items;
    } else {
      PlaceFirst(ItemsOf(e, Counter(pos))[0], items, pos + skew);
    }
    assert [] + Place(items, pos + skew) == Place(items, pos + skew);
  }

  lemma SeenStep(es: seq<Entry>, pos: nat, skew: int)
    requires es != []
    ensures Seen(es, pos, skew) == (if es[0].NameString? then [Placed(Seg(es[0].name), pos + skew, es[0].bits)] else []) +
                                   Seen(es[1..], Advance(es[0], pos), SkewAfter(es[0], pos, skew))
  {
    hide Seg, Skewed;
  }

  lemma BytesStep(es: seq<Entry>, pos: nat)
    requires es != [] && forall e :: e in es ==> Writable(e)
    ensures (forall e :: e in es[1..] ==> Writable(e)) && Writable(es[0])
    ensures FieldBytes(es, pos) == EntryBytes(es[0], Counter(pos)) + FieldBytes(es[1..], Advance(es[0], pos))
  {
    hide EntryBytes, Writable;
    assert forall f :: f in es[1..] ==> f in es;
    assert es[0] in es;
  }

  /**
   A reader that sums the decoded widths finds every named field at the position the list states, shifted by the
   offsets that were left out before it.
   */
  lemma {:induction false} FieldsReadBack(es: seq<Entry>, pos: nat, skew: int)
    requires forall e :: e in es ==> Writable(e)
    ensures Place(ReadFields(FieldBytes(es, pos)), pos + skew) == Seen(es, pos, skew)
    decreases |es|
  {
    hide *;
    if es == [] {
      ReadNothing(pos, skew);
    } else {
      var next := Advance(es[0], pos);
      BytesStep(es, pos);
      EntryReads(es[0], Counter(pos), FieldBytes(es[1..], next));
      PlaceItems(es[0], pos, skew, ReadFields(FieldBytes(es[1..], next)));
      FieldsReadBack(es[1..], next, SkewAfter(es[0], pos, skew));
      SeenStep(es, pos, skew);
    }
  }

  lemma ReadNothing(pos: nat, skew: int)
    ensures ReadFields([]) == [] && FieldBytes([], pos) == []
    ensures Seen([], pos, skew) == Place([], pos + skew) == []
  {
  }

  lemma PlaceFirst(item: Item, items: seq<Item>, position: int)
    ensures Place([item] + items, position) ==
            (if item.Field? then [Placed(item.name, position, item.width)] else []) + Place(items, position + item.width)
  {
    assert ([item] + items)[1..] == items;
  }

  // Whether no name comes while the reader is off.
  predicate NeverOff(es: seq<Entry>, pos: nat, skew: int)
    decreases |es|
  {
    es == [] ||
    match es[0]
    case NameString(_, bits) => skew == 0 && NeverOff(es[1..], pos + bits, skew)
    case Reserved(bits) => NeverOff(es[1..], pos + bits, skew)
    case Offset(offset) => NeverOff(es[1..], offset, Skewed(offset, pos, skew))
  }

  /** The fields are where the list puts them exactly if no name follows left-out offsets that do not cancel. */
  lemma {:induction false} PlacedAsStated(es: seq<Entry>, pos: nat, skew: int)
    ensures NeverOff(es, pos, skew) <==> Seen(es, pos, skew) == Stated(es, pos)
    decreases |es|
  {
    hide Seg, Reachable, Counter;
    if es != [] {
      match es[0]
      case NameString(name, bits) =>
        PlacedAsStated(es[1..], pos + bits, skew);
        ConsEqual(Placed(Seg(name), pos + skew, bits), Seen(es[1..], pos + bits, skew),
                  Placed(Seg(name), pos, bits), Stated(es[1..], pos + bits));
      case Reserved(bits) => PlacedAsStated(es[1..], pos + bits, skew);
      case Offset(offset) => PlacedAsStated(es[1..], offset, Skewed(offset, pos, skew));
    }
  }

  // Offsets never go back and never leap too far.
  predicate AllReachable(es: seq<Entry>, pos: nat)
    decreases |es|
  {
    es == [] ||
    ((es[0].Offset? ==> Reachable(es[0].bits, pos)) && AllReachable(es[1..], Advance(es[0], pos)))
  }

  lemma {:induction false} ReachableIsNeverOff(es: seq<Entry>, pos: nat)
    requires AllReachable(es, pos) && forall e :: e in es ==> Writable(e)
    ensures NeverOff(es, pos, 0)
    decreases |es|
  {
    if es != [] {
      assert es[0] in es;
      assert forall e :: e in es[1..] ==> e in es;
      ReachableIsNeverOff(es[1..], Advance(es[0], pos));
    }
  }

  /** With non-decreasing offsets and widths below 2^28 every named field is where the list states it. */
  lemma FieldsAreWhereStated(es: seq<Entry>)
    requires forall e :: e in es ==> Writable(e)
    requires AllReachable(es, 0)
    ensures Place(ReadFields(FieldBytes(es, 0)), 0) == Stated(es, 0)
  {
    ReachableIsNeverOff(es, 0);
    FieldsReadBack(es, 0, 0);
    PlacedAsStated(es, 0, 0);
  }

  // An offset that goes back: the name behind it is read 8 bits too far.
  lemma BackwardOffsetExample()
    ensures var es := [Reserved(16), Offset(8), NameString([65], 1)];
              && Stated(es, 0) == [Placed([65, PAD, PAD, PAD], 8, 1)]
              && Place(ReadFields(FieldBytes(es, 0)), 0) == [Placed([65, PAD, PAD, PAD], 16, 1)]
  {
    var es := [Reserved(16), Offset(8), NameString([65], 1)];
    assert Seg([65]) == [65, PAD, PAD, PAD];
    FieldsReadBack(es, 0, 0);
    assert es[1..] == [Offset(8), NameString([65], 1)] && es[1..][1..] == [NameString([65], 1)];
    assert es[1..][1..][1..] == [];
    assert !Reachable(8, 16);
  }

  lemma {:induction false} ReservedRun(n: nat, k: nat, rest: seq<Entry>, pos: nat)
    ensures var es := seq(n, i => Reserved(k)) + rest;
              Seen(es, pos, 0) == Seen(rest, pos + n * k, 0) && Stated(es, pos) == Stated(rest, pos + n * k)
    decreases n
  {
    var es := seq(n, i => Reserved(k)) + rest;
    if n == 0 {
      assert es == rest;
    } else {
      assert es[1..] == seq(n - 1, i => Reserved(k)) + rest;
      ReservedRun(n - 1, k, rest, pos + k);
      assert pos + k + (n - 1) * k == pos + n * k;
    }
  }

  // Beyond 2^32 bits the counter starts again: the offset 8 is written as a gap of 8 bits, although it goes back.
  lemma CounterWrapExample()
    ensures var es := seq(32, i => Reserved(0x800_0000)) + [Offset(8), NameString([65], 1)];
              && (forall e :: e in es ==> Writable(e))
              && Stated(es, 0) == [Placed([65, PAD, PAD, PAD], 8, 1)]
              && Place(ReadFields(FieldBytes(es, 0)), 0) == [Placed([65, PAD, PAD, PAD], U32_SIZE + 8, 1)]
  {
    var tail := [Offset(8), NameString([65], 1)];
    var es := seq(32, i => Reserved(0x800_0000)) + tail;
    assert Seg([65]) == [65, PAD, PAD, PAD];
    ReservedRun(32, 0x800_0000, tail, 0);
    FieldsReadBack(es, 0, 0);
    assert tail[1..] == [NameString([65], 1)] && tail[1..][1..] == [];
    assert Counter(U32_SIZE) == 0 && Reachable(8, 0);
  }

  lemma ConsEqual<T>(x: T, xs: seq<T>, y: T, ys: seq<T>)
    ensures [x] + xs == [y] + ys <==> x == y && xs == ys
  {
    if [x] + xs == [y] + ys {
      assert ([x] + xs)[0] == x && ([y] + ys)[0] == y;
      assert ([x] + xs)[1..] == xs && ([y] + ys)[1..] == ys;
    }
  }

  // ----- The source's writers

  method EmitSimpleNamestring(gen: Generator, name: seq<byte>)
    requires gen.Valid() && gen.current + 4 <= gen.buf.Length
    modifies gen`current, gen.buf
    ensures gen.Valid() && gen.current == old(gen.current) + 4
    ensures gen.Frames() == Appended(old(gen.Frames()), Seg(name))
  {
    ghost var f := gen.Frames();
    ghost var end := SegEnd(name, 0);
    hide *;
    AppendNothing(f);
    assert name[..0] == [];
    for i := 0 to 4
      invariant i <= end && gen.Valid() && gen.current == old(gen.current) + i
      invariant gen.Frames() == Appended(f, name[..i])
    {
      SegEndStep(name, i);
      if i == |name| || name[i] == DOT {
        var pad := [PAD, PAD, PAD, PAD][..4 - i];
        PadIsLast(f, name, pad);
        gen.EmitStream(pad);
        return;
      }
      NextChar(f, name, i);
      gen.EmitByte(name[i]);
    }
    SegIs(name);
    assert name[..4] + [] == name[..4];
  }

  lemma NextChar(f: seq<seq<byte>>, name: seq<byte>, i: nat)
    requires f != [] && i < |name|
    ensures Appended(Appended(f, name[..i]), [name[i]]) == Appended(f, name[..i + 1])
  {
    assert name[..i + 1] == name[..i] + [name[i]];
    hide Appended;
    AppendTwice(f, name[..i], [name[i]]);
  }

  lemma PadIsLast(f: seq<seq<byte>>, name: seq<byte>, pad: seq<byte>)
    requires f != [] && pad == [PAD, PAD, PAD, PAD][..4 - SegEnd(name, 0)]
    ensures Appended(Appended(f, name[..SegEnd(name, 0)]), pad) == Appended(f, Seg(name))
  {
    hide Appended;
    SegIs(name);
    AppendTwice(f, name[..SegEnd(name, 0)], pad);
  }

  lemma SegEndStep(name: seq<byte>, i: nat)
    requires i < 4 && i <= SegEnd(name, 0)
    ensures i <= |name|
    ensures (i == |name| || name[i] == DOT) ==> SegEnd(name, 0) == i
    ensures !(i == |name| || name[i] == DOT) ==> i + 1 <= SegEnd(name, 0)
  {
  }

  lemma SegIs(name: seq<byte>)
    ensures Seg(name) == name[..SegEnd(name, 0)] + [PAD, PAD, PAD, PAD][..4 - SegEnd(name, 0)]
    ensures SegEnd(name, 0) == 4 ==> Seg(name) == name[..4]
  {
  }

  /** The length in a list: a loop over the bytes above the first nibble. */
  method WriteFieldLength(gen: Generator, len: nat)
    requires len < LENGTH_LIMIT && gen.Valid() && gen.current + 4 <= gen.buf.Length
    modifies gen`current, gen.buf
    ensures gen.Valid() && gen.current == old(gen.current) + Width(len)
    ensures gen.Frames() == Appended(old(gen.Frames()), EncodeLength(len))
  {
    var emit: seq<byte>;
    if len < 0x40 {
      emit := [len];
    } else {
      emit := [len % 0x10];
      var left := len / 0x10;
      while left != 0
        invariant 1 <= |emit| <= 4 && emit[0] == len % 0x10
        invariant |emit| == 1 ==> left == len / 0x10
        invariant |emit| == 2 ==> left == len / 0x1000 && emit[1] == len / 0x10 % 0x100
        invariant |emit| == 3 ==> left == len / 0x10_0000 && emit[1] == len / 0x10 % 0x100 && emit[2] == len / 0x1000 % 0x100
        invariant |emit| == 4 ==> left == 0 && emit[1] == len / 0x10 % 0x100 && emit[2] == len / 0x1000 % 0x100 &&
                                  emit[3] == len / 0x10_0000 && len >= 0x10_0000
        invariant |emit| == 3 ==> len >= 0x1000
        invariant |emit| == 2 ==> len >= 0x40
      {
        emit := emit + [left % 0x100];
        left := left / 0x100;
      }
    }
    emit := emit[0 := emit[0] + (|emit| - 1) * 0x40];
    assert emit == EncodeLength(len);
    hide *;
    gen.EmitStream(emit);
  }

  method WriteFieldName(gen: Generator, name: seq<byte>, size: nat)
    requires Writable(NameString(name, size)) && gen.Valid() && gen.current + 8 <= gen.buf.Length
    modifies gen`current, gen.buf
    ensures gen.Valid() && gen.current <= old(gen.current) + 8
    ensures gen.Frames() == Appended(old(gen.Frames()), Seg(name) + EncodeLength(size))
  {
    assert size < LENGTH_LIMIT;
    hide *;
    AppendTwice(gen.Frames(), Seg(name), EncodeLength(size));
    EmitSimpleNamestring(gen, name);
    WriteFieldLength(gen, size);
  }

  method WriteFieldReserved(gen: Generator, size: nat)
    requires size < LENGTH_LIMIT && gen.Valid() && gen.current + 8 <= gen.buf.Length
    modifies gen`current, gen.buf
    ensures gen.Valid() && gen.current <= old(gen.current) + 8
    ensures gen.Frames() == Appended(old(gen.Frames()), [0] + EncodeLength(size))
  {
    hide *;
    AppendTwice(gen.Frames(), [0], EncodeLength(size));
    gen.EmitByte(0);
    WriteFieldLength(gen, size);
  }

  method WriteFieldOffset(gen: Generator, offset: nat, currentBitPos: nat)
    requires gen.Valid() && gen.current + 8 <= gen.buf.Length && Writable(Offset(offset))
    modifies gen`current, gen.buf
    ensures gen.Valid() && gen.current <= old(gen.current) + 8
    ensures gen.Frames() == Appended(old(gen.Frames()), EntryBytes(Offset(offset), currentBitPos))
  {
    assert Reachable(offset, currentBitPos) <==> currentBitPos <= offset && offset - currentBitPos <= 0xFFFFFFF;
    OffsetBytes(offset, currentBitPos);
    hide *;
    if offset < currentBitPos {
      AppendNothing(gen.Frames());
      return;
    }
    var diffBits := offset - currentBitPos;
    if diffBits > 0xFFFFFFF {
      AppendNothing(gen.Frames());
      return;
    }
    LimitIs();
    WriteFieldReserved(gen, diffBits);
  }

  lemma LimitIs()
    ensures LENGTH_LIMIT == 0x1000_0000
  {
  }

  lemma OffsetBytes(offset: nat, pos: nat)
    requires Writable(Offset(offset))
    ensures EntryBytes(Offset(offset), pos) ==
            if Reachable(offset, pos) then [0] + EncodeLength(offset - pos) else []
  {
  }

  lemma EntryBytesAre(e: Entry, pos: nat)
    requires Writable(e)
    ensures e.NameString? ==> EntryBytes(e, pos) == Seg(e.name) + EncodeLength(e.bits)
    ensures e.Reserved? ==> EntryBytes(e, pos) == [0] + EncodeLength(e.bits) && e.bits < LENGTH_LIMIT
  {
  }

  // The counter after an entry.
  lemma CounterAfter(e: Entry, pos: nat)
    requires Writable(e)
    ensures Counter(Advance(e, pos)) == if e.Offset? then e.bits else (Counter(pos) + e.bits) % U32_SIZE
  {
    if !e.Offset? {
      var q := pos / U32_SIZE;
      assert pos + e.bits == Counter(pos) + e.bits + q * U32_SIZE;
    }
  }

  // Bytes and position after one more entry at the end.
  lemma {:induction false} OneMoreEntry(es: seq<Entry>, e: Entry, pos: nat)
    requires forall f :: f in es + [e] ==> Writable(f)
    ensures Writable(e) && forall f :: f in es ==> Writable(f)
    ensures FieldBytes(es + [e], pos) == FieldBytes(es, pos) + EntryBytes(e, Counter(PosAfter(es, pos)))
    ensures PosAfter(es + [e], pos) == Advance(e, PosAfter(es, pos))
    decreases |es|
  {
    hide EntryBytes, Writable, Advance, Counter;
    assert (es + [e])[|es|] == e;
    assert forall f :: f in es ==> f in es + [e];
    if es == [] {
      assert es + [e] == [e] && [e][1..] == [];
      assert EntryBytes(e, Counter(pos)) + [] == EntryBytes(e, Counter(pos)) == [] + EntryBytes(e, Counter(pos));
    } else {
      assert (es + [e])[1..] == es[1..] + [e];
      OneMoreEntry(es[1..], e, Advance(es[0], pos));
    }
  }

  // One turn of the source's loop over the list.
  method WriteEntry(gen: Generator, e: Entry, currentBitPos: nat, ghost pos: nat) returns (newBitPos: nat)
    requires Writable(e) && gen.Valid() && gen.current + 8 <= gen.buf.Length && currentBitPos == Counter(pos)
    modifies gen`current, gen.buf
    ensures gen.Valid() && gen.current <= old(gen.current) + 8 && newBitPos == Counter(Advance(e, pos))
    ensures gen.Frames() == Appended(old(gen.Frames()), EntryBytes(e, currentBitPos))
  {
    hide *;
    EntryBytesAre(e, currentBitPos);
    CounterAfter(e, pos);
    CounterSize();
    match e {
      case NameString(segment, bits) =>
        WriteFieldName(gen, segment, bits);
        newBitPos := (currentBitPos + bits) % U32_SIZE;
      case Reserved(bits) =>
        WriteFieldReserved(gen, bits);
        newBitPos := (currentBitPos + bits) % U32_SIZE;
      case Offset(offset) =>
        WriteFieldOffset(gen, offset, currentBitPos);
        newBitPos := offset;
    }
  }

  method WriteEntries(gen: Generator, list: seq<Entry>)
    requires forall e :: e in list ==> Writable(e)
    requires gen.Valid() && gen.current + 8 * |list| <= gen.buf.Length
    modifies gen`current, gen.buf
    ensures gen.Valid()
    ensures gen.Frames() == Appended(old(gen.Frames()), FieldBytes(list, 0))
  {
    hide *;
    ghost var f := gen.Frames();
    NoEntries(0);
    AppendNothing(f);
    assert list[..0] == [];
    var currentBitPos := 0;
    for i := 0 to |list|
      invariant gen.Valid() && gen.current <= old(gen.current) + 8 * i
      invariant currentBitPos == Counter(PosAfter(list[..i], 0))
      invariant (forall e :: e in list[..i] ==> Writable(e)) && gen.Frames() == Appended(f, FieldBytes(list[..i], 0))
    {
      assert list[..i + 1] == list[..i] + [list[i]];
      assert forall e :: e in list[..i + 1] ==> e in list;
      OneMoreEntry(list[..i], list[i], 0);
      AppendTwice(f, FieldBytes(list[..i], 0), EntryBytes(list[i], currentBitPos));
      currentBitPos := WriteEntry(gen, list[i], currentBitPos, PosAfter(list[..i], 0));
    }
    assert list[..|list|] == list;
  }

  method EmitExtOp(gen: Generator, op: byte)
    requires gen.Valid() && gen.current + 2 <= gen.buf.Length
    modifies gen`current, gen.buf
    ensures gen.Valid() && gen.current == old(gen.current) + 2
    ensures gen.Frames() == Appended(old(gen.Frames()), [EXT_OP_PREFIX, op])
  {
    ghost var f := gen.Frames();
    hide *;
    gen.EmitByte(EXT_OP_PREFIX);
    gen.EmitByte(op);
    TwoAppends(f, EXT_OP_PREFIX, op);
  }

  // What the package holds: the region's name, the flags and the list.
  method WriteFieldPayload(gen: Generator, name: seq<byte>, list: seq<Entry>, flags: byte)
    requires forall e :: e in list ==> Writable(e)
    requires gen.Valid() && gen.current + 5 + 8 * |list| <= gen.buf.Length
    modifies gen`current, gen.buf
    ensures gen.Valid()
    ensures gen.Frames() == Appended(old(gen.Frames()), Seg(name) + [flags] + FieldBytes(list, 0))
  {
    ghost var f := gen.Frames();
    hide *;
    EmitSimpleNamestring(gen, name);
    gen.EmitByte(flags);
    AppendTwice(f, Seg(name), [flags]);
    WriteEntries(gen, list);
    AppendTwice(f, Seg(name) + [flags], FieldBytes(list, 0));
  }

  /** acpigen_write_field: the operator, and a package around the region's name, the flags and the list. */
  method WriteField(gen: Generator, name: seq<byte>, list: seq<Entry>, flags: byte)
    requires forall e :: e in list ==> Writable(e)
    requires gen.Valid() && |gen.lenStack| < LEN_STACK_SIZE - 1
    requires gen.current + 10 + 8 * |list| <= gen.buf.Length
    modifies gen, gen.buf
    ensures gen.Valid() && gen.lenStack == old(gen.lenStack) && gen.widths == old(gen.widths)
    ensures gen.Frames() == Appended(Appended(old(gen.Frames()), [0x5b, 0x81]),
                                     ClosedPackage(Seg(name) + [flags] + FieldBytes(list, 0)))
  {
    FieldConstants();
    hide *;
    gen.StateIs();
    LastFrame(gen.State());
    EmitExtOp(gen, FIELD_OP);
    ghost var outer := gen.Frames();
    gen.WriteLenF();
    WriteFieldPayload(gen, name, list, flags);
    FieldClosed(outer, Seg(name) + [flags] + FieldBytes(list, 0));
    gen.PopLen();
  }

  lemma CounterSize()
    ensures U32_SIZE == 0x1_0000_0000
  {
  }

  lemma NoEntries(pos: nat)
    ensures FieldBytes([], pos) == [] && PosAfter([], pos) == pos && Counter(0) == 0
  {
  }

  lemma FieldConstants()
    ensures RESERVED_BYTES == 3 && LEN_STACK_SIZE == 10 && EXT_OP_PREFIX == 0x5b && FIELD_OP == 0x81
  {
  }

  lemma FieldClosed(f: seq<seq<byte>>, payload: seq<byte>)
    requires f != []
    ensures var g := Appended(f + [[]], payload);
              |g| >= 2 && Last(g) == payload && Closed(g, ClosedPackage(payload)) == Appended(f, ClosedPackage(payload))
  {
    hide ClosedPackage;
    AppendToNew(f, payload);
    assert (f + [payload])[..|f|] == f;
  }
}
