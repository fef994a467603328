/**
 Small images that relocation is meant for: one whose run ends well, and one that ends in a broken second volume. One file
 holds the information header with a patch table behind it, a PE32, a PE32+ and a TE image. What is moved is listed in bytes.
 */
module FspExample {
  import opened Arith
  import opened Buffers
  import opened FspBytes
  import opened FspSites
  import opened FspFrame
  import opened FspMoves
  import opened FspComposition

  const WHOLE: nat := 712
  const BROKEN: nat := 760

  function SampleByte(i: nat): byte {
    match i
    // The volume: file system, length, signature, header length.
    case 16 => 0x78 case 17 => 0xe5 case 18 => 0x8c case 19 => 0x8c
    case 20 => 0x3d case 21 => 0x8a case 22 => 0x1c case 23 => 0x4f
    case 24 => 0x99 case 25 => 0x35 case 26 => 0x89 case 27 => 0x61
    case 28 => 0x85 case 29 => 0xc3 case 30 => 0x2d case 31 => 0xd3
    case 32 => 0xc8 case 33 => 0x02 case 40 => 0x5f case 41 => 0x46
    case 42 => 0x56 case 43 => 0x48 case 48 => 0x38
    // The file: name, type, size.
    case 56 => 0xbe case 57 => 0x40 case 58 => 0x27 case 59 => 0x91
    case 60 => 0x84 case 61 => 0x22 case 62 => 0x34 case 63 => 0x47
    case 64 => 0xb9 case 65 => 0x71 case 66 => 0x84 case 67 => 0xb0
    case 68 => 0x27 case 69 => 0x35 case 70 => 0x3f case 71 => 0x0c
    case 74 => 0x01 case 76 => 0x90 case 77 => 0x02
    // The first section: information header with length and base.
    case 80 => 0x38 case 83 => 0x19 case 84 => 0x46 case 85 => 0x53
    case 86 => 0x50 case 87 => 0x48 case 88 => 0x20 case 114 => 0x01
    // The patch table: one entry from the front, one from the end.
    case 116 => 0x46 case 117 => 0x53 case 118 => 0x50 case 119 => 0x50
    case 120 => 0x0c case 124 => 0x02 case 128 => 0x98 case 132 => 0xd8
    case 133 => 0xfd case 134 => 0xff case 135 => 0x80
    // A PE32 image that names the number at 4.
    case 136 => 0xf8 case 139 => 0x10 case 140 => 0x4d case 141 => 0x5a
    case 200 => 0x40 case 204 => 0x50 case 205 => 0x45 case 228 => 0x0b
    case 229 => 0x01 case 364 => 0xe8 case 368 => 0x0c case 376 => 0x0c
    case 380 => 0x04 case 381 => 0x30
    // A PE32+ image that names the numbers at 8 and 16.
    case 384 => 0x08 case 385 => 0x01 case 387 => 0x10 case 388 => 0x4d
    case 389 => 0x5a case 448 => 0x40 case 452 => 0x50 case 453 => 0x45
    case 476 => 0x0b case 477 => 0x02 case 628 => 0xf8 case 632 => 0x0c
    case 640 => 0x0c case 644 => 0x08 case 645 => 0xa0 case 646 => 0x10
    case 647 => 0x30
    // A TE image with 0x200 bytes stripped that names the numbers at 0x20c and 0x210.
    case 648 => 0x40 case 651 => 0x12 case 652 => 0x56 case 653 => 0x5a
    case 659 => 0x02 case 677 => 0x02 case 680 => 0x0c case 693 => 0x02
    case 696 => 0x0c case 700 => 0x0c case 701 => 0x30 case 702 => 0x10
    case 703 => 0xa0
    case _ => 0
  }

  // Behind the volume comes nothing, or something that is no volume.
  function Sample(size: nat): (s: seq<byte>)
    requires size in {WHOLE, BROKEN}
    ensures |s| == size && forall i :: 0 <= i < size ==> s[i] == SampleByte(i)
  {
    seq(size, i requires 0 <= i < size => SampleByte(i))
  }

  lemma LeUpToFour(s: seq<byte>, o: nat)
    requires o + 4 <= |s|
    ensures var b0: nat, b1: nat, b2: nat, b3: nat := s[o], s[o + 1], s[o + 2], s[o + 3];
              && At(s, o, 1) == b0
              && At(s, o, 2) == b0 + 0x100 * b1
              && At(s, o, 3) == b0 + 0x100 * b1 + 0x1_0000 * b2
              && At(s, o, 4) == b0 + 0x100 * b1 + 0x1_0000 * b2 + 0x100_0000 * b3
  {
    var b0: nat, b1: nat, b2: nat, b3: nat := s[o], s[o + 1], s[o + 2], s[o + 3];
    assert Le(s, o + 4, 0) == Le(s, o + 3, 0) == Le(s, o + 2, 0) == Le(s, o + 1, 0) == 0;
    assert Le(s, o + 3, 1) == b3 && Le(s, o + 2, 1) == b2 && Le(s, o + 1, 1) == b1;
    assert Le(s, o + 2, 2) == b2 + 0x100 * b3 && Le(s, o + 1, 2) == b1 + 0x100 * b2;
    assert Le(s, o + 1, 3) == b1 + 0x100 * b2 + 0x1_0000 * b3;
  }

  lemma LeEight(s: seq<byte>, o: nat)
    requires o + 8 <= |s|
    ensures At(s, o, 8) == At(s, o, 4) + 0x1_0000_0000 * At(s, o + 4, 4)
  {
    assert Le(s, o, 1 + 7) == s[o] + 0x100 * Le(s, o + 1, 7);
    assert Le(s, o + 1, 1 + 6) == s[o + 1] + 0x100 * Le(s, o + 2, 6);
    assert Le(s, o + 2, 1 + 5) == s[o + 2] + 0x100 * Le(s, o + 3, 5);
    assert Le(s, o + 3, 1 + 4) == s[o + 3] + 0x100 * Le(s, o + 4, 4);
    LeUpToFour(s, o);
  }

  lemma VolumeBytes(size: nat)
    requires size in {WHOLE, BROKEN}
    ensures var s := Sample(size);
              && At(s, 40, 4) == FVH_SIGNATURE && At(s, 32, 8) == 712 && VolumeGuid(s, 16)
              && At(s, 52, 2) == 0 && At(s, 48, 2) == 56
  {
    var s := Sample(size);
    LeUpToFour(s, 16);
    LeUpToFour(s, 20);
    LeUpToFour(s, 24);
    LeUpToFour(s, 28);
    LeUpToFour(s, 32);
    LeUpToFour(s, 36);
    LeUpToFour(s, 40);
    LeUpToFour(s, 48);
    LeUpToFour(s, 52);
    LeEight(s, 16);
    LeEight(s, 24);
    LeEight(s, 32);
    hide At, Sample;
  }

  lemma FileBytes(size: nat)
    requires size in {WHOLE, BROKEN}
    ensures var s := Sample(size);
              InfoGuid(s, 56) && At(s, 74, 1) == 1 && At(s, 75, 1) == 0 && At(s, 76, 3) == 656
  {
    var s := Sample(size);
    LeUpToFour(s, 56);
    LeUpToFour(s, 60);
    LeUpToFour(s, 64);
    LeUpToFour(s, 68);
    LeUpToFour(s, 74);
    LeUpToFour(s, 75);
    LeUpToFour(s, 76);
    LeEight(s, 56);
    LeEight(s, 64);
    hide At, Sample;
  }

  lemma InfoBytesFirst(size: nat)
    requires size in {WHOLE, BROKEN}
    ensures var s := Sample(size);
              && At(s, 80, 3) == 56 && At(s, 83, 1) == SECTION_RAW && At(s, 84, 4) == FSPH_SIGNATURE
  {
    var s := Sample(size);
    LeUpToFour(s, 80);
    LeUpToFour(s, 83);
    LeUpToFour(s, 84);
    hide At, Sample;
  }

  lemma InfoBytesSecond(size: nat)
    requires size in {WHOLE, BROKEN}
    ensures var s := Sample(size);
              && At(s, 88, 4) == 32 && At(s, 112, 4) == 0x1_0000
  {
    var s := Sample(size);
    LeUpToFour(s, 88);
    LeUpToFour(s, 112);
    hide At, Sample;
  }

  lemma InfoBytes(size: nat)
    requires size in {WHOLE, BROKEN}
    ensures var s := Sample(size);
              && At(s, 80, 3) == 56 && At(s, 83, 1) == SECTION_RAW
              && At(s, 84, 4) == FSPH_SIGNATURE && At(s, 88, 4) == 32 && At(s, 112, 4) == 0x1_0000
  {
    InfoBytesFirst(size);
    InfoBytesSecond(size);
    hide At, Sample;
  }

  lemma TableBytesFirst(size: nat)
    requires size in {WHOLE, BROKEN}
    ensures var s := Sample(size);
              && At(s, 116, 4) == FSPP_SIGNATURE && At(s, 120, 2) == 12 && At(s, 124, 4) == 2
  {
    var s := Sample(size);
    LeUpToFour(s, 116);
    LeUpToFour(s, 120);
    LeUpToFour(s, 124);
    hide At, Sample;
  }

  lemma TableBytesSecond(size: nat)
    requires size in {WHOLE, BROKEN}
    ensures var s := Sample(size);
              && At(s, 128, 4) == 152 && At(s, 132, 4) == 0x80FF_FDD8
  {
    var s := Sample(size);
    LeUpToFour(s, 128);
    LeUpToFour(s, 132);
    hide At, Sample;
  }

  lemma TableBytes(size: nat)
    requires size in {WHOLE, BROKEN}
    ensures var s := Sample(size);
              && At(s, 116, 4) == FSPP_SIGNATURE && At(s, 120, 2) == 12 && At(s, 124, 4) == 2
              && At(s, 128, 4) == 152 && At(s, 132, 4) == 0x80FF_FDD8
  {
    TableBytesFirst(size);
    TableBytesSecond(size);
    hide At, Sample;
  }

  lemma PeBytesFirst(size: nat)
    requires size in {WHOLE, BROKEN}
    ensures var s := Sample(size);
              && At(s, 136, 3) == 248 && At(s, 139, 1) == SECTION_PE32 && At(s, 140, 2) == 0x5a4d
  {
    var s := Sample(size);
    LeUpToFour(s, 136);
    LeUpToFour(s, 139);
    LeUpToFour(s, 140);
    hide At, Sample;
  }

  lemma PeBytesSecond(size: nat)
    requires size in {WHOLE, BROKEN}
    ensures var s := Sample(size);
              && At(s, 200, 4) == 64 && At(s, 204, 4) == 0x4550 && At(s, 228, 2) == 0x10b
  {
    var s := Sample(size);
    LeUpToFour(s, 200);
    LeUpToFour(s, 204);
    LeUpToFour(s, 228);
    hide At, Sample;
  }

  lemma PeBytes(size: nat)
    requires size in {WHOLE, BROKEN}
    ensures var s := Sample(size);
              && At(s, 136, 3) == 248 && At(s, 139, 1) == SECTION_PE32
              && At(s, 140, 2) == 0x5a4d && At(s, 200, 4) == 64 && At(s, 204, 4) == 0x4550 && At(s, 228, 2) == 0x10b
  {
    PeBytesFirst(size);
    PeBytesSecond(size);
    hide At, Sample;
  }

  lemma PeTableBytes(size: nat)
    requires size in {WHOLE, BROKEN}
    ensures var s := Sample(size);
              && At(s, 364, 4) == 232 && At(s, 368, 4) == 12 && At(s, 372, 4) == 0 && At(s, 376, 4) == 12
              && At(s, 380, 2) == 0x3004 && At(s, 382, 2) == 0
  {
    var s := Sample(size);
    LeUpToFour(s, 364);
    LeUpToFour(s, 368);
    LeUpToFour(s, 372);
    LeUpToFour(s, 376);
    LeUpToFour(s, 380);
    LeUpToFour(s, 382);
    hide At, Sample;
  }

  lemma WideBytesFirst(size: nat)
    requires size in {WHOLE, BROKEN}
    ensures var s := Sample(size);
              && At(s, 384, 3) == 264 && At(s, 387, 1) == SECTION_PE32 && At(s, 388, 2) == 0x5a4d
  {
    var s := Sample(size);
    LeUpToFour(s, 384);
    LeUpToFour(s, 387);
    LeUpToFour(s, 388);
    hide At, Sample;
  }

  lemma WideBytesSecond(size: nat)
    requires size in {WHOLE, BROKEN}
    ensures var s := Sample(size);
              && At(s, 448, 4) == 64 && At(s, 452, 4) == 0x4550 && At(s, 476, 2) == 0x20b
  {
    var s := Sample(size);
    LeUpToFour(s, 448);
    LeUpToFour(s, 452);
    LeUpToFour(s, 476);
    hide At, Sample;
  }

  lemma WideBytes(size: nat)
    requires size in {WHOLE, BROKEN}
    ensures var s := Sample(size);
              && At(s, 384, 3) == 264 && At(s, 387, 1) == SECTION_PE32
              && At(s, 388, 2) == 0x5a4d && At(s, 448, 4) == 64 && At(s, 452, 4) == 0x4550 && At(s, 476, 2) == 0x20b
  {
    WideBytesFirst(size);
    WideBytesSecond(size);
    hide At, Sample;
  }

  lemma WideTableBytesFirst(size: nat)
    requires size in {WHOLE, BROKEN}
    ensures var s := Sample(size);
              && At(s, 628, 4) == 248 && At(s, 632, 4) == 12 && At(s, 636, 4) == 0
  {
    var s := Sample(size);
    LeUpToFour(s, 628);
    LeUpToFour(s, 632);
    LeUpToFour(s, 636);
    hide At, Sample;
  }

  lemma WideTableBytesSecond(size: nat)
    requires size in {WHOLE, BROKEN}
    ensures var s := Sample(size);
              && At(s, 640, 4) == 12 && At(s, 644, 2) == 0xa008 && At(s, 646, 2) == 0x3010
  {
    var s := Sample(size);
    LeUpToFour(s, 640);
    LeUpToFour(s, 644);
    LeUpToFour(s, 646);
    hide At, Sample;
  }

  lemma WideTableBytes(size: nat)
    requires size in {WHOLE, BROKEN}
    ensures var s := Sample(size);
              && At(s, 628, 4) == 248 && At(s, 632, 4) == 12 && At(s, 636, 4) == 0 && At(s, 640, 4) == 12
              && At(s, 644, 2) == 0xa008 && At(s, 646, 2) == 0x3010
  {
    WideTableBytesFirst(size);
    WideTableBytesSecond(size);
    hide At, Sample;
  }

  lemma TeBytesFirst(size: nat)
    requires size in {WHOLE, BROKEN}
    ensures var s := Sample(size);
              && At(s, 648, 3) == 64 && At(s, 651, 1) == SECTION_TE && At(s, 652, 2) == 0x5a56
  {
    var s := Sample(size);
    LeUpToFour(s, 648);
    LeUpToFour(s, 651);
    LeUpToFour(s, 652);
    hide At, Sample;
  }

  lemma TeBytesSecond(size: nat)
    requires size in {WHOLE, BROKEN}
    ensures var s := Sample(size);
              && At(s, 658, 2) == 0x200 && At(s, 676, 4) == 0x200 && At(s, 680, 4) == 12
  {
    var s := Sample(size);
    LeUpToFour(s, 658);
    LeUpToFour(s, 676);
    LeUpToFour(s, 680);
    hide At, Sample;
  }

  lemma TeBytes(size: nat)
    requires size in {WHOLE, BROKEN}
    ensures var s := Sample(size);
              && At(s, 648, 3) == 64 && At(s, 651, 1) == SECTION_TE
              && At(s, 652, 2) == 0x5a56 && At(s, 658, 2) == 0x200 && At(s, 676, 4) == 0x200 && At(s, 680, 4) == 12
  {
    TeBytesFirst(size);
    TeBytesSecond(size);
    hide At, Sample;
  }

  lemma TeTableBytesFirst(size: nat)
    requires size in {WHOLE, BROKEN}
    ensures var s := Sample(size);
              && At(s, 692, 4) == 0x200 && At(s, 696, 4) == 12 && At(s, 700, 2) == 0x300c
  {
    var s := Sample(size);
    LeUpToFour(s, 692);
    LeUpToFour(s, 696);
    LeUpToFour(s, 700);
    hide At, Sample;
  }

  lemma TeTableBytesSecond(size: nat)
    requires size in {WHOLE, BROKEN}
    ensures var s := Sample(size);
              At(s, 702, 2) == 0xa010
  {
    var s := Sample(size);
    LeUpToFour(s, 702);
    hide At, Sample;
  }

  lemma TeTableBytes(size: nat)
    requires size in {WHOLE, BROKEN}
    ensures var s := Sample(size);
              && At(s, 692, 4) == 0x200 && At(s, 696, 4) == 12
              && At(s, 700, 2) == 0x300c && At(s, 702, 2) == 0xa010
  {
    TeTableBytesFirst(size);
    TeTableBytesSecond(size);
    hide At, Sample;
  }

  // ----- What is read and moved

  // A field of the sample apart from everything that is moved.
  predicate Free(f: Field) {
    && f.offset + f.width <= WHOLE
    && Off(f, 112, 4) && Off(f, 144, 4) && Off(f, 152, 4) && Off(f, 160, 4)
    && Off(f, 256, 4) && Off(f, 396, 8) && Off(f, 404, 4) && Off(f, 500, 8)
    && Off(f, 668, 8) && Off(f, 704, 4) && Off(f, 708, 4)
  }

  predicate Off(f: Field, o: nat, width: nat) {
    f.offset + f.width <= o || o + width <= f.offset
  }

  // What a part of the image reads is free, and these are its sites.
  predicate Part(x: Scan, sites: seq<Site>, outcome: Outcome) {
    x.sites == sites && x.outcome == outcome && forall f :: f in x.control ==> Free(f)
  }

  lemma PartThen(x: Scan, xs: seq<Site>, y: Scan, ys: seq<Site>, outcome: Outcome)
    requires Part(x, xs, Done) && Part(y, ys, outcome)
    ensures Part(Then(x, y), xs + ys, outcome)
  {
    hide Free;
  }

  lemma InfoPart(size: nat)
    requires size in {WHOLE, BROKEN}
    ensures var s := Sample(size);
              && SectionsAt(s, 56) == 80 && InfoAt(s, 56) == 84 && Signed(s, 56)
              && Part(Reading(InfoReads(s, 56), Done), [], Done)
  {
    var s := Sample(size);
    FileBytes(size);
    InfoBytes(size);
    hide At, Sample;
    assert InfoReads(s, 56) == [Field(56, 8), Field(64, 8), Field(75, 1), Field(80, 3), Field(83, 1), Field(84, 4)];
  }


  lemma PartBoth(x: seq<Field>, y: seq<Field>)
    requires Part(Reading(x, Done), [], Done) && Part(Reading(y, Done), [], Done)
    ensures Part(Reading(x + y, Done), [], Done)
  {
    hide Free;
  }

  lemma PartSite(x: Site)
    ensures Part(Scan([], [x], Done), [x], Done)
  {
  }

  lemma PartNothing()
    ensures Part(NOTHING, [], Done)
  {
  }

  lemma PartParts(x: Scan, sites: seq<Site>, outcome: Outcome)
    requires Part(x, sites, outcome)
    ensures x.sites == sites && x.outcome == outcome
  {
  }

  // A relocation table of one block with two entries.
  lemma OneBlock(s: seq<byte>, img: Image, o: nat, rva: nat, x: nat, y: nat)
    requires At(s, o, 4) == rva && At(s, o + 4, 4) == 12 && At(s, o + 8, 2) == x && At(s, o + 10, 2) == y
    ensures Blocks(s, img, o, 12) ==
            Then(Reading([Field(o, 4), Field(o + 4, 4)], Done),
                 Then(Then(Entry(img, rva, o + 8, x), Then(Entry(img, rva, o + 10, y), NOTHING)), NOTHING))
  {
    hide At, Then, Entry;
    BlocksUnfold(s, img, o, 12);
    BlocksStop(s, img, o + 12, 0);
    assert Entries(s, img, rva, o + 12, 0) == NOTHING;
    assert Entries(s, img, rva, o + 10, 1) == Then(Entry(img, rva, o + 10, y), NOTHING);
  }

  lemma BlockPart(s: seq<byte>, img: Image, o: nat, rva: nat, x: nat, y: nat, xs: seq<Site>, ys: seq<Site>)
    requires At(s, o, 4) == rva && At(s, o + 4, 4) == 12 && At(s, o + 8, 2) == x && At(s, o + 10, 2) == y
    requires Entry(img, rva, o + 8, x) == Scan([Field(o + 8, 2)], xs, Done)
    requires Entry(img, rva, o + 10, y) == Scan([Field(o + 10, 2)], ys, Done)
    requires Free(Field(o, 4)) && Free(Field(o + 4, 4)) && Free(Field(o + 8, 2)) && Free(Field(o + 10, 2))
    ensures Part(Blocks(s, img, o, 12), xs + ys, Done)
  {
    OneBlock(s, img, o, rva, x, y);
    hide At, Entry, Free, Blocks;
    assert [] + (xs + (ys + []) + []) == xs + ys;
  }

  // What relocation entries name: in a PE image the RVA itself, in a TE image 472 bytes less where 0x200 were stripped.
  lemma EntryExamples()
    ensures Entry(Pe(140), 0, 380, 0x3004) == Scan([Field(380, 2)], [Site(144, 4, Whole)], Done)
    ensures Entry(Pe(140), 0, 382, 0) == Scan([Field(382, 2)], [], Done)
    ensures Entry(Pe(388), 0, 644, 0xa008) == Scan([Field(644, 2)], [Site(396, 8, Whole)], Done)
    ensures Entry(Pe(388), 0, 646, 0x3010) == Scan([Field(646, 2)], [Site(404, 4, Whole)], Done)
    ensures Entry(Te(652, 472), 0x200, 700, 0x300c) == Scan([Field(700, 2)], [Site(704, 4, Terse(652))], Done)
    ensures Entry(Te(652, 472), 0x200, 702, 0xa010) == Scan([Field(702, 2)], [Site(708, 4, Terse(652))], Done)
  {
  }

  lemma PeBlocksAre(s: seq<byte>, pe: nat, d: nat)
    requires PeDirectory(s, pe) == d && At(s, d, 4) < 0x1000 && At(s, d + 4, 4) == 12
    ensures PeBlocks(s, pe) == Then(Reading([Field(d, 4), Field(d + 4, 4)], Done), Blocks(s, Pe(pe), pe + At(s, d, 4), 12))
  {
    hide At, PeDirectory, Then, Blocks;
  }

  lemma FreeFields()
    ensures Free(Field(372, 4)) && Free(Field(376, 4)) && Free(Field(380, 2)) && Free(Field(382, 2))
    ensures Free(Field(636, 4)) && Free(Field(640, 4)) && Free(Field(644, 2)) && Free(Field(646, 2))
    ensures Free(Field(692, 4)) && Free(Field(696, 4)) && Free(Field(700, 2)) && Free(Field(702, 2))
  {
  }

  lemma TeScanIs(s: seq<byte>)
    requires At(s, 652, 2) == 0x5a56 && At(s, 658, 2) == 0x200 && At(s, 676, 4) == 0x200 && At(s, 680, 4) == 12
    ensures TeScan(s, 652) == Then(Scan([Field(652, 2)] + TeReads(652), [Site(668, 8, Terse(652))], Done),
                                   Blocks(s, Te(652, 472), 692, 12))
  {
    hide At, Blocks, Then, TeReads;
    assert TeCut(s, 652) == 472 && Wrap(692) == 692;
  }

  lemma TeHeadPart()
    ensures Part(Scan([Field(652, 2)] + TeReads(652), [Site(668, 8, Terse(652))], Done), [Site(668, 8, Terse(652))], Done)
  {
  }

  lemma FieldsPart(o: nat)
    requires o in {364, 628, 676}
    ensures Part(Reading([Field(o, 4), Field(o + 4, 4)], Done), [], Done)
  {
  }

  lemma PeScanPart(s: seq<byte>, pe: nat, sites: seq<Site>, base: Site)
    requires Signed(s, 56) && Part(Reading(InfoReads(s, 56), Done), [], Done)
    requires PeKnown(s, pe) && PeBase(s, pe) == base && Part(Reading(PeReads(s, pe), Done), [], Done)
    requires Part(PeBlocks(s, pe), sites, Done)
    ensures Part(PeScan(s, pe, 56), sites + [base], Done)
  {
    hide At, PeKnown, PeReads, PeBase, InfoReads, Signed, PeBlocks, Part, Then;
    PartBoth(PeReads(s, pe), InfoReads(s, 56));
    PartSite(base);
    PartThen(PeBlocks(s, pe), sites, Scan([], [base], Done), [base], Done);
    PartThen(Reading(PeReads(s, pe) + InfoReads(s, 56), Done), [],
             Then(PeBlocks(s, pe), Scan([], [base], Done)), sites + [base], Done);
    assert [] + (sites + [base]) == sites + [base];
  }

  lemma PeHeader(size: nat)
    requires size in {WHOLE, BROKEN}
    ensures var s := Sample(size);
              && PeKnown(s, 140) && PeBase(s, 140) == Site(256, 4, Whole) && PeDirectory(s, 140) == 364
              && Part(Reading(PeReads(s, 140), Done), [], Done)
  {
    var s := Sample(size);
    PeBytes(size);
    hide At, Sample;
    assert PeReads(s, 140) == [Field(140, 2), Field(200, 4), Field(204, 4), Field(228, 2)];
  }

  lemma PeTable(size: nat)
    requires size in {WHOLE, BROKEN}
    ensures Part(PeBlocks(Sample(size), 140), [Site(144, 4, Whole)], Done)
  {
    hide *;
    var s := Sample(size);
    PeTableBytes(size);
    PeHeader(size);
    EntryExamples();
    FreeFields();
    BlockPart(s, Pe(140), 372, 0, 0x3004, 0, [Site(144, 4, Whole)], []);
    PeBlocksAre(s, 140, 364);
    assert [Site(144, 4, Whole)] + [] == [Site(144, 4, Whole)];
    assert [] + [Site(144, 4, Whole)] == [Site(144, 4, Whole)];
    FieldsPart(364);
    PartThen(Reading([Field(364, 4), Field(368, 4)], Done), [], Blocks(s, Pe(140), 372, 12),
             [Site(144, 4, Whole)], Done);
  }

  lemma PePart(size: nat)
    requires size in {WHOLE, BROKEN}
    ensures Part(PeScan(Sample(size), 140, 56), [Site(144, 4, Whole), Site(256, 4, Whole)], Done)
  {
    var s := Sample(size);
    InfoPart(size);
    PeHeader(size);
    PeTable(size);
    PeScanPart(s, 140, [Site(144, 4, Whole)], Site(256, 4, Whole));
    assert [Site(144, 4, Whole)] + [Site(256, 4, Whole)] ==
           [Site(144, 4, Whole), Site(256, 4, Whole)];
  }

  lemma WideHeader(size: nat)
    requires size in {WHOLE, BROKEN}
    ensures var s := Sample(size);
              && PeKnown(s, 388) && PeBase(s, 388) == Site(500, 8, Whole) && PeDirectory(s, 388) == 628
              && Part(Reading(PeReads(s, 388), Done), [], Done)
  {
    var s := Sample(size);
    WideBytes(size);
    hide At, Sample;
    assert PeReads(s, 388) == [Field(388, 2), Field(448, 4), Field(452, 4), Field(476, 2)];
  }

  lemma WideTable(size: nat)
    requires size in {WHOLE, BROKEN}
    ensures Part(PeBlocks(Sample(size), 388), [Site(396, 8, Whole), Site(404, 4, Whole)], Done)
  {
    hide *;
    var s := Sample(size);
    WideTableBytes(size);
    WideHeader(size);
    EntryExamples();
    FreeFields();
    BlockPart(s, Pe(388), 636, 0, 0xa008, 0x3010, [Site(396, 8, Whole)], [Site(404, 4, Whole)]);
    PeBlocksAre(s, 388, 628);
    assert [Site(396, 8, Whole)] + [Site(404, 4, Whole)] == [Site(396, 8, Whole), Site(404, 4, Whole)];
    assert [] + [Site(396, 8, Whole), Site(404, 4, Whole)] == [Site(396, 8, Whole), Site(404, 4, Whole)];
    FieldsPart(628);
    PartThen(Reading([Field(628, 4), Field(632, 4)], Done), [], Blocks(s, Pe(388), 636, 12),
             [Site(396, 8, Whole), Site(404, 4, Whole)], Done);
  }

  lemma WidePart(size: nat)
    requires size in {WHOLE, BROKEN}
    ensures Part(PeScan(Sample(size), 388, 56), [Site(396, 8, Whole), Site(404, 4, Whole), Site(500, 8, Whole)], Done)
  {
    var s := Sample(size);
    InfoPart(size);
    WideHeader(size);
    WideTable(size);
    PeScanPart(s, 388, [Site(396, 8, Whole), Site(404, 4, Whole)], Site(500, 8, Whole));
    assert [Site(396, 8, Whole), Site(404, 4, Whole)] + [Site(500, 8, Whole)] ==
           [Site(396, 8, Whole), Site(404, 4, Whole), Site(500, 8, Whole)];
  }

  lemma TePart(size: nat)
    requires size in {WHOLE, BROKEN}
    ensures Part(TeScan(Sample(size), 652), [Site(668, 8, Terse(652)), Site(704, 4, Terse(652)), Site(708, 4, Terse(652))], Done)
  {
    hide *;
    var s := Sample(size);
    TeBytes(size);
    TeTableBytes(size);
    EntryExamples();
    FreeFields();
    TeHeadPart();
    TeScanIs(s);
    BlockPart(s, Te(652, 472), 692, 0x200, 0x300c, 0xa010, [Site(704, 4, Terse(652))], [Site(708, 4, Terse(652))]);
    var head := Scan([Field(652, 2)] + TeReads(652), [Site(668, 8, Terse(652))], Done);
    PartThen(head, [Site(668, 8, Terse(652))], Blocks(s, Te(652, 472), 692, 12), [Site(704, 4, Terse(652))] + [Site(708, 4, Terse(652))], Done);
    assert [Site(668, 8, Terse(652))] + ([Site(704, 4, Terse(652))] + [Site(708, 4, Terse(652))]) ==
           [Site(668, 8, Terse(652)), Site(704, 4, Terse(652)), Site(708, 4, Terse(652))];
  }

  // ----- Sections, files, volumes

  lemma SectionPart(s: seq<byte>, o: nat, next: nat, xs: seq<Site>, ys: seq<Site>)
    requires At(s, o, 3) == next - o < 0xff_ffff && o + 4 < WHOLE && o < next <= WHOLE && IsMultiple(next, 4)
    requires Free(Field(o, 3)) && Free(Field(o + 3, 1))
    requires Part(Executable(s, o, 56), xs, Done) && Part(Sections(s, next, WHOLE, 56), ys, Done)
    ensures Part(Sections(s, o, WHOLE, 56), xs + ys, Done)
  {
    assert SectionReads(s, o) == [Field(o, 3), Field(o + 3, 1)] && SectionSize(s, o) == next - o;
    assert NextSection(s, o) == next && Ignored(Executable(s, o, 56)) == Executable(s, o, 56);
    assert Part(Reading(SectionReads(s, o), Done), [], Done);
    hide At, Free, Executable, Sections, SectionReads, SectionSize, NextSection, Part, Then, Ignored;
    SectionsUnfold(s, o, WHOLE, 56);
    PartThen(Executable(s, o, 56), xs, Sections(s, next, WHOLE, 56), ys, Done);
    PartThen(Reading(SectionReads(s, o), Done), [],
             Then(Executable(s, o, 56), Sections(s, next, WHOLE, 56)), xs + ys, Done);
    assert [] + (xs + ys) == xs + ys;
  }

  lemma Multiples()
    ensures IsMultiple(136, 4) && IsMultiple(384, 4) && IsMultiple(648, 4) && IsMultiple(712, 4) && IsMultiple(712, 8)
  {
    assert 136 == 34 * 4 && 384 == 96 * 4 && 648 == 162 * 4 && 712 == 178 * 4 && 712 == 89 * 8;
  }

  lemma FreeSections()
    ensures forall o :: o in [80, 136, 384, 648] ==> Free(Field(o, 3)) && Free(Field(o + 3, 1))
  {
  }

  lemma ExecutableIs(s: seq<byte>, o: nat)
    requires At(s, o, 3) != 0xff_ffff
    ensures At(s, o + 3, 1) == 0x10 ==> Executable(s, o, 56) == PeScan(s, o + 4, 56)
    ensures At(s, o + 3, 1) == 0x12 ==> Executable(s, o, 56) == TeScan(s, o + 4)
    ensures At(s, o + 3, 1) == 0x19 ==> Executable(s, o, 56) == NOTHING
  {
    hide At, PeScan, TeScan;
  }

  // Sections, last one first.
  lemma SectionsPart(size: nat)
    requires size in {WHOLE, BROKEN}
    ensures Part(Sections(Sample(size), 80, WHOLE, 56),
                 [Site(144, 4, Whole), Site(256, 4, Whole), Site(396, 8, Whole), Site(404, 4, Whole), Site(500, 8, Whole)] + [Site(668, 8, Terse(652)), Site(704, 4, Terse(652)), Site(708, 4, Terse(652))], Done)
  {
    hide *;
    var s := Sample(size);
    InfoBytes(size);
    PeBytes(size);
    WideBytes(size);
    TeBytes(size);
    PePart(size);
    WidePart(size);
    TePart(size);
    Multiples();
    FreeSections();
    SectionTypes();
    ExecutableIs(s, 80);
    ExecutableIs(s, 136);
    ExecutableIs(s, 384);
    ExecutableIs(s, 648);
    PartNothing();
    SectionsStop(s, WHOLE, WHOLE, 56);
    var pe, wide, te := [Site(144, 4, Whole), Site(256, 4, Whole)], [Site(396, 8, Whole), Site(404, 4, Whole), Site(500, 8, Whole)], [Site(668, 8, Terse(652)), Site(704, 4, Terse(652)), Site(708, 4, Terse(652))];
    SectionPart(s, 648, 712, te, []);
    SectionPart(s, 384, 648, wide, te + []);
    SectionPart(s, 136, 384, pe, wide + (te + []));
    SectionPart(s, 80, 136, [], pe + (wide + (te + [])));
    assert [] + (pe + (wide + (te + []))) == pe + wide + te;
    assert pe + wide == [Site(144, 4, Whole), Site(256, 4, Whole), Site(396, 8, Whole), Site(404, 4, Whole), Site(500, 8, Whole)];
  }

  lemma SectionTypes()
    ensures SECTION_RAW == 0x19 && SECTION_PE32 == 0x10 && SECTION_TE == 0x12 && WHOLE == 712 && BROKEN == 760
  {
  }

  function Moved(): seq<Site> {
    [Site(144, 4, Whole), Site(256, 4, Whole), Site(396, 8, Whole), Site(404, 4, Whole), Site(500, 8, Whole)]
    + [Site(668, 8, Terse(652)), Site(704, 4, Terse(652)), Site(708, 4, Terse(652))]
  }

  lemma FilesPart(size: nat)
    requires size in {WHOLE, BROKEN}
    ensures var w := Files(Sample(size), 56, WHOLE, 0);
              Part(w.scan, Moved(), Done) && w.first == 56
  {
    var s := Sample(size);
    SectionsPart(size);
    InfoPart(size);
    FileHeader(size);
    FilesStop(s, WHOLE, WHOLE, 56);
    hide At, Sample, Part, Then, Sections, SectionsAt, FileReads, NextFile, Signed, InfoReads, InfoAt, Files;
    var moved := Moved();
    PartThen(Reading(FileReads(s, 56), Done), [], Sections(s, 80, WHOLE, 56), moved, Done);
    hide Moved;
    assert FileScan(s, 56, 0) == Then(Reading(FileReads(s, 56), Done), Sections(s, 80, WHOLE, 56));
    PartParts(FileScan(s, 56, 0), [] + moved, Done);
    FilesUnfold(s, 56, WHOLE, 0);
    PartNothing();
    PartThen(FileScan(s, 56, 0), [] + moved, NOTHING, [], Done);
    assert [] + moved + [] == moved;
  }

  lemma FileHeader(size: nat)
    requires size in {WHOLE, BROKEN}
    ensures var s := Sample(size);
              At(s, 74, 1) == 1 && NextFile(s, 56) == WHOLE && Part(Reading(FileReads(s, 56), Done), [], Done)
  {
    FileBytes(size);
    Multiples();
    hide At, Sample;
  }

  lemma VolumePart(size: nat)
    requires size in {WHOLE, BROKEN}
    ensures var w := Volume(Sample(size), 0, 0);
              Part(w.scan, Moved(), Done) && w.first == 56 && VolumeLength(Sample(size), 0) == WHOLE
  {
    var s := Sample(size);
    FilesPart(size);
    VolumeHeader(size);
    hide At, Sample, Part, Then, Files, VolumeReads, VolumeFits, VolumeGuid, VolumeLength, FilesAt, Moved;
    PartThen(Reading(VolumeReads(s, 0), Done), [], Files(s, 56, WHOLE, 0).scan, Moved(), Done);
    assert [] + Moved() == Moved();
  }

  lemma VolumeHeader(size: nat)
    requires size in {WHOLE, BROKEN}
    ensures var s := Sample(size);
              && VolumeFits(s, 0) && VolumeGuid(s, 16) && FilesAt(s, 0) == 56 && VolumeLength(s, 0) == WHOLE
              && Part(Reading(VolumeReads(s, 0), Done), [], Done)
  {
    VolumeBytes(size);
    var s := Sample(size);
    hide At, Sample, VolumeGuid;
    assert VolumeReads(s, 0) == [Field(40, 4), Field(32, 8), Field(16, 8), Field(24, 8), Field(52, 2), Field(48, 2)];
  }

  lemma RemainingPart(size: nat)
    requires size in {WHOLE, BROKEN}
    ensures size == WHOLE ==> Part(Remaining(Sample(size), 56), [Site(112, 4, Whole)] + Patched(), Done)
  {
    var s := Sample(size);
    InfoPart(size);
    TablesPart(size);
    InfoBytes(size);
    if size == WHOLE {
      hide At, Sample, Part, Then, Tables, InfoReads, InfoAt, Patched;
      var head := Scan(InfoReads(s, 56) + [Field(88, 4)], [Site(112, 4, Whole)], Done);
      assert Part(head, [Site(112, 4, Whole)], Done) by { PartHead(InfoReads(s, 56)); }
      PartThen(head, [Site(112, 4, Whole)], Tables(s, 116), Patched(), Done);
    }
  }

  function Patched(): seq<Site> {
    [Site(152, 4, Whole), Site(160, 4, Whole)]
  }

  lemma PartHead(x: seq<Field>)
    requires Part(Reading(x, Done), [], Done)
    ensures Part(Scan(x + [Field(88, 4)], [Site(112, 4, Whole)], Done), [Site(112, 4, Whole)], Done)
  {
  }

  // A patch entry counts from the front, or with bit 31 from 16 MiB before the end.
  lemma PatchExamples()
    ensures Patch(712, 128, 152) == Scan([Field(128, 4)], [Site(152, 4, Whole)], Done)
    ensures Patch(712, 132, 0x80FF_FDD8) == Scan([Field(132, 4)], [Site(160, 4, Whole)], Done)
  {
  }

  lemma TablesPart(size: nat)
    requires size in {WHOLE, BROKEN}
    ensures size == WHOLE ==> Part(Tables(Sample(size), 116), Patched(), Done)
  {
    var s := Sample(size);
    TableBytes(size);
    if size == WHOLE {
      PatchExamples();
      hide At, Sample, Patch;
      TablesAre(s);
    }
  }

  lemma TablesAre(s: seq<byte>)
    requires |s| == 712 && At(s, 116, 4) == FSPP_SIGNATURE && At(s, 120, 2) == 12 && At(s, 124, 4) == 2
    requires Patch(712, 128, At(s, 128, 4)) == Scan([Field(128, 4)], [Site(152, 4, Whole)], Done)
    requires Patch(712, 132, At(s, 132, 4)) == Scan([Field(132, 4)], [Site(160, 4, Whole)], Done)
    ensures Part(Tables(s, 116), Patched(), Done)
  {
    hide At, Patch;
    var x, y := Patch(712, 128, At(s, 128, 4)), Patch(712, 132, At(s, 132, 4));
    assert Patches(s, 136, 0) == NOTHING;
    assert Patches(s, 132, 1) == Then(y, NOTHING);
    assert Patches(s, 128, 2) == Then(x, Then(y, NOTHING));
    assert PatchTable(s, 116) == Then(Reading([Field(120, 2), Field(124, 4)], Done), Then(x, Then(y, NOTHING)));
    assert Tables(s, 116) == Then(Reading([Field(116, 4)], Done), PatchTable(s, 116));
  }

  // ----- The two images

  lemma WholeParts()
    ensures var s := Sample(WHOLE);
              && InfoFile(s) == 56 && Volumes(s, 0, 0).scan.outcome == Done && Volumes(s, 0, 0).scan.sites == Moved()
              && Part(Everything(s), Moved() + [Site(112, 4, Whole)] + Patched(), Done)
  {
    hide *;
    var s := Sample(WHOLE);
    WholeVolumes();
    FileIs(s);
    RemainingPart(WHOLE);
    var base, rest := Moved(), [Site(112, 4, Whole)] + Patched();
    PartThen(Volumes(s, 0, 0).scan, base, Remaining(s, 56), rest, Done);
    assert base + rest == base + [Site(112, 4, Whole)] + Patched();
  }

  lemma FileIs(s: seq<byte>)
    ensures InfoFile(s) == Volumes(s, 0, 0).first
    ensures Everything(s) == Then(Volumes(s, 0, 0).scan, Remaining(s, InfoFile(s)))
  {
    hide Volumes, Remaining, Then;
  }

  lemma WholeVolumes()
    ensures var w := Volumes(Sample(WHOLE), 0, 0);
              w.first == 56 && w.scan.outcome == Done && w.scan.sites == Moved() && Part(w.scan, Moved(), Done)
  {
    hide *;
    var s, base := Sample(WHOLE), Moved();
    VolumePart(WHOLE);
    SectionTypes();
    VolumesUnfold(s, 0, 0);
    VolumesUnfold(s, WHOLE, 56);
    PartNothing();
    PartParts(Volume(s, 0, 0).scan, base, Done);
    PartThen(Volume(s, 0, 0).scan, base, NOTHING, [], Done);
    assert base + [] == base;
    AndThenIs(Volume(s, 0, 0).scan, Walk(NOTHING, 56));
    PartParts(Then(Volume(s, 0, 0).scan, NOTHING), base, Done);
  }

  lemma AndThenIs(x: Scan, y: Walk)
    ensures AndThen(x, y) == Walk(Then(x, y.scan), y.first)
  {
  }

  lemma BrokenParts()
    ensures var s := Sample(BROKEN);
              && InfoFile(s) == 56 && Everything(s) == Volumes(s, 0, 0).scan && Everything(s).outcome == Failed
              && Everything(s).sites == Moved()
              && forall f :: f in Everything(s).control ==> Free(f) || f in [Field(752, 4), Field(744, 8)]
  {
    var s := Sample(BROKEN);
    VolumePart(BROKEN);
    VolumesUnfold(s, 0, 0);
    VolumesUnfold(s, WHOLE, 56);
    NoVolume();
    hide Sample, Volume, Volumes, VolumeLength, Remaining, Then, Part, Moved;
    PartFails(Volume(s, 0, 0).scan, Moved(), [Field(752, 4), Field(744, 8)], Remaining(s, 56));
    PartParts(Volume(s, 0, 0).scan, Moved(), Done);
  }

  lemma PartFails(x: Scan, sites: seq<Site>, control: seq<Field>, y: Scan)
    requires Part(x, sites, Done)
    ensures var z := Then(x, Reading(control, Failed));
              && Then(z, y) == z && z.sites == sites && z.outcome == Failed
              && forall f :: f in z.control ==> Free(f) || f in control
  {
    hide Free;
  }

  lemma NoVolume()
    ensures Volume(Sample(BROKEN), WHOLE, 56) == Walk(Reading([Field(752, 4), Field(744, 8)], Failed), 56)
  {
    LeUpToFour(Sample(BROKEN), 752);
    hide Sample, At, VolumeGuid, VolumeLength;
  }

  lemma SampleInfo(size: nat)
    requires size in {WHOLE, BROKEN} && InfoFile(Sample(size)) == 56
    ensures var s := Sample(size);
              && Named(s, 56) && BaseAt(s, 56) == 112 && Base(s) == 0x1_0000
              && forall f :: f in InfoReads(s, 56) ==> Free(f)
  {
    InfoPart(size);
    InfoBytes(size);
    hide At, Sample, InfoReads, SectionsAt, Free, InfoFile;
  }

  // All that is moved in the first image; the second has all but the last three.
  function AllMoved(): seq<Site> {
    [Site(144, 4, Whole), Site(256, 4, Whole), Site(396, 8, Whole), Site(404, 4, Whole), Site(500, 8, Whole),
     Site(668, 8, Terse(652)), Site(704, 4, Terse(652)), Site(708, 4, Terse(652)),
     Site(112, 4, Whole), Site(152, 4, Whole), Site(160, 4, Whole)]
  }

  lemma MovedAre()
    ensures AllMoved() == Moved() + [Site(112, 4, Whole)] + Patched() && Moved() == AllMoved()[..8]
  {
  }

  lemma FreeIsClear(f: Field, n: nat, size: nat)
    requires Free(f) && size >= WHOLE && n in {8, 11}
    ensures Clear(f, AllMoved()[..n], size)
  {
    var sites := AllMoved();
    assert sites == AllMoved()[..11];
    forall p | p in Places(sites[..n])
      ensures Beside(p, f.offset, f.offset + f.width)
    {
      var i :| 0 <= i < n && Places(sites[..n])[i] == p;
      assert p == Edit(sites[i].offset, sites[i].width, 0);
    }
  }

  lemma SitesInOrder(n: nat, size: nat)
    requires size >= WHOLE && n in {8, 11}
    ensures AllInside(Places(AllMoved()[..n]), size) && AllApart(Places(AllMoved()[..n]))
  {
    var sites := AllMoved();
    forall i, j | 0 <= i < j < n
      ensures Beside(Places(sites[..n])[i], sites[j].offset, sites[j].offset + sites[j].width)
    {
      assert Places(sites[..n])[i] == Edit(sites[i].offset, sites[i].width, 0);
    }
  }

  lemma WellFormedFrom(s: seq<byte>, n: nat)
    requires WHOLE <= |s| < MOD32 && n in {8, 11} && Everything(s).outcome != Endless && Everything(s).sites == AllMoved()[..n]
    requires forall f :: f in Everything(s).control ==> Clear(f, AllMoved()[..n], |s|)
    requires InfoFile(s) == 56 && BaseAt(s, 56) == 112 && Volumes(s, 0, 0).scan.sites == AllMoved()[..8]
    requires forall f :: f in InfoReads(s, 56) ==> Clear(f, AllMoved()[..n], |s|)
    ensures WellFormed(s)
  {
    SitesInOrder(n, |s|);
    BaseFieldIsClear(|s|);
    hide Everything, InfoFile, BaseAt, Volumes, InfoReads, Clear, Named, AllMoved, AllInside, AllApart, Places;
  }

  lemma BaseFieldIsClear(size: nat)
    requires size >= WHOLE
    ensures Clear(Field(112, 4), AllMoved()[..8], size)
  {
    var sites := AllMoved()[..8];
    forall p | p in Places(sites)
      ensures Beside(p, 112, 116)
    {
      var i :| 0 <= i < 8 && Places(sites)[i] == p;
      assert p == Edit(sites[i].offset, sites[i].width, 0);
    }
  }

  /**
   The image is one that relocation is meant for, the run finds the information header, and these numbers are moved: two of
   the PE32 image, three of the PE32+ image, three of the TE image, the header's base and two patched words.
   */
  lemma SampleIsFound()
    ensures var s := Sample(WHOLE);
              && WellFormed(s) && Finds(s) && Base(s) == 0x1_0000
              && Everything(s).sites ==
                 [Site(144, 4, Whole), Site(256, 4, Whole), Site(396, 8, Whole), Site(404, 4, Whole), Site(500, 8, Whole),
                  Site(668, 8, Terse(652)), Site(704, 4, Terse(652)), Site(708, 4, Terse(652)),
                  Site(112, 4, Whole), Site(152, 4, Whole), Site(160, 4, Whole)]
  {
    var s := Sample(WHOLE);
    WholeParts();
    SampleInfo(WHOLE);
    MovedAre();
    assert AllMoved()[..11] == AllMoved();
    PartFields(Everything(s), AllMoved(), Done);
    hide Sample, Volumes, Everything, InfoReads, Named, BaseAt, InfoFile, Base, Clear, Free, WellFormed, Part, Moved, Patched;
    forall f | Free(f)
      ensures Clear(f, AllMoved()[..11], |s|)
    {
      FreeIsClear(f, 11, |s|);
    }
    WellFormedFrom(s, 11);
  }

  lemma PartFields(x: Scan, sites: seq<Site>, outcome: Outcome)
    requires Part(x, sites, outcome)
    ensures x.sites == sites && x.outcome == outcome && forall f :: f in x.control ==> Free(f)
  {
  }

  lemma BehindIsClear(f: Field)
    requires f in [Field(752, 4), Field(744, 8)]
    ensures Clear(f, AllMoved()[..8], BROKEN)
  {
    var sites := AllMoved()[..8];
    forall p | p in Places(sites)
      ensures Beside(p, f.offset, f.offset + f.width)
    {
      var i :| 0 <= i < 8 && Places(sites)[i] == p;
      assert p == Edit(sites[i].offset, sites[i].width, 0);
    }
  }

  lemma BrokenIsWellFormed()
    ensures var s := Sample(BROKEN);
              WellFormed(s) && !Finds(s) && Base(s) == 0x1_0000 && Everything(s).sites == AllMoved()[..8]
  {
    var s := Sample(BROKEN);
    BrokenParts();
    SampleInfo(BROKEN);
    MovedAre();
    hide Sample, Volumes, Everything, InfoReads, Named, BaseAt, InfoFile, Base, Clear, Free, WellFormed, Moved, AllMoved;
    forall f | Free(f) || f in [Field(752, 4), Field(744, 8)]
      ensures Clear(f, AllMoved()[..8], |s|)
    {
      if Free(f) {
        FreeIsClear(f, 8, |s|);
      } else {
        BehindIsClear(f);
      }
    }
    WellFormedFrom(s, 8);
  }

  /** An image whose second volume is broken: repeating the failed run to address 0 moves the executables again. */
  lemma RepeatExample()
    ensures var s := Sample(BROKEN);
              && WellFormed(s) && !Finds(s) && WellFormed(Relocated(s, 0))
              && Relocated(Relocated(s, 0), 0) != Relocated(s, 0)
  {
    var s := Sample(BROKEN);
    BrokenIsWellFormed();
    FailedRunRepeats(s, 0);
    hide Sample, WellFormed, Everything, Base, Relocated, Finds;
    assert Everything(s).sites[0] == Site(144, 4, Whole);
    assert Mod64(0 - 0x1_0000) % Modulus(4) != 0;
  }

  // ----- Headers that the sample does not have

  /** A padding file holds nothing to move, and a file type of 0xff ends the volume. */
  lemma SpecialFiles(s: seq<byte>, file: nat, end: nat, first: nat)
    ensures At(s, file + 18, 1) == 0xf0 ==> FileScan(s, file, first).sites == [] && FileScan(s, file, first).outcome == Done
    ensures At(s, file + 18, 1) == 0xff && file + 24 < end ==>
              Files(s, file, end, first).scan.sites == [] && Files(s, file, end, first).scan.outcome == Done
  {
    hide At, Sections, NextFile, SectionsAt;
  }

  /** With the lowest attribute bit a file has 8 bytes more of header, and its size in the first four of them. */
  lemma LargeFile(s: seq<byte>, file: nat)
    ensures At(s, file + 19, 1) % 2 == 1 ==> SectionsAt(s, file) == file + 32 && FileSize(s, file) == At(s, file + 24, 4)
    ensures At(s, file + 19, 1) % 2 == 0 ==> SectionsAt(s, file) == file + 24 && FileSize(s, file) == At(s, file + 20, 3)
    ensures NextFile(s, file) % 8 == 0 && file + FileSize(s, file) <= NextFile(s, file) < file + FileSize(s, file) + 8
  {
    hide At;
    var next := NextFile(s, file);
    var q: int :| next == q * 8;
  }

  /** A section whose three size bytes are ff has its size in four more. */
  lemma LargeSection(s: seq<byte>, o: nat)
    ensures At(s, o, 3) == 0xff_ffff ==> DataAt(s, o) == o + 8 && SectionSize(s, o) == At(s, o + 4, 4)
    ensures At(s, o, 3) != 0xff_ffff ==> DataAt(s, o) == o + 4 && SectionSize(s, o) == At(s, o, 3)
    ensures NextSection(s, o) % 4 == 0 && o + SectionSize(s, o) <= NextSection(s, o) < o + SectionSize(s, o) + 4
  {
    hide At;
    var next := NextSection(s, o);
    var q: int :| next == q * 4;
  }

  /** The first file is behind the volume's header, or behind the extended header if there is one, at a multiple of 8. */
  lemma FirstFileAt(s: seq<byte>, o: nat)
    ensures At(s, o + 52, 2) == 0 ==> FilesAt(s, o) == o + At(s, o + 48, 2)
    ensures At(s, o + 52, 2) != 0 ==>
              var end := o + At(s, o + 52, 2) + At(s, o + At(s, o + 52, 2) + 16, 4);
                FilesAt(s, o) % 8 == 0 && end <= FilesAt(s, o) < end + 8
  {
    hide At;
    if At(s, o + 52, 2) != 0 {
      var q: int :| FilesAt(s, o) == q * 8;
    }
  }

  /** Behind the signature of a patch table come its length at 4 and the number of its entries at 8; they begin at 12. */
  lemma TablesAt(s: seq<byte>, o: nat)
    requires o + 12 <= |s|
    ensures At(s, o, 4) == 0x5050_5346 && o + At(s, o + 4, 2) <= |s| ==> Tables(s, o).sites == Patches(s, o + 12, At(s, o + 8, 4)).sites
    ensures At(s, o, 4) != 0x5050_5346 && At(s, o + 4, 4) != 0 ==> Tables(s, o).sites == Tables(s, o + At(s, o + 4, 4)).sites
  {
    hide At, Patches;
  }
}
