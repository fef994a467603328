/**
 What an FSP image says about its own relocation: which fields are read to find the way through volumes, files, sections
 and tables, and which numbers are to be moved.
 */
module FspSites {
  import opened Arith
  import opened Buffers
  import opened FspBytes

  datatype Field = Field(offset: nat, width: nat)

  // What a number is moved by: the distance of the whole image, or that of the TE image whose header is given.
  datatype Owner = Whole | Terse(header: nat)

  datatype Site = Site(offset: nat, width: nat, owner: Owner)

  // Endless: a length of zero, or one too small for its own header, on which a loop does not advance.
  datatype Outcome = Done | Failed | Endless

  datatype Scan = Scan(control: seq<Field>, sites: seq<Site>, outcome: Outcome)

  // A scan of volumes and the first file seen, 0 if none.
  datatype Walk = Walk(scan: Scan, first: nat)

  // An executable: PE32 or PE32+, or terse with the number of bytes cut off its front.
  datatype Image = Pe(at: nat) | Te(at: nat, cut: int)

  const SECTION_PE32: nat := 0x10
  const SECTION_TE: nat := 0x12
  const SECTION_RAW: nat := 0x19
  const FILE_PAD: nat := 0xf0
  const FILE_MAX: nat := 0xff
  const FVH_SIGNATURE: nat := 0x4856_465f
  const FSPH_SIGNATURE: nat := 0x4850_5346
  const FSPP_SIGNATURE: nat := 0x5050_5346
  const SIXTEEN_MIB: nat := 0x100_0000

  // An unsigned little-endian number in the image; nothing is promised outside.
  function At(s: seq<byte>, o: nat, width: nat): nat {
    if o + width <= |s| then Le(s, o, width) else 0
  }

  // Address arithmetic in 64 bits.
  function Wrap(x: int): nat {
    x % MOD64
  }

  const NOTHING := Scan([], [], Done)

  function Reading(control: seq<Field>, outcome: Outcome): Scan {
    Scan(control, [], outcome)
  }

  function Then(x: Scan, y: Scan): Scan {
    if x.outcome == Done then Scan(x.control + y.control, x.sites + y.sites, y.outcome) else x
  }

  // Callers that ignore an error go on.
  function Ignored(x: Scan): Scan {
    if x.outcome == Failed then x.(outcome := Done) else x
  }

  // ----- Relocation entries

  function Type(entry: nat): nat {
    entry / 0x1000
  }

  // Width of the number an entry names; 0 for padding, none if the type is not known.
  function WidthOf(img: Image, entry: nat): int {
    match Type(entry)
    case 0 => 0
    case 3 => 4
    case 10 => if img.Pe? then 8 else 4
    case _ => -1
  }

  function Place(img: Image, rva: nat, entry: nat): nat {
    match img
    case Pe(at) => at + (rva + entry % 0x1000) % MOD32
    case Te(at, cut) => Wrap(at - cut + rva + entry % 0x1000)
  }

  function OwnerOf(img: Image): Owner {
    if img.Pe? then Whole else Terse(img.at)
  }

  function Entry(img: Image, rva: nat, o: nat, entry: nat): Scan {
    var w := WidthOf(img, entry);
    Scan([Field(o, 2)], if w > 0 then [Site(Place(img, rva, entry), w, OwnerOf(img))] else [],
         if w < 0 then Failed else Done)
  }

  function Entries(s: seq<byte>, img: Image, rva: nat, o: nat, n: nat): Scan
    decreases n
  {
    if n == 0 then NOTHING else
    Then(Entry(img, rva, o, At(s, o, 2)), Entries(s, img, rva, o + 2, n - 1))
  }

  // How far on the next block starts: a PE image counts the entries, a TE image takes the size.
  function Step(img: Image, size: nat): nat {
    if img.Pe? && size >= 8 then 8 + (size - 8) / 2 * 2 else size
  }

  function Blocks(s: seq<byte>, img: Image, o: nat, left: int): Scan
    decreases left
  {
    var size := At(s, o + 4, 4);
    if left <= 0 then NOTHING
    else if size < 8 then Reading([Field(o, 4), Field(o + 4, 4)], Endless)
    else
      Then(Reading([Field(o, 4), Field(o + 4, 4)], Done),
           Then(Entries(s, img, At(s, o, 4), o + 8, (size - 8) / 2),
                Blocks(s, img, o + Step(img, size), left - Step(img, size))))
  }

  // ----- The information header

  function SectionsAt(s: seq<byte>, file: nat): nat {
    file + if At(s, file + 19, 1) % 2 == 1 then 32 else 24
  }

  function DataAt(s: seq<byte>, section: nat): nat {
    section + if At(s, section, 3) == 0xff_ffff then 8 else 4
  }

  function InfoAt(s: seq<byte>, file: nat): nat {
    DataAt(s, SectionsAt(s, file))
  }

  function BaseAt(s: seq<byte>, file: nat): nat {
    InfoAt(s, file) + 28
  }

  predicate InfoGuid(s: seq<byte>, o: nat) {
    At(s, o, 8) == 0x4734_2284_9127_40be && At(s, o + 8, 8) == 0x0c3f_3527_b084_71b9
  }

  predicate Named(s: seq<byte>, file: nat) {
    file != 0 && InfoGuid(s, file) && At(s, SectionsAt(s, file) + 3, 1) == SECTION_RAW
  }

  predicate Signed(s: seq<byte>, file: nat) {
    Named(s, file) && At(s, InfoAt(s, file), 4) == FSPH_SIGNATURE
  }

  function InfoReads(s: seq<byte>, file: nat): seq<Field> {
    [Field(file, 8), Field(file + 8, 8), Field(file + 19, 1), Field(SectionsAt(s, file), 3),
     Field(SectionsAt(s, file) + 3, 1)]
    + if Named(s, file) then [Field(InfoAt(s, file), 4)] else []
  }

  // ----- Executables

  function NtAt(s: seq<byte>, pe: nat): nat {
    pe + At(s, pe + 0x3c, 4)
  }

  predicate PeKnown(s: seq<byte>, pe: nat) {
    && At(s, pe, 2) == 0x5a4d
    && At(s, NtAt(s, pe), 4) == 0x4550
    && At(s, NtAt(s, pe) + 24, 2) in {0x10b, 0x20b}
  }

  function PeReads(s: seq<byte>, pe: nat): seq<Field> {
    [Field(pe, 2)]
    + if At(s, pe, 2) != 0x5a4d then [] else
      [Field(pe + 0x3c, 4), Field(NtAt(s, pe), 4)]
      + if At(s, NtAt(s, pe), 4) != 0x4550 then [] else [Field(NtAt(s, pe) + 24, 2)]
  }

  predicate Wide(s: seq<byte>, pe: nat) {
    At(s, NtAt(s, pe) + 24, 2) == 0x20b
  }

  // The field that says where a PE image is linked.
  function PeBase(s: seq<byte>, pe: nat): Site {
    if Wide(s, pe) then Site(NtAt(s, pe) + 48, 8, Whole) else Site(NtAt(s, pe) + 52, 4, Whole)
  }

  function PeDirectory(s: seq<byte>, pe: nat): nat {
    NtAt(s, pe) + if Wide(s, pe) then 176 else 160
  }

  // The table's end is computed in 32 bits.
  function Extent(start: nat, size: nat): int {
    (start + size) % MOD32 - start
  }

  function PeBlocks(s: seq<byte>, pe: nat): Scan {
    var d := PeDirectory(s, pe);
    var start, size := At(s, d, 4), At(s, d + 4, 4);
    Then(Reading([Field(d, 4), Field(d + 4, 4)], Done),
         Blocks(s, Pe(pe), pe + start, Extent(start, size)))
  }

  function PeScan(s: seq<byte>, pe: nat, file: nat): Scan {
    if !PeKnown(s, pe) then Reading(PeReads(s, pe), Failed)
    else if file == 0 then Reading(PeReads(s, pe), Failed)
    else if !Signed(s, file) then Reading(PeReads(s, pe) + InfoReads(s, file), Failed)
    else
      Then(Reading(PeReads(s, pe) + InfoReads(s, file), Done),
           Then(PeBlocks(s, pe), Scan([], [PeBase(s, pe)], Done)))
  }

  function TeCut(s: seq<byte>, te: nat): int {
    At(s, te + 6, 2) - 40
  }

  function TeReads(te: nat): seq<Field> {
    [Field(te + 6, 2), Field(te + 24, 4), Field(te + 28, 4)]
  }

  function TeScan(s: seq<byte>, te: nat): Scan {
    if At(s, te, 2) != 0x5a56 then Reading([Field(te, 2)], Failed)
    else
      Then(Scan([Field(te, 2)] + TeReads(te), [Site(te + 16, 8, Terse(te))], Done),
           Blocks(s, Te(te, TeCut(s, te)), Wrap(te + At(s, te + 24, 4) - TeCut(s, te)), At(s, te + 28, 4)))
  }

  // ----- Sections, files, volumes

  function SectionSize(s: seq<byte>, o: nat): nat {
    if At(s, o, 3) == 0xff_ffff then At(s, o + 4, 4) else At(s, o, 3)
  }

  function SectionReads(s: seq<byte>, o: nat): seq<Field> {
    [Field(o, 3), Field(o + 3, 1)] + if At(s, o, 3) == 0xff_ffff then [Field(o + 4, 4)] else []
  }

  function Executable(s: seq<byte>, o: nat, file: nat): Scan {
    if At(s, o + 3, 1) == SECTION_TE then TeScan(s, DataAt(s, o))
    else if At(s, o + 3, 1) == SECTION_PE32 then PeScan(s, DataAt(s, o), file)
    else NOTHING
  }

  function Sections(s: seq<byte>, o: nat, end: nat, file: nat): Scan
    decreases end - o
  {
    var next := AlignUp(o + SectionSize(s, o), 4);
    if o + 4 >= end then NOTHING
    else if o + SectionSize(s, o) > end then Reading(SectionReads(s, o), Failed)
    else if next <= o then Reading(SectionReads(s, o), Endless)
    else
      Then(Reading(SectionReads(s, o), Done), Then(Ignored(Executable(s, o, file)), Sections(s, next, end, file)))
  }

  function FileSize(s: seq<byte>, file: nat): nat {
    if At(s, file + 19, 1) % 2 == 1 then At(s, file + 24, 4) else At(s, file + 20, 3)
  }

  function FileReads(s: seq<byte>, file: nat): seq<Field> {
    [Field(file + 18, 1), Field(file + 19, 1),
     if At(s, file + 19, 1) % 2 == 1 then Field(file + 24, 4) else Field(file + 20, 3)]
  }

  // The first file of the image holds the information header.
  function FirstFile(first: nat, file: nat): nat {
    if first == 0 then file else first
  }

  function NextFile(s: seq<byte>, file: nat): nat {
    AlignUp(file + FileSize(s, file), 8)
  }

  function FileScan(s: seq<byte>, file: nat, first: nat): Scan {
    Then(Reading(FileReads(s, file), Done),
         if At(s, file + 18, 1) == FILE_PAD then NOTHING
         else Sections(s, SectionsAt(s, file), NextFile(s, file), FirstFile(first, file)))
  }

  function AndThen(x: Scan, y: Walk): Walk {
    Walk(Then(x, y.scan), y.first)
  }

  function Files(s: seq<byte>, file: nat, end: nat, first: nat): Walk
    decreases end - file
  {
    var first' := FirstFile(first, file);
    if file + 24 >= end then Walk(NOTHING, first)
    else if At(s, file + 18, 1) == FILE_MAX then Walk(Reading([Field(file + 18, 1)], Done), first')
    else if NextFile(s, file) <= file then Walk(Reading(FileReads(s, file), Endless), first')
    else if FileScan(s, file, first).outcome != Done then Walk(FileScan(s, file, first), first')
    else AndThen(FileScan(s, file, first), Files(s, NextFile(s, file), end, first'))
  }

  predicate VolumeGuid(s: seq<byte>, o: nat) {
    At(s, o, 8) == 0x4f1c_8a3d_8c8c_e578 && At(s, o + 8, 8) == 0xd32d_c385_6189_3599
  }

  function VolumeLength(s: seq<byte>, o: nat): nat {
    At(s, o + 32, 8)
  }

  // Signature and length are right and the length fits: then the rest of the header is looked at.
  predicate VolumeFits(s: seq<byte>, o: nat) {
    At(s, o + 40, 4) == FVH_SIGNATURE && o + VolumeLength(s, o) <= |s|
  }

  function ExtendedAt(s: seq<byte>, o: nat): nat {
    o + At(s, o + 52, 2)
  }

  function FilesAt(s: seq<byte>, o: nat): nat {
    if At(s, o + 52, 2) != 0 then AlignUp(ExtendedAt(s, o) + At(s, ExtendedAt(s, o) + 16, 4), 8)
    else o + At(s, o + 48, 2)
  }

  function VolumeReads(s: seq<byte>, o: nat): seq<Field> {
    [Field(o + 40, 4), Field(o + 32, 8)]
    + if !VolumeFits(s, o) then [] else
      [Field(o + 16, 8), Field(o + 24, 8)]
      + if !VolumeGuid(s, o + 16) then [] else
        [Field(o + 52, 2)]
        + if At(s, o + 52, 2) != 0 then [Field(ExtendedAt(s, o) + 16, 4)] else [Field(o + 48, 2)]
  }

  function Volume(s: seq<byte>, o: nat, first: nat): Walk {
    if !VolumeFits(s, o) || !VolumeGuid(s, o + 16) then Walk(Reading(VolumeReads(s, o), Failed), first)
    else AndThen(Reading(VolumeReads(s, o), Done), Files(s, FilesAt(s, o), o + VolumeLength(s, o), first))
  }

  function Volumes(s: seq<byte>, o: nat, first: nat): Walk
    decreases |s| - o
  {
    var v := Volume(s, o, first);
    if o >= |s| then Walk(NOTHING, first)
    else if v.scan.outcome != Done then v
    else if VolumeLength(s, o) == 0 then Walk(v.scan.(outcome := Failed), v.first)
    else AndThen(v.scan, Volumes(s, o + VolumeLength(s, o), v.first))
  }

  // ----- The information header's tables

  // Where a patch entry points, or -1 if not to a word inside the image.
  function PatchPlace(size: nat, entry: nat): int {
    var low := entry % SIXTEEN_MIB;
    var o := if entry / 0x8000_0000 % 2 == 1 then size - (SIXTEEN_MIB - low) else low;
    if 0 <= o <= size - 4 then o else -1
  }

  function Patch(size: nat, o: nat, entry: nat): Scan {
    var p := PatchPlace(size, entry);
    Scan([Field(o, 4)], if p >= 0 then [Site(p, 4, Whole)] else [], Done)
  }

  function Patches(s: seq<byte>, o: nat, n: nat): Scan
    decreases n
  {
    if n == 0 then NOTHING else
    Then(Patch(|s|, o, At(s, o, 4)), Patches(s, o + 4, n - 1))
  }

  function PatchTable(s: seq<byte>, o: nat): Scan {
    if o + 12 > |s| then Reading([], Failed)
    else if At(s, o + 4, 2) + o > |s| then Reading([Field(o + 4, 2)], Failed)
    else Then(Reading([Field(o + 4, 2), Field(o + 8, 4)], Done), Patches(s, o + 12, At(s, o + 8, 4)))
  }

  function Tables(s: seq<byte>, o: nat): Scan
    decreases |s| - o
  {
    if o + 8 > |s| then Reading([], Failed)
    else if At(s, o, 4) == FSPP_SIGNATURE then Then(Reading([Field(o, 4)], Done), PatchTable(s, o))
    else if At(s, o + 4, 4) == 0 then Reading([Field(o, 4), Field(o + 4, 4)], Endless)
    else Then(Reading([Field(o, 4), Field(o + 4, 4)], Done), Tables(s, o + At(s, o + 4, 4)))
  }

  function Remaining(s: seq<byte>, file: nat): Scan {
    if file == 0 then Reading([], Failed)
    else if !Named(s, file) then Reading(InfoReads(s, file), Failed)
    else
      Then(Scan(InfoReads(s, file) + [Field(InfoAt(s, file) + 4, 4)], [Site(BaseAt(s, file), 4, Whole)], Done),
           Tables(s, InfoAt(s, file) + At(s, InfoAt(s, file) + 4, 4)))
  }
}
