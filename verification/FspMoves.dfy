/**
 Moving an FSP image: the image as a function of its address. Moves compose, and nothing else changes.
 */
module FspMoves {
  import opened Buffers
  import opened FspBytes
  import opened FspSites
  import opened FspFrame

  // ----- What is added where

  // The address the image is linked at, by its information header.
  function Base(s: seq<byte>): nat {
    At(s, BaseAt(s, InfoFile(s)), 4)
  }

  function Mod32(x: int): nat {
    x % MOD32
  }

  function Mod64(x: int): nat {
    x % MOD64
  }

  function TeLink(s: seq<byte>, te: nat): nat {
    At(s, te + 16, 8)
  }

  // A TE image is linked at its base plus what was cut off.
  function TeShift(s: seq<byte>, te: nat, addr: nat): nat {
    Mod32(addr + te - (TeLink(s, te) + TeCut(s, te)))
  }

  function Delta(s: seq<byte>, base: nat, addr: nat, x: Site): nat {
    match x.owner
    case Whole => Mod64(addr - base)
    case Terse(te) =>
      if x.width == 8 then Mod64(Mod32(TeLink(s, te) + TeShift(s, te, addr)) - TeLink(s, te))
      else TeShift(s, te, addr)
  }

  function EditOf(s: seq<byte>, base: nat, addr: nat, x: Site): Edit {
    Edit(x.offset, x.width, Delta(s, base, addr, x))
  }

  function EditsOf(s: seq<byte>, base: nat, addr: nat, sites: seq<Site>): (es: seq<Edit>)
    ensures |es| == |sites| && forall i :: 0 <= i < |es| ==> es[i] == EditOf(s, base, addr, sites[i])
  {
    seq(|sites|, i requires 0 <= i < |sites| => EditOf(s, base, addr, sites[i]))
  }

  // Sites as edits that add nothing.
  function Places(sites: seq<Site>): (es: seq<Edit>)
    ensures |es| == |sites| && forall i :: 0 <= i < |es| ==> es[i] == Edit(sites[i].offset, sites[i].width, 0)
  {
    seq(|sites|, i requires 0 <= i < |sites| => Edit(sites[i].offset, sites[i].width, 0))
  }

  ghost predicate Clear(f: Field, sites: seq<Site>, size: nat) {
    f.offset + f.width <= size && forall p :: p in Places(sites) ==> Beside(p, f.offset, f.offset + f.width)
  }

  // Everything is inside, the sites do not overlap, and no control field is a site.
  ghost predicate Orderly(size: nat, x: Scan) {
    && AllInside(Places(x.sites), size)
    && AllApart(Places(x.sites))
    && forall f :: f in x.control ==> Clear(f, x.sites, size)
  }

  /**
   Images that relocation is meant for: below 4 GiB, no length of zero, all sites apart from each other and from headers and
   tables, the information header among them, and no executable has a relocation site on that header's base address.
   */
  ghost predicate WellFormed(s: seq<byte>) {
    && |s| < MOD32
    && Everything(s).outcome != Endless
    && Orderly(|s|, Everything(s))
    && (InfoFile(s) != 0 ==>
          forall f :: f in InfoReads(s, InfoFile(s)) ==> Clear(f, Everything(s).sites, |s|))
    && (Named(s, InfoFile(s)) ==> Clear(Field(BaseAt(s, InfoFile(s)), 4), Volumes(s, 0, 0).scan.sites, |s|))
  }

  ghost function Shifted(s: seq<byte>, base: nat, addr: nat, sites: seq<Site>): (t: seq<byte>)
    requires AllInside(Places(sites), |s|)
    ensures |t| == |s|
  {
    PlacesInside(s, base, addr, sites, |s|);
    ApplyAll(s, EditsOf(s, base, addr, sites))
  }

  /** The image at an address. */
  ghost function Relocated(s: seq<byte>, addr: nat): (t: seq<byte>)
    requires WellFormed(s)
    ensures |t| == |s|
  {
    Shifted(s, Base(s), addr, Everything(s).sites)
  }

  lemma PlacesInside(s: seq<byte>, base: nat, addr: nat, sites: seq<Site>, size: nat)
    requires AllInside(Places(sites), size)
    ensures SamePlaces(Places(sites), EditsOf(s, base, addr, sites)) && AllInside(EditsOf(s, base, addr, sites), size)
    ensures AllApart(Places(sites)) ==> AllApart(EditsOf(s, base, addr, sites))
  {
    hide Delta, Inside, Beside;
    SamePlacesInside(Places(sites), EditsOf(s, base, addr, sites), size);
  }

  lemma ClearOfEdits(s: seq<byte>, base: nat, addr: nat, f: Field, sites: seq<Site>)
    requires Clear(f, sites, |s|)
    ensures forall e :: e in EditsOf(s, base, addr, sites) ==> Beside(e, f.offset, f.offset + f.width)
  {
    hide Delta;
    forall e | e in EditsOf(s, base, addr, sites)
      ensures Beside(e, f.offset, f.offset + f.width)
    {
      var i :| 0 <= i < |sites| && EditsOf(s, base, addr, sites)[i] == e;
      assert Places(sites)[i] in Places(sites);
    }
  }

  lemma SameAt(s: seq<byte>, t: seq<byte>, o: nat, width: nat)
    requires |s| == |t| && o + width <= |s| && s[o..o + width] == t[o..o + width]
    ensures At(s, o, width) == At(t, o, width)
  {
    hide Le;
    LeOfSlice(s, t, o, o, width);
  }

  lemma ClearStays(s: seq<byte>, base: nat, addr: nat, f: Field, sites: seq<Site>)
    requires AllInside(Places(sites), |s|) && Clear(f, sites, |s|)
    ensures At(Shifted(s, base, addr, sites), f.offset, f.width) == At(s, f.offset, f.width)
  {
    hide ApplyAll, EditsOf, Beside, AllInside, At;
    PlacesInside(s, base, addr, sites, |s|);
    ClearOfEdits(s, base, addr, f, sites);
    var es := EditsOf(s, base, addr, sites);
    ElsewhereStays(s, es, f.offset, f.offset + f.width);
    SameAt(ApplyAll(s, es), s, f.offset, f.width);
  }

  lemma SiteReads(s: seq<byte>, base: nat, addr: nat, sites: seq<Site>, i: nat)
    requires AllInside(Places(sites), |s|) && AllApart(Places(sites)) && i < |sites|
    ensures sites[i].width in {4, 8} && sites[i].offset + sites[i].width <= |s|
    ensures At(Shifted(s, base, addr, sites), sites[i].offset, sites[i].width) ==
            Sum(At(s, sites[i].offset, sites[i].width), Delta(s, base, addr, sites[i]), sites[i].width)
  {
    PlacesInside(s, base, addr, sites, |s|);
    hide ApplyAll, Delta, Sum, Le, AllApart;
    assert Inside(Places(sites)[i], |s|);
    EditReads(s, EditsOf(s, base, addr, sites), i);
  }

  // ----- Who owns what

  // A moved number of a TE image comes with the image's own base; one of the whole image needs the signed header.
  ghost predicate Owned(s: seq<byte>, x: Scan, file: nat) {
    forall p :: p in x.sites ==> OwnerKnown(s, x, file, p)
  }

  ghost predicate OwnerKnown(s: seq<byte>, x: Scan, file: nat, p: Site) {
    match p.owner
    case Whole => Signed(s, file)
    case Terse(te) => Site(te + 16, 8, Terse(te)) in x.sites && Field(te + 6, 2) in x.control
  }

  lemma OwnedThen(s: seq<byte>, x: Scan, y: Scan, file: nat)
    requires Owned(s, x, file) && (x.outcome == Done ==> Owned(s, y, file))
    ensures Owned(s, Then(x, y), file)
  {
    hide Signed;
    var z := Then(x, y);
    if x.outcome == Done {
      forall p | p in z.sites
        ensures OwnerKnown(s, z, file, p)
      {
        assert (p in x.sites && OwnerKnown(s, x, file, p)) || (p in y.sites && OwnerKnown(s, y, file, p));
      }
    }
  }

  lemma OwnedLater(s: seq<byte>, x: Scan, file: nat, file': nat)
    requires Owned(s, x, file) && (file != 0 ==> file' == file)
    ensures Owned(s, x, file')
  {
    forall p | p in x.sites
      ensures OwnerKnown(s, x, file', p)
    {
      assert OwnerKnown(s, x, file, p);
    }
  }

  lemma {:induction false} EntriesOwner(s: seq<byte>, img: Image, rva: nat, o: nat, n: nat)
    ensures forall p :: p in Entries(s, img, rva, o, n).sites ==> p.owner == OwnerOf(img)
    decreases n
  {
    hide At, Place, WidthOf, OwnerOf;
    if n > 0 {
      EntriesOwner(s, img, rva, o + 2, n - 1);
    }
  }

  lemma {:induction false} BlocksOwner(s: seq<byte>, img: Image, o: nat, left: int)
    ensures forall p :: p in Blocks(s, img, o, left).sites ==> p.owner == OwnerOf(img)
    decreases left
  {
    hide At, OwnerOf, Entries;
    var size := At(s, o + 4, 4);
    if left > 0 && size >= 8 {
      EntriesOwner(s, img, At(s, o, 4), o + 8, (size - 8) / 2);
      BlocksOwner(s, img, o + Step(img, size), left - Step(img, size));
    }
  }

  lemma ExecutableOwned(s: seq<byte>, o: nat, file: nat)
    ensures Owned(s, Ignored(Executable(s, o, file)), file)
  {
    hide At, Blocks, DataAt, NtAt, PeKnown, Signed, InfoReads, PeReads, PeBase, PeDirectory, Wrap;
    var at := DataAt(s, o);
    if At(s, o + 3, 1) == SECTION_TE {
      BlocksOwner(s, Te(at, TeCut(s, at)), Wrap(at + At(s, at + 24, 4) - TeCut(s, at)), At(s, at + 28, 4));
    } else if At(s, o + 3, 1) == SECTION_PE32 {
      var d := PeDirectory(s, at);
      var start, size := At(s, d, 4), At(s, d + 4, 4);
      BlocksOwner(s, Pe(at), at + start, Extent(start, size));
      PeBaseOwner(s, at);
    }
  }

  lemma PeBaseOwner(s: seq<byte>, pe: nat)
    ensures PeBase(s, pe).owner == Whole
  {
    hide NtAt, Wide;
  }

  lemma {:induction false} SectionsOwned(s: seq<byte>, o: nat, end: nat, file: nat)
    ensures Owned(s, Sections(s, o, end, file), file)
    decreases end - o
  {
    hide Owned, Sections, SectionSize, SectionReads, Executable, Then, Ignored, NextSection;
    if o + 4 < end && o + SectionSize(s, o) <= end && o < NextSection(s, o) {
      SectionsUnfold(s, o, end, file);
      var y := Sections(s, NextSection(s, o), end, file);
      SectionsOwned(s, NextSection(s, o), end, file);
      ExecutableOwned(s, o, file);
      OwnedThen(s, Ignored(Executable(s, o, file)), y, file);
      NothingOwned(s, SectionReads(s, o), Done, file);
      OwnedThen(s, Reading(SectionReads(s, o), Done), Then(Ignored(Executable(s, o, file)), y), file);
    } else {
      SectionsStop(s, o, end, file);
      NothingOwned(s, SectionReads(s, o), if o + SectionSize(s, o) > end then Failed else Endless, file);
      NothingOwned(s, [], Done, file);
    }
  }

  lemma NothingOwned(s: seq<byte>, control: seq<Field>, outcome: Outcome, file: nat)
    ensures Owned(s, Reading(control, outcome), file)
  {
  }

  lemma FileOwned(s: seq<byte>, file: nat, first: nat)
    ensures Owned(s, FileScan(s, file, first), FirstFile(first, file))
  {
    hide Owned, Sections, NextFile, FileReads, Then, FirstFile, At;
    var f := FirstFile(first, file);
    NothingOwned(s, FileReads(s, file), Done, f);
    NothingOwned(s, [], Done, f);
    SectionsOwned(s, SectionsAt(s, file), NextFile(s, file), f);
    if At(s, file + 18, 1) == FILE_PAD {
      OwnedThen(s, Reading(FileReads(s, file), Done), NOTHING, f);
    } else {
      OwnedThen(s, Reading(FileReads(s, file), Done), Sections(s, SectionsAt(s, file), NextFile(s, file), f), f);
    }
  }

  lemma {:induction false} FilesOwned(s: seq<byte>, file: nat, end: nat, first: nat)
    ensures Owned(s, Files(s, file, end, first).scan, Files(s, file, end, first).first)
    ensures first != 0 ==> Files(s, file, end, first).first == first
    decreases end - file
  {
    hide Owned, Files, FileScan, FileReads, NextFile, Then, At;
    var w := Files(s, file, end, first);
    if file + 24 >= end || At(s, file + 18, 1) == FILE_MAX || file >= NextFile(s, file) {
      FilesStop(s, file, end, first);
      NothingOwned(s, w.scan.control, w.scan.outcome, w.first);
    } else {
      FilesUnfold(s, file, end, first);
      var f := FirstFile(first, file);
      FileOwned(s, file, first);
      if FileScan(s, file, first).outcome == Done {
        FilesOwned(s, NextFile(s, file), end, f);
        OwnedLater(s, FileScan(s, file, first), f, w.first);
        OwnedThen(s, FileScan(s, file, first), Files(s, NextFile(s, file), end, f).scan, w.first);
      }
    }
  }

  lemma VolumeOwned(s: seq<byte>, o: nat, first: nat)
    ensures Owned(s, Volume(s, o, first).scan, Volume(s, o, first).first)
    ensures first != 0 ==> Volume(s, o, first).first == first
  {
    hide Owned, Files, FilesAt, VolumeReads, VolumeFits, VolumeGuid, VolumeLength, Then;
    var w := Volume(s, o, first);
    if !VolumeFits(s, o) || !VolumeGuid(s, o + 16) {
      NothingOwned(s, VolumeReads(s, o), Failed, first);
    } else {
      FilesOwned(s, FilesAt(s, o), o + VolumeLength(s, o), first);
      NothingOwned(s, VolumeReads(s, o), Done, w.first);
      OwnedThen(s, Reading(VolumeReads(s, o), Done), Files(s, FilesAt(s, o), o + VolumeLength(s, o), first).scan, w.first);
    }
  }

  lemma {:induction false} VolumesOwned(s: seq<byte>, o: nat, first: nat)
    ensures Owned(s, Volumes(s, o, first).scan, Volumes(s, o, first).first)
    ensures first != 0 ==> Volumes(s, o, first).first == first
    decreases |s| - o
  {
    hide Owned, Volumes, Volume, VolumeLength, Then;
    var v, w := Volume(s, o, first), Volumes(s, o, first);
    VolumesUnfold(s, o, first);
    if o >= |s| {
      NothingOwned(s, [], Done, first);
    } else {
      VolumeOwned(s, o, first);
      if v.scan.outcome == Done {
        if VolumeLength(s, o) == 0 {
          OwnedAnyway(s, v.scan, Failed, v.first);
        } else {
          VolumesOwned(s, o + VolumeLength(s, o), v.first);
          OwnedLater(s, v.scan, v.first, w.first);
          OwnedThen(s, v.scan, Volumes(s, o + VolumeLength(s, o), v.first).scan, w.first);
        }
      }
    }
  }

  lemma OwnedAnyway(s: seq<byte>, x: Scan, outcome: Outcome, file: nat)
    requires Owned(s, x, file)
    ensures Owned(s, x.(outcome := outcome), file)
  {
    hide Signed;
    forall p | p in x.sites
      ensures OwnerKnown(s, x.(outcome := outcome), file, p)
    {
      assert OwnerKnown(s, x, file, p);
    }
  }
}
