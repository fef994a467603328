/**
 An FSP image whose control fields are unchanged says the same about its relocation.
 */
module FspFrame {
  import opened Arith
  import opened Buffers
  import opened FspBytes
  import opened FspSites

  ghost predicate Agree(s: seq<byte>, t: seq<byte>, control: seq<Field>) {
    |s| == |t| && forall f :: f in control ==> At(s, f.offset, f.width) == At(t, f.offset, f.width)
  }

  lemma AgreeOnBoth(s: seq<byte>, t: seq<byte>, x: seq<Field>, y: seq<Field>)
    requires Agree(s, t, x + y)
    ensures Agree(s, t, x) && Agree(s, t, y)
  {
    forall f | f in x || f in y
      ensures At(s, f.offset, f.width) == At(t, f.offset, f.width)
    {
      assert f in x + y;
    }
  }

  lemma AgreeOnThen(s: seq<byte>, t: seq<byte>, x: Scan, y: Scan)
    requires Agree(s, t, Then(x, y).control)
    ensures Agree(s, t, x.control) && (x.outcome == Done ==> Agree(s, t, y.control))
  {
    hide Agree;
    if x.outcome == Done {
      AgreeOnBoth(s, t, x.control, y.control);
    }
  }

  lemma Same(s: seq<byte>, t: seq<byte>, control: seq<Field>, o: nat, width: nat)
    requires Agree(s, t, control) && Field(o, width) in control
    ensures At(s, o, width) == At(t, o, width)
  {
    hide At;
  }

  lemma {:induction false} SameEntries(s: seq<byte>, t: seq<byte>, img: Image, rva: nat, o: nat, n: nat)
    requires Agree(s, t, Entries(s, img, rva, o, n).control)
    ensures Entries(t, img, rva, o, n) == Entries(s, img, rva, o, n)
    decreases n
  {
    hide Agree, At, Place, WidthOf;
    if n > 0 {
      var x, y := Entry(img, rva, o, At(s, o, 2)), Entries(s, img, rva, o + 2, n - 1);
      AgreeOnThen(s, t, x, y);
      Same(s, t, x.control, o, 2);
      if x.outcome == Done {
        SameEntries(s, t, img, rva, o + 2, n - 1);
      }
    }
  }

  lemma BlocksUnfold(s: seq<byte>, img: Image, o: nat, left: int)
    requires left > 0 && At(s, o + 4, 4) >= 8
    ensures Blocks(s, img, o, left) ==
            Then(Reading([Field(o, 4), Field(o + 4, 4)], Done),
                 Then(Entries(s, img, At(s, o, 4), o + 8, (At(s, o + 4, 4) - 8) / 2),
                      Blocks(s, img, o + Step(img, At(s, o + 4, 4)), left - Step(img, At(s, o + 4, 4)))))
  {
    hide Then, Entries, At, Step;
  }

  lemma BlocksStop(s: seq<byte>, img: Image, o: nat, left: int)
    requires left <= 0 || At(s, o + 4, 4) < 8
    ensures Blocks(s, img, o, left) == if left <= 0 then NOTHING else Reading([Field(o, 4), Field(o + 4, 4)], Endless)
  {
    hide Then, Entries, At, Step;
  }

  lemma {:induction false} SameBlocks(s: seq<byte>, t: seq<byte>, img: Image, o: nat, left: int)
    requires Agree(s, t, Blocks(s, img, o, left).control)
    ensures Blocks(t, img, o, left) == Blocks(s, img, o, left)
    decreases left
  {
    hide Agree, At, Entries, Blocks, Then;
    var head := Reading([Field(o, 4), Field(o + 4, 4)], Done);
    var size := At(s, o + 4, 4);
    if left <= 0 {
      BlocksStop(s, img, o, left);
      BlocksStop(t, img, o, left);
    } else if size < 8 {
      BlocksStop(s, img, o, left);
      Same(s, t, head.control, o + 4, 4);
      BlocksStop(t, img, o, left);
    } else {
      BlocksUnfold(s, img, o, left);
      var x, y := Entries(s, img, At(s, o, 4), o + 8, (size - 8) / 2), Blocks(s, img, o + Step(img, size), left - Step(img, size));
      AgreeOnThen(s, t, head, Then(x, y));
      Same(s, t, head.control, o, 4);
      Same(s, t, head.control, o + 4, 4);
      BlocksUnfold(t, img, o, left);
      AgreeOnThen(s, t, x, y);
      SameEntries(s, t, img, At(s, o, 4), o + 8, (size - 8) / 2);
      if x.outcome == Done {
        SameBlocks(s, t, img, o + Step(img, size), left - Step(img, size));
      } else {
        ThenStops(x, y, Blocks(t, img, o + Step(img, size), left - Step(img, size)));
      }
    }
  }

  lemma ThenStops(x: Scan, y: Scan, z: Scan)
    requires x.outcome != Done
    ensures Then(x, y) == Then(x, z)
  {
  }

  // ----- The information header and the executables

  lemma SameInfo(s: seq<byte>, t: seq<byte>, file: nat)
    requires Agree(s, t, InfoReads(s, file))
    ensures SectionsAt(t, file) == SectionsAt(s, file) && InfoAt(t, file) == InfoAt(s, file)
    ensures InfoReads(t, file) == InfoReads(s, file)
    ensures Named(t, file) == Named(s, file) && Signed(t, file) == Signed(s, file)
  {
    hide Agree, At;
    var c := InfoReads(s, file);
    Same(s, t, c, file, 8);
    Same(s, t, c, file + 8, 8);
    Same(s, t, c, file + 19, 1);
    Same(s, t, c, SectionsAt(s, file), 3);
    Same(s, t, c, SectionsAt(s, file) + 3, 1);
    if Named(s, file) {
      Same(s, t, c, InfoAt(s, file), 4);
    }
  }

  lemma SamePeHeader(s: seq<byte>, t: seq<byte>, pe: nat)
    requires Agree(s, t, PeReads(s, pe))
    ensures PeReads(t, pe) == PeReads(s, pe) && PeKnown(t, pe) == PeKnown(s, pe)
    ensures PeKnown(s, pe) ==> PeBase(t, pe) == PeBase(s, pe) && PeDirectory(t, pe) == PeDirectory(s, pe)
  {
    hide Agree, At;
    var c := PeReads(s, pe);
    Same(s, t, c, pe, 2);
    if At(s, pe, 2) == 0x5a4d {
      Same(s, t, c, pe + 0x3c, 4);
      Same(s, t, c, NtAt(s, pe), 4);
      if At(s, NtAt(s, pe), 4) == 0x4550 {
        Same(s, t, c, NtAt(s, pe) + 24, 2);
      }
    }
  }

  lemma SamePeBlocks(s: seq<byte>, t: seq<byte>, pe: nat)
    requires PeDirectory(t, pe) == PeDirectory(s, pe) && Agree(s, t, PeBlocks(s, pe).control)
    ensures PeBlocks(t, pe) == PeBlocks(s, pe)
  {
    hide Agree, At, Blocks, PeDirectory, Then;
    var d := PeDirectory(s, pe);
    var head := Reading([Field(d, 4), Field(d + 4, 4)], Done);
    var start, size := At(s, d, 4), At(s, d + 4, 4);
    AgreeOnThen(s, t, head, Blocks(s, Pe(pe), pe + start, Extent(start, size)));
    Same(s, t, head.control, d, 4);
    Same(s, t, head.control, d + 4, 4);
    SameBlocks(s, t, Pe(pe), pe + start, Extent(start, size));
  }

  lemma SamePe(s: seq<byte>, t: seq<byte>, pe: nat, file: nat)
    requires Agree(s, t, PeScan(s, pe, file).control)
    ensures PeScan(t, pe, file) == PeScan(s, pe, file)
  {
    hide Agree, PeReads, InfoReads, PeKnown, Signed, PeBlocks, PeBase, Then;
    if !PeKnown(s, pe) || file == 0 {
      SamePeHeader(s, t, pe);
    } else if !Signed(s, file) {
      AgreeOnBoth(s, t, PeReads(s, pe), InfoReads(s, file));
      SamePeHeader(s, t, pe);
      SameInfo(s, t, file);
    } else {
      var head := Reading(PeReads(s, pe) + InfoReads(s, file), Done);
      var x, y := PeBlocks(s, pe), Scan([], [PeBase(s, pe)], Done);
      AgreeOnThen(s, t, head, Then(x, y));
      AgreeOnBoth(s, t, PeReads(s, pe), InfoReads(s, file));
      SamePeHeader(s, t, pe);
      SameInfo(s, t, file);
      AgreeOnThen(s, t, x, y);
      SamePeBlocks(s, t, pe);
    }
  }

  lemma SameTe(s: seq<byte>, t: seq<byte>, te: nat)
    requires Agree(s, t, TeScan(s, te).control)
    ensures TeScan(t, te) == TeScan(s, te)
  {
    hide Agree, At, Blocks, Then, Wrap;
    if At(s, te, 2) != 0x5a56 {
      Same(s, t, [Field(te, 2)], te, 2);
    } else {
      var head := Scan([Field(te, 2)] + TeReads(te), [Site(te + 16, 8, Terse(te))], Done);
      var img, o, left := Te(te, TeCut(s, te)), Wrap(te + At(s, te + 24, 4) - TeCut(s, te)), At(s, te + 28, 4);
      AgreeOnThen(s, t, head, Blocks(s, img, o, left));
      Same(s, t, head.control, te, 2);
      Same(s, t, head.control, te + 6, 2);
      Same(s, t, head.control, te + 24, 4);
      Same(s, t, head.control, te + 28, 4);
      SameBlocks(s, t, img, o, left);
    }
  }

  // ----- Sections, files, volumes

  lemma SameSectionHeader(s: seq<byte>, t: seq<byte>, o: nat)
    requires Agree(s, t, SectionReads(s, o))
    ensures SectionReads(t, o) == SectionReads(s, o) && SectionSize(t, o) == SectionSize(s, o)
    ensures At(t, o + 3, 1) == At(s, o + 3, 1) && DataAt(t, o) == DataAt(s, o)
  {
    hide Agree, At;
    var c := SectionReads(s, o);
    Same(s, t, c, o, 3);
    Same(s, t, c, o + 3, 1);
    if At(s, o, 3) == 0xff_ffff {
      Same(s, t, c, o + 4, 4);
    }
  }

  lemma SameExecutable(s: seq<byte>, t: seq<byte>, o: nat, file: nat)
    requires At(t, o + 3, 1) == At(s, o + 3, 1) && DataAt(t, o) == DataAt(s, o)
    requires Agree(s, t, Executable(s, o, file).control)
    ensures Executable(t, o, file) == Executable(s, o, file)
  {
    hide Agree, At, DataAt, TeScan, PeScan;
    if At(s, o + 3, 1) == SECTION_TE {
      SameTe(s, t, DataAt(s, o));
    } else if At(s, o + 3, 1) == SECTION_PE32 {
      SamePe(s, t, DataAt(s, o), file);
    }
  }

  // The section after the one at o.
  function NextSection(s: seq<byte>, o: nat): nat {
    AlignUp(o + SectionSize(s, o), 4)
  }

  lemma SectionsUnfold(s: seq<byte>, o: nat, end: nat, file: nat)
    requires o + 4 < end && o + SectionSize(s, o) <= end && o < NextSection(s, o)
    ensures Sections(s, o, end, file) ==
            Then(Reading(SectionReads(s, o), Done),
                 Then(Ignored(Executable(s, o, file)), Sections(s, NextSection(s, o), end, file)))
  {
    hide Then, Executable, SectionReads, SectionSize, Ignored, AlignUp;
  }

  lemma SectionsStop(s: seq<byte>, o: nat, end: nat, file: nat)
    requires o + 4 >= end || o + SectionSize(s, o) > end || o >= NextSection(s, o)
    ensures Sections(s, o, end, file) ==
            if o + 4 >= end then NOTHING
            else Reading(SectionReads(s, o), if o + SectionSize(s, o) > end then Failed else Endless)
  {
    hide Then, Executable, SectionReads, SectionSize, Ignored, AlignUp;
  }

  lemma {:induction false} SameSections(s: seq<byte>, t: seq<byte>, o: nat, end: nat, file: nat)
    requires Agree(s, t, Sections(s, o, end, file).control)
    ensures Sections(t, o, end, file) == Sections(s, o, end, file)
    decreases end - o
  {
    hide Agree, Sections, SectionReads, SectionSize, Executable, Then, AlignUp;
    if o + 4 >= end {
      SectionsStop(s, o, end, file);
      SectionsStop(t, o, end, file);
    } else if o + SectionSize(s, o) > end || o >= NextSection(s, o) {
      SectionsStop(s, o, end, file);
      SameSectionHeader(s, t, o);
      SectionsStop(t, o, end, file);
    } else {
      SectionsUnfold(s, o, end, file);
      var head := Reading(SectionReads(s, o), Done);
      var x, y := Ignored(Executable(s, o, file)), Sections(s, NextSection(s, o), end, file);
      AgreeOnThen(s, t, head, Then(x, y));
      SameSectionHeader(s, t, o);
      SectionsUnfold(t, o, end, file);
      AgreeOnThen(s, t, x, y);
      SameExecutable(s, t, o, file);
      if x.outcome == Done {
        SameSections(s, t, NextSection(s, o), end, file);
      } else {
        ThenStops(x, y, Sections(t, NextSection(s, o), end, file));
      }
    }
  }

  lemma SameFileHeader(s: seq<byte>, t: seq<byte>, file: nat)
    requires Agree(s, t, FileReads(s, file))
    ensures FileReads(t, file) == FileReads(s, file) && NextFile(t, file) == NextFile(s, file)
    ensures At(t, file + 18, 1) == At(s, file + 18, 1) && SectionsAt(t, file) == SectionsAt(s, file)
  {
    hide Agree, At, AlignUp;
    var c := FileReads(s, file);
    Same(s, t, c, file + 18, 1);
    Same(s, t, c, file + 19, 1);
    if At(s, file + 19, 1) % 2 == 1 {
      Same(s, t, c, file + 24, 4);
    } else {
      Same(s, t, c, file + 20, 3);
    }
  }

  lemma SameFile(s: seq<byte>, t: seq<byte>, file: nat, first: nat)
    requires Agree(s, t, FileScan(s, file, first).control)
    ensures FileScan(t, file, first) == FileScan(s, file, first) && NextFile(t, file) == NextFile(s, file)
    ensures At(t, file + 18, 1) == At(s, file + 18, 1)
  {
    hide Agree, At, FileReads, Sections, SectionsAt, NextFile, Then;
    var head := Reading(FileReads(s, file), Done);
    if At(s, file + 18, 1) == FILE_PAD {
      AgreeOnThen(s, t, head, NOTHING);
      SameFileHeader(s, t, file);
    } else {
      AgreeOnThen(s, t, head, Sections(s, SectionsAt(s, file), NextFile(s, file), FirstFile(first, file)));
      SameFileHeader(s, t, file);
      SameSections(s, t, SectionsAt(s, file), NextFile(s, file), FirstFile(first, file));
    }
  }

  lemma FilesUnfold(s: seq<byte>, file: nat, end: nat, first: nat)
    requires file + 24 < end && At(s, file + 18, 1) != FILE_MAX && file < NextFile(s, file)
    ensures Files(s, file, end, first) ==
            if FileScan(s, file, first).outcome != Done then Walk(FileScan(s, file, first), FirstFile(first, file))
            else AndThen(FileScan(s, file, first), Files(s, NextFile(s, file), end, FirstFile(first, file)))
  {
    hide At, FileScan, NextFile, FirstFile, AndThen;
  }

  lemma FilesStop(s: seq<byte>, file: nat, end: nat, first: nat)
    requires file + 24 >= end || At(s, file + 18, 1) == FILE_MAX || file >= NextFile(s, file)
    ensures Files(s, file, end, first) ==
            if file + 24 >= end then Walk(NOTHING, first)
            else if At(s, file + 18, 1) == FILE_MAX then Walk(Reading([Field(file + 18, 1)], Done), FirstFile(first, file))
            else Walk(Reading(FileReads(s, file), Endless), FirstFile(first, file))
  {
    hide At, FileScan, NextFile, FirstFile, AndThen, FileReads;
  }

  lemma {:induction false} SameFiles(s: seq<byte>, t: seq<byte>, file: nat, end: nat, first: nat)
    requires Agree(s, t, Files(s, file, end, first).scan.control)
    ensures Files(t, file, end, first) == Files(s, file, end, first)
    decreases end - file
  {
    hide Agree, At, Files, FileScan, FileReads, NextFile, FirstFile, Then;
    if file + 24 >= end {
      FilesStop(s, file, end, first);
      FilesStop(t, file, end, first);
    } else if At(s, file + 18, 1) == FILE_MAX {
      FilesStop(s, file, end, first);
      Same(s, t, [Field(file + 18, 1)], file + 18, 1);
      FilesStop(t, file, end, first);
    } else if file >= NextFile(s, file) {
      FilesStop(s, file, end, first);
      SameFileHeader(s, t, file);
      FilesStop(t, file, end, first);
    } else {
      FilesUnfold(s, file, end, first);
      var x := FileScan(s, file, first);
      if x.outcome == Done {
        AgreeOnThen(s, t, x, Files(s, NextFile(s, file), end, FirstFile(first, file)).scan);
        SameFile(s, t, file, first);
        SameFiles(s, t, NextFile(s, file), end, FirstFile(first, file));
      } else {
        SameFile(s, t, file, first);
      }
      FilesUnfold(t, file, end, first);
    }
  }

  lemma SameVolumeHeader(s: seq<byte>, t: seq<byte>, o: nat)
    requires Agree(s, t, VolumeReads(s, o))
    ensures VolumeReads(t, o) == VolumeReads(s, o) && VolumeFits(t, o) == VolumeFits(s, o)
    ensures VolumeLength(t, o) == VolumeLength(s, o)
    ensures VolumeFits(s, o) ==> VolumeGuid(t, o + 16) == VolumeGuid(s, o + 16)
    ensures VolumeFits(s, o) && VolumeGuid(s, o + 16) ==> FilesAt(t, o) == FilesAt(s, o)
  {
    hide Agree, At, AlignUp;
    var c := VolumeReads(s, o);
    Same(s, t, c, o + 40, 4);
    Same(s, t, c, o + 32, 8);
    SameSize(s, t, c);
    if VolumeFits(s, o) {
      Same(s, t, c, o + 16, 8);
      Same(s, t, c, o + 24, 8);
      if VolumeGuid(s, o + 16) {
        Same(s, t, c, o + 52, 2);
        if At(s, o + 52, 2) != 0 {
          Same(s, t, c, ExtendedAt(s, o) + 16, 4);
        } else {
          Same(s, t, c, o + 48, 2);
        }
      }
    }
  }

  lemma SameSize(s: seq<byte>, t: seq<byte>, c: seq<Field>)
    requires Agree(s, t, c)
    ensures |s| == |t|
  {
  }

  lemma SameVolume(s: seq<byte>, t: seq<byte>, o: nat, first: nat)
    requires Agree(s, t, Volume(s, o, first).scan.control)
    ensures Volume(t, o, first) == Volume(s, o, first) && VolumeLength(t, o) == VolumeLength(s, o) && |s| == |t|
  {
    hide Agree, At, VolumeReads, VolumeFits, VolumeGuid, VolumeLength, FilesAt, Files, Then;
    SameSize(s, t, Volume(s, o, first).scan.control);
    if !VolumeFits(s, o) || !VolumeGuid(s, o + 16) {
      SameVolumeHeader(s, t, o);
    } else {
      AgreeOnThen(s, t, Reading(VolumeReads(s, o), Done), Files(s, FilesAt(s, o), o + VolumeLength(s, o), first).scan);
      SameVolumeHeader(s, t, o);
      SameFiles(s, t, FilesAt(s, o), o + VolumeLength(s, o), first);
    }
  }

  lemma VolumesUnfold(s: seq<byte>, o: nat, first: nat)
    ensures Volumes(s, o, first) ==
            if o >= |s| then Walk(NOTHING, first)
            else if Volume(s, o, first).scan.outcome != Done then Volume(s, o, first)
            else if VolumeLength(s, o) == 0 then
              Walk(Volume(s, o, first).scan.(outcome := Failed), Volume(s, o, first).first)
            else AndThen(Volume(s, o, first).scan, Volumes(s, o + VolumeLength(s, o), Volume(s, o, first).first))
  {
    hide Volume, VolumeLength, AndThen;
  }

  lemma {:induction false} SameVolumes(s: seq<byte>, t: seq<byte>, o: nat, first: nat)
    requires Agree(s, t, Volumes(s, o, first).scan.control)
    ensures Volumes(t, o, first) == Volumes(s, o, first)
    decreases |s| - o
  {
    hide Agree, Volume, Volumes, VolumeLength, Then;
    var v := Volume(s, o, first);
    VolumesUnfold(s, o, first);
    VolumesUnfold(t, o, first);
    SameSize(s, t, Volumes(s, o, first).scan.control);
    if o < |s| {
      if v.scan.outcome == Done && VolumeLength(s, o) != 0 {
        AgreeOnThen(s, t, v.scan, Volumes(s, o + VolumeLength(s, o), v.first).scan);
        SameVolumes(s, t, o + VolumeLength(s, o), v.first);
      }
      SameVolume(s, t, o, first);
    }
  }

  // ----- The information header's tables

  lemma {:induction false} SamePatches(s: seq<byte>, t: seq<byte>, o: nat, n: nat)
    requires Agree(s, t, Patches(s, o, n).control)
    ensures Patches(t, o, n) == Patches(s, o, n)
    decreases n
  {
    hide Agree, At, PatchPlace;
    SameSize(s, t, Patches(s, o, n).control);
    if n > 0 {
      var x := Patch(|s|, o, At(s, o, 4));
      AgreeOnThen(s, t, x, Patches(s, o + 4, n - 1));
      Same(s, t, x.control, o, 4);
      SamePatches(s, t, o + 4, n - 1);
    }
  }

  lemma SamePatchTable(s: seq<byte>, t: seq<byte>, o: nat)
    requires Agree(s, t, PatchTable(s, o).control)
    ensures PatchTable(t, o) == PatchTable(s, o)
  {
    hide Agree, At, Patches, Then;
    SameSize(s, t, PatchTable(s, o).control);
    if o + 12 <= |s| {
      if At(s, o + 4, 2) + o > |s| {
        Same(s, t, [Field(o + 4, 2)], o + 4, 2);
      } else {
        var head := Reading([Field(o + 4, 2), Field(o + 8, 4)], Done);
        AgreeOnThen(s, t, head, Patches(s, o + 12, At(s, o + 8, 4)));
        Same(s, t, head.control, o + 4, 2);
        Same(s, t, head.control, o + 8, 4);
        SamePatches(s, t, o + 12, At(s, o + 8, 4));
      }
    }
  }

  lemma {:induction false} SameTables(s: seq<byte>, t: seq<byte>, o: nat)
    requires Agree(s, t, Tables(s, o).control)
    ensures Tables(t, o) == Tables(s, o)
    decreases |s| - o
  {
    hide Agree, At, PatchTable, Then;
    SameSize(s, t, Tables(s, o).control);
    if o + 8 <= |s| {
      if At(s, o, 4) == FSPP_SIGNATURE {
        AgreeOnThen(s, t, Reading([Field(o, 4)], Done), PatchTable(s, o));
        Same(s, t, [Field(o, 4)], o, 4);
        SamePatchTable(s, t, o);
      } else {
        var head := [Field(o, 4), Field(o + 4, 4)];
        if At(s, o + 4, 4) == 0 {
          Same(s, t, head, o, 4);
          Same(s, t, head, o + 4, 4);
        } else {
          AgreeOnThen(s, t, Reading(head, Done), Tables(s, o + At(s, o + 4, 4)));
          Same(s, t, head, o, 4);
          Same(s, t, head, o + 4, 4);
          SameTables(s, t, o + At(s, o + 4, 4));
        }
      }
    }
  }

  lemma SameRemaining(s: seq<byte>, t: seq<byte>, file: nat)
    requires Agree(s, t, Remaining(s, file).control)
    ensures Remaining(t, file) == Remaining(s, file)
  {
    hide Agree, At, InfoReads, Named, InfoAt, Tables, Then;
    if file != 0 {
      if !Named(s, file) {
        SameInfo(s, t, file);
      } else {
        var h := Field(InfoAt(s, file) + 4, 4);
        var head := Scan(InfoReads(s, file) + [h], [Site(BaseAt(s, file), 4, Whole)], Done);
        AgreeOnThen(s, t, head, Tables(s, InfoAt(s, file) + At(s, InfoAt(s, file) + 4, 4)));
        AgreeOnBoth(s, t, InfoReads(s, file), [h]);
        SameInfo(s, t, file);
        Same(s, t, [h], InfoAt(s, file) + 4, 4);
        SameTables(s, t, InfoAt(s, file) + At(s, InfoAt(s, file) + 4, 4));
      }
    }
  }

  // ----- The whole image

  // The first file, which the information header is in; 0 if there is none.
  function InfoFile(s: seq<byte>): nat {
    Volumes(s, 0, 0).first
  }

  /** Everything that relocation reads and moves, in its order. */
  function Everything(s: seq<byte>): Scan {
    Then(Volumes(s, 0, 0).scan, Remaining(s, InfoFile(s)))
  }

  /** The control fields decide what is moved. */
  lemma SameEverything(s: seq<byte>, t: seq<byte>)
    requires Agree(s, t, Everything(s).control)
    ensures Everything(t) == Everything(s) && Volumes(t, 0, 0) == Volumes(s, 0, 0)
  {
    hide Agree, Volumes, Remaining, Then;
    var v := Volumes(s, 0, 0);
    AgreeOnThen(s, t, v.scan, Remaining(s, v.first));
    SameVolumes(s, t, 0, 0);
    if v.scan.outcome == Done {
      SameRemaining(s, t, v.first);
    } else {
      ThenStops(v.scan, Remaining(s, v.first), Remaining(t, v.first));
    }
  }
}
