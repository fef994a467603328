/**
 Relocation of an FSP image in its buffer: executables on the way through volumes, files and sections, then the
 information header and the patch table behind it.
 */
module FspRelocate {
  import opened Arith
  import opened Buffers
  import opened FspBytes
  import opened FspSites
  import opened FspFrame
  import opened FspMoves
  import opened FspComposition
  import opened FspRun

  // ----- Executables

  // The amount that the numbers of an executable are moved by.
  ghost predicate Amount(run: Run, img: Image, delta: nat) {
    match img
    case Pe(at) => delta == Mod64(run.addr - Base(run.image))
    case Te(at, cut) => delta == TeShift(run.image, at, run.addr)
  }

  lemma AmountIsDelta(run: Run, img: Image, delta: nat, x: Site)
    requires Amount(run, img, delta) && x.owner == OwnerOf(img) && (img.Te? ==> x.width == 4)
    ensures delta == Delta(run.image, Base(run.image), run.addr, x)
  {
    hide Base, TeShift, Mod64;
  }

  lemma EntriesUnfold(s: seq<byte>, img: Image, rva: nat, o: nat, n: nat)
    ensures Entries(s, img, rva, o, n) ==
            if n == 0 then NOTHING else Then(Entry(img, rva, o, At(s, o, 2)), Entries(s, img, rva, o + 2, n - 1))
  {
    hide Then, Entry, At;
  }

  lemma EntryIs(img: Image, rva: nat, o: nat, entry: nat)
    ensures
      var w := if Type(entry) == 3 then 4 else if img.Pe? then 8 else 4;
      Entry(img, rva, o, entry) ==
      if Type(entry) == 3 || Type(entry) == 10 then Scan([Field(o, 2)], [Site(Place(img, rva, entry), w, OwnerOf(img))], Done)
      else Scan([Field(o, 2)], [], if Type(entry) == 0 then Done else Failed)
  {
    hide Type, Place, OwnerOf;
  }

  method RelocateEntries(a: array<byte>, ghost run: Run, ghost done: seq<Site>, img: Image, rva: nat, start: nat, n: nat,
                         delta: nat)
    returns (ok: bool)
    requires Held(Bytes(a), run, done) && Amount(run, img, delta)
    requires Next(run, done, Entries(run.image, img, rva, start, n))
    modifies a
    ensures Held(Bytes(a), run, done + Entries(run.image, img, rva, start, n).sites)
    ensures ok <==> Entries(run.image, img, rva, start, n).outcome == Done
  {
    hide Amount, Apply, At, Base, Bytes, Delta, Entries, Entry, Held, Next, OwnerOf, Place, Then;
    ghost var s, all, now := run.image, Entries(run.image, img, rva, start, n), done;
    for i := 0 to n
      invariant Held(Bytes(a), run, now) && Next(run, now, Entries(s, img, rva, start + 2 * i, n - i))
      invariant Behind(done, all, now, Entries(s, img, rva, start + 2 * i, n - i))
    {
      var o := start + 2 * i;
      ghost var x, y := Entry(img, rva, o, At(s, o, 2)), Entries(s, img, rva, o + 2, n - i - 1);
      EntriesUnfold(s, img, rva, o, n - i);
      NextThen(run, now, x, y);
      BehindThen(done, all, now, x, y);
      EntryIs(img, rva, o, At(s, o, 2));
      NextReads(Bytes(a), run, now, x, Field(o, 2));
      var entry := ReadLe(a, o, 2);
      if Type(entry) == 3 || Type(entry) == 10 {
        var width := if Type(entry) == 3 then 4 else if img.Pe? then 8 else 4;
        ghost var p := Site(Place(img, rva, entry), width, OwnerOf(img));
        AmountIsDelta(run, img, delta, p);
        NextSite(Bytes(a), run, now, x, p, delta);
        AddLe(a, Place(img, rva, entry), width, delta);
      } else if Type(entry) != 0 {
        BehindAll(done, all, now, x);
        return false;
      }
      NoSites(now);
      now := now + x.sites;
      assert start + 2 * (i + 1) == o + 2;
    }
    EntriesUnfold(s, img, rva, start + 2 * n, 0);
    BehindAll(done, all, now, NOTHING);
    ok := true;
  }

  lemma BlockAdvances(run: Run, done: seq<Site>, img: Image, o: nat, left: int)
    requires Next(run, done, Blocks(run.image, img, o, left)) && left > 0
    ensures At(run.image, o + 4, 4) >= 8 && Step(img, At(run.image, o + 4, 4)) >= 8
  {
    BlocksOutcome(run.image, img, o, left);
    hide Blocks, At;
  }

  lemma BlocksOutcome(s: seq<byte>, img: Image, o: nat, left: int)
    ensures left > 0 && At(s, o + 4, 4) < 8 ==> Blocks(s, img, o, left).outcome == Endless
  {
    hide At, Entries, Then;
  }

  method RelocateBlocks(a: array<byte>, ghost run: Run, ghost done: seq<Site>, img: Image, start: nat, size: int, delta: nat)
    returns (ok: bool)
    requires Held(Bytes(a), run, done) && Amount(run, img, delta)
    requires Next(run, done, Blocks(run.image, img, start, size))
    modifies a
    ensures Held(Bytes(a), run, done + Blocks(run.image, img, start, size).sites)
    ensures ok <==> Blocks(run.image, img, start, size).outcome == Done
  {
    hide Amount, At, Blocks, Bytes, Entries, Held, Next, Step, Then;
    ghost var s, all, now := run.image, Blocks(run.image, img, start, size), done;
    var offset: nat := 0;
    while offset < size
      invariant Held(Bytes(a), run, now) && Next(run, now, Blocks(s, img, start + offset, size - offset))
      invariant Behind(done, all, now, Blocks(s, img, start + offset, size - offset))
    {
      var o := start + offset;
      BlockAdvances(run, now, img, o, size - offset);
      BlocksUnfold(s, img, o, size - offset);
      ghost var step := Step(img, At(s, o + 4, 4));
      ghost var head := Reading([Field(o, 4), Field(o + 4, 4)], Done);
      ghost var x := Entries(s, img, At(s, o, 4), o + 8, (At(s, o + 4, 4) - 8) / 2);
      ghost var y := Blocks(s, img, o + step, size - offset - step);
      NextThen(run, now, head, Then(x, y));
      BehindThen(done, all, now, head, Then(x, y));
      NoSites(now);
      NextThen(run, now, x, y);
      BehindThen(done, all, now, x, y);
      NextReads(Bytes(a), run, now, head, Field(o, 4));
      NextReads(Bytes(a), run, now, head, Field(o + 4, 4));
      var rva := ReadLe(a, o, 4);
      var length := ReadLe(a, o + 4, 4);
      ok := RelocateEntries(a, run, now, img, rva, o + 8, (length - 8) / 2, delta);
      if !ok {
        return;
      }
      now := now + x.sites;
      offset := offset + Step(img, length);
      assert start + offset == o + step;
    }
    BlocksStop(s, img, start + offset, size - offset);
    BehindAll(done, all, now, NOTHING);
    ok := true;
  }

  // ----- PE32 and PE32+

  // What a header check finds out about an information header.
  datatype Info = Info(at: nat, named: bool, signed: bool)

  ghost predicate InfoInside(s: seq<byte>, file: nat) {
    forall f :: f in InfoReads(s, file) ==> f.offset + f.width <= |s|
  }

  /** Both callers look at the header in the same way; only one of them minds the signature. */
  method InfoHeader(a: array<byte>, file: nat) returns (info: Info)
    requires file != 0 && InfoInside(Bytes(a), file)
    ensures info.named == Named(Bytes(a), file) && info.signed == Signed(Bytes(a), file)
    ensures info.at == InfoAt(Bytes(a), file)
  {
    hide At, Bytes;
    ghost var s := Bytes(a);
    assert Field(file, 8) in InfoReads(s, file) && Field(file + 8, 8) in InfoReads(s, file);
    assert Field(file + 19, 1) in InfoReads(s, file);
    assert Field(SectionsAt(s, file), 3) in InfoReads(s, file) && Field(SectionsAt(s, file) + 3, 1) in InfoReads(s, file);
    var attributes := ReadLe(a, file + 19, 1);
    var section := file + if attributes % 2 == 1 then 32 else 24;
    var size := ReadLe(a, section, 3);
    var at := section + if size == 0xff_ffff then 8 else 4;
    var low := ReadLe(a, file, 8);
    var high := ReadLe(a, file + 8, 8);
    if low != 0x4734_2284_9127_40be || high != 0x0c3f_3527_b084_71b9 {
      return Info(at, false, false);
    }
    var kind := ReadLe(a, section + 3, 1);
    if kind != SECTION_RAW {
      return Info(at, false, false);
    }
    assert Field(InfoAt(s, file), 4) in InfoReads(s, file);
    var signature := ReadLe(a, at, 4);
    info := Info(at, true, signature == FSPH_SIGNATURE);
  }

  lemma InfoNow(now: seq<byte>, run: Run, done: seq<Site>, x: Scan, file: nat)
    requires Held(now, run, done) && Next(run, done, x)
    requires forall f :: f in InfoReads(run.image, file) ==> f in x.control
    ensures InfoInside(now, file) && InfoAt(now, file) == InfoAt(run.image, file)
    ensures Named(now, file) == Named(run.image, file) && Signed(now, file) == Signed(run.image, file)
  {
    hide At, Held, InfoAt, InfoReads, Named, Next, Signed;
    forall f | f in InfoReads(run.image, file)
      ensures f.offset + f.width <= |now| && At(run.image, f.offset, f.width) == At(now, f.offset, f.width)
    {
      NextReads(now, run, done, x, f);
    }
    HeldSize(now, run, done);
    SameInfo(run.image, now, file);
  }

  lemma HeldSize(now: seq<byte>, run: Run, done: seq<Site>)
    requires Held(now, run, done)
    ensures |now| == |run.image|
  {
    hide WellFormed, Everything, Places, AllInside;
  }

  // Executables are reached from volumes, and the file that holds the information header is known by then.
  ghost predicate Underway(run: Run, file: nat) {
    run.part == Volumes(run.image, 0, 0).scan && (file != 0 ==> file == InfoFile(run.image))
  }

  lemma BaseReads(now: seq<byte>, run: Run, done: seq<Site>, x: Scan, file: nat)
    requires Held(now, run, done) && Next(run, done, x) && Underway(run, file) && file != 0 && Named(run.image, file)
    ensures BaseAt(run.image, file) + 4 <= |now| && At(now, BaseAt(run.image, file), 4) == Base(run.image)
  {
    hide AllApart, AllInside, At, BaseAt, Clear, Everything, InfoFile, Named, Places, Shifted, Volumes, WellFormed;
    var f := Field(BaseAt(run.image, file), 4);
    BaseApart(run.image);
    PrefixInside(run.part.sites, done, |run.image|);
    ClearStays(run.image, Base(run.image), run.addr, f, done);
    ClearInside(f, done, |run.image|);
  }

  lemma BaseApart(s: seq<byte>)
    requires WellFormed(s) && Named(s, InfoFile(s))
    ensures Clear(Field(BaseAt(s, InfoFile(s)), 4), Volumes(s, 0, 0).scan.sites, |s|)
  {
    hide Volumes, Clear, Everything, Orderly, BaseAt, InfoReads, Named, InfoFile;
  }

  lemma PeCases(s: seq<byte>, pe: nat, file: nat)
    ensures Field(pe, 2) in PeScan(s, pe, file).control
    ensures At(s, pe, 2) == 0x5a4d ==>
              Field(pe + 0x3c, 4) in PeScan(s, pe, file).control && Field(NtAt(s, pe), 4) in PeScan(s, pe, file).control
    ensures At(s, pe, 2) == 0x5a4d && At(s, NtAt(s, pe), 4) == 0x4550 ==>
              Field(NtAt(s, pe) + 24, 2) in PeScan(s, pe, file).control
    ensures PeKnown(s, pe) && file != 0 ==>
              forall f :: f in InfoReads(s, file) ==> f in PeScan(s, pe, file).control
    ensures !PeKnown(s, pe) || file == 0 || !Signed(s, file) ==>
              PeScan(s, pe, file).sites == [] && PeScan(s, pe, file).outcome == Failed
  {
    hide At, NtAt, InfoReads, Signed, PeBlocks, PeBase;
    var c := PeReads(s, pe);
    assert Field(pe, 2) in c;
    if At(s, pe, 2) == 0x5a4d {
      assert Field(pe + 0x3c, 4) in c && Field(NtAt(s, pe), 4) in c;
      if At(s, NtAt(s, pe), 4) == 0x4550 {
        assert Field(NtAt(s, pe) + 24, 2) in c;
      }
    }
    hide PeReads;
    if PeKnown(s, pe) && file != 0 {
      assert forall f :: f in PeReads(s, pe) || f in InfoReads(s, file) ==> f in PeReads(s, pe) + InfoReads(s, file);
    }
  }

  lemma PeUnfold(s: seq<byte>, pe: nat, file: nat)
    requires PeKnown(s, pe) && file != 0 && Signed(s, file)
    ensures PeScan(s, pe, file) ==
            Then(Reading(PeReads(s, pe) + InfoReads(s, file), Done),
                 Then(PeBlocks(s, pe), Scan([], [PeBase(s, pe)], Done)))
  {
    hide PeReads, InfoReads, PeBlocks, PeBase, PeKnown, Signed, Then;
  }

  lemma PeBlocksAre(s: seq<byte>, pe: nat, d: nat, start: nat, size: nat)
    requires d == PeDirectory(s, pe) && start == At(s, d, 4) && size == At(s, d + 4, 4)
    ensures PeBlocks(s, pe) ==
            Then(Reading([Field(d, 4), Field(d + 4, 4)], Done),
                 Blocks(s, Pe(pe), pe + start, Extent(start, size)))
  {
    hide Then, At, PeDirectory, Blocks;
  }

  lemma PeFields(s: seq<byte>, pe: nat, nt: nat, wide: bool)
    requires nt == NtAt(s, pe) && wide == Wide(s, pe)
    ensures PeBase(s, pe) == Site(nt + if wide then 48 else 52, if wide then 8 else 4, Whole)
    ensures PeDirectory(s, pe) == nt + if wide then 176 else 160
  {
    hide NtAt, Wide;
  }

  method PeRelocate(a: array<byte>, ghost run: Run, ghost done: seq<Site>, addr: nat, pe: nat, file: nat) returns (ok: bool)
    requires Held(Bytes(a), run, done) && Next(run, done, PeScan(run.image, pe, file))
    requires Underway(run, file) && addr == run.addr < MOD64
    modifies a
    ensures Held(Bytes(a), run, done + PeScan(run.image, pe, file).sites)
    ensures ok <==> PeScan(run.image, pe, file).outcome == Done
  {
    hide At, Bytes, Held, InfoAt, InfoInside, InfoReads, Named, Next, PeScan, Signed, Underway;
    ghost var s, all, now := run.image, PeScan(run.image, pe, file), done;
    NoSites(done);
    PeCases(s, pe, file);
    NextReads(Bytes(a), run, done, all, Field(pe, 2));
    var magic := ReadLe(a, pe, 2);
    if magic != 0x5a4d {
      return false;
    }
    NextReads(Bytes(a), run, done, all, Field(pe + 0x3c, 4));
    var lfanew := ReadLe(a, pe + 0x3c, 4);
    var nt := pe + lfanew;
    NextReads(Bytes(a), run, done, all, Field(nt, 4));
    var signature := ReadLe(a, nt, 4);
    if signature != 0x4550 {
      return false;
    }
    NextReads(Bytes(a), run, done, all, Field(nt + 24, 2));
    var kind := ReadLe(a, nt + 24, 2);
    if kind != 0x10b && kind != 0x20b {
      return false;
    }
    if file == 0 {
      return false;
    }
    InfoNow(Bytes(a), run, done, all, file);
    var info := InfoHeader(a, file);
    if !info.signed {
      return false;
    }
    ok := PeMove(a, run, done, addr, pe, file, nt, kind == 0x20b, info.at);
  }

  lemma PeSteps(run: Run, done: seq<Site>, pe: nat, file: nat, d: nat, start: nat, size: nat)
    requires PeKnown(run.image, pe) && file != 0 && Signed(run.image, file)
    requires Next(run, done, PeScan(run.image, pe, file))
    requires d == PeDirectory(run.image, pe) && start == At(run.image, d, 4) && size == At(run.image, d + 4, 4)
    ensures
      var s := run.image;
      var x := Blocks(s, Pe(pe), pe + start, Extent(start, size));
      && Next(run, done, x)
      && (x.outcome == Done ==> Next(run, done + x.sites, Scan([], [PeBase(s, pe)], Done)))
      && PeScan(s, pe, file).sites == x.sites + (if x.outcome == Done then [PeBase(s, pe)] else [])
      && PeScan(s, pe, file).outcome == x.outcome
  {
    hide At, Blocks, Extent, InfoReads, Next, PeBase, PeBlocks, PeDirectory, PeKnown, PeReads, PeScan, Signed;
    var s := run.image;
    var x, y := Blocks(s, Pe(pe), pe + start, Extent(start, size)), Scan([], [PeBase(s, pe)], Done);
    var head := Reading(PeReads(s, pe) + InfoReads(s, file), Done);
    var next := Reading([Field(d, 4), Field(d + 4, 4)], Done);
    PeUnfold(s, pe, file);
    PeBlocksAre(s, pe, d, start, size);
    NextThen(run, done, head, Then(PeBlocks(s, pe), y));
    NoSites(done);
    NextThen(run, done, PeBlocks(s, pe), y);
    NextThen(run, done, next, x);
    assert [] + x.sites == x.sites;
    assert x.sites + [] == x.sites;
  }

  lemma PeDirectoryReads(now: seq<byte>, run: Run, done: seq<Site>, pe: nat, file: nat, d: nat)
    requires PeKnown(run.image, pe) && file != 0 && Signed(run.image, file) && d == PeDirectory(run.image, pe)
    requires Held(now, run, done) && Next(run, done, PeScan(run.image, pe, file))
    ensures d + 8 <= |now| && At(now, d, 4) == At(run.image, d, 4) && At(now, d + 4, 4) == At(run.image, d + 4, 4)
  {
    hide At, Blocks, Extent, Held, InfoReads, Next, PeBase, PeBlocks, PeDirectory, PeKnown, PeReads, PeScan, Signed;
    hide Then;
    var s := run.image;
    var head, y := Reading(PeReads(s, pe) + InfoReads(s, file), Done), Scan([], [PeBase(s, pe)], Done);
    var next := Reading([Field(d, 4), Field(d + 4, 4)], Done);
    PeUnfold(s, pe, file);
    PeBlocksAre(s, pe, d, At(s, d, 4), At(s, d + 4, 4));
    NextThen(run, done, head, Then(PeBlocks(s, pe), y));
    NoSites(done);
    NextThen(run, done, PeBlocks(s, pe), y);
    NextThen(run, done, next, Blocks(s, Pe(pe), pe + At(s, d, 4), Extent(At(s, d, 4), At(s, d + 4, 4))));
    NextReads(now, run, done, next, Field(d, 4));
    NextReads(now, run, done, next, Field(d + 4, 4));
  }

  lemma WriteIsApply(now: seq<byte>, o: nat, width: nat, delta: nat)
    requires Inside(Edit(o, width, delta), |now|)
    ensures o + width <= |now|
    ensures Apply(now, Edit(o, width, delta)) == Put(now, o, LeBytes((At(now, o, width) + delta) % Modulus(width), width))
  {
    hide Put, LeBytes, Le, Modulus;
  }

  lemma PartOfEverything(now: seq<byte>, run: Run, done: seq<Site>, x: Scan)
    requires Held(now, run, done) && Next(run, done, x)
    ensures done + x.sites <= Everything(run.image).sites
  {
    hide WellFormed, Everything, Places, AllInside;
  }

  // The part of the work behind the header checks: the relocation table, then the image's own base.
  method PeMove(a: array<byte>, ghost run: Run, ghost done: seq<Site>, addr: nat, pe: nat, file: nat, nt: nat, wide: bool,
                info: nat)
    returns (ok: bool)
    requires Held(Bytes(a), run, done) && Next(run, done, PeScan(run.image, pe, file))
    requires Underway(run, file) && addr == run.addr < MOD64
    requires PeKnown(run.image, pe) && file != 0 && Signed(run.image, file)
    requires nt == NtAt(run.image, pe) && wide == Wide(run.image, pe) && info == InfoAt(run.image, file)
    modifies a
    ensures Held(Bytes(a), run, done + PeScan(run.image, pe, file).sites)
    ensures ok <==> PeScan(run.image, pe, file).outcome == Done
  {
    hide Apply, At, Base, Blocks, Bytes, Delta, Everything, Extent, Held, InfoAt, LeBytes;
    hide Named, Next, NtAt, PeBase, PeDirectory, PeKnown, PeScan, Put, TeShift, Underway, Wide;
    ghost var s, all := run.image, PeScan(run.image, pe, file);
    BaseReads(Bytes(a), run, done, all, file);
    var base := ReadLe(a, info + 28, 4);
    var delta := (addr - base) % MOD64;
    assert Amount(run, Pe(pe), delta);
    PeFields(s, pe, nt, wide);
    var link, width := nt + if wide then 48 else 52, if wide then 8 else 4;
    var d := nt + if wide then 176 else 160;
    PeDirectoryReads(Bytes(a), run, done, pe, file, d);
    var start := ReadLe(a, d, 4);
    var size := ReadLe(a, d + 4, 4);
    PeSteps(run, done, pe, file, d, start, size);
    ghost var x := Blocks(s, Pe(pe), pe + start, Extent(start, size));
    ghost var p := Site(link, width, Whole);
    ghost var was := Bytes(a);
    var linked := ReadLe(a, link, width);
    ok := RelocateBlocks(a, run, done, Pe(pe), pe + start, Extent(start, size), delta);
    assert x.sites + [] == x.sites;
    if ok {
      assert done + x.sites + [p] == done + all.sites;
      PartOfEverything(was, run, done, all);
      UnmovedReads(was, run, done, x.sites, p);
      NoSites(done + x.sites);
      UnmovedReads(Bytes(a), run, done + x.sites, [], p);
      AmountIsDelta(run, Pe(pe), delta, p);
      NextSite(Bytes(a), run, done + x.sites, Scan([], [p], Done), p, delta);
      WriteIsApply(Bytes(a), link, width, delta);
      WriteLe(a, link, width, (linked + delta) % Modulus(width));
    }
  }

  // ----- Terse executables

  lemma TeUnfold(s: seq<byte>, te: nat)
    ensures Field(te, 2) in TeScan(s, te).control
    ensures TeScan(s, te) ==
            if At(s, te, 2) != 0x5a56 then Reading([Field(te, 2)], Failed)
            else
              Then(Scan([Field(te, 2)] + TeReads(te), [Site(te + 16, 8, Terse(te))], Done),
                   Blocks(s, Te(te, TeCut(s, te)), Wrap(te + At(s, te + 24, 4) - TeCut(s, te)), At(s, te + 28, 4)))
  {
    hide At, TeReads, Blocks, TeCut, Wrap;
  }

  lemma TeSteps(now: seq<byte>, run: Run, done: seq<Site>, te: nat)
    requires Held(now, run, done) && Next(run, done, TeScan(run.image, te)) && At(run.image, te, 2) == 0x5a56
    ensures te + 32 <= |now| && TeCut(now, te) == TeCut(run.image, te) && TeLink(now, te) == TeLink(run.image, te)
    ensures Field(te + 24, 4) in Everything(run.image).control && Field(te + 28, 4) in Everything(run.image).control
    ensures
      var s, p := run.image, Site(te + 16, 8, Terse(te));
      var x := Blocks(s, Te(te, TeCut(s, te)), Wrap(te + At(s, te + 24, 4) - TeCut(s, te)), At(s, te + 28, 4));
      && Next(run, done, Scan([], [p], Done)) && Next(run, done + [p], x)
      && TeScan(s, te).sites == [p] + x.sites && TeScan(s, te).outcome == x.outcome
  {
    hide At, Blocks, Everything, Held, Next, Reading, TeScan, Wrap;
    var s, p := run.image, Site(te + 16, 8, Terse(te));
    var head := Scan([Field(te, 2)] + TeReads(te), [p], Done);
    var x := Blocks(s, Te(te, TeCut(s, te)), Wrap(te + At(s, te + 24, 4) - TeCut(s, te)), At(s, te + 28, 4));
    TeUnfold(s, te);
    NextThen(run, done, head, x);
    assert Field(te + 6, 2) in head.control && Field(te + 24, 4) in head.control && Field(te + 28, 4) in head.control;
    NextReads(now, run, done, head, Field(te + 6, 2));
    NextIsControl(now, run, done, head, Field(te + 24, 4));
    NextIsControl(now, run, done, head, Field(te + 28, 4));
    NextReads(now, run, done, head, Field(te + 28, 4));
    PartOfEverything(now, run, done, head);
    NoSites(done);
    UnmovedReads(now, run, done, [], p);
    NextPart(run, done, head, p);
  }

  lemma NextIsControl(now: seq<byte>, run: Run, done: seq<Site>, x: Scan, f: Field)
    requires Held(now, run, done) && Next(run, done, x) && f in x.control
    ensures f in Everything(run.image).control
  {
    hide WellFormed, Everything, Places, AllInside;
  }

  lemma NextPart(run: Run, done: seq<Site>, x: Scan, p: Site)
    requires Next(run, done, x) && x.sites == [p]
    ensures Next(run, done, Scan([], [p], Done))
  {
  }

  lemma TeWrite(run: Run, te: nat, link: nat, adj: nat, p: Site)
    requires link == TeLink(run.image, te) && adj == TeShift(run.image, te, run.addr) && p == Site(te + 16, 8, Terse(te))
    ensures (link + Delta(run.image, Base(run.image), run.addr, p)) % Modulus(8) == (link + adj) % MOD32
  {
    NewLink(link, adj);
    hide Base, TeLink, TeShift;
  }

  method TeRelocate(a: array<byte>, ghost run: Run, ghost done: seq<Site>, addr: nat, te: nat) returns (ok: bool)
    requires Held(Bytes(a), run, done) && Next(run, done, TeScan(run.image, te)) && addr == run.addr + te
    modifies a
    ensures Held(Bytes(a), run, done + TeScan(run.image, te).sites)
    ensures ok <==> TeScan(run.image, te).outcome == Done
  {
    hide Apply, At, Base, Blocks, Bytes, Delta, Everything, Held, LeBytes, Mod64, Next, Put;
    hide TeReads, TeScan, TeShift, Then;
    ghost var s, all := run.image, TeScan(run.image, te);
    NoSites(done);
    TeUnfold(s, te);
    NextReads(Bytes(a), run, done, all, Field(te, 2));
    var signature := ReadLe(a, te, 2);
    if signature != 0x5a56 {
      return false;
    }
    TeSteps(Bytes(a), run, done, te);
    ghost var p := Site(te + 16, 8, Terse(te));
    var stripped := ReadLe(a, te + 6, 2);
    var cut := stripped as int - 40;
    var link := ReadLe(a, te + 16, 8);
    var adj := (addr - (link + cut)) % MOD32;
    TeShiftIs(s, te, run.addr);
    assert Amount(run, Te(te, cut), adj);
    TeWrite(run, te, link, adj, p);
    ghost var delta := Delta(s, Base(s), run.addr, p);
    NextSite(Bytes(a), run, done, Scan([], [p], Done), p, delta);
    WriteIsApply(Bytes(a), te + 16, 8, delta);
    ghost var x := Blocks(s, Te(te, cut), Wrap(te + At(s, te + 24, 4) - cut), At(s, te + 28, 4));
    WriteLe(a, te + 16, 8, (link + adj) % MOD32);
    TablesRead(Bytes(a), run, done + [p], te);
    var table := ReadLe(a, te + 24, 4);
    var size := ReadLe(a, te + 28, 4);
    assert done + [p] + x.sites == done + all.sites;
    ok := RelocateBlocks(a, run, done + [p], Te(te, cut), (te + table - cut) % MOD64, size, adj);
  }

  lemma TablesRead(now: seq<byte>, run: Run, done: seq<Site>, te: nat)
    requires Held(now, run, done) && Field(te + 24, 4) in Everything(run.image).control
    requires Field(te + 28, 4) in Everything(run.image).control
    ensures te + 32 <= |now|
    ensures At(now, te + 24, 4) == At(run.image, te + 24, 4) && At(now, te + 28, 4) == At(run.image, te + 28, 4)
  {
    hide *;
    ControlReads(now, run, done, Field(te + 24, 4));
    ControlReads(now, run, done, Field(te + 28, 4));
  }

  // ----- Sections

  lemma SectionsControl(s: seq<byte>, o: nat, end: nat, file: nat)
    requires o + 4 < end
    ensures forall f :: f in SectionReads(s, o) ==> f in Sections(s, o, end, file).control
    ensures o + SectionSize(s, o) <= end && NextSection(s, o) <= o ==> Sections(s, o, end, file).outcome == Endless
  {
    hide SectionReads, SectionSize, Executable, AlignUp, Ignored;
    if o + SectionSize(s, o) > end || o >= NextSection(s, o) {
      SectionsStop(s, o, end, file);
    } else {
      SectionsUnfold(s, o, end, file);
    }
  }

  lemma SectionFields(now: seq<byte>, run: Run, done: seq<Site>, o: nat, x: Scan)
    requires Held(now, run, done) && Next(run, done, x)
    requires forall f :: f in SectionReads(run.image, o) ==> f in x.control
    ensures o + 4 <= |now| && At(now, o, 3) == At(run.image, o, 3) && At(now, o + 3, 1) == At(run.image, o + 3, 1)
    ensures At(run.image, o, 3) == 0xff_ffff ==> o + 8 <= |now| && At(now, o + 4, 4) == At(run.image, o + 4, 4)
  {
    hide At, Held, Next;
    var c := SectionReads(run.image, o);
    assert Field(o, 3) in c && Field(o + 3, 1) in c;
    NextReads(now, run, done, x, Field(o, 3));
    NextReads(now, run, done, x, Field(o + 3, 1));
    if At(run.image, o, 3) == 0xff_ffff {
      assert Field(o + 4, 4) in c;
      NextReads(now, run, done, x, Field(o + 4, 4));
    }
  }

  lemma SectionSteps(run: Run, done: seq<Site>, start: seq<Site>, all: Scan, o: nat, end: nat, file: nat)
    requires Next(run, done, Sections(run.image, o, end, file))
    requires Behind(start, all, done, Sections(run.image, o, end, file))
    requires o + 4 < end && o + SectionSize(run.image, o) <= end
    ensures
      var s := run.image;
      var x, y := Ignored(Executable(s, o, file)), Sections(s, NextSection(s, o), end, file);
      && o < NextSection(s, o) && x.outcome == Done
      && Next(run, done, Executable(s, o, file))
      && Next(run, done + x.sites, y) && Behind(start, all, done + x.sites, y)
  {
    hide Behind, Executable, Ignored, Next, NextSection, SectionReads, SectionSize, Sections, Then;
    var s := run.image;
    SectionsControl(s, o, end, file);
    NotEndless(run, done, Sections(s, o, end, file));
    SectionsUnfold(s, o, end, file);
    var head := Reading(SectionReads(s, o), Done);
    var x, y := Ignored(Executable(s, o, file)), Sections(s, NextSection(s, o), end, file);
    NextThen(run, done, head, Then(x, y));
    BehindThen(start, all, done, head, Then(x, y));
    NoSites(done);
    NextThen(run, done, x, y);
    BehindThen(start, all, done, x, y);
    NotEndless(run, done, x);
    IgnoredOutcome(run, done, Executable(s, o, file));
  }

  lemma NotEndless(run: Run, done: seq<Site>, x: Scan)
    requires Next(run, done, x)
    ensures x.outcome != Endless
  {
  }

  lemma IgnoredOutcome(run: Run, done: seq<Site>, x: Scan)
    requires Next(run, done, Ignored(x))
    ensures Next(run, done, x) && Ignored(x).outcome == Done && Ignored(x).sites == x.sites
  {
  }

  method RelocateSection(a: array<byte>, ghost run: Run, ghost done: seq<Site>, addr: nat, o: nat, kind: nat, data: nat,
                         file: nat)
    requires Held(Bytes(a), run, done) && Next(run, done, Executable(run.image, o, file))
    requires Underway(run, file) && addr == run.addr < MOD64
    requires kind == At(run.image, o + 3, 1) && data == DataAt(run.image, o)
    modifies a
    ensures Held(Bytes(a), run, done + Executable(run.image, o, file).sites)
  {
    hide At, Bytes, DataAt, Held, Next, PeScan, TeScan, Underway;
    NoSites(done);
    // What the two say about success is not looked at.
    if kind == SECTION_TE {
      var _ := TeRelocate(a, run, done, addr + data, data);
    } else if kind == SECTION_PE32 {
      var _ := PeRelocate(a, run, done, addr, data, file);
    }
  }

  method RelocateSections(a: array<byte>, ghost run: Run, ghost done: seq<Site>, addr: nat, start: nat, end: nat, file: nat)
    returns (ok: bool)
    requires Held(Bytes(a), run, done) && Next(run, done, Sections(run.image, start, end, file))
    requires Underway(run, file) && addr == run.addr < MOD64
    modifies a
    ensures Held(Bytes(a), run, done + Sections(run.image, start, end, file).sites)
    ensures ok <==> Sections(run.image, start, end, file).outcome == Done
  {
    hide At, Bytes, Executable, Held, Ignored, Next, SectionReads, Sections, Underway;
    ghost var s, all, now := run.image, Sections(run.image, start, end, file), done;
    var o := start;
    while o + 4 < end
      invariant Held(Bytes(a), run, now) && Next(run, now, Sections(s, o, end, file))
      invariant Behind(done, all, now, Sections(s, o, end, file))
    {
      SectionsControl(s, o, end, file);
      SectionFields(Bytes(a), run, now, o, Sections(s, o, end, file));
      var size := ReadLe(a, o, 3);
      var kind := ReadLe(a, o + 3, 1);
      var data := o + 4;
      if size == 0xff_ffff {
        data := o + 8;
        size := ReadLe(a, o + 4, 4);
      }
      if o + size > end {
        SectionsStop(s, o, end, file);
        BehindAll(done, all, now, Sections(s, o, end, file));
        return false;
      }
      SectionSteps(run, now, done, all, o, end, file);
      RelocateSection(a, run, now, addr, o, kind, data, file);
      IgnoredSites(Executable(s, o, file));
      now := now + Executable(s, o, file).sites;
      o := AlignUp(o + size, 4);
    }
    SectionsStop(s, o, end, file);
    BehindAll(done, all, now, NOTHING);
    ok := true;
  }

  lemma IgnoredSites(x: Scan)
    ensures Ignored(x).sites == x.sites
  {
  }

  // ----- Files and volumes

  // Once a first file is known, it stays the first, and in the end it is the whole image's.
  ghost predicate Leads(run: Run, w: Walk) {
    run.part == Volumes(run.image, 0, 0).scan && (w.first != 0 ==> w.first == InfoFile(run.image))
  }

  lemma FileScanControl(s: seq<byte>, file: nat, first: nat)
    ensures forall f :: f in FileReads(s, file) ==> f in FileScan(s, file, first).control
  {
    hide Sections, SectionsAt, NextFile, FirstFile, FileReads, At;
  }

  lemma FilesControl(s: seq<byte>, file: nat, end: nat, first: nat)
    requires file + 24 < end
    ensures Field(file + 18, 1) in Files(s, file, end, first).scan.control
    ensures At(s, file + 18, 1) != FILE_MAX ==>
              (forall f :: f in FileReads(s, file) ==> f in Files(s, file, end, first).scan.control)
    ensures At(s, file + 18, 1) != FILE_MAX && NextFile(s, file) <= file ==> Files(s, file, end, first).scan.outcome == Endless
    ensures At(s, file + 18, 1) != FILE_MAX && NextFile(s, file) > file ==>
              Files(s, file, end, first).scan ==
              Then(FileScan(s, file, first), Files(s, NextFile(s, file), end, FirstFile(first, file)).scan)
  {
    hide At, FileScan, NextFile, FirstFile;
    if At(s, file + 18, 1) == FILE_MAX || file >= NextFile(s, file) {
      FilesStop(s, file, end, first);
    } else {
      FilesUnfold(s, file, end, first);
      FileScanControl(s, file, first);
    }
    assert Field(file + 18, 1) in FileReads(s, file);
  }

  lemma FilesLead(s: seq<byte>, file: nat, end: nat, first: nat)
    requires file + 24 < end
    ensures FirstFile(first, file) != 0 ==> Files(s, file, end, first).first == FirstFile(first, file)
    ensures At(s, file + 18, 1) != FILE_MAX && NextFile(s, file) > file && FileScan(s, file, first).outcome == Done ==>
              Files(s, file, end, first).first == Files(s, NextFile(s, file), end, FirstFile(first, file)).first
    ensures At(s, file + 18, 1) != FILE_MAX && NextFile(s, file) > file && FileScan(s, file, first).outcome != Done ==>
              Files(s, file, end, first).first == FirstFile(first, file)
  {
    hide At, FileReads, FileScan, NextFile, FirstFile, Files;
    if At(s, file + 18, 1) == FILE_MAX || file >= NextFile(s, file) {
      FilesStop(s, file, end, first);
    } else {
      FilesUnfold(s, file, end, first);
      FilesOwned(s, NextFile(s, file), end, FirstFile(first, file));
    }
  }

  lemma FileFields(now: seq<byte>, run: Run, done: seq<Site>, file: nat, x: Scan)
    requires Held(now, run, done) && Next(run, done, x)
    requires forall f :: f in FileReads(run.image, file) ==> f in x.control
    ensures file + 23 <= |now| && At(now, file + 19, 1) == At(run.image, file + 19, 1)
    ensures At(run.image, file + 19, 1) % 2 == 1 ==>
              file + 28 <= |now| && At(now, file + 24, 4) == At(run.image, file + 24, 4)
    ensures At(run.image, file + 19, 1) % 2 != 1 ==> At(now, file + 20, 3) == At(run.image, file + 20, 3)
  {
    hide At, Held, Next;
    var c := FileReads(run.image, file);
    assert Field(file + 19, 1) in c;
    NextReads(now, run, done, x, Field(file + 19, 1));
    if At(run.image, file + 19, 1) % 2 == 1 {
      assert Field(file + 24, 4) in c;
      NextReads(now, run, done, x, Field(file + 24, 4));
    } else {
      assert Field(file + 20, 3) in c;
      NextReads(now, run, done, x, Field(file + 20, 3));
    }
  }

  lemma FileSteps(run: Run, done: seq<Site>, file: nat, first: nat)
    requires Next(run, done, FileScan(run.image, file, first)) && At(run.image, file + 18, 1) != FILE_PAD
    ensures
      var s := run.image;
      var x := Sections(s, SectionsAt(s, file), NextFile(s, file), FirstFile(first, file));
      && Next(run, done, x) && FileScan(s, file, first).sites == x.sites && FileScan(s, file, first).outcome == x.outcome
  {
    hide At, FileReads, FirstFile, Next, NextFile, Sections;
    var s := run.image;
    var head := Reading(FileReads(s, file), Done);
    var x := Sections(s, SectionsAt(s, file), NextFile(s, file), FirstFile(first, file));
    NextThen(run, done, head, x);
    NoSites(done);
    assert [] + x.sites == x.sites;
  }

  lemma PadFile(s: seq<byte>, file: nat, first: nat)
    requires At(s, file + 18, 1) == FILE_PAD
    ensures FileScan(s, file, first).sites == [] && FileScan(s, file, first).outcome == Done
  {
    hide At, FileReads, Sections;
  }

  method RelocateFiles(a: array<byte>, ghost run: Run, ghost done: seq<Site>, addr: nat, start: nat, end: nat, first: nat)
    returns (ok: bool, found: nat)
    requires Held(Bytes(a), run, done) && Next(run, done, Files(run.image, start, end, first).scan)
    requires Leads(run, Files(run.image, start, end, first)) && addr == run.addr < MOD64
    modifies a
    ensures Held(Bytes(a), run, done + Files(run.image, start, end, first).scan.sites)
    ensures ok <==> Files(run.image, start, end, first).scan.outcome == Done
    ensures found == Files(run.image, start, end, first).first
  {
    hide At, Bytes, FileReads, FileScan, Files, Held, InfoFile, Next, Sections;
    hide Then, Volumes;
    ghost var s, walk, now := run.image, Files(run.image, start, end, first), done;
    var file := start;
    found := first;
    while file + 24 < end
      invariant Held(Bytes(a), run, now) && Next(run, now, Files(s, file, end, found).scan)
      invariant Behind(done, walk.scan, now, Files(s, file, end, found).scan)
      invariant walk.first == Files(s, file, end, found).first
    {
      ghost var ahead, before := Files(s, file, end, found), found;
      FilesControl(s, file, end, found);
      FilesLead(s, file, end, found);
      if found == 0 {
        found := file;
      }
      NextReads(Bytes(a), run, now, ahead.scan, Field(file + 18, 1));
      var kind := ReadLe(a, file + 18, 1);
      if kind == FILE_MAX {
        FilesStop(s, file, end, before);
        BehindAll(done, walk.scan, now, ahead.scan);
        return true, found;
      }
      FileFields(Bytes(a), run, now, file, ahead.scan);
      var attributes := ReadLe(a, file + 19, 1);
      var size;
      if attributes % 2 == 1 {
        size := ReadLe(a, file + 24, 4);
      } else {
        size := ReadLe(a, file + 20, 3);
      }
      var next := AlignUp(file + size, 8);
      NotEndless(run, now, ahead.scan);
      ghost var x, y := FileScan(s, file, before), Files(s, next, end, found);
      NextThen(run, now, x, y.scan);
      BehindThen(done, walk.scan, now, x, y.scan);
      NoSites(now);
      if kind == FILE_PAD {
        PadFile(s, file, before);
      } else {
        FileSteps(run, now, file, before);
        var fine := RelocateSections(a, run, now, addr, file + if attributes % 2 == 1 then 32 else 24, next, found);
        if !fine {
          return false, found;
        }
      }
      now := now + x.sites;
      file := next;
    }
    FilesStop(s, file, end, found);
    BehindAll(done, walk.scan, now, NOTHING);
    ok := true;
  }

  lemma VolumeFields(now: seq<byte>, run: Run, done: seq<Site>, o: nat, x: Scan)
    requires Held(now, run, done) && Next(run, done, x)
    requires forall f :: f in VolumeReads(run.image, o) ==> f in x.control
    ensures o + 44 <= |now| == |run.image|
    ensures At(now, o + 40, 4) == At(run.image, o + 40, 4) && At(now, o + 32, 8) == At(run.image, o + 32, 8)
    ensures VolumeFits(run.image, o) ==> VolumeGuid(now, o + 16) == VolumeGuid(run.image, o + 16)
    ensures VolumeFits(run.image, o) && VolumeGuid(run.image, o + 16) ==>
              && o + 54 <= |now| && At(now, o + 52, 2) == At(run.image, o + 52, 2)
              && (At(run.image, o + 52, 2) != 0 ==>
                    ExtendedAt(run.image, o) + 20 <= |now| &&
                    At(now, ExtendedAt(run.image, o) + 16, 4) == At(run.image, ExtendedAt(run.image, o) + 16, 4))
              && (At(run.image, o + 52, 2) == 0 ==> At(now, o + 48, 2) == At(run.image, o + 48, 2))
  {
    hide At, ExtendedAt, Held, Next, VolumeFits;
    var s := run.image;
    var c := VolumeReads(s, o);
    HeldSize(now, run, done);
    assert Field(o + 40, 4) in c && Field(o + 32, 8) in c;
    NextReads(now, run, done, x, Field(o + 40, 4));
    NextReads(now, run, done, x, Field(o + 32, 8));
    if VolumeFits(s, o) {
      assert Field(o + 16, 8) in c && Field(o + 24, 8) in c;
      NextReads(now, run, done, x, Field(o + 16, 8));
      NextReads(now, run, done, x, Field(o + 24, 8));
      if VolumeGuid(s, o + 16) {
        assert Field(o + 52, 2) in c;
        NextReads(now, run, done, x, Field(o + 52, 2));
        if At(s, o + 52, 2) != 0 {
          assert Field(ExtendedAt(s, o) + 16, 4) in c;
          NextReads(now, run, done, x, Field(ExtendedAt(s, o) + 16, 4));
        } else {
          assert Field(o + 48, 2) in c;
          NextReads(now, run, done, x, Field(o + 48, 2));
        }
      }
    }
  }

  lemma VolumeCases(s: seq<byte>, o: nat, first: nat)
    ensures forall f :: f in VolumeReads(s, o) ==> f in Volume(s, o, first).scan.control
    ensures !VolumeFits(s, o) || !VolumeGuid(s, o + 16) ==>
              Volume(s, o, first).scan.sites == [] && Volume(s, o, first).scan.outcome == Failed &&
              Volume(s, o, first).first == first
  {
    hide VolumeFits, VolumeGuid, VolumeReads, Files, FilesAt, VolumeLength;
  }

  lemma VolumeSteps(run: Run, done: seq<Site>, o: nat, first: nat)
    requires VolumeFits(run.image, o) && VolumeGuid(run.image, o + 16) && Next(run, done, Volume(run.image, o, first).scan)
    ensures
      var s := run.image;
      var x := Files(s, FilesAt(s, o), o + VolumeLength(s, o), first);
      && Next(run, done, x.scan) && Volume(s, o, first).scan.sites == x.scan.sites
      && Volume(s, o, first).scan.outcome == x.scan.outcome && Volume(s, o, first).first == x.first
  {
    hide Files, FilesAt, Next, VolumeFits, VolumeGuid, VolumeLength, VolumeReads;
    var s := run.image;
    var x := Files(s, FilesAt(s, o), o + VolumeLength(s, o), first);
    NextThen(run, done, Reading(VolumeReads(s, o), Done), x.scan);
    NoSites(done);
    assert [] + x.scan.sites == x.scan.sites;
  }

  /** One firmware volume; the number of bytes it takes, or -1. */
  method RelocateFvh(a: array<byte>, ghost run: Run, ghost done: seq<Site>, addr: nat, o: nat, first: nat)
    returns (parsed: int, found: nat)
    requires Held(Bytes(a), run, done) && Next(run, done, Volume(run.image, o, first).scan)
    requires Leads(run, Volume(run.image, o, first)) && addr == run.addr < MOD64
    modifies a
    ensures Held(Bytes(a), run, done + Volume(run.image, o, first).scan.sites)
    ensures parsed == if Volume(run.image, o, first).scan.outcome == Done then VolumeLength(run.image, o) else -1
    ensures found == Volume(run.image, o, first).first
  {
    hide At, Bytes, Files, Held, InfoFile, Next, Volume, VolumeReads, Volumes;
    ghost var s, walk := run.image, Volume(run.image, o, first);
    NoSites(done);
    VolumeCases(s, o, first);
    VolumeFields(Bytes(a), run, done, o, walk.scan);
    found := first;
    var signature := ReadLe(a, o + 40, 4);
    if signature != FVH_SIGNATURE {
      return -1, found;
    }
    var length := ReadLe(a, o + 32, 8);
    if length + o > a.Length {
      return -1, found;
    }
    assert VolumeFits(s, o);
    FieldsInside(Bytes(a), run, done, o, walk.scan);
    var low := ReadLe(a, o + 16, 8);
    var high := ReadLe(a, o + 24, 8);
    if low != 0x4f1c_8a3d_8c8c_e578 || high != 0xd32d_c385_6189_3599 {
      return -1, found;
    }
    assert VolumeGuid(s, o + 16);
    var extended := ReadLe(a, o + 52, 2);
    var files;
    if extended != 0 {
      var size := ReadLe(a, o + extended + 16, 4);
      files := AlignUp(o + extended + size, 8);
    } else {
      var header := ReadLe(a, o + 48, 2);
      files := o + header;
    }
    VolumeSteps(run, done, o, first);
    var ok;
    ok, found := RelocateFiles(a, run, done, addr, files, o + length, first);
    parsed := if ok then length else -1;
  }

  lemma FieldsInside(now: seq<byte>, run: Run, done: seq<Site>, o: nat, x: Scan)
    requires Held(now, run, done) && Next(run, done, x) && VolumeFits(run.image, o)
    requires forall f :: f in VolumeReads(run.image, o) ==> f in x.control
    ensures o + 32 <= |now|
  {
    hide *;
    VolumeFields(now, run, done, o, x);
  }

  // ----- The information header's tables

  method FsppReloc(size: nat, entry: nat) returns (place: int)
    requires size >= 4
    ensures place == PatchPlace(size, entry)
  {
    var offset: int := entry % SIXTEEN_MIB;
    if entry / 0x8000_0000 % 2 == 1 {
      offset := size - (SIXTEEN_MIB - offset);
    }
    // A negative offset is a huge one to the original.
    if offset < 0 || offset > size - 4 {
      return -1;
    }
    place := offset;
  }

  // The distance of the whole image, which the tables are moved by.
  ghost predicate Distance(run: Run, adjustment: int) {
    adjustment == run.addr - Base(run.image)
  }

  lemma DistanceIs(run: Run, adjustment: int, p: Site)
    requires Distance(run, adjustment) && p.owner == Whole && p.width == 4
    ensures Delta(run.image, Base(run.image), run.addr, p) == Mod64(adjustment)
  {
    hide Base, Mod64;
  }

  lemma PatchIs(size: nat, o: nat, entry: nat)
    ensures
      Patch(size, o, entry) ==
      Scan([Field(o, 4)], if PatchPlace(size, entry) >= 0 then [Site(PatchPlace(size, entry), 4, Whole)] else [], Done)
  {
    hide PatchPlace;
  }

  lemma PatchesUnfold(s: seq<byte>, o: nat, n: nat)
    ensures Patches(s, o, n) ==
            if n == 0 then NOTHING else Then(Patch(|s|, o, At(s, o, 4)), Patches(s, o + 4, n - 1))
  {
    hide Then, Patch, At;
  }

  lemma Add32(v: nat, adjustment: int)
    ensures (v + Mod64(adjustment)) % Modulus(4) == (v + adjustment) % MOD32
  {
    Shift32(v + adjustment, -(adjustment / MOD64) * 0x1_0000_0000);
  }

  method RelocatePatches(a: array<byte>, ghost run: Run, ghost done: seq<Site>, start: nat, n: nat, adjustment: int)
    requires Held(Bytes(a), run, done) && Next(run, done, Patches(run.image, start, n)) && Distance(run, adjustment)
    requires a.Length >= 4
    modifies a
    ensures Held(Bytes(a), run, done + Patches(run.image, start, n).sites)
    ensures Patches(run.image, start, n).outcome == Done
  {
    hide Apply, At, Base, Bytes, Delta, Held, LeBytes, Mod64, Next, Patch, PatchPlace;
    hide Patches, Put, Then;
    ghost var s, all, now := run.image, Patches(run.image, start, n), done;
    HeldSize(Bytes(a), run, done);
    for i := 0 to n
      invariant Held(Bytes(a), run, now) && Next(run, now, Patches(s, start + 4 * i, n - i))
      invariant Behind(done, all, now, Patches(s, start + 4 * i, n - i))
    {
      var o := start + 4 * i;
      ghost var x, y := Patch(|s|, o, At(s, o, 4)), Patches(s, o + 4, n - i - 1);
      PatchesUnfold(s, o, n - i);
      PatchIs(|s|, o, At(s, o, 4));
      NextThen(run, now, x, y);
      BehindThen(done, all, now, x, y);
      NextReads(Bytes(a), run, now, x, Field(o, 4));
      var entry := ReadLe(a, o, 4);
      var place := FsppReloc(a.Length, entry);
      NoSites(now);
      if place >= 0 {
        ghost var p := Site(place, 4, Whole);
        DistanceIs(run, adjustment, p);
        NextSite(Bytes(a), run, now, x, p, Mod64(adjustment));
        WriteIsApply(Bytes(a), place, 4, Mod64(adjustment));
        var v := ReadLe(a, place, 4);
        Add32(v, adjustment);
        WriteLe(a, place, 4, (v + adjustment) % MOD32);
      }
      now := now + x.sites;
      assert start + 4 * (i + 1) == o + 4;
    }
    PatchesUnfold(s, start + 4 * n, 0);
    BehindAll(done, all, now, NOTHING);
  }

  lemma TableSteps(now: seq<byte>, run: Run, done: seq<Site>, o: nat)
    requires Held(now, run, done) && Next(run, done, PatchTable(run.image, o)) && o + 12 <= |run.image|
    ensures |now| == |run.image| && At(now, o + 4, 2) == At(run.image, o + 4, 2)
    ensures At(run.image, o + 4, 2) + o > |run.image| ==> PatchTable(run.image, o) == Scan([Field(o + 4, 2)], [], Failed)
    ensures At(run.image, o + 4, 2) + o <= |run.image| ==>
              var x := Patches(run.image, o + 12, At(run.image, o + 8, 4));
              && At(now, o + 8, 4) == At(run.image, o + 8, 4) && Next(run, done, x)
              && PatchTable(run.image, o).sites == x.sites && PatchTable(run.image, o).outcome == x.outcome
  {
    hide At, Held, Next, Patches;
    var s, all := run.image, PatchTable(run.image, o);
    HeldSize(now, run, done);
    if At(s, o + 4, 2) + o > |s| {
      NextReads(now, run, done, all, Field(o + 4, 2));
    } else {
      var head := Reading([Field(o + 4, 2), Field(o + 8, 4)], Done);
      var x := Patches(s, o + 12, At(s, o + 8, 4));
      NextThen(run, done, head, x);
      NoSites(done);
      NextReads(now, run, done, head, Field(o + 4, 2));
      NextReads(now, run, done, head, Field(o + 8, 4));
      assert [] + x.sites == x.sites;
    }
  }

  method RelocatePatchTable(a: array<byte>, ghost run: Run, ghost done: seq<Site>, o: nat, adjustment: int)
    returns (ok: bool)
    requires Held(Bytes(a), run, done) && Next(run, done, PatchTable(run.image, o)) && Distance(run, adjustment)
    modifies a
    ensures Held(Bytes(a), run, done + PatchTable(run.image, o).sites)
    ensures ok <==> PatchTable(run.image, o).outcome == Done
  {
    hide At, Bytes, Held, Next, Patches, Then;
    ghost var s := run.image;
    HeldSize(Bytes(a), run, done);
    NoSites(done);
    if o + 12 > a.Length {
      return false;
    }
    TableSteps(Bytes(a), run, done, o);
    var header := ReadLe(a, o + 4, 2);
    if header + o > a.Length {
      return false;
    }
    var n := ReadLe(a, o + 8, 4);
    RelocatePatches(a, run, done, o + 12, n, adjustment);
    ok := true;
  }

  lemma TablesUnfold(s: seq<byte>, o: nat)
    ensures Tables(s, o) ==
            if o + 8 > |s| then Scan([], [], Failed)
            else if At(s, o, 4) == FSPP_SIGNATURE then Then(Scan([Field(o, 4)], [], Done), PatchTable(s, o))
            else if At(s, o + 4, 4) == 0 then Scan([Field(o, 4), Field(o + 4, 4)], [], Endless)
            else Then(Scan([Field(o, 4), Field(o + 4, 4)], [], Done), Tables(s, o + At(s, o + 4, 4)))
  {
    hide At, PatchTable, Then;
  }

  lemma TableHeads(now: seq<byte>, run: Run, done: seq<Site>, o: nat)
    requires Held(now, run, done) && Next(run, done, Tables(run.image, o)) && o + 8 <= |run.image|
    ensures |now| == |run.image| && At(now, o, 4) == At(run.image, o, 4)
    ensures At(run.image, o, 4) == FSPP_SIGNATURE ==>
              var x := PatchTable(run.image, o);
              Next(run, done, x) && Tables(run.image, o).sites == x.sites && Tables(run.image, o).outcome == x.outcome
    ensures At(run.image, o, 4) != FSPP_SIGNATURE ==>
              var x := Tables(run.image, o + At(run.image, o + 4, 4));
              && At(now, o + 4, 4) == At(run.image, o + 4, 4) > 0 && Next(run, done, x)
              && Tables(run.image, o).sites == x.sites && Tables(run.image, o).outcome == x.outcome
  {
    hide At, FSPP_SIGNATURE, Held, Next, PatchTable, Tables;
    var s := run.image;
    HeldSize(now, run, done);
    TablesUnfold(s, o);
    NoSites(done);
    NotEndless(run, done, Tables(s, o));
    if At(s, o, 4) == FSPP_SIGNATURE {
      var head, x := Scan([Field(o, 4)], [], Done), PatchTable(s, o);
      NextThen(run, done, head, x);
      NextReads(now, run, done, head, Field(o, 4));
      assert [] + x.sites == x.sites;
    } else {
      var head, x := Scan([Field(o, 4), Field(o + 4, 4)], [], Done), Tables(s, o + At(s, o + 4, 4));
      NextThen(run, done, head, x);
      NextReads(now, run, done, head, Field(o, 4));
      NextReads(now, run, done, head, Field(o + 4, 4));
      assert [] + x.sites == x.sites;
    }
  }

  // The search for the patch table among the tables behind the information header.
  method RelocateTables(a: array<byte>, ghost run: Run, ghost done: seq<Site>, start: nat, adjustment: int) returns (ok: bool)
    requires Held(Bytes(a), run, done) && Next(run, done, Tables(run.image, start)) && Distance(run, adjustment)
    modifies a
    ensures Held(Bytes(a), run, done + Tables(run.image, start).sites)
    ensures ok <==> Tables(run.image, start).outcome == Done
  {
    hide *;
    ghost var s := run.image;
    HeldSize(Bytes(a), run, done);
    var o := start;
    while o + 8 <= a.Length
      invariant Held(Bytes(a), run, done) && Next(run, done, Tables(s, o))
      invariant Tables(s, o).sites == Tables(s, start).sites && Tables(s, o).outcome == Tables(s, start).outcome
    {
      TableHeads(Bytes(a), run, done, o);
      var signature := ReadLe(a, o, 4);
      if signature == FSPP_SIGNATURE {
        ok := RelocatePatchTable(a, run, done, o, adjustment);
        return;
      }
      var length := ReadLe(a, o + 4, 4);
      o := o + length;
    }
    TablesUnfold(s, o);
    NoSites(done);
    ok := false;
  }

  lemma RemainingCases(s: seq<byte>, file: nat)
    ensures file == 0 ==> Remaining(s, file) == Scan([], [], Failed)
    ensures file != 0 ==> forall f :: f in InfoReads(s, file) ==> f in Remaining(s, file).control
    ensures file != 0 && !Named(s, file) ==> Remaining(s, file) == Scan(InfoReads(s, file), [], Failed)
    ensures file != 0 && Named(s, file) ==>
              Remaining(s, file) ==
              Then(Scan(InfoReads(s, file) + [Field(InfoAt(s, file) + 4, 4)], [Site(BaseAt(s, file), 4, Whole)], Done),
                   Tables(s, InfoAt(s, file) + At(s, InfoAt(s, file) + 4, 4)))
  {
    hide InfoReads, Named, InfoAt, BaseAt, At, Tables;
  }

  lemma RemainingSteps(now: seq<byte>, run: Run, done: seq<Site>, file: nat)
    requires Held(now, run, done) && Next(run, done, Remaining(run.image, file))
    requires file != 0 && Named(run.image, file) && file == InfoFile(run.image)
    ensures
      var s, p := run.image, Site(BaseAt(run.image, file), 4, Whole);
      var h := InfoAt(s, file) + 4;
      var x := Tables(s, InfoAt(s, file) + At(s, h, 4));
      && h + 4 <= |now| && Field(h, 4) in Everything(s).control
      && BaseAt(s, file) + 4 <= |now| && At(now, BaseAt(s, file), 4) == Base(s)
      && Next(run, done, Scan([], [p], Done)) && Next(run, done + [p], x)
      && Remaining(s, file).sites == [p] + x.sites && Remaining(s, file).outcome == x.outcome
  {
    hide At, BaseAt, Everything, Held, InfoAt, InfoFile, InfoReads, Named, Next, Remaining, Tables;
    var s, p := run.image, Site(BaseAt(run.image, file), 4, Whole);
    var h := InfoAt(s, file) + 4;
    var head := Scan(InfoReads(s, file) + [Field(h, 4)], [p], Done);
    var x := Tables(s, InfoAt(s, file) + At(s, h, 4));
    RemainingCases(s, file);
    NextThen(run, done, head, x);
    NextIsControl(now, run, done, head, Field(h, 4));
    NextReads(now, run, done, head, Field(h, 4));
    NextPart(run, done, head, p);
    PartOfEverything(now, run, done, head);
    NoSites(done);
    UnmovedReads(now, run, done, [], p);
  }

  /** The information header and its tables; the header's place, or -1. */
  method RelocateRemainingItems(a: array<byte>, ghost run: Run, ghost done: seq<Site>, addr: nat, file: nat)
    returns (at: int)
    requires Held(Bytes(a), run, done) && Next(run, done, Remaining(run.image, file))
    requires file == InfoFile(run.image) && addr == run.addr < MOD64
    modifies a
    ensures Held(Bytes(a), run, done + Remaining(run.image, file).sites)
    ensures at == if Remaining(run.image, file).outcome == Done then InfoAt(run.image, file) else -1
  {
    hide Apply, At, Base, Bytes, Delta, Everything, Held, InfoAt, InfoFile, InfoInside, InfoReads, LeBytes;
    hide Mod64, Named, Next, Put, Remaining, Signed, Tables, Then;
    ghost var s, all := run.image, Remaining(run.image, file);
    NoSites(done);
    RemainingCases(s, file);
    if file == 0 {
      return -1;
    }
    InfoNow(Bytes(a), run, done, all, file);
    var info := InfoHeader(a, file);
    // A wrong signature is reported and otherwise let pass.
    if !info.named {
      return -1;
    }
    RemainingSteps(Bytes(a), run, done, file);
    ghost var p := Site(BaseAt(s, file), 4, Whole);
    var base := ReadLe(a, info.at + 28, 4);
    var adjustment := addr - base;
    DistanceIs(run, adjustment, p);
    NextSite(Bytes(a), run, done, Scan([], [p], Done), p, Mod64(adjustment));
    WriteIsApply(Bytes(a), info.at + 28, 4, Mod64(adjustment));
    Add32(base, adjustment);
    WriteLe(a, info.at + 28, 4, (adjustment + base) % MOD32);
    ControlReads(Bytes(a), run, done + [p], Field(info.at + 4, 4));
    var header := ReadLe(a, info.at + 4, 4);
    ghost var x := Tables(s, info.at + header);
    assert done + [p] + x.sites == done + all.sites;
    var ok := RelocateTables(a, run, done + [p], info.at + header, adjustment);
    at := if ok then info.at else -1;
  }

  // ----- The whole image

  lemma Begin(s: seq<byte>, addr: nat)
    requires WellFormed(s)
    ensures
      var run := Run(s, addr, Volumes(s, 0, 0).scan);
      Held(s, run, []) && Next(run, [], Volumes(s, 0, 0).scan)
  {
    hide AllInside, Base, Places, Relocated, Remaining, Shifted, Volumes, WellFormed;
    RelocatedIs(s, addr);
    var run := Run(s, addr, Volumes(s, 0, 0).scan);
    Nothing(s, Base(s), addr);
    BeginOutcome(s);
    assert [] + run.part.sites == run.part.sites;
    assert forall f :: f in run.part.control ==> f in Everything(s).control;
  }

  lemma Nothing(s: seq<byte>, base: nat, addr: nat)
    ensures AllInside(Places([]), |s|) && Shifted(s, base, addr, []) == s
  {
  }

  lemma BeginOutcome(s: seq<byte>)
    requires WellFormed(s)
    ensures Volumes(s, 0, 0).scan.outcome != Endless
  {
    hide Volumes, Remaining, Orderly, Clear, Named;
  }

  // Volumes are behind: what is left is the information header.
  lemma Turn(now: seq<byte>, s: seq<byte>, addr: nat)
    requires Held(now, Run(s, addr, Volumes(s, 0, 0).scan), Volumes(s, 0, 0).scan.sites)
    requires Volumes(s, 0, 0).scan.outcome == Done
    ensures
      var run := Run(s, addr, Everything(s));
      && Held(now, run, Volumes(s, 0, 0).scan.sites)
      && Next(run, Volumes(s, 0, 0).scan.sites, Remaining(s, InfoFile(s)))
      && Everything(s).sites == Volumes(s, 0, 0).scan.sites + Remaining(s, InfoFile(s)).sites
      && Everything(s).outcome == Remaining(s, InfoFile(s)).outcome
  {
    hide AllInside, Base, InfoFile, Places, Remaining, Shifted, Volumes, WellFormed;
    TurnOutcome(s);
  }

  lemma TurnOutcome(s: seq<byte>)
    requires WellFormed(s)
    ensures Everything(s).outcome != Endless
  {
    hide Everything, Orderly, Clear, Named;
  }

  lemma Finished(now: seq<byte>, run: Run)
    requires Held(now, run, Everything(run.image).sites)
    ensures WellFormed(run.image) && now == Relocated(run.image, run.addr)
  {
    hide AllInside, Base, Everything, Places, Relocated, Shifted, WellFormed;
    RelocatedIs(run.image, run.addr);
  }

  lemma VolumesFail(s: seq<byte>)
    requires Volumes(s, 0, 0).scan.outcome != Done
    ensures Everything(s) == Volumes(s, 0, 0).scan
  {
    hide Volumes, Remaining;
  }

  lemma VolumesSteps(run: Run, done: seq<Site>, o: nat, first: nat)
    requires o < |run.image| && Next(run, done, Volumes(run.image, o, first).scan)
    ensures
      var s, v := run.image, Volume(run.image, o, first);
      && Next(run, done, v.scan)
      && (v.scan.outcome != Done ==> Volumes(s, o, first) == v)
      && (v.scan.outcome == Done && VolumeLength(s, o) == 0 ==>
            Volumes(s, o, first) == Walk(v.scan.(outcome := Failed), v.first))
      && (v.scan.outcome == Done && VolumeLength(s, o) != 0 ==>
            var w := Volumes(s, o + VolumeLength(s, o), v.first);
            && Volumes(s, o, first) == Walk(Then(v.scan, w.scan), w.first) && Next(run, done + v.scan.sites, w.scan)
            && (v.first != 0 ==> w.first == v.first))
  {
    hide Next, Owned, Then, Volume, VolumeLength, Volumes;
    var s, v := run.image, Volume(run.image, o, first);
    VolumesUnfold(s, o, first);
    if v.scan.outcome == Done {
      if VolumeLength(s, o) == 0 {
        NextAnyway(run, done, v.scan, Failed);
      } else {
        var w := Volumes(s, o + VolumeLength(s, o), v.first);
        NextThen(run, done, v.scan, w.scan);
        VolumesOwned(s, o + VolumeLength(s, o), v.first);
      }
    }
  }

  lemma NextAnyway(run: Run, done: seq<Site>, x: Scan, outcome: Outcome)
    requires x.outcome == Done && Next(run, done, x.(outcome := outcome))
    ensures Next(run, done, x)
  {
  }

  /**
   All volumes one after the other. What has been moved is what the image says about its volumes, also when they end in an
   error.
   */
  method RelocateVolumes(a: array<byte>, ghost run: Run, addr: nat) returns (ok: bool, found: nat)
    requires Held(Bytes(a), run, []) && Next(run, [], run.part)
    requires run.part == Volumes(run.image, 0, 0).scan && addr == run.addr < MOD64
    modifies a
    ensures Held(Bytes(a), run, run.part.sites)
    ensures ok <==> run.part.outcome == Done
    ensures found == InfoFile(run.image)
  {
    hide AndThen, Bytes, Held, Next, Then, Volume, VolumeLength, Volumes;
    ghost var s, now := run.image, [];
    HeldSize(Bytes(a), run, []);
    var o := 0;
    found := 0;
    while o < a.Length
      invariant Held(Bytes(a), run, now) && Next(run, now, Volumes(s, o, found).scan)
      invariant Behind([], run.part, now, Volumes(s, o, found).scan)
      invariant Volumes(s, o, found).first == InfoFile(s)
    {
      ghost var v, before := Volume(s, o, found), found;
      VolumesSteps(run, now, o, found);
      var parsed;
      parsed, found := RelocateFvh(a, run, now, addr, o, found);
      // A volume of no length is an error, and one that is not parsed.
      if parsed <= 0 {
        assert now + v.scan.sites == run.part.sites;
        return false, found;
      }
      ghost var w := Volumes(s, o + VolumeLength(s, o), v.first);
      BehindThen([], run.part, now, v.scan, w.scan);
      now := now + v.scan.sites;
      o := o + parsed;
    }
    VolumesUnfold(s, o, found);
    BehindAll([], run.part, now, NOTHING);
    assert [] + run.part.sites == run.part.sites;
    ok := true;
  }

  /** The buffer holds the image relocated; the result is where its information header is, or -1. */
  method FspComponentRelocate(a: array<byte>, addr: nat) returns (at: int)
    requires WellFormed(Bytes(a)) && addr < MOD64
    modifies a
    ensures WellFormed(old(Bytes(a))) && Bytes(a) == Relocated(old(Bytes(a)), addr)
    ensures
      var s := old(Bytes(a));
      at == if Everything(s).outcome == Done then InfoAt(s, InfoFile(s)) else -1
  {
    hide *;
    ghost var s := Bytes(a);
    ghost var run := Run(s, addr, Volumes(s, 0, 0).scan);
    Begin(s, addr);
    var ok, file := RelocateVolumes(a, run, addr);
    if !ok {
      VolumesFail(s);
      Finished(Bytes(a), run);
      return -1;
    }
    Turn(Bytes(a), s, addr);
    run := Run(s, addr, Everything(s));
    at := RelocateRemainingItems(a, run, Volumes(s, 0, 0).scan.sites, addr, file);
    Finished(Bytes(a), run);
  }
}
