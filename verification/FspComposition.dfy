/**
 Relocating an FSP image again: to another place, to the same place, and back.
 */
module FspComposition {
  import opened Buffers
  import opened FspBytes
  import opened FspSites
  import opened FspFrame
  import opened FspMoves

  // The run gets as far as the information header, whose base address it updates.
  ghost predicate Finds(s: seq<byte>) {
    Volumes(s, 0, 0).scan.outcome == Done && Named(s, InfoFile(s))
  }

  lemma OrderlyParts(s: seq<byte>)
    requires WellFormed(s)
    ensures AllInside(Places(Everything(s).sites), |s|) && AllApart(Places(Everything(s).sites))
    ensures forall f :: f in Everything(s).control ==> Clear(f, Everything(s).sites, |s|)
    ensures InfoFile(s) != 0 ==> forall f :: f in InfoReads(s, InfoFile(s)) ==> Clear(f, Everything(s).sites, |s|)
  {
    hide AllInside, AllApart, Clear, Everything, InfoReads, Named, InfoFile, Places;
  }

  lemma RelocatedIs(s: seq<byte>, addr: nat)
    requires WellFormed(s)
    ensures AllInside(Places(Everything(s).sites), |s|)
    ensures Relocated(s, addr) == Shifted(s, Base(s), addr, Everything(s).sites)
  {
    hide AllInside, AllApart, Clear, Everything, InfoReads, Named, InfoFile, Places, Base, Shifted;
  }

  lemma ShiftedIs(s: seq<byte>, base: nat, addr: nat, sites: seq<Site>)
    requires AllInside(Places(sites), |s|)
    ensures AllInside(EditsOf(s, base, addr, sites), |s|)
    ensures Shifted(s, base, addr, sites) == ApplyAll(s, EditsOf(s, base, addr, sites))
  {
    PlacesInside(s, base, addr, sites, |s|);
    hide AllInside, ApplyAll, EditsOf, Places;
  }

  /** A field that no site touches is the same after the move. */
  lemma FieldStays(s: seq<byte>, addr: nat, f: Field)
    requires WellFormed(s) && Clear(f, Everything(s).sites, |s|)
    ensures At(Relocated(s, addr), f.offset, f.width) == At(s, f.offset, f.width)
  {
    hide *;
    OrderlyParts(s);
    RelocatedIs(s, addr);
    ClearStays(s, Base(s), addr, f, Everything(s).sites);
  }

  /** The image says the same about itself wherever it is. */
  lemma PlanStays(s: seq<byte>, addr: nat)
    requires WellFormed(s)
    ensures Everything(Relocated(s, addr)) == Everything(s)
    ensures Volumes(Relocated(s, addr), 0, 0) == Volumes(s, 0, 0)
    ensures Named(Relocated(s, addr), InfoFile(s)) == Named(s, InfoFile(s))
    ensures InfoFile(s) != 0 ==>
              InfoReads(Relocated(s, addr), InfoFile(s)) == InfoReads(s, InfoFile(s)) &&
              BaseAt(Relocated(s, addr), InfoFile(s)) == BaseAt(s, InfoFile(s)) &&
              Signed(Relocated(s, addr), InfoFile(s)) == Signed(s, InfoFile(s))
  {
    hide AllApart, AllInside, At, Clear, Everything, InfoAt, InfoFile, InfoReads, Places, Relocated;
    hide SECTION_RAW, SectionsAt, Signed, Volumes, WellFormed;
    var t := Relocated(s, addr);
    OrderlyParts(s);
    forall f | f in Everything(s).control
      ensures At(s, f.offset, f.width) == At(t, f.offset, f.width)
    {
      FieldStays(s, addr, f);
    }
    SameEverything(s, t);
    if InfoFile(s) != 0 {
      forall f | f in InfoReads(s, InfoFile(s))
        ensures At(s, f.offset, f.width) == At(t, f.offset, f.width)
      {
        FieldStays(s, addr, f);
      }
      SameInfo(s, t, InfoFile(s));
    }
  }

  /** A moved image can be moved again. */
  lemma StaysWellFormed(s: seq<byte>, addr: nat)
    requires WellFormed(s)
    ensures WellFormed(Relocated(s, addr)) && InfoFile(Relocated(s, addr)) == InfoFile(s)
    ensures Finds(Relocated(s, addr)) <==> Finds(s)
  {
    PlanStays(s, addr);
    NamedFile(s);
    NamedFile(Relocated(s, addr));
    hide Everything, Volumes, Orderly, Clear, Named, InfoReads, BaseAt, Relocated;
  }

  lemma NamedFile(s: seq<byte>)
    ensures Named(s, InfoFile(s)) ==> InfoFile(s) != 0
  {
    hide InfoGuid, SectionsAt, At, InfoFile;
  }

  // ----- What the moved numbers read

  lemma AtSite(s: seq<byte>, addr: nat, x: Site)
    requires WellFormed(s) && x in Everything(s).sites
    ensures x.width in {4, 8} && x.offset + x.width <= |s|
    ensures At(Relocated(s, addr), x.offset, x.width) ==
            Sum(At(s, x.offset, x.width), Delta(s, Base(s), addr, x), x.width)
  {
    hide *;
    OrderlyParts(s);
    RelocatedIs(s, addr);
    var i :| 0 <= i < |Everything(s).sites| && Everything(s).sites[i] == x;
    SiteReads(s, Base(s), addr, Everything(s).sites, i);
  }

  lemma InSecond(x: Scan, y: Scan, p: Site)
    requires x.outcome == Done && p in y.sites
    ensures p in Then(x, y).sites
  {
  }

  lemma BaseIsSite(s: seq<byte>)
    requires Finds(s)
    ensures Site(BaseAt(s, InfoFile(s)), 4, Whole) in Everything(s).sites
  {
    hide Volumes, InfoAt, Tables, InfoReads, At;
    InSecond(Volumes(s, 0, 0).scan, Remaining(s, InfoFile(s)), Site(BaseAt(s, InfoFile(s)), 4, Whole));
  }

  /** The information header of a moved image gives the image's address. */
  lemma BaseIsAddress(s: seq<byte>, addr: nat)
    requires WellFormed(s) && Finds(s)
    ensures Base(Relocated(s, addr)) == Mod32(addr)
  {
    hide At, BaseAt, Everything, InfoFile, InfoReads, Named, Relocated, Signed, TeLink, TeShift;
    hide Volumes, WellFormed;
    BaseIsSite(s);
    AtSite(s, addr, Site(BaseAt(s, InfoFile(s)), 4, Whole));
    PlanStays(s, addr);
    StaysWellFormed(s, addr);
    NamedFile(s);
    BaseSum(Base(s), addr);
  }

  lemma BaseSum(base: nat, addr: nat)
    ensures (base + (addr - base) % MOD64) % MOD32 == addr % MOD32
  {
    var k := (addr - base) / MOD64;
    assert base + (addr - base) % MOD64 == addr - k * MOD64;
    Shift32(addr, -k * 0x1_0000_0000);
  }

  ghost predicate TeMember(s: seq<byte>, te: nat) {
    Site(te + 16, 8, Terse(te)) in Everything(s).sites && Field(te + 6, 2) in Everything(s).control
  }

  lemma TeReadsAfter(s: seq<byte>, te: nat, addr: nat)
    requires WellFormed(s) && TeMember(s, te)
    ensures TeLink(Relocated(s, addr), te) == Mod32(TeLink(s, te) + TeShift(s, te, addr))
    ensures TeCut(Relocated(s, addr), te) == TeCut(s, te)
  {
    hide AllApart, AllInside, At, Base, Clear, Delta, Everything, InfoFile, InfoReads, Mod32, Mod64, Places;
    hide Relocated, Sum, TeShift, WellFormed;
    var p := Site(te + 16, 8, Terse(te));
    AtSite(s, addr, p);
    TeDelta(s, Base(s), addr, p);
    OrderlyParts(s);
    FieldStays(s, addr, Field(te + 6, 2));
    LinkSumIs(TeLink(s, te), TeShift(s, te, addr));
  }

  lemma LinkSumIs(link: nat, shift: nat)
    ensures Sum(link, Mod64(Mod32(link + shift) - link), 8) == Mod32(link + shift)
  {
    NewLink(link, shift);
  }

  lemma NewLink(link: nat, shift: nat)
    ensures (link + ((link + shift) % MOD32 - link) % MOD64) % MOD64 == (link + shift) % MOD32
  {
    var v := (link + shift) % MOD32;
    Shift64(v, -((v - link) / MOD64));
  }

  /** A TE image is linked where the whole image's address puts it. */
  lemma TeIsLinkedHere(s: seq<byte>, te: nat, addr: nat)
    requires WellFormed(s) && TeMember(s, te)
    ensures TeLink(Relocated(s, addr), te) < MOD32
    ensures Mod32(TeLink(Relocated(s, addr), te) + TeCut(Relocated(s, addr), te)) == Mod32(addr + te)
  {
    hide *;
    TeReadsAfter(s, te, addr);
    LinkSum(TeLink(s, te), TeCut(s, te), addr + te);
    TeShiftIs(s, te, addr);
    Mod32Bound(TeLink(s, te) + TeShift(s, te, addr));
  }

  lemma Mod32Bound(x: int)
    ensures Mod32(x) < MOD32
  {
  }

  lemma TeShiftIs(s: seq<byte>, te: nat, addr: nat)
    ensures TeShift(s, te, addr) == Mod32(addr + te - (TeLink(s, te) + TeCut(s, te)))
  {
    hide TeLink, TeCut;
  }

  lemma TeDelta(s: seq<byte>, base: nat, addr: nat, x: Site)
    requires x.owner.Terse?
    ensures
      var te := x.owner.header;
      var place := Mod32(TeLink(s, te) + TeShift(s, te, addr));
      Delta(s, base, addr, x) == if x.width == 8 then Mod64(place - TeLink(s, te)) else TeShift(s, te, addr)
  {
    hide TeLink, TeShift;
  }

  lemma LinkSum(link: nat, cut: int, place: nat)
    ensures Mod32(Mod32(link + Mod32(place - (link + cut))) + cut) == Mod32(place)
  {
    var k := (place - (link + cut)) / MOD32;
    var v := link + (place - (link + cut)) % MOD32;
    assert v == place - cut - k * MOD32;
    var q := v / MOD32;
    assert v % MOD32 + cut == place - (k + q) * MOD32;
    Shift32(place, -(k + q));
  }

  // ----- One site, moved twice

  lemma WholeTwice(base: nat, mid: nat, addr: nat, width: nat)
    ensures (Mod64(mid - base) + Mod64(addr - mid)) % Modulus(width) == Mod64(addr - base) % Modulus(width)
  {
    var d, k := addr - base, (mid - base) / MOD64 + (addr - mid) / MOD64;
    assert (mid - base) % MOD64 + (addr - mid) % MOD64 == d - MOD64 * k;
    Narrow(d, d - MOD64 * k, k, width);
    Narrow(d, d % MOD64, d / MOD64, width);
  }

  lemma Narrow(x: int, y: int, k: int, width: nat)
    requires y == x - MOD64 * k
    ensures y % Modulus(width) == x % Modulus(width)
  {
    Shift64(x, -k);
    Shift32(x, -k * 0x1_0000_0000);
  }

  lemma TeTwice(link: nat, cut: int, mid: nat, addr: nat)
    ensures
      var shift := Mod32(mid - (link + cut));
      var link' := Mod32(link + shift);
      Mod32(shift + Mod32(addr - (link' + cut))) == Mod32(addr - (link + cut))
  {
    var shift := (mid - (link + cut)) % MOD32;
    var link' := (link + shift) % MOD32;
    var q := (link + shift) / MOD32;
    var z := addr - (link' + cut);
    var r := z / MOD32;
    assert shift + z % MOD32 == addr - (link + cut) + MOD32 * (q - r);
    Shift32(addr - (link + cut), q - r);
  }

  // Where a TE image ends up does not depend on where it was.
  lemma TeLinkAfter(link: nat, cut: int, place: nat)
    ensures Mod32(link + Mod32(place - (link + cut))) == Mod32(place - cut)
  {
    var k := (place - (link + cut)) / MOD32;
    assert link + (place - (link + cut)) % MOD32 == place - cut - k * MOD32;
    Shift32(place - cut, -k);
  }

  lemma LinkTwice(x: nat, y: nat, z: nat)
    ensures Mod64(Mod64(y - x) + Mod64(z - y)) == Mod64(z - x)
  {
    WholeTwice(x, y, z, 8);
    Narrow(z - x, (z - x) % MOD64, (z - x) / MOD64, 8);
  }

  lemma TeSiteComposes(link: nat, link': nat, cut: int, mid: nat, addr: nat)
    requires link' == Mod32(link + Mod32(mid - (link + cut)))
    ensures Mod32(Mod32(mid - (link + cut)) + Mod32(addr - (link' + cut))) == Mod32(addr - (link + cut))
    ensures Mod32(link + Mod32(addr - (link + cut))) == Mod32(link' + Mod32(addr - (link' + cut)))
  {
    hide *;
    TeTwice(link, cut, mid, addr);
    TeLinkAfter(link, cut, addr);
    TeLinkAfter(link', cut, addr);
  }

  lemma ComposeFour(e: Edit, f: Edit, g: Edit)
    requires g.width == 4 && Mod32(e.delta + f.delta) == g.delta
    ensures Compose(e, f, g)
  {
    Shift32(g.delta, 0);
  }

  lemma ComposeEight(e: Edit, f: Edit, g: Edit)
    requires g.width == 8 && Mod64(e.delta + f.delta) == g.delta
    ensures Compose(e, f, g)
  {
    Shift64(g.delta, 0);
  }

  lemma TeComposes(s: seq<byte>, mid: nat, base': nat, addr: nat, x: Site)
    requires WellFormed(s) && x.width in {4, 8} && x.owner.Terse? && TeMember(s, x.owner.header)
    ensures Compose(EditOf(s, Base(s), mid, x), EditOf(Relocated(s, mid), base', addr, x), EditOf(s, Base(s), addr, x))
  {
    hide Base, Compose, Delta, Mod32, Mod64, Relocated, TeCut, TeLink, TeMember, TeShift, WellFormed;
    var t, te := Relocated(s, mid), x.owner.header;
    TeReadsAfter(s, te, mid);
    TeDelta(s, Base(s), mid, x);
    TeDelta(t, base', addr, x);
    TeDelta(s, Base(s), addr, x);
    TeShiftIs(s, te, mid);
    TeShiftIs(t, te, addr);
    TeShiftIs(s, te, addr);
    TeSiteComposes(TeLink(s, te), TeLink(t, te), TeCut(s, te), mid + te, addr + te);
    var e, f, g := EditOf(s, Base(s), mid, x), EditOf(t, base', addr, x), EditOf(s, Base(s), addr, x);
    if x.width == 4 {
      ComposeFour(e, f, g);
    } else {
      LinkTwice(TeLink(s, te), TeLink(t, te), Mod32(TeLink(s, te) + TeShift(s, te, addr)));
      ComposeEight(e, f, g);
    }
  }

  lemma SiteComposes(s: seq<byte>, mid: nat, addr: nat, x: Site)
    requires WellFormed(s) && x in Everything(s).sites && x.width in {4, 8}
    requires x.owner.Terse? ==> TeMember(s, x.owner.header)
    requires x.owner.Whole? ==> Base(Relocated(s, mid)) == mid
    ensures
      var t := Relocated(s, mid);
      Compose(EditOf(s, Base(s), mid, x), EditOf(t, Base(t), addr, x), EditOf(s, Base(s), addr, x))
  {
    hide Base, Everything, Mod32, Mod64, Relocated, TeLink, TeMember, TeShift, WellFormed;
    match x.owner {
      case Whole =>
        WholeTwice(Base(s), mid, addr, x.width);
      case Terse(te) =>
        TeComposes(s, mid, Base(Relocated(s, mid)), addr, x);
    }
  }

  lemma SiteOwner(s: seq<byte>, x: Site)
    requires WellFormed(s) && x in Everything(s).sites
    ensures x.owner.Terse? ==> TeMember(s, x.owner.header)
    ensures x.owner.Whole? && !Finds(s) ==>
              x in Volumes(s, 0, 0).scan.sites && Named(s, InfoFile(s)) && Volumes(s, 0, 0).scan.outcome != Done
  {
    hide WellFormed, Volumes, Remaining;
    var v, r := Volumes(s, 0, 0).scan, Remaining(s, InfoFile(s));
    VolumesOwned(s, 0, 0);
    RemainingOwner(s, InfoFile(s));
    if x in v.sites {
      assert OwnerKnown(s, v, InfoFile(s), x);
      hide Named;
    }
  }

  lemma {:induction false} PatchesOwner(s: seq<byte>, o: nat, n: nat)
    ensures forall p :: p in Patches(s, o, n).sites ==> p.owner == Whole
    decreases n
  {
    hide At, PatchPlace;
    if n > 0 {
      PatchesOwner(s, o + 4, n - 1);
    }
  }

  lemma {:induction false} TablesOwner(s: seq<byte>, o: nat)
    ensures forall p :: p in Tables(s, o).sites ==> p.owner == Whole
    decreases |s| - o
  {
    hide At, Patches;
    if o + 8 <= |s| {
      if At(s, o, 4) == FSPP_SIGNATURE {
        PatchesOwner(s, o + 12, At(s, o + 8, 4));
      } else if At(s, o + 4, 4) != 0 {
        TablesOwner(s, o + At(s, o + 4, 4));
      }
    }
  }

  lemma RemainingOwner(s: seq<byte>, file: nat)
    ensures forall p :: p in Remaining(s, file).sites ==> p.owner == Whole && Named(s, file)
  {
    hide Named, InfoReads, InfoAt, At, Tables;
    TablesOwner(s, InfoAt(s, file) + At(s, InfoAt(s, file) + 4, 4));
  }

  // ----- Main results

  /** Relocating to one address and then to another is relocating to the other at once. */
  lemma RelocateTwice(s: seq<byte>, mid: nat, addr: nat)
    requires WellFormed(s) && Finds(s) && mid < MOD32
    ensures WellFormed(Relocated(s, mid))
    ensures Relocated(Relocated(s, mid), addr) == Relocated(s, addr)
  {
    hide *;
    var t, sites := Relocated(s, mid), Everything(s).sites;
    StaysWellFormed(s, mid);
    PlanStays(s, mid);
    BaseIsAddress(s, mid);
    Mod32Small(mid);
    var es, fs, gs := EditsOf(s, Base(s), mid, sites), EditsOf(t, Base(t), addr, sites), EditsOf(s, Base(s), addr, sites);
    OrderlyParts(s);
    PlacesInside(s, Base(s), mid, sites, |s|);
    forall i | 0 <= i < |sites|
      ensures Compose(es[i], fs[i], gs[i])
    {
      SiteOwner(s, sites[i]);
      AtSite(s, mid, sites[i]);
      SiteComposes(s, mid, addr, sites[i]);
    }
    EditPlaces(s, Base(s), mid, t, Base(t), addr, sites);
    EditPlaces(s, Base(s), mid, s, Base(s), addr, sites);
    EditsCompose(s, es, fs, gs);
    RelocatedIs(s, mid);
    RelocatedIs(t, addr);
    RelocatedIs(s, addr);
    ShiftedIs(s, Base(s), mid, sites);
    ShiftedIs(t, Base(t), addr, sites);
    ShiftedIs(s, Base(s), addr, sites);
  }

  lemma EditPlaces(s: seq<byte>, b: nat, addr: nat, t: seq<byte>, b': nat, addr': nat, sites: seq<Site>)
    ensures SamePlaces(EditsOf(s, b, addr, sites), EditsOf(t, b', addr', sites))
  {
    hide Delta;
  }

  /** Bytes that are no site stay. */
  lemma OnlySitesChange(s: seq<byte>, addr: nat, k: nat)
    requires WellFormed(s) && k < |s| && Relocated(s, addr)[k] != s[k]
    ensures exists x :: x in Everything(s).sites && x.offset <= k < x.offset + x.width
  {
    if forall x :: x in Everything(s).sites ==> !(x.offset <= k < x.offset + x.width) {
      hide *;
      var sites := Everything(s).sites;
      NoSiteAt(sites, k, |s|);
      RelocatedIs(s, addr);
      ShiftedIs(s, Base(s), addr, sites);
      ClearOfEdits(s, Base(s), addr, Field(k, 1), sites);
      ElsewhereStays(s, EditsOf(s, Base(s), addr, sites), k, k + 1);
      SameByte(Relocated(s, addr), s, k, k + 1, k);
    }
  }

  lemma NoSiteAt(sites: seq<Site>, k: nat, size: nat)
    requires k < size && forall x :: x in sites ==> !(x.offset <= k < x.offset + x.width)
    ensures Clear(Field(k, 1), sites, size)
  {
    forall p | p in Places(sites)
      ensures Beside(p, k, k + 1)
    {
      var i :| 0 <= i < |sites| && Places(sites)[i] == p;
      assert sites[i] in sites;
    }
  }

  // Every TE image is linked where the information header puts it.
  ghost predicate Consistent(s: seq<byte>) {
    forall te :: TeMember(s, te) ==>
      TeLink(s, te) < MOD32 && Mod32(TeLink(s, te) + TeCut(s, te)) == Mod32(Base(s) + te)
  }

  lemma {:induction false} AddingNothing(s: seq<byte>, es: seq<Edit>)
    requires AllInside(es, |s|) && forall e :: e in es ==> e.delta % Modulus(e.width) == 0
    ensures ApplyAll(s, es) == s
    decreases |es|
  {
    hide Apply, Inside;
    if es != [] {
      AddingNothing(s, es[..|es| - 1]);
      AddingZero(s, es[|es| - 1]);
    }
  }

  lemma AddingZero(s: seq<byte>, e: Edit)
    requires Inside(e, |s|) && e.delta % Modulus(e.width) == 0
    ensures Apply(s, e) == s
  {
    var o, w := e.offset, e.width;
    hide LeBytes, Le, Pow256, Modulus, Sum;
    LeBound(s, o, w);
    ModulusIs(w);
    SumKeeps(Le(s, o, w), e.delta, w);
    LeReads(Le(s, o, w), w);
    LeDetermines(LeBytes(Le(s, o, w), w), 0, s, o, w);
    assert LeBytes(Le(s, o, w), w)[0..w] == LeBytes(Le(s, o, w), w);
    assert Put(s, o, s[o..o + w]) == s;
  }

  // Adding changes a number unless it adds full turns.
  lemma SumKeeps(v: nat, d: nat, w: nat)
    requires v < Modulus(w)
    ensures Sum(v, d, w) == v <==> d % Modulus(w) == 0
  {
    if w == 4 {
      Shift32(v + d, -(d / MOD32));
    } else {
      Shift64(v + d, -(d / MOD64));
    }
  }

  lemma ZeroTurns(w: nat)
    ensures 0 % Modulus(w) == 0
  {
  }

  lemma HomeDelta(s: seq<byte>, x: Site)
    requires WellFormed(s) && Consistent(s) && x in Everything(s).sites
    ensures Delta(s, Base(s), Base(s), x) == 0
  {
    hide Base, Everything, Finds, InfoFile, Mod32, Named, TeCut, TeLink, TeMember, TeShift, Volumes;
    hide WellFormed;
    SiteOwner(s, x);
    match x.owner {
      case Whole =>
      case Terse(te) =>
        TeDelta(s, Base(s), Base(s), x);
        TeShiftIs(s, te, Base(s));
        ZeroShift(TeLink(s, te) + TeCut(s, te), Base(s) + te);
        Mod32Small(TeLink(s, te));
    }
  }

  lemma Mod32Small(link: nat)
    requires link < MOD32
    ensures Mod32(link) == link
  {
  }

  lemma ZeroShift(x: int, y: int)
    requires Mod32(x) == Mod32(y)
    ensures Mod32(y - x) == 0
  {
    assert y - x == MOD32 * (y / MOD32 - x / MOD32);
    Shift32(0, y / MOD32 - x / MOD32);
  }

  lemma EditAt(s: seq<byte>, base: nat, addr: nat, sites: seq<Site>, i: nat)
    requires i < |sites|
    ensures EditsOf(s, base, addr, sites)[i] == Edit(sites[i].offset, sites[i].width, Delta(s, base, addr, sites[i]))
  {
    hide Delta;
  }

  /** Relocating a consistent image to where it is changes nothing. */
  lemma RelocateHome(s: seq<byte>)
    requires WellFormed(s) && Consistent(s)
    ensures Relocated(s, Base(s)) == s
  {
    hide *;
    var sites := Everything(s).sites;
    var es := EditsOf(s, Base(s), Base(s), sites);
    RelocatedIs(s, Base(s));
    ShiftedIs(s, Base(s), Base(s), sites);
    forall e | e in es
      ensures e.delta % Modulus(e.width) == 0
    {
      var i :| 0 <= i < |es| && es[i] == e;
      HomeDelta(s, sites[i]);
      EditAt(s, Base(s), Base(s), sites, i);
      ZeroTurns(e.width);
    }
    AddingNothing(s, es);
  }

  /** Relocation makes the image consistent, so the next one can be undone. */
  lemma RelocatedIsConsistent(s: seq<byte>, addr: nat)
    requires WellFormed(s) && Finds(s)
    ensures Consistent(Relocated(s, addr))
  {
    hide Base, BaseAt, Everything, Finds, InfoFile, InfoReads, Mod32, Named, Relocated, Signed, TeCut, TeLink;
    hide Volumes, WellFormed;
    var t := Relocated(s, addr);
    PlanStays(s, addr);
    BaseIsAddress(s, addr);
    forall te | TeMember(t, te)
      ensures TeLink(t, te) < MOD32 && Mod32(TeLink(t, te) + TeCut(t, te)) == Mod32(Base(t) + te)
    {
      TeIsLinkedHere(s, te, addr);
      SameRest(addr, te);
    }
  }

  lemma SameRest(addr: nat, te: nat)
    ensures Mod32(Mod32(addr) + te) == Mod32(addr + te)
  {
    Shift32(addr + te, -(addr / MOD32));
  }

  /** There and back: a consistent image is restored. */
  lemma ThereAndBack(s: seq<byte>, addr: nat)
    requires WellFormed(s) && Finds(s) && Consistent(s) && addr < MOD32
    ensures WellFormed(Relocated(s, addr)) && Relocated(Relocated(s, addr), Base(s)) == s
  {
    hide *;
    RelocateTwice(s, addr, Base(s));
    RelocateHome(s);
  }

  // ----- A run that does not reach the information header

  lemma BaseStays(s: seq<byte>, addr: nat, x: Site)
    requires WellFormed(s) && !Finds(s) && x in Everything(s).sites && x.owner.Whole?
    ensures Base(Relocated(s, addr)) == Base(s)
  {
    hide At, BaseAt, Clear, Everything, Finds, InfoFile, InfoReads, Named, Relocated, Signed, TeMember, Volumes;
    hide WellFormed;
    SiteOwner(s, x);
    NamedFile(s);
    PlanStays(s, addr);
    StaysWellFormed(s, addr);
    BaseIsClear(s);
    FieldStays(s, addr, Field(BaseAt(s, InfoFile(s)), 4));
  }

  lemma BaseIsClear(s: seq<byte>)
    requires WellFormed(s) && Named(s, InfoFile(s)) && Volumes(s, 0, 0).scan.outcome != Done
    ensures Clear(Field(BaseAt(s, InfoFile(s)), 4), Everything(s).sites, |s|)
  {
    hide Volumes, Clear, Remaining, Orderly, BaseAt, InfoReads, Named;
  }

  lemma SecondDelta(s: seq<byte>, addr: nat, x: Site)
    requires WellFormed(s) && !Finds(s) && x in Everything(s).sites
    ensures
      var t := Relocated(s, addr);
      Delta(t, Base(t), addr, x) == if x.owner.Whole? then Mod64(addr - Base(s)) else 0
  {
    hide Base, Everything, Finds, InfoFile, Mod32, Named, Relocated, TeCut, TeLink, TeMember, TeShift;
    hide Volumes, WellFormed;
    var t := Relocated(s, addr);
    match x.owner {
      case Whole =>
        BaseStays(s, addr, x);
      case Terse(te) =>
        SiteOwner(s, x);
        TeIsLinkedHere(s, te, addr);
        TeDelta(t, Base(t), addr, x);
        TeShiftIs(t, te, addr);
        ZeroShift(TeLink(t, te) + TeCut(t, te), addr + te);
        Mod32Small(TeLink(t, te));
    }
  }

  lemma {:induction false} KeptNumber(s: seq<byte>, es: seq<Edit>, i: nat)
    requires AllInside(es, |s|) && AllApart(es) && i < |es| && ApplyAll(s, es) == s
    ensures es[i].delta % Modulus(es[i].width) == 0
  {
    hide AllApart, ApplyAll, Le, Modulus, Pow256, Sum;
    EditReads(s, es, i);
    var o, w := es[i].offset, es[i].width;
    assert w in {4, 8} by {
      assert Inside(es[i], |s|);
    }
    LeBound(s, o, w);
    ModulusIs(w);
    SumKeeps(Le(s, o, w), es[i].delta, w);
  }

  ghost predicate FullTurns(s: seq<byte>, addr: nat) {
    forall x :: x in Everything(s).sites && x.owner.Whole? ==> Mod64(addr - Base(s)) % Modulus(x.width) == 0
  }

  /**
   When volumes end in an error, executables have moved but the information header has not: the same call again moves them
   once more, exactly unless there is nothing to move them by.
   */
  lemma FailedRunRepeats(s: seq<byte>, addr: nat)
    requires WellFormed(s) && !Finds(s)
    ensures WellFormed(Relocated(s, addr))
    ensures Relocated(Relocated(s, addr), addr) == Relocated(s, addr) <==> FullTurns(s, addr)
  {
    hide AllApart, AllInside, ApplyAll, Base, BaseAt, Clear, Delta, EditsOf, Everything, Finds, InfoFile, InfoReads;
    hide Mod64, Named, Places, Relocated, SamePlaces, Shifted, Signed, Volumes, WellFormed;
    var t, sites := Relocated(s, addr), Everything(s).sites;
    StaysWellFormed(s, addr);
    PlanStays(s, addr);
    OrderlyParts(t);
    var fs := EditsOf(t, Base(t), addr, sites);
    RelocatedIs(t, addr);
    ShiftedIs(t, Base(t), addr, sites);
    PlacesInside(t, Base(t), addr, sites, |t|);
    if FullTurns(s, addr) {
      forall e | e in fs
        ensures e.delta % Modulus(e.width) == 0
      {
        var i :| 0 <= i < |fs| && fs[i] == e;
        SecondDelta(s, addr, sites[i]);
        EditAt(t, Base(t), addr, sites, i);
        ZeroTurns(e.width);
      }
      AddingNothing(t, fs);
    } else {
      var x :| x in sites && x.owner.Whole? && Mod64(addr - Base(s)) % Modulus(x.width) != 0;
      var i :| 0 <= i < |sites| && sites[i] == x;
      SecondDelta(s, addr, x);
      EditAt(t, Base(t), addr, sites, i);
      if ApplyAll(t, fs) == t {
        KeptNumber(t, fs, i);
      }
    }
  }
}
