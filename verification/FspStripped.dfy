/**
 TE images and the PE images they were stripped from: the two name the same numbers, and relocation keeps what every number
 points at.
 */
module FspStripped {
  import opened Buffers
  import opened FspBytes
  import opened FspSites
  import opened FspFrame
  import opened FspMoves
  import opened FspComposition

  const TE_HEADER: nat := 40

  // Relocation blocks as a linker writes them: an even number of bytes, for RVAs behind what a TE image lacks.
  ghost predicate Regular(s: seq<byte>, o: nat, left: int, stripped: nat)
    decreases left
  {
    var size := At(s, o + 4, 4);
    left > 0 ==>
      && 8 <= size <= left && size % 2 == 0
      && stripped <= At(s, o, 4) && At(s, o, 4) + 0x1000 <= 0x1_0000_0000
      && Regular(s, o + size, left - size, stripped)
  }

  // Two parts of images that hold the same bytes.
  ghost predicate SamePart(s: seq<byte>, o: nat, t: seq<byte>, p: nat, size: int) {
    size > 0 ==> o + size <= |s| && p + size <= |t| && s[o..o + size] == t[p..p + size]
  }

  lemma SamePartReads(s: seq<byte>, o: nat, t: seq<byte>, p: nat, size: int, k: nat, width: nat)
    requires SamePart(s, o, t, p, size) && k + width <= size
    ensures At(s, o + k, width) == At(t, p + k, width)
  {
    if size > 0 {
      hide Le;
      SubSlice(s, o, o + size, k, k + width);
      SubSlice(t, p, p + size, k, k + width);
      LeOfSlice(s, t, o + k, p + k, width);
    }
  }

  lemma SubSlice(s: seq<byte>, lo: nat, hi: nat, a: nat, b: nat)
    requires lo <= hi <= |s| && a <= b <= hi - lo
    ensures s[lo + a..lo + b] == s[lo..hi][a..b]
  {
    forall k | 0 <= k < b - a
      ensures s[lo + a..lo + b][k] == s[lo..hi][a..b][k]
    {
      assert s[lo..hi][a + k] == s[lo + (a + k)];
    }
  }

  lemma SamePartBehind(s: seq<byte>, o: nat, t: seq<byte>, p: nat, size: int, k: nat)
    requires SamePart(s, o, t, p, size) && k <= size
    ensures SamePart(s, o + k, t, p + k, size - k)
  {
    if size > k {
      assert s[o + k..o + size] == s[o..o + size][k..size];
      assert t[p + k..p + size] == t[p..p + size][k..size];
    }
  }

  // x of a TE image at te and y of a PE image at pe name the number at one RVA.
  predicate SameRva(x: Site, te: nat, stripped: nat, y: Site, pe: nat) {
    && y.offset >= pe + stripped
    && x.offset == te + 40 + (y.offset - pe - stripped)
    && x.width == 4 && y.width in {4, 8} && x.owner == Terse(te) && y.owner == Whole
  }

  ghost predicate SameRvas(xs: seq<Site>, te: nat, stripped: nat, ys: seq<Site>, pe: nat) {
    |xs| == |ys| && forall i :: 0 <= i < |xs| ==> SameRva(xs[i], te, stripped, ys[i], pe)
  }

  /** The number named by RVA v lies v - StrippedSize bytes behind the header of 40 bytes. */
  lemma EntryStripped(te: nat, stripped: nat, pe: nat, rva: nat, o: nat, p: nat, entry: nat)
    requires stripped <= rva && rva + 0x1000 <= 0x1_0000_0000 && te < 0x1_0000_0000
    ensures var x, y := Entry(Te(te, stripped - 40), rva, o, entry), Entry(Pe(pe), rva, p, entry);
              x.outcome == y.outcome && SameRvas(x.sites, te, stripped, y.sites, pe)
    ensures var v := rva + entry % 0x1000;
              Place(Te(te, stripped - 40), rva, entry) == te + 40 + (v - stripped) && Place(Pe(pe), rva, entry) == pe + v
  {
    assert entry % 0x1000 < 0x1000;
  }

  lemma SameThen(x: Scan, x': Scan, y: Scan, y': Scan, te: nat, stripped: nat, pe: nat)
    requires x.outcome == y.outcome && SameRvas(x.sites, te, stripped, y.sites, pe)
    requires x'.outcome == y'.outcome && SameRvas(x'.sites, te, stripped, y'.sites, pe)
    ensures Then(x, x').outcome == Then(y, y').outcome && SameRvas(Then(x, x').sites, te, stripped, Then(y, y').sites, pe)
  {
    hide SameRva;
  }

  lemma {:induction false} EntriesStripped(s: seq<byte>, te: nat, stripped: nat, t: seq<byte>, pe: nat,
                                           rva: nat, o: nat, p: nat, n: nat)
    requires stripped <= rva && rva + 0x1000 <= 0x1_0000_0000 && te < 0x1_0000_0000
    requires SamePart(s, o, t, p, 2 * n)
    ensures var x, y := Entries(s, Te(te, stripped - 40), rva, o, n), Entries(t, Pe(pe), rva, p, n);
              x.outcome == y.outcome && SameRvas(x.sites, te, stripped, y.sites, pe)
    decreases n
  {
    hide At, Entry, Then, SameRva, SamePart;
    if n > 0 {
      SamePartReads(s, o, t, p, 2 * n, 0, 2);
      SamePartBehind(s, o, t, p, 2 * n, 2);
      EntryStripped(te, stripped, pe, rva, o, p, At(s, o, 2));
      EntriesStripped(s, te, stripped, t, pe, rva, o + 2, p + 2, n - 1);
      SameThen(Entry(Te(te, stripped - 40), rva, o, At(s, o, 2)), Entries(s, Te(te, stripped - 40), rva, o + 2, n - 1),
               Entry(Pe(pe), rva, p, At(t, p, 2)), Entries(t, Pe(pe), rva, p + 2, n - 1), te, stripped, pe);
    }
  }

  lemma {:induction false} BlocksStripped(s: seq<byte>, te: nat, stripped: nat, t: seq<byte>, pe: nat,
                                          o: nat, p: nat, left: int)
    requires Regular(s, o, left, stripped) && te < 0x1_0000_0000
    requires SamePart(s, o, t, p, left)
    ensures var x, y := Blocks(s, Te(te, stripped - 40), o, left), Blocks(t, Pe(pe), p, left);
              x.outcome == y.outcome && SameRvas(x.sites, te, stripped, y.sites, pe)
    decreases left
  {
    hide At, Entries, Blocks, Then, SameRva, SamePart;
    var te', pe' := Te(te, stripped - 40), Pe(pe);
    if left <= 0 {
      BlocksStop(s, te', o, left);
      BlocksStop(t, pe', p, left);
    } else {
      var rva, size := At(s, o, 4), At(s, o + 4, 4);
      SamePartReads(s, o, t, p, left, 0, 4);
      SamePartReads(s, o, t, p, left, 4, 4);
      SamePartBehind(s, o, t, p, left, 8);
      SamePartShorter(s, o + 8, t, p + 8, left - 8, size - 8);
      SamePartBehind(s, o, t, p, left, size);
      BlocksUnfold(s, te', o, left);
      BlocksUnfold(t, pe', p, left);
      EntriesStripped(s, te, stripped, t, pe, rva, o + 8, p + 8, (size - 8) / 2);
      BlocksStripped(s, te, stripped, t, pe, o + size, p + size, left - size);
      var xs, ys := Entries(s, te', rva, o + 8, (size - 8) / 2), Entries(t, pe', rva, p + 8, (size - 8) / 2);
      var xt, yt := Blocks(s, te', o + size, left - size), Blocks(t, pe', p + size, left - size);
      SameThen(xs, xt, ys, yt, te, stripped, pe);
      SameThen(Reading([Field(o, 4), Field(o + 4, 4)], Done), Then(xs, xt),
               Reading([Field(p, 4), Field(p + 4, 4)], Done), Then(ys, yt), te, stripped, pe);
    }
  }

  lemma SamePartShorter(s: seq<byte>, o: nat, t: seq<byte>, p: nat, size: int, n: int)
    requires SamePart(s, o, t, p, size) && n <= size
    ensures SamePart(s, o, t, p, n)
  {
    if n > 0 {
      assert s[o..o + n] == s[o..o + size][..n] && t[p..p + n] == t[p..p + size][..n];
    }
  }

  // The TE image at te of s has the header and the relocation table of the PE image at pe of t, less the bytes stripped.
  ghost predicate StrippedFrom(s: seq<byte>, te: nat, t: seq<byte>, pe: nat) {
    var stripped, start, size := At(s, te + 6, 2), At(s, te + 24, 4), At(s, te + 28, 4);
    && At(s, te, 2) == 0x5a56
    && At(t, PeDirectory(t, pe), 4) == start && At(t, PeDirectory(t, pe) + 4, 4) == size
    && stripped <= start && start + size < 0x1_0000_0000 && te < 0x1_0000_0000
    && SamePart(s, te + 40 + (start - stripped), t, pe + start, size)
    && Regular(s, te + 40 + (start - stripped), size, stripped)
  }

  /** A TE image's numbers are those of the PE image it was stripped from, one for one, and the base of its own. */
  lemma TeIsStripped(s: seq<byte>, te: nat, t: seq<byte>, pe: nat)
    requires StrippedFrom(s, te, t, pe)
    ensures var stripped := At(s, te + 6, 2);
              && TeScan(s, te).outcome == PeBlocks(t, pe).outcome
              && TeScan(s, te).sites != [] && TeScan(s, te).sites[0] == Site(te + 16, 8, Terse(te))
              && SameRvas(TeScan(s, te).sites[1..], te, stripped, PeBlocks(t, pe).sites, pe)
  {
    hide At, Blocks, Then, PeDirectory, Regular, SamePart, SameRvas, TeReads;
    var stripped, start, size := At(s, te + 6, 2), At(s, te + 24, 4), At(s, te + 28, 4);
    var o, p := te + 40 + (start - stripped), pe + start;
    BlocksStripped(s, te, stripped, t, pe, o, p, size);
    assert TeCut(s, te) + 40 == stripped;
    assert Wrap(te + start - TeCut(s, te)) == o && Extent(start, size) == size;
    SitesBehind([Field(te, 2)] + TeReads(te), [Site(te + 16, 8, Terse(te))], Blocks(s, Te(te, TeCut(s, te)), o, size));
    SitesBehind([Field(PeDirectory(t, pe), 4), Field(PeDirectory(t, pe) + 4, 4)], [], Blocks(t, Pe(pe), p, size));
    assert [] + Blocks(t, Pe(pe), p, size).sites == Blocks(t, Pe(pe), p, size).sites;
  }

  lemma SitesBehind(control: seq<Field>, sites: seq<Site>, x: Scan)
    ensures var z := Then(Scan(control, sites, Done), x);
              z.sites == sites + x.sites && z.outcome == x.outcome && z.sites[|sites|..] == x.sites
  {
  }

  // ----- What numbers point at

  /** Every number of a TE image keeps its distance from where the image is linked, so it points at the same RVA. */
  lemma TePointersFollow(s: seq<byte>, te: nat, addr: nat, x: Site)
    requires WellFormed(s) && TeMember(s, te)
    requires x in Everything(s).sites && x.owner == Terse(te) && x.width == 4
    ensures var t := Relocated(s, addr);
              (At(t, x.offset, 4) - At(t, te + 16, 8)) % 0x1_0000_0000 == (At(s, x.offset, 4) - At(s, te + 16, 8)) % 0x1_0000_0000
  {
    hide *;
    var t, shift := Relocated(s, addr), TeShift(s, te, addr);
    TeReadsAfter(s, te, addr);
    AtSite(s, addr, x);
    TeDelta(s, Base(s), addr, x);
    LinksAre(s, te);
    LinksAre(t, te);
    MovedBoth(At(s, x.offset, 4), At(s, te + 16, 8), shift, 4);
    MovedBoth(At(s, te + 16, 8), At(s, te + 16, 8), shift, 4);
  }

  lemma LinksAre(s: seq<byte>, te: nat)
    ensures TeLink(s, te) == At(s, te + 16, 8)
  {
    hide At;
  }

  // Both are moved by the same amount.
  lemma MovedBoth(v: nat, w: nat, d: nat, width: nat)
    requires width in {4, 8}
    ensures (Sum(v, d, width) - Sum(w, d, width)) % Modulus(width) == (v - w) % Modulus(width)
    ensures Sum(v, d, 4) == Mod32(v + d) && Modulus(4) == 0x1_0000_0000
  {
    if width == 4 {
      Shift32(v - w, (w + d) / MOD32 - (v + d) / MOD32);
    } else {
      Shift64(v - w, (w + d) / MOD64 - (v + d) / MOD64);
    }
  }

  /** So does every number of a PE image, in the width it has. */
  lemma PePointersFollow(s: seq<byte>, addr: nat, x: Site, base: Site)
    requires WellFormed(s) && x in Everything(s).sites && base in Everything(s).sites
    requires x.owner == base.owner == Whole && x.width == base.width
    ensures var t, w := Relocated(s, addr), x.width;
            var m := if w == 4 then 0x1_0000_0000 else 0x1_0000_0000_0000_0000;
              (At(t, x.offset, w) - At(t, base.offset, w)) % m == (At(s, x.offset, w) - At(s, base.offset, w)) % m
  {
    hide *;
    AtSite(s, addr, x);
    AtSite(s, addr, base);
    WholeDelta(s, addr, x);
    WholeDelta(s, addr, base);
    ModulusValue(x.width);
    MovedBoth(At(s, x.offset, x.width), At(s, base.offset, x.width), Mod64(addr - Base(s)), x.width);
  }

  lemma WholeDelta(s: seq<byte>, addr: nat, x: Site)
    requires x.owner == Whole
    ensures Delta(s, Base(s), addr, x) == Mod64(addr - Base(s))
  {
    hide Base;
  }

  lemma ModulusValue(width: nat)
    ensures Modulus(width) == if width == 4 then 0x1_0000_0000 else 0x1_0000_0000_0000_0000
  {
  }

  /**
   A TE image and the PE image it was stripped from stay alike: where corresponding numbers point at one RVA before, each
   relocated with its own image to any address, they do after.
   */
  lemma RelocatedAlike(s: seq<byte>, te: nat, addr: nat, x: Site, t: seq<byte>, addr': nat, y: Site, base: Site)
    requires WellFormed(s) && TeMember(s, te) && x in Everything(s).sites && x.owner == Terse(te) && x.width == 4
    requires WellFormed(t) && y in Everything(t).sites && base in Everything(t).sites
    requires y.owner == base.owner == Whole && y.width == base.width == 4
    ensures var s', t' := Relocated(s, addr), Relocated(t, addr');
              (At(s', x.offset, 4) - At(s', te + 16, 8)) % 0x1_0000_0000 ==
              (At(t', y.offset, 4) - At(t', base.offset, 4)) % 0x1_0000_0000 <==>
              (At(s, x.offset, 4) - At(s, te + 16, 8)) % 0x1_0000_0000 ==
              (At(t, y.offset, 4) - At(t, base.offset, 4)) % 0x1_0000_0000
  {
    hide *;
    TePointersFollow(s, te, addr, x);
    PePointersFollow(t, addr', y, base);
  }
}
