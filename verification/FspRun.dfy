/**
 A relocation under way: what the buffer holds after some of the sites have been moved, and reading and moving the next.
 */
module FspRun {
  import opened Arith
  import opened Buffers
  import opened FspBytes
  import opened FspSites
  import opened FspFrame
  import opened FspMoves
  import opened FspComposition

  // What the buffer held at first, where it goes, and which part of the work is being done.
  datatype Run = Run(image: seq<byte>, addr: nat, part: Scan)

  // The sites in done have been moved, nothing else has.
  ghost predicate Held(now: seq<byte>, run: Run, done: seq<Site>) {
    && WellFormed(run.image)
    && AllInside(Places(done), |run.image|)
    && now == Shifted(run.image, Base(run.image), run.addr, done)
    && done <= Everything(run.image).sites
    && run.part.sites <= Everything(run.image).sites
    && forall f :: f in run.part.control ==> f in Everything(run.image).control
  }

  // x is what comes next in the run.
  ghost predicate Next(run: Run, done: seq<Site>, x: Scan) {
    && done + x.sites <= run.part.sites
    && (forall f :: f in x.control ==> f in run.part.control)
    && x.outcome != Endless
  }

  lemma NextThen(run: Run, done: seq<Site>, x: Scan, y: Scan)
    requires Next(run, done, Then(x, y))
    ensures Next(run, done, x)
    ensures x.outcome == Done ==> Next(run, done + x.sites, y)
  {
    hide Everything;
    var z := Then(x, y);
    if x.outcome == Done {
      assert done + z.sites == done + x.sites + y.sites;
      assert forall f :: f in x.control || f in y.control ==> f in z.control;
    }
  }

  lemma PrefixInside(sites: seq<Site>, done: seq<Site>, size: nat)
    requires done <= sites
    ensures AllInside(Places(sites), size) ==> AllInside(Places(done), size)
    ensures AllApart(Places(sites)) ==> AllApart(Places(done))
    ensures forall f :: Clear(f, sites, size) ==> Clear(f, done, size)
  {
    forall p | p in Places(done)
      ensures p in Places(sites)
    {
      var i :| 0 <= i < |done| && Places(done)[i] == p;
      assert Places(sites)[i] == p;
    }
    assert forall i :: 0 <= i < |done| ==> Places(done)[i] == Places(sites)[i];
    hide Inside, Beside;
  }

  /** A control field reads as at first, whatever has been moved. */
  lemma ControlReads(now: seq<byte>, run: Run, done: seq<Site>, f: Field)
    requires Held(now, run, done) && f in Everything(run.image).control
    ensures |now| == |run.image| && f.offset + f.width <= |now|
    ensures At(now, f.offset, f.width) == At(run.image, f.offset, f.width)
  {
    hide AllApart, AllInside, At, Base, Clear, Everything, InfoFile, InfoReads, Places, Shifted, WellFormed;
    OrderlyParts(run.image);
    PrefixInside(Everything(run.image).sites, done, |run.image|);
    ClearStays(run.image, Base(run.image), run.addr, f, done);
    ClearInside(f, done, |run.image|);
  }

  lemma ClearInside(f: Field, sites: seq<Site>, size: nat)
    requires Clear(f, sites, size)
    ensures f.offset + f.width <= size
  {
  }

  /** Moving the next site. */
  lemma HeldMore(now: seq<byte>, run: Run, done: seq<Site>, x: Site, delta: nat)
    requires Held(now, run, done) && done + [x] <= Everything(run.image).sites
    requires delta % Modulus(x.width) == Delta(run.image, Base(run.image), run.addr, x) % Modulus(x.width)
    ensures Inside(Edit(x.offset, x.width, delta), |now|)
    ensures Held(Apply(now, Edit(x.offset, x.width, delta)), run, done + [x])
  {
    hide AllApart, AllInside, Apply, ApplyAll, Base, Clear, Delta, EditsOf, Everything, InfoFile, InfoReads;
    hide Modulus, Places, Shifted, WellFormed;
    var s, b := run.image, Base(run.image);
    OrderlyParts(s);
    PrefixInside(Everything(s).sites, done + [x], |s|);
    ShiftedIs(s, b, run.addr, done);
    ShiftedIs(s, b, run.addr, done + [x]);
    EditsMore(s, b, run.addr, done, x);
    PlaceInside(done, x, |s|);
    var e := EditOf(s, b, run.addr, x);
    ApplyMore(s, EditsOf(s, b, run.addr, done), e);
    SameTurn(now, e, Edit(x.offset, x.width, delta));
  }

  lemma EditsMore(s: seq<byte>, b: nat, addr: nat, done: seq<Site>, x: Site)
    ensures EditsOf(s, b, addr, done + [x]) == EditsOf(s, b, addr, done) + [EditOf(s, b, addr, x)]
  {
    hide EditOf;
  }

  lemma PlaceInside(done: seq<Site>, x: Site, size: nat)
    requires AllInside(Places(done + [x]), size)
    ensures forall delta :: Inside(Edit(x.offset, x.width, delta), size)
  {
    assert Places(done + [x])[|done|] in Places(done + [x]);
  }

  lemma ApplyMore(s: seq<byte>, es: seq<Edit>, e: Edit)
    requires AllInside(es, |s|) && AllInside(es + [e], |s|) && Inside(e, |s|)
    ensures ApplyAll(s, es + [e]) == Apply(ApplyAll(s, es), e)
  {
    hide Apply, Inside;
    assert (es + [e])[..|es|] == es;
  }

  lemma SameTurn(s: seq<byte>, e: Edit, f: Edit)
    requires Inside(e, |s|) && f.offset == e.offset && f.width == e.width
    requires f.delta % Modulus(e.width) == e.delta % Modulus(e.width)
    ensures Apply(s, f) == Apply(s, e)
  {
    SameSum(Le(s, e.offset, e.width), e.delta, f.delta, e.width);
    hide Put, Le, LeBytes, Sum, Modulus;
  }

  lemma SameSum(v: nat, d: nat, d': nat, w: nat)
    requires d' % Modulus(w) == d % Modulus(w)
    ensures Sum(v, d', w) == Sum(v, d, w)
  {
    if w == 4 {
      Shift32(v + d, d' / MOD32 - d / MOD32);
    } else {
      Shift64(v + d, d' / MOD64 - d / MOD64);
    }
  }

  lemma NextReads(now: seq<byte>, run: Run, done: seq<Site>, x: Scan, f: Field)
    requires Held(now, run, done) && Next(run, done, x) && f in x.control
    ensures |now| == |run.image| && f.offset + f.width <= |now|
    ensures At(now, f.offset, f.width) == At(run.image, f.offset, f.width)
  {
    hide AllInside, At, Base, Everything, Places, Shifted, WellFormed;
    assert f in Everything(run.image).control;
    ControlReads(now, run, done, f);
  }

  lemma NextSite(now: seq<byte>, run: Run, done: seq<Site>, x: Scan, p: Site, delta: nat)
    requires Held(now, run, done) && Next(run, done, x) && x.sites == [p]
    requires delta == Delta(run.image, Base(run.image), run.addr, p)
    ensures Inside(Edit(p.offset, p.width, delta), |now|)
    ensures Held(Apply(now, Edit(p.offset, p.width, delta)), run, done + x.sites)
  {
    hide AllInside, Apply, Base, Delta, Everything, Places, Shifted, WellFormed;
    assert done + [p] <= Everything(run.image).sites;
    HeldMore(now, run, done, p, delta);
  }

  lemma LaterIsClear(sites: seq<Site>, done: seq<Site>, more: seq<Site>, p: Site, size: nat)
    requires done + more + [p] <= sites && AllInside(Places(sites), size) && AllApart(Places(sites))
    ensures Clear(Field(p.offset, p.width), done, size)
  {
    var k := |done| + |more|;
    assert sites[k] == p;
    var places := Places(sites);
    assert places[k] in places && Inside(places[k], size);
    forall q | q in Places(done)
      ensures Beside(q, p.offset, p.offset + p.width)
    {
      var i :| 0 <= i < |done| && Places(done)[i] == q;
      assert sites[i] == done[i];
      assert Beside(places[i], places[k].offset, places[k].offset + places[k].width);
    }
  }

  /** A number that is still to be moved reads as at first. */
  lemma UnmovedReads(now: seq<byte>, run: Run, done: seq<Site>, more: seq<Site>, p: Site)
    requires Held(now, run, done) && done + more + [p] <= Everything(run.image).sites
    ensures |now| == |run.image| && p.offset + p.width <= |now|
    ensures At(now, p.offset, p.width) == At(run.image, p.offset, p.width)
  {
    hide AllApart, AllInside, At, Base, Clear, Everything, InfoFile, InfoReads, Places, Shifted, WellFormed;
    OrderlyParts(run.image);
    LaterIsClear(Everything(run.image).sites, done, more, p, |run.image|);
    ClearStays(run.image, Base(run.image), run.addr, Field(p.offset, p.width), done);
    ClearInside(Field(p.offset, p.width), done, |run.image|);
  }

  // ----- Progress through a scan

  // From start, all of a scan is to be done; done has been, and ahead is left.
  ghost predicate Behind(start: seq<Site>, all: Scan, done: seq<Site>, ahead: Scan) {
    done + ahead.sites == start + all.sites && ahead.outcome == all.outcome
  }

  lemma BehindThen(start: seq<Site>, all: Scan, done: seq<Site>, x: Scan, y: Scan)
    requires Behind(start, all, done, Then(x, y))
    ensures x.outcome == Done ==> Behind(start, all, done + x.sites, y)
    ensures x.outcome != Done ==> Behind(start, all, done, x)
  {
    assert done + (x.sites + y.sites) == done + x.sites + y.sites;
  }

  lemma BehindAll(start: seq<Site>, all: Scan, done: seq<Site>, ahead: Scan)
    requires Behind(start, all, done, ahead) && ahead.sites == []
    ensures done == start + all.sites && ahead.outcome == all.outcome
  {
    assert done + [] == done;
  }

  lemma NoSites(done: seq<Site>)
    ensures done + [] == done
  {
  }

  // ----- Numbers in the buffer

  method ReadLe(a: array<byte>, o: nat, width: nat) returns (v: nat)
    requires o + width <= a.Length
    ensures v == At(Bytes(a), o, width)
  {
    v := 0;
    var i := width;
    while i > 0
      invariant 0 <= i <= width && v == Le(Bytes(a), o + i, width - i)
    {
      i := i - 1;
      v := a[o + i] + 0x100 * v;
    }
  }

  method WriteLe(a: array<byte>, o: nat, width: nat, v: nat)
    requires o + width <= a.Length
    modifies a
    ensures Bytes(a) == Put(old(Bytes(a)), o, LeBytes(v, width))
  {
    MemCpy(a, o, LeBytes(v, width));
  }

  // The number at a site, moved.
  method AddLe(a: array<byte>, o: nat, width: nat, delta: nat)
    requires Inside(Edit(o, width, delta), a.Length)
    modifies a
    ensures Bytes(a) == Apply(old(Bytes(a)), Edit(o, width, delta))
  {
    var v := ReadLe(a, o, width);
    WriteLe(a, o, width, (v + delta) % Modulus(width));
  }
}
