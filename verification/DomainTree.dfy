/** Pass 1 over a domain, and what the domain-level part of pass 2 may hand out. */
module DomainTree {
  import opened Arith
  import opened ResourceTree
  import opened Largest
  import opened WindowLayout
  import opened WindowLoop
  import opened WindowTree
  import opened Placement
  import opened MemRange

  // ----- Pass 1 at the domain

  ghost predicate AllComputed(bus: seq<Device>, n: nat, store: Store, always4G: bool) {
    forall w: Wanted :: IsWindowType(w) ==> BelowComputed(bus, n, store, w, always4G)
  }

  ghost predicate ChangesOnly(s: Store, t: Store, ids: set<nat>) {
    Pass1Changes(s, t) && forall i: nat :: i < |s| && i !in ids ==> t[i] == s[i]
  }

  lemma OtherTypeKept(d: Device, s: Store, t: Store, w: Wanted, w': Wanted, ids: set<nat>, always4G: bool)
    requires IsWindowType(w) && IsWindowType(w') && w != w'
    requires WellFormed(d, s) && Computed(d, s, w', always4G) && Touches(s, t, w, ids)
    ensures Computed(d, t, w', always4G)
  {
    Pass1KeepsIdentity(s, t);
    WellFormedIsSeparate(d, s);
    assert forall r: nat :: r in d.resources ==> r in Ids(d);
    assert forall r: nat :: r in Ids(d) && r < |s| && Matches(s[r].flags, w') ==> t[r] == s[r];
    ComputedFrame(d, s, t, w', always4G);
  }

  // One type of one child: its own layout is added, all others are kept.
  lemma TypeStep(bus: seq<Device>, n: nat, s: Store, t: Store, w: Wanted, always4G: bool)
    requires WellFormedOf(bus, s) && n < |bus| && IsWindowType(w)
    requires Pass1Done(bus[n], s, t, w, always4G)
    ensures WellFormedOf(bus, t)
    ensures forall k: nat, w': Wanted :: k <= n + 1 && IsWindowType(w') && w' != w && BelowComputed(bus, k, s, w', always4G) ==>
              BelowComputed(bus, k, t, w', always4G)
    ensures BelowComputed(bus, n, s, w, always4G) ==> BelowComputed(bus, n + 1, t, w, always4G)
    ensures ChangesOnly(s, t, IdsOf(bus))
  {
    hide Computed;
    Pass1KeepsIdentity(s, t);
    WellFormedOfFrame(bus, s, t);
    ChildIds(bus, n);
    forall k: nat, w': Wanted | k <= n + 1 && IsWindowType(w') && w' != w && BelowComputed(bus, k, s, w', always4G)
      ensures BelowComputed(bus, k, t, w', always4G)
    {
      forall j | 0 <= j < k && bus[j].children != []
        ensures Computed(bus[j], t, w', always4G)
      {
        WellFormedAt(bus, s, j);
        OtherTypeKept(bus[j], s, t, w, w', Ids(bus[n]), always4G);
      }
    }
    if BelowComputed(bus, n, s, w, always4G) {
      ChildStep(bus, n, s, t, w, always4G);
    }
  }

  lemma ThreeTypes(bus: seq<Device>, n: nat, s0: Store, s: Store, t: Store, u: Store, v: Store, always4G: bool)
    requires WellFormedOf(bus, s) && n < |bus|
    requires ChangesOnly(s0, s, IdsOf(bus)) && AllComputed(bus, n, s, always4G)
    requires Pass1Done(bus[n], s, t, IO_WINDOW, always4G)
    requires Pass1Done(bus[n], t, u, MEM_WINDOW, always4G)
    requires Pass1Done(bus[n], u, v, PREFMEM_WINDOW, always4G)
    ensures WellFormedOf(bus, v)
    ensures ChangesOnly(s0, v, IdsOf(bus)) && AllComputed(bus, n + 1, v, always4G)
  {
    hide BelowComputed, Pass1Done, WellFormedOf;
    TypeStep(bus, n, s, t, IO_WINDOW, always4G);
    TypeStep(bus, n, t, u, MEM_WINDOW, always4G);
    TypeStep(bus, n, u, v, PREFMEM_WINDOW, always4G);
    Pass1Transitive(s0, s, t);
    Pass1Transitive(s0, t, u);
    Pass1Transitive(s0, u, v);
  }

  lemma NoChildren(bus: seq<Device>, n: nat, s: Store, always4G: bool)
    requires n < |bus| && bus[n].children == [] && AllComputed(bus, n, s, always4G)
    ensures AllComputed(bus, n + 1, s, always4G)
  {
    forall w: Wanted | IsWindowType(w)
      ensures BelowComputed(bus, n + 1, s, w, always4G)
    {
      assert BelowComputed(bus, n, s, w, always4G);
    }
  }

  // ----- The address space a domain may hand out

  const VGA_BASE: nat := 0x3b0
  const VGA_SIZE: nat := 0x3df - 0x3b0 + 1

  // The granularity of the free list: mem resources are kept apart by whole pages.
  function Granularity(kind: TypeBits): nat {
    if kind == MEM then 12 else 0
  }

  // The block a range covers once rounded outward.
  ghost predicate InBlock(gran: nat, base: nat, size: nat, a: int) {
    0 < size && AlignDown(base, Pow2(gran)) <= a <= AlignUp(base + size, Pow2(gran)) - 1
  }

  predicate HasKind(f: TypeBits, kind: TypeBits) {
    (kind.io ==> f.io) && (kind.mem ==> f.mem) && (kind.irq ==> f.irq) && (kind.drq ==> f.drq)
  }

  predicate IsFixed(r: Resource, kind: TypeBits) {
    HasKind(r.flags.kind, kind) && r.flags.fixed && 0 < r.size
  }

  // Addresses taken by a fixed resource of a set of ids.
  ghost predicate Blocked(ids: set<nat>, s: Store, kind: TypeBits, a: int) {
    exists f: nat :: f in ids && f < |s| && IsFixed(s[f], kind) && InBlock(Granularity(kind), s[f].base, s[f].size, a)
  }

  // The size of a domain window; the source requires base <= limit + 1.
  function WindowSize(r: Resource): nat {
    if r.base <= r.limit + 1 then r.limit + 1 - r.base else 0
  }

  predicate IsDomainWindow(f: Flags, kind: TypeBits) {
    Matches(f, Wanted(kind, None, Some(false)))
  }

  // Addresses of the first n resources of the domain that are windows of the type.
  ghost predicate Offered(list: seq<nat>, n: nat, s: Store, kind: TypeBits, a: int)
    requires n <= |list|
  {
    exists k :: 0 <= k < n && list[k] < |s| && IsDomainWindow(s[list[k]].flags, kind)
                && InBlock(Granularity(kind), s[list[k]].base, WindowSize(s[list[k]]), a)
  }

  ghost predicate Allowed(domain: Device, s: Store, kind: TypeBits, a: int) {
    && Offered(domain.resources, |domain.resources|, s, kind, a)
    && !(kind == IO && InBlock(Granularity(kind), VGA_BASE, VGA_SIZE, a))
    && !Blocked(Ids(domain), s, kind, a)
  }

  // Whole pages that a range touches; single addresses for io.
  lemma InBlockIs(base: nat, size: nat, a: int)
    ensures InBlock(12, base, size, a) <==> 0 < size && base / 0x1000 <= a / 0x1000 <= (base + size - 1) / 0x1000
    ensures InBlock(0, base, size, a) <==> base <= a < base + size
  {
    assert Pow2(6) == 64 && Pow2(12) == 0x1000 && Pow2(0) == 1;
    if 0 < size {
      DownIs(base);
      UpIs(base + size);
      assert IsMultiple(base, 1) && IsMultiple(base + size, 1) by {
        assert base == base * 1 && base + size == (base + size) * 1;
      }
    }
  }

  lemma DownIs(x: nat)
    ensures AlignDown(x, 0x1000) == x / 0x1000 * 0x1000
  {
  }

  lemma UpIs(x: nat)
    requires x > 0
    ensures AlignUp(x, 0x1000) == (x - 1) / 0x1000 * 0x1000 + 0x1000
  {
    DownIs(x + 0xfff);
  }

  /**
   What may be handed out of the io space: what a window of the domain offers from its base to its limit, but not the VGA
   block from 0x3b0 to 0x3df nor what a fixed resource takes.
   */
  lemma AllowedIo(domain: Device, s: Store, a: int)
    ensures var io := TypeBits(true, false, false, false);
              Allowed(domain, s, io, a) <==>
              && !(0x3b0 <= a <= 0x3df)
              && (exists w :: w in domain.resources && w < |s| && s[w].flags.kind == io && !s[w].flags.fixed
                              && s[w].base <= a <= s[w].limit)
              && !(exists f :: f in Ids(domain) && f < |s| && s[f].flags.kind.io && s[f].flags.fixed
                               && s[f].base <= a < s[f].base + s[f].size)
  {
    var io := TypeBits(true, false, false, false);
    assert io == IO && Granularity(io) == 0;
    hide InBlock;
    InBlockIs(VGA_BASE, VGA_SIZE, a);
    forall r: nat | r < |s|
      ensures InBlock(0, s[r].base, s[r].size, a) <==> s[r].base <= a < s[r].base + s[r].size
      ensures InBlock(0, s[r].base, WindowSize(s[r]), a) <==> s[r].base <= a <= s[r].limit
    {
      InBlockIs(s[r].base, s[r].size, a);
      InBlockIs(s[r].base, WindowSize(s[r]), a);
    }
    var list := domain.resources;
    if Offered(list, |list|, s, io, a) {
      var k :| 0 <= k < |list| && list[k] < |s| && IsDomainWindow(s[list[k]].flags, io)
               && InBlock(Granularity(io), s[list[k]].base, WindowSize(s[list[k]]), a);
      assert list[k] in list;
    }
  }

  /** The same for memory, by whole pages of 4 KiB. */
  lemma AllowedMem(domain: Device, s: Store, a: int)
    ensures var mem := TypeBits(false, true, false, false);
              Allowed(domain, s, mem, a) <==>
              && (exists w :: w in domain.resources && w < |s| && s[w].flags.kind == mem && !s[w].flags.fixed
                              && s[w].base <= s[w].limit && s[w].base / 0x1000 <= a / 0x1000 <= s[w].limit / 0x1000)
              && !(exists f :: f in Ids(domain) && f < |s| && s[f].flags.kind.mem && s[f].flags.fixed && 0 < s[f].size
                               && s[f].base / 0x1000 <= a / 0x1000 <= (s[f].base + s[f].size - 1) / 0x1000)
  {
    var mem := TypeBits(false, true, false, false);
    assert mem == MEM && mem != IO && Granularity(mem) == 12;
    hide InBlock;
    forall r: nat | r < |s|
      ensures InBlock(12, s[r].base, s[r].size, a) <==>
              0 < s[r].size && s[r].base / 0x1000 <= a / 0x1000 <= (s[r].base + s[r].size - 1) / 0x1000
      ensures InBlock(12, s[r].base, WindowSize(s[r]), a) <==>
              s[r].base <= s[r].limit && s[r].base / 0x1000 <= a / 0x1000 <= s[r].limit / 0x1000
    {
      InBlockIs(s[r].base, s[r].size, a);
      InBlockIs(s[r].base, WindowSize(s[r]), a);
    }
    var list := domain.resources;
    if Offered(list, |list|, s, mem, a) {
      var k :| 0 <= k < |list| && list[k] < |s| && IsDomainWindow(s[list[k]].flags, mem)
               && InBlock(Granularity(mem), s[list[k]].base, WindowSize(s[list[k]]), a);
      assert list[k] in list;
    }
  }

  lemma InBlockCovers(gran: nat, base: nat, size: nat, a: int)
    requires base <= a < base + size
    ensures InBlock(gran, base, size, a)
  {
  }

  lemma BlockedSplit(x: set<nat>, y: set<nat>, s: Store, kind: TypeBits, a: int)
    ensures Blocked(x + y, s, kind, a) <==> Blocked(x, s, kind, a) || Blocked(y, s, kind, a)
  {
    hide InBlock;
    if Blocked(x, s, kind, a) {
      var f: nat :| f in x && f < |s| && IsFixed(s[f], kind) && InBlock(Granularity(kind), s[f].base, s[f].size, a);
      assert f in x + y;
    }
    if Blocked(y, s, kind, a) {
      var f: nat :| f in y && f < |s| && IsFixed(s[f], kind) && InBlock(Granularity(kind), s[f].base, s[f].size, a);
      assert f in x + y;
    }
  }

  lemma BlockedOne(r: nat, s: Store, kind: TypeBits, a: int)
    requires r < |s|
    ensures Blocked({r}, s, kind, a) <==> IsFixed(s[r], kind) && InBlock(Granularity(kind), s[r].base, s[r].size, a)
  {
    hide InBlock;
    assert r in {r};
  }

  lemma BlockedNone(s: Store, kind: TypeBits)
    ensures forall a: int {:trigger Blocked({}, s, kind, a)} :: !Blocked({}, s, kind, a)
  {
  }

  lemma OfferedStep(list: seq<nat>, n: nat, s: Store, kind: TypeBits, a: int)
    requires n < |list| && list[n] < |s|
    ensures Offered(list, n + 1, s, kind, a) <==>
            Offered(list, n, s, kind, a)
            || (IsDomainWindow(s[list[n]].flags, kind)
                && InBlock(Granularity(kind), s[list[n]].base, WindowSize(s[list[n]]), a))
  {
    hide InBlock;
  }

  // ----- The loop of allocate_toplevel_resources

  // What one placed resource satisfies, in terms of the store before.
  ghost predicate TopPlace(domain: Device, s: Store, t: Store, kind: TypeBits, r: nat, always4G: bool)
    requires r < |s| && r < |t|
  {
    && 0 < s[r].size && t[r] == AssignedAt(s[r], t[r].base)
    && IsMultiple(t[r].base, Pow2(s[r].align))
    && t[r].base + s[r].size - 1 <= EffectiveLimit(s[r], always4G)
    && forall a: int {:trigger Allowed(domain, s, kind, a)} :: t[r].Contains(a) ==> Allowed(domain, s, kind, a)
  }

  // Every resource of the list is untouched or placed; the placed ones are disjoint.
  ghost predicate TopPlaced(domain: Device, list: seq<nat>, s: Store, t: Store, kind: TypeBits, always4G: bool) {
    && |s| == |t|
    && (forall i: nat :: i < |s| && i !in list ==> t[i] == s[i])
    && (forall r: nat :: r in list && r < |s| ==>
          t[r] == s[r] || (!s[r].flags.fixed && TopPlace(domain, s, t, kind, r, always4G)))
    && (forall q: nat, r: nat :: q in list && r in list && q < |s| && r < |s| && q != r && t[q] != s[q] && t[r] != s[r] ==>
          Disjoint(t[q], t[r]))
  }

  // Addresses inside the block of a resource placed so far.
  ghost predicate TopTaken(list: seq<nat>, s: Store, t: Store, kind: TypeBits, a: int) {
    exists q: nat :: q in list && q < |s| && q < |t| && t[q] != s[q]
                     && InBlock(Granularity(kind), t[q].base, t[q].size, a)
  }

  ghost predicate NoRoom(entries: seq<Entry>, x: Resource, always4G: bool) {
    forall b: nat :: !RoomAt(entries, b, EffectiveLimit(x, always4G), x.size, x.align)
  }

  ghost predicate TopLoop(domain: Device, list: seq<nat>, s: Store, t: Store, last: Option<nat>, entries: seq<Entry>,
                          kind: TypeBits, always4G: bool)
  {
    && ValidList(list, s) && (last.Some? ==> last.value in list)
    && TopPlaced(domain, list, s, t, kind, always4G)
    && (forall r: nat :: r in Remaining(list, s, last) ==> t[r] == s[r])
    && (forall a: int {:trigger Covered(entries, a)} ::
          Covered(entries, a) <==> Allowed(domain, s, kind, a) && !TopTaken(list, s, t, kind, a))
    && (forall r: nat :: r in list && r !in Remaining(list, s, last) && !s[r].flags.fixed && 0 < s[r].size && t[r] == s[r] ==>
          NoRoom(entries, s[r], always4G))
  }

  // A resource is passed over only if it asks for nothing or there is no room for it.
  lemma TopSkip(domain: Device, list: seq<nat>, s: Store, t: Store, last: Option<nat>, entries: seq<Entry>,
                kind: TypeBits, always4G: bool, r: nat)
    requires TopLoop(domain, list, s, t, last, entries, kind, always4G)
    requires IsNext(list, s, last, Some(r))
    ensures r in list && r < |s| && t[r] == s[r] && !s[r].flags.fixed
    ensures s[r].size == 0 || NoRoom(entries, s[r], always4G) ==> TopLoop(domain, list, s, t, Some(r), entries, kind, always4G)
  {
    hide Allowed, Covered, TopPlaced, After, NoRoom, TopTaken;
    RemainingShrinks(list, s, last, r);
  }

  lemma RoomMonotone(entries: seq<Entry>, entries': seq<Entry>, b: nat, limit: int, size: nat, alignment: nat)
    requires forall a: int {:trigger Covered(entries', a)} :: Covered(entries', a) ==> Covered(entries, a)
    requires RoomAt(entries', b, limit, size, alignment)
    ensures RoomAt(entries, b, limit, size, alignment)
  {
    hide Covered, IsMultiple, Pow2;
    forall a: int | b <= a < b + size
      ensures Covered(entries, a)
    {
      assert Covered(entries', a);
    }
  }

  lemma RoomShrinks(entries: seq<Entry>, entries': seq<Entry>, x: Resource, always4G: bool)
    requires forall a: int {:trigger Covered(entries', a)} :: Covered(entries', a) ==> Covered(entries, a)
    requires NoRoom(entries, x, always4G)
    ensures NoRoom(entries', x, always4G)
  {
    hide Covered, EffectiveLimit, IsMultiple, Pow2, RoomAt;
    forall b: nat
      ensures !RoomAt(entries', b, EffectiveLimit(x, always4G), x.size, x.align)
    {
      if RoomAt(entries', b, EffectiveLimit(x, always4G), x.size, x.align) {
        RoomMonotone(entries, entries', b, EffectiveLimit(x, always4G), x.size, x.align);
      }
    }
  }

  lemma TakenStep(list: seq<nat>, s: Store, t: Store, kind: TypeBits, r: nat, u: Store, a: int)
    requires |s| == |t| == |u| && r in list && r < |s| && t[r] == s[r] && u[r] != s[r] && u == t[r := u[r]]
    ensures TopTaken(list, s, u, kind, a) <==> TopTaken(list, s, t, kind, a) || InBlock(Granularity(kind), u[r].base, u[r].size, a)
  {
    hide InBlock;
    if TopTaken(list, s, t, kind, a) {
      var q: nat :| q in list && q < |s| && t[q] != s[q] && InBlock(Granularity(kind), t[q].base, t[q].size, a);
      assert u[q] == t[q];
    }
    if TopTaken(list, s, u, kind, a) {
      var q: nat :| q in list && q < |s| && u[q] != s[q] && InBlock(Granularity(kind), u[q].base, u[q].size, a);
      assert q == r || u[q] == t[q];
    }
  }

  lemma TopStep(domain: Device, list: seq<nat>, s: Store, t: Store, last: Option<nat>, entries: seq<Entry>,
                kind: TypeBits, always4G: bool, r: nat, base: nat, u: Store, entries': seq<Entry>)
    requires TopLoop(domain, list, s, t, last, entries, kind, always4G)
    requires IsNext(list, s, last, Some(r)) && r < |s| && 0 < s[r].size && !s[r].flags.isAssigned
    requires RoomAt(entries, base, EffectiveLimit(s[r], always4G), s[r].size, s[r].align)
    requires forall a: int {:trigger Covered(entries', a)} ::
               Covered(entries', a) <==> Covered(entries, a) && !InAction(Granularity(kind), base, s[r].size, a)
    requires |t| == |s| && t[r] == s[r] && u == t[r := AssignedAt(s[r], base)]
    ensures TopLoop(domain, list, s, u, Some(r), entries', kind, always4G)
  {
    hide Allowed, Covered, After, EffectiveLimit, IsMultiple, Pow2, NoRoom, TopTaken, TopPlaced, InBlock, InAction;
    RemainingShrinks(list, s, last, r);
    TopStepPlaced(domain, list, s, t, last, entries, kind, always4G, r, base, u);
    forall a: int
      ensures Covered(entries', a) <==> Allowed(domain, s, kind, a) && !TopTaken(list, s, u, kind, a)
    {
      TakenStep(list, s, t, kind, r, u, a);
      BlockIsAction(Granularity(kind), base, s[r].size, a);
      assert Covered(entries, a) <==> Allowed(domain, s, kind, a) && !TopTaken(list, s, t, kind, a);
    }
    forall q: nat | q in list && q !in Remaining(list, s, Some(r)) && !s[q].flags.fixed && 0 < s[q].size && u[q] == s[q]
      ensures NoRoom(entries', s[q], always4G)
    {
      assert q != r;
      RoomShrinks(entries, entries', s[q], always4G);
    }
  }

  lemma BlockIsAction(gran: nat, base: nat, size: nat, a: int)
    requires 0 < size
    ensures InBlock(gran, base, size, a) <==> InAction(gran, base, size, a)
  {
  }

  lemma TopStepPlaced(domain: Device, list: seq<nat>, s: Store, t: Store, last: Option<nat>, entries: seq<Entry>,
                      kind: TypeBits, always4G: bool, r: nat, base: nat, u: Store)
    requires TopLoop(domain, list, s, t, last, entries, kind, always4G)
    requires IsNext(list, s, last, Some(r)) && r < |s| && 0 < s[r].size
    requires RoomAt(entries, base, EffectiveLimit(s[r], always4G), s[r].size, s[r].align)
    requires |t| == |s| && t[r] == s[r] && u == t[r := AssignedAt(s[r], base)]
    ensures TopPlaced(domain, list, s, u, kind, always4G)
  {
    hide Allowed, Covered, After, EffectiveLimit, IsMultiple, Pow2, NoRoom;
    forall q: nat | q in list && q < |s| && t[q] != s[q]
      ensures Disjoint(t[q], u[r])
    {
      forall a: int
        ensures t[q].Contains(a) ==> !Covered(entries, a)
      {
        if t[q].Contains(a) {
          InBlockCovers(Granularity(kind), t[q].base, t[q].size, a);
        }
      }
      NoOverlap(t[q], u[r], entries);
    }
    forall a: int | u[r].Contains(a)
      ensures Allowed(domain, s, kind, a)
    {
      assert Covered(entries, a);
    }
    TopPlacedStep(domain, list, s, t, kind, always4G, r, u);
  }

  // A placed resource and a block of free addresses have no address in common.
  lemma NoOverlap(x: Resource, y: Resource, entries: seq<Entry>)
    requires 0 < x.size && 0 < y.size
    requires forall a: int {:trigger Covered(entries, a)} :: x.Contains(a) ==> !Covered(entries, a)
    requires forall a: int {:trigger Covered(entries, a)} :: y.Contains(a) ==> Covered(entries, a)
    ensures Disjoint(x, y)
  {
    if !Disjoint(x, y) {
      var a := if x.base < y.base then y.base else x.base;
      assert Covered(entries, a) || !Covered(entries, a);
    }
  }

  lemma TopPlacedStep(domain: Device, list: seq<nat>, s: Store, t: Store, kind: TypeBits, always4G: bool, r: nat, u: Store)
    requires TopPlaced(domain, list, s, t, kind, always4G)
    requires r in list && r < |s| && t[r] == s[r] && !s[r].flags.fixed
    requires |u| == |t| && u == t[r := u[r]] && TopPlace(domain, s, u, kind, r, always4G)
    requires forall q: nat :: q in list && q < |s| && t[q] != s[q] ==> Disjoint(t[q], u[r])
    ensures TopPlaced(domain, list, s, u, kind, always4G)
  {
    hide Allowed, EffectiveLimit, IsMultiple, Pow2;
  }

  // ----- Steps of building the free list

  ghost predicate InAction(gran: nat, base: nat, size: nat, a: int)
    requires 0 < size
  {
    AlignDown(base, Pow2(gran)) <= a <= AlignUp(base + size, Pow2(gran)) - 1
  }

  lemma HoleStep(after: seq<Entry>, before: seq<Entry>, start: seq<Entry>, done: set<nat>, r: nat, s: Store,
                 kind: TypeBits, a: int)
    requires r < |s|
    requires Covered(before, a) <==> Covered(start, a) && !Blocked(done, s, kind, a)
    requires if IsFixed(s[r], kind)
             then Covered(after, a) <==> Covered(before, a) && !InAction(Granularity(kind), s[r].base, s[r].size, a)
             else after == before
    ensures Covered(after, a) <==> Covered(start, a) && !Blocked(done + {r}, s, kind, a)
  {
    hide Covered, AlignUp, AlignDown, Pow2, Blocked;
    BlockedSplit(done, {r}, s, kind, a);
    BlockedOne(r, s, kind, a);
  }

  lemma OfferStep(after: seq<Entry>, before: seq<Entry>, list: seq<nat>, n: nat, s: Store, kind: TypeBits, a: int)
    requires n < |list| && list[n] < |s|
    requires Covered(before, a) <==> Offered(list, n, s, kind, a)
    requires var w := s[list[n]];
             if IsDomainWindow(w.flags, kind) && 0 < WindowSize(w)
             then Covered(after, a) <==> Covered(before, a) || InAction(Granularity(kind), w.base, WindowSize(w), a)
             else after == before
    ensures Covered(after, a) <==> Offered(list, n + 1, s, kind, a)
  {
    hide Covered, AlignUp, AlignDown, Pow2, Offered;
    OfferedStep(list, n, s, kind, a);
  }

  lemma VgaStep(after: seq<Entry>, before: seq<Entry>, kind: TypeBits, a: int)
    requires if kind == IO
             then Covered(after, a) <==> Covered(before, a) && !InAction(Granularity(kind), VGA_BASE, VGA_SIZE, a)
             else after == before
    ensures Covered(after, a) <==> Covered(before, a) && !(kind == IO && InBlock(Granularity(kind), VGA_BASE, VGA_SIZE, a))
  {
  }

  lemma AfterType(bus: seq<Device>, n: nat, s: Store, t: Store, w: Wanted, always4G: bool)
    requires WellFormedOf(bus, s) && n < |bus| && IsWindowType(w)
    requires Pass1Done(bus[n], s, t, w, always4G)
    ensures WellFormedOf(bus, t) && WellFormed(bus[n], t)
  {
    Pass1KeepsIdentity(s, t);
    WellFormedOfFrame(bus, s, t);
    WellFormedAt(bus, t, n);
  }

  lemma ChangesNothing(s: Store, ids: set<nat>)
    ensures ChangesOnly(s, s, ids)
  {
  }

  // ----- The loop of allocate_toplevel_resources, continued

  // At the domain mem and prefmem are one space.
  function AnyPrefetch(kind: TypeBits): Wanted {
    Wanted(kind, None, None)
  }

  lemma TopListValid(domain: Device, s: Store, kind: TypeBits)
    requires InStore(Ids(domain), s) && SeparateOf(domain.children) && NoSubtractive(IdsOf(domain.children), s)
    ensures ValidList(SearchOrder(domain.children, s, AnyPrefetch(kind)), s)
  {
    assert IdsOf(domain.children) <= Ids(domain);
    SearchMembers(domain.children, s, AnyPrefetch(kind));
  }

  lemma TopNothing(domain: Device, list: seq<nat>, s: Store, kind: TypeBits, always4G: bool)
    requires list == []
    ensures TopPlaced(domain, list, s, s, kind, always4G) && TopFull(domain, list, s, s, kind, always4G)
  {
  }

  lemma TopStart(domain: Device, list: seq<nat>, s: Store, entries: seq<Entry>, kind: TypeBits, always4G: bool)
    requires ValidList(list, s)
    requires forall a: int {:trigger Covered(entries, a)} :: Covered(entries, a) <==> Allowed(domain, s, kind, a)
    ensures TopLoop(domain, list, s, s, None, entries, kind, always4G)
  {
    hide Allowed, Covered, NoRoom;
  }

  lemma TopIdentity(domain: Device, list: seq<nat>, s: Store, t: Store, kind: TypeBits, always4G: bool)
    requires TopPlaced(domain, list, s, t, kind, always4G)
    ensures SameIdentity(s, t)
    ensures forall i: nat :: i < |s| ==>
              t[i].align == s[i].align && t[i].size == s[i].size && t[i].flags.fixed == s[i].flags.fixed
  {
    hide Allowed;
    forall i: nat | i < |s|
      ensures t[i].Identity() == s[i].Identity() && t[i].align == s[i].align && t[i].size == s[i].size
    {
      assert i !in list || t[i] == s[i] || TopPlace(domain, s, t, kind, i, always4G);
    }
  }

  lemma TopUnder(domain: Device, list: seq<nat>, s: Store, t: Store, last: Option<nat>, entries: seq<Entry>,
                 kind: TypeBits, always4G: bool)
    requires list == SearchOrder(domain.children, s, AnyPrefetch(kind))
    requires TopLoop(domain, list, s, t, last, entries, kind, always4G)
    ensures SearchOrder(domain.children, t, AnyPrefetch(kind)) == list && ValidList(list, t)
    ensures last.Some? ==> last.value in list
  {
    hide Allowed, Covered, TopPlaced;
    TopIdentity(domain, list, s, t, kind, always4G);
    SearchOrderFrame(domain.children, s, t, AnyPrefetch(kind));
  }

  lemma TopNext(domain: Device, list: seq<nat>, s: Store, t: Store, last: Option<nat>, entries: seq<Entry>,
                kind: TypeBits, always4G: bool, next: Option<nat>)
    requires TopLoop(domain, list, s, t, last, entries, kind, always4G)
    requires ValidList(list, t) && IsNext(list, t, last, next)
    ensures IsNext(list, s, last, next)
    ensures next.Some? ==> next.value < |s| == |t| && Remaining'(list, s, next) < Remaining'(list, s, last)
  {
    hide Allowed, Covered, TopPlaced, After;
    TopIdentity(domain, list, s, t, kind, always4G);
    RemainingFrame(list, s, t, last, next);
    if next.Some? {
      NextShrinks(list, s, last, next.value);
    }
  }

  // No aligned block within the limit of r is free of forbidden and taken addresses.
  ghost predicate NoPlace(domain: Device, list: seq<nat>, s: Store, t: Store, kind: TypeBits, x: Resource, always4G: bool) {
    forall b: nat {:trigger IsMultiple(b, Pow2(x.align))} ::
      IsMultiple(b, Pow2(x.align)) && b + x.size - 1 <= EffectiveLimit(x, always4G) ==>
      exists a: int :: b <= a < b + x.size && !(Allowed(domain, s, kind, a) && !TopTaken(list, s, t, kind, a))
  }

  // Resources left without a place really do not fit.
  ghost predicate TopFull(domain: Device, list: seq<nat>, s: Store, t: Store, kind: TypeBits, always4G: bool) {
    |s| == |t| && forall r: nat :: r in list && r < |s| && !s[r].flags.fixed && 0 < s[r].size && t[r] == s[r] ==>
      NoPlace(domain, list, s, t, kind, s[r], always4G)
  }

  lemma NoRoomNoPlace(domain: Device, list: seq<nat>, s: Store, t: Store, entries: seq<Entry>, kind: TypeBits, x: Resource,
                      always4G: bool)
    requires forall a: int {:trigger Covered(entries, a)} ::
               Covered(entries, a) <==> Allowed(domain, s, kind, a) && !TopTaken(list, s, t, kind, a)
    requires NoRoom(entries, x, always4G)
    ensures NoPlace(domain, list, s, t, kind, x, always4G)
  {
    hide Allowed, TopTaken, Covered, EffectiveLimit, Pow2;
    forall b: nat | IsMultiple(b, Pow2(x.align)) && b + x.size - 1 <= EffectiveLimit(x, always4G)
      ensures exists a: int :: b <= a < b + x.size && !(Allowed(domain, s, kind, a) && !TopTaken(list, s, t, kind, a))
    {
      assert !RoomAt(entries, b, EffectiveLimit(x, always4G), x.size, x.align);
      var a: int :| b <= a < b + x.size && !Covered(entries, a);
    }
  }

  lemma TopEnd(domain: Device, list: seq<nat>, s: Store, t: Store, last: Option<nat>, entries: seq<Entry>,
               kind: TypeBits, always4G: bool)
    requires TopLoop(domain, list, s, t, last, entries, kind, always4G)
    requires IsNext(list, s, last, None)
    ensures TopPlaced(domain, list, s, t, kind, always4G) && TopFull(domain, list, s, t, kind, always4G)
  {
    hide Allowed, TopTaken, Covered, EffectiveLimit, Pow2, NoRoom, NoPlace, TopPlaced, After;
    TopPlacedLength(domain, list, s, t, kind, always4G);
    forall r: nat | r in list && r < |s| && !s[r].flags.fixed && 0 < s[r].size && t[r] == s[r]
      ensures NoPlace(domain, list, s, t, kind, s[r], always4G)
    {
      assert r !in Remaining(list, s, last);
      NoRoomNoPlace(domain, list, s, t, entries, kind, s[r], always4G);
    }
  }

  lemma TopPlacedLength(domain: Device, list: seq<nat>, s: Store, t: Store, kind: TypeBits, always4G: bool)
    requires TopPlaced(domain, list, s, t, kind, always4G)
    ensures |s| == |t|
  {
  }

  ghost predicate Unplaced(domain: Device, s: Store, kind: TypeBits)
    requires InStore(Ids(domain), s)
  {
    forall i: nat :: i in IdsOf(domain.children) && !s[i].flags.fixed && s[i].flags.kind == kind ==>
      !s[i].flags.isAssigned
  }

  lemma TopUnassigned(domain: Device, s: Store, kind: TypeBits, r: nat)
    requires InStore(Ids(domain), s) && SeparateOf(domain.children) && NoSubtractive(IdsOf(domain.children), s)
    requires Unplaced(domain, s, kind)
    requires r in SearchOrder(domain.children, s, AnyPrefetch(kind))
    ensures r < |s| && (s[r].flags.fixed || !s[r].flags.isAssigned)
  {
    assert IdsOf(domain.children) <= Ids(domain);
    SearchMembers(domain.children, s, AnyPrefetch(kind));
    OnBusInIds(domain.children, r);
  }
}
