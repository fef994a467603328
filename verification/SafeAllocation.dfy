/** The guarantees of a whole run of the resource allocator over one domain. */
module SafeAllocation {
  import opened Arith
  import opened ResourceTree
  import opened Largest
  import opened WindowLayout
  import opened WindowTree
  import opened Placement
  import opened DomainTree
  import opened Nesting

  // Before a run: a well-formed tree in which only fixed resources have a place.
  ghost predicate StartOk(domain: Device, s: Store) {
    && WellFormedOf(domain.children, s)
    && InStore(Ids(domain), s)
    && (set r | r in domain.resources) !! IdsOf(domain.children)
    && forall r: nat :: r in IdsOf(domain.children) && !s[r].flags.fixed ==> !s[r].flags.isAssigned
  }

  // ----- What a run guarantees

  // r got its place from the run.
  ghost predicate Live(domain: Device, s: Store, u: Store, r: nat) {
    r in IdsOf(domain.children) && r < |s| && r < |u| && !s[r].flags.fixed && u[r].flags.isAssigned
  }

  // Aligned as asked, below the limit it had, and only on addresses the domain offers and nothing fixed takes.
  ghost predicate WellPlaced(domain: Device, s: Store, u: Store, r: nat, always4G: bool)
    requires r < |s| && r < |u|
  {
    && u[r].Identity() == s[r].Identity()
    && (u[r].flags.kind == IO || u[r].flags.kind == MEM)
    && 0 < u[r].size && u[r].limit == u[r].base + u[r].size - 1
    && (!s[r].flags.bridge ==> u[r].size == s[r].size && u[r].align == s[r].align)
    && s[r].align <= u[r].align && IsMultiple(u[r].base, Pow2(u[r].align))
    && u[r].limit <= EffectiveLimit(s[r], always4G)
    && forall a: int {:trigger Allowed(domain, s, u[r].flags.kind, a)} ::
         u[r].Contains(a) ==> Allowed(domain, s, u[r].flags.kind, a)
  }

  // a is a bridge window and r is of its type, somewhere behind that bridge.
  ghost predicate Above(bus: seq<Device>, s: Store, a: nat, r: nat)
    decreases bus
  {
    exists j :: 0 <= j < |bus| &&
      (|| (a in bus[j].resources && a < |s| && r < |s| && s[a].flags.bridge
           && Matches(s[r].flags, WantedOf(s[a].flags)) && r in IdsOf(bus[j].children))
       || Above(bus[j].children, s, a, r))
  }

  ghost predicate SameSpace(domain: Device, s: Store, u: Store, q: nat, r: nat) {
    Live(domain, s, u, q) && Live(domain, s, u, r) && u[q].flags.kind == u[r].flags.kind
  }

  ghost predicate Safe(domain: Device, s: Store, u: Store, always4G: bool) {
    && |u| == |s|
    && (forall i: nat :: i < |s| && (i !in IdsOf(domain.children) || s[i].flags.fixed) ==> u[i] == s[i])
    && (forall r: nat :: Live(domain, s, u, r) ==> WellPlaced(domain, s, u, r, always4G))
    && (forall q: nat, r: nat :: q != r && SameSpace(domain, s, u, q, r) ==>
          Disjoint(u[q], u[r]) || Above(domain.children, s, q, r) || Above(domain.children, s, r, q))
    && (forall a: nat, r: nat :: Live(domain, s, u, a) && Live(domain, s, u, r) && Above(domain.children, s, a, r) ==>
          Within(u[r], u[a]))
    && (forall a: nat, r: nat :: Unserved(domain, s, u, a, r) ==> u[r].size == 0 || u[r].limit == 0)
    && (forall r: nat :: LeftOut(domain, s, u, r) ==> CannotFit(domain, s, u, r, always4G))
  }

  // a is a bridge window and r a resource of its type on an enabled device on the bus of that bridge.
  ghost predicate DirectlyBelow(bus: seq<Device>, s: Store, a: nat, r: nat)
    decreases bus
  {
    exists j :: 0 <= j < |bus| &&
      (|| (a in bus[j].resources && a < |s| && r < |s| && s[a].flags.bridge
           && Matches(s[r].flags, WantedOf(s[a].flags)) && OnBus(bus[j].children, r))
       || DirectlyBelow(bus[j].children, s, a, r))
  }

  // The window a has a place, yet r behind it has none.
  ghost predicate Unserved(domain: Device, s: Store, u: Store, a: nat, r: nat) {
    && Live(domain, s, u, a) && DirectlyBelow(domain.children, s, a, r)
    && r < |s| && r < |u| && !Live(domain, s, u, r) && !s[r].flags.fixed
  }

  // A resource on the bus of the domain that asks for space and got none.
  ghost predicate LeftOut(domain: Device, s: Store, u: Store, r: nat) {
    && r < |s| && r < |u| && OnBus(domain.children, r) && !s[r].flags.fixed
    && (s[r].flags.kind == IO || s[r].flags.kind == MEM)
    && 0 < u[r].size && !Live(domain, s, u, r)
  }

  // Addresses in the block of a placed resource of the domain bus.
  ghost predicate Taken(domain: Device, s: Store, u: Store, kind: TypeBits, a: int) {
    exists q: nat :: q < |u| && Live(domain, s, u, q) && OnBus(domain.children, q) && u[q].flags.kind == kind
                     && InBlock(Granularity(kind), u[q].base, u[q].size, a)
  }

  // Every aligned block that ends at or below top meets an address that is not offered, fixed, or taken.
  ghost predicate NoneFits(domain: Device, s: Store, u: Store, r: nat, top: int)
    requires r < |u|
  {
    forall b: nat {:trigger IsMultiple(b, Pow2(u[r].align))} ::
      IsMultiple(b, Pow2(u[r].align)) && b + u[r].size - 1 <= top ==>
      exists a: int :: b <= a < b + u[r].size
                       && !(Allowed(domain, s, u[r].flags.kind, a) && !Taken(domain, s, u, u[r].flags.kind, a))
  }

  ghost predicate CannotFit(domain: Device, s: Store, u: Store, r: nat, always4G: bool)
    requires r < |u|
  {
    NoneFits(domain, s, u, r, EffectiveLimit(u[r], always4G))
  }

  // ----- What the limits are

  /**
   A placed bridge window ends at or below its own limit, and so does everything else where all may go above 4 GiB.
   Otherwise a resource ends at or below its limit, and below 4 GiB unless it is flagged for more; only 64-bit ones and ones
   larger than 4 GiB are not held to a limit.
   */
  lemma PlacedWithinLimit(domain: Device, s: Store, u: Store, r: nat, always4G: bool)
    requires Safe(domain, s, u, always4G) && Live(domain, s, u, r)
    ensures always4G || s[r].flags.bridge || !(s[r].flags.pci64 || s[r].size >= 0x1_0000_0000) ==>
              u[r].base + u[r].size <= s[r].limit + 1
    ensures !always4G && !s[r].flags.bridge && !s[r].flags.pci64 && s[r].size < 0x1_0000_0000 && !s[r].flags.above4G ==>
              u[r].base + u[r].size <= 0x1_0000_0000
    ensures !always4G && !s[r].flags.bridge ==> u[r].base + u[r].size <= 0x1_0000_0000_0000_0000
  {
    hide Allowed, IsMultiple, Pow2, Disjoint, Above, Within, Unserved, LeftOut;
    assert WellPlaced(domain, s, u, r, always4G);
  }

  /**
   A resource of the domain bus is left out only if no aligned block for it is free below its limit: its own for a bridge
   and where all may go above 4 GiB; 2^64 for a 64-bit one and one larger than 4 GiB, whatever limit it has; and otherwise
   its own, and 4 GiB unless it is flagged for more.
   */
  lemma LeftOutBelowLimit(domain: Device, s: Store, u: Store, r: nat, always4G: bool)
    requires Safe(domain, s, u, always4G) && r < |s| && OnBus(domain.children, r) && !s[r].flags.fixed
    requires s[r].flags.kind in {TypeBits(true, false, false, false), TypeBits(false, true, false, false)}
    requires |u| == |s| && 0 < u[r].size && !Live(domain, s, u, r)
    ensures always4G || u[r].flags.bridge ==> NoneFits(domain, s, u, r, u[r].limit)
    ensures !always4G && !u[r].flags.bridge && (u[r].flags.pci64 || u[r].size >= 0x1_0000_0000) ==>
              NoneFits(domain, s, u, r, 0xFFFF_FFFF_FFFF_FFFF)
    ensures !always4G && !u[r].flags.bridge && u[r].flags.above4G && u[r].limit <= 0xFFFF_FFFF_FFFF_FFFF ==>
              NoneFits(domain, s, u, r, u[r].limit)
    ensures u[r].limit <= 0xFFFF_FFFF ==> NoneFits(domain, s, u, r, u[r].limit)
    ensures !always4G && !u[r].flags.bridge && u[r].limit >= 0xFFFF_FFFF ==> NoneFits(domain, s, u, r, 0xFFFF_FFFF)
  {
    hide Allowed, IsMultiple, Pow2, Disjoint, Above, Within, Unserved, WellPlaced, Live, OnBus, NoneFits;
    assert CannotFit(domain, s, u, r, always4G);
    forall top: int | top <= EffectiveLimit(u[r], always4G)
      ensures NoneFits(domain, s, u, r, top)
    {
      NoneFitsBelow(domain, s, u, r, top, EffectiveLimit(u[r], always4G));
    }
  }

  lemma NoneFitsBelow(domain: Device, s: Store, u: Store, r: nat, top: int, limit: int)
    requires r < |u| && top <= limit && NoneFits(domain, s, u, r, limit)
    ensures NoneFits(domain, s, u, r, top)
  {
    hide Allowed, IsMultiple, Pow2, Taken;
  }

  /** What a run places is io or memory, and a multiple of its alignment, which is given as a power of two. */
  lemma PlacedAligned(domain: Device, s: Store, u: Store, r: nat, always4G: bool)
    requires Safe(domain, s, u, always4G) && Live(domain, s, u, r)
    ensures u[r].flags.kind in {TypeBits(true, false, false, false), TypeBits(false, true, false, false)}
    ensures u[r].base % Pow2(u[r].align) == 0 && s[r].align <= u[r].align
    ensures Pow2(0) == 1 && Pow2(u[r].align + 1) == 2 * Pow2(u[r].align) && Pow2(12) == 0x1000
    ensures s[r].flags.bridge || u[r].align == s[r].align
  {
    hide Allowed, EffectiveLimit, IsMultiple, Disjoint, Above, Within, Unserved, LeftOut, CannotFit;
    assert WellPlaced(domain, s, u, r, always4G);
    MultipleRemainder(u[r].base, Pow2(u[r].align));
    assert Pow2(6) == 64;
  }

  lemma MultipleRemainder(x: nat, m: nat)
    requires IsMultiple(x, m) && m > 0
    ensures x % m == 0
  {
    DivideExact(x, m);
    assert x == x / m * m + x % m;
  }

  // ----- The domain level of pass 2

  ghost predicate TopChanged(domain: Device, s: Store, t: Store, r: nat, always4G: bool)
    requires r < |s| && r < |t|
  {
    && OnBus(domain.children, r) && !s[r].flags.fixed
    && (s[r].flags.kind == IO || s[r].flags.kind == MEM)
    && TopPlace(domain, s, t, s[r].flags.kind, r, always4G)
  }

  ghost predicate BothChanged(s: Store, t: Store, q: nat, r: nat)
    requires |s| == |t|
  {
    q < |s| && r < |s| && t[q] != s[q] && t[r] != s[r] && s[q].flags.kind == s[r].flags.kind
  }

  ghost predicate TopBoth(domain: Device, s: Store, t: Store, always4G: bool) {
    && |s| == |t|
    && (forall r: nat :: r < |s| && t[r] != s[r] ==> TopChanged(domain, s, t, r, always4G))
    && (forall q: nat, r: nat :: q != r && BothChanged(s, t, q, r) ==> Disjoint(t[q], t[r]))
    && (forall r: nat :: Refused(domain, s, t, r) ==> NoFit(domain, s, t, s[r].flags.kind, s[r], always4G))
  }

  // A resource on the bus of the domain that asked for space and was passed over.
  ghost predicate Refused(domain: Device, s: Store, t: Store, r: nat)
    requires |s| == |t|
  {
    && r < |s| && OnBus(domain.children, r) && !s[r].flags.fixed
    && (s[r].flags.kind == IO || s[r].flags.kind == MEM) && 0 < s[r].size && t[r] == s[r]
  }

  ghost predicate TakenOnBus(domain: Device, s: Store, t: Store, kind: TypeBits, a: int) {
    exists q: nat :: q < |s| && q < |t| && OnBus(domain.children, q) && s[q].flags.kind == kind && t[q] != s[q]
                     && InBlock(Granularity(kind), t[q].base, t[q].size, a)
  }

  ghost predicate NoFit(domain: Device, s: Store, t: Store, kind: TypeBits, x: Resource, always4G: bool) {
    forall b: nat {:trigger IsMultiple(b, Pow2(x.align))} ::
      IsMultiple(b, Pow2(x.align)) && b + x.size - 1 <= EffectiveLimit(x, always4G) ==>
      exists a: int :: b <= a < b + x.size && !(Allowed(domain, s, kind, a) && !TakenOnBus(domain, s, t, kind, a))
  }

  lemma AllowedFrame(domain: Device, s: Store, t: Store, kind: TypeBits, a: int)
    requires SameIdentity(s, t)
    requires forall r: nat :: r in domain.resources && r < |s| ==> t[r] == s[r]
    requires forall r: nat :: r in Ids(domain) && r < |s| && s[r].flags.fixed ==> t[r] == s[r]
    ensures Allowed(domain, t, kind, a) <==> Allowed(domain, s, kind, a)
  {
    hide InBlock;
    forall k | 0 <= k < |domain.resources| && domain.resources[k] < |s|
      ensures t[domain.resources[k]] == s[domain.resources[k]]
    {
      assert domain.resources[k] in domain.resources;
    }
    forall f: nat | f in Ids(domain) && f < |s|
      ensures IsFixed(t[f], kind) <==> IsFixed(s[f], kind)
      ensures IsFixed(s[f], kind) ==> t[f] == s[f]
    {
      assert t[f].Identity() == s[f].Identity();
    }
    if Blocked(Ids(domain), s, kind, a) {
      var f: nat :| f in Ids(domain) && f < |s| && IsFixed(s[f], kind) && InBlock(Granularity(kind), s[f].base, s[f].size, a);
      assert IsFixed(t[f], kind) && t[f] == s[f];
    }
    if Blocked(Ids(domain), t, kind, a) {
      var f: nat :| f in Ids(domain) && f < |t| && IsFixed(t[f], kind) && InBlock(Granularity(kind), t[f].base, t[f].size, a);
      assert IsFixed(s[f], kind) && t[f] == s[f];
    }
  }

  lemma SearchIsOnBus(domain: Device, s: Store, kind: TypeBits, r: nat)
    requires StartOk(domain, s) && r in SearchOrder(domain.children, s, AnyPrefetch(kind))
    ensures r < |s| && OnBus(domain.children, r) && s[r].flags.kind == kind && r in IdsOf(domain.children)
  {
    WellFormedOfIsSeparate(domain.children, s);
    SearchMembers(domain.children, s, AnyPrefetch(kind));
    OnBusInIds(domain.children, r);
  }

  lemma TopKeeps(domain: Device, s: Store, t: Store, kind: TypeBits, always4G: bool)
    requires StartOk(domain, s)
    requires TopPlaced(domain, SearchOrder(domain.children, s, AnyPrefetch(kind)), s, t, kind, always4G)
    ensures SameIdentity(s, t)
    ensures forall r: nat :: r < |s| && t[r] != s[r] ==>
              OnBus(domain.children, r) && r in IdsOf(domain.children) && s[r].flags.kind == kind && !s[r].flags.fixed
    ensures forall r: nat :: r in domain.resources ==> r < |s| && t[r] == s[r]
    ensures forall k: TypeBits, a: int {:trigger Allowed(domain, t, k, a)} :: Allowed(domain, t, k, a) <==> Allowed(domain, s, k, a)
  {
    hide Allowed;
    var list := SearchOrder(domain.children, s, AnyPrefetch(kind));
    TopIdentity(domain, list, s, t, kind, always4G);
    forall r: nat | r < |s| && t[r] != s[r]
      ensures OnBus(domain.children, r) && r in IdsOf(domain.children) && s[r].flags.kind == kind && !s[r].flags.fixed
    {
      SearchIsOnBus(domain, s, kind, r);
    }
    forall r: nat | r in domain.resources
      ensures r < |s| && t[r] == s[r]
    {
      assert r in Ids(domain);
    }
    forall k: TypeBits, a: int
      ensures Allowed(domain, t, k, a) <==> Allowed(domain, s, k, a)
    {
      AllowedFrame(domain, s, t, k, a);
    }
  }

  lemma StartKept(domain: Device, s: Store, t: Store)
    requires WellFormedOf(domain.children, s) && InStore(Ids(domain), s) && SameIdentity(s, t)
    ensures WellFormedOf(domain.children, t) && InStore(Ids(domain), t)
    ensures SeparateOf(domain.children) && NoSubtractive(IdsOf(domain.children), t)
  {
    WellFormedOfFrame(domain.children, s, t);
    WellFormedOfIsSeparate(domain.children, t);
  }

  // A resource changed by the io run keeps its place in the mem run, and the other way round.
  lemma TopCase(domain: Device, s: Store, m: Store, t: Store, r: nat, always4G: bool)
    requires StartOk(domain, s) && SameIdentity(s, m)
    requires TopPlaced(domain, SearchOrder(domain.children, s, AnyPrefetch(IO)), s, m, IO, always4G)
    requires TopPlaced(domain, SearchOrder(domain.children, s, AnyPrefetch(MEM)), m, t, MEM, always4G)
    requires forall k: TypeBits, a: int {:trigger Allowed(domain, m, k, a)} :: Allowed(domain, m, k, a) <==> Allowed(domain, s, k, a)
    requires r < |s| && t[r] != s[r]
    ensures TopChanged(domain, s, t, r, always4G)
    ensures if s[r].flags.kind == IO
            then r in SearchOrder(domain.children, s, AnyPrefetch(IO)) && t[r] == m[r]
            else s[r].flags.kind == MEM && r in SearchOrder(domain.children, s, AnyPrefetch(MEM)) && m[r] == s[r]
  {
    hide Allowed, EffectiveLimit, IsMultiple, Pow2, StartOk, OnBus, Disjoint;
    var io, mem := SearchOrder(domain.children, s, AnyPrefetch(IO)), SearchOrder(domain.children, s, AnyPrefetch(MEM));
    if m[r] != s[r] {
      SearchIsOnBus(domain, s, IO, r);
      if r in mem {
        SearchIsOnBus(domain, s, MEM, r);
      }
      TopPlaceFrame(domain, s, m, s, t, IO, r, always4G);
    } else {
      SearchIsOnBus(domain, s, MEM, r);
      TopPlaceFrame(domain, m, t, s, t, MEM, r, always4G);
    }
  }

  lemma TopPlaceFrame(domain: Device, s: Store, t: Store, s': Store, t': Store, kind: TypeBits, r: nat, always4G: bool)
    requires r < |s| && r < |t| && r < |s'| && r < |t'| && s'[r] == s[r] && t'[r] == t[r]
    requires TopPlace(domain, s, t, kind, r, always4G)
    requires forall a: int {:trigger Allowed(domain, s, kind, a)} :: Allowed(domain, s, kind, a) ==> Allowed(domain, s', kind, a)
    ensures TopPlace(domain, s', t', kind, r, always4G)
  {
    hide Allowed, EffectiveLimit, IsMultiple, Pow2;
    forall a: int | t'[r].Contains(a)
      ensures Allowed(domain, s', kind, a)
    {
      assert Allowed(domain, s, kind, a);
    }
  }

  lemma TopPairs(domain: Device, list: seq<nat>, s: Store, t: Store, kind: TypeBits, q: nat, r: nat, always4G: bool)
    requires TopPlaced(domain, list, s, t, kind, always4G)
    requires q in list && r in list && q < |s| && r < |s| && q != r && t[q] != s[q] && t[r] != s[r]
    ensures Disjoint(t[q], t[r])
  {
  }

  lemma TakenFrame(domain: Device, s: Store, m: Store, t: Store, s': Store, t': Store, kind: TypeBits, a: int)
    requires StartOk(domain, s) && |s| == |m| == |t| == |s'| == |t'|
    requires forall q: nat :: q < |s| && s[q].flags.kind == kind ==> m[q] == s'[q] && t[q] == t'[q]
    requires forall q: nat :: q < |s| ==> s'[q].flags.kind == s[q].flags.kind
    ensures TopTaken(SearchOrder(domain.children, s, AnyPrefetch(kind)), m, t, kind, a) <==> TakenOnBus(domain, s', t', kind, a)
  {
    hide InBlock;
    var list := SearchOrder(domain.children, s, AnyPrefetch(kind));
    WellFormedOfIsSeparate(domain.children, s);
    SearchMembers(domain.children, s, AnyPrefetch(kind));
    if TopTaken(list, m, t, kind, a) {
      var q: nat :| q in list && q < |m| && t[q] != m[q] && InBlock(Granularity(kind), t[q].base, t[q].size, a);
      assert OnBus(domain.children, q) && t'[q] != s'[q];
    }
    if TakenOnBus(domain, s', t', kind, a) {
      var q: nat :| q < |s'| && OnBus(domain.children, q) && s'[q].flags.kind == kind && t'[q] != s'[q]
                    && InBlock(Granularity(kind), t'[q].base, t'[q].size, a);
      assert q in list && t[q] != m[q];
    }
  }

  lemma NoFitFrame(domain: Device, list: seq<nat>, m: Store, n: Store, s: Store, t: Store, kind: TypeBits, x: Resource,
                   always4G: bool)
    requires NoPlace(domain, list, m, n, kind, x, always4G)
    requires forall a: int {:trigger Allowed(domain, m, kind, a)} :: Allowed(domain, m, kind, a) <==> Allowed(domain, s, kind, a)
    requires forall a: int {:trigger TopTaken(list, m, n, kind, a)} :: TopTaken(list, m, n, kind, a) <==> TakenOnBus(domain, s, t, kind, a)
    ensures NoFit(domain, s, t, kind, x, always4G)
  {
    hide Allowed, TopTaken, TakenOnBus, EffectiveLimit, Pow2;
    forall b: nat | IsMultiple(b, Pow2(x.align)) && b + x.size - 1 <= EffectiveLimit(x, always4G)
      ensures exists a: int :: b <= a < b + x.size && !(Allowed(domain, s, kind, a) && !TakenOnBus(domain, s, t, kind, a))
    {
      var a: int :| b <= a < b + x.size && !(Allowed(domain, m, kind, a) && !TopTaken(list, m, n, kind, a));
    }
  }

  lemma OnBusIsListed(domain: Device, s: Store, kind: TypeBits, r: nat)
    requires StartOk(domain, s) && r < |s| && OnBus(domain.children, r) && s[r].flags.kind == kind
    ensures r in SearchOrder(domain.children, s, AnyPrefetch(kind))
  {
    WellFormedOfIsSeparate(domain.children, s);
    SearchMembers(domain.children, s, AnyPrefetch(kind));
  }

  lemma TopFits(domain: Device, s: Store, m: Store, t: Store, r: nat, always4G: bool)
    requires StartOk(domain, s) && SameIdentity(s, m)
    requires TopPlaced(domain, SearchOrder(domain.children, s, AnyPrefetch(IO)), s, m, IO, always4G)
    requires TopPlaced(domain, SearchOrder(domain.children, s, AnyPrefetch(MEM)), m, t, MEM, always4G)
    requires TopFull(domain, SearchOrder(domain.children, s, AnyPrefetch(IO)), s, m, IO, always4G)
    requires TopFull(domain, SearchOrder(domain.children, s, AnyPrefetch(MEM)), m, t, MEM, always4G)
    requires forall k: TypeBits, a: int {:trigger Allowed(domain, m, k, a)} :: Allowed(domain, m, k, a) <==> Allowed(domain, s, k, a)
    requires |s| == |t| && Refused(domain, s, t, r)
    ensures NoFit(domain, s, t, s[r].flags.kind, s[r], always4G)
  {
    hide Allowed, TopTaken, TakenOnBus, EffectiveLimit, IsMultiple, Pow2, NoPlace, NoFit, StartOk, TopPlace, Disjoint;
    var kind := s[r].flags.kind;
    var list := SearchOrder(domain.children, s, AnyPrefetch(kind));
    OnBusIsListed(domain, s, kind, r);
    KindsApart(domain, s, m, t, always4G);
    assert forall q: nat :: q < |s| ==> s[q].Identity() == m[q].Identity();
    if kind == IO {
      forall a: int
        ensures TopTaken(list, s, m, IO, a) <==> TakenOnBus(domain, s, t, IO, a)
      {
        TakenFrame(domain, s, s, m, s, t, IO, a);
      }
      NoFitFrame(domain, list, s, m, s, t, IO, s[r], always4G);
    } else {
      forall a: int
        ensures TopTaken(list, m, t, MEM, a) <==> TakenOnBus(domain, s, t, MEM, a)
      {
        TakenFrame(domain, s, m, t, s, t, MEM, a);
      }
      NoFitFrame(domain, list, m, t, s, t, MEM, s[r], always4G);
    }
  }

  // The io run touches no mem resource and the mem run no io resource.
  lemma KindsApart(domain: Device, s: Store, m: Store, t: Store, always4G: bool)
    requires StartOk(domain, s)
    requires TopPlaced(domain, SearchOrder(domain.children, s, AnyPrefetch(IO)), s, m, IO, always4G)
    requires TopPlaced(domain, SearchOrder(domain.children, s, AnyPrefetch(MEM)), m, t, MEM, always4G)
    ensures |s| == |m| == |t|
    ensures forall q: nat :: q < |s| && s[q].flags.kind != IO ==> m[q] == s[q]
    ensures forall q: nat :: q < |s| && s[q].flags.kind != MEM ==> t[q] == m[q]
  {
    hide TopPlace, Disjoint, StartOk;
    forall q: nat | q < |s|
      ensures s[q].flags.kind != IO ==> m[q] == s[q]
      ensures s[q].flags.kind != MEM ==> t[q] == m[q]
    {
      if q in SearchOrder(domain.children, s, AnyPrefetch(IO)) {
        SearchIsOnBus(domain, s, IO, q);
      }
      if q in SearchOrder(domain.children, s, AnyPrefetch(MEM)) {
        SearchIsOnBus(domain, s, MEM, q);
      }
    }
  }

  // The io run and the mem run together.
  lemma TopCombine(domain: Device, s: Store, m: Store, t: Store, always4G: bool)
    requires StartOk(domain, s)
    requires TopPlaced(domain, SearchOrder(domain.children, s, AnyPrefetch(IO)), s, m, IO, always4G)
    requires TopPlaced(domain, SearchOrder(domain.children, m, AnyPrefetch(MEM)), m, t, MEM, always4G)
    requires TopFull(domain, SearchOrder(domain.children, s, AnyPrefetch(IO)), s, m, IO, always4G)
    requires TopFull(domain, SearchOrder(domain.children, m, AnyPrefetch(MEM)), m, t, MEM, always4G)
    ensures TopBoth(domain, s, t, always4G) && SameIdentity(s, t)
  {
    hide Allowed, EffectiveLimit, IsMultiple, Pow2, TopPlaced, TopFull, NoFit, StartOk, TopChanged, OnBus, Disjoint;
    TopKeeps(domain, s, m, IO, always4G);
    SearchOrderFrame(domain.children, s, m, AnyPrefetch(MEM));
    var io, mem := SearchOrder(domain.children, s, AnyPrefetch(IO)), SearchOrder(domain.children, s, AnyPrefetch(MEM));
    TopIdentity(domain, mem, m, t, MEM, always4G);
    assert SameIdentity(s, t) by {
      assert forall i :: 0 <= i < |s| ==> s[i].Identity() == m[i].Identity() && m[i].Identity() == t[i].Identity();
    }
    forall r: nat | r < |s| && t[r] != s[r]
      ensures TopChanged(domain, s, t, r, always4G)
    {
      TopCase(domain, s, m, t, r, always4G);
    }
    forall q: nat, r: nat | q != r && BothChanged(s, t, q, r)
      ensures Disjoint(t[q], t[r])
    {
      TopCase(domain, s, m, t, q, always4G);
      TopCase(domain, s, m, t, r, always4G);
      if s[r].flags.kind == IO {
        TopPairs(domain, io, s, m, IO, q, r, always4G);
      } else {
        TopPairs(domain, mem, m, t, MEM, q, r, always4G);
      }
    }
    forall r: nat | Refused(domain, s, t, r)
      ensures NoFit(domain, s, t, s[r].flags.kind, s[r], always4G)
    {
      TopFits(domain, s, m, t, r, always4G);
    }
  }

  // A run: pass 1 takes s0 to s, the domain level of pass 2 takes s to t, the bridges take t to u.
  ghost predicate Run(domain: Device, s0: Store, s: Store, t: Store, u: Store, always4G: bool) {
    && StartOk(domain, s0)
    && ChangesOnly(s0, s, IdsOf(domain.children))
    && StartOk(domain, s) && AllComputed(domain.children, |domain.children|, s, always4G)
    && TopBoth(domain, s, t, always4G) && SameIdentity(s, t)
    && WellFormedOf(domain.children, t)
    && Descended(domain.children, |domain.children|, t, u, always4G)
  }

  lemma StartAfterPass1(domain: Device, s: Store, t: Store)
    requires StartOk(domain, s) && ChangesOnly(s, t, IdsOf(domain.children))
    ensures StartOk(domain, t)
  {
    Pass1KeepsIdentity(s, t);
    WellFormedOfFrame(domain.children, s, t);
    forall r: nat | r in IdsOf(domain.children) && !t[r].flags.fixed
      ensures !t[r].flags.isAssigned
    {
      assert r in Ids(domain);
      assert Pass1Change(s[r], t[r]);
    }
  }

  // A window the domain level has placed: all below it is as pass 1 left it.
  lemma TopReady(domain: Device, s: Store, t: Store, j: nat, always4G: bool)
    requires StartOk(domain, s) && AllComputed(domain.children, |domain.children|, s, always4G)
    requires TopBoth(domain, s, t, always4G) && SameIdentity(s, t)
    requires j < |domain.children| && domain.children[j].children != []
    ensures Ready(domain.children[j], t, always4G)
  {
    hide Allowed, EffectiveLimit, IsMultiple, Pow2, Laid;
    var bus, c := domain.children, domain.children[j];
    WellFormedOfIsSeparate(bus, s);
    WellFormedAt(bus, s, j);
    WellFormedFrame(c, s, t);
    ChildIds(bus, j);
    forall r: nat | r in IdsOf(c.children)
      ensures r in IdsOf(bus) && r < |s| && t[r] == s[r]
    {
      assert r in Ids(c);
      DeeperIsNotBehind(bus, j, r);
      if OnBus(bus, r) {
        OnBusIsBehind(bus, r);
      }
    }
    forall w: Wanted, q: nat | IsWindowType(w) && q in c.resources && AssignedWindow(t, w, q)
      ensures WindowReady(c, t, w, q, always4G)
    {
      TopWindowReady(domain, s, t, j, w, q, always4G);
    }
  }

  lemma TopWindowShrinks(domain: Device, s: Store, t: Store, r: nat, always4G: bool)
    requires StartOk(domain, s) && TopBoth(domain, s, t, always4G)
    requires r in IdsOf(domain.children) && r < |s| && s[r].flags.bridge && !s[r].flags.fixed
    ensures SameButPlace(s[r], t[r])
    ensures t[r].flags.isAssigned ==> PlacedWindow(t[r])
  {
    hide Allowed, IsMultiple, Pow2;
    assert !s[r].flags.isAssigned;
    if t[r] != s[r] {
      assert TopChanged(domain, s, t, r, always4G);
    }
  }

  lemma TopWindowReady(domain: Device, s: Store, t: Store, j: nat, w: Wanted, q: nat, always4G: bool)
    requires StartOk(domain, s) && AllComputed(domain.children, |domain.children|, s, always4G)
    requires TopBoth(domain, s, t, always4G) && SameIdentity(s, t)
    requires j < |domain.children| && domain.children[j].children != []
    requires forall r: nat :: r in IdsOf(domain.children[j].children) ==> r < |s| && t[r] == s[r]
    requires IsWindowType(w) && q in domain.children[j].resources && AssignedWindow(t, w, q)
    ensures WindowReady(domain.children[j], t, w, q, always4G)
  {
    hide EffectiveLimit, IsMultiple, Pow2, Laid, TopBoth, PlacedWindow, SameButPlace;
    var bus, c := domain.children, domain.children[j];
    WellFormedAt(bus, s, j);
    ChildIds(bus, j);
    assert InStore(IdsOf(bus), s) by { WellFormedOfIsSeparate(bus, s); }
    forall r: nat | r in c.resources && IsWindow(t, w, r)
      ensures IsWindow(s, w, r) && SameButPlace(s[r], t[r]) && (t[r].flags.isAssigned ==> PlacedWindow(t[r]))
    {
      assert r in Ids(c);
      assert s[r].Identity() == t[r].Identity();
      TopWindowShrinks(domain, s, t, r, always4G);
    }
    forall r: nat | r in c.resources && IsWindow(s, w, r)
      ensures IsWindow(t, w, r)
    {
      assert s[r].Identity() == t[r].Identity();
    }
    assert BelowComputed(bus, |bus|, s, w, always4G);
    ComputedFrame(c, s, t, w, always4G);
  }

  // ----- Where a live resource is

  // The part of a run a single device of the domain sees.
  lemma DirectPlace(domain: Device, s0: Store, s: Store, t: Store, u: Store, r: nat, always4G: bool)
    requires Run(domain, s0, s, t, u, always4G)
    requires Live(domain, s0, u, r) && DirectlyBehind(domain.children, r)
    ensures u[r] == t[r] && t[r] != s[r] && TopChanged(domain, s, t, r, always4G)
  {
    hide Allowed, EffectiveLimit, IsMultiple, Pow2;
    WellFormedOfIsSeparate(domain.children, s);
    if u[r] != t[r] {
      DeeperIsDeep(domain.children, r);
    }
    assert Pass1Change(s0[r], s[r]);
  }

  lemma DeepIsPlaced(domain: Device, s0: Store, s: Store, t: Store, u: Store, r: nat, j: nat, always4G: bool)
    returns (w: Wanted, q: nat)
    requires Run(domain, s0, s, t, u, always4G)
    requires Live(domain, s0, u, r) && j < |domain.children| && r in IdsOf(domain.children[j].children)
    ensures ViaWindow(domain, s0, t, u, r, j, w, q, always4G)
  {
    hide Allowed, EffectiveLimit, IsMultiple, Pow2, Computed;
    var bus, c := domain.children, domain.children[j];
    WellFormedOfIsSeparate(bus, t);
    DeeperIsNotBehind(bus, j, r);
    if OnBus(bus, r) {
      OnBusIsBehind(bus, r);
    }
    assert Pass1Change(s0[r], s[r]);
    assert t[r] == s[r];
    w := WantedOf(t[r].flags);
    assert IsWindowType(w);
    assert c.children != [];
    TreeInStore(bus, j, t);
    WellFormedAt(bus, t, j);
    WindowsNotFixed(c, t);
    q := AssignedIsUnder(c, t, u, w, r, always4G);
    assert q in Ids(c);
    ChildIds(bus, j);
    assert s0[q].Identity() == t[q].Identity() by {
      assert Pass1Change(s0[q], s[q]);
      assert s[q].Identity() == t[q].Identity();
    }
  }

  // r is reached through the assigned window q of the j-th device of the domain.
  ghost predicate ViaWindow(domain: Device, s0: Store, t: Store, u: Store, r: nat, j: nat, w: Wanted, q: nat, always4G: bool) {
    && |s0| == |t| == |u|
    && j < |domain.children| && domain.children[j].children != []
    && q in domain.children[j].resources && IsWindow(t, w, q) && IsWindowType(w)
    && Live(domain, s0, u, q)
    && PlacedTree(domain.children[j], t, u, w, always4G)
    && Under(domain.children[j], t, w, r)
  }

  lemma {:induction false} WindowsNotFixed(d: Device, s: Store)
    requires WellFormed(d, s)
    ensures forall i: nat :: i in Ids(d) ==> i < |s| && (s[i].flags.bridge ==> !s[i].flags.fixed)
    decreases d, 1
  {
    BusWindowsNotFixed(d.children, s);
  }

  lemma {:induction false} BusWindowsNotFixed(bus: seq<Device>, s: Store)
    requires WellFormedOf(bus, s)
    ensures forall i: nat :: i in IdsOf(bus) ==> i < |s| && (s[i].flags.bridge ==> !s[i].flags.fixed)
    decreases bus, 0
  {
    if bus != [] {
      WindowsNotFixed(bus[0], s);
      BusWindowsNotFixed(bus[1..], s);
    }
  }

  lemma RunIdentity(domain: Device, s0: Store, s: Store, t: Store, u: Store, always4G: bool)
    requires Run(domain, s0, s, t, u, always4G)
    ensures SameIdentity(s0, t) && SameIdentity(s0, u)
    ensures forall i: nat :: i < |s0| && (i !in IdsOf(domain.children) || s0[i].flags.fixed) ==> u[i] == s0[i]
  {
    hide Allowed, EffectiveLimit, IsMultiple, Pow2, AllComputed, AllPlaced, TopPlace;
    AssignsIdentity(t, u, IdsOf(domain.children));
    forall i: nat | i < |s0|
      ensures s0[i].Identity() == t[i].Identity() && s0[i].Identity() == u[i].Identity()
      ensures i !in IdsOf(domain.children) || s0[i].flags.fixed ==> u[i] == s0[i]
    {
      assert Pass1Change(s0[i], s[i]);
      assert s[i].Identity() == t[i].Identity() && t[i].Identity() == u[i].Identity();
      if OnBus(domain.children, i) {
        OnBusInIds(domain.children, i);
      }
    }
  }

  // The resource of the domain bus a live resource is, or is behind.
  lemma LiveVia(domain: Device, s0: Store, s: Store, t: Store, u: Store, r: nat, always4G: bool)
    returns (j: nat, w: Wanted, q: nat)
    requires Run(domain, s0, s, t, u, always4G) && Live(domain, s0, u, r)
    ensures Live(domain, s0, u, q) && j < |domain.children| && q in domain.children[j].resources
    ensures q == r || ViaWindow(domain, s0, t, u, r, j, w, q, always4G)
    ensures u[q].flags.kind == u[r].flags.kind
    ensures Within(u[r], u[q])
    ensures q < |s| == |t| && u[q] == t[q] && t[q] != s[q] && TopChanged(domain, s, t, q, always4G)
  {
    hide Allowed, EffectiveLimit, IsMultiple, Pow2, AllComputed, AllPlaced, TopChanged, Descended, Live, TopBoth;
    RunIdentity(domain, s0, s, t, u, always4G);
    assert r in IdsOf(domain.children) by { LiveInIds(domain, s0, u, r); }
    j := IdsOfOwner(domain.children, r);
    if r in domain.children[j].resources {
      w, q := IO_WINDOW, r;
    } else {
      w, q := DeepIsPlaced(domain, s0, s, t, u, r, j, always4G);
      ViaPlace(domain, s0, t, u, r, j, w, q, always4G);
    }
    DirectPlace(domain, s0, s, t, u, q, always4G);
  }

  lemma LiveInIds(domain: Device, s: Store, u: Store, r: nat)
    requires Live(domain, s, u, r)
    ensures r in IdsOf(domain.children) && r < |s| && r < |u|
  {
  }

  lemma ViaPlace(domain: Device, s0: Store, t: Store, u: Store, r: nat, j: nat, w: Wanted, q: nat, always4G: bool)
    requires ViaWindow(domain, s0, t, u, r, j, w, q, always4G) && SameIdentity(s0, t) && SameIdentity(s0, u)
    ensures r < |t| && 0 < t[r].size && u[r] == AssignedAt(t[r], u[r].base)
    ensures Within(u[r], u[q]) && IsMultiple(u[r].base, Pow2(u[r].align))
    ensures u[r].limit <= EffectiveLimit(t[r], always4G)
    ensures u[q].flags.kind == u[r].flags.kind && (u[r].flags.kind == IO || u[r].flags.kind == MEM)
  {
    hide EffectiveLimit, IsMultiple, Pow2;
    UnderPlaced(domain.children[j], t, u, w, q, r, always4G);
    UnderInIds(domain.children[j], t, w, r);
    assert s0[r].Identity() == t[r].Identity() && s0[r].Identity() == u[r].Identity();
    assert s0[q].Identity() == t[q].Identity() && s0[q].Identity() == u[q].Identity();
  }

  lemma LiveIsWellPlaced(domain: Device, s0: Store, s: Store, t: Store, u: Store, r: nat, always4G: bool)
    requires Run(domain, s0, s, t, u, always4G) && Live(domain, s0, u, r)
    ensures WellPlaced(domain, s0, u, r, always4G)
  {
    hide Allowed, EffectiveLimit, IsMultiple, Pow2, AllComputed, AllPlaced, Descended, TopBoth;
    var j, w, q := LiveVia(domain, s0, s, t, u, r, always4G);
    RunIdentity(domain, s0, s, t, u, always4G);
    Pass1Allowed(domain, s0, s);
    assert s0[r].Identity() == u[r].Identity() && s0[q].Identity() == u[q].Identity();
    forall a: int | u[r].Contains(a)
      ensures Allowed(domain, s0, u[r].flags.kind, a)
    {
      assert t[q].Contains(a);
      assert Allowed(domain, s, s[q].flags.kind, a);
    }
    assert Pass1Change(s0[r], s[r]);
    Pass1Limit(s0[r], s[r], always4G);
    if q != r {
      ViaPlace(domain, s0, t, u, r, j, w, q, always4G);
      DeepUntouched(domain, s0, s, t, u, r, j, w, q, always4G);
    }
  }

  lemma DeepUntouched(domain: Device, s0: Store, s: Store, t: Store, u: Store, r: nat, j: nat, w: Wanted, q: nat, always4G: bool)
    requires Run(domain, s0, s, t, u, always4G) && ViaWindow(domain, s0, t, u, r, j, w, q, always4G)
    ensures r < |s| && t[r] == s[r]
  {
    hide Allowed, EffectiveLimit, IsMultiple, Pow2, AllComputed, AllPlaced, Descended;
    UnderInIds(domain.children[j], t, w, r);
    WellFormedOfIsSeparate(domain.children, s);
    DeeperIsNotBehind(domain.children, j, r);
    if OnBus(domain.children, r) {
      OnBusIsBehind(domain.children, r);
    }
  }

  lemma Pass1Allowed(domain: Device, s0: Store, s: Store)
    requires StartOk(domain, s0) && ChangesOnly(s0, s, IdsOf(domain.children))
    ensures forall k: TypeBits, a: int {:trigger Allowed(domain, s, k, a)} :: Allowed(domain, s, k, a) <==> Allowed(domain, s0, k, a)
  {
    hide Allowed;
    Pass1KeepsIdentity(s0, s);
    forall r: nat | r in Ids(domain) && r < |s0| && s0[r].flags.fixed
      ensures s[r] == s0[r]
    {
      assert Pass1Change(s0[r], s[r]);
    }
    assert forall r: nat :: r in domain.resources ==> r !in IdsOf(domain.children);
    forall k: TypeBits, a: int
      ensures Allowed(domain, s, k, a) <==> Allowed(domain, s0, k, a)
    {
      AllowedFrame(domain, s0, s, k, a);
    }
  }

  lemma {:induction false} AncestorIsAbove(bus: seq<Device>, s0: Store, t: Store, w: Wanted, a: nat, r: nat)
    requires SameIdentity(s0, t) && IsWindowType(w) && IsAncestor(bus, t, w, a, r)
    ensures Above(bus, s0, a, r)
    decreases bus
  {
    var j :| 0 <= j < |bus| &&
      (|| (a in bus[j].resources && IsWindow(t, w, a) && Under(bus[j], t, w, r))
       || IsAncestor(bus[j].children, t, w, a, r));
    if a in bus[j].resources && IsWindow(t, w, a) && Under(bus[j], t, w, r) {
      UnderInIds(bus[j], t, w, r);
      assert s0[a].Identity() == t[a].Identity() && s0[r].Identity() == t[r].Identity();
    } else {
      AncestorIsAbove(bus[j].children, s0, t, w, a, r);
    }
  }

  lemma LivePairs(domain: Device, s0: Store, s: Store, t: Store, u: Store, q: nat, r: nat, always4G: bool)
    requires Run(domain, s0, s, t, u, always4G)
    requires q != r && SameSpace(domain, s0, u, q, r)
    ensures Disjoint(u[q], u[r]) || Above(domain.children, s0, q, r) || Above(domain.children, s0, r, q)
  {
    hide Allowed, EffectiveLimit, IsMultiple, Pow2, AllComputed, AllPlaced, Descended, TopPlace, Live, Computed, PlacedTree, Under;
    var j, w, k := LiveVia(domain, s0, s, t, u, q, always4G);
    var j', w', k' := LiveVia(domain, s0, s, t, u, r, always4G);
    RunIdentity(domain, s0, s, t, u, always4G);
    assert s[k].Identity() == t[k].Identity() && s[k'].Identity() == t[k'].Identity();
    if k != k' {
      assert BothChanged(s, t, k, k');
      LiveInIds(domain, s0, u, q);
      LiveInIds(domain, s0, u, r);
      WithinDisjoint(u[q], u[k], u[r], u[k']);
    } else {
      SeparateFromRun(domain, s0, s, t, u, always4G);
      SameOwner(domain.children, j, j', k);
      if k == q {
        ViaIsAbove(domain, s0, t, u, r, j', w', k', always4G);
      } else if k == r {
        ViaIsAbove(domain, s0, t, u, q, j, w, k, always4G);
      } else {
        ViaPair(domain, s0, t, u, q, r, j, w, w', k, always4G);
      }
    }
  }

  lemma SeparateFromRun(domain: Device, s0: Store, s: Store, t: Store, u: Store, always4G: bool)
    requires Run(domain, s0, s, t, u, always4G)
    ensures SeparateOf(domain.children)
  {
    WellFormedOfIsSeparate(domain.children, t);
  }

  lemma ViaIsAbove(domain: Device, s0: Store, t: Store, u: Store, r: nat, j: nat, w: Wanted, q: nat, always4G: bool)
    requires ViaWindow(domain, s0, t, u, r, j, w, q, always4G) && SameIdentity(s0, t)
    ensures Above(domain.children, s0, q, r)
  {
    hide PlacedTree;
    assert IsAncestor(domain.children, t, w, q, r);
    AncestorIsAbove(domain.children, s0, t, w, q, r);
  }

  lemma ViaPair(domain: Device, s0: Store, t: Store, u: Store, q: nat, r: nat, j: nat, w: Wanted, w': Wanted, k: nat, always4G: bool)
    requires SeparateOf(domain.children) && SameIdentity(s0, t) && q != r
    requires ViaWindow(domain, s0, t, u, q, j, w, k, always4G) && ViaWindow(domain, s0, t, u, r, j, w', k, always4G)
    ensures q < |u| && r < |u|
    ensures Disjoint(u[q], u[r]) || Above(domain.children, s0, q, r) || Above(domain.children, s0, r, q)
  {
    hide PlacedTree, Under;
    var d := domain.children[j];
    assert w == w';
    SeparateAt(domain.children, j);
    PairUnder(d, t, u, w, k, q, r, always4G);
    if IsAncestor(d.children, t, w, q, r) {
      AncestorIsAbove(d.children, s0, t, w, q, r);
    } else if IsAncestor(d.children, t, w, r, q) {
      AncestorIsAbove(d.children, s0, t, w, r, q);
    }
  }

  ghost predicate BusPlaced(bus: seq<Device>, t: Store, u: Store, always4G: bool) {
    forall j :: 0 <= j < |bus| && bus[j].children != [] ==> AllPlaced(bus[j], t, u, always4G)
  }

  lemma BusPlacedBelow(bus: seq<Device>, j: nat, t: Store, u: Store, always4G: bool)
    requires j < |bus| && bus[j].children != [] && BusPlaced(bus, t, u, always4G)
    ensures BusPlaced(bus[j].children, t, u, always4G)
  {
    forall i | 0 <= i < |bus[j].children| && bus[j].children[i].children != []
      ensures AllPlaced(bus[j].children[i], t, u, always4G)
    {
      forall w: Wanted | IsWindowType(w)
        ensures PlacedTree(bus[j].children[i], t, u, w, always4G)
      {
        assert PlacedTree(bus[j], t, u, w, always4G);
      }
    }
  }

  // A live resource below a live window of its type lies inside that window.
  lemma {:induction false} AboveIsWithin(bus: seq<Device>, s0: Store, t: Store, u: Store, a: nat, r: nat, always4G: bool)
    requires WellFormedOf(bus, t) && SameIdentity(s0, t) && BusPlaced(bus, t, u, always4G)
    requires |u| == |t| && a < |t| && r < |t|
    requires !t[a].flags.fixed && !t[r].flags.fixed && u[a].flags.isAssigned && u[r].flags.isAssigned
    requires Above(bus, s0, a, r)
    ensures Within(u[r], u[a])
    decreases bus
  {
    hide EffectiveLimit, IsMultiple, Pow2, PlacedTree, Under;
    var j :| 0 <= j < |bus| &&
      (|| (a in bus[j].resources && a < |s0| && r < |s0| && s0[a].flags.bridge
           && Matches(s0[r].flags, WantedOf(s0[a].flags)) && r in IdsOf(bus[j].children))
       || Above(bus[j].children, s0, a, r));
    WellFormedAt(bus, t, j);
    var d := bus[j];
    if a in d.resources && s0[a].flags.bridge && Matches(s0[r].flags, WantedOf(s0[a].flags)) && r in IdsOf(d.children) {
      assert s0[a].Identity() == t[a].Identity() && s0[r].Identity() == t[r].Identity();
      WindowWithin(d, t, u, a, r, always4G);
    } else {
      assert d.children != [];
      BusPlacedBelow(bus, j, t, u, always4G);
      AboveIsWithin(d.children, s0, t, u, a, r, always4G);
    }
  }

  lemma WindowWithin(d: Device, t: Store, u: Store, a: nat, r: nat, always4G: bool)
    requires WellFormed(d, t) && AllPlaced(d, t, u, always4G) && |u| == |t|
    requires a in d.resources && t[a].flags.bridge && u[a].flags.isAssigned
    requires r in IdsOf(d.children) && r < |t| && Matches(t[r].flags, WantedOf(t[a].flags))
    requires !t[r].flags.fixed && u[r].flags.isAssigned
    ensures Within(u[r], u[a])
  {
    hide EffectiveLimit, IsMultiple, Pow2, PlacedTree, Under;
    var w := WantedOf(t[a].flags);
    WindowTypeOf(d, t, a, w);
    WindowsNotFixed(d, t);
    assert forall i: nat :: i in IdsOf(d.children) ==> i in Ids(d);
    var q := AssignedIsUnder(d, t, u, w, r, always4G);
    OnlyWindow(d, t, w, a, q);
    UnderPlaced(d, t, u, w, a, r, always4G);
  }

  // The whole guarantee, for every run.
  lemma RunIsSafe(domain: Device, s0: Store, s: Store, t: Store, u: Store, always4G: bool)
    requires Run(domain, s0, s, t, u, always4G)
    ensures Safe(domain, s0, u, always4G)
  {
    hide WellPlaced, Run, Above, Within, Disjoint, DirectlyBelow, CannotFit;
    RunIdentity(domain, s0, s, t, u, always4G);
    forall r: nat | Live(domain, s0, u, r)
      ensures WellPlaced(domain, s0, u, r, always4G)
    {
      LiveIsWellPlaced(domain, s0, s, t, u, r, always4G);
    }
    forall q: nat, r: nat | q != r && SameSpace(domain, s0, u, q, r)
      ensures Disjoint(u[q], u[r]) || Above(domain.children, s0, q, r) || Above(domain.children, s0, r, q)
    {
      LivePairs(domain, s0, s, t, u, q, r, always4G);
    }
    forall a: nat, r: nat | Live(domain, s0, u, a) && Live(domain, s0, u, r) && Above(domain.children, s0, a, r)
      ensures Within(u[r], u[a])
    {
      LiveAbove(domain, s0, s, t, u, a, r, always4G);
    }
    forall a: nat, r: nat | Unserved(domain, s0, u, a, r)
      ensures u[r].size == 0 || u[r].limit == 0
    {
      LiveServes(domain, s0, s, t, u, a, r, always4G);
    }
    forall r: nat | LeftOut(domain, s0, u, r)
      ensures CannotFit(domain, s0, u, r, always4G)
    {
      LeftOutCannotFit(domain, s0, s, t, u, r, always4G);
    }
  }

  lemma LiveAbove(domain: Device, s0: Store, s: Store, t: Store, u: Store, a: nat, r: nat, always4G: bool)
    requires Run(domain, s0, s, t, u, always4G)
    requires Live(domain, s0, u, a) && Live(domain, s0, u, r) && Above(domain.children, s0, a, r)
    ensures Within(u[r], u[a])
  {
    hide Above, Within, AllPlaced, TopBoth, AllComputed;
    RunIdentity(domain, s0, s, t, u, always4G);
    assert s0[a].Identity() == t[a].Identity() && s0[r].Identity() == t[r].Identity();
    AboveIsWithin(domain.children, s0, t, u, a, r, always4G);
  }

  lemma StartFacts(domain: Device, s: Store)
    requires StartOk(domain, s)
    ensures WellFormedOf(domain.children, s) && InStore(Ids(domain), s)
    ensures Unplaced(domain, s, IO) && Unplaced(domain, s, MEM)
  {
  }

  lemma DescendNothing(bus: seq<Device>, t: Store, always4G: bool)
    ensures Descended(bus, 0, t, t, always4G)
  {
  }

  lemma StillUnplaced(domain: Device, s: Store, m: Store)
    requires StartOk(domain, s) && InStore(Ids(domain), m) && SameIdentity(s, m)
    requires forall r: nat :: r < |s| && m[r] != s[r] ==> s[r].flags.kind == IO
    ensures Unplaced(domain, m, MEM)
  {
    forall i: nat | i in IdsOf(domain.children) && !m[i].flags.fixed && m[i].flags.kind == MEM
      ensures !m[i].flags.isAssigned
    {
      assert i in Ids(domain);
      assert s[i].Identity() == m[i].Identity();
    }
  }

  // ----- Nothing is left out that could be placed

  lemma WindowServes(d: Device, t: Store, u: Store, a: nat, r: nat, always4G: bool)
    requires WellFormed(d, t) && AllPlaced(d, t, u, always4G) && |u| == |t|
    requires a in d.resources && t[a].flags.bridge && u[a].flags.isAssigned
    requires r < |t| && Matches(t[r].flags, WantedOf(t[a].flags)) && OnBus(d.children, r)
    requires !u[r].flags.isAssigned && !t[r].flags.fixed && u[r] == t[r]
    ensures u[r].size == 0 || u[r].limit == 0
  {
    hide EffectiveLimit, IsMultiple, Pow2, OnBus;
    var w := WantedOf(t[a].flags);
    WindowTypeOf(d, t, a, w);
    assert PlacedTree(d, t, u, w, always4G);
    assert Holds(d.children, t, u, w, a, always4G);
    assert !IsKid(d.children, t, w, r);
  }

  lemma {:induction false} BelowIsServed(bus: seq<Device>, s0: Store, t: Store, u: Store, a: nat, r: nat, always4G: bool)
    requires WellFormedOf(bus, t) && SameIdentity(s0, t) && BusPlaced(bus, t, u, always4G)
    requires |u| == |t| && a < |t| && r < |t|
    requires u[a].flags.isAssigned && !u[r].flags.isAssigned && !t[r].flags.fixed && u[r] == t[r]
    requires DirectlyBelow(bus, s0, a, r)
    ensures u[r].size == 0 || u[r].limit == 0
    decreases bus
  {
    hide OnBus, AllPlaced;
    var j :| 0 <= j < |bus| &&
      (|| (a in bus[j].resources && a < |s0| && r < |s0| && s0[a].flags.bridge
           && Matches(s0[r].flags, WantedOf(s0[a].flags)) && OnBus(bus[j].children, r))
       || DirectlyBelow(bus[j].children, s0, a, r));
    WellFormedAt(bus, t, j);
    var d := bus[j];
    if a in d.resources && s0[a].flags.bridge && Matches(s0[r].flags, WantedOf(s0[a].flags)) && OnBus(d.children, r) {
      assert s0[a].Identity() == t[a].Identity() && s0[r].Identity() == t[r].Identity();
      OnBusInIds(d.children, r);
      assert d.children != [];
      WindowServes(d, t, u, a, r, always4G);
    } else {
      assert d.children != [];
      BusPlacedBelow(bus, j, t, u, always4G);
      BelowIsServed(d.children, s0, t, u, a, r, always4G);
    }
  }

  lemma LiveServes(domain: Device, s0: Store, s: Store, t: Store, u: Store, a: nat, r: nat, always4G: bool)
    requires Run(domain, s0, s, t, u, always4G)
    requires Unserved(domain, s0, u, a, r)
    ensures u[r].size == 0 || u[r].limit == 0
  {
    hide AllPlaced, TopBoth, AllComputed;
    RunIdentity(domain, s0, s, t, u, always4G);
    BelowInIds(domain.children, s0, a, r);
    assert s0[a].Identity() == t[a].Identity() && s0[r].Identity() == t[r].Identity();
    BelowIsServed(domain.children, s0, t, u, a, r, always4G);
  }

  lemma {:induction false} BelowInIds(bus: seq<Device>, s: Store, a: nat, r: nat)
    requires DirectlyBelow(bus, s, a, r)
    ensures r in IdsOf(bus) && r < |s|
    decreases bus
  {
    var j :| 0 <= j < |bus| &&
      (|| (a in bus[j].resources && a < |s| && r < |s| && s[a].flags.bridge
           && Matches(s[r].flags, WantedOf(s[a].flags)) && OnBus(bus[j].children, r))
       || DirectlyBelow(bus[j].children, s, a, r));
    ChildIds(bus, j);
    if OnBus(bus[j].children, r) && r < |s| {
      OnBusInIds(bus[j].children, r);
    } else {
      BelowInIds(bus[j].children, s, a, r);
    }
  }

  lemma LeftOutCannotFit(domain: Device, s0: Store, s: Store, t: Store, u: Store, r: nat, always4G: bool)
    requires Run(domain, s0, s, t, u, always4G) && LeftOut(domain, s0, u, r)
    ensures CannotFit(domain, s0, u, r, always4G)
  {
    hide Allowed, EffectiveLimit, IsMultiple, Pow2, AllComputed, AllPlaced, InBlock, TopPlace, Disjoint, Computed;
    RunIdentity(domain, s0, s, t, u, always4G);
    Pass1Allowed(domain, s0, s);
    OnBusInIds(domain.children, r);
    TopKept(domain, s0, s, t, u, r, always4G);
    assert t[r] == s[r] && u[r] == s[r];
    var kind := s[r].flags.kind;
    assert NoFit(domain, s, t, kind, s[r], always4G);
    forall a: int
      ensures TakenOnBus(domain, s, t, kind, a) ==> Taken(domain, s0, u, kind, a)
    {
      if TakenOnBus(domain, s, t, kind, a) {
        var q: nat :| q < |s| && OnBus(domain.children, q) && s[q].flags.kind == kind && t[q] != s[q]
                      && InBlock(Granularity(kind), t[q].base, t[q].size, a);
        OnBusInIds(domain.children, q);
        TopKept(domain, s0, s, t, u, q, always4G);
      }
    }
    CannotFitFrom(domain, s0, s, t, u, r, kind, always4G);
  }

  // A resource on the bus of the domain is decided by the domain level alone.
  lemma TopKept(domain: Device, s0: Store, s: Store, t: Store, u: Store, q: nat, always4G: bool)
    requires Run(domain, s0, s, t, u, always4G) && OnBus(domain.children, q) && q in IdsOf(domain.children)
    ensures q < |s0| == |s| == |t| == |u| && u[q] == t[q]
    ensures t[q] != s[q] ==> Live(domain, s0, u, q) && u[q].flags.kind == s[q].flags.kind
    ensures t[q] == s[q] && !s0[q].flags.fixed ==> !u[q].flags.isAssigned
    ensures s[q].flags.kind == s0[q].flags.kind && s[q].flags.fixed == s0[q].flags.fixed
  {
    hide Allowed, EffectiveLimit, IsMultiple, Pow2, AllComputed, AllPlaced, InBlock, Disjoint, Computed;
    WellFormedOfIsSeparate(domain.children, s);
    OnBusIsBehind(domain.children, q);
    if u[q] != t[q] {
      DeeperIsDeep(domain.children, q);
    }
    assert Pass1Change(s0[q], s[q]);
    if t[q] != s[q] {
      assert TopChanged(domain, s, t, q, always4G);
    }
  }

  lemma CannotFitFrom(domain: Device, s0: Store, s: Store, t: Store, u: Store, r: nat, kind: TypeBits, always4G: bool)
    requires r < |u| && r < |s| && u[r] == s[r] && kind == s[r].flags.kind
    requires NoFit(domain, s, t, kind, s[r], always4G)
    requires forall a: int {:trigger TakenOnBus(domain, s, t, kind, a)} :: TakenOnBus(domain, s, t, kind, a) ==> Taken(domain, s0, u, kind, a)
    requires forall a: int {:trigger Allowed(domain, s, kind, a)} :: Allowed(domain, s, kind, a) <==> Allowed(domain, s0, kind, a)
    ensures CannotFit(domain, s0, u, r, always4G)
  {
    hide Allowed, EffectiveLimit, Pow2, Taken, TakenOnBus;
    forall b: nat | IsMultiple(b, Pow2(u[r].align)) && b + u[r].size - 1 <= EffectiveLimit(u[r], always4G)
      ensures exists a: int :: b <= a < b + u[r].size && !(Allowed(domain, s0, u[r].flags.kind, a) && !Taken(domain, s0, u, u[r].flags.kind, a))
    {
      var a: int :| b <= a < b + s[r].size && !(Allowed(domain, s, kind, a) && !TakenOnBus(domain, s, t, kind, a));
    }
  }
}
