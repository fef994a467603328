/**
 The device tree the resource allocator walks. The topology is constant; resources are
 named by their place in a store, which stands for the addresses of struct resource, so
 that the allocator can update them in place.
 */
module ResourceTree {
  import opened Arith

  datatype Option<T> = None | Some(value: T)

  const UINT32_LIMIT: nat := 0xFFFF_FFFF
  const UINT64_LIMIT: nat := 0xFFFF_FFFF_FFFF_FFFF

  // IORESOURCE_TYPE_MASK
  datatype TypeBits = TypeBits(io: bool, mem: bool, irq: bool, drq: bool)

  const IO := TypeBits(true, false, false, false)
  const MEM := TypeBits(false, true, false, false)

  datatype Flags = Flags(kind: TypeBits, prefetch: bool, subtractive: bool, bridge: bool, above4G: bool,
                         pci64: bool, fixed: bool, isAssigned: bool, isStored: bool)

  datatype Resource = Resource(base: nat, size: nat, limit: nat, flags: Flags, align: nat, gran: nat) {
    predicate Contains(a: int) {
      base <= a < base + size
    }

    // What the allocator never changes.
    function Identity(): (Flags, nat) {
      (flags.(isAssigned := false, isStored := false), gran)
    }
  }

  type Store = seq<Resource>

  datatype Device = Device(enabled: bool, resources: seq<nat>, children: seq<Device>)

  // A type mask together with the value the masked flags must have.
  datatype Wanted = Wanted(kind: TypeBits, prefetch: Option<bool>, fixed: Option<bool>)

  predicate Matches(f: Flags, w: Wanted) {
    && f.kind == w.kind
    && (w.prefetch.Some? ==> f.prefetch == w.prefetch.value)
    && (w.fixed.Some? ==> f.fixed == w.fixed.value)
  }

  // effective_limit, with ALWAYS_ALLOW_ABOVE_4G_ALLOCATION as a parameter.
  function EffectiveLimit(r: Resource, always4G: bool): nat {
    if always4G then r.limit
    else if r.flags.bridge then r.limit
    else if r.size > UINT32_LIMIT || r.flags.pci64 then UINT64_LIMIT
    else
      var quirk := if r.flags.above4G then UINT64_LIMIT else UINT32_LIMIT;
      if r.limit < quirk then r.limit else quirk
  }

  // ----- The traversal of search_bus_resources: the resources handed to the callback

  function SearchOrder(bus: seq<Device>, store: Store, w: Wanted): seq<nat>
    decreases bus, 0
  {
    if bus == [] then [] else
      SearchDevice(bus[0], bus[0].resources, store, w) + SearchOrder(bus[1..], store, w)
  }

  function SearchDevice(d: Device, list: seq<nat>, store: Store, w: Wanted): seq<nat>
    decreases d, |list|
  {
    if !d.enabled || list == [] then [] else
      var rest := SearchDevice(d, list[1..], store, w);
      if list[0] >= |store| || !Matches(store[list[0]].flags, w) then rest
      else if store[list[0]].flags.subtractive then SearchOrder(d.children, store, w) + rest
      else [list[0]] + rest
  }

  // ----- Which resources a tree holds

  ghost predicate OnBus(bus: seq<Device>, r: nat) {
    exists i :: 0 <= i < |bus| && bus[i].enabled && r in bus[i].resources
  }

  ghost function Ids(d: Device): set<nat>
    decreases d, 1
  {
    (set r | r in d.resources) + IdsOf(d.children)
  }

  ghost function IdsOf(bus: seq<Device>): set<nat>
    decreases bus, 0
  {
    if bus == [] then {} else Ids(bus[0]) + IdsOf(bus[1..])
  }

  ghost predicate NoDuplicates<T>(s: seq<T>) {
    forall i, j :: 0 <= i < j < |s| ==> s[i] != s[j]
  }

  // No struct resource is on two lists.
  ghost predicate Separate(d: Device)
    decreases d, 1
  {
    NoDuplicates(d.resources) && (set r | r in d.resources) !! IdsOf(d.children) && SeparateOf(d.children)
  }

  ghost predicate SeparateOf(bus: seq<Device>)
    decreases bus, 0
  {
    bus == [] || (Separate(bus[0]) && Ids(bus[0]) !! IdsOf(bus[1..]) && SeparateOf(bus[1..]))
  }

  ghost predicate InStore(ids: set<nat>, store: Store) {
    forall r :: r in ids ==> r < |store|
  }

  ghost predicate NoSubtractive(ids: set<nat>, store: Store) {
    forall r :: r in ids && r < |store| ==> !store[r].flags.subtractive
  }

  // Two stores that describe the same resources, up to what the allocator computes.
  ghost predicate SameIdentity(s: Store, t: Store) {
    |s| == |t| && forall i :: 0 <= i < |s| ==> s[i].Identity() == t[i].Identity()
  }

  lemma {:induction false} ChildIds(bus: seq<Device>, i: nat)
    requires i < |bus|
    ensures Ids(bus[i]) <= IdsOf(bus)
  {
    if i > 0 {
      ChildIds(bus[1..], i - 1);
    }
  }

  lemma {:induction false} IdsOfOwner(bus: seq<Device>, r: nat) returns (i: nat)
    requires r in IdsOf(bus)
    ensures i < |bus| && r in Ids(bus[i])
  {
    if r in Ids(bus[0]) {
      i := 0;
    } else {
      i := IdsOfOwner(bus[1..], r);
      i := i + 1;
    }
  }

  lemma {:induction false} SeparateAt(bus: seq<Device>, i: nat)
    requires i < |bus| && SeparateOf(bus)
    ensures Separate(bus[i])
    ensures forall j :: 0 <= j < |bus| && j != i ==> Ids(bus[i]) !! Ids(bus[j])
  {
    if i == 0 {
      forall j | 0 < j < |bus|
        ensures Ids(bus[0]) !! Ids(bus[j])
      {
        ChildIds(bus[1..], j - 1);
      }
    } else {
      SeparateAt(bus[1..], i - 1);
      ChildIds(bus[1..], i - 1);
      forall j | 0 <= j < |bus| && j != i
        ensures Ids(bus[i]) !! Ids(bus[j])
      {
        if 0 < j {
          assert bus[1..][j - 1] == bus[j];
        }
      }
    }
  }

  lemma OnBusInIds(bus: seq<Device>, r: nat)
    requires OnBus(bus, r)
    ensures r in IdsOf(bus)
  {
    var i :| 0 <= i < |bus| && bus[i].enabled && r in bus[i].resources;
    ChildIds(bus, i);
  }

  // ----- The traversal without subtractive resources: every match of an enabled device, once

  lemma NoDuplicatesConcat<T>(s: seq<T>, t: seq<T>)
    requires NoDuplicates(s) && NoDuplicates(t)
    requires forall x :: x in s ==> x !in t
    ensures NoDuplicates(s + t)
  {
    forall i, j | 0 <= i < j < |s + t|
      ensures (s + t)[i] != (s + t)[j]
    {
      if i < |s| <= j {
        assert s[i] in s && t[j - |s|] in t;
      }
    }
  }

  lemma {:induction false} SearchDeviceMembers(d: Device, list: seq<nat>, store: Store, w: Wanted)
    requires forall r: nat :: r in list ==> r < |store| && !store[r].flags.subtractive
    ensures var out := SearchDevice(d, list, store, w);
            && (forall r: nat :: r in out <==> d.enabled && r in list && Matches(store[r].flags, w))
            && (NoDuplicates(list) ==> NoDuplicates(out))
    decreases |list|
  {
    if d.enabled && list != [] {
      var rest := SearchDevice(d, list[1..], store, w);
      assert list == [list[0]] + list[1..];
      assert forall r: nat :: r in list[1..] ==> r in list;
      SearchDeviceMembers(d, list[1..], store, w);
      if NoDuplicates(list) {
        assert NoDuplicates(list[1..]);
        assert list[0] !in list[1..];
        NoDuplicatesConcat([list[0]], rest);
      }
    }
  }

  lemma OnBusStep(bus: seq<Device>, r: nat)
    requires bus != []
    ensures OnBus(bus, r) <==> (bus[0].enabled && r in bus[0].resources) || OnBus(bus[1..], r)
  {
    if OnBus(bus[1..], r) {
      var i :| 0 <= i < |bus[1..]| && bus[1..][i].enabled && r in bus[1..][i].resources;
      assert bus[i + 1] == bus[1..][i];
    }
    if OnBus(bus, r) && !(bus[0].enabled && r in bus[0].resources) {
      var i :| 0 <= i < |bus| && bus[i].enabled && r in bus[i].resources;
      assert bus[1..][i - 1] == bus[i];
    }
  }

  lemma {:induction false} SearchMembers(bus: seq<Device>, store: Store, w: Wanted)
    requires SeparateOf(bus) && InStore(IdsOf(bus), store) && NoSubtractive(IdsOf(bus), store)
    ensures forall r: nat :: r in SearchOrder(bus, store, w) <==> OnBus(bus, r) && r < |store| && Matches(store[r].flags, w)
    ensures NoDuplicates(SearchOrder(bus, store, w))
  {
    if bus != [] {
      var first := SearchDevice(bus[0], bus[0].resources, store, w);
      var rest := SearchOrder(bus[1..], store, w);
      assert forall r: nat :: r in bus[0].resources ==> r in Ids(bus[0]);
      SearchDeviceMembers(bus[0], bus[0].resources, store, w);
      SearchMembers(bus[1..], store, w);
      forall r: nat
        ensures r in SearchOrder(bus, store, w) <==> OnBus(bus, r) && r < |store| && Matches(store[r].flags, w)
      {
        OnBusStep(bus, r);
      }
      forall r: nat | r in rest
        ensures r !in first
      {
        OnBusInIds(bus[1..], r);
      }
      NoDuplicatesConcat(first, rest);
    }
  }

  // The traversal looks at nothing the allocator changes.
  lemma {:induction false} SearchOrderFrame(bus: seq<Device>, s: Store, t: Store, w: Wanted)
    requires SameIdentity(s, t)
    ensures SearchOrder(bus, s, w) == SearchOrder(bus, t, w)
    decreases bus, 0
  {
    if bus != [] {
      SearchDeviceFrame(bus[0], bus[0].resources, s, t, w);
      SearchOrderFrame(bus[1..], s, t, w);
    }
  }

  lemma {:induction false} SearchDeviceFrame(d: Device, list: seq<nat>, s: Store, t: Store, w: Wanted)
    requires SameIdentity(s, t)
    ensures SearchDevice(d, list, s, w) == SearchDevice(d, list, t, w)
    decreases d, |list|
  {
    if d.enabled && list != [] {
      SearchDeviceFrame(d, list[1..], s, t, w);
      SearchOrderFrame(d.children, s, t, w);
      if list[0] < |s| {
        assert s[list[0]].Identity() == t[list[0]].Identity();
      }
    }
  }
}
