/**
 What renumbering and fixing up an overlay achieve: its phandles are new to the base tree, stay distinct, and
 every local reference still names the node it named (src/commonlib/device_tree.c, dt_apply_overlay).
 */
module DtOverlay {
  import opened Buffers
  import opened FdtFormat
  import opened TreeSearch
  import opened TreeMerge
  import opened FdtReader
  import opened OverlayPhandles
  import opened OverlayFixups

  // ----- Overlays whose phandles can all be moved up by base

  ghost predicate LegalHandle(p: Property, base: nat) {
    && |p.data| >= 4 && Cell(p) !in {0, PHANDLE_ILLEGAL, NO_PHANDLE}
    && Cell(p) + base < PHANDLE_ILLEGAL
  }

  ghost predicate Legal(n: Node, base: nat) {
    && (forall p :: p in n.properties && IsPhandle(p) ==> LegalHandle(p, base))
    && n.phandle == PhandleOf(n.properties)
    && (forall c :: c in n.children ==> Legal(c, base))
  }

  lemma LegalParts(n: Node, base: nat)
    requires Legal(n, base)
    ensures forall p :: p in n.properties && IsPhandle(p) ==> LegalHandle(p, base)
    ensures n.phandle == PhandleOf(n.properties)
    ensures forall c :: c in n.children ==> Legal(c, base)
  {
  }

  lemma LegalIsAdjustable(p: Property, base: nat)
    requires LegalHandle(p, base)
    ensures Adjustable(p, base, 0)
    ensures Cell(Adjusted(p, base, 0)) == Cell(p) + base
  {
    hide Be32;
    AdjustedReads(p, base, 0);
  }

  lemma LegalHasNoBad(ps: seq<Property>, base: nat)
    requires forall p :: p in ps && IsPhandle(p) ==> LegalHandle(p, base)
    ensures FirstBad(ps, base) == |ps|
    ensures forall p :: p in ps && IsPhandle(p) ==> Cell(Renumbered(p, base)) == Cell(p) + base
  {
    hide LegalHandle, Adjustable, Adjusted, Cell;
    forall p | p in ps && IsPhandle(p)
      ensures Adjustable(p, base, 0) && Cell(Adjusted(p, base, 0)) == Cell(p) + base
    {
      LegalIsAdjustable(p, base);
    }
    var k := FirstBad(ps, base);
  }

  // Moved up by base; 0 stands for no phandle.
  function Moved(h: nat, base: nat): nat {
    if h == 0 then 0 else h + base
  }

  lemma {:induction false} HandleMoves(ps: seq<Property>, base: nat)
    requires forall p :: p in ps && IsPhandle(p) ==> LegalHandle(p, base)
    ensures HandleAfter(ps, base, 0) == Moved(PhandleOf(ps), base)
    decreases |ps|
  {
    hide LegalHandle, Adjustable, Adjusted, Cell;
    if ps != [] {
      var last := ps[|ps| - 1];
      HandleMoves(ps[..|ps| - 1], base);
      if IsPhandle(last) {
        LegalIsAdjustable(last, base);
        NotZero(last, base);
      }
    }
  }

  lemma NotZero(p: Property, base: nat)
    requires LegalHandle(p, base)
    ensures Cell(p) != 0
  {
  }

  lemma NoHandleKept(ps: seq<Property>, base: nat, before: nat)
    requires before == PhandleOf(ps)
    ensures before != 0 ==> exists p :: p in ps && IsPhandle(p) && Cell(p) == before
    ensures (forall p :: p in ps ==> !IsPhandle(p)) ==> before == 0
    decreases |ps|
  {
    if ps != [] {
      NoHandleKept(ps[..|ps| - 1], base, PhandleOf(ps[..|ps| - 1]));
    }
  }

  // Where the loop starts does not matter once a phandle property was seen, and before that it is 0.
  lemma {:induction false} HandleFromOwn(ps: seq<Property>, base: nat, before: nat)
    requires before == 0 || exists p :: p in ps && IsPhandle(p)
    ensures HandleAfter(ps, base, before) == HandleAfter(ps, base, 0)
    decreases |ps|
  {
    if ps != [] {
      var rest, last := ps[..|ps| - 1], ps[|ps| - 1];
      if !IsPhandle(last) && before != 0 {
        var p :| p in ps && IsPhandle(p);
        assert p in rest;
        HandleFromOwn(rest, base, before);
      }
    }
  }

  /** A node of a legal overlay after renumbering. */
  lemma RenumberedIs(n: Node, base: nat)
    requires Legal(n, base)
    ensures var r := RenumberedNode(n, base);
              && r.name == n.name && r.phandle == Moved(n.phandle, base)
              && r.properties == RenumberedAll(n.properties, base)
              && |r.children| == |n.children|
              && forall i :: 0 <= i < |n.children| ==> r.children[i] == RenumberedNode(n.children[i], base)
  {
    LegalParts(n, base);
    hide Legal, LegalHandle, PhandleOf, HandleAfter, CanRenumber, IsPhandle;
    LegalHasNoBad(n.properties, base);
    HandleMoves(n.properties, base);
    NoHandleKept(n.properties, base, n.phandle);
    HandleFromOwn(n.properties, base, n.phandle);
    WholeNode(n, base, seq(|n.children|, i requires 0 <= i < |n.children| => RenumberedNode(n.children[i], base)));
  }

  // ----- The set of phandles moves as a whole

  lemma {:induction false} InPhandlesOf(ns: seq<Node>, h: nat)
    ensures h in PhandlesOf(ns) <==> exists i :: 0 <= i < |ns| && h in Phandles(ns[i])
    decreases |ns|
  {
    hide Phandles;
    if ns != [] {
      InPhandlesOf(ns[1..], h);
      if h in PhandlesOf(ns[1..]) {
        var i :| 0 <= i < |ns| - 1 && h in Phandles(ns[1..][i]);
        assert ns[i + 1] == ns[1..][i];
      }
      if exists i :: 0 <= i < |ns| && h in Phandles(ns[i]) {
        var i :| 0 <= i < |ns| && h in Phandles(ns[i]);
        if i > 0 {
          assert ns[1..][i - 1] == ns[i];
        }
      }
    }
  }

  // The moved value of a phandle of n, as a member of the result.
  ghost predicate IsMovedIn(h: nat, base: nat, handles: set<nat>) {
    h >= base && h - base in handles
  }

  lemma InPhandlesIn(ps: seq<Property>, h: nat)
    ensures h in PhandlesIn(ps) <==> exists i :: 0 <= i < |ps| && IsPhandle(ps[i]) && Cell(ps[i]) == h
  {
    hide Cell, IsPhandle;
    if h in PhandlesIn(ps) {
      var p :| p in ps && IsPhandle(p) && Cell(p) == h;
    }
  }

  lemma SameKind(p: Property, base: nat)
    ensures IsPhandle(Renumbered(p, base)) <==> IsPhandle(p)
  {
  }

  lemma OwnPhandlesMove(ps: seq<Property>, base: nat, h: nat)
    requires forall p :: p in ps && IsPhandle(p) ==> LegalHandle(p, base)
    ensures h in PhandlesIn(RenumberedAll(ps, base)) <==> IsMovedIn(h, base, PhandlesIn(ps))
  {
    var qs := RenumberedAll(ps, base);
    assert IsMovedIn(h, base, PhandlesIn(ps)) <==> h >= base && h - base in PhandlesIn(ps);
    hide *;
    LegalHasNoBad(ps, base);
    forall i | 0 <= i < |ps|
      ensures IsPhandle(qs[i]) <==> IsPhandle(ps[i])
      ensures IsPhandle(ps[i]) ==> Cell(qs[i]) == Cell(ps[i]) + base
    {
      SameKind(ps[i], base);
    }
    InPhandlesIn(qs, h);
    if h >= base {
      InPhandlesIn(ps, h - base);
    }
  }

  lemma InReportedOf(ns: seq<Node>, base: nat, h: nat)
    ensures h in ReportedOf(ns, base) <==> exists i :: 0 <= i < |ns| && h in Reported(ns[i], base)
  {
    hide Reported;
  }

  lemma MovedParts(h: nat, base: nat, x: set<nat>, y: set<nat>)
    ensures IsMovedIn(h, base, x + y) <==> IsMovedIn(h, base, x) || IsMovedIn(h, base, y)
  {
  }

  lemma MovedInChildren(ns: seq<Node>, base: nat, h: nat)
    ensures IsMovedIn(h, base, PhandlesOf(ns)) <==> exists i :: 0 <= i < |ns| && IsMovedIn(h, base, Phandles(ns[i]))
  {
    hide Phandles, PhandlesOf;
    if h >= base {
      InPhandlesOf(ns, h - base);
    }
  }

  /** Renumbering moves every phandle up by base, and reports exactly the new ones. */
  lemma {:induction false} PhandlesMove(n: Node, base: nat, h: nat)
    requires Legal(n, base)
    ensures h in Phandles(RenumberedNode(n, base)) <==> IsMovedIn(h, base, Phandles(n))
    ensures h in Reported(n, base) <==> IsMovedIn(h, base, Phandles(n))
    decreases n
  {
    hide *;
    LegalParts(n, base);
    var r := RenumberedNode(n, base);
    RenumberedIs(n, base);
    LegalHasNoBad(n.properties, base);
    ReportedParts(n, base);
    OwnPhandlesMove(n.properties, base, h);
    PhandlesOfParts(n);
    PhandlesOfParts(r);
    InPhandlesOf(r.children, h);
    InReportedOf(n.children, base, h);
    MovedInChildren(n.children, base, h);
    MovedParts(h, base, PhandlesIn(n.properties), PhandlesOf(n.children));
    forall i | 0 <= i < |n.children|
      ensures h in Phandles(r.children[i]) <==> IsMovedIn(h, base, Phandles(n.children[i]))
      ensures h in Reported(n.children[i], base) <==> IsMovedIn(h, base, Phandles(n.children[i]))
    {
      PhandlesMove(n.children[i], base, h);
    }
  }

  /**
   The renumbered overlay shares no phandle with the base tree, whose highest phandle is base, and the new
   maximum is above both.
   */
  lemma RenumberingIsFresh(tree: Node, overlay: Node, base: nat, newMax: nat)
    requires forall h :: h in Phandles(tree) ==> h <= base
    requires Legal(overlay, base) && IsHighest(newMax, if base > 1 then base else 1, Reported(overlay, base))
    ensures Phandles(tree) !! Phandles(RenumberedNode(overlay, base))
    ensures forall h :: h in Phandles(tree) + Phandles(RenumberedNode(overlay, base)) ==> h <= newMax
  {
    hide Phandles, RenumberedNode, Legal, Reported;
    forall h | h in Phandles(RenumberedNode(overlay, base))
      ensures base < h <= newMax
    {
      PhandlesMove(overlay, base, h);
      NoZeroPhandle(overlay, base, 0);
    }
  }

  lemma {:induction false} NoZeroPhandle(n: Node, base: nat, zero: nat)
    requires Legal(n, base) && zero == 0
    ensures zero !in Phandles(n)
    decreases n
  {
    hide *;
    LegalParts(n, base);
    PhandlesOfParts(n);
    InPhandlesIn(n.properties, zero);
    InPhandlesOf(n.children, zero);
    forall i | 0 <= i < |n.properties| && IsPhandle(n.properties[i])
      ensures Cell(n.properties[i]) != zero
    {
      NotZero(n.properties[i], base);
    }
    forall i | 0 <= i < |n.children|
      ensures zero !in Phandles(n.children[i])
    {
      NoZeroPhandle(n.children[i], base, zero);
    }
  }

  // ----- Places

  lemma {:induction false} RenumberedChild(ns: seq<Node>, ms: seq<Node>, base: nat, name: seq<byte>)
    requires |ms| == |ns| && forall i :: 0 <= i < |ns| ==> ms[i] == RenumberedNode(ns[i], base)
    ensures FirstChild(ms, name) == match FirstChild(ns, name)
                                    case None => None
                                    case Some(c) => Some(RenumberedNode(c, base))
    decreases |ns|
  {
    hide RenumberedNode;
    if ns != [] {
      RenumberedChild(ns[1..], ms[1..], base, name);
    }
  }

  /** Every node stays where it is, with its phandle moved. */
  lemma {:induction false} RenumberedPlace(n: Node, base: nat, path: Path)
    requires Legal(n, base)
    ensures Find(RenumberedNode(n, base), path) == match Find(n, path)
                                                   case None => None
                                                   case Some(m) => Some(RenumberedNode(m, base))
    ensures Find(n, path).Some? ==> Legal(Find(n, path).value, base)
    decreases |path|
  {
    hide Legal, RenumberedNode;
    if path != [] {
      LegalParts(n, base);
      RenumberedIs(n, base);
      RenumberedChild(n.children, RenumberedNode(n, base).children, base, path[0]);
      ChildIsIn(n.children, path[0]);
      match FirstChild(n.children, path[0])
      case None =>
      case Some(c) => RenumberedPlace(c, base, path[1..]);
    }
  }

  function FixedOption(n: Option<Node>, fix: Option<Node>, base: nat): Option<Node> {
    if n.Some? && fix.Some? then Some(Fixed(n.value, fix.value, base)) else n
  }

  lemma FixedFirstChild(ns: seq<Node>, gs: seq<Node>, base: nat, name: seq<byte>)
    ensures FirstChild(FixedChildren(ns, gs, base), name) ==
            FixedOption(FirstChild(ns, name), FirstChild(gs, name), base)
  {
    hide Fixed;
    var k := IndexOf(ns, name);
    var ms := FixedChildren(ns, gs, base);
    assert forall j :: 0 <= j < |ns| ==> ms[j].name == ns[j].name;
    FirstChildIndex(ms, ns, name, k);
    if k < |ns| {
      assert ms[k] == FixedChild(ns, k, gs, base);
    }
  }

  /** Fixups leave every node in its place with its phandle. */
  lemma {:induction false} FixedPlace(n: Node, fix: Node, base: nat, path: Path)
    ensures Find(Fixed(n, fix, base), path) == FixedOption(Find(n, path), Find(fix, path), base)
    decreases |path|
  {
    hide Fixed;
    if path != [] {
      FixedIs(n, fix, base);
      FixedFirstChild(n.children, fix.children, base, path[0]);
      var m, g := FirstChild(n.children, path[0]), FirstChild(fix.children, path[0]);
      if m.Some? && g.Some? {
        FixedPlace(m.value, g.value, base, path[1..]);
      }
    }
  }

  // ----- References

  lemma FixedLookup(ps: seq<Property>, fs: seq<Property>, base: nat, name: seq<byte>)
    ensures Lookup(FixedProperties(ps, fs, base), name) ==
            if Lookup(ps, name).Some? && Lookup(fs, name).Some?
            then Some(AdjustedAt(Lookup(ps, name).value, base, Offsets(Lookup(fs, name).value))) else Lookup(ps, name)
  {
    hide AdjustedAt, Offsets;
    var k := PropertyIndex(ps, name);
    var qs := FixedProperties(ps, fs, base);
    SamePropertyIndex(ps, qs, name);
    if k < |ps| {
      assert qs[k] == FixedProperty(ps, k, fs, base);
    }
  }

  lemma {:induction false} RenumberedLookup(ps: seq<Property>, base: nat, name: seq<byte>)
    ensures Lookup(RenumberedAll(ps, base), name) == match Lookup(ps, name)
                                                     case None => None
                                                     case Some(p) => Some(Renumbered(p, base))
    decreases |ps|
  {
    hide Renumbered;
    if ps != [] {
      SameRenumberedName(ps[0], base);
      RenumberedLookup(ps[1..], base, name);
      assert RenumberedAll(ps, base)[1..] == RenumberedAll(ps[1..], base);
    }
  }

  lemma SameRenumberedName(p: Property, base: nat)
    ensures Renumbered(p, base).name == p.name
    ensures !IsPhandle(p) ==> Renumbered(p, base) == p
  {
  }

  lemma UniqueLookup(fs: seq<Property>, f: Property)
    requires UniqueNames(fs) && f in fs
    ensures Lookup(fs, f.name) == Some(f)
  {
    var k :| 0 <= k < |fs| && fs[k] == f;
    LookupFirst(fs, f.name, k);
  }

  // The value of a property somewhere in a tree.
  function ValueAt(n: Node, path: Path, name: seq<byte>): Option<Property> {
    match Find(n, path)
    case None => None
    case Some(m) => Lookup(m.properties, name)
  }

  lemma {:induction false} ListedPlace(n: Node, fix: Node, base: nat, path: Path)
    requires WellListed(fix) && Fixable(n, fix, base) && Find(fix, path).Some?
    ensures Find(n, path).Some? && WellListed(Find(fix, path).value)
    ensures Fixable(Find(n, path).value, Find(fix, path).value, base)
    decreases |path|
  {
    hide WellListed, Fixable, FixableProperty;
    if path != [] {
      WellListedParts(fix);
      FixableParts(n, fix, base);
      ChildIsIn(fix.children, path[0]);
      var g := FirstChild(fix.children, path[0]).value;
      FixableChildIs(n.children, g, base);
      ChildNamed(fix.children, path[0]);
      ListedPlace(FirstChild(n.children, path[0]).value, g, base, path[1..]);
    }
  }

  lemma ChildNamed(ns: seq<Node>, name: seq<byte>)
    requires FirstChild(ns, name).Some?
    ensures FirstChild(ns, name).value.name == name
  {
  }

  // What a listed reference reads before and after the fixups.
  lemma ListedValue(n: Node, fix: Node, base: nat, path: Path, f: Property, o: nat)
    requires WellListed(fix) && Fixable(n, fix, base)
    requires Find(fix, path).Some? && f in Find(fix, path).value.properties && o in Offsets(f)
    ensures var p, q := ValueAt(n, path, f.name), ValueAt(Fixed(n, fix, base), path, f.name);
              && p.Some? && q.Some? && o + 4 <= |p.value.data| == |q.value.data|
              && Adjustable(p.value, base, o)
              && Be32(q.value.data, o) == (Be32(p.value.data, o) + base) % U32_SIZE
  {
    hide WellListed, Fixable, Apart, Adjustable, Be32, Fixed, AdjustedAt, Offsets, FixedProperties;
    ListedPlace(n, fix, base, path);
    FixedPlace(n, fix, base, path);
    var m, g := Find(n, path).value, Find(fix, path).value;
    WellListedParts(g);
    FixableParts(m, g, base);
    FixedIs(m, g, base);
    UniqueLookup(g.properties, f);
    FixedLookup(m.properties, g.properties, base, f.name);
    AdjustableInside(Lookup(m.properties, f.name).value, base, o);
    AdjustedAtReads(Lookup(m.properties, f.name).value, base, Offsets(f), o);
  }

  lemma AdjustableInside(p: Property, base: nat, o: nat)
    requires Adjustable(p, base, o)
    ensures o + 4 <= |p.data| && 0 < Be32(p.data, o) < U32_SIZE
    ensures 0 < (Be32(p.data, o) + base) % U32_SIZE
  {
  }

  lemma RenumberedValue(n: Node, base: nat, path: Path, name: seq<byte>)
    requires Legal(n, base) && name != PHANDLE && name != LINUX_PHANDLE
    ensures ValueAt(RenumberedNode(n, base), path, name) == ValueAt(n, path, name)
  {
    hide Legal, RenumberedNode, Lookup, Renumbered;
    RenumberedPlace(n, base, path);
    if Find(n, path).Some? {
      var m := Find(n, path).value;
      RenumberedIs(m, base);
      RenumberedLookup(m.properties, base, name);
      if Lookup(m.properties, name).Some? {
        SameRenumberedName(Lookup(m.properties, name).value, base);
      }
    }
  }

  // The renumbered and fixed up overlay.
  function Relocated(overlay: Node, fix: Node, base: nat): Node {
    Fixed(RenumberedNode(overlay, base), fix, base)
  }

  // A moved reference and a moved phandle agree exactly if they did before.
  lemma MovedTogether(v: nat, h: nat, base: nat)
    requires 0 < v < U32_SIZE && 0 < (v + base) % U32_SIZE && base < U32_SIZE
    requires h == 0 || h + base < U32_SIZE
    ensures v == h <==> (v + base) % U32_SIZE == Moved(h, base)
  {
  }

  lemma LegalPhandle(n: Node, base: nat)
    requires Legal(n, base)
    ensures n.phandle == 0 || n.phandle + base < PHANDLE_ILLEGAL
  {
    LegalParts(n, base);
    hide Legal, Cell;
    NoHandleKept(n.properties, base, n.phandle);
  }

  // What a listed reference reads before and after relocation.
  lemma ReferenceMoves(overlay: Node, fix: Node, base: nat, path: Path, f: Property, o: nat)
    requires Legal(overlay, base) && WellListed(fix) && Fixable(RenumberedNode(overlay, base), fix, base)
    requires Find(fix, path).Some? && f in Find(fix, path).value.properties && o in Offsets(f)
    requires f.name != PHANDLE && f.name != LINUX_PHANDLE
    ensures var before, after := ValueAt(overlay, path, f.name), ValueAt(Relocated(overlay, fix, base), path, f.name);
              && before.Some? && after.Some? && o + 4 <= |before.value.data| == |after.value.data|
              && 0 < Be32(before.value.data, o) < U32_SIZE
              && 0 < Be32(after.value.data, o) == (Be32(before.value.data, o) + base) % U32_SIZE
  {
    RelocatedIs(overlay, fix, base);
    hide *;
    var r := RenumberedNode(overlay, base);
    RenumberedValue(overlay, base, path, f.name);
    ListedValue(r, fix, base, path, f, o);
    AdjustableInside(ValueAt(r, path, f.name).value, base, o);
  }

  lemma RelocatedIs(overlay: Node, fix: Node, base: nat)
    ensures Relocated(overlay, fix, base) == Fixed(RenumberedNode(overlay, base), fix, base)
  {
  }

  // Every phandle field moves.
  lemma PhandleMoves(overlay: Node, fix: Node, base: nat, path: Path)
    requires Legal(overlay, base) && Find(overlay, path).Some?
    ensures Find(Relocated(overlay, fix, base), path).Some?
    ensures Find(Relocated(overlay, fix, base), path).value.phandle == Moved(Find(overlay, path).value.phandle, base)
    ensures var h := Find(overlay, path).value.phandle; h == 0 || h + base < U32_SIZE
  {
    assert PHANDLE_ILLEGAL < U32_SIZE;
    RelocatedIs(overlay, fix, base);
    hide *;
    var r := RenumberedNode(overlay, base);
    RenumberedPlace(overlay, base, path);
    RenumberedIs(Find(overlay, path).value, base);
    LegalPhandle(Find(overlay, path).value, base);
    FixedPlace(r, fix, base, path);
    FixedKeepsPhandle(Find(r, path), Find(fix, path), base);
  }

  /**
   A listed reference names a node of the overlay after relocation exactly if it named that node before; the
   references listed are those of properties that are not phandles themselves.
   */
  lemma LocalReferencesFollow(overlay: Node, fix: Node, base: nat, path: Path, f: Property, o: nat, target: Path)
    requires Legal(overlay, base) && WellListed(fix) && Fixable(RenumberedNode(overlay, base), fix, base)
    requires Find(fix, path).Some? && f in Find(fix, path).value.properties && o in Offsets(f)
    requires f.name != PHANDLE && f.name != LINUX_PHANDLE && base < U32_SIZE
    requires Find(overlay, target).Some?
    ensures var before, after := ValueAt(overlay, path, f.name), ValueAt(Relocated(overlay, fix, base), path, f.name);
              && before.Some? && after.Some? && o + 4 <= |before.value.data| == |after.value.data|
              && Find(Relocated(overlay, fix, base), target).Some?
              && (Be32(before.value.data, o) == Find(overlay, target).value.phandle <==>
                  Be32(after.value.data, o) == Find(Relocated(overlay, fix, base), target).value.phandle)
  {
    hide *;
    ReferenceMoves(overlay, fix, base, path, f, o);
    PhandleMoves(overlay, fix, base, target);
    MovedTogether(Be32(ValueAt(overlay, path, f.name).value.data, o), Find(overlay, target).value.phandle, base);
  }

  lemma FixedKeepsPhandle(n: Option<Node>, fix: Option<Node>, base: nat)
    requires n.Some?
    ensures FixedOption(n, fix, base).Some? && FixedOption(n, fix, base).value.phandle == n.value.phandle
  {
  }

  /** What is not listed keeps its value. */
  lemma UnlistedStays(overlay: Node, fix: Node, base: nat, path: Path, name: seq<byte>)
    requires Legal(overlay, base) && name != PHANDLE && name != LINUX_PHANDLE
    requires ValueAt(fix, path, name).None?
    ensures ValueAt(Relocated(overlay, fix, base), path, name) == ValueAt(overlay, path, name)
  {
    hide Legal, Fixed, RenumberedNode, Lookup, FixedProperties;
    var r := RenumberedNode(overlay, base);
    RenumberedValue(overlay, base, path, name);
    FixedPlace(r, fix, base, path);
    if Find(r, path).Some? && Find(fix, path).Some? {
      var m, g := Find(r, path).value, Find(fix, path).value;
      FixedIs(m, g, base);
      FixedLookup(m.properties, g.properties, base, name);
    }
  }

  /** Two nodes share a phandle after relocation exactly if they did before. */
  lemma PhandlesStayDistinct(overlay: Node, fix: Node, base: nat, x: Path, y: Path)
    requires Legal(overlay, base) && Find(overlay, x).Some? && Find(overlay, y).Some?
    ensures Find(Relocated(overlay, fix, base), x).Some? && Find(Relocated(overlay, fix, base), y).Some?
    ensures Find(Relocated(overlay, fix, base), x).value.phandle == Find(Relocated(overlay, fix, base), y).value.phandle
            <==> Find(overlay, x).value.phandle == Find(overlay, y).value.phandle
  {
    hide Legal, Relocated, Find;
    PhandleMoves(overlay, fix, base, x);
    PhandleMoves(overlay, fix, base, y);
  }

  // ----- Failures below the root

  // What dt_adjust_all_phandles may return: 0 for the node's own failure, else the highest phandle it has seen.
  ghost predicate IsReport(newMax: nat, n: Node, base: nat) {
    if exists p :: p in n.properties && !CanRenumber(p, base) then newMax == 0
    else newMax != 0 && IsHighest(newMax, if base > 1 then base else 1, Reported(n, base))
  }

  /**
   The maximum that the caller gets is 0, its sign of failure, exactly if a property of the root has an unusable phandle. So
   it tells whether the whole tree could be renumbered exactly if the root has one or all nodes below it could.
   */
  lemma HiddenFailure(n: Node, base: nat, newMax: nat)
    requires IsReport(newMax, n, base)
    ensures newMax == 0 <==> exists p :: p in n.properties && !CanRenumber(p, base)
    ensures newMax == 0 <==> FirstBad(n.properties, base) < |n.properties|
    ensures (newMax != 0 <==> AllAdjustable(n, base)) <==>
            newMax == 0 || forall c :: c in n.children ==> AllAdjustable(c, base)
  {
    hide CanRenumber, IsHighest, Reported;
    FirstBadIs(n.properties, base, FirstBad(n.properties, base));
  }

  /** A child whose phandle is 0, under a root without phandles: the caller gets a maximum as if all were well. */
  method HiddenFailureExample(base: nat) returns (root: Node, after: Node, newMax: nat)
    ensures !AllAdjustable(root, base) && newMax == if base > 1 then base else 1
    ensures after == RenumberedNode(root, base) && IsReport(newMax, root, base)
  {
    var bad := Property(PHANDLE, [0, 0, 0, 0]);
    var child := Node([99], 0, [bad], []);
    assert Be32(bad.data, 0) == 0 && !CanRenumber(bad, base);
    assert FirstBad(child.properties, base) == 0;
    root := Node([], 0, [], [child]);
    assert child in root.children;
    assert Reported(child, base) == {};
    after, newMax := DtAdjustAllPhandles(root, base);
    assert forall h :: h !in Reported(root, base);
  }

  // ----- The first half of applying an overlay

  const LOCAL_FIXUPS: seq<byte> := [95, 95, 108, 111, 99, 97, 108, 95, 102, 105, 120, 117, 112, 115, 95, 95]

  lemma FixupsName()
    ensures LOCAL_FIXUPS == Ascii("__local_fixups__")
  {
  }

  // The fixups themselves hold no phandles.
  ghost predicate PlainTree(n: Node) {
    (forall p :: p in n.properties ==> !IsPhandle(p)) && forall c :: c in n.children ==> PlainTree(c)
  }

  lemma {:induction false} PlainStays(n: Node, base: nat)
    requires Legal(n, base) && PlainTree(n)
    ensures RenumberedNode(n, base) == n
    decreases n
  {
    LegalParts(n, base);
    RenumberedIs(n, base);
    var r := RenumberedNode(n, base);
    hide RenumberedNode, Legal;
    NoHandleKept(n.properties, base, n.phandle);
    forall i | 0 <= i < |n.properties|
      ensures r.properties[i] == n.properties[i]
    {
      SameRenumberedName(n.properties[i], base);
    }
    forall i | 0 <= i < |n.children|
      ensures r.children[i] == n.children[i]
    {
      PlainStays(n.children[i], base);
    }
  }

  lemma NoPointers()
    ensures WantedOf(Cells(None, None)) == Wanted(false, false)
  {
  }

  /**
   dt_apply_overlay up to the local fixups: base is the highest phandle of the tree that the overlay will join.
   A new maximum of 0 stands for the source's error.
   */
  method DtRelocateOverlay(overlay: Node, base: nat) returns (after: Node, newMax: nat, ok: bool)
    requires Legal(overlay, base) && base < U32_SIZE
    requires var f := Find(overlay, [LOCAL_FIXUPS]); f.Some? ==> PlainTree(f.value)
    ensures var f, r := Find(overlay, [Ascii("__local_fixups__")]), RenumberedNode(overlay, base);
              && (ok <==> f.None? || FixNode(r, f.value, base).Some?)
              && (ok ==> Some(after) == if f.None? then Some(r) else FixNode(r, f.value, base))
              && (f.Some? && WellListed(f.value) ==>
                    (ok <==> Fixable(r, f.value, base)) && (ok ==> after == Relocated(overlay, f.value, base)))
    ensures ok ==> IsHighest(newMax, if base > 1 then base else 1, Reported(overlay, base))
  {
    FixupsName();
    RenumberedPlace(overlay, base, [LOCAL_FIXUPS]);
    LegalParts(overlay, base);
    LegalHasNoBad(overlay.properties, base);
    hide *;
    after, newMax := DtAdjustAllPhandles(overlay, base);
    if newMax == 0 {
      return after, newMax, false;
    }
    NothingRead(after);
    NoPointers();
    var _, fixups, _ := DtFindNode(after, [LOCAL_FIXUPS], Cells(None, None), false);
    ok := true;
    if fixups.Some? {
      PlainStays(Find(overlay, [LOCAL_FIXUPS]).value, base);
      RelocatedIs(overlay, fixups.value, base);
      if WellListed(fixups.value) {
        FixNodeExactly(after, fixups.value, base);
      }
      after, ok := DtFixupLocals(after, fixups.value, base);
    }
  }
}
