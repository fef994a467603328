/**
 The sorted list of free address ranges the resource allocator carves windows from.
 All ranges of one list carry the same tag in the allocator, so tags are left out.
 */
module MemRange {
  import opened Arith

  datatype Entry = Entry(begin: nat, end: nat)   // both ends inclusive

  ghost predicate Covered(entries: seq<Entry>, a: int) {
    exists k :: 0 <= k < |entries| && entries[k].begin <= a <= entries[k].end
  }

  ghost predicate Sorted(entries: seq<Entry>) {
    && (forall k :: 0 <= k < |entries| ==> entries[k].begin <= entries[k].end)
    && (forall i, j :: 0 <= i < j < |entries| ==> entries[i].end < entries[j].begin)
  }

  // No two entries touch either.
  ghost predicate Merged(entries: seq<Entry>) {
    && (forall k :: 0 <= k < |entries| ==> entries[k].begin <= entries[k].end)
    && (forall i, j :: 0 <= i < j < |entries| ==> entries[i].end + 1 < entries[j].begin)
  }

  // An aligned block of the size, wholly free and below the limit.
  ghost predicate RoomAt(entries: seq<Entry>, b: nat, limit: int, size: nat, alignment: nat) {
    && IsMultiple(b, Pow2(alignment)) && b + size - 1 <= limit
    && forall a: int {:trigger Covered(entries, a)} :: b <= a < b + size ==> Covered(entries, a)
  }

  lemma CoveredAppend(s: seq<Entry>, t: seq<Entry>, a: int)
    ensures Covered(s + t, a) <==> Covered(s, a) || Covered(t, a)
  {
    if Covered(s, a) {
      var k :| 0 <= k < |s| && s[k].begin <= a <= s[k].end;
      assert (s + t)[k] == s[k];
    }
    if Covered(t, a) {
      var k :| 0 <= k < |t| && t[k].begin <= a <= t[k].end;
      assert (s + t)[|s| + k] == t[k];
    }
    if Covered(s + t, a) {
      var k :| 0 <= k < |s + t| && (s + t)[k].begin <= a <= (s + t)[k].end;
      assert (s + t)[k] == if k < |s| then s[k] else t[k - |s|];
    }
  }

  lemma CoveredNone(s: seq<Entry>)
    requires s == []
    ensures forall a: int {:trigger Covered(s, a)} :: !Covered(s, a)
  {
  }

  lemma CoveredOne(e: Entry, a: int)
    ensures Covered([e], a) <==> e.begin <= a <= e.end
  {
    assert [e][0] == e;
  }

  // Whether an aligned block of the size fits the entry below the limit.
  predicate FitsEntry(e: Entry, limit: int, size: nat, alignment: nat) {
    && AlignUp(e.begin, Pow2(alignment)) + size - 1 <= e.end
    && AlignUp(e.begin, Pow2(alignment)) + size - 1 <= limit
  }

  // What remove_memranges leaves of a single entry.
  function Cut(e: Entry, begin: nat, end: nat): (r: seq<Entry>)
    requires e.begin <= e.end && begin <= end
    ensures Merged(r)
    ensures forall k :: 0 <= k < |r| ==> e.begin <= r[k].begin && r[k].end <= e.end
    ensures forall a: int {:trigger Covered(r, a)} :: Covered(r, a) <==> e.begin <= a <= e.end && !(begin <= a <= end)
  {
    var left := if e.begin < begin then [Entry(e.begin, if e.end < begin then e.end else begin - 1)] else [];
    var right := if end < e.end then [Entry(if end < e.begin then e.begin else end + 1, e.end)] else [];
    var r := if e.end < begin || end < e.begin then [e] else left + right;
    assert forall a: int {:trigger Covered(r, a)} :: Covered(r, a) <==> e.begin <= a <= e.end && !(begin <= a <= end) by {
      forall a: int
        ensures Covered(r, a) <==> e.begin <= a <= e.end && !(begin <= a <= end)
      {
        if r == [e] {
          CoveredOne(e, a);
        } else {
          CoveredAppend(left, right, a);
          if left != [] { CoveredOne(left[0], a); }
          if right != [] { CoveredOne(right[0], a); }
        }
      }
    }
    r
  }

  lemma RemoveStep(out: seq<Entry>, cut: seq<Entry>, done: seq<Entry>, e: Entry, begin: nat, end: nat, a: int)
    requires Covered(out, a) <==> Covered(done, a) && !(begin <= a <= end)
    requires Covered(cut, a) <==> e.begin <= a <= e.end && !(begin <= a <= end)
    ensures Covered(out + cut, a) <==> Covered(done + [e], a) && !(begin <= a <= end)
  {
    CoveredAppend(out, cut, a);
    CoveredAppend(done, [e], a);
    CoveredOne(e, a);
  }

  lemma RemoveRest(out: seq<Entry>, entries: seq<Entry>, i: nat, begin: nat, end: nat, a: int)
    requires Sorted(entries) && i <= |entries| && (i < |entries| ==> end < entries[i].begin)
    requires Covered(out, a) <==> Covered(entries[..i], a) && !(begin <= a <= end)
    ensures Covered(out + entries[i..], a) <==> Covered(entries, a) && !(begin <= a <= end)
  {
    var rest := entries[i..];
    assert entries == entries[..i] + rest;
    CoveredAppend(entries[..i], rest, a);
    CoveredAppend(out, rest, a);
    if Covered(rest, a) {
      var k :| 0 <= k < |rest| && rest[k].begin <= a <= rest[k].end;
      assert rest[k] == entries[i + k];
    }
  }

  // Two neighbours that touch cover together what their union covers.
  lemma JoinStep(out: seq<Entry>, prev: Entry, cur: Entry, done: seq<Entry>, a: int)
    requires prev.begin <= prev.end && prev.end < cur.begin <= cur.end && cur.begin <= prev.end + 1
    requires Covered(out + [prev], a) <==> Covered(done, a)
    ensures Covered(out + [Entry(prev.begin, cur.end)], a) <==> Covered(done + [cur], a)
  {
    CoveredAppend(out, [prev], a);
    CoveredAppend(out, [Entry(prev.begin, cur.end)], a);
    CoveredAppend(done, [cur], a);
    CoveredOne(prev, a);
    CoveredOne(Entry(prev.begin, cur.end), a);
    CoveredOne(cur, a);
  }

  lemma InsertStep(s: seq<Entry>, e: Entry, t: seq<Entry>, a: int)
    ensures Covered(s + [e] + t, a) <==> Covered(s + t, a) || e.begin <= a <= e.end
  {
    CoveredAppend(s + [e], t, a);
    CoveredAppend(s, [e], a);
    CoveredAppend(s, t, a);
    CoveredOne(e, a);
  }

  lemma GapAfterRemoval(entries: seq<Entry>, begin: nat, end: nat)
    requires Sorted(entries) && begin <= end
    requires forall a: int {:trigger Covered(entries, a)} :: Covered(entries, a) ==> !(begin <= a <= end)
    ensures forall k :: 0 <= k < |entries| ==> entries[k].end < begin || end < entries[k].begin
  {
    forall k | 0 <= k < |entries|
      ensures entries[k].end < begin || end < entries[k].begin
    {
      var e := entries[k];
      var a := if e.begin < begin <= e.end then begin else e.begin;
      assert e.begin <= a <= e.end;
      assert Covered(entries, a);
    }
  }

  lemma MergedIsSorted(entries: seq<Entry>)
    requires Merged(entries)
    ensures Sorted(entries)
  {
  }

  // A free block lies in a single entry, so the search by entries misses none.
  lemma RoomFitsEntry(entries: seq<Entry>, b: nat, limit: int, size: nat, alignment: nat) returns (k: nat)
    requires Merged(entries) && 0 < size && RoomAt(entries, b, limit, size, alignment)
    ensures k < |entries| && FitsEntry(entries[k], limit, size, alignment)
  {
    assert Covered(entries, b);
    k :| 0 <= k < |entries| && entries[k].begin <= b <= entries[k].end;
    var next := entries[k].end + 1;
    assert !Covered(entries, next);
    AlignUpLeast(b, entries[k].begin, Pow2(alignment));
  }

  lemma BlockInEntry(entries: seq<Entry>, k: nat, base: nat, size: nat)
    requires k < |entries| && entries[k].begin <= base && base + size - 1 <= entries[k].end
    ensures forall a: int {:trigger Covered(entries, a)} :: base <= a < base + size ==> Covered(entries, a)
  {
  }

  lemma SortedInsert(s: seq<Entry>, i: nat, e: Entry)
    requires Sorted(s) && i <= |s| && e.begin <= e.end
    requires forall k :: 0 <= k < i ==> s[k].end < e.begin
    requires i < |s| ==> e.end < s[i].begin
    ensures Sorted(s[..i] + [e] + s[i..])
  {
    var t := s[..i] + [e] + s[i..];
    assert forall k :: 0 <= k < |t| ==> t[k] == if k < i then s[k] else if k == i then e else s[k - 1];
  }

  class MemRanges {
    var entries: seq<Entry>
    const align: nat   // log2 of the granularity of the list

    ghost predicate Valid()
      reads this
    {
      Merged(entries)
    }

    constructor (align: nat)
      ensures Valid() && entries == [] && this.align == align
    {
      this.align := align;
      entries := [];
    }

    method RemoveMemranges(begin0: nat, end: nat)
      requires Valid() && begin0 <= end
      modifies this`entries
      ensures Valid()
      ensures forall a: int {:trigger Covered(entries, a)} :: Covered(entries, a) <==> Covered(old(entries), a) && !(begin0 <= a <= end)
    {
      hide Covered;
      var out: seq<Entry> := [];
      var i := 0;
      assert forall a: int {:trigger Covered(out, a)} :: !Covered(out, a) && !Covered(entries[..0], a) by {
        CoveredNone(out);
        CoveredNone(entries[..0]);
      }
      while i < |entries| && entries[i].begin <= end
        invariant 0 <= i <= |entries|
        invariant Merged(out)
        invariant forall j, k :: 0 <= j < |out| && i <= k < |entries| ==> out[j].end + 1 < entries[k].begin
        invariant forall a: int {:trigger Covered(out, a)} :: Covered(out, a) <==> Covered(entries[..i], a) && !(begin0 <= a <= end)
      {
        var cut := Cut(entries[i], begin0, end);
        assert entries[..i + 1] == entries[..i] + [entries[i]];
        forall a: int
          ensures Covered(out + cut, a) <==> Covered(entries[..i + 1], a) && !(begin0 <= a <= end)
        {
          RemoveStep(out, cut, entries[..i], entries[i], begin0, end, a);
        }
        out := out + cut;
        i := i + 1;
      }
      forall a: int
        ensures Covered(out + entries[i..], a) <==> Covered(entries, a) && !(begin0 <= a <= end)
      {
        RemoveRest(out, entries, i, begin0, end, a);
      }
      entries := out + entries[i..];
    }

    method MergeNeighborEntries()
      requires Sorted(entries)
      modifies this`entries
      ensures Valid()
      ensures forall a: int {:trigger Covered(entries, a)} :: Covered(entries, a) <==> Covered(old(entries), a)
    {
      if |entries| == 0 {
        return;
      }
      var out: seq<Entry> := [];
      var prev := entries[0];
      var i := 1;
      assert entries[..1] == [entries[0]] == out + [prev];
      while i < |entries|
        invariant 1 <= i <= |entries|
        invariant prev.end == entries[i - 1].end && Merged(out + [prev])
        invariant forall a: int {:trigger Covered(out + [prev], a)} :: Covered(out + [prev], a) <==> Covered(entries[..i], a)
      {
        var cur := entries[i];
        assert entries[..i + 1] == entries[..i] + [cur];
        assert (out + [prev])[|out|] == prev;
        if prev.end + 1 >= cur.begin {
          ghost var joined := Entry(prev.begin, cur.end);
          forall a: int
            ensures Covered(out + [joined], a) <==> Covered(entries[..i + 1], a)
          {
            JoinStep(out, prev, cur, entries[..i], a);
          }
          assert forall k :: 0 <= k < |out| ==> (out + [prev])[k] == out[k];
          prev := Entry(prev.begin, cur.end);
        } else {
          forall a: int
            ensures Covered(out + [prev] + [cur], a) <==> Covered(entries[..i + 1], a)
          {
            CoveredAppend(out + [prev], [cur], a);
            CoveredAppend(entries[..i], [cur], a);
          }
          out := out + [prev];
          prev := cur;
        }
        i := i + 1;
      }
      assert entries[..i] == entries;
      entries := out + [prev];
    }

    method MergeAddMemranges(begin: nat, end: nat)
      requires Valid() && begin <= end
      modifies this`entries
      ensures Valid()
      ensures forall a: int {:trigger Covered(entries, a)} :: Covered(entries, a) <==> Covered(old(entries), a) || begin <= a <= end
    {
      hide Covered, Sorted;
      ghost var start := entries;
      RemoveMemranges(begin, end);
      ghost var before := entries;
      MergedIsSorted(before);
      GapAfterRemoval(before, begin, end);
      var i := 0;
      while i < |entries| && entries[i].begin <= end
        invariant 0 <= i <= |entries|
        invariant forall k :: 0 <= k < i ==> entries[k].end < begin
      {
        i := i + 1;
      }
      ghost var added := before[..i] + [Entry(begin, end)] + before[i..];
      assert before == before[..i] + before[i..];
      SortedInsert(before, i, Entry(begin, end));
      forall a: int
        ensures Covered(added, a) <==> Covered(start, a) || begin <= a <= end
      {
        InsertStep(before[..i], Entry(begin, end), before[i..], a);
        assert Covered(before, a) <==> Covered(start, a) && !(begin <= a <= end);
      }
      entries := entries[..i] + [Entry(begin, end)] + entries[i..];
      MergeNeighborEntries();
    }

    // The block an action covers: rounded outward to the granularity of the list.
    function ActionBegin(base: nat): nat {
      AlignDown(base, Pow2(align))
    }

    function ActionEnd(base: nat, size: nat): (end: nat)
      requires 0 < size
      ensures base + size - 1 <= end
    {
      AlignUp(base + size, Pow2(align)) - 1
    }

    method CreateHole(base: nat, size: nat)
      requires Valid()
      modifies this`entries
      ensures Valid()
      ensures size == 0 ==> entries == old(entries)
      ensures 0 < size ==> forall a: int {:trigger Covered(entries, a)} ::
                Covered(entries, a) <==> Covered(old(entries), a) && !(ActionBegin(base) <= a <= ActionEnd(base, size))
    {
      if size != 0 {
        RemoveMemranges(ActionBegin(base), ActionEnd(base, size));
      }
    }

    method Insert(base: nat, size: nat)
      requires Valid()
      modifies this`entries
      ensures Valid()
      ensures size == 0 ==> entries == old(entries)
      ensures 0 < size ==> forall a: int {:trigger Covered(entries, a)} ::
                Covered(entries, a) <==> Covered(old(entries), a) || ActionBegin(base) <= a <= ActionEnd(base, size)
    {
      if size != 0 {
        MergeAddMemranges(ActionBegin(base), ActionEnd(base, size));
      }
    }

    // The first entry with room, or the last one; the index is |entries| when there is none.
    method FindEntry(limit: int, size: nat, alignment: nat, last: bool) returns (found: nat)
      requires Valid() && 0 < size
      ensures found <= |entries|
      ensures found < |entries| ==> FitsEntry(entries[found], limit, size, alignment)
      ensures found == |entries| ==> forall k :: 0 <= k < |entries| ==> !FitsEntry(entries[k], limit, size, alignment)
      ensures !last ==> forall k :: 0 <= k < found ==> !FitsEntry(entries[k], limit, size, alignment)
      ensures last && found < |entries| ==>
                forall k :: found < k < |entries| ==> !FitsEntry(entries[k], limit, size, alignment)
    {
      hide Pow2, AlignUp;
      found := |entries|;
      var i := 0;
      while i < |entries|
        invariant 0 <= i <= |entries| && found <= |entries|
        invariant found == |entries| ==> forall k :: 0 <= k < i ==> !FitsEntry(entries[k], limit, size, alignment)
        invariant found < |entries| ==> last && found < i && FitsEntry(entries[found], limit, size, alignment)
        invariant found < |entries| ==> forall k :: found < k < i ==> !FitsEntry(entries[k], limit, size, alignment)
      {
        var base := AlignUp(entries[i].begin, Pow2(alignment));
        var end := base + size - 1;
        if end <= entries[i].end {
          if end > limit {
            forall k | i <= k < |entries|
              ensures !FitsEntry(entries[k], limit, size, alignment)
            {
              if i < k {
                LaterEntriesTooHigh(entries, i, k, limit, size, alignment);
              }
            }
            return;
          }
          found := i;
          if !last {
            return;
          }
        }
        i := i + 1;
      }
    }

    method Steal(limit: int, size: nat, alignment: nat, fromTop: bool) returns (ok: bool, base: nat)
      requires Valid()
      modifies this`entries
      ensures Valid()
      ensures !ok ==> entries == old(entries)
      ensures !ok && 0 < size ==> forall b: nat :: !RoomAt(old(entries), b, limit, size, alignment)
      ensures ok ==> 0 < size && RoomAt(old(entries), base, limit, size, alignment)
      ensures ok ==> forall a: int {:trigger Covered(entries, a)} ::
                Covered(entries, a) <==> Covered(old(entries), a) && !(ActionBegin(base) <= a <= ActionEnd(base, size))
    {
      hide Sorted, Covered, AlignUp, AlignDown, Pow2, IsMultiple;
      if size == 0 {
        return false, 0;
      }
      var found := FindEntry(limit, size, alignment, fromTop);
      if found == |entries| {
        forall b: nat | RoomAt(entries, b, limit, size, alignment)
          ensures false
        {
          var k := RoomFitsEntry(entries, b, limit, size, alignment);
        }
        return false, 0;
      }
      ok := true;
      var r := entries[found];
      var lowest := AlignUp(r.begin, Pow2(alignment));
      if fromTop {
        var limit' := if limit < r.end then limit else r.end;
        AlignDownGreatest(lowest, limit' - size + 1, Pow2(alignment));
        base := AlignDown(limit' - size + 1, Pow2(alignment));
      } else {
        base := lowest;
      }
      BlockInEntry(entries, found, base, size);
      CreateHole(base, size);
    }
  }

  // Entries are in increasing order, so the search may stop at the limit.
  lemma LaterEntriesTooHigh(entries: seq<Entry>, i: nat, k: nat, limit: int, size: nat, alignment: nat)
    requires Sorted(entries) && i < k < |entries|
    requires 0 < size
    requires AlignUp(entries[i].begin, Pow2(alignment)) + size - 1 > limit
    requires AlignUp(entries[i].begin, Pow2(alignment)) + size - 1 <= entries[i].end
    ensures !FitsEntry(entries[k], limit, size, alignment)
  {
  }
}
