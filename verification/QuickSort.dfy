/**
 The in-place quicksort of the PCI device list (payloads/coreinfo/pci_module.c). The right-hand call keeps the pivot,
 so the list may not get shorter; the sort comes to an end exactly on lists without equal keys.
 */
module QuickSort {

  datatype PciDevice = PciDevice(device: nat, id: nat)

  // ----- Partitioning as a value

  function Swapped<T>(s: seq<T>, i: nat, j: nat): (r: seq<T>)
    requires i < |s| && j < |s|
    ensures |r| == |s| && r[i] == s[j] && r[j] == s[i]
    ensures forall k :: 0 <= k < |s| && k != i && k != j ==> r[k] == s[k]
  {
    s[i := s[j]][j := s[i]]
  }

  datatype Partitioned = Partitioned(list: seq<PciDevice>, index: nat)

  // Smaller keys move to the front, up to the last element.
  function Sift(s: seq<PciDevice>, pivot: nat, i: nat, index: nat): (p: Partitioned)
    requires index <= i < |s|
    ensures |p.list| == |s| && p.index < |s|
    decreases |s| - i
  {
    if i == |s| - 1 then Partitioned(s, index)
    else if s[i].device < pivot then Sift(Swapped(s, i, index), pivot, i + 1, index + 1)
    else Sift(s, pivot, i + 1, index)
  }

  function PartitionOf(s: seq<PciDevice>): (p: Partitioned)
    requires s != []
    ensures |p.list| == |s| && p.index < |s|
  {
    var middle, last := |s| / 2, |s| - 1;
    var sifted := Sift(Swapped(s, middle, last), s[middle].device, 0, 0);
    Partitioned(Swapped(sifted.list, sifted.index, last), sifted.index)
  }

  function Keys(s: seq<PciDevice>): (q: seq<nat>)
    ensures |q| == |s| && forall i :: 0 <= i < |s| ==> q[i] == s[i].device
  {
    seq(|s|, i requires 0 <= i < |s| => s[i].device)
  }

  // The same elements, and so the same keys, in another order.
  ghost predicate Permuted(s: seq<PciDevice>, t: seq<PciDevice>) {
    |s| == |t| && multiset(s) == multiset(t) && multiset(Keys(s)) == multiset(Keys(t))
  }

  lemma SwapKeepsElements<T>(s: seq<T>, i: nat, j: nat)
    requires i < |s| && j < |s|
    ensures multiset(Swapped(s, i, j)) == multiset(s)
  {
  }

  lemma SwapPermutes(s: seq<PciDevice>, i: nat, j: nat)
    requires i < |s| && j < |s|
    ensures Permuted(s, Swapped(s, i, j))
  {
    hide Swapped;
    SwapKeepsElements(s, i, j);
    SwapKeepsElements(Keys(s), i, j);
    assert Keys(Swapped(s, i, j)) == Swapped(Keys(s), i, j);
  }

  lemma PermutedTwice(s: seq<PciDevice>, t: seq<PciDevice>, u: seq<PciDevice>)
    requires Permuted(s, t) && Permuted(t, u)
    ensures Permuted(s, u)
  {
  }

  lemma PermutedSelf(s: seq<PciDevice>)
    ensures Permuted(s, s)
  {
  }

  // Keys below the pivot in front of index, others behind it, up to i.
  ghost predicate Split(s: seq<PciDevice>, pivot: nat, i: nat, index: nat) {
    && index <= i <= |s|
    && (forall k :: 0 <= k < index ==> s[k].device < pivot)
    && (forall k :: index <= k < i ==> s[k].device >= pivot)
  }

  lemma SplitSwap(s: seq<PciDevice>, pivot: nat, i: nat, index: nat)
    requires i < |s| && Split(s, pivot, i, index) && s[i].device < pivot
    ensures Split(Swapped(s, i, index), pivot, i + 1, index + 1)
  {
    hide Swapped;
  }

  lemma SplitStay(s: seq<PciDevice>, pivot: nat, i: nat, index: nat)
    requires i < |s| && Split(s, pivot, i, index) && s[i].device >= pivot
    ensures Split(s, pivot, i + 1, index)
  {
  }

  lemma {:induction false} SiftSplits(s: seq<PciDevice>, pivot: nat, i: nat, index: nat)
    requires index <= i < |s| && Split(s, pivot, i, index)
    ensures var p := Sift(s, pivot, i, index);
              Split(p.list, pivot, |s| - 1, p.index) && p.list[|s| - 1] == s[|s| - 1] && Permuted(s, p.list)
    decreases |s| - i
  {
    hide Split, Permuted, Swapped;
    if i == |s| - 1 {
      PermutedSelf(s);
    } else if s[i].device < pivot {
      SplitSwap(s, pivot, i, index);
      SwapPermutes(s, i, index);
      SiftSplits(Swapped(s, i, index), pivot, i + 1, index + 1);
      PermutedTwice(s, Swapped(s, i, index), Sift(s, pivot, i, index).list);
    } else {
      SplitStay(s, pivot, i, index);
      SiftSplits(s, pivot, i + 1, index);
    }
  }

  // The pivot stands at the index, between smaller keys and the others.
  ghost predicate IsPartition(s: seq<PciDevice>, p: Partitioned)
    requires s != []
  {
    && |p.list| == |s| && p.index < |s| && Permuted(s, p.list)
    && p.list[p.index] == s[|s| / 2]
    && (forall k :: 0 <= k < p.index ==> p.list[k].device < p.list[p.index].device)
    && (forall k :: p.index <= k < |s| ==> p.list[k].device >= p.list[p.index].device)
  }

  lemma PivotPlaced(s: seq<PciDevice>, index: nat)
    requires s != [] && index < |s| && Split(s, s[|s| - 1].device, |s| - 1, index)
    ensures var t := Swapped(s, index, |s| - 1);
              && t[index] == s[|s| - 1]
              && (forall k :: 0 <= k < index ==> t[k].device < t[index].device)
              && (forall k :: index <= k < |s| ==> t[k].device >= t[index].device)
  {
    hide Swapped;
  }

  lemma PartitionIsRight(s: seq<PciDevice>)
    requires s != []
    ensures IsPartition(s, PartitionOf(s))
  {
    var middle, last := |s| / 2, |s| - 1;
    var t := Swapped(s, middle, last);
    var sifted := Sift(t, s[middle].device, 0, 0);
    assert Split(t, s[middle].device, 0, 0);
    hide Split, Permuted, Swapped, Sift;
    SwapPermutes(s, middle, last);
    SiftSplits(t, s[middle].device, 0, 0);
    PermutedTwice(s, t, sifted.list);
    SwapPermutes(sifted.list, sifted.index, last);
    PermutedTwice(s, sifted.list, PartitionOf(s).list);
    PivotPlaced(sifted.list, sifted.index);
  }

  // ----- When the recursion ends

  ghost predicate Distinct(s: seq<PciDevice>) {
    forall i, j :: 0 <= i < j < |s| ==> s[i].device != s[j].device
  }

  // The calls of a sort of s nest no deeper than depth.
  ghost predicate Ends(s: seq<PciDevice>, depth: nat)
    decreases depth
  {
    |s| <= 1 ||
    (depth > 0 && var p := PartitionOf(s); Ends(p.list[..p.index], depth - 1) && Ends(p.list[p.index..], depth - 1))
  }

  lemma {:induction false} EndsDeeper(s: seq<PciDevice>, depth: nat, more: nat)
    requires Ends(s, depth) && depth <= more
    ensures Ends(s, more)
    decreases depth
  {
    hide PartitionOf;
    if |s| > 1 {
      var p := PartitionOf(s);
      EndsDeeper(p.list[..p.index], depth - 1, more - 1);
      EndsDeeper(p.list[p.index..], depth - 1, more - 1);
    }
  }

  lemma {:induction false} OnceEach(q: seq<nat>)
    ensures (forall i, j :: 0 <= i < j < |q| ==> q[i] != q[j]) <==> forall k :: multiset(q)[k] <= 1
    decreases |q|
  {
    if q != [] {
      var before, last := q[..|q| - 1], q[|q| - 1];
      OnceEach(before);
      assert q == before + [last];
      assert multiset(q)[last] == multiset(before)[last] + 1;
      assert multiset(before)[last] >= 1 <==> last in before;
      assert forall k :: k != last ==> multiset(q)[k] == multiset(before)[k];
    }
  }

  // Reordering keeps keys distinct.
  lemma PermutedDistinct(s: seq<PciDevice>, t: seq<PciDevice>)
    requires Permuted(s, t)
    ensures Distinct(s) <==> Distinct(t)
  {
    OnceEach(Keys(s));
    OnceEach(Keys(t));
    assert Distinct(s) <==> forall i, j :: 0 <= i < j < |s| ==> Keys(s)[i] != Keys(s)[j];
    assert Distinct(t) <==> forall i, j :: 0 <= i < j < |t| ==> Keys(t)[i] != Keys(t)[j];
  }

  lemma EndsIs(s: seq<PciDevice>, depth: nat)
    ensures |s| <= 1 ==> Ends(s, depth)
    ensures |s| > 1 && depth == 0 ==> !Ends(s, depth)
    ensures |s| > 1 && depth > 0 ==>
              var p := PartitionOf(s);
              (Ends(s, depth) <==> Ends(p.list[..p.index], depth - 1) && Ends(p.list[p.index..], depth - 1))
  {
    hide PartitionOf;
  }

  lemma FewAreDistinct(s: seq<PciDevice>)
    requires |s| <= 1
    ensures Distinct(s)
  {
  }

  // Both of two equal keys go to the same part.
  lemma EqualKeysStayTogether(s: seq<PciDevice>)
    requires s != [] && !Distinct(s)
    ensures var p := PartitionOf(s); !Distinct(p.list[..p.index]) || !Distinct(p.list[p.index..])
  {
    PartitionIsRight(s);
    var p := PartitionOf(s);
    hide PartitionOf, Permuted;
    PermutedDistinct(s, p.list);
    PartitionPermutes(s, p);
    var i, j :| 0 <= i < j < |s| && p.list[i].device == p.list[j].device;
    if j < p.index {
      assert p.list[..p.index][i].device == p.list[..p.index][j].device;
    } else {
      assert p.index <= i;
      assert p.list[p.index..][i - p.index].device == p.list[p.index..][j - p.index].device;
    }
  }

  lemma {:induction false} EqualKeysNeverEnd(s: seq<PciDevice>, depth: nat)
    requires !Distinct(s)
    ensures !Ends(s, depth)
    decreases depth
  {
    hide *;
    if |s| <= 1 {
      FewAreDistinct(s);
    } else {
      EndsIs(s, depth);
      if depth > 0 {
        EqualKeysStayTogether(s);
        var p := PartitionOf(s);
        if !Distinct(p.list[..p.index]) {
          EqualKeysNeverEnd(p.list[..p.index], depth - 1);
        } else {
          EqualKeysNeverEnd(p.list[p.index..], depth - 1);
        }
      }
    }
  }

  // 0 when the first element is the smallest: then the middle one is not, and both parts get shorter.
  ghost function FirstIsNotLeast(s: seq<PciDevice>): nat {
    if forall k :: 0 <= k < |s| ==> s[0].device <= s[k].device then 0 else 1
  }

  /** Either the list gets shorter or its first element becomes the smallest. */
  lemma RightPartProgress(s: seq<PciDevice>)
    requires |s| > 1 && Distinct(s)
    ensures var p := PartitionOf(s);
            var right := p.list[p.index..];
              |right| < |s| || (right == p.list && FirstIsNotLeast(right) < FirstIsNotLeast(s))
    ensures Distinct(PartitionOf(s).list[..PartitionOf(s).index]) && Distinct(PartitionOf(s).list[PartitionOf(s).index..])
  {
    PartitionIsRight(s);
    var p := PartitionOf(s);
    hide PartitionOf;
    PermutedDistinct(s, p.list);
    if p.index == 0 {
      assert p.list[0..] == p.list;
      LeastIsMiddle(s, p.list);
    }
  }

  lemma LeastIsMiddle(s: seq<PciDevice>, t: seq<PciDevice>)
    requires |s| > 1 && Distinct(s) && Permuted(s, t) && t[0] == s[|s| / 2]
    requires forall k :: 0 <= k < |t| ==> t[0].device <= t[k].device
    ensures FirstIsNotLeast(s) == 1
  {
    hide Permuted;
    var m := |s| / 2;
    assert s[0].device != s[m].device;
    PermutedHas(s, t, 0);
    var k :| 0 <= k < |t| && t[k] == s[0];
    assert s[m].device < s[0].device;
  }

  lemma PermutedHas(s: seq<PciDevice>, t: seq<PciDevice>, i: nat)
    requires Permuted(s, t) && i < |s|
    ensures exists k :: 0 <= k < |t| && t[k] == s[i]
  {
    assert s[i] in multiset(t);
  }

  lemma FirstIsBinary(s: seq<PciDevice>)
    ensures FirstIsNotLeast(s) <= 1
  {
  }

  lemma {:induction false} DistinctKeysEnd(s: seq<PciDevice>)
    requires Distinct(s)
    ensures Ends(s, 2 * |s| + FirstIsNotLeast(s))
    decreases |s|, FirstIsNotLeast(s)
  {
    hide *;
    var depth := 2 * |s| + FirstIsNotLeast(s);
    EndsIs(s, depth);
    if |s| > 1 {
      RightPartProgress(s);
      var p := PartitionOf(s);
      var left, right := p.list[..p.index], p.list[p.index..];
      FirstIsBinary(left);
      FirstIsBinary(right);
      DistinctKeysEnd(left);
      EndsDeeper(left, 2 * |left| + FirstIsNotLeast(left), depth - 1);
      DistinctKeysEnd(right);
      EndsDeeper(right, 2 * |right| + FirstIsNotLeast(right), depth - 1);
    }
  }

  /** The sort comes to an end exactly on lists whose keys are distinct. */
  lemma EndsExactlyOnDistinctKeys(s: seq<PciDevice>)
    ensures Distinct(s) <==> exists depth :: Ends(s, depth)
  {
    if Distinct(s) {
      DistinctKeysEnd(s);
    } else {
      forall depth: nat
        ensures !Ends(s, depth)
      {
        EqualKeysNeverEnd(s, depth);
      }
    }
  }

  // ----- Sorting the array in place

  // Part of an array.
  ghost function Part(a: array<PciDevice>, lo: nat, len: nat): (s: seq<PciDevice>)
    requires lo + len <= a.Length
    reads a
    ensures |s| == len
  {
    a[lo..lo + len]
  }

  ghost function Before(a: array<PciDevice>, lo: nat): (s: seq<PciDevice>)
    requires lo <= a.Length
    reads a
    ensures |s| == lo
  {
    a[..lo]
  }

  ghost function Behind(a: array<PciDevice>, hi: nat): (s: seq<PciDevice>)
    requires hi <= a.Length
    reads a
    ensures |s| == a.Length - hi
  {
    a[hi..]
  }

  method Swap(a: array<PciDevice>, lo: nat, len: nat, i: nat, j: nat)
    requires lo + len <= a.Length && i < len && j < len
    modifies a
    ensures Part(a, lo, len) == Swapped(old(Part(a, lo, len)), i, j)
    ensures Before(a, lo) == old(Before(a, lo)) && Behind(a, lo + len) == old(Behind(a, lo + len))
  {
    var tmp := a[lo + i];
    a[lo + i] := a[lo + j];
    a[lo + j] := tmp;
    assert Part(a, lo, len) == Swapped(old(Part(a, lo, len)), i, j);
  }

  lemma PartAt(a: array<PciDevice>, lo: nat, len: nat, i: nat)
    requires lo + len <= a.Length && i < len
    ensures Part(a, lo, len)[i] == a[lo + i]
  {
  }

  lemma SiftStep(s: seq<PciDevice>, pivot: nat, i: nat, index: nat)
    requires index <= i < |s|
    ensures i == |s| - 1 ==> Sift(s, pivot, i, index) == Partitioned(s, index)
    ensures i < |s| - 1 && s[i].device < pivot ==>
              Sift(s, pivot, i, index) == Sift(Swapped(s, i, index), pivot, i + 1, index + 1)
    ensures i < |s| - 1 && s[i].device >= pivot ==> Sift(s, pivot, i, index) == Sift(s, pivot, i + 1, index)
  {
    hide Swapped;
  }

  lemma PartitionIs(s: seq<PciDevice>)
    requires s != []
    ensures var sifted := Sift(Swapped(s, |s| / 2, |s| - 1), s[|s| / 2].device, 0, 0);
              PartitionOf(s) == Partitioned(Swapped(sifted.list, sifted.index, |s| - 1), sifted.index)
  {
    hide Swapped, Sift;
  }

  method Partition(a: array<PciDevice>, lo: nat, len: nat) returns (index: nat)
    requires lo + len <= a.Length && len > 0
    modifies a
    ensures index < len && Partitioned(Part(a, lo, len), index) == PartitionOf(old(Part(a, lo, len)))
    ensures Before(a, lo) == old(Before(a, lo)) && Behind(a, lo + len) == old(Behind(a, lo + len))
  {
    ghost var s := Part(a, lo, len);
    PartitionIs(s);
    hide *;
    PartAt(a, lo, len, len / 2);
    var val := a[lo + len / 2].device;
    index := 0;
    Swap(a, lo, len, len / 2, len - 1);
    ghost var sifted := Sift(Part(a, lo, len), val, 0, 0);
    for i := 0 to len - 1
      invariant index <= i
      invariant Sift(Part(a, lo, len), val, i, index) == sifted
      invariant Before(a, lo) == old(Before(a, lo)) && Behind(a, lo + len) == old(Behind(a, lo + len))
    {
      PartAt(a, lo, len, i);
      SiftStep(Part(a, lo, len), val, i, index);
      if a[lo + i].device < val {
        Swap(a, lo, len, i, index);
        index := index + 1;
      }
    }
    SiftStep(Part(a, lo, len), val, len - 1, index);
    Swap(a, lo, len, index, len - 1);
  }

  ghost predicate Sorted(s: seq<PciDevice>) {
    forall i, j :: 0 <= i < j < |s| ==> s[i].device < s[j].device
  }

  lemma SortedFew(s: seq<PciDevice>)
    requires |s| <= 1
    ensures Sorted(s) && Permuted(s, s)
  {
  }

  lemma PermutedJoin(x: seq<PciDevice>, y: seq<PciDevice>, x': seq<PciDevice>, y': seq<PciDevice>)
    requires Permuted(x, x') && Permuted(y, y')
    ensures Permuted(x + y, x' + y')
  {
    assert Keys(x + y) == Keys(x) + Keys(y) && Keys(x' + y') == Keys(x') + Keys(y');
  }

  // Elements of the two parts are in order.
  lemma PartsInOrder(s: seq<PciDevice>, p: Partitioned, left: seq<PciDevice>, right: seq<PciDevice>, i: nat, j: nat)
    requires s != [] && IsPartition(s, p)
    requires Permuted(p.list[..p.index], left) && Permuted(p.list[p.index..], right) && i < |left| && j < |right|
    ensures left[i].device < right[j].device
  {
    hide Permuted;
    PermutedBack(p.list[..p.index], left, i);
    PermutedBack(p.list[p.index..], right, j);
  }

  // Sorted parts of a partition make a sorted whole.
  lemma SortedParts(s: seq<PciDevice>, left: seq<PciDevice>, right: seq<PciDevice>)
    requires s != []
    requires var p := PartitionOf(s); Permuted(p.list[..p.index], left) && Permuted(p.list[p.index..], right)
    requires Sorted(left) && Sorted(right)
    ensures Sorted(left + right) && Permuted(s, left + right)
  {
    hide *;
    PartitionIsRight(s);
    var p := PartitionOf(s);
    forall i, j | 0 <= i < |left| && 0 <= j < |right|
      ensures left[i].device < right[j].device
    {
      PartsInOrder(s, p, left, right, i, j);
    }
    SortedJoin(left, right);
    PartitionPermutes(s, p);
    assert p.list[..p.index] + p.list[p.index..] == p.list;
    PermutedJoin(p.list[..p.index], p.list[p.index..], left, right);
    PermutedTwice(s, p.list, left + right);
  }

  lemma PartitionPermutes(s: seq<PciDevice>, p: Partitioned)
    requires s != [] && IsPartition(s, p)
    ensures Permuted(s, p.list) && |p.list| == |s| && p.index < |s|
  {
    hide Permuted;
  }

  lemma SortedJoin(left: seq<PciDevice>, right: seq<PciDevice>)
    requires Sorted(left) && Sorted(right)
    requires forall i, j :: 0 <= i < |left| && 0 <= j < |right| ==> left[i].device < right[j].device
    ensures Sorted(left + right)
  {
  }

  lemma PermutedBack(s: seq<PciDevice>, t: seq<PciDevice>, i: nat)
    requires Permuted(s, t) && i < |t|
    ensures exists k :: 0 <= k < |s| && s[k] == t[i]
  {
    assert t[i] in multiset(s);
  }

  lemma PartSplits(a: array<PciDevice>, lo: nat, len: nat, k: nat)
    requires lo + len <= a.Length && k <= len
    ensures Part(a, lo, len) == Part(a, lo, k) + Part(a, lo + k, len - k)
    ensures Part(a, lo, len)[..k] == Part(a, lo, k) && Part(a, lo, len)[k..] == Part(a, lo + k, len - k)
  {
  }

  /** Sorted by key, a permutation of what was there, and nothing outside the part touched. */
  method Quicksort(a: array<PciDevice>, lo: nat, len: nat)
    requires lo + len <= a.Length && Distinct(Part(a, lo, len))
    modifies a
    ensures Sorted(Part(a, lo, len)) && Permuted(old(Part(a, lo, len)), Part(a, lo, len))
    ensures Before(a, lo) == old(Before(a, lo)) && Behind(a, lo + len) == old(Behind(a, lo + len))
    decreases len, FirstIsNotLeast(Part(a, lo, len)), 1
  {
    ghost var s := Part(a, lo, len);
    hide *;
    if len <= 1 {
      SortedFew(s);
      return;
    }
    var index := Partition(a, lo, len);
    PartsAreSmaller(s, Part(a, lo, len), index);
    SortHalves(a, lo, len, index, Part(a, lo, len), s);
    SortedWhole(a, lo, len, index, s);
  }

  // Both parts of a list can be sorted on their own, and that is progress.
  ghost predicate Smaller(s: seq<PciDevice>, list: seq<PciDevice>, index: nat)
    requires index <= |list|
  {
    && Distinct(list[..index]) && Distinct(list[index..])
    && (index > 0 || FirstIsNotLeast(list) < FirstIsNotLeast(s))
  }

  lemma PartsAreSmaller(s: seq<PciDevice>, list: seq<PciDevice>, index: nat)
    requires |s| > 1 && Distinct(s) && index < |s| && Partitioned(list, index) == PartitionOf(s)
    ensures |list| == |s| && Smaller(s, list, index)
  {
    RightPartProgress(s);
    hide PartitionOf, Distinct, FirstIsNotLeast;
    assert index == 0 ==> list[index..] == list;
  }

  // What the two recursive calls leave behind.
  ghost predicate HalvesSorted(a: array<PciDevice>, lo: nat, len: nat, index: nat, list: seq<PciDevice>)
    requires lo + len <= a.Length && index < len == |list|
    reads a
  {
    && Sorted(Part(a, lo, index)) && Permuted(list[..index], Part(a, lo, index))
    && Sorted(Part(a, lo + index, len - index)) && Permuted(list[index..], Part(a, lo + index, len - index))
  }

  lemma SortedWhole(a: array<PciDevice>, lo: nat, len: nat, index: nat, s: seq<PciDevice>)
    requires lo + len <= a.Length && index < len == |s| && index == PartitionOf(s).index
    requires HalvesSorted(a, lo, len, index, PartitionOf(s).list)
    ensures Sorted(Part(a, lo, len)) && Permuted(s, Part(a, lo, len))
  {
    hide Sorted, Permuted, PartitionOf;
    SortedParts(s, Part(a, lo, index), Part(a, lo + index, len - index));
    PartSplits(a, lo, len, index);
  }

  // The two recursive calls, one after the other.
  method SortHalves(a: array<PciDevice>, lo: nat, len: nat, index: nat, ghost list: seq<PciDevice>, ghost s: seq<PciDevice>)
    requires lo + len <= a.Length && index < len == |list| == |s| && Part(a, lo, len) == list
    requires Smaller(s, list, index)
    modifies a
    ensures HalvesSorted(a, lo, len, index, list)
    ensures Before(a, lo) == old(Before(a, lo)) && Behind(a, lo + len) == old(Behind(a, lo + len))
    decreases len, FirstIsNotLeast(s), 0
  {
    hide *;
    SmallerParts(s, list, index);
    PartSplits(a, lo, len, index);
    BehindPart(a, lo, len, index);
    Quicksort(a, lo, index);
    BehindPart(a, lo, len, index);
    InFrontOfPart(a, lo, index);
    Quicksort(a, lo + index, len - index);
    InFrontOfPart(a, lo, index);
    BothHalves(a, lo, len, index, list);
  }

  lemma SmallerParts(s: seq<PciDevice>, list: seq<PciDevice>, index: nat)
    requires index <= |list| && Smaller(s, list, index)
    ensures Distinct(list[..index]) && Distinct(list[index..])
    ensures index > 0 || (list[index..] == list && FirstIsNotLeast(list) < FirstIsNotLeast(s))
  {
    hide Distinct, FirstIsNotLeast;
  }

  lemma BothHalves(a: array<PciDevice>, lo: nat, len: nat, index: nat, list: seq<PciDevice>)
    requires lo + len <= a.Length && index < len == |list|
    requires Sorted(Part(a, lo, index)) && Permuted(list[..index], Part(a, lo, index))
    requires Sorted(Part(a, lo + index, len - index)) && Permuted(list[index..], Part(a, lo + index, len - index))
    ensures HalvesSorted(a, lo, len, index, list)
  {
  }

  // The right part and what follows it, and the left part and what precedes it.
  lemma BehindPart(a: array<PciDevice>, lo: nat, len: nat, k: nat)
    requires lo + len <= a.Length && k <= len
    ensures Part(a, lo + k, len - k) == Behind(a, lo + k)[..len - k]
    ensures Behind(a, lo + len) == Behind(a, lo + k)[len - k..]
  {
  }

  lemma InFrontOfPart(a: array<PciDevice>, lo: nat, k: nat)
    requires lo + k <= a.Length
    ensures Part(a, lo, k) == Before(a, lo + k)[lo..] && Before(a, lo) == Before(a, lo + k)[..lo]
  {
  }
}
