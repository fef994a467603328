/**
 Little-endian numbers in a byte image, and lists of additions to them: the algebra that relocation rests on.
 */
module FspBytes {
  import opened Buffers

  const MOD32: nat := 0x1_0000_0000
  const MOD64: nat := 0x1_0000_0000_0000_0000

  function Le(s: seq<byte>, o: nat, width: nat): nat
    requires o + width <= |s|
    decreases width
  {
    if width == 0 then 0 else s[o] + 0x100 * Le(s, o + 1, width - 1)
  }

  function LeBytes(v: nat, width: nat): (b: seq<byte>)
    ensures |b| == width
    decreases width
  {
    if width == 0 then [] else [v % 0x100] + LeBytes(v / 0x100, width - 1)
  }

  function Pow256(n: nat): (p: nat)
    ensures p > 0
  {
    if n == 0 then 1 else 0x100 * Pow256(n - 1)
  }

  // Fields that are relocated have four or eight bytes.
  function Modulus(width: nat): (m: nat)
    ensures m > 0
  {
    if width == 4 then MOD32 else MOD64
  }

  lemma ModulusIs(width: nat)
    requires width in {4, 8}
    ensures Pow256(width) == Modulus(width)
  {
    assert Pow256(2) == 0x1_0000;
    assert Pow256(4) == MOD32;
    assert Pow256(6) == 0x1_0000_0000_0000;
  }

  lemma {:induction false} LeOfSlice(s: seq<byte>, t: seq<byte>, o: nat, p: nat, width: nat)
    requires o + width <= |s| && p + width <= |t| && s[o..o + width] == t[p..p + width]
    ensures Le(s, o, width) == Le(t, p, width)
    decreases width
  {
    if width > 0 {
      assert s[o] == s[o..o + width][0] && t[p] == t[p..p + width][0];
      assert s[o + 1..o + width] == s[o..o + width][1..] && t[p + 1..p + width] == t[p..p + width][1..];
      LeOfSlice(s, t, o + 1, p + 1, width - 1);
    }
  }

  lemma {:induction false} LeReads(v: nat, width: nat)
    requires v < Pow256(width)
    ensures Le(LeBytes(v, width), 0, width) == v
    decreases width
  {
    if width > 0 {
      LeReads(v / 0x100, width - 1);
      var b := LeBytes(v, width);
      assert b[1..1 + (width - 1)] == LeBytes(v / 0x100, width - 1)[0..width - 1];
      LeOfSlice(b, LeBytes(v / 0x100, width - 1), 1, 0, width - 1);
    }
  }

  lemma {:induction false} LeBound(s: seq<byte>, o: nat, width: nat)
    requires o + width <= |s|
    ensures Le(s, o, width) < Pow256(width)
    decreases width
  {
    if width > 0 {
      LeBound(s, o + 1, width - 1);
    }
  }

  // The number determines the bytes.
  lemma {:induction false} LeDetermines(s: seq<byte>, o: nat, t: seq<byte>, p: nat, width: nat)
    requires o + width <= |s| && p + width <= |t| && Le(s, o, width) == Le(t, p, width)
    ensures s[o..o + width] == t[p..p + width]
    decreases width
  {
    if width > 0 {
      assert s[o] == Le(s, o, width) % 0x100 == Le(t, p, width) % 0x100 == t[p];
      LeDetermines(s, o + 1, t, p + 1, width - 1);
      assert s[o..o + width] == [s[o]] + s[o + 1..o + width];
      assert t[p..p + width] == [t[p]] + t[p + 1..p + width];
    }
  }

  // ----- Edits

  // delta is added to the number at offset, modulo its size.
  datatype Edit = Edit(offset: nat, width: nat, delta: nat)

  ghost predicate Inside(e: Edit, size: nat) {
    e.width in {4, 8} && e.offset + e.width <= size
  }

  function Sum(v: nat, delta: nat, width: nat): nat {
    (v + delta) % Modulus(width)
  }

  ghost function Apply(s: seq<byte>, e: Edit): (r: seq<byte>)
    requires Inside(e, |s|)
    ensures |r| == |s|
  {
    Put(s, e.offset, LeBytes(Sum(Le(s, e.offset, e.width), e.delta, e.width), e.width))
  }

  ghost predicate AllInside(es: seq<Edit>, size: nat) {
    forall e :: e in es ==> Inside(e, size)
  }

  ghost function ApplyAll(s: seq<byte>, es: seq<Edit>): (r: seq<byte>)
    requires AllInside(es, |s|)
    ensures |r| == |s|
    decreases |es|
  {
    if es == [] then s else Apply(ApplyAll(s, es[..|es| - 1]), es[|es| - 1])
  }

  ghost predicate Beside(e: Edit, lo: nat, hi: nat) {
    e.offset + e.width <= lo || hi <= e.offset
  }

  ghost predicate AllApart(es: seq<Edit>) {
    forall i, j :: 0 <= i < j < |es| ==> Beside(es[i], es[j].offset, es[j].offset + es[j].width)
  }

  lemma ApplyReads(s: seq<byte>, e: Edit)
    requires Inside(e, |s|)
    ensures Le(Apply(s, e), e.offset, e.width) == Sum(Le(s, e.offset, e.width), e.delta, e.width)
  {
    hide *;
    ApplyIs(s, e);
    var o, w := e.offset, e.width;
    var v := Sum(Le(s, o, w), e.delta, w);
    SumBound(Le(s, o, w), e.delta, w);
    LeReads(v, w);
    PutThere(s, o, LeBytes(v, w));
    assert LeBytes(v, w)[0..w] == LeBytes(v, w);
    LeOfSlice(Apply(s, e), LeBytes(v, w), o, 0, w);
  }

  lemma ApplyIs(s: seq<byte>, e: Edit)
    requires Inside(e, |s|)
    ensures e.width in {4, 8} && e.offset + e.width <= |s|
    ensures Apply(s, e) == Put(s, e.offset, LeBytes(Sum(Le(s, e.offset, e.width), e.delta, e.width), e.width))
  {
    hide Put, LeBytes, Sum, Le;
  }

  lemma SumBound(v: nat, delta: nat, width: nat)
    requires width in {4, 8}
    ensures Sum(v, delta, width) < Pow256(width)
  {
    ModulusIs(width);
    hide Pow256;
  }

  lemma ApplyElsewhere(s: seq<byte>, e: Edit, lo: nat, hi: nat)
    requires Inside(e, |s|) && lo <= hi <= |s| && Beside(e, lo, hi)
    ensures Apply(s, e)[lo..hi] == s[lo..hi]
  {
    var b := LeBytes(Sum(Le(s, e.offset, e.width), e.delta, e.width), e.width);
    hide Put, LeBytes, Sum;
    PutElsewhere(s, e.offset, b, lo, hi);
  }

  /** Bytes beside all edits stay. */
  lemma {:induction false} ElsewhereStays(s: seq<byte>, es: seq<Edit>, lo: nat, hi: nat)
    requires AllInside(es, |s|) && lo <= hi <= |s| && forall e :: e in es ==> Beside(e, lo, hi)
    ensures ApplyAll(s, es)[lo..hi] == s[lo..hi]
    decreases |es|
  {
    hide Apply, Beside, Inside;
    if es != [] {
      ElsewhereStays(s, es[..|es| - 1], lo, hi);
      ApplyElsewhere(ApplyAll(s, es[..|es| - 1]), es[|es| - 1], lo, hi);
    }
  }

  /** Every edit takes effect once. */
  lemma {:induction false} EditReads(s: seq<byte>, es: seq<Edit>, i: nat)
    requires AllInside(es, |s|) && AllApart(es) && i < |es|
    ensures es[i].offset + es[i].width <= |s|
    ensures Le(ApplyAll(s, es), es[i].offset, es[i].width) ==
            Sum(Le(s, es[i].offset, es[i].width), es[i].delta, es[i].width)
    decreases |es|
  {
    hide Apply, Sum, Le;
    assert Inside(es[i], |s|);
    var before, last := es[..|es| - 1], es[|es| - 1];
    var t := ApplyAll(s, before);
    if i < |es| - 1 {
      EditReads(s, before, i);
      assert Beside(es[i], last.offset, last.offset + last.width);
      ApplyElsewhere(t, last, es[i].offset, es[i].offset + es[i].width);
      LeOfSlice(ApplyAll(s, es), t, es[i].offset, es[i].offset, es[i].width);
    } else {
      ApplyReads(t, last);
      assert forall e :: e in before ==> Beside(e, last.offset, last.offset + last.width);
      ElsewhereStays(s, before, last.offset, last.offset + last.width);
      LeOfSlice(t, s, last.offset, last.offset, last.width);
    }
  }

  lemma {:induction false} ApplyAppend(s: seq<byte>, es: seq<Edit>, fs: seq<Edit>)
    requires AllInside(es, |s|) && AllInside(fs, |s|)
    ensures AllInside(es + fs, |s|) && ApplyAll(s, es + fs) == ApplyAll(ApplyAll(s, es), fs)
    decreases |fs|
  {
    hide Apply, Inside;
    if fs == [] {
      assert es + fs == es;
    } else {
      assert (es + fs)[..|es + fs| - 1] == es + fs[..|fs| - 1];
      ApplyAppend(s, es, fs[..|fs| - 1]);
    }
  }

  // The same places, whatever is added.
  ghost predicate SamePlaces(es: seq<Edit>, fs: seq<Edit>) {
    |es| == |fs| && forall i :: 0 <= i < |es| ==> es[i].offset == fs[i].offset && es[i].width == fs[i].width
  }

  // Adding twice is adding the third.
  ghost predicate Compose(e: Edit, f: Edit, g: Edit) {
    (e.delta + f.delta) % Modulus(g.width) == g.delta % Modulus(g.width)
  }

  lemma Shift32(x: int, k: int)
    ensures (x + MOD32 * k) % MOD32 == x % MOD32
  {
  }

  lemma Shift64(x: int, k: int)
    ensures (x + MOD64 * k) % MOD64 == x % MOD64
  {
  }

  lemma Twice32(v: nat, d: nat, e: nat, g: nat)
    requires (d + e) % MOD32 == g % MOD32
    ensures ((v + d) % MOD32 + e) % MOD32 == (v + g) % MOD32
  {
    Shift32(v + g, (d + e) / MOD32 - g / MOD32 - (v + d) / MOD32);
  }

  lemma Twice64(v: nat, d: nat, e: nat, g: nat)
    requires (d + e) % MOD64 == g % MOD64
    ensures ((v + d) % MOD64 + e) % MOD64 == (v + g) % MOD64
  {
    Shift64(v + g, (d + e) / MOD64 - g / MOD64 - (v + d) / MOD64);
  }

  lemma SumTwice(v: nat, e: Edit, f: Edit, g: Edit)
    requires Compose(e, f, g)
    ensures Sum(Sum(v, e.delta, g.width), f.delta, g.width) == Sum(v, g.delta, g.width)
  {
    if g.width == 4 {
      Twice32(v, e.delta, f.delta, g.delta);
    } else {
      Twice64(v, e.delta, f.delta, g.delta);
    }
  }

  lemma SamePlacesInside(es: seq<Edit>, fs: seq<Edit>, size: nat)
    requires SamePlaces(es, fs) && AllInside(es, size)
    ensures AllInside(fs, size) && (AllApart(es) ==> AllApart(fs))
  {
    forall f | f in fs
      ensures Inside(f, size)
    {
      var i :| 0 <= i < |fs| && fs[i] == f;
      assert Inside(es[i], size);
    }
    if AllApart(es) {
      forall i, j | 0 <= i < j < |fs|
        ensures Beside(fs[i], fs[j].offset, fs[j].offset + fs[j].width)
      {
        assert Beside(es[i], es[j].offset, es[j].offset + es[j].width);
      }
    }
  }

  /** Two lists of edits at the same places, one after the other, are one list. */
  lemma EditsCompose(s: seq<byte>, es: seq<Edit>, fs: seq<Edit>, gs: seq<Edit>)
    requires AllInside(es, |s|) && AllApart(es) && SamePlaces(es, fs) && SamePlaces(es, gs)
    requires forall i :: 0 <= i < |es| ==> Compose(es[i], fs[i], gs[i])
    ensures AllInside(fs, |s|) && AllInside(gs, |s|)
    ensures ApplyAll(ApplyAll(s, es), fs) == ApplyAll(s, gs)
  {
    SamePlacesInside(es, fs, |s|);
    SamePlacesInside(es, gs, |s|);
    assert Composable(s, es, fs, gs);
    hide Composable, SamePlaces, AllInside, AllApart, ApplyAll;
    var x, y := ApplyAll(ApplyAll(s, es), fs), ApplyAll(s, gs);
    forall k: nat | k < |s|
      ensures x[k] == y[k]
    {
      ByteComposes(s, es, fs, gs, k);
    }
  }

  // The three lists at one place.
  ghost predicate Composable(s: seq<byte>, es: seq<Edit>, fs: seq<Edit>, gs: seq<Edit>) {
    && SamePlaces(es, fs) && SamePlaces(es, gs)
    && AllInside(es, |s|) && AllInside(fs, |s|) && AllInside(gs, |s|)
    && AllApart(es) && AllApart(fs) && AllApart(gs)
    && forall i :: 0 <= i < |es| ==> Compose(es[i], fs[i], gs[i])
  }

  lemma ComposableAt(s: seq<byte>, es: seq<Edit>, fs: seq<Edit>, gs: seq<Edit>, i: nat, o: nat, w: nat)
    requires Composable(s, es, fs, gs) && i < |es| && o == es[i].offset && w == es[i].width
    ensures |fs| == |gs| == |es| && Compose(es[i], fs[i], gs[i]) && o + w <= |s| && w in {4, 8}
    ensures fs[i].offset == gs[i].offset == o && fs[i].width == gs[i].width == w
  {
    hide Compose, AllApart;
    assert Inside(es[i], |s|);
  }

  lemma ComposableParts(s: seq<byte>, es: seq<Edit>, fs: seq<Edit>, gs: seq<Edit>)
    requires Composable(s, es, fs, gs)
    ensures AllInside(es, |s|) && AllInside(fs, |s|) && AllInside(gs, |s|)
    ensures AllApart(es) && AllApart(fs) && AllApart(gs) && SamePlaces(es, fs) && SamePlaces(es, gs)
  {
    hide Compose, AllApart, AllInside, SamePlaces;
  }

  lemma FieldComposes(s: seq<byte>, es: seq<Edit>, fs: seq<Edit>, gs: seq<Edit>, i: nat, o: nat, w: nat)
    requires Composable(s, es, fs, gs) && i < |es| && o == es[i].offset && w == es[i].width
    ensures AllInside(es, |s|) && AllInside(fs, |s|) && AllInside(gs, |s|) && o + w <= |s|
    ensures ApplyAll(ApplyAll(s, es), fs)[o..o + w] == ApplyAll(s, gs)[o..o + w]
  {
    hide *;
    ComposableParts(s, es, fs, gs);
    ComposableAt(s, es, fs, gs, i, o, w);
    var t := ApplyAll(s, es);
    EditReads(s, es, i);
    EditReads(t, fs, i);
    EditReads(s, gs, i);
    SumTwice(Le(s, o, w), es[i], fs[i], gs[i]);
    LeDetermines(ApplyAll(t, fs), o, ApplyAll(s, gs), o, w);
  }

  lemma SameByte(x: seq<byte>, y: seq<byte>, lo: nat, hi: nat, k: nat)
    requires |x| == |y| && lo <= k < hi <= |x| && x[lo..hi] == y[lo..hi]
    ensures x[k] == y[k]
  {
    assert x[k] == x[lo..hi][k - lo] && y[k] == y[lo..hi][k - lo];
  }

  ghost predicate Touched(es: seq<Edit>, i: int, k: nat) {
    0 <= i < |es| && es[i].offset <= k < es[i].offset + es[i].width
  }

  lemma OtherByteStays(s: seq<byte>, es: seq<Edit>, fs: seq<Edit>, k: nat)
    requires SamePlaces(es, fs) && AllInside(fs, |s|) && k < |s| && forall i :: !Touched(es, i, k)
    ensures ApplyAll(s, fs)[k] == s[k]
  {
    forall f | f in fs
      ensures Beside(f, k, k + 1)
    {
      var i :| 0 <= i < |fs| && fs[i] == f;
      assert !Touched(es, i, k);
    }
    hide SamePlaces, Inside;
    ElsewhereStays(s, fs, k, k + 1);
    SameByte(ApplyAll(s, fs), s, k, k + 1, k);
  }

  lemma ByteComposes(s: seq<byte>, es: seq<Edit>, fs: seq<Edit>, gs: seq<Edit>, k: nat)
    requires Composable(s, es, fs, gs) && k < |s|
    ensures AllInside(es, |s|) && AllInside(fs, |s|) && AllInside(gs, |s|)
    ensures ApplyAll(ApplyAll(s, es), fs)[k] == ApplyAll(s, gs)[k]
  {
    hide Composable, SamePlaces, AllInside, AllApart, ApplyAll;
    ComposableParts(s, es, fs, gs);
    var t := ApplyAll(s, es);
    if exists i :: Touched(es, i, k) {
      var i :| Touched(es, i, k);
      var o, w := es[i].offset, es[i].width;
      FieldComposes(s, es, fs, gs, i, o, w);
      SameByte(ApplyAll(t, fs), ApplyAll(s, gs), o, o + w, k);
    } else {
      SelfPlaces(es);
      OtherByteStays(s, es, es, k);
      OtherByteStays(t, es, fs, k);
      OtherByteStays(s, es, gs, k);
    }
  }

  lemma SelfPlaces(es: seq<Edit>)
    ensures SamePlaces(es, es)
  {
  }
}
