/**
 Byte buffers that are written in place.
 */
module Buffers {

  type byte = b: int | 0 <= b < 256

  // The bytes of an ASCII text.
  function Ascii(text: string): (s: seq<byte>)
    ensures |s| == |text| && forall i :: 0 <= i < |s| ==> s[i] == text[i] as int % 0x100
  {
    seq(|text|, i requires 0 <= i < |text| => text[i] as int % 0x100)
  }

  // What a buffer holds.
  ghost function Bytes(a: array<byte>): (s: seq<byte>)
    ensures |s| == a.Length
    reads a
  {
    a[..]
  }

  ghost function Put(s: seq<byte>, o: nat, bytes: seq<byte>): (r: seq<byte>)
    requires o + |bytes| <= |s|
    ensures |r| == |s|
  {
    s[..o] + bytes + s[o + |bytes|..]
  }

  // Only bytes a to b and c to d may differ.
  ghost predicate Outside(was: seq<byte>, now: seq<byte>, a: nat, b: nat, c: nat, d: nat) {
    |was| == |now| && forall i :: 0 <= i < |was| && !(a <= i < b) && !(c <= i < d) ==> now[i] == was[i]
  }

  lemma PutThere(s: seq<byte>, o: nat, bytes: seq<byte>)
    requires o + |bytes| <= |s|
    ensures Put(s, o, bytes)[o..o + |bytes|] == bytes
  {
  }

  lemma PutElsewhere(s: seq<byte>, o: nat, bytes: seq<byte>, lo: nat, hi: nat)
    requires o + |bytes| <= |s| && lo <= hi <= |s|
    requires hi <= o || o + |bytes| <= lo
    ensures Put(s, o, bytes)[lo..hi] == s[lo..hi]
  {
  }

  lemma PutInside(s: seq<byte>, o: nat, bytes: seq<byte>, a: nat, b: nat, c: nat, d: nat)
    requires o + |bytes| <= |s|
    requires (a <= o && o + |bytes| <= b) || (c <= o && o + |bytes| <= d)
    ensures Outside(s, Put(s, o, bytes), a, b, c, d)
  {
  }

  lemma OutsideTwice(x: seq<byte>, y: seq<byte>, z: seq<byte>, a: nat, b: nat, c: nat, d: nat)
    requires Outside(x, y, a, b, c, d) && Outside(y, z, a, b, c, d)
    ensures Outside(x, z, a, b, c, d)
  {
  }

  lemma OutsideKeeps(x: seq<byte>, y: seq<byte>, a: nat, b: nat, c: nat, d: nat, lo: nat, hi: nat)
    requires Outside(x, y, a, b, c, d) && lo <= hi <= |x|
    requires hi <= a || (b <= lo && hi <= c) || d <= lo
    requires a <= b <= c <= d
    ensures y[lo..hi] == x[lo..hi]
  {
  }

  lemma Join(s: seq<byte>, lo: nat, mid: nat, hi: nat)
    requires lo <= mid <= hi <= |s|
    ensures s[lo..hi] == s[lo..mid] + s[mid..hi]
  {
  }

  lemma OutsideGrows(was: seq<byte>, mid: seq<byte>, now: seq<byte>, a: nat, d: nat, d': nat, c: nat, e: nat, e': nat)
    requires Outside(was, mid, a, d, c, e) && Outside(mid, now, d, d', e, e')
    requires a <= d <= d' <= c <= e <= e'
    ensures Outside(was, now, a, d', c, e')
  {
  }

  // Two regions, a to d and c0 to e, each extended at its end.
  lemma Grow(was: seq<byte>, mid: seq<byte>, now: seq<byte>,
             a: nat, m: nat, d: nat, d': nat, c0: nat, c: nat, e: nat, e': nat)
    requires Outside(was, mid, a, d, c0, e) && Outside(mid, now, d, d', e, e')
    requires a <= m <= d <= d' <= c0 <= c <= e <= e' <= |was|
    ensures Outside(was, now, a, d', c0, e')
    ensures now[a..m] == mid[a..m] && now[c0..c] == mid[c0..c]
    ensures now[m..d'] == mid[m..d] + now[d..d'] && now[c..e'] == mid[c..e] + now[e..e']
  {
    OutsideGrows(was, mid, now, a, d, d', c0, e, e');
    OutsideKeeps(mid, now, d, d', e, e', a, m);
    OutsideKeeps(mid, now, d, d', e, e', m, d);
    OutsideKeeps(mid, now, d, d', e, e', c0, c);
    OutsideKeeps(mid, now, d, d', e, e', c, e);
    hide Outside;
    Join(now, m, d, d');
    Join(now, c, e, e');
  }

  lemma Cut<T>(x: seq<T>, y: seq<T>)
    ensures (x + y)[..|x|] == x && (x + y)[|x|..] == y
  {
  }

  lemma SliceOfSlice(s: seq<byte>, a: nat, b: nat, lo: nat, hi: nat)
    requires a <= b <= |s| && lo <= hi <= b - a
    ensures s[a..b][lo..hi] == s[a + lo..a + hi]
  {
    forall k | 0 <= k < hi - lo
      ensures s[a..b][lo..hi][k] == s[a + lo..a + hi][k]
    {
      assert s[a..b][lo + k] == s[a + (lo + k)];
    }
  }

  method MemCpy(dest: array<byte>, o: nat, data: seq<byte>)
    requires o + |data| <= dest.Length
    modifies dest
    ensures Bytes(dest) == Put(old(Bytes(dest)), o, data)
  {
    ghost var was := Bytes(dest);
    for i := 0 to |data|
      invariant forall k :: 0 <= k < dest.Length && !(o <= k < o + i) ==> dest[k] == was[k]
      invariant forall k :: 0 <= k < i ==> dest[o + k] == data[k]
    {
      dest[o + i] := data[i];
    }
    assert Bytes(dest) == Put(was, o, data);
  }
}
