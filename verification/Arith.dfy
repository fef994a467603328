/** Powers of two and alignment, as the ALIGN_UP and ALIGN_DOWN macros compute them. */
module Arith {

  function Pow2(n: nat): (p: nat)
    ensures 1 <= p
  {
    if n == 0 then 1 else 2 * Pow2(n - 1)
  }

  ghost predicate IsMultiple(x: int, m: nat) {
    exists q: int :: x == q * m
  }

  // x rounded down to a multiple of a; for a power of two, what clearing the low bits gives.
  function AlignDown(x: nat, a: nat): (r: nat)
    requires 0 < a
    ensures r <= x < r + a
    ensures IsMultiple(r, a)
    ensures IsMultiple(x, a) ==> r == x
  {
    var q := x / a;
    DivideExact(x, a);
    assert x == q * a + x % a;
    q * a
  }

  function AlignUp(x: nat, a: nat): (r: nat)
    requires 0 < a
    ensures x <= r < x + a
    ensures IsMultiple(r, a)
    ensures IsMultiple(x, a) ==> r == x
  {
    var r := AlignDown(x + a - 1, a);
    assert IsMultiple(x, a) ==> r == x by {
      if IsMultiple(x, a) {
        MultipleBetween(x, r, a);
      }
    }
    r
  }

  lemma DivideExact(x: nat, a: nat)
    requires 0 < a
    ensures IsMultiple(x, a) ==> x / a * a == x
  {
    if IsMultiple(x, a) {
      var q: int :| x == q * a;
      assert (q - x / a) * a == x % a;
      if q - x / a >= 1 {
        MulMonotone(1, q - x / a, a);
      } else if q - x / a <= -1 {
        MulMonotone(q - x / a, -1, a);
      }
    }
  }

  lemma MulMonotone(x: int, y: int, k: nat)
    requires x <= y
    ensures x * k <= y * k
  {
  }

  // Two multiples of a less than a apart are equal.
  lemma MultipleBetween(x: int, y: int, a: nat)
    requires 0 < a && IsMultiple(x, a) && IsMultiple(y, a)
    requires x - a < y < x + a
    ensures x == y
  {
    var p: int :| x == p * a;
    var q: int :| y == q * a;
    assert (p - q) * a == x - y;
    if p - q >= 1 {
      MulMonotone(1, p - q, a);
    } else if p - q <= -1 {
      MulMonotone(p - q, -1, a);
    }
  }

  // AlignDown gives the greatest multiple not above x.
  lemma AlignDownGreatest(m: nat, x: nat, a: nat)
    requires 0 < a && IsMultiple(m, a) && m <= x
    ensures m <= AlignDown(x, a)
  {
    var r := AlignDown(x, a);
    if r < m {
      MultipleBetween(m, r, a);
    }
  }

  // AlignUp gives the least multiple not below x.
  lemma AlignUpLeast(m: nat, x: nat, a: nat)
    requires 0 < a && IsMultiple(m, a) && x <= m
    ensures AlignUp(x, a) <= m
  {
    var r := AlignUp(x, a);
    if m < r {
      MultipleBetween(m, r, a);
    }
  }

  lemma MultipleSum(x: int, y: int, m: nat)
    requires IsMultiple(x, m) && IsMultiple(y, m)
    ensures IsMultiple(x + y, m)
  {
    var p: int :| x == p * m;
    var q: int :| y == q * m;
    assert x + y == (p + q) * m;
  }

  lemma MultipleTrans(x: int, m: nat, k: nat)
    requires IsMultiple(x, m) && IsMultiple(m, k)
    ensures IsMultiple(x, k)
  {
    var p: int :| x == p * m;
    var q: int :| m == q * k;
    assert x == p * q * k;
  }

  lemma ZeroIsMultiple(m: nat)
    ensures IsMultiple(0, m)
  {
    assert 0 == 0 * m;
  }

  lemma {:induction false} Pow2Divides(m: nat, n: nat)
    requires m <= n
    ensures IsMultiple(Pow2(n), Pow2(m))
  {
    if m == n {
      assert Pow2(n) == 1 * Pow2(m);
    } else {
      Pow2Divides(m, n - 1);
      var q: int :| Pow2(n - 1) == q * Pow2(m);
      assert Pow2(n) == (2 * q) * Pow2(m);
    }
  }

  // A multiple of a larger power of two is one of a smaller power.
  lemma MultiplePow2(x: int, n: nat, m: nat)
    requires m <= n && IsMultiple(x, Pow2(n))
    ensures IsMultiple(x, Pow2(m))
  {
    Pow2Divides(m, n);
    MultipleTrans(x, Pow2(n), Pow2(m));
  }
}
