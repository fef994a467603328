/**
 Best rational approximation within a bound on the numerator and a bound on the
 denominator, by continued fractions.

 The loop works on unsigned long. Every intermediate value fits that type
 (IntermediatesFit), except 2 * t, whose wrap-around is modelled: it makes the
 result miss the best fraction exactly on the inputs described by DoublingWraps.
 */
module Rational {

  const ULONG32_MAX: nat := 0xFFFF_FFFF
  const ULONG64_MAX: nat := 0xFFFF_FFFF_FFFF_FFFF

  // The largest unsigned long, for the two widths the C ABIs in use give it.
  ghost predicate IsUlongMax(m: nat) {
    m == ULONG32_MAX || m == ULONG64_MAX
  }

  lemma UlongMaxIs(m: nat)
    ensures IsUlongMax(m) <==> m + 1 == 0x1_0000_0000 || m + 1 == 0x1_0000_0000_0000_0000
  {
  }

  function Abs(x: int): nat {
    if x < 0 then -x else x
  }

  function Min(x: nat, y: nat): nat {
    if x < y then x else y
  }

  // ----- What the result is compared with

  predicate InBounds(x: nat, y: nat, maxNumerator: nat, maxDenominator: nat) {
    x <= maxNumerator && 1 <= y <= maxDenominator
  }

  // |r/s - numerator/denominator| <= |x/y - numerator/denominator|, cross-multiplied.
  predicate AtLeastAsClose(numerator: nat, denominator: nat, r: nat, s: nat, x: nat, y: nat) {
    Abs(r * denominator - numerator * s) * y <= Abs(x * denominator - numerator * y) * s
  }

  // No fraction within the bounds is strictly closer than r/s.
  ghost predicate IsBest(numerator: nat, denominator: nat, maxNumerator: nat, maxDenominator: nat, r: nat, s: nat) {
    forall x: nat, y: nat | InBounds(x, y, maxNumerator, maxDenominator) ::
      AtLeastAsClose(numerator, denominator, r, s, x, y)
  }

  ghost predicate LowestTerms(r: nat, s: nat) {
    forall k: nat, i: nat, j: nat :: k * i == r && k * j == s ==> k == 1
  }

  // The input fraction, with both parts already coprime on these inputs, exceeds a bound.
  predicate Exceeds(numerator: nat, denominator: nat, maxNumerator: nat, maxDenominator: nat) {
    numerator > maxNumerator || denominator > maxDenominator
  }

  // The inputs on which 2 * t wraps: a fraction that is 1/d, (d+1)/d or n/(n+1), too
  // large for a bound, while the bounds themselves reach half of the type's range.
  predicate DoublingWraps(numerator: nat, denominator: nat, maxNumerator: nat, maxDenominator: nat, ulongMax: nat) {
    var half := ulongMax / 2 + 1;
    1 <= maxNumerator &&
    (|| (numerator == 1 && half <= maxDenominator < denominator)
    || (numerator == denominator + 1 && Exceeds(numerator, denominator, maxNumerator, maxDenominator)
        && half <= maxDenominator && half + 1 <= maxNumerator)
    || (denominator == numerator + 1 && Exceeds(numerator, denominator, maxNumerator, maxDenominator)
        && half <= maxNumerator && half + 1 <= maxDenominator))
  }

  // With a numerator bound of 0 only 0/y is within bounds, yet a fraction between 0 and 1
  // can still be answered by 1/maxDenominator.
  predicate ZeroBoundMissed(numerator: nat, denominator: nat, maxNumerator: nat, maxDenominator: nat, ulongMax: nat) {
    maxNumerator == 0 && 0 < numerator < denominator &&
    (2 * maxDenominator) % (ulongMax + 1) > denominator / numerator
  }

  // ----- The state of the continued-fraction loop

  // n0/d0 and n1/d1 are consecutive convergents, and n, d the Euclidean remainders.
  ghost predicate Euclid(numerator: nat, denominator: nat, n: nat, d: nat, n0: nat, d0: nat, n1: nat, d1: nat) {
    && numerator == n1 * n + n0 * d
    && denominator == d1 * n + d0 * d
    && (n1 * d0 - n0 * d1 == 1 || n1 * d0 - n0 * d1 == -1)
  }

  // The first rounds in closed form; from the third on the denominators grow strictly.
  ghost predicate Stage(k: nat, numerator: nat, denominator: nat, n: nat, d: nat, n0: nat, d0: nat, n1: nat, d1: nat) {
    if k == 0 then
      n0 == 0 && d0 == 1 && n1 == 1 && d1 == 0 && n == numerator && d == denominator
    else
      && 0 < denominator && d < n
      && var r := numerator % denominator;
      if k == 1 then
        n0 == 1 && d0 == 0 && n1 == numerator / denominator && d1 == 1 && n == denominator && d == r
      else
        && 0 < r
        && if k == 2 then
             && n0 == numerator / denominator && d0 == 1
             && n1 == 1 + denominator / r * n0 && d1 == denominator / r
             && n == r && d == denominator % r
           else
             && 1 <= d0 < d1
             && 0 < denominator % r
             && (k == 3 ==> n == denominator % r && d == r % n)
             && (k > 3 ==> 0 < r % (denominator % r))
  }

  lemma StageStep(k: nat, numerator: nat, denominator: nat, n: nat, d: nat, n0: nat, d0: nat, n1: nat, d1: nat,
                  a: nat, r: nat, n2: nat, d2: nat)
    requires Stage(k, numerator, denominator, n, d, n0, d0, n1, d1)
    requires 0 < d && a == n / d && r == n % d && n2 == n0 + a * n1 && d2 == d0 + a * d1
    ensures Stage(k + 1, numerator, denominator, d, r, n1, d1, n2, d2)
  {
    if k == 0 {
      assert d2 == 1 && n2 == a;
    } else if k == 1 {
      assert d2 == a && n2 == 1 + a * n1;
    } else {
      Quotient(n, d);
      if k == 2 {
        Quotient(denominator, n);
      }
      DenominatorGrows(d0, d1, a);
    }
  }

  lemma DenominatorGrows(d0: nat, d1: nat, a: nat)
    requires 1 <= d0 && 1 <= a
    ensures d1 < d0 + a * d1
  {
    MulMonotone(1, a, d1);
  }

  lemma Quotient(n: nat, d: nat)
    requires 0 < d <= n
    ensures 1 <= n / d && n / d * d <= n
  {
    assert n == n / d * d + n % d;
  }

  lemma EuclidStep(numerator: nat, denominator: nat, n: nat, d: nat, n0: nat, d0: nat, n1: nat, d1: nat, a: nat)
    requires Euclid(numerator, denominator, n, d, n0, d0, n1, d1)
    requires 0 < d && a == n / d
    ensures Euclid(numerator, denominator, d, n % d, n1, d1, n0 + a * n1, d0 + a * d1)
  {
    var r := n % d;
    assert n == a * d + r;
    calc {
      (n0 + a * n1) * d + n1 * r;
      n0 * d + a * n1 * d + n1 * r;
      { assert a * n1 * d == n1 * (a * d); }
      n0 * d + n1 * (a * d) + n1 * r;
      n0 * d + n1 * (a * d + r);
    }
    calc {
      (d0 + a * d1) * d + d1 * r;
      d0 * d + a * d1 * d + d1 * r;
      { assert a * d1 * d == d1 * (a * d); }
      d0 * d + d1 * (a * d) + d1 * r;
      d0 * d + d1 * (a * d + r);
    }
    calc {
      (n0 + a * n1) * d1 - n1 * (d0 + a * d1);
      n0 * d1 + a * n1 * d1 - n1 * d0 - n1 * (a * d1);
      { assert a * n1 * d1 == n1 * (a * d1); }
      n0 * d1 - n1 * d0;
    }
  }

  // No intermediate product of a round exceeds the inputs, so none wraps.
  lemma IntermediatesFit(numerator: nat, denominator: nat, n: nat, d: nat, n0: nat, d0: nat, n1: nat, d1: nat)
    requires Euclid(numerator, denominator, n, d, n0, d0, n1, d1)
    requires 0 < d
    ensures n0 + n / d * n1 <= numerator && d0 + n / d * d1 <= denominator
    ensures d0 * d <= denominator
    ensures d1 * (n % d) <= denominator
  {
    EuclidStep(numerator, denominator, n, d, n0, d0, n1, d1, n / d);
    var n2, d2, r := n0 + n / d * n1, d0 + n / d * d1, n % d;
    assert numerator == n2 * d + n1 * r && denominator == d2 * d + d1 * r;
    MulLarger(n2, d);
    MulLarger(d2, d);
    assert 0 <= n1 * r && 0 <= d1 * r && 0 <= d1 * n && 0 <= d2 * d;
  }

  lemma MulLarger(x: nat, y: nat)
    requires 0 < y
    ensures x <= x * y
  {
    assert x * y == x + x * (y - 1);
  }

  lemma MulMonotone(x: int, y: int, k: nat)
    requires x <= y
    ensures x * k <= y * k
  {
  }

  lemma MulCancel(x: int, y: int, k: nat)
    requires 0 < k && x * k <= y * k
    ensures x <= y
  {
    if y < x {
      MulMonotone(y + 1, x, k);
    }
  }

  lemma DivisorsOfUnimodular(n0: nat, d0: nat, n1: nat, d1: nat)
    requires n1 * d0 - n0 * d1 == 1 || n1 * d0 - n0 * d1 == -1
    ensures LowestTerms(n1, d1)
  {
    forall k: nat, i: nat, j: nat | k * i == n1 && k * j == d1
      ensures k == 1
    {
      calc {
        n1 * d0 - n0 * d1;
        k * i * d0 - n0 * (k * j);
        { assert k * i * d0 == k * (i * d0) && n0 * (k * j) == k * (n0 * j); }
        k * (i * d0) - k * (n0 * j);
        k * (i * d0 - n0 * j);
      }
      UnitFactor(k, i * d0 - n0 * j);
    }
  }

  lemma UnitFactor(k: nat, m: int)
    requires k * m == 1 || k * m == -1
    ensures k == 1
  {
    if m > 0 {
      MulLarger(k, m);
    } else if m < 0 {
      MulLarger(k, -m);
    }
  }

  // ----- Nothing within the bounds lies between two neighbours

  // The target is a positive combination of the neighbours p/q and u/v; a and b are
  // their distances from it, up to the same factor.
  ghost predicate Straddles(numerator: nat, denominator: nat, p: nat, q: nat, u: nat, v: nat, a: int, b: int) {
    && numerator == p * a + u * b
    && denominator == q * a + v * b
    && 0 < a && 0 < b
    && (p * v - u * q == 1 || p * v - u * q == -1)
  }

  lemma BasisIdentity(p: int, q: int, u: int, v: int, x: int, y: int)
    ensures (x * v - y * u) * p + (p * y - q * x) * u == x * (p * v - u * q)
    ensures (x * v - y * u) * q + (p * y - q * x) * v == y * (p * v - u * q)
    ensures (y * u - x * v) * p + (q * x - p * y) * u == x * (u * q - p * v)
    ensures (y * u - x * v) * q + (q * x - p * y) * v == y * (u * q - p * v)
  {
  }

  // Coordinates of x/y in the basis of the neighbours.
  lemma Coordinates(p: nat, q: nat, u: nat, v: nat, x: nat, y: nat) returns (alpha: int, beta: int)
    requires p * v - u * q == 1 || p * v - u * q == -1
    ensures x == alpha * p + beta * u && y == alpha * q + beta * v
  {
    BasisIdentity(p, q, u, v, x, y);
    if p * v - u * q == 1 {
      alpha, beta := x * v - y * u, p * y - q * x;
    } else {
      alpha, beta := y * u - x * v, q * x - p * y;
    }
  }

  lemma ErrorIdentity(p: int, q: int, u: int, v: int, a: int, b: int, alpha: int, beta: int)
    ensures (alpha * p + beta * u) * (q * a + v * b) - (p * a + u * b) * (alpha * q + beta * v)
         == (alpha * b - beta * a) * (p * v - u * q)
  {
  }

  lemma CandidateError(numerator: nat, denominator: nat, p: nat, q: nat, u: nat, v: nat, a: int, b: int,
                       x: nat, y: nat, alpha: int, beta: int)
    requires Straddles(numerator, denominator, p, q, u, v, a, b)
    requires x == alpha * p + beta * u && y == alpha * q + beta * v
    ensures Abs(x * denominator - numerator * y) == Abs(alpha * b - beta * a)
  {
    ErrorIdentity(p, q, u, v, a, b, alpha, beta);
    Sign(alpha * b - beta * a, p * v - u * q);
  }

  lemma Sign(x: int, s: int)
    requires s == 1 || s == -1
    ensures Abs(x * s) == Abs(x)
  {
  }

  lemma NeighbourErrors(numerator: nat, denominator: nat, p: nat, q: nat, u: nat, v: nat, a: int, b: int)
    requires Straddles(numerator, denominator, p, q, u, v, a, b)
    ensures Abs(p * denominator - numerator * q) == b
    ensures Abs(u * denominator - numerator * v) == a
  {
    CandidateError(numerator, denominator, p, q, u, v, a, b, p, q, 1, 0);
    CandidateError(numerator, denominator, p, q, u, v, a, b, u, v, 0, 1);
  }

  // A candidate whose coordinates are not both positive is no closer than one neighbour.
  lemma OutsideIsFarther(alpha: int, beta: int, q: nat, v: nat, a: nat, b: nat, y: nat, e: nat)
    requires 1 <= a && 1 <= b && 1 <= y == alpha * q + beta * v
    requires e == Abs(alpha * b - beta * a)
    requires !(1 <= alpha && 1 <= beta)
    ensures (1 <= q && e * q >= b * y) || (1 <= v && e * v >= a * y)
  {
    if alpha >= 1 {
      MulMonotone(beta, 0, v);
      MulMonotone(beta, 0, a);
      MulMonotone(alpha * b, e, q);
      MulMonotone(y, alpha * q, b);
      assert alpha * b * q == alpha * q * b;
    } else {
      MulMonotone(alpha, 0, q);
      MulMonotone(alpha, 0, b);
      if beta <= 0 {
        MulMonotone(beta, 0, v);
        assert false;
      } else {
        MulMonotone(beta * a, e, v);
        MulMonotone(y, beta * v, a);
        assert beta * a * v == beta * v * a;
      }
    }
  }

  lemma Neighbours(numerator: nat, denominator: nat, maxNumerator: nat, maxDenominator: nat,
                   p: nat, q: nat, u: nat, v: nat, a: int, b: int, x: nat, y: nat)
    requires Straddles(numerator, denominator, p, q, u, v, a, b)
    requires p + u > maxNumerator || q + v > maxDenominator
    requires InBounds(x, y, maxNumerator, maxDenominator)
    ensures var e := Abs(x * denominator - numerator * y);
            (1 <= q && e * q >= b * y) || (1 <= v && e * v >= a * y)
  {
    var alpha, beta := Coordinates(p, q, u, v, x, y);
    CandidateError(numerator, denominator, p, q, u, v, a, b, x, y, alpha, beta);
    if alpha >= 1 && beta >= 1 {
      MulMonotone(1, alpha, p);
      MulMonotone(1, beta, u);
      MulMonotone(1, alpha, q);
      MulMonotone(1, beta, v);
      assert false;
    }
    OutsideIsFarther(alpha, beta, q, v, a, b, y, Abs(alpha * b - beta * a));
  }

  lemma CancelBoth(e: nat, q: nat, b: int, y: nat, v: nat, a: int)
    requires 0 < v && e * v >= a * y && b * v <= a * q
    ensures e * q >= b * y
  {
    calc {
      b * y * v;
    ==  { assert b * y * v == b * v * y; }
      b * v * y;
    <=  { MulMonotone(b * v, a * q, y); }
      a * q * y;
    ==  { assert a * q * y == a * y * q; }
      a * y * q;
    <=  { MulMonotone(a * y, e * v, q); }
      e * v * q;
    ==  { assert e * v * q == e * q * v; }
      e * q * v;
    }
    MulCancel(b * y, e * q, v);
  }

  // The closer neighbour is best.
  lemma CloserNeighbourIsBest(numerator: nat, denominator: nat, maxNumerator: nat, maxDenominator: nat,
                              p: nat, q: nat, u: nat, v: nat, a: int, b: int)
    requires Straddles(numerator, denominator, p, q, u, v, a, b)
    requires p + u > maxNumerator || q + v > maxDenominator
    requires b * v <= a * q
    ensures IsBest(numerator, denominator, maxNumerator, maxDenominator, p, q)
  {
    NeighbourErrors(numerator, denominator, p, q, u, v, a, b);
    forall x: nat, y: nat | InBounds(x, y, maxNumerator, maxDenominator)
      ensures AtLeastAsClose(numerator, denominator, p, q, x, y)
    {
      Neighbours(numerator, denominator, maxNumerator, maxDenominator, p, q, u, v, a, b, x, y);
      var e := Abs(x * denominator - numerator * y);
      if e * q < b * y {
        CancelBoth(e, q, b, y, v, a);
      }
    }
  }

  lemma StraddlesSwap(numerator: nat, denominator: nat, p: nat, q: nat, u: nat, v: nat, a: int, b: int)
    requires Straddles(numerator, denominator, p, q, u, v, a, b)
    ensures Straddles(numerator, denominator, u, v, p, q, b, a)
  {
  }

  lemma FartherNeighbourIsNotBest(numerator: nat, denominator: nat, maxNumerator: nat, maxDenominator: nat,
                                  p: nat, q: nat, u: nat, v: nat, a: int, b: int)
    requires Straddles(numerator, denominator, p, q, u, v, a, b)
    requires InBounds(u, v, maxNumerator, maxDenominator)
    requires a * q < b * v
    ensures !IsBest(numerator, denominator, maxNumerator, maxDenominator, p, q)
  {
    NeighbourErrors(numerator, denominator, p, q, u, v, a, b);
    assert !AtLeastAsClose(numerator, denominator, p, q, u, v);
  }

  // An exact answer has distance 0.
  lemma ExactIsBest(numerator: nat, denominator: nat, maxNumerator: nat, maxDenominator: nat, n: nat, r: nat, s: nat)
    requires numerator == r * n && denominator == s * n
    ensures IsBest(numerator, denominator, maxNumerator, maxDenominator, r, s)
  {
    assert r * (s * n) == r * n * s;
  }

  // ----- The round that leaves the bounds

  ghost predicate LargestTerm(maxNumerator: nat, maxDenominator: nat, n0: nat, d0: nat, n1: nat, d1: nat, t: nat) {
    && n0 + t * n1 <= maxNumerator && d0 + t * d1 <= maxDenominator
    && (n0 + t * n1 + n1 > maxNumerator || d0 + t * d1 + d1 > maxDenominator)
  }

  lemma LargestTermBelow(maxNumerator: nat, maxDenominator: nat, n0: nat, d0: nat, n1: nat, d1: nat, t: nat, a: nat)
    requires LargestTerm(maxNumerator, maxDenominator, n0, d0, n1, d1, t)
    requires n0 + a * n1 > maxNumerator || d0 + a * d1 > maxDenominator
    ensures t < a
  {
    if a <= t {
      MulMonotone(a, t, n1);
      MulMonotone(a, t, d1);
    }
  }

  lemma SemiconvergentIdentity(n: int, d: int, n0: int, d0: int, n1: int, d1: int, t: int)
    ensures n1 * (n - t * d) + (n0 + t * n1) * d == n1 * n + n0 * d
    ensures n1 * (d0 + t * d1) - (n0 + t * n1) * d1 == n1 * d0 - n0 * d1
  {
  }

  lemma SemiconvergentStraddles(numerator: nat, denominator: nat, n: nat, d: nat, n0: nat, d0: nat, n1: nat, d1: nat, t: nat)
    requires Euclid(numerator, denominator, n, d, n0, d0, n1, d1)
    requires 0 < d && t < n / d
    ensures Straddles(numerator, denominator, n1, d1, n0 + t * n1, d0 + t * d1, n - t * d, d)
  {
    SemiconvergentIdentity(n, d, n0, d0, n1, d1, t);
    SemiconvergentIdentity(n, d, d0, n0, d1, n1, t);
    MulMonotone(t + 1, n / d, d);
    assert n == n / d * d + n % d;
    assert (t + 1) * d == t * d + d;
  }

  lemma ChoiceIdentity(d: int, r: int, a: int, d0: int, d1: int, t: int)
    ensures d * (d0 + t * d1) - (a * d + r - t * d) * d1 == d0 * d - d1 * r + (2 * t - a) * (d * d1)
  {
  }

  // The comparison of 2 * t with a decides which neighbour is closer.
  lemma Choice(n: nat, d: nat, a: nat, r: nat, d0: nat, d1: nat, t: nat)
    requires n == a * d + r && r < d && d0 <= d1 && 1 <= d1
    ensures (2 * t > a || (2 * t == a && d0 * d > d1 * r)) <==> (n - t * d) * d1 < d * (d0 + t * d1)
  {
    ChoiceIdentity(d, r, a, d0, d1, t);
    MulMonotone(d0, d1, d);
    RemainderBelow(r, d, d1);
    ChoiceSign(d0 * d, d1 * r, d * d1, 2 * t - a);
  }

  lemma RemainderBelow(r: nat, d: nat, k: nat)
    requires r < d && 1 <= k
    ensures k * r < d * k
  {
    MulMonotone(r, d - 1, k);
  }

  lemma ChoiceSign(x: nat, y: nat, z: nat, c: int)
    requires y < z && x <= z
    ensures x - y + c * z > 0 <==> c > 0 || (c == 0 && x > y)
  {
    if c > 0 {
      MulMonotone(1, c, z);
    } else if c < 0 {
      MulMonotone(c, -1, z);
    }
  }

  // The round that leaves the bounds, once there is a previous convergent.
  lemma BreakIsBest(numerator: nat, denominator: nat, maxNumerator: nat, maxDenominator: nat,
                    n: nat, d: nat, a: nat, n0: nat, d0: nat, n1: nat, d1: nat, t: nat, u: nat, v: nat, closer: bool)
    requires Euclid(numerator, denominator, n, d, n0, d0, n1, d1)
    requires 0 < d && a == n / d && d0 <= d1 && 1 <= d1
    requires u == n0 + t * n1 && v == d0 + t * d1 && t < a
    requires u <= maxNumerator && v <= maxDenominator
    requires n1 + u > maxNumerator || d1 + v > maxDenominator
    requires closer <==> 2 * t > a || (2 * t == a && d0 * d > d1 * (n % d))
    ensures closer ==> IsBest(numerator, denominator, maxNumerator, maxDenominator, u, v)
    ensures !closer ==> IsBest(numerator, denominator, maxNumerator, maxDenominator, n1, d1)
    ensures closer && 0 < v ==> !IsBest(numerator, denominator, maxNumerator, maxDenominator, n1, d1)
  {
    var b := n - t * d;
    SemiconvergentStraddles(numerator, denominator, n, d, n0, d0, n1, d1, t);
    Choice(n, d, a, n % d, d0, d1, t);
    if closer {
      StraddlesSwap(numerator, denominator, n1, d1, u, v, b, d);
      CloserNeighbourIsBest(numerator, denominator, maxNumerator, maxDenominator, u, v, n1, d1, d, b);
      if 0 < v {
        FartherNeighbourIsNotBest(numerator, denominator, maxNumerator, maxDenominator, n1, d1, u, v, b, d);
      }
    } else {
      CloserNeighbourIsBest(numerator, denominator, maxNumerator, maxDenominator, n1, d1, u, v, b, d);
    }
  }

  // ----- When 2 * t wraps

  // The term t of the round that leaves the bounds.
  ghost predicate IsTerm(maxNumerator: nat, maxDenominator: nat, n0: nat, d0: nat, n1: nat, d1: nat, t: nat) {
    && 1 <= d1 && d0 <= maxDenominator
    && (0 < n1 ==> n0 <= maxNumerator)
    && t == if 0 < n1 then Min((maxDenominator - d0) / d1, (maxNumerator - n0) / n1) else (maxDenominator - d0) / d1
  }

  lemma DivBounds(x: nat, d: nat)
    requires 0 < d
    ensures x / d * d <= x < x / d * d + d
  {
    assert x == x / d * d + x % d;
  }

  lemma TermIsLargest(maxNumerator: nat, maxDenominator: nat, n0: nat, d0: nat, n1: nat, d1: nat, t: nat)
    requires IsTerm(maxNumerator, maxDenominator, n0, d0, n1, d1, t)
    requires n0 <= maxNumerator
    ensures LargestTerm(maxNumerator, maxDenominator, n0, d0, n1, d1, t)
  {
    var td := (maxDenominator - d0) / d1;
    DivBounds(maxDenominator - d0, d1);
    MulMonotone(t, td, d1);
    if 0 < n1 {
      var tn := (maxNumerator - n0) / n1;
      DivBounds(maxNumerator - n0, n1);
      MulMonotone(t, tn, n1);
    }
  }

  lemma LargeQuotient(x: nat, d: nat, half: nat)
    requires 0 < d && x < 2 * half && half < x / d
    ensures d == 1 && x / d == x
  {
    DivBounds(x, d);
    if d >= 2 {
      MulMonotone(2, d, x / d);
      assert false;
    }
  }

  lemma QuotientUnique(x: nat, d: nat, q: nat, r: nat)
    requires x == q * d + r && r < d
    ensures x / d == q && x % d == r
  {
    var q', r' := x / d, x % d;
    assert (q - q') * d == r' - r;
    if q > q' {
      MulMonotone(1, q - q', d);
    } else if q < q' {
      MulMonotone(q - q', -1, d);
    }
  }

  // What the Euclidean algorithm does on the inputs of DoublingWraps.
  lemma FamilyRounds(numerator: nat, denominator: nat, maxNumerator: nat, maxDenominator: nat, ulongMax: nat)
    requires IsUlongMax(ulongMax)
    requires DoublingWraps(numerator, denominator, maxNumerator, maxDenominator, ulongMax)
    ensures 2 <= denominator
    ensures if denominator == numerator + 1
            then 2 <= numerator && numerator / denominator == 0 && numerator % denominator == numerator
                 && denominator / numerator == 1 && denominator % numerator == 1
            else numerator % denominator == 1 && numerator / denominator <= 1
                 && (numerator / denominator == 0 <==> numerator == 1)
  {
    if denominator == numerator + 1 {
      QuotientUnique(numerator, denominator, 0, numerator);
      QuotientUnique(denominator, numerator, 1, 1);
    } else if numerator == 1 {
      QuotientUnique(numerator, denominator, 0, 1);
    } else {
      QuotientUnique(numerator, denominator, 1, 1);
    }
  }

  lemma WrapsRound1(numerator: nat, denominator: nat, maxNumerator: nat, maxDenominator: nat, ulongMax: nat,
                    d: nat, a: nat, n1: nat, t: nat)
    requires IsUlongMax(ulongMax) && numerator <= ulongMax && denominator <= ulongMax
    requires 0 < denominator && d == numerator % denominator && 0 < d && n1 == numerator / denominator
    requires a == denominator / d
    requires 1 <= maxNumerator && 1 <= maxDenominator
    requires IsTerm(maxNumerator, maxDenominator, 1, 0, n1, 1, t)
    requires 1 + a * n1 > maxNumerator || a > maxDenominator
    requires t < a && 1 + a * n1 <= ulongMax
    ensures 2 * t > ulongMax <==> DoublingWraps(numerator, denominator, maxNumerator, maxDenominator, ulongMax)
  {
    if DoublingWraps(numerator, denominator, maxNumerator, maxDenominator, ulongMax) {
      FamilyRounds(numerator, denominator, maxNumerator, maxDenominator, ulongMax);
    }
    if 2 * t > ulongMax {
      LargeQuotient(denominator, d, ulongMax / 2 + 1);
      AtMostOne(n1, a, ulongMax);
      assert numerator == n1 * denominator + 1;
    }
  }

  lemma AtMostOne(x: nat, a: nat, ulongMax: nat)
    requires 2 * a > ulongMax && a * x <= ulongMax
    ensures x <= 1
  {
    if x >= 2 {
      MulMonotone(2, x, a);
    }
  }

  lemma WrapsRound2(numerator: nat, denominator: nat, maxNumerator: nat, maxDenominator: nat, ulongMax: nat,
                    n: nat, d: nat, a: nat, n0: nat, n1: nat, d1: nat, t: nat)
    requires IsUlongMax(ulongMax) && numerator <= ulongMax && denominator <= ulongMax && maxDenominator <= ulongMax
    requires 0 < denominator && n == numerator % denominator && 0 < n && d == denominator % n && 0 < d
    requires n0 == numerator / denominator && d1 == denominator / n && n1 == 1 + d1 * n0
    requires a == n / d
    requires 1 <= d1 && 1 <= maxNumerator && 1 <= maxDenominator
    requires IsTerm(maxNumerator, maxDenominator, n0, 1, n1, d1, t)
    requires n0 + a * n1 > maxNumerator || 1 + a * d1 > maxDenominator
    requires t < a && n0 + a * n1 <= ulongMax
    ensures 2 * t > ulongMax <==> DoublingWraps(numerator, denominator, maxNumerator, maxDenominator, ulongMax)
  {
    if DoublingWraps(numerator, denominator, maxNumerator, maxDenominator, ulongMax) {
      FamilyRounds(numerator, denominator, maxNumerator, maxDenominator, ulongMax);
      assert n == numerator && d == 1 && n0 == 0 && n1 == 1 && d1 == 1;
    }
    if 2 * t > ulongMax {
      Round2Shape(numerator, denominator, maxNumerator, maxDenominator, ulongMax, n, d, a, n0, n1, d1, t);
    }
  }

  lemma Round2Shape(numerator: nat, denominator: nat, maxNumerator: nat, maxDenominator: nat, ulongMax: nat,
                    n: nat, d: nat, a: nat, n0: nat, n1: nat, d1: nat, t: nat)
    requires IsUlongMax(ulongMax) && numerator <= ulongMax && denominator <= ulongMax && maxDenominator <= ulongMax
    requires 0 < denominator && n == numerator % denominator && 0 < n && d == denominator % n && 0 < d
    requires n0 == numerator / denominator && d1 == denominator / n && n1 == 1 + d1 * n0
    requires a == n / d && 1 <= d1
    requires IsTerm(maxNumerator, maxDenominator, n0, 1, n1, d1, t)
    requires t < a && n0 + a * n1 <= ulongMax && 2 * t > ulongMax
    ensures n0 == 0 && n1 == 1 && d1 == 1 && d == 1 && a == n == numerator && denominator == numerator + 1
  {
    LargeQuotient(n, d, ulongMax / 2 + 1);
    TermAtMost(maxNumerator, maxDenominator, n0, 1, n1, d1, t);
    AtMostOne(d1, t, ulongMax);
    AtMostOne(n1, a, ulongMax);
    assert denominator == d1 * n + d && numerator == n0 * denominator + n;
  }

  lemma TermAtMost(maxNumerator: nat, maxDenominator: nat, n0: nat, d0: nat, n1: nat, d1: nat, t: nat)
    requires IsTerm(maxNumerator, maxDenominator, n0, d0, n1, d1, t)
    ensures t * d1 <= maxDenominator
  {
    DivBounds(maxDenominator - d0, d1);
    MulMonotone(t, (maxDenominator - d0) / d1, d1);
  }

  lemma WrapsLater(k: nat, numerator: nat, denominator: nat, maxNumerator: nat, maxDenominator: nat, ulongMax: nat,
                   n: nat, d: nat, n0: nat, d0: nat, n1: nat, d1: nat, t: nat)
    requires IsUlongMax(ulongMax) && maxDenominator <= ulongMax
    requires 3 <= k && Stage(k, numerator, denominator, n, d, n0, d0, n1, d1) && 0 < d
    requires t * d1 <= maxDenominator
    ensures 2 * t <= ulongMax
    ensures !DoublingWraps(numerator, denominator, maxNumerator, maxDenominator, ulongMax)
  {
    MulMonotone(2, d1, t);
    if DoublingWraps(numerator, denominator, maxNumerator, maxDenominator, ulongMax) {
      FamilyRounds(numerator, denominator, maxNumerator, maxDenominator, ulongMax);
      assert false;
    }
  }

  // ----- What each exit of the loop leaves

  // The whole guarantee on the result r/s: in lowest terms always; within the bounds exactly if
  // the denominator's is not 0 and ZeroBoundMissed does not apply; and, within the bounds, best
  // exactly if 2 * t does not wrap. Where it goes wrong, the result is known.
  ghost predicate Outcome(numerator: nat, denominator: nat, maxNumerator: nat, maxDenominator: nat, ulongMax: nat,
                          r: nat, s: nat)
  {
    && LowestTerms(r, s)
    && (InBounds(r, s, maxNumerator, maxDenominator) <==>
        1 <= maxDenominator && !ZeroBoundMissed(numerator, denominator, maxNumerator, maxDenominator, ulongMax))
    && (InBounds(r, s, maxNumerator, maxDenominator) ==>
        (IsBest(numerator, denominator, maxNumerator, maxDenominator, r, s) <==>
         !DoublingWraps(numerator, denominator, maxNumerator, maxDenominator, ulongMax)))
    && (DoublingWraps(numerator, denominator, maxNumerator, maxDenominator, ulongMax) ==>
          r == (if numerator == 1 then 0 else 1) && s == 1)
    && (ZeroBoundMissed(numerator, denominator, maxNumerator, maxDenominator, ulongMax) ==>
          r == 1 && s == maxDenominator)
  }

  // Where 2 * t wraps, the previous convergent is kept: a whole number.
  lemma WrapLeaves(k: nat, numerator: nat, denominator: nat, maxNumerator: nat, maxDenominator: nat, ulongMax: nat,
                   n: nat, d: nat, n0: nat, d0: nat, n1: nat, d1: nat, a: nat, t: nat)
    requires IsUlongMax(ulongMax) && maxDenominator <= ulongMax
    requires 1 <= k && Stage(k, numerator, denominator, n, d, n0, d0, n1, d1) && 0 < d && a == n / d
    requires DoublingWraps(numerator, denominator, maxNumerator, maxDenominator, ulongMax)
    requires t < a && 2 * t > ulongMax && t * d1 <= maxDenominator
    ensures d1 == 1 && n1 == if numerator == 1 then 0 else 1
  {
    FamilyRounds(numerator, denominator, maxNumerator, maxDenominator, ulongMax);
    if k >= 3 {
      WrapsLater(k, numerator, denominator, maxNumerator, maxDenominator, ulongMax, n, d, n0, d0, n1, d1, t);
    }
  }

  lemma ExactDoesNotWrap(numerator: nat, denominator: nat, maxNumerator: nat, maxDenominator: nat, ulongMax: nat,
                         n: nat, r: nat, s: nat)
    requires numerator == n * r && denominator == n * s
    requires r <= maxNumerator && s <= maxDenominator
    ensures !DoublingWraps(numerator, denominator, maxNumerator, maxDenominator, ulongMax)
  {
    if DoublingWraps(numerator, denominator, maxNumerator, maxDenominator, ulongMax) {
      if numerator == 1 {
        UnitFactor(n, r);
      } else {
        assert n * (r - s) == n * r - n * s;
        UnitFactor(n, r - s);
      }
    }
  }

  lemma ExactOutcome(numerator: nat, denominator: nat, maxNumerator: nat, maxDenominator: nat, ulongMax: nat,
                     n: nat, n0: nat, d0: nat, n1: nat, d1: nat)
    requires 0 < denominator
    requires Euclid(numerator, denominator, n, 0, n0, d0, n1, d1)
    requires InBounds(n1, d1, maxNumerator, maxDenominator)
    ensures Outcome(numerator, denominator, maxNumerator, maxDenominator, ulongMax, n1, d1)
  {
    DivisorsOfUnimodular(n0, d0, n1, d1);
    ExactIsBest(numerator, denominator, maxNumerator, maxDenominator, n, n1, d1);
    ExactDoesNotWrap(numerator, denominator, maxNumerator, maxDenominator, ulongMax, n, n1, d1);
    if maxNumerator == 0 {
      assert n1 * n == 0;
    }
  }

  lemma FirstRoundIsBest(numerator: nat, denominator: nat, maxNumerator: nat, maxDenominator: nat)
    requires 0 < denominator && numerator / denominator > maxNumerator
    ensures IsBest(numerator, denominator, maxNumerator, maxDenominator, maxNumerator, 1)
  {
    var a, b := denominator, numerator - maxNumerator * denominator;
    DivBounds(numerator, denominator);
    MulMonotone(maxNumerator + 1, numerator / denominator, denominator);
    assert Straddles(numerator, denominator, maxNumerator, 1, 1, 0, a, b);
    CloserNeighbourIsBest(numerator, denominator, maxNumerator, maxDenominator, maxNumerator, 1, 1, 0, a, b);
  }

  lemma FirstRoundOutcome(numerator: nat, denominator: nat, maxNumerator: nat, maxDenominator: nat, ulongMax: nat)
    requires IsUlongMax(ulongMax)
    requires 0 < denominator
    requires numerator / denominator > maxNumerator || 1 > maxDenominator
    ensures Outcome(numerator, denominator, maxNumerator, maxDenominator, ulongMax, maxNumerator, 1)
  {
    DivisorsOfUnimodular(1, 0, maxNumerator, 1);
    if 1 <= maxDenominator {
      FirstRoundIsBest(numerator, denominator, maxNumerator, maxDenominator);
      if DoublingWraps(numerator, denominator, maxNumerator, maxDenominator, ulongMax) {
        FamilyRounds(numerator, denominator, maxNumerator, maxDenominator, ulongMax);
        assert false;
      }
      if 0 < numerator < denominator {
        QuotientUnique(numerator, denominator, 0, numerator);
        assert false;
      }
    }
  }

  // With a numerator bound of 0 the second round always leaves the bounds.
  lemma ZeroBoundOutcome(numerator: nat, denominator: nat, maxDenominator: nat, ulongMax: nat, r: nat, s: nat)
    requires 1 <= maxDenominator
    requires 0 < numerator < denominator
    requires if (2 * maxDenominator) % (ulongMax + 1) > denominator / numerator
             then r == 1 && s == maxDenominator else r == 0 && s == 1
    ensures Outcome(numerator, denominator, 0, maxDenominator, ulongMax, r, s)
  {
    if r == 1 {
      DivisorsOfUnimodular(0, 1, r, s);
    } else {
      DivisorsOfUnimodular(1, 0, r, s);
    }
  }

  lemma Doubled(t: nat, ulongMax: nat)
    requires t <= ulongMax
    ensures (2 * t) % (ulongMax + 1) == if 2 * t <= ulongMax then 2 * t else 2 * t - ulongMax - 1
  {
    if 2 * t <= ulongMax {
      QuotientUnique(2 * t, ulongMax + 1, 0, 2 * t);
    } else {
      QuotientUnique(2 * t, ulongMax + 1, 1, 2 * t - ulongMax - 1);
    }
  }

  lemma LaterRoundOutcome(k: nat, numerator: nat, denominator: nat, maxNumerator: nat, maxDenominator: nat, ulongMax: nat,
                          n: nat, d: nat, n0: nat, d0: nat, n1: nat, d1: nat,
                          a: nat, r: nat, t: nat, doubled: nat, chosen: bool, u: nat, v: nat)
    requires IsUlongMax(ulongMax)
    requires numerator <= ulongMax && denominator <= ulongMax && maxDenominator <= ulongMax
    requires Euclid(numerator, denominator, n, d, n0, d0, n1, d1)
    requires 1 <= k && Stage(k, numerator, denominator, n, d, n0, d0, n1, d1)
    requires 0 < d && a == n / d && r == n % d
    requires 1 <= maxNumerator && InBounds(n1, d1, maxNumerator, maxDenominator) && n0 <= maxNumerator && d0 <= d1
    requires n0 + a * n1 > maxNumerator || d0 + a * d1 > maxDenominator
    requires IsTerm(maxNumerator, maxDenominator, n0, d0, n1, d1, t)
    requires doubled == (2 * t) % (ulongMax + 1)
    requires chosen <==> doubled > a || (doubled == a && d0 * d > d1 * r)
    requires u == n0 + t * n1 && v == d0 + t * d1
    ensures Outcome(numerator, denominator, maxNumerator, maxDenominator, ulongMax,
                    if chosen then u else n1, if chosen then v else d1)
  {
    hide IsBest, LowestTerms, Stage;
    TermIsLargest(maxNumerator, maxDenominator, n0, d0, n1, d1, t);
    LargestTermBelow(maxNumerator, maxDenominator, n0, d0, n1, d1, t, a);
    var wraps := DoublingWraps(numerator, denominator, maxNumerator, maxDenominator, ulongMax);
    assert (2 * t > ulongMax <==> wraps) && t <= ulongMax by {
      IntermediatesFit(numerator, denominator, n, d, n0, d0, n1, d1);
      WrapsExactly(k, numerator, denominator, maxNumerator, maxDenominator, ulongMax, n, d, n0, d0, n1, d1, a, t);
      TermAtMost(maxNumerator, maxDenominator, n0, d0, n1, d1, t);
      MulLarger(t, d1);
    }
    Doubled(t, ulongMax);
    assert a <= ulongMax by {
      AtMostNumerator(numerator, denominator, n, d, n0, d0, n1, d1);
    }
    var closer := 2 * t > a || (2 * t == a && d0 * d > d1 * r);
    BreakIsBest(numerator, denominator, maxNumerator, maxDenominator, n, d, a, n0, d0, n1, d1, t, u, v, closer);
    BothLowest(n0, d0, n1, d1, t);
    if closer {
      SemiconvergentDenominatorPositive(d0, d1, t, a);
    }
    if wraps {
      TermAtMost(maxNumerator, maxDenominator, n0, d0, n1, d1, t);
      WrapLeaves(k, numerator, denominator, maxNumerator, maxDenominator, ulongMax, n, d, n0, d0, n1, d1, a, t);
    }
  }

  lemma AtMostNumerator(numerator: nat, denominator: nat, n: nat, d: nat, n0: nat, d0: nat, n1: nat, d1: nat)
    requires Euclid(numerator, denominator, n, d, n0, d0, n1, d1)
    requires 0 < d && 1 <= d1
    ensures n / d <= denominator
  {
    IntermediatesFit(numerator, denominator, n, d, n0, d0, n1, d1);
    MulLarger(n / d, d1);
  }

  lemma BothLowest(n0: nat, d0: nat, n1: nat, d1: nat, t: nat)
    requires n1 * d0 - n0 * d1 == 1 || n1 * d0 - n0 * d1 == -1
    ensures LowestTerms(n1, d1) && LowestTerms(n0 + t * n1, d0 + t * d1)
  {
    DivisorsOfUnimodular(n0, d0, n1, d1);
    SemiconvergentIdentity(0, 0, n0, d0, n1, d1, t);
    DivisorsOfUnimodular(n1, d1, n0 + t * n1, d0 + t * d1);
  }

  lemma SemiconvergentDenominatorPositive(d0: nat, d1: nat, t: nat, a: nat)
    requires 1 <= d1 && 2 * t >= a && t < a
    ensures 1 <= d0 + t * d1
  {
    MulMonotone(1, t, d1);
  }

  lemma WrapsExactly(k: nat, numerator: nat, denominator: nat, maxNumerator: nat, maxDenominator: nat, ulongMax: nat,
                     n: nat, d: nat, n0: nat, d0: nat, n1: nat, d1: nat, a: nat, t: nat)
    requires IsUlongMax(ulongMax) && numerator <= ulongMax && denominator <= ulongMax && maxDenominator <= ulongMax
    requires 1 <= k && Stage(k, numerator, denominator, n, d, n0, d0, n1, d1)
    requires 0 < d && a == n / d
    requires 1 <= maxNumerator && 1 <= d1 <= maxDenominator
    requires n0 + a * n1 > maxNumerator || d0 + a * d1 > maxDenominator
    requires IsTerm(maxNumerator, maxDenominator, n0, d0, n1, d1, t)
    requires t < a && n0 + a * n1 <= numerator
    ensures 2 * t > ulongMax <==> DoublingWraps(numerator, denominator, maxNumerator, maxDenominator, ulongMax)
  {
    if k == 1 {
      WrapsRound1(numerator, denominator, maxNumerator, maxDenominator, ulongMax, d, a, n1, t);
    } else if k == 2 {
      WrapsRound2(numerator, denominator, maxNumerator, maxDenominator, ulongMax, n, d, a, n0, n1, d1, t);
    } else {
      TermAtMost(maxNumerator, maxDenominator, n0, d0, n1, d1, t);
      WrapsLater(k, numerator, denominator, maxNumerator, maxDenominator, ulongMax, n, d, n0, d0, n1, d1, t);
    }
  }

  // The state at the head of the loop.
  ghost predicate LoopState(k: nat, numerator: nat, denominator: nat, maxNumerator: nat, maxDenominator: nat,
                            n: nat, d: nat, n0: nat, d0: nat, n1: nat, d1: nat)
  {
    && Euclid(numerator, denominator, n, d, n0, d0, n1, d1)
    && Stage(k, numerator, denominator, n, d, n0, d0, n1, d1)
    && (1 <= k ==> InBounds(n1, d1, maxNumerator, maxDenominator) && d0 <= d1)
    && (2 <= k ==> 1 <= n1 && n0 <= maxNumerator)
  }

  lemma LoopStart(numerator: nat, denominator: nat, maxNumerator: nat, maxDenominator: nat)
    ensures LoopState(0, numerator, denominator, maxNumerator, maxDenominator, numerator, denominator, 0, 1, 1, 0)
  {
  }

  lemma LoopStep(k: nat, numerator: nat, denominator: nat, maxNumerator: nat, maxDenominator: nat,
                 n: nat, d: nat, n0: nat, d0: nat, n1: nat, d1: nat, a: nat, r: nat, n2: nat, d2: nat)
    requires LoopState(k, numerator, denominator, maxNumerator, maxDenominator, n, d, n0, d0, n1, d1)
    requires 0 < d && a == n / d && r == n % d && n2 == n0 + a * n1 && d2 == d0 + a * d1
    requires n2 <= maxNumerator && d2 <= maxDenominator
    ensures LoopState(k + 1, numerator, denominator, maxNumerator, maxDenominator, d, r, n1, d1, n2, d2)
  {
    EuclidStep(numerator, denominator, n, d, n0, d0, n1, d1, a);
    StageStep(k, numerator, denominator, n, d, n0, d0, n1, d1, a, r, n2, d2);
    if 1 <= k {
      Quotient(n, d);
      MulMonotone(1, a, d1);
      MulMonotone(1, a, n1);
    }
  }

  // The next convergent, or the semiconvergent with term t in place of a.
  function Convergent(x0: nat, t: nat, x1: nat): nat {
    x0 + t * x1
  }

  lemma ConvergentIs(x0: nat, t: nat, x1: nat)
    ensures Convergent(x0, t, x1) == x0 + t * x1
  {
  }

  // The largest term within both bounds; the subtractions never go below 0.
  function Term(maxNumerator: nat, maxDenominator: nat, ulongMax: nat, n0: nat, d0: nat, n1: nat, d1: nat): nat
    requires 0 < d1 ==> d0 <= maxDenominator
    requires 0 < n1 ==> n0 <= maxNumerator
  {
    var t := if 0 < d1 then (maxDenominator - d0) / d1 else ulongMax;
    if 0 < n1 then Min(t, (maxNumerator - n0) / n1) else t
  }

  lemma TermDefined(k: nat, numerator: nat, denominator: nat, maxNumerator: nat, maxDenominator: nat,
                    n: nat, d: nat, n0: nat, d0: nat, n1: nat, d1: nat)
    requires LoopState(k, numerator, denominator, maxNumerator, maxDenominator, n, d, n0, d0, n1, d1)
    ensures 0 < d1 ==> d0 <= maxDenominator
    ensures 0 < n1 ==> n0 <= maxNumerator
  {
  }

  lemma BreakOutcome(k: nat, numerator: nat, denominator: nat, maxNumerator: nat, maxDenominator: nat, ulongMax: nat,
                     n: nat, d: nat, n0: nat, d0: nat, n1: nat, d1: nat,
                     a: nat, r: nat, t: nat, doubled: nat, chosen: bool, u: nat, v: nat)
    requires IsUlongMax(ulongMax)
    requires numerator <= ulongMax && denominator <= ulongMax && maxNumerator <= ulongMax && maxDenominator <= ulongMax
    requires LoopState(k, numerator, denominator, maxNumerator, maxDenominator, n, d, n0, d0, n1, d1)
    requires 0 < d && a == n / d && r == n % d
    requires n0 + a * n1 > maxNumerator || d0 + a * d1 > maxDenominator
    requires (0 < d1 ==> d0 <= maxDenominator) && (0 < n1 ==> n0 <= maxNumerator)
    requires t == Term(maxNumerator, maxDenominator, ulongMax, n0, d0, n1, d1)
    requires doubled == (2 * t) % (ulongMax + 1)
    requires chosen <==> d1 == 0 || doubled > a || (doubled == a && d0 * d > d1 * r)
    requires u == n0 + t * n1 && v == d0 + t * d1
    ensures Outcome(numerator, denominator, maxNumerator, maxDenominator, ulongMax,
                    if chosen then u else n1, if chosen then v else d1)
  {
    hide Outcome;
    if k == 0 {
      assert t == maxNumerator && u == maxNumerator && v == 1;
      FirstRoundOutcome(numerator, denominator, maxNumerator, maxDenominator, ulongMax);
    } else if maxNumerator == 0 {
      ZeroNumerator(numerator, denominator);
      ZeroRound(maxDenominator, ulongMax, d, r, d0, d1, t, u, v);
      ZeroBoundOutcome(numerator, denominator, maxDenominator, ulongMax, if chosen then u else n1, if chosen then v else d1);
    } else {
      LaterRoundOutcome(k, numerator, denominator, maxNumerator, maxDenominator, ulongMax,
                        n, d, n0, d0, n1, d1, a, r, t, doubled, chosen, u, v);
    }
  }

  lemma ZeroRound(maxDenominator: nat, ulongMax: nat, d: nat, r: nat, d0: nat, d1: nat, t: nat, u: nat, v: nat)
    requires d0 == 0 && d1 == 1
    requires t == Term(0, maxDenominator, ulongMax, 1, d0, 0, d1) && u == 1 + t * 0 && v == d0 + t * d1
    ensures u == 1 && v == t == maxDenominator && !(d0 * d > d1 * r)
  {
  }

  lemma ZeroNumerator(numerator: nat, denominator: nat)
    requires 0 < denominator && numerator / denominator == 0
    ensures numerator < denominator && numerator % denominator == numerator
  {
    DivBounds(numerator, denominator);
  }

  lemma LoopEnd(k: nat, numerator: nat, denominator: nat, maxNumerator: nat, maxDenominator: nat, ulongMax: nat,
                n: nat, n0: nat, d0: nat, n1: nat, d1: nat)
    requires LoopState(k, numerator, denominator, maxNumerator, maxDenominator, n, 0, n0, d0, n1, d1)
    ensures denominator == 0 ==> n1 == 1 && d1 == 0
    ensures 0 < denominator ==> Outcome(numerator, denominator, maxNumerator, maxDenominator, ulongMax, n1, d1)
  {
    if 0 < denominator {
      ExactOutcome(numerator, denominator, maxNumerator, maxDenominator, ulongMax, n, n0, d0, n1, d1);
    }
  }

  // The block that ends the loop: the previous convergent or the largest semiconvergent.
  method LeaveBounds(ghost k: nat, ghost numerator: nat, ghost denominator: nat,
                     maxNumerator: nat, maxDenominator: nat, ulongMax: nat,
                     ghost n: nat, dp: nat, n0: nat, d0: nat, n1: nat, d1: nat, a: nat, d: nat)
    returns (bestNumerator: nat, bestDenominator: nat)
    requires IsUlongMax(ulongMax)
    requires numerator <= ulongMax && denominator <= ulongMax && maxNumerator <= ulongMax && maxDenominator <= ulongMax
    requires LoopState(k, numerator, denominator, maxNumerator, maxDenominator, n, dp, n0, d0, n1, d1)
    requires 0 < dp && a == n / dp && d == n % dp
    requires Convergent(n0, a, n1) > maxNumerator || Convergent(d0, a, d1) > maxDenominator
    ensures Outcome(numerator, denominator, maxNumerator, maxDenominator, ulongMax, bestNumerator, bestDenominator)
  {
    hide Outcome;
    TermDefined(k, numerator, denominator, maxNumerator, maxDenominator, n, dp, n0, d0, n1, d1);
    var t := Term(maxNumerator, maxDenominator, ulongMax, n0, d0, n1, d1);
    var doubled := (2 * t) % (ulongMax + 1);
    var chosen := d1 == 0 || doubled > a || (doubled == a && d0 * dp > d1 * d);
    var u, v := Convergent(n0, t, n1), Convergent(d0, t, d1);
    BreakOutcome(k, numerator, denominator, maxNumerator, maxDenominator, ulongMax,
                 n, dp, n0, d0, n1, d1, a, d, t, doubled, chosen, u, v);
    if chosen {
      return u, v;
    }
    return n1, d1;
  }

  /**
   rational_best_approximation. The last clause is the whole guarantee; a caller can
   evaluate its two conditions on the arguments.
   */
  method RationalBestApproximation(numerator: nat, denominator: nat, maxNumerator: nat, maxDenominator: nat, ulongMax: nat)
    returns (bestNumerator: nat, bestDenominator: nat)
    requires IsUlongMax(ulongMax)
    requires numerator <= ulongMax && denominator <= ulongMax && maxNumerator <= ulongMax && maxDenominator <= ulongMax
    ensures denominator == 0 ==> bestNumerator == 1 && bestDenominator == 0
    ensures 0 < denominator ==>
              Outcome(numerator, denominator, maxNumerator, maxDenominator, ulongMax, bestNumerator, bestDenominator)
  {
    hide *;
    LoopStart(numerator, denominator, maxNumerator, maxDenominator);
    var n: nat, d: nat := numerator, denominator;
    var n0: nat, d1: nat := 0, 0;
    var n1: nat, d0: nat := 1, 1;
    ghost var k: nat := 0;
    while d != 0
      invariant LoopState(k, numerator, denominator, maxNumerator, maxDenominator, n, d, n0, d0, n1, d1)
      decreases d
    {
      var dp, a, r := d, n / d, n % d;
      var n2, d2 := Convergent(n0, a, n1), Convergent(d0, a, d1);
      if n2 > maxNumerator || d2 > maxDenominator {
        bestNumerator, bestDenominator :=
          LeaveBounds(k, numerator, denominator, maxNumerator, maxDenominator, ulongMax, n, dp, n0, d0, n1, d1, a, r);
        return;
      }
      ConvergentIs(n0, a, n1);
      ConvergentIs(d0, a, d1);
      LoopStep(k, numerator, denominator, maxNumerator, maxDenominator, n, dp, n0, d0, n1, d1, a, r, n2, d2);
      n, d := dp, r;
      n0, n1 := n1, n2;
      d0, d1 := d1, d2;
      k := k + 1;
    }
    LoopEnd(k, numerator, denominator, maxNumerator, maxDenominator, ulongMax, n, n0, d0, n1, d1);
    return n1, d1;
  }

  // ----- What callers get

  // A fraction equal to the input and within the bounds makes the answer exact.
  lemma ExactWhenRepresentable(numerator: nat, denominator: nat, maxNumerator: nat, maxDenominator: nat,
                               r: nat, s: nat, x: nat, y: nat)
    requires IsBest(numerator, denominator, maxNumerator, maxDenominator, r, s)
    requires InBounds(x, y, maxNumerator, maxDenominator) && x * denominator == numerator * y
    ensures r * denominator == numerator * s
  {
    assert AtLeastAsClose(numerator, denominator, r, s, x, y);
    var e := Abs(r * denominator - numerator * s);
    if 0 < e {
      MulLarger(y, e);
    }
  }

  /**
   1/(2^64 - 1) with bounds 2^63 + 5: the doubled term wraps to 10, so the answer is 0/1 although 1/(2^63 + 5) is strictly
   closer.
   */
  method WrapWitness() returns (r: nat, s: nat)
    ensures r == 0 && s == 1
    ensures var bound := 0x8000_0000_0000_0005;
            && (2 * bound) % (ULONG64_MAX + 1) == 10
            && InBounds(1, bound, bound, bound) && InBounds(r, s, bound, bound)
            && !AtLeastAsClose(1, ULONG64_MAX, r, s, 1, bound)
  {
    var bound := 0x8000_0000_0000_0005;
    r, s := RationalBestApproximation(1, ULONG64_MAX, bound, bound, ULONG64_MAX);
    assert DoublingWraps(1, ULONG64_MAX, bound, bound, ULONG64_MAX);
    assert !AtLeastAsClose(1, ULONG64_MAX, 0, 1, 1, bound);
  }

  /** 1/2 with a numerator bound of 0 and a denominator bound of 3: the answer 1/3 is out of bounds. */
  method ZeroBoundWitness() returns (r: nat, s: nat)
    ensures r == 1 && s == 3 && !InBounds(r, s, 0, 3) && InBounds(0, 1, 0, 3)
  {
    r, s := RationalBestApproximation(1, 2, 0, 3, ULONG64_MAX);
    assert 6 % (ULONG64_MAX + 1) == 6;
    assert ZeroBoundMissed(1, 2, 0, 3, ULONG64_MAX);
  }
}
