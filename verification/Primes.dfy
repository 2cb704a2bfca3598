/** Trial division by 6k-1 and 6k+1, and the largest prime at or below a bound. */
module Primes {
  import opened Primitives
  import opened Arithmetic

  ghost predicate Divides(d: nat, n: nat) {
    exists k: nat :: Factors(n, d, k)
  }

  ghost predicate Factors(n: nat, d: nat, k: nat) {
    n == d * k
  }

  ghost predicate Prime(n: nat) {
    n >= 2 && forall d :: 2 <= d < n ==> !Divides(d, n)
  }

  // The largest prime at most n, and 2 where there is none.
  ghost function LargestPrime(n: nat): (p: nat)
  {
    if n <= 2 then 2 else if Prime(n) then n else LargestPrime(n - 1)
  }

  lemma {:induction false} LargestPrimeIsLargest(n: nat)
    ensures Prime(LargestPrime(n))
    ensures n >= 2 ==> LargestPrime(n) <= n && forall q :: LargestPrime(n) < q <= n ==> !Prime(q)
    ensures n < 2 ==> LargestPrime(n) == 2
  {
    if n <= 2 {
      SmallPrimes(2);
    } else if !Prime(n) {
      LargestPrimeIsLargest(n - 1);
    }
  }

  lemma DividesMod(d: nat, n: nat)
    requires d > 0
    ensures Divides(d, n) <==> n % d == 0
  {
    if Divides(d, n) {
      var k: nat :| Factors(n, d, k);
      DivModUnique(n, d, k, 0);
    }
    if n % d == 0 {
      DivIdentity(n, d);
      assert n / d >= 0;
      assert Factors(n, d, n / d);
    }
  }

  lemma DividesTrans(c: nat, d: nat, n: nat)
    requires Divides(c, d) && Divides(d, n)
    ensures Divides(c, n)
  {
    var k: nat :| Factors(d, c, k);
    var l: nat :| Factors(n, d, l);
    assert c * (k * l) == (c * k) * l;
    assert Factors(n, c, k * l);
  }

  /** Without a divisor below i, and with i*i > n, there is no proper divisor at all. */
  lemma NoSmallDivisor(n: nat, i: nat)
    requires n >= 2 && i * i > n
    requires forall d :: 2 <= d < i ==> !Divides(d, n)
    ensures Prime(n)
  {
    if !Prime(n) {
      var d :| 2 <= d < n && Divides(d, n);
      var e: nat :| Factors(n, d, e);
      assert e >= 2 by { SmallFactor(d, e, n); }
      assert Factors(n, e, d);
      assert Divides(e, n);
      assert d >= i && e >= i;
      ProductMonotone(i, i, d, e);
    }
  }

  lemma SmallFactor(d: nat, e: nat, n: nat)
    requires d * e == n && 2 <= d < n
    ensures e >= 2
  {
  }

  // With 2 and 3 ruled out, only 6k-1 and 6k+1 remain to be tried.
  lemma WheelStep(n: nat, i: nat)
    requires i >= 5 && i % 6 == 5
    requires !Divides(2, n) && !Divides(3, n) && !Divides(i, n) && !Divides(i + 2, n)
    requires forall d :: 2 <= d < i ==> !Divides(d, n)
    ensures forall d :: 2 <= d < i + 6 ==> !Divides(d, n)
  {
    var q := i / 6;
    assert i == 6 * q + 5;
    NoMultiple(2, 3 * q + 3, i + 1, n);
    NoMultiple(2, 3 * q + 4, i + 3, n);
    NoMultiple(3, 2 * q + 3, i + 4, n);
    NoMultiple(2, 3 * q + 5, i + 5, n);
  }

  lemma NoMultiple(c: nat, e: nat, d: nat, n: nat)
    requires Factors(d, c, e) && !Divides(c, n)
    ensures !Divides(d, n)
  {
    if Divides(d, n) {
      DividesTrans(c, d, n);
    }
  }

  method IsMultipleOf(n: nat, d: nat) returns (multiple: bool)
    requires d > 0
    ensures multiple <==> Divides(d, n)
  {
    DividesMod(d, n);
    return n % d == 0;
  }

  method IsPrime(n: nat) returns (prime: bool)
    requires n <= U64_MAX
    ensures prime <==> Prime(n)
  {
    if n <= 3 {
      SmallPrimes(n);
      return n > 1;
    }
    var even := IsMultipleOf(n, 2);
    var triple := IsMultipleOf(n, 3);
    if even || triple {
      return false;
    }
    NotByFour(n);
    if n < 25 {
      NoSmallDivisor(n, 5);
      return true;
    }
    var i, j := 5, 25;
    while j <= n
      invariant i >= 5 && i % 6 == 5 && j == i * i
      invariant forall d :: 2 <= d < i ==> !Divides(d, n)
      decreases n - i
    {
      SquareExceeds(i, n);
      var first := IsMultipleOf(n, i);
      var second := IsMultipleOf(n, i + 2);
      if first || second {
        return false;
      }
      WheelStep(n, i);
      i := i + 6;
      j := i * i;
      if j > U64_MAX {
        // the square does not fit the integer type, so it exceeds n
        break;
      }
    }
    NoSmallDivisor(n, i);
    return true;
  }

  lemma SmallPrimes(n: nat)
    requires n <= 3
    ensures Prime(n) <==> n > 1
  {
    if n == 3 {
      DividesMod(2, 3);
    }
  }

  lemma NotByFour(n: nat)
    requires !Divides(2, n) && !Divides(3, n)
    ensures forall d :: 2 <= d < 5 ==> !Divides(d, n)
  {
    assert Factors(4, 2, 2);
    if Divides(4, n) {
      DividesTrans(2, 4, n);
    }
  }

  lemma SquareExceeds(i: nat, n: nat)
    requires i >= 5 && i * i <= n
    ensures i + 2 < n
  {
    ProductMonotone(5, i, i, i);
  }

  lemma EvenNotPrime(n: nat)
    requires n > 2 && n % 2 == 0
    ensures !Prime(n)
  {
    DividesMod(2, n);
  }

  lemma {:induction false} LargestPrimeAt(bound: nat, p: nat)
    requires Prime(p) && p <= bound && forall q :: p < q <= bound ==> !Prime(q)
    ensures LargestPrime(bound) == p
    decreases bound - p
  {
    if p < bound {
      LargestPrimeAt(bound - 1, p);
    }
  }

  lemma SmallBound(bound: nat)
    ensures bound <= 2 ==> LargestPrime(bound) == 2
  {
  }

  method FindPrimeBelow(bound: nat) returns (p: nat)
    requires bound <= U64_MAX
    ensures p == LargestPrime(bound)
  {
    hide Prime, LargestPrime;
    var n := bound;
    SmallBound(bound);
    if n <= 2 {
      return 2;
    }
    if n % 2 == 0 {
      EvenNotPrime(n);
      n := n - 1;
    }
    SmallPrimes(3);
    while n > 0
      invariant n % 2 == 1 && 3 <= n <= bound
      invariant forall q :: n < q <= bound ==> !Prime(q)
    {
      var prime := IsPrime(n);
      if prime {
        LargestPrimeAt(bound, n);
        return n;
      }
      if n < 2 {
        break;
      }
      EvenNotPrime(n - 1);
      n := n - 2;
    }
    // 3 is prime, so the search ends before
    assert false;
  }
}
