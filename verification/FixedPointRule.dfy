/**
 The adaptive quorum rule as computed with U64F64 numbers, on raw bits: every product and
 quotient is truncated, and the square roots are only approximate.
 */
module FixedPointRule {
  import opened Primitives
  import opened Arithmetic

  const UNIT: nat := 0x1_0000_0000_0000_0000

  // The computed threshold sqrt(e) * sqrt(t) / (sqrt(e) / sqrt(t) + 1) from the bits of the roots.
  function ThresholdBits(se: nat, st: nat): int
    requires st > 0
  {
    var product := se * st / UNIT;
    var quotient := se * UNIT / st;
    QuotientNonnegative(se * UNIT, st);
    product * UNIT / (quotient + UNIT)
  }

  lemma QuotientNonnegative(x: nat, d: nat)
    requires d > 0
    ensures x / d >= 0
  {
    DivMonotone(0, x, d);
    DivModUnique(0, d, 0, 0);
  }

  // A computed root of n: at most the exact one, and less than the given number of ulps below.
  predicate RootBits(root: nat, n: nat, ulps: nat) {
    root * root <= n * UNIT * UNIT < (root + ulps) * (root + ulps)
  }

  // How far off the root may be for the result below: 2^28 ulps are 2^-36.
  const ULPS_MAX: nat := 0x1000_0000

  predicate PassesFixed(a: nat, se: nat, st: nat) {
    st > 0 && a * UNIT > ThresholdBits(se, st)
  }

  // The computed threshold is below the exact fraction by less than two ulps.
  lemma ThresholdFraction(se: nat, st: nat)
    requires 0 < st <= se
    ensures ThresholdBits(se, st) + 2 > 0
    ensures (ThresholdBits(se, st) + 2) * UNIT * (se + st) > se * (st * st)
  {
    var product, quotient := se * st / UNIT, se * UNIT / st;
    QuotientNonnegative(se * UNIT, st);
    DivIdentity(se * st, UNIT);
    DivIdentity(se * UNIT, st);
    var d := quotient + UNIT;
    DivIdentity(product * UNIT, d);
    var x := product * UNIT / d;
    // (x + 1) * d > product * UNIT and (product + 1) * UNIT > se * st
    assert (x + 1) * d > product * UNIT by { Distribute(d, x, 1); }
    assert product * UNIT > se * st - UNIT by { assert UNIT * product == product * UNIT; }
    assert d * st <= se * UNIT + UNIT * st by { Distribute(st, quotient, UNIT); }
    BoundsCombine(se, st, x, d);
  }

  lemma BoundsCombine(se: nat, st: nat, x: int, d: nat)
    requires 0 < st <= se && d >= UNIT
    requires (x + 1) * d > se * st - UNIT && d * st <= (se + st) * UNIT
    ensures x + 2 > 0 && (x + 2) * UNIT * (se + st) > se * (st * st)
  {
    // (x + 2) * d > se * st, times st
    Distribute(d, x, 2);
    Distribute(d, x, 1);
    assert (x + 2) * d > se * st >= 0;
    if x + 2 <= 0 {
      Negative(x + 2, d);
    }
    ScaleBoth(x + 2, d, se, st);
  }

  lemma Negative(x: int, d: nat)
    requires x <= 0
    ensures x * d <= 0
  {
  }

  lemma ScaleBoth(y: nat, d: nat, se: nat, st: nat)
    requires 0 < st && y * d > se * st && d * st <= (se + st) * UNIT
    ensures y * UNIT * (se + st) > se * (st * st)
  {
    assert y * (d * st) > se * (st * st) by {
      Strict(y * d, se * st, st);
      Regroup(y, d, st);
      Regroup(se, st, st);
    }
    ProductMonotone(y, d * st, y, (se + st) * UNIT);
    assert y * ((se + st) * UNIT) == y * UNIT * (se + st) by { Regroup(y, UNIT, se + st); }
  }

  // With the root of the electorate the larger one, the fraction is at least half of the turnout.
  lemma ThresholdLowerBound(se: nat, st: nat)
    requires 0 < st <= se
    ensures 2 * UNIT * (ThresholdBits(se, st) + 2) > st * st
  {
    ThresholdFraction(se, st);
    var z := (ThresholdBits(se, st) + 2) * UNIT;
    ProductMonotone(z, se + st, z, 2 * se);
    assert z * (2 * se) == (2 * z) * se by { Regroup(z, 2, se); }
    Cancel(2 * z, st * st, se);
  }

  lemma Regroup(x: int, y: int, z: int)
    ensures (x * y) * z == x * (y * z)
  {
  }

  lemma Cancel(x: nat, y: nat, k: nat)
    requires x * k > k * y
    ensures x > y
  {
    if x <= y {
      ProductMonotone(x, k, y, k);
    }
  }

  lemma Strict(x: nat, y: nat, k: nat)
    requires x > y && k > 0
    ensures x * k > y * k
  {
    assert x * k - y * k == (x - y) * k;
    ProductAtLeast(k, x - y);
  }

  /** Rounding cannot approve a proposal against a majority: with turnout within the electorate,
      roots in the right order and a root of the turnout less than 2^28 ulps off, approval needs
      at least half of the votes. */
  lemma RoundedRuleNeedsHalf(t: nat, a: nat, se: nat, st: nat, ulps: nat)
    requires 0 < t < UNIT && st <= se && ulps <= ULPS_MAX
    requires RootBits(st, t, ulps) && PassesFixed(a, se, st)
    ensures 2 * a >= t
  {
    ThresholdLowerBound(se, st);
    RootBound(st, t);
    var square := st * st;
    assert 2 * UNIT * (a * UNIT + 1) > square by {
      var x := ThresholdBits(se, st);
      ProductMonotone(2 * UNIT, x + 2, 2 * UNIT, a * UNIT + 1);
    }
    assert (st + ulps) * (st + ulps) == square + 2 * (ulps * st) + ulps * ulps;
    ProductMonotone(ulps, st, ULPS_MAX, UNIT * 0x1_0000_0000);
    ProductMonotone(ulps, ulps, ULPS_MAX, ULPS_MAX);
    assert 2 * a * UNIT * UNIT + 2 * UNIT + 2 * (ULPS_MAX * (UNIT * 0x1_0000_0000)) + ULPS_MAX * ULPS_MAX >
           t * UNIT * UNIT;
  }

  lemma RootBound(st: nat, t: nat)
    requires st * st <= t * UNIT * UNIT && t < UNIT
    ensures st <= UNIT * 0x1_0000_0000
  {
    var limit := UNIT * 0x1_0000_0000;
    assert limit * limit == UNIT * UNIT * UNIT;
    ProductMonotone(limit, limit, Max(st, limit), Max(st, limit));
  }

  // ---------- strict majorities ----------

  /** With a turnout below the electorate and both roots less than 2^28 ulps off, approval needs
      a strict majority. */
  lemma RoundedRuleNeedsMajority(e: nat, t: nat, a: nat, se: nat, st: nat, ulps: nat)
    requires 0 < t < UNIT && t < e && ulps <= ULPS_MAX
    requires RootBits(se, e, ulps) && RootBits(st, t, ulps) && PassesFixed(a, se, st)
    ensures 2 * a > t
  {
    RootBound(st, t);
    RootAtLeast(st, t, ulps);
    RootsApart(e, t, se, st, ulps);
    if 2 * a <= t {
      FractionAtMost(t, a, se, st);
      RootsClose(t, se, st, ulps);
    }
  }

  lemma SquareOrder(x: nat, y: nat)
    requires x * x > y * y
    ensures x > y
  {
    if x <= y {
      ProductMonotone(x, x, y, y);
    }
  }

  lemma RootAtLeast(st: nat, t: nat, ulps: nat)
    requires t > 0 && t * UNIT * UNIT < (st + ulps) * (st + ulps)
    ensures st + ulps > UNIT
  {
    ProductMonotone(1, UNIT * UNIT, t, UNIT * UNIT);
    Regroup(t, UNIT, UNIT);
    SquareOrder(st + ulps, UNIT);
  }

  // How far apart the roots of a turnout and a larger electorate are at least.
  function Distance(ulps: nat): nat {
    4 * ulps + 12
  }

  lemma RootsApart(e: nat, t: nat, se: nat, st: nat, ulps: nat)
    requires t < e && ulps <= ULPS_MAX && st <= UNIT * 0x1_0000_0000
    requires e * UNIT * UNIT < (se + ulps) * (se + ulps) && st * st <= t * UNIT * UNIT
    ensures se > st + Distance(ulps)
  {
    var j := Distance(ulps) + ulps;
    assert e * UNIT * UNIT >= t * UNIT * UNIT + UNIT * UNIT by {
      ProductMonotone(t + 1, UNIT * UNIT, e, UNIT * UNIT);
      Regroup(e, UNIT, UNIT);
      Regroup(t, UNIT, UNIT);
    }
    SquareOfSum(st, j);
    ProductMonotone(j, st, 5 * ULPS_MAX + 12, UNIT * 0x1_0000_0000);
    ProductMonotone(j, j, 5 * ULPS_MAX + 12, 5 * ULPS_MAX + 12);
    SquareOrder(se + ulps, st + j);
  }

  lemma SquareOfSum(x: int, y: int)
    ensures (x + y) * (x + y) == x * x + 2 * (y * x) + y * y
  {
  }

  // A tally without a strict majority passes only if the exact fraction is below this.
  lemma FractionAtMost(t: nat, a: nat, se: nat, st: nat)
    requires 0 < st <= se && PassesFixed(a, se, st) && 2 * a <= t
    ensures 2 * (se * (st * st)) < (t * UNIT * UNIT + 2 * UNIT) * (se + st)
  {
    hide ThresholdBits;
    ThresholdFraction(se, st);
    BelowHalf(t, a, se, st);
    HalfScaled(t, ThresholdBits(se, st) + 2, se, st);
  }

  lemma BelowHalf(t: nat, a: nat, se: nat, st: nat)
    requires 0 < st && PassesFixed(a, se, st) && 2 * a <= t
    ensures 2 * (ThresholdBits(se, st) + 2) <= t * UNIT + 2
  {
    hide ThresholdBits;
    ProductMonotone(2 * a, UNIT, t, UNIT);
    Regroup(2, a, UNIT);
  }

  lemma HalfScaled(t: nat, y: int, se: nat, st: nat)
    requires y * UNIT * (se + st) > se * (st * st) && 2 * y <= t * UNIT + 2
    ensures 2 * (se * (st * st)) < (t * UNIT * UNIT + 2 * UNIT) * (se + st)
  {
    var half, whole := y * UNIT, t * UNIT * UNIT + 2 * UNIT;
    assert 2 * half <= whole by { Regroup(2, y, UNIT); }
    assert (whole - 2 * half) * (se + st) >= 0;
    assert (whole - 2 * half) * (se + st) == whole * (se + st) - 2 * (half * (se + st));
  }

  lemma RootsClose(t: nat, se: nat, st: nat, ulps: nat)
    requires 0 < st <= se && ulps <= ULPS_MAX && st + ulps > UNIT
    requires t * UNIT * UNIT < (st + ulps) * (st + ulps)
    requires 2 * (se * (st * st)) < (t * UNIT * UNIT + 2 * UNIT) * (se + st)
    ensures se <= st + Distance(ulps)
  {
    var k, square := 2 * ulps + 6, t * UNIT * UNIT + 2 * UNIT;
    SquareAtMost(t, st, ulps);
    ProductMonotone(square, se + st, (st + k) * st, se + st);
    DivideOut(se, st, k);
    ProductMonotone(k, k, 2 * ULPS_MAX + 6, 2 * ULPS_MAX + 6);
    GapSmall(se, st, k);
  }

  lemma SquareAtMost(t: nat, st: nat, ulps: nat)
    requires ulps <= ULPS_MAX && st + ulps > UNIT && t * UNIT * UNIT < (st + ulps) * (st + ulps)
    ensures t * UNIT * UNIT + 2 * UNIT <= (st + (2 * ulps + 6)) * st
  {
    SquareOfSum(st, ulps);
    ProductMonotone(ulps, ulps, ULPS_MAX, ULPS_MAX);
    assert (st + (2 * ulps + 6)) * st == st * st + 2 * (ulps * st) + 6 * st;
  }

  // 2 * se * st^2 < (st + k) * st * (se + st), with st taken out.
  lemma DivideOut(se: nat, st: nat, k: nat)
    requires st > 0 && 2 * (se * (st * st)) < ((st + k) * st) * (se + st)
    ensures 2 * (se * st) < (st + k) * (se + st)
  {
    assert 2 * (se * (st * st)) == st * (2 * (se * st));
    assert ((st + k) * st) * (se + st) == ((st + k) * (se + st)) * st;
    Cancel((st + k) * (se + st), 2 * (se * st), st);
  }

  lemma GapSmall(se: nat, st: nat, k: nat)
    requires 2 * (se * st) < (st + k) * (se + st) && st > 2 * (k * k) + k
    ensures se <= st + 2 * k
  {
    assert (st + k) * (se + st) == se * st + st * (st + k) + k * se;
    assert (st - k) * se == se * st - k * se;
    assert (st + 2 * k + 1) * (st - k) == st * (st + k) + st - 2 * (k * k) - k;
    Cancel(st + 2 * k + 1, se, st - k);
  }

  /** At full turnout, exactly half of the votes pass if and only if the root was truncated. */
  lemma HalfPassesExactly(t: nat, a: nat, st: nat)
    requires 2 * a == t && st > 0 && st * st <= t * UNIT * UNIT
    ensures PassesFixed(a, st, st) <==> st * st < t * UNIT * UNIT
  {
    DivModUnique(st * UNIT, st, UNIT, 0);
    var product := st * st / UNIT;
    DivIdentity(st * st, UNIT);
    QuotientNonnegative(st * st, UNIT);
    assert ThresholdBits(st, st) == product * UNIT / (UNIT + UNIT);
    DivIdentity(product * UNIT, 2 * UNIT);
  }

  // ---------- truncated roots ----------

  function Square(x: nat): nat {
    x * x
  }

  // The truncated root: the largest number of bits not above the exact root.
  ghost predicate TruncatedRoot(root: nat, n: nat) {
    forall x: nat :: x <= root <==> Square(x) <= n * UNIT * UNIT
  }

  lemma TruncatedExactly(root: nat, n: nat)
    ensures TruncatedRoot(root, n) <==> RootBits(root, n, 1)
  {
    if TruncatedRoot(root, n) {
      assert Square(root) <= n * UNIT * UNIT < Square(root + 1);
    }
    if RootBits(root, n, 1) {
      forall x: nat ensures x <= root <==> Square(x) <= n * UNIT * UNIT {
        if x <= root {
          ProductMonotone(x, x, root, root);
        } else {
          ProductMonotone(root + 1, root + 1, x, x);
        }
      }
    }
  }

  ghost predicate IsSquare(n: nat) {
    exists r: nat :: r * r == n
  }

  lemma RootsInOrder(e: nat, t: nat, se: nat, st: nat)
    requires t <= e && RootBits(se, e, 1) && RootBits(st, t, 1)
    ensures st <= se
  {
    ProductMonotone(t, UNIT * UNIT, e, UNIT * UNIT);
    Regroup(e, UNIT, UNIT);
    Regroup(t, UNIT, UNIT);
    SquareOrder(se + 1, st);
  }

  // A power of two taken out of a square.
  function Power(n: nat): nat {
    if n == 0 then 1 else 2 * Power(n - 1)
  }

  lemma {:induction false} RootOfScaled(s: nat, t: nat, n: nat)
    requires s * s == t * Power(n) * Power(n)
    ensures IsSquare(t)
    decreases n
  {
    if n == 0 {
      assert s * s == t;
    } else {
      Halve(s, t, Power(n - 1));
      RootOfScaled(s / 2, t, n - 1);
    }
  }

  // An even square is four times the square of the half.
  lemma Halve(s: nat, t: nat, p: nat)
    requires s * s == t * (2 * p) * (2 * p)
    ensures (s / 2) * (s / 2) == t * p * p
  {
    var h, r := s / 2, s % 2;
    assert s == 2 * h + r;
    assert t * (2 * p) * (2 * p) == 4 * (t * p * p);
    assert s * s == 4 * (h * h + h * r) + r * r;
  }

  lemma EightMore(n: nat)
    ensures Power(n + 8) == 256 * Power(n)
  {
    assert Power(n + 2) == 2 * Power(n + 1) == 4 * Power(n);
    assert Power(n + 4) == 2 * Power(n + 3) == 4 * Power(n + 2);
    assert Power(n + 6) == 2 * Power(n + 5) == 4 * Power(n + 4);
    assert Power(n + 8) == 2 * Power(n + 7) == 4 * Power(n + 6);
  }

  lemma PowerIsUnit()
    ensures Power(64) == UNIT
  {
    hide Power;
    PowerOfNone();
    EightMore(0);
    EightMore(8);
    EightMore(16);
    EightMore(24);
    EightMore(32);
    EightMore(40);
    EightMore(48);
    EightMore(56);
  }

  lemma PowerOfNone()
    ensures Power(0) == 1
  {
  }

  // The root is exact for square numbers only.
  lemma ExactRootExactly(st: nat, t: nat)
    requires RootBits(st, t, 1)
    ensures st * st == t * UNIT * UNIT <==> IsSquare(t)
  {
    if st * st == t * UNIT * UNIT {
      PowerIsUnit();
      RootOfScaled(st, t, 64);
    }
    if IsSquare(t) {
      var r: nat :| r * r == t;
      var x := r * UNIT;
      assert x * x == (r * r) * UNIT * UNIT;
      SameRoot(st, x);
    }
  }

  lemma SameRoot(st: nat, x: nat)
    requires st * st <= x * x < (st + 1) * (st + 1)
    ensures st == x
  {
    SquareOrder(st + 1, x);
    SquareOfSum(x, 1);
    SquareOrder(x + 1, st);
  }

  /** With truncated roots and turnout within the electorate, a proposal passes without a strict
      majority if and only if everybody voted, exactly half of them aye, and the number of votes is
      no square. */
  lemma PassesWithoutMajorityExactly(e: nat, t: nat, a: nat, se: nat, st: nat)
    requires 0 < t <= e && t < UNIT && TruncatedRoot(se, e) && TruncatedRoot(st, t)
    ensures PassesFixed(a, se, st) && 2 * a <= t <==> e == t && 2 * a == t && !IsSquare(t)
  {
    hide IsSquare, PassesFixed, TruncatedRoot;
    TruncatedExactly(se, e);
    TruncatedExactly(st, t);
    RootsInOrder(e, t, se, st);
    RootAtLeast(st, t, 1);
    ExactRootExactly(st, t);
    if PassesFixed(a, se, st) && 2 * a <= t {
      RoundedRuleNeedsHalf(t, a, se, st, 1);
      if t < e {
        RoundedRuleNeedsMajority(e, t, a, se, st, 1);
      }
    }
    if e == t && 2 * a == t {
      RootsInOrder(t, e, st, se);
      HalfPassesExactly(t, a, st);
    }
  }

  /** And exactly half can be enough: with both votes of an electorate of two cast, one aye
      passes, as the truncated root of two is below the exact one. */
  lemma ExactlyHalfPasses()
    ensures var root := 26087635650665564424;
            RootBits(root, 2, 1) && PassesFixed(1, root, root)
  {
    var root := 26087635650665564424;
    DivModUnique(root * UNIT, root, UNIT, 0);
    assert root * UNIT / root == UNIT;
  }
}
