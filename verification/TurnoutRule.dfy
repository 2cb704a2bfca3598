/**
 The adaptive quorum rule in exact arithmetic: with electorate e, turnout t and ayes a, the
 coded threshold a > sqrt(e) * sqrt(t) / (sqrt(e) / sqrt(t) + 1).
 */
module TurnoutRule {

  // The threshold as the source computes it from the two square roots.
  ghost predicate AboveThreshold(se: real, st: real, a: real)
    requires se >= 0.0 && st > 0.0
  {
    a > se * st / (se / st + 1.0)
  }

  // nays / sqrt(t) < ayes / sqrt(e), squared and cleared of roots.
  predicate Approves(e: nat, t: nat, a: nat) {
    (t - a) * (t - a) * e < a * a * t
  }

  lemma ThresholdIsFraction(se: real, st: real)
    requires se >= 0.0 && st > 0.0
    ensures (se / st + 1.0) > 0.0 && se * st / (se / st + 1.0) == se * (st * st) / (se + st)
  {
    var q := se / st;
    assert q * st == se;
    assert q >= 0.0;
    var x := se * st / (q + 1.0);
    assert x * (q + 1.0) == se * st;
    assert x * (se + st) == (x * (q + 1.0)) * st by {
      assert (q + 1.0) * st == se + st;
    }
    assert x * (se + st) == se * (st * st);
  }

  lemma FractionBelow(n: real, d: real, a: real)
    requires d > 0.0
    ensures a > n / d <==> a * d > n
  {
    var x := n / d;
    assert x * d == n;
    if a > x {
      assert (a - x) * d > 0.0;
    } else {
      assert (x - a) * d >= 0.0;
    }
  }

  lemma Positive(x: real, y: real)
    requires x > 0.0 && y > 0.0
    ensures x * y > 0.0
  {
  }

  lemma SquareOrder(x: real, y: real)
    requires x >= 0.0 && y >= 0.0
    ensures x < y <==> x * x < y * y
  {
    if x < y {
      assert y * y - x * x == (y - x) * (y + x);
      Positive(y - x, y + x);
    } else {
      assert x * x - y * y == (x - y) * (x + y);
      assert (x - y) * (x + y) >= 0.0;
    }
  }

  lemma SquareOfProduct(x: real, y: real)
    ensures (x * y) * (x * y) == (x * x) * (y * y)
  {
  }

  lemma ThresholdCleared(se: real, st: real, tr: real, ar: real)
    requires se >= 0.0 && st > 0.0 && st * st == tr
    ensures AboveThreshold(se, st, ar) <==> ar * (se + st) > se * tr
  {
    ThresholdIsFraction(se, st);
    FractionBelow(se * (st * st), se + st, ar);
  }

  /** The coded threshold is the root-free rule, for any exact square roots. */
  lemma ThresholdIsRule(e: nat, t: nat, a: nat, se: real, st: real)
    requires a <= t && t > 0
    requires se >= 0.0 && st > 0.0 && se * se == e as real && st * st == t as real
    ensures AboveThreshold(se, st, a as real) <==> Approves(e, t, a)
  {
    var ar, tr, nr := a as real, t as real, (t - a) as real;
    ThresholdCleared(se, st, tr, ar);
    ClearCommonPart(se, st, ar, nr);
    assert tr == ar + nr;
    assert se * nr >= 0.0 && ar * st >= 0.0;
    SquareOrder(se * nr, ar * st);
    SquareOfProduct(se, nr);
    SquareOfProduct(ar, st);
    RealsAgree(e, t, a);
  }

  lemma ClearCommonPart(se: real, st: real, ar: real, nr: real)
    ensures ar * (se + st) > se * (ar + nr) <==> se * nr < ar * st
  {
    assert ar * (se + st) == se * ar + ar * st;
    assert se * (ar + nr) == se * ar + se * nr;
  }

  lemma RealsAgree(e: nat, t: nat, a: nat)
    requires a <= t
    ensures ((e as real) * (((t - a) as real) * ((t - a) as real)) < ((a as real) * (a as real)) * (t as real)) <==>
            Approves(e, t, a)
  {
    var n := t - a;
    IntProduct(n, n);
    IntProduct(n * n, e);
    IntProduct(a, a);
    IntProduct(a * a, t);
  }

  lemma IntProduct(x: int, y: int)
    ensures (x as real) * (y as real) == (x * y) as real
  {
  }

  // ---------- consequences ----------

  lemma MulOrder(x: nat, y: nat, u: nat, v: nat)
    requires x <= y && u <= v
    ensures x * u <= y * v
  {
    assert y * v - x * u == y * (v - u) + (y - x) * u;
  }

  /** More ayes never turn an approval into a rejection, nor does a smaller electorate. */
  lemma RuleMonotone(e: nat, e': nat, t: nat, a: nat, a': nat)
    requires a <= a' <= t && e' <= e && Approves(e, t, a)
    ensures Approves(e', t, a')
  {
    var n, n' := t - a, t - a';
    MulOrder(n', n, n', n);
    MulOrder(n' * n', n * n, e', e);
    MulOrder(a, a', a, a');
    MulOrder(a * a, a' * a', t, t);
  }

  /** With a turnout no larger than the electorate, approval means a strict majority. */
  lemma RuleNeedsMajority(e: nat, t: nat, a: nat)
    requires a <= t <= e && Approves(e, t, a)
    ensures 2 * a > t
  {
    var n := t - a;
    if a <= n {
      MulOrder(a, n, a, n);
      MulOrder(a * a, n * n, t, e);
    }
  }

  /** At full turnout the rule is exactly the simple majority. */
  lemma FullTurnoutIsMajority(e: nat, a: nat)
    requires a <= e && e > 0
    ensures Approves(e, e, a) <==> 2 * a > e
  {
    var n := e - a;
    if 2 * a > e {
      assert a * a - n * n == (a - n) * (a + n);
      assert (a - n) * (a + n) >= 1 * 1 by { MulOrder(1, a - n, 1, a + n); }
      assert (a * a - n * n) * e == a * a * e - n * n * e;
      MulOrder(1, a * a - n * n, 1, e);
    } else {
      MulOrder(a, n, a, n);
      MulOrder(a * a, n * n, e, e);
    }
  }
}
