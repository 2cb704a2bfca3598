/** Division and congruence facts, each proved once so that later proofs stay linear. */
module Arithmetic {

  lemma ProductMonotone(a: nat, b: nat, c: nat, d: nat)
    requires a <= c && b <= d
    ensures a * b <= c * d
  {
    assert c * d - a * b == c * (d - b) + (c - a) * b;
  }

  lemma ProductAtLeast(d: int, k: int)
    requires d > 0 && k >= 1
    ensures d * k >= d
  {
    assert d * k - d == d * (k - 1);
  }

  // Quotient and remainder are determined by the division identity.
  lemma DivModUnique(x: int, d: int, q: int, r: int)
    requires d > 0 && 0 <= r < d && x == d * q + r
    ensures x / d == q && x % d == r
  {
    var q', r' := x / d, x % d;
    assert d * q' + r' == d * q + r;
    if q' < q {
      assert d * (q - q') == r' - r by { Distribute(d, q, q'); }
      ProductAtLeast(d, q - q');
      assert false;
    } else if q < q' {
      assert d * (q' - q) == r - r' by { Distribute(d, q', q); }
      ProductAtLeast(d, q' - q);
      assert false;
    }
  }

  lemma Distribute(d: int, a: int, b: int)
    ensures d * (a - b) == d * a - d * b
    ensures d * (a + b) == d * a + d * b
  {
  }

  lemma DivIdentity(x: int, d: int)
    requires d > 0
    ensures x == d * (x / d) + x % d && 0 <= x % d < d
  {
  }

  // x and y leave the same remainder modulo d, with the witness made explicit.
  ghost predicate Congruent(x: int, y: int, d: int) {
    exists k: int :: Apart(x, y, d, k)
  }

  ghost predicate Apart(x: int, y: int, d: int, k: int) {
    x == y + d * k
  }

  lemma CongruentMod(x: int, y: int, d: int)
    requires d > 0
    ensures Congruent(x, y, d) <==> x % d == y % d
  {
    if Congruent(x, y, d) {
      var k :| Apart(x, y, d, k);
      DivIdentity(y, d);
      Distribute(d, y / d, -k);
      assert x == d * (y / d + k) + y % d by { Distribute(d, y / d, k); }
      DivModUnique(x, d, y / d + k, y % d);
    }
    if x % d == y % d {
      DivIdentity(x, d);
      DivIdentity(y, d);
      Distribute(d, x / d, y / d);
      assert Apart(x, y, d, x / d - y / d);
    }
  }

  lemma CongruentAdd(x: int, y: int, u: int, v: int, d: int)
    requires Congruent(x, y, d) && Congruent(u, v, d)
    ensures Congruent(x + u, y + v, d)
  {
    var k :| Apart(x, y, d, k);
    var l :| Apart(u, v, d, l);
    Distribute(d, k, l);
    assert Apart(x + u, y + v, d, k + l);
  }

  lemma CongruentScale(x: int, y: int, c: int, d: int)
    requires Congruent(x, y, d)
    ensures Congruent(x * c, y * c, d)
  {
    var k :| Apart(x, y, d, k);
    assert x * c == y * c + d * (k * c) by {
      assert x * c == (y + d * k) * c;
      assert (d * k) * c == d * (k * c);
    }
    assert Apart(x * c, y * c, d, k * c);
  }

  lemma CongruentShift(x: int, y: int, c: int, d: int)
    ensures Congruent(x + c, y + c, d) <==> Congruent(x, y, d)
  {
    if Congruent(x, y, d) {
      var k :| Apart(x, y, d, k);
      assert Apart(x + c, y + c, d, k);
    }
    if Congruent(x + c, y + c, d) {
      var k :| Apart(x + c, y + c, d, k);
      assert Apart(x, y, d, k);
    }
  }

  lemma CongruentRefl(x: int, d: int)
    ensures Congruent(x, x, d)
  {
    assert Apart(x, x, d, 0);
  }

  lemma CongruentSymm(x: int, y: int, d: int)
    requires Congruent(x, y, d)
    ensures Congruent(y, x, d)
  {
    var k :| Apart(x, y, d, k);
    Distribute(d, 0, k);
    assert Apart(y, x, d, -k);
  }

  lemma CongruentTrans(x: int, y: int, z: int, d: int)
    requires Congruent(x, y, d) && Congruent(y, z, d)
    ensures Congruent(x, z, d)
  {
    var k :| Apart(x, y, d, k);
    var l :| Apart(y, z, d, l);
    Distribute(d, k, l);
    assert Apart(x, z, d, k + l);
  }

  lemma CongruentToMod(x: int, d: int)
    requires d > 0
    ensures Congruent(x, x % d, d)
  {
    DivIdentity(x, d);
    assert Apart(x, x % d, d, x / d);
  }

  lemma CongruentMultiple(x: int, k: int, d: int)
    ensures Congruent(x + d * k, x, d)
  {
    assert Apart(x + d * k, x, d, k);
  }

  lemma SmallCongruentEqual(x: int, y: int, d: int)
    requires d > 0 && 0 <= x < d && 0 <= y < d && Congruent(x, y, d)
    ensures x == y
  {
    CongruentMod(x, y, d);
    DivModUnique(x, d, 0, x);
    DivModUnique(y, d, 0, y);
  }

  lemma DivMonotone(x: int, y: int, d: int)
    requires d > 0 && x <= y
    ensures x / d <= y / d
  {
    DivIdentity(x, d);
    DivIdentity(y, d);
    if x / d > y / d {
      ProductAtLeast(d, x / d - y / d);
      Distribute(d, x / d, y / d);
    }
  }
}
