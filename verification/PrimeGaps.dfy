/**
 A group never exceeds twice the largest prime below its size, for all group sizes the
 assignment supports. Shown with a chain of primes, each at most twice the one before;
 their primality follows from one modular square root of -1 of high order (Proth).
 */
module PrimeGaps {
  import opened Primitives
  import opened Arithmetic
  import opened Primes
  import opened Assignment

  function Pow(b: int, i: nat): int {
    if i == 0 then 1 else Pow(b, i - 1) * b
  }

  function Two(n: nat): nat {
    if n == 0 then 1 else 2 * Two(n - 1)
  }

  lemma {:induction false} PowAdd(b: int, i: nat, j: nat)
    ensures Pow(b, i + j) == Pow(b, i) * Pow(b, j)
  {
    if j > 0 {
      PowAdd(b, i, j - 1);
      Associate(Pow(b, i), Pow(b, j - 1), b);
    }
  }

  lemma Associate(x: int, y: int, z: int)
    ensures x * y * z == x * (y * z)
  {
  }

  lemma {:induction false} PowPow(b: int, i: nat, j: nat)
    ensures i * j >= 0 && Pow(Pow(b, i), j) == Pow(b, i * j)
  {
    if j > 0 {
      PowPow(b, i, j - 1);
      Distribute(i, j, 1);
      PowAdd(b, i * (j - 1), i);
    }
  }

  lemma {:induction false} CongruentPow(x: int, y: int, j: nat, q: int)
    requires Congruent(x, y, q)
    ensures Congruent(Pow(x, j), Pow(y, j), q)
  {
    if j == 0 {
      CongruentRefl(1, q);
    } else {
      CongruentPow(x, y, j - 1, q);
      CongruentTimes(Pow(x, j - 1), Pow(y, j - 1), x, y, q);
    }
  }

  lemma CongruentTimes(x: int, y: int, u: int, v: int, q: int)
    requires Congruent(x, y, q) && Congruent(u, v, q)
    ensures Congruent(x * u, y * v, q)
  {
    CongruentScale(x, y, u, q);
    CongruentScale(u, v, y, q);
    assert u * y == y * u && v * y == y * v;
    CongruentTrans(x * u, y * u, y * v, q);
  }

  lemma {:induction false} PowOne(j: nat)
    ensures Pow(1, j) == 1
  {
    if j > 0 {
      PowOne(j - 1);
    }
  }

  lemma {:induction false} PowMinusOne(j: nat)
    ensures Pow(-1, j) == if j % 2 == 0 then 1 else -1
  {
    if j > 0 {
      PowMinusOne(j - 1);
    }
  }

  lemma OneIsNotMinusOne(q: int)
    requires q > 2
    ensures !Congruent(1, -1, q) && !Congruent(-1, 1, q) && !Congruent(1, 0, q)
  {
    if Congruent(-1, 1, q) {
      CongruentSymm(-1, 1, q);
    }
    if Congruent(1, -1, q) {
      CongruentShift(1, -1, 1, q);
      SmallCongruentEqual(2, 0, q);
    }
    if Congruent(1, 0, q) {
      SmallCongruentEqual(1, 0, q);
    }
  }

  // b is a 2^(n-1)-th root of -1.
  ghost predicate Root(b: int, n: nat, q: int) {
    n >= 1 && Congruent(Pow(b, Two(n - 1)), -1, q)
  }

  lemma HalveRoot(b: int, n: nat, q: int)
    requires Root(b, n, q) && n >= 2
    ensures Root(Pow(b, 2), n - 1, q)
  {
    hide Congruent, Pow;
    PowPow(b, 2, Two(n - 2));
    assert Two(n - 1) == 2 * Two(n - 2);
  }

  // No power of b below 2^n is 1.
  lemma {:induction false} NoEarlyReturn(b: int, n: nat, q: int, d: nat)
    requires q > 2 && Root(b, n, q) && 0 < d < Two(n)
    ensures !Congruent(Pow(b, d), 1, q)
    decreases n
  {
    hide Congruent, Pow, Root;
    if d % 2 == 1 {
      OddReturn(b, n, q, d);
    } else {
      var e := d / 2;
      RootExponent(b, n, q);
      assert d == 2 * e && Two(n) == 2 * Two(n - 1) && n >= 2;
      HalveRoot(b, n, q);
      NoEarlyReturn(Pow(b, 2), n - 1, q, e);
      PowPow(b, 2, e);
    }
  }

  lemma RootExponent(b: int, n: nat, q: int)
    requires Root(b, n, q)
    ensures n >= 1
  {
  }

  lemma OddReturn(b: int, n: nat, q: int, d: nat)
    requires q > 2 && Root(b, n, q) && d % 2 == 1
    ensures !Congruent(Pow(b, d), 1, q)
  {
    hide Congruent, Pow;
    if Congruent(Pow(b, d), 1, q) {
      var h := Two(n - 1);
      CongruentPow(Pow(b, d), 1, h, q);
      CongruentPow(Pow(b, h), -1, d, q);
      PowPow(b, d, h);
      PowPow(b, h, d);
      assert d * h == h * d;
      PowOne(h);
      PowMinusOne(d);
      CongruentSymm(Pow(b, d * h), 1, q);
      CongruentTrans(1, Pow(b, d * h), -1, q);
      OneIsNotMinusOne(q);
    }
  }

  lemma FullTurn(b: int, n: nat, q: int)
    requires Root(b, n, q)
    ensures Congruent(Pow(b, Two(n)), 1, q)
  {
    hide Congruent;
    var h := Two(n - 1);
    PowAdd(b, h, h);
    CongruentTimes(Pow(b, h), -1, Pow(b, h), -1, q);
  }

  // The powers below 2^n are pairwise incongruent, and none is 0.
  lemma PowersApart(b: int, n: nat, q: int, i: nat, j: nat)
    requires q > 2 && Root(b, n, q) && i < j < Two(n)
    ensures !Congruent(Pow(b, i), Pow(b, j), q)
  {
    hide Congruent, Pow;
    if Congruent(Pow(b, i), Pow(b, j), q) {
      var h, rest := Two(n), Two(n) - i;
      FullTurn(b, n, q);
      CongruentScale(Pow(b, i), Pow(b, j), Pow(b, rest), q);
      PowAdd(b, i, rest);
      PowAdd(b, j, rest);
      PowAdd(b, h, j - i);
      assert j + rest == h + (j - i);
      CongruentScale(Pow(b, h), 1, Pow(b, j - i), q);
      // 1 == b^h == b^j * b^rest == b^h * b^(j-i) == b^(j-i)
      CongruentSymm(Pow(b, h), 1, q);
      CongruentTrans(1, Pow(b, h), Pow(b, h) * Pow(b, j - i), q);
      CongruentTrans(1, Pow(b, h) * Pow(b, j - i), Pow(b, j - i), q);
      CongruentSymm(1, Pow(b, j - i), q);
      NoEarlyReturn(b, n, q, j - i);
    }
  }

  lemma PowersNonzero(b: int, n: nat, q: int, i: nat)
    requires q > 2 && Root(b, n, q) && i < Two(n)
    ensures !Congruent(Pow(b, i), 0, q)
  {
    hide Congruent, Pow, Root, Two;
    if Congruent(Pow(b, i), 0, q) {
      var rest := Two(n) - i;
      FullTurn(b, n, q);
      CongruentScale(Pow(b, i), 0, Pow(b, rest), q);
      PowAdd(b, i, rest);
      CongruentSymm(Pow(b, Two(n)), 1, q);
      CongruentTrans(1, Pow(b, Two(n)), 0, q);
      OneIsNotMinusOne(q);
    }
  }

  function Rem(x: int, q: int): nat
    requires q > 0
  {
    x % q
  }

  ghost function Residues(b: int, q: int, m: nat): set<nat>
    requires q > 0
  {
    set i: nat | 0 <= i < m :: Rem(Pow(b, i), q)
  }

  lemma {:induction false} ResiduesCount(b: int, n: nat, q: int, m: nat)
    requires q > 2 && Root(b, n, q) && m <= Two(n)
    ensures |Residues(b, q, m)| == m
    ensures forall r :: r in Residues(b, q, m) ==> 0 < r < q
  {
    hide Congruent, Root, Pow;
    if m > 0 {
      ResiduesCount(b, n, q, m - 1);
      var last := Rem(Pow(b, m - 1), q);
      forall i: nat | i < m - 1 ensures Rem(Pow(b, i), q) != last {
        PowersApart(b, n, q, i, m - 1);
        CongruentMod(Pow(b, i), Pow(b, m - 1), q);
      }
      assert Residues(b, q, m) == Residues(b, q, m - 1) + {last};
      PowersNonzero(b, n, q, m - 1);
      CongruentMod(Pow(b, m - 1), 0, q);
      DivModUnique(0, q, 0, 0);
      DivIdentity(Pow(b, m - 1), q);
    }
  }

  lemma {:induction false} SetBound(s: set<nat>, q: nat)
    requires forall r :: r in s ==> 0 < r <= q
    ensures |s| <= q
  {
    if q == 0 {
      assert s == {};
    } else {
      SetBound(s - {q}, q - 1);
    }
  }

  // A modulus with such a root has no small divisor.
  lemma LargeDivisor(b: int, n: nat, m: nat, q: nat)
    requires Root(b, n, m) && m % 2 == 1 && q >= 2 && Divides(q, m)
    ensures q > Two(n)
  {
    var k: nat :| Factors(m, q, k);
    assert q != 2;
    Descend(Pow(b, Two(n - 1)), -1, m, q, k);
    ResiduesCount(b, n, q, Two(n));
    SetBound(Residues(b, q, Two(n)), q - 1);
  }

  lemma Descend(x: int, y: int, m: nat, q: nat, k: nat)
    requires Congruent(x, y, m) && m == q * k
    ensures Congruent(x, y, q)
  {
    var j :| Apart(x, y, m, j);
    assert m * j == q * (k * j);
    assert Apart(x, y, q, k * j);
  }

  // Squares n times modulo m.
  function SquareMod(b: nat, n: nat, m: nat): nat
    requires m > 0
    decreases n
  {
    if n == 0 then b else SquareMod(b * b % m, n - 1, m)
  }

  lemma {:induction false} SquareModPow(b: nat, n: nat, m: nat)
    requires m > 0
    ensures Congruent(SquareMod(b, n, m), Pow(b, Two(n)), m)
    decreases n
  {
    if n == 0 {
      CongruentRefl(b, m);
      assert Pow(b, 1) == b;
    } else {
      SquareModPow(b * b % m, n - 1, m);
      CongruentToMod(b * b, m);
      CongruentSymm(b * b, b * b % m, m);
      CongruentPow(b * b % m, b * b, Two(n - 1), m);
      assert Pow(b, 2) == b * b by { assert Pow(b, 1) == b; }
      PowPow(b, 2, Two(n - 1));
      CongruentTrans(SquareMod(b, n, m), Pow(b * b % m, Two(n - 1)), Pow(b, Two(n)), m);
    }
  }

  /** A number below (2^n + 1)^2 modulo which n - 1 squarings lead to -1 is prime. */
  lemma ProthPrime(m: nat, b: nat, n: nat, h: nat)
    requires m >= 3 && m % 2 == 1 && n >= 1 && Two(n) == h && m < (h + 1) * (h + 1)
    requires SquareMod(b, n - 1, m) == m - 1
    ensures Prime(m)
  {
    hide Congruent, SquareMod, Pow;
    SquareModPow(b, n - 1, m);
    CongruentSymm(m - 1, Pow(b, Two(n - 1)), m);
    CongruentMultiple(-1, 1, m);
    assert -1 + m * 1 == m - 1;
    CongruentTrans(Pow(b, Two(n - 1)), m - 1, -1, m);
    if !Prime(m) {
      var d :| 2 <= d < m && Divides(d, m);
      var e: nat :| Factors(m, d, e);
      SmallFactor(d, e, m);
      assert Factors(m, e, d);
      LargeDivisor(b, n, m, d);
      LargeDivisor(b, n, m, e);
      ProductMonotone(h + 1, h + 1, d, e);
    }
  }

  lemma Near(count: nat, p: nat)
    requires Prime(p) && p <= count <= 2 * p
    ensures count <= 2 * LargestPrime(count)
  {
    LargestPrimeIsLargest(count);
  }

  // ---------- the chain ----------

  lemma PowersOfTwo()
    ensures Two(2) == 4 && Two(3) == 8 && Two(4) == 16 && Two(5) == 32 && Two(6) == 64
    ensures Two(7) == 128 && Two(8) == 256 && Two(9) == 512 && Two(10) == 1024 && Two(11) == 2048
    ensures Two(12) == 4096 && Two(13) == 8192 && Two(14) == 16384 && Two(15) == 32768 && Two(16) == 65536
  {
    assert Two(8) == 256;
    assert Two(12) == 4096;
  }

  lemma NoSquaring(x: nat, m: nat)
    requires m > 0
    ensures SquareMod(x, 0, m) == x
  {
  }

  lemma Squared(x: nat, y: nat, n: nat, m: nat)
    requires m > 0 && x * x % m == y
    ensures SquareMod(x, n + 1, m) == SquareMod(y, n, m)
  {
  }

  lemma SquaredThrice(x: nat, y: nat, z: nat, w: nat, n: nat, m: nat)
    requires m > 0 && x * x % m == y && y * y % m == z && z * z % m == w
    ensures SquareMod(x, n + 3, m) == SquareMod(w, n, m)
  {
    assert SquareMod(x, n + 3, m) == SquareMod(y, n + 2, m) == SquareMod(z, n + 1, m);
  }

  lemma Prime7And31()
    ensures Prime(7) && Prime(31)
  {
    hide Divides;
    DividesMod(2, 7);
    NoSmallDivisor(7, 3);
    DividesMod(2, 31);
    DividesMod(3, 31);
    DividesMod(4, 31);
    DividesMod(5, 31);
    NoSmallDivisor(31, 6);
  }

  lemma Primes5To673()
    ensures Prime(5) && Prime(13) && Prime(17) && Prime(41) && Prime(73)
    ensures Prime(113) && Prime(193) && Prime(353) && Prime(673)
  {
    hide *;
    PowersOfTwo();
    Squared(2, 4, 0, 5);
    NoSquaring(4, 5);
    ProthPrime(5, 2, 2, 4);
    Squared(8, 12, 0, 13);
    NoSquaring(12, 13);
    ProthPrime(13, 8, 2, 4);
    Squared(13, 16, 0, 17);
    NoSquaring(16, 17);
    ProthPrime(17, 13, 2, 4);
    Squared(38, 9, 1, 41);
    Squared(9, 40, 0, 41);
    NoSquaring(40, 41);
    ProthPrime(41, 38, 3, 8);
    Squared(10, 27, 1, 73);
    Squared(27, 72, 0, 73);
    NoSquaring(72, 73);
    ProthPrime(73, 10, 3, 8);
    SquaredThrice(40, 18, 98, 112, 0, 113);
    NoSquaring(112, 113);
    ProthPrime(113, 40, 4, 16);
    SquaredThrice(64, 43, 112, 192, 0, 193);
    NoSquaring(192, 193);
    ProthPrime(193, 64, 4, 16);
    SquaredThrice(294, 304, 283, 311, 1, 353);
    Squared(311, 352, 0, 353);
    NoSquaring(352, 353);
    ProthPrime(353, 294, 5, 32);
    SquaredThrice(118, 464, 609, 58, 1, 673);
    Squared(58, 672, 0, 673);
    NoSquaring(672, 673);
    ProthPrime(673, 118, 5, 32);
  }

  lemma Primes1217To46337()
    ensures Prime(1217) && Prime(2113) && Prime(3457) && Prime(6529) && Prime(12289)
    ensures Prime(23297) && Prime(46337)
  {
    hide *;
    PowersOfTwo();
    SquaredThrice(910, 540, 737, 387, 2, 1217);
    Squared(387, 78, 1, 1217);
    Squared(78, 1216, 0, 1217);
    NoSquaring(1216, 1217);
    ProthPrime(1217, 910, 6, 64);
    SquaredThrice(1036, 2005, 1099, 1278, 2, 2113);
    Squared(1278, 2048, 1, 2113);
    Squared(2048, 2112, 0, 2113);
    NoSquaring(2112, 2113);
    ProthPrime(2113, 1036, 6, 64);
    SquaredThrice(1130, 1267, 1241, 1716, 2, 3457);
    Squared(1716, 2749, 1, 3457);
    Squared(2749, 3456, 0, 3457);
    NoSquaring(3456, 3457);
    ProthPrime(3457, 1130, 6, 64);
    SquaredThrice(2338, 1471, 2742, 3685, 3, 6529);
    SquaredThrice(3685, 5434, 4218, 6528, 0, 6529);
    NoSquaring(6528, 6529);
    ProthPrime(6529, 2338, 7, 128);
    SquaredThrice(12149, 7311, 5860, 4134, 3, 12289);
    SquaredThrice(4134, 8246, 1479, 12288, 0, 12289);
    NoSquaring(12288, 12289);
    ProthPrime(12289, 12149, 7, 128);
    SquaredThrice(1378, 11827, 2741, 11447, 4, 23297);
    SquaredThrice(11447, 11481, 22232, 15969, 1, 23297);
    Squared(15969, 23296, 0, 23297);
    NoSquaring(23296, 23297);
    ProthPrime(23297, 1378, 8, 256);
    SquaredThrice(28151, 23427, 8901, 37868, 4, 46337);
    SquaredThrice(37868, 40622, 39977, 43736, 1, 46337);
    Squared(43736, 46336, 0, 46337);
    NoSquaring(46336, 46337);
    ProthPrime(46337, 28151, 8, 256);
  }

  lemma Primes87553To1312769()
    ensures Prime(87553) && Prime(170497) && Prime(331777) && Prime(658433) && Prime(1312769)
  {
    hide *;
    PowersOfTwo();
    SquaredThrice(83133, 12081, 87263, 84100, 5, 87553);
    SquaredThrice(84100, 16001, 27029, 24609, 2, 87553);
    Squared(24609, 86333, 1, 87553);
    Squared(86333, 87552, 0, 87553);
    NoSquaring(87552, 87553);
    ProthPrime(87553, 83133, 9, 512);
    SquaredThrice(26181, 46821, 126112, 105887, 5, 170497);
    SquaredThrice(105887, 3552, 170423, 5476, 2, 170497);
    Squared(5476, 149601, 1, 170497);
    Squared(149601, 170496, 0, 170497);
    NoSquaring(170496, 170497);
    ProthPrime(170497, 26181, 9, 512);
    SquaredThrice(320527, 155463, 117027, 227723, 6, 331777);
    SquaredThrice(227723, 24298, 161521, 80823, 3, 331777);
    SquaredThrice(80823, 331753, 576, 331776, 0, 331777);
    NoSquaring(331776, 331777);
    ProthPrime(331777, 320527, 10, 1024);
    SquaredThrice(408364, 489019, 8926, 3083, 6, 658433);
    SquaredThrice(3083, 286827, 499878, 57652, 3, 658433);
    SquaredThrice(57652, 641753, 363674, 658432, 0, 658433);
    NoSquaring(658432, 658433);
    ProthPrime(658433, 408364, 10, 1024);
    SquaredThrice(9157, 1146202, 505443, 1215004, 7, 1312769);
    SquaredThrice(1215004, 1036905, 1040335, 263403, 4, 1312769);
    SquaredThrice(263403, 1298759, 677519, 1310207, 1, 1312769);
    Squared(1310207, 1312768, 0, 1312769);
    NoSquaring(1312768, 1312769);
    ProthPrime(1312769, 9157, 11, 2048);
  }

  lemma Primes2598913To41132033()
    ensures Prime(2598913) && Prime(5189633) && Prime(10362881) && Prime(20717569) && Prime(41132033)
  {
    hide *;
    PowersOfTwo();
    SquaredThrice(2341857, 424111, 1970504, 837670, 7, 2598913);
    SquaredThrice(837670, 112378, 696617, 1011503, 4, 2598913);
    SquaredThrice(1011503, 848082, 1702713, 1168654, 1, 2598913);
    Squared(1168654, 2598912, 0, 2598913);
    NoSquaring(2598912, 2598913);
    ProthPrime(2598913, 2341857, 11, 2048);
    SquaredThrice(730799, 2046371, 40382, 1161162, 8, 5189633);
    SquaredThrice(1161162, 4588679, 4339279, 4411261, 5, 5189633);
    SquaredThrice(4411261, 4455432, 3928691, 916989, 2, 5189633);
    Squared(916989, 2970397, 1, 5189633);
    Squared(2970397, 5189632, 0, 5189633);
    NoSquaring(5189632, 5189633);
    ProthPrime(5189633, 730799, 12, 4096);
    SquaredThrice(5707449, 3791533, 2354697, 660045, 8, 10362881);
    SquaredThrice(660045, 3884785, 7992877, 9474634, 5, 10362881);
    SquaredThrice(9474634, 4788074, 6436391, 9689636, 2, 10362881);
    Squared(9689636, 7140847, 1, 10362881);
    Squared(7140847, 10362880, 0, 10362881);
    NoSquaring(10362880, 10362881);
    ProthPrime(10362881, 5707449, 12, 4096);
    SquaredThrice(5404540, 15040708, 12859458, 13182388, 9, 20717569);
    SquaredThrice(13182388, 10185119, 10463603, 1426980, 6, 20717569);
    SquaredThrice(1426980, 4216097, 6887099, 4242785, 3, 20717569);
    SquaredThrice(4242785, 18898091, 19124405, 20717568, 0, 20717569);
    NoSquaring(20717568, 20717569);
    ProthPrime(20717569, 5404540, 13, 8192);
    SquaredThrice(23616129, 15019774, 40178616, 27178622, 9, 41132033);
    SquaredThrice(27178622, 22970081, 12748289, 40239571, 6, 41132033);
    SquaredThrice(40239571, 7734432, 37868249, 35488415, 3, 41132033);
    SquaredThrice(35488415, 40036539, 38909228, 41132032, 0, 41132033);
    NoSquaring(41132032, 41132033);
    ProthPrime(41132033, 23616129, 13, 8192);
  }

  lemma Primes82149377To328531969()
    ensures Prime(82149377) && Prime(164282369) && Prime(328531969)
  {
    hide *;
    PowersOfTwo();
    SquaredThrice(36039686, 14044839, 7736636, 21825510, 10, 82149377);
    SquaredThrice(21825510, 30599114, 38289796, 47315396, 7, 82149377);
    SquaredThrice(47315396, 47122528, 71315559, 32873358, 4, 82149377);
    SquaredThrice(32873358, 27429088, 67929369, 71918366, 1, 82149377);
    Squared(71918366, 82149376, 0, 82149377);
    NoSquaring(82149376, 82149377);
    ProthPrime(82149377, 36039686, 14, 16384);
    SquaredThrice(141623696, 38239760, 71282541, 41451868, 10, 164282369);
    SquaredThrice(41451868, 135315694, 3664981, 30676183, 7, 164282369);
    SquaredThrice(30676183, 65627423, 145174622, 94361708, 4, 164282369);
    SquaredThrice(94361708, 101721641, 92741681, 30320968, 1, 164282369);
    Squared(30320968, 164282368, 0, 164282369);
    NoSquaring(164282368, 164282369);
    ProthPrime(164282369, 141623696, 14, 16384);
    SquaredThrice(264281874, 211182659, 215746888, 179585808, 11, 328531969);
    SquaredThrice(179585808, 241923940, 102944223, 160478123, 8, 328531969);
    SquaredThrice(160478123, 164460022, 115773948, 97707770, 5, 328531969);
    SquaredThrice(97707770, 130925683, 189081232, 46043292, 2, 328531969);
    Squared(46043292, 138373226, 1, 328531969);
    Squared(138373226, 328531968, 0, 328531969);
    NoSquaring(328531968, 328531969);
    ProthPrime(328531969, 264281874, 15, 32768);
  }

  lemma Primes657063937To2626486273()
    ensures Prime(657063937) && Prime(1314127873) && Prime(2626486273)
  {
    hide *;
    PowersOfTwo();
    SquaredThrice(394392801, 118193541, 297581837, 616150740, 11, 657063937);
    SquaredThrice(616150740, 254399136, 491778442, 214486504, 8, 657063937);
    SquaredThrice(214486504, 64555364, 511010783, 243205235, 5, 657063937);
    SquaredThrice(243205235, 452342704, 100395446, 427211828, 2, 657063937);
    Squared(427211828, 20712339, 1, 657063937);
    Squared(20712339, 657063936, 0, 657063937);
    NoSquaring(657063936, 657063937);
    ProthPrime(657063937, 394392801, 15, 32768);
    SquaredThrice(1062651848, 253013757, 1227200091, 323869209, 12, 1314127873);
    SquaredThrice(323869209, 967223493, 1174175512, 38561443, 9, 1314127873);
    SquaredThrice(38561443, 575211448, 897171780, 797273774, 6, 1314127873);
    SquaredThrice(797273774, 1099254717, 410753065, 570665842, 3, 1314127873);
    SquaredThrice(570665842, 360720046, 710755123, 1314127872, 0, 1314127873);
    NoSquaring(1314127872, 1314127873);
    ProthPrime(1314127873, 1062651848, 16, 65536);
    SquaredThrice(454674194, 2463169401, 1833800612, 1247618416, 12, 2626486273);
    SquaredThrice(1247618416, 1018996366, 2597589020, 1944226027, 9, 2626486273);
    SquaredThrice(1944226027, 407124151, 618373759, 990149136, 6, 2626486273);
    SquaredThrice(990149136, 1437765883, 270987238, 1115857810, 3, 2626486273);
    SquaredThrice(1115857810, 24478432, 187287769, 2626486272, 0, 2626486273);
    NoSquaring(2626486272, 2626486273);
    ProthPrime(2626486273, 454674194, 16, 65536);
  }

  lemma TwicePrimeSmall(count: nat)
    requires 2 <= count <= 6914
    ensures count <= 2 * LargestPrime(count)
  {
    hide *;
    SmallPrimes(2);
    SmallPrimes(3);
    Prime7And31();
    Primes5To673();
    Primes1217To46337();
    if 2 <= count <= 4 { Near(count, 2); }
    if 3 <= count <= 6 { Near(count, 3); }
    if 5 <= count <= 10 { Near(count, 5); }
    if 7 <= count <= 14 { Near(count, 7); }
    if 13 <= count <= 26 { Near(count, 13); }
    if 17 <= count <= 34 { Near(count, 17); }
    if 31 <= count <= 62 { Near(count, 31); }
    if 41 <= count <= 82 { Near(count, 41); }
    if 73 <= count <= 146 { Near(count, 73); }
    if 113 <= count <= 226 { Near(count, 113); }
    if 193 <= count <= 386 { Near(count, 193); }
    if 353 <= count <= 706 { Near(count, 353); }
    if 673 <= count <= 1346 { Near(count, 673); }
    if 1217 <= count <= 2434 { Near(count, 1217); }
    if 2113 <= count <= 4226 { Near(count, 2113); }
    if 3457 <= count <= 6914 { Near(count, 3457); }
  }

  lemma TwicePrimeMedium(count: nat)
    requires 3457 <= count <= 1316866
    ensures count <= 2 * LargestPrime(count)
  {
    hide *;
    Primes1217To46337();
    Primes87553To1312769();
    if 3457 <= count <= 6914 { Near(count, 3457); }
    if 6529 <= count <= 13058 { Near(count, 6529); }
    if 12289 <= count <= 24578 { Near(count, 12289); }
    if 23297 <= count <= 46594 { Near(count, 23297); }
    if 46337 <= count <= 92674 { Near(count, 46337); }
    if 87553 <= count <= 175106 { Near(count, 87553); }
    if 170497 <= count <= 340994 { Near(count, 170497); }
    if 331777 <= count <= 663554 { Near(count, 331777); }
    if 658433 <= count <= 1316866 { Near(count, 658433); }
  }

  lemma TwicePrimeLarge(count: nat)
    requires 658433 <= count <= 3_037_000_499
    ensures count <= 2 * LargestPrime(count)
  {
    hide *;
    Primes87553To1312769();
    Primes2598913To41132033();
    Primes82149377To328531969();
    Primes657063937To2626486273();
    if 658433 <= count <= 1316866 { Near(count, 658433); }
    if 1312769 <= count <= 2625538 { Near(count, 1312769); }
    if 2598913 <= count <= 5197826 { Near(count, 2598913); }
    if 5189633 <= count <= 10379266 { Near(count, 5189633); }
    if 10362881 <= count <= 20725762 { Near(count, 10362881); }
    if 20717569 <= count <= 41435138 { Near(count, 20717569); }
    if 41132033 <= count <= 82264066 { Near(count, 41132033); }
    if 82149377 <= count <= 164298754 { Near(count, 82149377); }
    if 164282369 <= count <= 328564738 { Near(count, 164282369); }
    if 328531969 <= count <= 657063938 { Near(count, 328531969); }
    if 657063937 <= count <= 1314127874 { Near(count, 657063937); }
    if 1314127873 <= count <= 2628255746 { Near(count, 1314127873); }
    if 2626486273 <= count <= 5252972546 { Near(count, 2626486273); }
  }

  /** A group the assignment supports is at most twice the largest prime not above its size. */
  lemma TwicePrime(count: nat)
    requires count <= GROUP_MAX
    ensures count <= 2 * LargestPrime(count)
  {
    if count < 2 {
      SmallBound(count);
    } else if count <= 6914 {
      TwicePrimeSmall(count);
    } else if count <= 1316866 {
      TwicePrimeMedium(count);
    } else {
      TwicePrimeLarge(count);
    }
  }
}
