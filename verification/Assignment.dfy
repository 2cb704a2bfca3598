/**
 Meetup assignment: participant p of a group goes to meetup ((p * s1 + s2) mod m) mod n,
 and the inverse enumerates the participants of one meetup through the inverse of s1 mod m.
 */
module Assignment {
  import opened Primitives
  import opened Arithmetic
  import opened Primes

  datatype Params = Params(m: nat, s1: nat, s2: nat)

  // The largest modulus whose square fits i64; beyond it the inverse skips rounds.
  const GROUP_MAX: nat := 3_037_000_499

  // What parameter generation draws: m prime, both group elements in (0, m).
  ghost predicate Usable(a: Params) {
    Prime(a.m) && a.m <= GROUP_MAX && 1 <= a.s1 < a.m && 1 <= a.s2 < a.m
  }

  // ---------- the inverse of s1 modulo m ----------

  function Euclid(g0: nat, g1: nat, x0: int, x1: int): int
    decreases g1
  {
    if g1 == 0 then x0 else Euclid(g1, g0 % g1, x1, x0 - (g0 / g1) * x1)
  }

  function Abs(x: int): nat {
    if x < 0 then -x else x
  }

  function ModInv(a: nat, m: nat): int {
    var x := Euclid(m, a, 0, 1);
    if x < 0 then x + m else x
  }

  predicate OppositeSigns(x: int, y: int) {
    (x >= 0 && y <= 0) || (x <= 0 && y >= 0)
  }

  // One row of the extended Euclidean scheme keeps the coefficient bound.
  lemma EuclidRow(g0: nat, g1: nat, x0: int, x1: int, m: nat)
    requires g1 > 0 && OppositeSigns(x0, x1)
    requires g0 * Abs(x1) + g1 * Abs(x0) == m
    ensures var x2 := x0 - (g0 / g1) * x1;
            && OppositeSigns(x1, x2)
            && Abs((g0 / g1) * x1) <= Abs(x2) == Abs(x0) + (g0 / g1) * Abs(x1)
            && g1 * Abs(x2) + (g0 % g1) * Abs(x1) == m
  {
    var q, r := g0 / g1, g0 % g1;
    DivIdentity(g0, g1);
    assert q >= 0 by { DivMonotone(0, g0, g1); DivModUnique(0, g1, 0, 0); }
    ScaleAbs(q, x1);
    assert Abs(x0 - q * x1) == Abs(x0) + q * Abs(x1);
    assert g1 * (Abs(x0) + q * Abs(x1)) == g1 * Abs(x0) + (g1 * q) * Abs(x1);
    assert g0 * Abs(x1) == (g1 * q) * Abs(x1) + r * Abs(x1);
  }

  lemma ScaleAbs(q: nat, x: int)
    ensures x >= 0 ==> q * x == q * Abs(x) && q * x >= 0
    ensures x <= 0 ==> q * x == -(q * Abs(x)) && q * x <= 0
  {
  }

  // The rows stay integer combinations of a and m.
  lemma BezoutRow(g0: nat, g1: nat, x0: int, x1: int, y0: int, y1: int, a: nat, m: nat)
    requires g1 > 0 && g0 == a * x0 + m * y0 && g1 == a * x1 + m * y1
    ensures var q := g0 / g1; g0 % g1 == a * (x0 - q * x1) + m * (y0 - q * y1)
  {
    var q := g0 / g1;
    DivIdentity(g0, g1);
    assert g1 * q == a * (q * x1) + m * (q * y1) by {
      assert g1 * q == (a * x1) * q + (m * y1) * q;
    }
    Distribute(a, x0, q * x1);
    Distribute(m, y0, q * y1);
  }

  lemma {:induction false} EuclidInverts(g0: nat, g1: nat, x0: int, x1: int, y0: int, y1: int, a: nat, m: nat)
    requires Prime(m) && g1 < g0 < m && OppositeSigns(x0, x1)
    requires g0 * Abs(x1) + g1 * Abs(x0) == m
    requires g0 == a * x0 + m * y0 && g1 == a * x1 + m * y1
    ensures var x := Euclid(g0, g1, x0, x1); Congruent(a * x, 1, m) && Abs(x) <= Max(m, Abs(x0))
    decreases g1
  {
    if g1 == 0 {
      LastRow(g0, x0, x1, y0, a, m);
    } else {
      EuclidRow(g0, g1, x0, x1, m);
      BezoutRow(g0, g1, x0, x1, y0, y1, a, m);
      CoefficientBound(g0, g1, x0, x1, m);
      DivIdentity(g0, g1);
      EuclidInverts(g1, g0 % g1, x1, x0 - (g0 / g1) * x1, y1, y0 - (g0 / g1) * y1, a, m);
    }
  }

  // The last remainder divides the prime m and is smaller, so it is 1.
  lemma LastRow(g0: nat, x0: int, x1: int, y0: int, a: nat, m: nat)
    requires Prime(m) && g0 < m && g0 * Abs(x1) == m && g0 == a * x0 + m * y0
    ensures Congruent(a * x0, 1, m)
  {
    assert Factors(m, g0, Abs(x1));
    assert Divides(g0, m);
    assert g0 == 1;
    assert Apart(a * x0, 1, m, -y0);
  }

  lemma CoefficientBound(g0: nat, g1: nat, x0: int, x1: int, m: nat)
    requires g0 > 0 && g0 * Abs(x1) + g1 * Abs(x0) == m
    ensures Abs(x1) <= m
  {
    ProductMonotone(1, Abs(x1), g0, Abs(x1));
  }

  lemma ModInvInverts(a: nat, m: nat)
    requires Prime(m) && 1 <= a < m
    ensures 0 < ModInv(a, m) < m && Congruent(a * ModInv(a, m), 1, m)
  {
    DivIdentity(m, a);
    var q := m / a;
    DivMonotone(0, m, a);
    DivModUnique(0, a, 0, 0);
    assert Abs(-q) == q;
    assert a * (-q) + m * 1 == m % a;
    EuclidInverts(a, m % a, 1, -q, 0, 1, a, m);
    var x := Euclid(m, a, 0, 1);
    assert x == Euclid(a, m % a, 1, 0 - q * 1);
    assert 0 - m <= x <= m;
    var t := ModInv(a, m);
    if x < 0 {
      Distribute(a, x, m);
      assert Apart(a * t, a * x, m, a) by { assert a * m == m * a; }
      CongruentTrans(a * t, a * x, 1, m);
    }
    NotMultiple(a, t, m);
  }

  // Neither 0 nor m can be an inverse.
  lemma NotMultiple(a: nat, t: int, m: nat)
    requires m >= 2 && Congruent(a * t, 1, m)
    ensures t != 0 && t != m
  {
    if t == 0 || t == m {
      var k := if t == 0 then 0 else a;
      assert a * t == 0 + m * k;
      assert Apart(a * t, 0, m, k);
      CongruentSymm(a * t, 0, m);
      CongruentTrans(0, a * t, 1, m);
      SmallCongruentEqual(0, 1, m);
    }
  }

  predicate FitsI64(x: int) {
    -(I64_MAX as int) - 1 <= x <= I64_MAX
  }

  /** The loop with checked 64-bit arithmetic: no intermediate value leaves the range. */
  method CheckedModInv(a: nat, m: nat) returns (inverse: Option<int>)
    requires 1 <= a < m <= I64_MAX
    ensures Prime(m) ==> inverse.Some? && inverse.value == ModInv(a, m)
  {
    var g0: nat, g1: nat, x0: int, x1: int := m, a, 0, 1;
    while g1 != 0
      invariant g0 > 0 && OppositeSigns(x0, x1)
      invariant g0 * Abs(x1) + g1 * Abs(x0) == m
      invariant Euclid(g0, g1, x0, x1) == Euclid(m, a, 0, 1)
      invariant 0 - m <= x0 <= m
      decreases g1
    {
      EuclidRow(g0, g1, x0, x1, m);
      CoefficientBound(g0, g1, x0, x1, m);
      CoefficientBound(g1, g0 % g1, x1, x0 - (g0 / g1) * x1, m);
      assert FitsI64((g0 / g1) * x1) && FitsI64(x0 - (g0 / g1) * x1);
      x0, x1 := x1, x0 - (g0 / g1) * x1;
      g0, g1 := g1, g0 % g1;
    }
    if Prime(m) {
      ModInvInverts(a, m);
    }
    while x0 < 0
      invariant 0 - m <= x0 <= m
      invariant Euclid(m, a, 0, 1) < 0 && x0 != Euclid(m, a, 0, 1) ==> x0 >= 0 && x0 == Euclid(m, a, 0, 1) + m
      invariant Euclid(m, a, 0, 1) >= 0 ==> x0 == Euclid(m, a, 0, 1)
    {
      assert FitsI64(x0 + m);
      x0 := x0 + m;
    }
    return Some(x0);
  }

  // ---------- forward assignment ----------

  function Residue(p: int, a: Params): int
    requires a.m > 0
  {
    (p * a.s1 + a.s2) % a.m
  }

  // The checked u64 computation of a participant's 0-based meetup.
  function AssignmentFn(p: nat, a: Params, n: nat): Option<nat> {
    if p * a.s1 > U64_MAX || p * a.s1 + a.s2 > U64_MAX || a.m == 0 || n == 0 then None
    else Some(Residue(p, a) % n)
  }

  function MeetupIndex(p: nat, a: Params, n: nat): Option<nat> {
    match AssignmentFn(p, a, n)
    case None => None
    case Some(k) => Some(k + 1)
  }

  // ---------- the inverse enumeration ----------

  // The number of residues below m that meetup k receives.
  function Rounds(k: nat, m: nat, n: nat): nat
    requires n > 0
  {
    var gap := SatSub(m, k);
    if gap % n != 0 then gap / n + 1 else gap / n
  }

  function SeatValue(k: nat, a: Params, n: nat, i: nat): int
    requires a.m > 0
  {
    (((n * i + k - a.s2) % a.m) * ModInv(a.s1, a.m)) % a.m
  }

  // The participants found in round i; a product beyond 64 bits skips the round.
  function Seats(k: nat, a: Params, n: nat, count: nat, i: nat): seq<nat>
    requires a.m > 0
  {
    var t := SeatValue(k, a, n, i);
    if ((n * i + k - a.s2) % a.m) * ModInv(a.s1, a.m) > I64_MAX || t >= count then []
    else if t + a.m < count then [t, t + a.m]
    else [t]
  }

  function SeatsFrom(k: nat, a: Params, n: nat, count: nat, i: nat): seq<nat>
    requires a.m > 0 && n > 0
    decreases Rounds(k, a.m, n) - i
  {
    if i >= Rounds(k, a.m, n) then []
    else Seats(k, a, n, count, i) + SeatsFrom(k, a, n, count, i + 1)
  }

  function Inverse(k: nat, a: Params, n: nat, count: nat): seq<nat>
    requires a.m > 0
  {
    if n == 0 then [] else SeatsFrom(k, a, n, count, 0)
  }

  method SeatsOfRound(n: nat, i: nat, k: nat, a: Params, count: nat) returns (found: seq<nat>)
    requires Usable(a)
    ensures found == Seats(k, a, n, count, i)
  {
    var inverse := CheckedModInv(a.s1, a.m);
    var product := ((n * i + k - a.s2) % a.m) * inverse.value;
    SeatCongruence(k, a, n, i);
    if product > I64_MAX || product % a.m >= count {
      return [];
    }
    found := [product % a.m];
    if product % a.m + a.m < count {
      found := found + [product % a.m + a.m];
    }
  }

  method AssignmentFnInverse(k: nat, a: Params, n: nat, count: nat) returns (seats: seq<nat>)
    requires Usable(a)
    ensures seats == Inverse(k, a, n, count)
  {
    if n == 0 {
      return [];
    }
    var rounds := SatSub(a.m, k) / n;
    if SatSub(a.m, k) % n != 0 {
      rounds := rounds + 1;
    }
    seats := [];
    for i := 0 to rounds
      invariant rounds == Rounds(k, a.m, n)
      invariant seats + SeatsFrom(k, a, n, count, i) == Inverse(k, a, n, count)
    {
      var found := SeatsOfRound(n, i, k, a, count);
      Unroll(k, a, n, count, i, seats);
      seats := seats + found;
    }
  }

  lemma Unroll(k: nat, a: Params, n: nat, count: nat, i: nat, seats: seq<nat>)
    requires a.m > 0 && n > 0 && i < Rounds(k, a.m, n)
    ensures seats + SeatsFrom(k, a, n, count, i) ==
            (seats + Seats(k, a, n, count, i)) + SeatsFrom(k, a, n, count, i + 1)
  {
  }

  // ---------- forward and inverse agree ----------

  lemma RoundsBound(k: nat, m: nat, n: nat, i: nat)
    requires n > 0
    ensures i < Rounds(k, m, n) <==> n * i + k < m
  {
    var gap := SatSub(m, k);
    DivIdentity(gap, n);
    if i < Rounds(k, m, n) {
      if i < gap / n {
        ProductMonotone(n, i + 1, n, gap / n);
        Distribute(n, i, 1);
      }
    } else {
      ProductMonotone(n, gap / n, n, i);
      if gap % n != 0 {
        ProductMonotone(n, gap / n + 1, n, i);
        Distribute(n, gap / n, 1);
      }
    }
  }

  lemma SeatCongruence(k: nat, a: Params, n: nat, i: nat)
    requires Usable(a)
    ensures var t := SeatValue(k, a, n, i); 0 <= t < a.m && Congruent(t * a.s1 + a.s2, n * i + k, a.m)
  {
    var m, t2 := a.m, ModInv(a.s1, a.m);
    var w := n * i + k - a.s2;
    var t := SeatValue(k, a, n, i);
    ModInvInverts(a.s1, m);
    DivIdentity((w % m) * t2, m);
    CongruentToMod((w % m) * t2, m);
    CongruentSymm((w % m) * t2, t, m);
    CongruentScale(t, (w % m) * t2, a.s1, m);
    CongruentScale(a.s1 * t2, 1, w % m, m);
    assert ((w % m) * t2) * a.s1 == (a.s1 * t2) * (w % m);
    CongruentTrans(t * a.s1, (a.s1 * t2) * (w % m), w % m, m);
    CongruentToMod(w, m);
    CongruentSymm(w, w % m, m);
    CongruentTrans(t * a.s1, w % m, w, m);
    CongruentRefl(a.s2, m);
    CongruentAdd(t * a.s1, w, a.s2, a.s2, m);
  }

  // Round i sits the two participants whose residue is n*i + k.
  lemma SeatHits(k: nat, a: Params, n: nat, i: nat, c: nat)
    requires Usable(a) && n > 0 && i < Rounds(k, a.m, n)
    ensures Residue(SeatValue(k, a, n, i) + a.m * c, a) == n * i + k
  {
    var t := SeatValue(k, a, n, i);
    var p := t + a.m * c;
    SeatCongruence(k, a, n, i);
    RoundsBound(k, a.m, n, i);
    assert p * a.s1 + a.s2 == (t * a.s1 + a.s2) + a.m * (c * a.s1) by {
      assert (a.m * c) * a.s1 == a.m * (c * a.s1);
      Distribute(a.s1, t, a.m * c);
    }
    CongruentMultiple(t * a.s1 + a.s2, c * a.s1, a.m);
    CongruentTrans(p * a.s1 + a.s2, t * a.s1 + a.s2, n * i + k, a.m);
    CongruentMod(p * a.s1 + a.s2, n * i + k, a.m);
    DivModUnique(n * i + k, a.m, 0, n * i + k);
  }

  // Conversely the residue of p fixes p modulo m.
  lemma SeatUnique(p: nat, k: nat, a: Params, n: nat, i: nat)
    requires Usable(a) && Residue(p, a) == n * i + k
    ensures p % a.m == SeatValue(k, a, n, i)
  {
    var m, t2 := a.m, ModInv(a.s1, a.m);
    var w := n * i + k - a.s2;
    assert Congruent(p * a.s1, w, m) by {
      CongruentToMod(p * a.s1 + a.s2, m);
      CongruentRefl(0 - a.s2, m);
      CongruentAdd(p * a.s1 + a.s2, n * i + k, 0 - a.s2, 0 - a.s2, m);
    }
    CongruentToMod(w, m);
    CongruentTrans(p * a.s1, w, w % m, m);
    Unscale(p, w % m, a.s1, m);
    CongruentMod(p, (w % m) * t2, m);
  }

  lemma Unscale(p: int, v: int, s: nat, m: nat)
    requires Prime(m) && 1 <= s < m && Congruent(p * s, v, m)
    ensures Congruent(p, v * ModInv(s, m), m)
  {
    var t2 := ModInv(s, m);
    ModInvInverts(s, m);
    CongruentScale(p * s, v, t2, m);
    CongruentScale(s * t2, 1, p, m);
    assert (p * s) * t2 == (s * t2) * p;
    CongruentSymm((p * s) * t2, p, m);
    CongruentTrans(p, (p * s) * t2, v * t2, m);
  }

  lemma SmallProductFits(p: nat, a: Params)
    requires Usable(a) && p <= 2 * a.m
    ensures p * a.s1 + a.s2 <= U64_MAX
  {
    ProductMonotone(p, a.s1, 2 * GROUP_MAX, GROUP_MAX);
  }

  lemma SeatsSound(k: nat, a: Params, n: nat, count: nat, i: nat, p: nat)
    requires Usable(a) && k < n && i < Rounds(k, a.m, n) && p in Seats(k, a, n, count, i)
    ensures p < count && p < 2 * a.m && Residue(p, a) == n * i + k && AssignmentFn(p, a, n) == Some(k)
  {
    var t := SeatValue(k, a, n, i);
    SeatCongruence(k, a, n, i);
    SeatHits(k, a, n, i, 0);
    SeatHits(k, a, n, i, 1);
    assert a.m * 1 == a.m && a.m * 0 == 0;
    assert p == t || p == t + a.m;
    SmallProductFits(p, a);
    DivModUnique(n * i + k, n, i, k);
  }

  /** Every participant the inverse lists is one that the assignment sends to that meetup,
      and none is listed twice. This holds for groups of every size. */
  lemma {:induction false} SeatsFromSound(k: nat, a: Params, n: nat, count: nat, i: nat)
    requires Usable(a) && k < n
    ensures forall p :: p in SeatsFrom(k, a, n, count, i) ==>
              p < count && p < 2 * a.m && Residue(p, a) >= n * i + k && AssignmentFn(p, a, n) == Some(k)
    ensures NoDuplicates(SeatsFrom(k, a, n, count, i))
    decreases Rounds(k, a.m, n) - i
  {
    if i < Rounds(k, a.m, n) {
      var here, rest := Seats(k, a, n, count, i), SeatsFrom(k, a, n, count, i + 1);
      SeatsFromSound(k, a, n, count, i + 1);
      Distribute(n, i, 1);
      forall p | p in here
        ensures p < count && p < 2 * a.m && Residue(p, a) == n * i + k && AssignmentFn(p, a, n) == Some(k)
      {
        SeatsSound(k, a, n, count, i, p);
      }
      AppendDistinct(here, rest);
    }
  }

  // Products of two residues fit 64 bits, so no round is skipped.
  lemma NoRoundSkipped(k: nat, a: Params, n: nat, i: nat)
    requires Usable(a)
    ensures ((n * i + k - a.s2) % a.m) * ModInv(a.s1, a.m) <= I64_MAX
  {
    ModInvInverts(a.s1, a.m);
    DivIdentity(n * i + k - a.s2, a.m);
    ProductMonotone((n * i + k - a.s2) % a.m, ModInv(a.s1, a.m), GROUP_MAX, GROUP_MAX);
  }

  lemma {:induction false} SeatListed(k: nat, a: Params, n: nat, count: nat, i: nat, j: nat, p: nat)
    requires a.m > 0 && n > 0 && j <= i < Rounds(k, a.m, n) && p in Seats(k, a, n, count, i)
    ensures p in SeatsFrom(k, a, n, count, j)
    decreases i - j
  {
    if j < i {
      SeatListed(k, a, n, count, i, j + 1, p);
    }
  }

  lemma SeatFound(k: nat, a: Params, n: nat, count: nat, p: nat)
    requires Usable(a) && k < n && p < count && p < 2 * a.m && AssignmentFn(p, a, n) == Some(k)
    ensures p in Inverse(k, a, n, count)
  {
    var v := Residue(p, a);
    DivIdentity(p * a.s1 + a.s2, a.m);
    DivIdentity(v, n);
    var i := v / n;
    DivMonotone(0, v, n);
    DivModUnique(0, n, 0, 0);
    RoundsBound(k, a.m, n, i);
    SeatUnique(p, k, a, n, i);
    NoRoundSkipped(k, a, n, i);
    if p < a.m {
      DivModUnique(p, a.m, 0, p);
    } else {
      DivModUnique(p, a.m, 1, p - a.m);
    }
    assert p in Seats(k, a, n, count, i);
    SeatListed(k, a, n, count, i, 0, p);
  }

  ghost predicate InverseAgrees(a: Params, n: nat, count: nat)
    requires a.m > 0
  {
    forall k, p :: 0 <= k < n && 0 <= p < count ==>
      (p in Inverse(k, a, n, count) <==> AssignmentFn(p, a, n) == Some(k))
  }

  /** The inverse recovers every participant of every meetup exactly when the group is no
      larger than twice its prime; participant 2m is assigned but never listed. */
  lemma InverseExact(a: Params, n: nat, count: nat)
    requires Usable(a) && n > 0
    ensures InverseAgrees(a, n, count) <==> count <= 2 * a.m
    ensures forall k :: 0 <= k < n ==> NoDuplicates(Inverse(k, a, n, count))
  {
    forall k | 0 <= k < n
      ensures NoDuplicates(Inverse(k, a, n, count))
      ensures forall p :: p in Inverse(k, a, n, count) ==> p < 2 * a.m && AssignmentFn(p, a, n) == Some(k)
    {
      SeatsFromSound(k, a, n, count, 0);
    }
    if count <= 2 * a.m {
      forall k, p | 0 <= k < n && 0 <= p < count && AssignmentFn(p, a, n) == Some(k)
        ensures p in Inverse(k, a, n, count)
      {
        SeatFound(k, a, n, count, p);
      }
    } else {
      var p := 2 * a.m;
      SmallProductFits(p, a);
      var k := Residue(p, a) % n;
      DivIdentity(p * a.s1 + a.s2, a.m);
      DivIdentity(Residue(p, a), n);
      assert AssignmentFn(p, a, n) == Some(k);
      assert p !in Inverse(k, a, n, count);
    }
  }

  lemma {:induction false} CoreSeatsCounted(k: nat, a: Params, n: nat, i: nat)
    requires Usable(a) && n > 0 && i <= Rounds(k, a.m, n)
    ensures |SeatsFrom(k, a, n, a.m, i)| == Rounds(k, a.m, n) - i
    decreases Rounds(k, a.m, n) - i
  {
    if i < Rounds(k, a.m, n) {
      NoRoundSkipped(k, a, n, i);
      SeatCongruence(k, a, n, i);
      CoreSeatsCounted(k, a, n, i + 1);
    }
  }

  /** The first m participants are spread evenly: any two meetups differ by at most one. */
  lemma CoreIsBalanced(k: nat, l: nat, a: Params, n: nat)
    requires Usable(a) && k < n && l < n
    ensures -1 <= |Inverse(k, a, n, a.m)| - |Inverse(l, a, n, a.m)| <= 1
  {
    CoreSeatsCounted(k, a, n, 0);
    CoreSeatsCounted(l, a, n, 0);
    RoundsNearQuotient(k, a.m, n);
    RoundsNearQuotient(l, a.m, n);
  }

  lemma RoundsNearQuotient(k: nat, m: nat, n: nat)
    requires k < n
    ensures m / n <= Rounds(k, m, n) <= m / n + 1
  {
    DivIdentity(m, n);
    DivMonotone(0, m, n);
    DivModUnique(0, n, 0, 0);
    Distribute(n, m / n, 1);
    RoundsBound(k, m, n, m / n + 1);
    if m / n > 0 {
      Distribute(n, m / n, 1);
      RoundsBound(k, m, n, m / n - 1);
    }
  }
}
