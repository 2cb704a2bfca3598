/**
 Where the meetups of a ceremony take place: meetup k goes to location (k * s1 + s2) mod m,
 with s1 drawn coprime to the number of locations m.
 */
module MeetupLocations {
  import opened Primitives
  import opened Arithmetic
  import opened Primes
  import opened Assignment
  import opened Hall

  // ---------- greatest common divisor ----------

  // Subtractive, with 0 for a zero argument.
  function Gcd(a: nat, b: nat): nat
    decreases a + b
  {
    if a == 0 || b == 0 then 0
    else if a == b then a
    else if a > b then Gcd(a - b, b)
    else Gcd(a, b - a)
  }

  lemma {:induction false} Bezout(a: nat, b: nat) returns (x: int, y: int)
    requires a > 0 && b > 0
    ensures Gcd(a, b) == a * x + b * y
    decreases a + b
  {
    if a == b {
      x, y := 1, 0;
    } else if a > b {
      var u, v := Bezout(a - b, b);
      x, y := u, v - u;
      Regroup(a, b, u, v);
    } else {
      var u, v := Bezout(a, b - a);
      x, y := u - v, v;
      Regroup(b, a, v, u);
    }
  }

  lemma Regroup(a: int, b: int, u: int, v: int)
    ensures (a - b) * u + b * v == a * u + b * (v - u)
  {
  }

  /** It divides both arguments, and every common divisor divides it. */
  lemma {:induction false} GcdIsGreatest(a: nat, b: nat, d: nat)
    requires a > 0 && b > 0
    ensures Gcd(a, b) > 0 && Divides(Gcd(a, b), a) && Divides(Gcd(a, b), b)
    ensures Divides(d, a) && Divides(d, b) ==> Divides(d, Gcd(a, b))
    decreases a + b
  {
    if a == b {
      assert Factors(a, a, 1);
    } else if a > b {
      GcdIsGreatest(a - b, b, d);
      DividesSum(Gcd(a, b), a - b, b);
      DividesGap(d, a, b);
    } else {
      GcdIsGreatest(a, b - a, d);
      DividesSum(Gcd(a, b), b - a, a);
      DividesGap(d, b, a);
    }
  }

  lemma DividesSum(d: nat, a: nat, b: nat)
    requires Divides(d, a) && Divides(d, b)
    ensures Divides(d, a + b)
  {
    var k: nat :| Factors(a, d, k);
    var l: nat :| Factors(b, d, l);
    Distribute(d, k, l);
    assert Factors(a + b, d, k + l);
  }

  lemma DividesGap(d: nat, a: nat, b: nat)
    requires a > b
    ensures Divides(d, a) && Divides(d, b) ==> Divides(d, a - b)
  {
    if Divides(d, a) && Divides(d, b) {
      var k: nat :| Factors(a, d, k);
      var l: nat :| Factors(b, d, l);
      Distribute(d, k, l);
      if k < l {
        ProductMonotone(d, k, d, l);
      }
      assert Factors(a - b, d, k - l);
    }
  }

  lemma {:induction false} OneIsCoprime(n: nat)
    requires n >= 1
    ensures Gcd(n, 1) == 1
  {
    if n > 1 {
      OneIsCoprime(n - 1);
    }
  }

  // The random order of 1, ..., bound - 1 is an input.
  method FindRandomCoprimeBelow(bound: nat, shuffled: seq<nat>) returns (r: nat)
    requires bound > 2 ==> forall i :: i in shuffled <==> 1 <= i < bound
    ensures bound <= 1 ==> r == 0
    ensures bound >= 2 ==> 1 <= r < bound && Gcd(bound, r) == 1
  {
    if bound <= 1 {
      return 0;
    }
    OneIsCoprime(bound);
    if bound == 2 {
      return 1;
    }
    for n := 0 to |shuffled|
    {
      if Gcd(bound, shuffled[n]) == 1 {
        assert shuffled[n] in shuffled;
        return shuffled[n];
      }
    }
    return 1;
  }

  // ---------- locations of meetups ----------

  // The parameters drawn for m locations; a single location gets s1 = 0.
  ghost predicate LocationParams(a: Params) {
    && 1 <= a.m <= GROUP_MAX && a.s1 < a.m && a.s2 <= Max(a.m, 2)
    && (a.m >= 2 ==> Gcd(a.m, a.s1) == 1)
  }

  method GenerateLocationAssignmentParams(locations: nat, shuffled: seq<nat>) returns (a: Params)
    requires locations <= GROUP_MAX
    requires locations > 2 ==> forall i :: i in shuffled <==> 1 <= i < locations
    ensures a.m == locations && a.s2 == LargestPrime(locations)
    ensures locations >= 1 ==> LocationParams(a)
  {
    var s1 := FindRandomCoprimeBelow(locations, shuffled);
    var s2 := FindPrimeBelow(locations);
    LargestPrimeIsLargest(locations);
    a := Params(locations, s1, s2);
  }

  function LocationIndex(k: nat, a: Params, locations: nat): Option<nat> {
    AssignmentFn(k, a, locations)
  }

  // s1 has an inverse modulo m.
  lemma CoprimeInverse(a: Params) returns (y: int)
    requires LocationParams(a)
    ensures Congruent(a.s1 * y, 1, a.m)
  {
    if a.m == 1 {
      y := 0;
      assert Apart(a.s1 * y, 1, a.m, -1);
    } else {
      assert a.s1 > 0;
      var x;
      x, y := Bezout(a.m, a.s1);
      assert Apart(a.s1 * y, 1, a.m, -x) by { Distribute(a.m, 0, x); }
    }
  }

  // k * s * y is k again when y inverts s.
  lemma Undo(s: int, y: int, k: int, m: int)
    requires Congruent(s * y, 1, m)
    ensures Congruent((k * s) * y, k, m)
  {
    CongruentScale(s * y, 1, k, m);
    assert (s * y) * k == (k * s) * y;
  }

  lemma Cancel(s: int, y: int, k: int, l: int, m: int)
    requires Congruent(s * y, 1, m) && Congruent(k * s, l * s, m)
    ensures Congruent(k, l, m)
  {
    hide Congruent;
    CongruentScale(k * s, l * s, y, m);
    Undo(s, y, k, m);
    Undo(s, y, l, m);
    CongruentSymm((k * s) * y, k, m);
    CongruentTrans(k, (k * s) * y, (l * s) * y, m);
    CongruentTrans(k, (l * s) * y, l, m);
  }

  lemma Solve(s: int, y: int, c: int, k: int, m: int)
    requires Congruent(s * y, 1, m) && Congruent(k, c * y, m)
    ensures Congruent(k * s, c, m)
  {
    hide Congruent;
    CongruentScale(k, c * y, s, m);
    Undo(s, y, c, m);
    assert (c * y) * s == (c * s) * y;
    CongruentTrans(k * s, (c * s) * y, c, m);
  }

  lemma ResiduesDistinct(a: Params, k: nat, l: nat)
    requires LocationParams(a) && 1 <= k <= a.m && 1 <= l <= a.m && Residue(k, a) == Residue(l, a)
    ensures k == l
  {
    hide Congruent;
    var y := CoprimeInverse(a);
    CongruentMod(k * a.s1 + a.s2, l * a.s1 + a.s2, a.m);
    CongruentShift(k * a.s1, l * a.s1, a.s2, a.m);
    Cancel(a.s1, y, k, l, a.m);
    CongruentShift(k - 1, l - 1, 1, a.m);
    SmallCongruentEqual(k - 1, l - 1, a.m);
  }

  // A representative among 1, ..., m.
  lemma Representative(x: int, m: nat) returns (k: nat)
    requires m > 0
    ensures 1 <= k <= m && Congruent(k, x, m)
  {
    k := (x - 1) % m + 1;
    CongruentToMod(x - 1, m);
    CongruentSymm(x - 1, (x - 1) % m, m);
    CongruentShift(k, x, -1, m);
  }

  // Every residue is taken by one of the indices 1, ..., m.
  lemma ResidueTaken(a: Params, v: nat) returns (k: nat)
    requires LocationParams(a) && v < a.m
    ensures 1 <= k <= a.m && Residue(k, a) == v
  {
    hide Congruent;
    var y := CoprimeInverse(a);
    var c := v - a.s2;
    k := Representative(c * y, a.m);
    Solve(a.s1, y, c, k, a.m);
    CongruentShift(k * a.s1 + a.s2, v, 0 - a.s2, a.m);
    CongruentMod(k * a.s1 + a.s2, v, a.m);
    DivModUnique(v, a.m, 0, v);
  }

  lemma LocationIndexFits(a: Params, k: nat, locations: nat)
    requires LocationParams(a) && 1 <= k <= a.m && locations > 0
    ensures LocationIndex(k, a, locations) == Some(Residue(k, a) % locations)
    ensures Residue(k, a) < a.m
  {
    ProductMonotone(k, a.s1, GROUP_MAX, GROUP_MAX);
    assert GROUP_MAX * GROUP_MAX + GROUP_MAX <= U64_MAX;
  }

  // No two of the first n meetups share a location.
  ghost predicate NoSharing(a: Params, locations: nat, n: nat) {
    forall k: nat, l: nat :: 1 <= k < l <= n ==> LocationIndex(k, a, locations) != LocationIndex(l, a, locations)
  }

  /** With as many locations as at assignment, or more, every meetup has its own. */
  lemma OwnLocation(a: Params, locations: nat, k: nat, l: nat)
    requires LocationParams(a) && a.m <= locations && 1 <= k < l <= a.m
    ensures LocationIndex(k, a, locations) != LocationIndex(l, a, locations)
    ensures LocationIndex(k, a, locations).Some? && LocationIndex(k, a, locations).value < locations
  {
    LocationIndexFits(a, k, locations);
    LocationIndexFits(a, l, locations);
    DivModUnique(Residue(k, a), locations, 0, Residue(k, a));
    DivModUnique(Residue(l, a), locations, 0, Residue(l, a));
    if Residue(k, a) == Residue(l, a) {
      ResiduesDistinct(a, k, l);
    }
  }

  /** A full ceremony keeps its meetups apart exactly while no location has been lost since
      assignment: the parameters are not redrawn when the list of locations shrinks. */
  lemma NoSharingExactly(a: Params, locations: nat)
    requires LocationParams(a) && locations > 0
    ensures NoSharing(a, locations, a.m) <==> a.m <= locations
  {
    if a.m <= locations {
      forall k: nat, l: nat | 1 <= k < l <= a.m
        ensures LocationIndex(k, a, locations) != LocationIndex(l, a, locations)
      {
        OwnLocation(a, locations, k, l);
      }
    } else {
      var k := ResidueTaken(a, 0);
      var l := ResidueTaken(a, locations);
      LocationIndexFits(a, k, locations);
      LocationIndexFits(a, l, locations);
      DivModUnique(0, locations, 0, 0);
      DivModUnique(locations, locations, 1, 0);
      assert LocationIndex(Min(k, l), a, locations) == LocationIndex(Max(k, l), a, locations);
    }
  }

  /** The meetups of an assigned ceremony all take place at different locations. */
  lemma MeetupsApart(cfg: Seating, h: Hall, input: SeatInput, a: Params)
    requires SeatInputOk(cfg, h, input) && LocationParams(a) && a.m == input.locations && h.meetups == 0
    ensures NoSharing(a, input.locations, AssignSeats(cfg, h, input).meetups)
  {
    hide SeatInputOk, LocationIndex, LocationParams;
    MeetupsWithinLocations(cfg, h, input);
    forall k: nat, l: nat | 1 <= k < l <= AssignSeats(cfg, h, input).meetups
      ensures LocationIndex(k, a, input.locations) != LocationIndex(l, a, input.locations)
    {
      OwnLocation(a, input.locations, k, l);
    }
  }

  lemma MeetupsWithinLocations(cfg: Seating, h: Hall, input: SeatInput)
    requires SeatInputOk(cfg, h, input) && h.meetups == 0
    ensures AssignSeats(cfg, h, input).meetups <= input.locations
  {
    hide Allowance, CeilDiv, DrawOk;
    if cfg.target > 0 && Allowance(cfg, h, input.locations).Ok? {
      MeetupsHaveLocations(cfg, h, input.locations);
    }
  }
}
