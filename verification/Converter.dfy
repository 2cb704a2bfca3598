/**
 Conversion between community-currency balances, kept as U64F64 fixed-point numbers, and
 u128 amounts with 18 decimals. All values are raw bits.
 */
module Converter {
  import opened Primitives
  import opened Arithmetic

  const ONE: nat := 1_000_000_000_000_000_000
  const TWO64: nat := 0x1_0000_0000_0000_0000
  const TWO128: nat := 0x1_0000_0000_0000_0000_0000_0000_0000_0000
  const TWO126: nat := 0x4000_0000_0000_0000_0000_0000_0000_0000

  // The number of balance bits per 2^64 units: a U66F62 quotient widened to U64F64.
  const FACTOR: nat := 4 * (TWO126 / ONE)

  // ---------- balance bits to units ----------

  method FixedToUnits(bits: nat) returns (units: nat)
    requires bits < TWO128
    ensures units == bits * ONE / TWO64
    ensures units <= U128_MAX
  {
    units := 0;
    units := units + (bits / TWO64) * ONE;
    var fraction := bits % TWO64;
    // the product of the fractional part fits, so it does not saturate
    assert fraction * ONE < TWO128;
    units := units + fraction * ONE / TWO64;
  }

  function Units(bits: nat): nat {
    bits * ONE / TWO64
  }

  // ---------- units to balance bits ----------

  function FractionBits(x: nat): nat {
    (x % TWO64) * TWO64 / ONE
  }

  function IntegerBits(x: nat): nat {
    Min((x / TWO64) * FACTOR, U128_MAX)
  }

  // The balance bits of x units; the final addition overflows beyond 2^128.
  function Bits(x: nat): nat {
    FractionBits(x) + IntegerBits(x)
  }

  method UnitsToFixed(x: nat) returns (bits: Option<nat>)
    requires x <= U128_MAX
    ensures bits.Some? <==> Bits(x) < TWO128
    ensures bits.Some? ==> bits.value == Bits(x)
    ensures x < ONE * TWO64 ==> bits.Some?
  {
    var result := 0;
    var fraction := (x % TWO64) * TWO64 / ONE;
    result := result + fraction;
    var factor := 4 * (TWO126 / ONE);
    var product := (x / TWO64) * factor;
    var whole := if product <= U128_MAX then product else U128_MAX;
    result := result + whole;
    if x < ONE * TWO64 {
      NeverExceeds(x);
    }
    return if result < TWO128 then Some(result) else None;
  }

  lemma FactorTight()
    ensures TWO128 - 4 * ONE < FACTOR * ONE <= TWO128
  {
  }

  // Below 10^18 * 2^64 units nothing saturates and the result is a lower bound.
  lemma NeverExceeds(x: nat)
    requires x < ONE * TWO64
    ensures IntegerBits(x) == (x / TWO64) * FACTOR
    ensures Bits(x) * ONE <= x * TWO64
    ensures Bits(x) < TWO128
  {
    FactorTight();
    var hi, lo := x / TWO64, x % TWO64;
    assert hi * FACTOR * ONE <= hi * TWO128;
    assert hi < ONE;
    assert FractionBits(x) * ONE <= lo * TWO64;
    assert x * TWO64 == hi * TWO128 + lo * TWO64;
  }

  /** The converted balance is below the exact value by less than 1 + 4 * (x >> 64) ulps. */
  lemma ConversionError(x: nat)
    requires x < ONE * TWO64
    ensures Bits(x) * ONE <= x * TWO64 < (Bits(x) + 1 + 4 * (x / TWO64)) * ONE
  {
    NeverExceeds(x);
    FactorTight();
    var hi, lo := x / TWO64, x % TWO64;
    assert lo * TWO64 < (FractionBits(x) + 1) * ONE;
    assert hi * TWO128 <= hi * FACTOR * ONE + 4 * hi * ONE;
    assert x * TWO64 == hi * TWO128 + lo * TWO64;
  }

  /** More units never convert to a smaller balance. */
  lemma ConversionMonotone(x: nat, y: nat)
    requires x <= y < ONE * TWO64
    ensures Bits(x) <= Bits(y)
  {
    NeverExceeds(x);
    NeverExceeds(y);
    if x / TWO64 < y / TWO64 {
      FractionBelowFactor(x);
      assert (x / TWO64 + 1) * FACTOR <= (y / TWO64) * FACTOR;
    } else {
      assert x / TWO64 == y / TWO64 && x % TWO64 <= y % TWO64;
    }
  }

  lemma FractionBelowFactor(x: nat)
    ensures FractionBits(x) <= FACTOR
  {
    assert x % TWO64 <= TWO64 - 1;
    assert (TWO64 - 1) * TWO64 / ONE <= FACTOR;
  }

  /** Units to balance and back never gains; up to 2^64 units it loses nothing exactly when
      the amount is representable, and one unit otherwise. */
  lemma RoundTrip(x: nat)
    requires x < ONE * TWO64
    ensures Units(Bits(x)) <= x
    ensures x < TWO64 ==> Units(Bits(x)) == if x * TWO64 % ONE == 0 then x else x - 1
  {
    NeverExceeds(x);
    assert Bits(x) * ONE / TWO64 <= x;
    if x < TWO64 {
      assert Bits(x) == x * TWO64 / ONE;
      assert Bits(x) * ONE == x * TWO64 - x * TWO64 % ONE;
    }
  }

  /** Balance to units and back never gains either, and loses less than 20 ulps below 2^64 units. */
  lemma BalanceRoundTrip(bits: nat)
    requires bits < TWO128
    ensures Units(bits) < ONE * TWO64
    ensures Bits(Units(bits)) <= bits
    ensures Units(bits) < TWO64 ==> bits < Bits(Units(bits)) + 20
  {
    var u := Units(bits);
    assert u * TWO64 <= bits * ONE < (u + 1) * TWO64;
    ConversionError(u);
  }
}
