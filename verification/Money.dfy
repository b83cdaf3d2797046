/** Machine integers, for casts that the model must show to be exact. */
module MachineInts {
  const TWO_32: int := 0x1_0000_0000
  const TWO_63: int := 0x8000_0000_0000_0000
  const TWO_64: int := 0x1_0000_0000_0000_0000
  const TWO_127: int := 0x8000_0000_0000_0000_0000_0000_0000_0000

  type u32 = x: int | 0 <= x < TWO_32
  type u64 = x: int | 0 <= x < TWO_64
  type i64 = x: int | -TWO_63 <= x < TWO_63
  type i128 = x: int | -TWO_127 <= x < TWO_127

  /** A cast to `i64`, which keeps the low 64 bits. */
  function AsI64(x: int): (r: i64)
    ensures (x - r) % TWO_64 == 0
  {
    var low := x % TWO_64;
    if low < TWO_63 then low else low - TWO_64
  }
}

/** Monetary amounts (`crates/core/src/money.rs`). */
module Monies {
  import opened Wrappers
  import opened MachineInts
  import opened Arithmetic

  const MAX_MINOR_UNITS: int := 1_000_000_000

  /** The amounts `Money::from_minor_units` lets through. */
  type MinorUnits = a: int | 0 < a <= MAX_MINOR_UNITS witness 1

  datatype Currency = Egp | Usd | Eur | Gbp | Sar | Aed | Kwd | Bhd | Omr | Jpy
  {
    function Exponent(): nat {
      match this
      case Kwd | Bhd | Omr => 3
      case Jpy => 0
      case _ => 2
    }
  }

  datatype MoneyError = NotPositive(amount: int) | TooLarge(tooLarge: int, maximum: int)

  datatype Money = Money(minorUnits: MinorUnits, currency: Currency)
  {
    /** Basis points: a ten-thousandth of the amount each. */
    function CheckedMulBps(bps: u32): Option<Money> {
      ProductBound(minorUnits, bps, MAX_MINOR_UNITS, TWO_32);
      var product: i128 := minorUnits * bps;
      var fee := AsI64(product / 10_000);
      FromMinorUnits(fee, currency).ToOption()
    }

    function CheckedMulRatio(numerator: u64, denominator: u64): Option<Money> {
      if denominator == 0 || numerator == 0 then None
      else
        ProductBound(minorUnits, numerator, MAX_MINOR_UNITS, TWO_64);
        var product: i128 := minorUnits * numerator;
        var result := AsI64(product / denominator);
        FromMinorUnits(result, currency).ToOption()
    }
  }

  function FromMinorUnits(minorUnits: i64, currency: Currency): Result<Money, MoneyError> {
    if minorUnits <= 0 then Err(NotPositive(minorUnits))
    else if minorUnits > MAX_MINOR_UNITS then Err(TooLarge(minorUnits, MAX_MINOR_UNITS))
    else Ok(Money(minorUnits, currency))
  }

  /** Exactly the amounts from one minor unit to ten million major ones of two decimals are money. */
  lemma MoneyIs(minorUnits: i64, currency: Currency)
    ensures match FromMinorUnits(minorUnits, currency)
      case Ok(m) => 1 <= minorUnits <= 1_000_000_000 && m.minorUnits == minorUnits && m.currency == currency
      case Err(NotPositive(n)) => minorUnits < 1 && n == minorUnits
      case Err(TooLarge(n, most)) => minorUnits > 1_000_000_000 && n == minorUnits && most == 1_000_000_000
  {}

  /** `value` is `amount * numerator / denominator` rounded down, and it is an amount of money. */
  predicate IsExactShare(value: int, amount: int, numerator: int, denominator: int) {
    && 0 < value <= MAX_MINOR_UNITS
    && value * denominator <= amount * numerator < (value + 1) * denominator
  }

  /** A basis-point fee is the exact share rounded down whenever that share is an amount at all; its
      cast never wraps. */
  lemma BpsIsExact(m: Money, bps: u32)
    ensures m.CheckedMulBps(bps).Some? <==> exists fee :: IsExactShare(fee, m.minorUnits, bps, 10_000)
    ensures m.CheckedMulBps(bps).Some? ==>
      && IsExactShare(m.CheckedMulBps(bps).value.minorUnits, m.minorUnits, bps, 10_000)
      && m.CheckedMulBps(bps).value.currency == m.currency
  {
    var fee := m.minorUnits * bps / 10_000;
    ProductBound(m.minorUnits, bps, MAX_MINOR_UNITS, TWO_32);
    assert AsI64(fee) == fee;
    if 0 < fee <= MAX_MINOR_UNITS {
      assert IsExactShare(fee, m.minorUnits, bps, 10_000);
    }
    forall f | IsExactShare(f, m.minorUnits, bps, 10_000) ensures f == fee {
      QuotientUnique(m.minorUnits * bps, 10_000, f);
    }
  }

  /** A ratio is computed exactly if and only if its true quotient, if it is too large for an
      amount, does not wrap into the range of amounts. */
  lemma RatioIsExactUnlessWrapped(m: Money, numerator: u64, denominator: u64)
    ensures (match m.CheckedMulRatio(numerator, denominator)
             case Some(r) => r.currency == m.currency && IsExactShare(r.minorUnits, m.minorUnits, numerator, denominator)
             case None => !exists v :: IsExactShare(v, m.minorUnits, numerator, denominator))
            <==> (denominator == 0
                  || var quotient := m.minorUnits * numerator / denominator;
                     quotient <= MAX_MINOR_UNITS || !(0 < quotient % TWO_64 <= MAX_MINOR_UNITS))
  {
    if denominator == 0 { return; }
    var x := m.minorUnits * numerator;
    var q := x / denominator;
    ProductBound(m.minorUnits, numerator, MAX_MINOR_UNITS, TWO_64);
    QuotientBounds(x, denominator);
    forall v | IsExactShare(v, m.minorUnits, numerator, denominator) ensures v == q {
      QuotientUnique(x, denominator, v);
    }
    if q <= MAX_MINOR_UNITS {
      assert AsI64(q) == q;
      if 0 < q { assert IsExactShare(q, m.minorUnits, numerator, denominator); }
    } else {
      var low := q % TWO_64;
      assert AsI64(q) == if low < TWO_63 then low else low - TWO_64;
    }
  }

  /** The quotient `2^64 + 1` is reported as one minor unit. */
  lemma RatioWraps()
    ensures 274_177 * 67_280_421_310_721 / 1 == TWO_64 + 1
    ensures Money(274_177, Egp).CheckedMulRatio(67_280_421_310_721, 1) == Some(Money(1, Egp))
  {
    assert 274_177 * 67_280_421_310_721 == TWO_64 + 1;
    assert (TWO_64 + 1) % TWO_64 == 1;
  }
}
