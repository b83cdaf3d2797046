/** Amounts as decimal text: the PHP client's `toMinorUnits` and `formatMajorUnits`
    (`sdk/php/src/Money.php`) and the gateway's `major_units_display` (`crates/core/src/money.rs`). */
module DecimalMoney {
  import opened Wrappers
  import opened MachineInts
  import opened Arithmetic
  import opened Text
  import opened Monies

  function Pow10(k: nat): (p: nat)
    ensures 0 < p
  {
    if k == 0 then 1 else 10 * Pow10(k - 1)
  }

  function Zeros(n: nat): (s: string)
    ensures |s| == n && forall i :: 0 <= i < n ==> s[i] == '0'
  {
    seq(n, _ => '0')
  }

  function PadLeft(s: string, width: nat): string {
    if |s| < width then Zeros(width - |s|) + s else s
  }

  function PadRight(s: string, width: nat): string {
    if |s| < width then s + Zeros(width - |s|) else s
  }

  // ---- Printing ----

  /** `10 ** decimals` in PHP, which is an integer only as long as it fits one. */
  function PhpPow10(decimals: nat): Option<i64> {
    if Pow10(decimals) < TWO_63 then Some(Pow10(decimals)) else None
  }

  /** PHP. `None` is the `TypeError` of a number that has become a float: a power of ten or an absolute
      value that does not fit an integer. */
  function FormatMajorUnits(minorUnits: i64, decimals: nat): Option<string> {
    if decimals == 0 then Some(SignedDecimal(minorUnits))
    else if PhpPow10(decimals).None? || Abs(minorUnits) >= TWO_63 then None
    else
      var abs, factor: nat := Abs(minorUnits), PhpPow10(decimals).value;
      Some((if minorUnits < 0 then "-" else "")
           + Decimal(Quotient(abs, factor)) + ['.'] + PadLeft(Decimal(Remainder(abs, factor)), decimals))
  }

  /** Rust. */
  function MajorUnitsDisplay(m: Money): string {
    var exp := m.currency.Exponent();
    if exp == 0 then Decimal(m.minorUnits)
    else
      var divisor := Pow10(exp);
      var major, minor := Quotient(m.minorUnits, divisor), Remainder(m.minorUnits, divisor);
      Decimal(major) + "." + PadLeft(Decimal(minor), exp)
  }

  // ---- Parsing ----

  /** The characters PHP's `trim` removes. */
  predicate IsBlank(c: char) {
    c == ' ' || c == '\t' || c == '\n' || c == '\r' || c == '\0' || c == '\U{0B}'
  }

  function TrimSigns(s: string): string {
    if s != [] && s[0] in {'+', '-'} then TrimSigns(s[1..]) else s
  }

  /** The digits a text starts with. */
  function DigitPrefix(s: string): (p: string)
    ensures AllDigits(p) && p <= s
  {
    if s == [] || !IsDigit(s[0]) then [] else [s[0]] + DigitPrefix(s[1..])
  }

  /** `(int)` on a text, which stops at the largest integer. */
  function IntCast(s: string): (n: nat)
    ensures n < TWO_63
  {
    Min(DigitsValue(DigitPrefix(s)), TWO_63 - 1)
  }

  /** Exactly `decimals` of the digits after the point, filled up with zeros. */
  function Kept(digits: string, decimals: nat): string {
    PadRight(if |digits| < decimals then digits else digits[..decimals], decimals)
  }

  /** `whole * 10 ** decimals + frac` with its sign, `None` if it has become a float. */
  function Assembled(isNegative: bool, whole: nat, frac: nat, decimals: nat): Option<i64> {
    match PhpPow10(decimals)
    case None => None
    case Some(factor) =>
      var minor: int := whole * factor + frac;
      if minor >= TWO_63 || minor < 0 then None else Some(if isNegative then -minor else minor)
  }

  /** PHP, for a text and at least one decimal. */
  function ToMinorUnits(amount: string, decimals: nat): Option<i64>
    requires decimals != 0
  {
    var str := Trim(amount, IsBlank);
    var isNegative := str != [] && str[0] == '-';
    var (wholePart, fracPart) := SplitOnce(TrimSigns(str), '.');
    var whole := IntCast(if wholePart != [] then wholePart else "0");
    var digits := if fracPart.Some? then fracPart.value else [];
    var frac := IntCast(Kept(digits, decimals));
    Assembled(isNegative, whole, frac, decimals)
  }

  /** From 19 decimals on the power of ten is a float. */
  lemma PowerFits(decimals: nat)
    ensures Pow10(decimals) < TWO_63 <==> decimals <= 18
  {
    assert Pow10(2) == 100;
    PowersAdd(2, 2);
    PowersAdd(4, 4);
    PowersAdd(8, 8);
    PowersAdd(16, 2);
    assert Pow10(19) == 10 * Pow10(18);
    if decimals <= 18 { PowersAdd(decimals, 18 - decimals); PowerGrows(Pow10(decimals), Pow10(18 - decimals)); }
    if decimals >= 19 { PowersAdd(19, decimals - 19); PowerGrows(Pow10(19), Pow10(decimals - 19)); }
  }

  lemma PowerGrows(p: nat, q: nat)
    requires 0 < q
    ensures p <= p * q
  {
    MulMonotone(1, q, p);
  }

  // ---- Digits ----

  lemma {:induction false} PowersAdd(j: nat, k: nat)
    ensures Pow10(j + k) == Pow10(j) * Pow10(k)
  {
    if j > 0 { PowersAdd(j - 1, k); }
  }

  lemma {:induction false} ValueOfConcat(s: string, t: string)
    requires AllDigits(s) && AllDigits(t)
    ensures AllDigits(s + t) && DigitsValue(s + t) == DigitsValue(s) * Pow10(|t|) + DigitsValue(t)
  {
    if t == [] {
      assert s + t == s;
    } else {
      var init := t[..|t| - 1];
      ValueOfConcat(s, init);
      assert (s + t)[..|s + t| - 1] == s + init;
      TenTimes(DigitsValue(s), Pow10(|init|));
    }
  }

  lemma TenTimes(s: nat, p: nat)
    ensures s * (10 * p) == 10 * (s * p)
  {}

  lemma {:induction false} ValueBound(s: string)
    requires AllDigits(s)
    ensures DigitsValue(s) < Pow10(|s|)
  {
    if s != [] { ValueBound(s[..|s| - 1]); }
  }

  lemma {:induction false} ValueOfZeros(n: nat)
    ensures AllDigits(Zeros(n)) && DigitsValue(Zeros(n)) == 0
  {
    if n > 0 {
      ValueOfZeros(n - 1);
      assert Zeros(n)[..n - 1] == Zeros(n - 1);
    }
  }

  lemma {:induction false} PrefixOfDigits(s: string)
    requires AllDigits(s)
    ensures DigitPrefix(s) == s
  {
    if s != [] {
      PrefixOfDigits(s[1..]);
      assert [s[0]] + s[1..] == s;
    }
  }

  // ---- Truncation ----

  /** Text that is plainly an amount: a sign or none, digits, and a point with more digits or none. */
  datatype Written = Written(sign: string, whole: string, point: bool, fraction: string)
  {
    predicate Valid() {
      && sign in {"", "+", "-"}
      && AllDigits(whole) && AllDigits(fraction) && (!point ==> fraction == [])
    }

    function Text(): string {
      sign + whole + (if point then ['.'] + fraction else [])
    }

    /** The exact value in units of `10^-decimals`, rounded towards zero. */
    function Truncated(decimals: nat): int
      requires Valid()
    {
      ValueOfConcat(whole, fraction);
      var units: int := Quotient(DigitsValue(whole + fraction) * Pow10(decimals), Pow10(|fraction|));
      if sign == "-" then -units else units
    }
  }

  lemma SignTrimmed(w: Written)
    requires w.Valid()
    ensures var body := w.whole + (if w.point then ['.'] + w.fraction else []);
      TrimSigns(w.Text()) == body && Trim(w.Text(), IsBlank) == w.Text()
    ensures w.sign == "-" <==> (w.Text() != [] && w.Text()[0] == '-')
  {
    var body := w.whole + (if w.point then ['.'] + w.fraction else []);
    assert body != [] ==> body[0] !in {'+', '-'};
    if w.sign != "" { assert w.Text()[1..] == body; } else { assert w.Text() == body; }
  }

  lemma BodySplits(w: Written)
    requires w.Valid()
    ensures SplitOnce(w.whole + (if w.point then ['.'] + w.fraction else []), '.')
         == (w.whole, if w.point then Some(w.fraction) else None)
  {
    if w.point {
      assert w.whole + (['.'] + w.fraction) == w.whole + ['.'] + w.fraction;
      SplitOnceAt(w.whole, w.fraction, '.');
    } else {
      assert w.whole + [] == w.whole;
      SplitOnceNone(w.whole, '.');
    }
  }

  lemma IntCastOf(digits: string)
    requires AllDigits(digits)
    ensures IntCast(digits) == Min(DigitsValue(digits), TWO_63 - 1)
    ensures IntCast(if digits != [] then digits else "0") == Min(DigitsValue(digits), TWO_63 - 1)
  {
    PrefixOfDigits(digits);
    PrefixOfDigits("0");
    assert "0"[..0] == [] && DigitsValue("0") == 0;
  }

  lemma KeptDigits(digits: string, decimals: nat)
    requires AllDigits(digits)
    ensures AllDigits(Kept(digits, decimals))
  {}

  lemma ParsedParts(w: Written, decimals: nat)
    requires w.Valid() && decimals != 0
    ensures AllDigits(Kept(w.fraction, decimals))
    ensures ToMinorUnits(w.Text(), decimals)
         == Assembled(w.sign == "-", Min(DigitsValue(w.whole), TWO_63 - 1),
                      Min(DigitsValue(Kept(w.fraction, decimals)), TWO_63 - 1), decimals)
  {
    SignTrimmed(w);
    BodySplits(w);
    KeptDigits(w.fraction, decimals);
    IntCastOf(w.whole);
    IntCastOf(Kept(w.fraction, decimals));
    hide IntCast, Kept, TrimSigns, Trim, SplitOnce, Written.Text, DigitsValue, Pow10, Assembled;
  }

  /** Stopping a cast at the largest integer never shows: the result is too large all the same. */
  lemma SaturationHidden(isNegative: bool, whole: nat, frac: nat, decimals: nat)
    requires decimals != 0 && (decimals <= 18 ==> frac < TWO_63)
    ensures var units: int := whole * Pow10(decimals) + frac;
      Assembled(isNegative, Min(whole, TWO_63 - 1), Min(frac, TWO_63 - 1), decimals)
      == if decimals <= 18 && units < TWO_63 then Some(if isNegative then -units else units) else None
  {
    PowerFits(decimals);
    assert Pow10(decimals) == 10 * Pow10(decimals - 1);
    hide Pow10;
    SaturatedProduct(whole, Pow10(decimals));
  }

  lemma SaturatedProduct(whole: nat, factor: nat)
    requires 10 <= factor
    ensures whole >= TWO_63 ==> Min(whole, TWO_63 - 1) * factor >= TWO_63 && whole * factor >= TWO_63
    ensures whole < TWO_63 ==> Min(whole, TWO_63 - 1) == whole
    ensures 0 <= whole * factor
  {
    MulMonotone(10, factor, TWO_63 - 1);
    MulMonotone(10, factor, whole);
  }

  /** On any plain amount, however many digits follow the point, the parser cuts the exact value towards
      zero at `decimals` digits, and fails exactly if that is no machine integer whose sign can be dropped,
      or from 19 decimals on. */
  lemma ParserTruncates(w: Written, decimals: nat)
    requires w.Valid() && decimals != 0
    ensures ToMinorUnits(w.Text(), decimals)
         == if decimals <= 18 && Abs(w.Truncated(decimals)) < TWO_63 then Some(w.Truncated(decimals)) else None
  {
    ParsedParts(w, decimals);
    KeptBound(w.fraction, decimals);
    hide ToMinorUnits, Written.Text, Kept, Pow10, DigitsValue, Quotient, Assembled;
    UnitsTruncate(w.whole, w.fraction, decimals);
    SaturationHidden(w.sign == "-", DigitsValue(w.whole), DigitsValue(Kept(w.fraction, decimals)), decimals);
  }

  lemma KeptBound(digits: string, decimals: nat)
    requires AllDigits(digits)
    ensures AllDigits(Kept(digits, decimals))
    ensures decimals <= 18 ==> DigitsValue(Kept(digits, decimals)) < TWO_63
  {
    KeptDigits(digits, decimals);
    assert |Kept(digits, decimals)| == decimals;
    ValueBound(Kept(digits, decimals));
    PowerFits(decimals);
  }

  lemma UnitsTruncate(whole: string, fraction: string, decimals: nat)
    requires AllDigits(whole) && AllDigits(fraction)
    ensures AllDigits(Kept(fraction, decimals)) && AllDigits(whole + fraction)
    ensures Quotient(DigitsValue(whole + fraction) * Pow10(decimals), Pow10(|fraction|))
         == DigitsValue(whole) * Pow10(decimals) + DigitsValue(Kept(fraction, decimals))
  {
    hide DigitsValue, Pow10;
    KeptDigits(fraction, decimals);
    ValueOfConcat(whole, fraction);
    if |fraction| < decimals {
      var missing := decimals - |fraction|;
      ValueOfZeros(missing);
      ValueOfConcat(fraction, Zeros(missing));
      PowersAdd(|fraction|, missing);
      ShorterFraction(DigitsValue(whole), DigitsValue(fraction), Pow10(|fraction|), Pow10(missing));
    } else {
      var kept, dropped := fraction[..decimals], fraction[decimals..];
      assert fraction == kept + dropped && Kept(fraction, decimals) == kept;
      ValueOfConcat(kept, dropped);
      ValueBound(dropped);
      PowersAdd(decimals, |dropped|);
      LongerFraction(DigitsValue(whole), DigitsValue(kept), DigitsValue(dropped), Pow10(decimals), Pow10(|dropped|));
    }
  }

  lemma ShorterFraction(whole: nat, fraction: nat, scale: nat, missing: nat)
    requires 0 < scale && 0 < missing
    ensures Quotient((whole * scale + fraction) * (scale * missing), scale) == whole * (scale * missing) + fraction * missing
  {
    var units := whole * (scale * missing) + fraction * missing;
    assert (whole * scale + fraction) * (scale * missing) == units * scale;
    assert (units + 1) * scale == units * scale + scale;
    QuotientUnique(units * scale, scale, units);
  }

  lemma LongerFraction(whole: nat, kept: nat, dropped: nat, scale: nat, rest: nat)
    requires 0 < scale && dropped < rest
    ensures 0 < scale * rest
    ensures Quotient((whole * (scale * rest) + (kept * rest + dropped)) * scale, scale * rest) == whole * scale + kept
  {
    var units := whole * scale + kept;
    MulMonotone(1, rest, scale);
    var x := (whole * (scale * rest) + (kept * rest + dropped)) * scale;
    assert whole * (scale * rest) + kept * rest == units * rest;
    assert x == (units * rest + dropped) * scale == units * (scale * rest) + dropped * scale;
    assert 0 <= dropped * scale < rest * scale by {
      MulMonotone(0, dropped, scale);
      MulMonotone(dropped + 1, rest, scale);
    }
    assert (units + 1) * (scale * rest) == units * (scale * rest) + scale * rest;
    QuotientUnique(x, scale * rest, units);
  }

  // ---- Round trips ----

  lemma {:induction false} DecimalShort(n: nat, width: nat)
    requires 0 < width && n < Pow10(width)
    ensures |Decimal(n)| <= width
  {
    assert Pow10(1) == 10;
    if n >= 10 {
      DecimalShort(n / 10, width - 1);
    }
  }

  lemma ZerosInFront(n: nat, s: string)
    requires AllDigits(s)
    ensures AllDigits(Zeros(n) + s) && DigitsValue(Zeros(n) + s) == DigitsValue(s)
  {
    hide DigitsValue, Pow10;
    ValueOfZeros(n);
    ValueOfConcat(Zeros(n), s);
  }

  lemma PaddedValue(n: nat, width: nat)
    requires 0 < width && n < Pow10(width)
    ensures var s := PadLeft(Decimal(n), width); AllDigits(s) && |s| == width && DigitsValue(s) == n
  {
    hide DigitsValue, Pow10, Decimal;
    DecimalShort(n, width);
    DecimalValue(n);
    ZerosInFront(width - |Decimal(n)|, Decimal(n));
  }

  /** Printing and parsing back: with at least one decimal the formatter prints every amount but the
      least machine integer, up to 18 decimals, and the parser reads back what it printed. */
  lemma DecimalRoundTrip(m: i64, decimals: nat)
    requires 1 <= decimals
    ensures FormatMajorUnits(m, decimals).Some? <==> decimals <= 18 && m != -TWO_63
    ensures FormatMajorUnits(m, decimals).Some? ==> ToMinorUnits(FormatMajorUnits(m, decimals).value, decimals) == Some(m)
  {
    PowerFits(decimals);
    if decimals <= 18 && m != -TWO_63 {
      hide FormatMajorUnits, ToMinorUnits, Assembled, Kept, DigitsValue, Pow10, Quotient, Remainder, Min, Written.Text;
      var w := PrintedParts(m, decimals);
      ParsedParts(w, decimals);
      Reassembled(m, decimals);
    }
  }

  /** Quotient and remainder make up the amount again. */
  lemma Reassembled(m: i64, decimals: nat)
    requires 1 <= decimals <= 18 && m != -TWO_63
    ensures Assembled(m < 0, Min(Quotient(Abs(m), Pow10(decimals)), TWO_63 - 1),
                      Min(Remainder(Abs(m), Pow10(decimals)), TWO_63 - 1), decimals) == Some(m)
  {
    hide Assembled, Pow10, Quotient, Remainder, Min;
    PowerFits(decimals);
    QuotientRemainder(Abs(m), Pow10(decimals));
    SaturationHidden(m < 0, Quotient(Abs(m), Pow10(decimals)), Remainder(Abs(m), Pow10(decimals)), decimals);
  }

  /** The printed text is a plain amount whose parts are the quotient and the remainder. */
  lemma PrintedParts(m: i64, decimals: nat) returns (w: Written)
    requires 1 <= decimals <= 18 && m != -TWO_63
    ensures w.Valid() && FormatMajorUnits(m, decimals) == Some(w.Text()) && w.sign == (if m < 0 then "-" else "")
    ensures Kept(w.fraction, decimals) == w.fraction && w.point && |w.fraction| == decimals
    ensures DigitsValue(w.whole) == Quotient(Abs(m), Pow10(decimals))
    ensures DigitsValue(w.fraction) == Remainder(Abs(m), Pow10(decimals))
  {
    PowerFits(decimals);
    var whole, fraction := Quotient(Abs(m), Pow10(decimals)), Remainder(Abs(m), Pow10(decimals));
    PaddedValue(fraction, decimals);
    DecimalValue(whole);
    w := Written(if m < 0 then "-" else "", Decimal(whole), true, PadLeft(Decimal(fraction), decimals));
    assert Kept(w.fraction, decimals) == w.fraction;
    hide DigitsValue, Pow10, Quotient, Remainder, Decimal, PadLeft, Kept;
    assert w.Text() == FormatMajorUnits(m, decimals).value;
  }

  /** The gateway and the client print the same text for every amount in every currency, and the client
      reads back what the gateway shows of any with decimals. */
  lemma GatewayAndClientAgree(m: Money)
    ensures FormatMajorUnits(m.minorUnits, m.currency.Exponent()) == Some(MajorUnitsDisplay(m))
    ensures m.currency.Exponent() != 0 ==>
      ToMinorUnits(MajorUnitsDisplay(m), m.currency.Exponent()) == Some(m.minorUnits)
  {
    hide Quotient, Remainder, Decimal, PadLeft, Pow10;
    PowerFits(m.currency.Exponent());
    if m.currency.Exponent() != 0 {
      DecimalRoundTrip(m.minorUnits, m.currency.Exponent());
      assert FormatMajorUnits(m.minorUnits, m.currency.Exponent()).value == MajorUnitsDisplay(m);
    }
  }

  /** Blanks around an amount do not matter. */
  lemma BlanksIgnored(before: string, w: Written, after: string, decimals: nat)
    requires w.Valid() && decimals != 0
    requires forall c :: c in before || c in after ==> c in {' ', '\t', '\n', '\r', '\0', '\U{0B}'}
    ensures ToMinorUnits(before + w.Text() + after, decimals) == ToMinorUnits(w.Text(), decimals)
  {
    var s := w.Text();
    SignTrimmed(w);
    assert s == [] || (!IsBlank(s[0]) && !IsBlank(s[|s| - 1]));
    Trimmed(before, s, after, IsBlank);
  }

  /** What the gateway shows has exactly as many decimals as the currency, and as a number it is the amount
      in minor units divided by 100, or by 1000 for three currencies; amounts in yen are shown as they are. */
  lemma ShownAmount(m: Money) returns (w: Written)
    ensures w.Valid() && w.sign == "" && MajorUnitsDisplay(m) == w.Text()
    ensures |w.fraction| == if m.currency in {Kwd, Bhd, Omr} then 3 else if m.currency == Jpy then 0 else 2
    ensures w.point <==> m.currency != Jpy
    ensures DigitsValue(w.whole + w.fraction) == m.minorUnits
  {
    hide Quotient, Remainder, Decimal, PadLeft, Pow10, DigitsValue, FormatMajorUnits, ToMinorUnits;
    var n, exp := m.minorUnits, m.currency.Exponent();
    PowerFits(exp);
    if exp == 0 {
      w := Written("", Decimal(n), false, []);
      DecimalValue(n);
      assert w.whole + [] == w.whole;
    } else {
      GatewayAndClientAgree(m);
      hide MajorUnitsDisplay, Written.Text;
      w := PrintedParts(n, exp);
      ValueOfConcat(w.whole, w.fraction);
      QuotientRemainder(n, Pow10(exp));
    }
  }
}
