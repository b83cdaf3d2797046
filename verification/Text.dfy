/** Splitting and joining, decimal numbers, and hex: the text formats the other modules print and parse. */
module Text {
  import opened Wrappers
  import opened MachineInts

  // ---- Splitting ----

  /** Everything between separators; there is always at least one part. */
  function Split<T(==)>(s: seq<T>, sep: T): (parts: seq<seq<T>>)
    ensures parts != []
  {
    if s == [] then [[]]
    else
      var rest := Split(s[1..], sep);
      if s[0] == sep then [[]] + rest else [[s[0]] + rest[0]] + rest[1..]
  }

  function Join<T>(parts: seq<seq<T>>, sep: T): seq<T> {
    if parts == [] then [] else if |parts| == 1 then parts[0] else parts[0] + [sep] + Join(parts[1..], sep)
  }

  /** The part before the first separator, and what follows it if there is one. */
  function SplitOnce<T(==)>(s: seq<T>, sep: T): (seq<T>, Option<seq<T>>) {
    if s == [] then ([], None)
    else if s[0] == sep then ([], Some(s[1..]))
    else
      var (before, after) := SplitOnce(s[1..], sep);
      ([s[0]] + before, after)
  }

  lemma {:induction false} JoinOfSplit<T>(s: seq<T>, sep: T)
    ensures Join(Split(s, sep), sep) == s
    ensures forall i :: 0 <= i < |Split(s, sep)| ==> sep !in Split(s, sep)[i]
  {
    if s != [] {
      JoinOfSplit(s[1..], sep);
      var rest := Split(s[1..], sep);
      if s[0] == sep {
        assert Split(s, sep)[1..] == rest;
      } else if |rest| > 1 {
        assert Split(s, sep)[1..] == rest[1..];
      }
    }
  }

  /** Text without the separator stays in front of the first part. */
  lemma {:induction false} SplitPrefix<T>(s: seq<T>, rest: seq<T>, sep: T)
    requires sep !in s
    ensures Split(s + rest, sep) == [s + Split(rest, sep)[0]] + Split(rest, sep)[1..]
  {
    if s == [] {
      assert s + rest == rest && [] + Split(rest, sep)[0] == Split(rest, sep)[0];
      assert Split(rest, sep) == [Split(rest, sep)[0]] + Split(rest, sep)[1..];
    } else {
      assert (s + rest)[1..] == s[1..] + rest;
      SplitPrefix(s[1..], rest, sep);
      assert [s[0]] + (s[1..] + Split(rest, sep)[0]) == s + Split(rest, sep)[0];
    }
  }

  lemma {:induction false} SplitOfJoin<T>(parts: seq<seq<T>>, sep: T)
    requires parts != [] && forall i :: 0 <= i < |parts| ==> sep !in parts[i]
    ensures Split(Join(parts, sep), sep) == parts
  {
    if |parts| == 1 {
      SplitPrefix(parts[0], [], sep);
      assert parts[0] + [] == parts[0];
    } else {
      var rest := [sep] + Join(parts[1..], sep);
      SplitOfJoin(parts[1..], sep);
      assert rest[1..] == Join(parts[1..], sep);
      assert Split(rest, sep)[0] == [] && Split(rest, sep)[1..] == parts[1..];
      assert parts[0] + [] == parts[0];
      SplitPrefix(parts[0], rest, sep);
      assert parts[0] + rest == Join(parts, sep);
      assert parts == [parts[0]] + parts[1..];
    }
  }

  lemma {:induction false} SplitOnceAt<T>(before: seq<T>, after: seq<T>, sep: T)
    requires sep !in before
    ensures SplitOnce(before + [sep] + after, sep) == (before, Some(after))
  {
    var s := before + [sep] + after;
    if before == [] {
      assert s[0] == sep && s[1..] == after;
    } else {
      SplitOnceAt(before[1..], after, sep);
      assert s[1..] == before[1..] + [sep] + after;
      assert [before[0]] + before[1..] == before;
    }
  }

  lemma {:induction false} SplitOnceNone<T>(s: seq<T>, sep: T)
    requires sep !in s
    ensures SplitOnce(s, sep) == (s, None)
  {
    if s != [] {
      SplitOnceNone(s[1..], sep);
      assert [s[0]] + s[1..] == s;
    }
  }

  /** Without the characters at either end that are to be dropped. */
  function Trim(s: string, drop: char -> bool): string {
    if s == [] then []
    else if drop(s[0]) then Trim(s[1..], drop)
    else if drop(s[|s| - 1]) then Trim(s[..|s| - 1], drop)
    else s
  }

  lemma {:induction false} TrimFront(pad: string, s: string, drop: char -> bool)
    requires forall i :: 0 <= i < |pad| ==> drop(pad[i])
    ensures Trim(pad + s, drop) == Trim(s, drop)
  {
    if pad == [] {
      assert pad + s == s;
    } else {
      assert (pad + s)[1..] == pad[1..] + s;
      TrimFront(pad[1..], s, drop);
    }
  }

  lemma {:induction false} TrimBack(s: string, pad: string, drop: char -> bool)
    requires forall i :: 0 <= i < |pad| ==> drop(pad[i])
    requires s == [] || (!drop(s[0]) && !drop(s[|s| - 1]))
    ensures Trim(s + pad, drop) == s
    decreases |pad|
  {
    if pad == [] {
      assert s + pad == s;
    } else if s == [] {
      assert s + pad == pad && pad[1..] == [] + pad[1..];
      TrimBack(s, pad[1..], drop);
    } else {
      assert (s + pad)[..|s + pad| - 1] == s + pad[..|pad| - 1];
      TrimBack(s, pad[..|pad| - 1], drop);
    }
  }

  /** Trimming takes away everything to be dropped on both sides, and nothing else. */
  lemma Trimmed(before: string, s: string, after: string, drop: char -> bool)
    requires forall c :: c in before || c in after ==> drop(c)
    requires s == [] || (!drop(s[0]) && !drop(s[|s| - 1]))
    ensures Trim(before + s + after, drop) == s
  {
    assert before + s + after == before + (s + after);
    TrimFront(before, s + after, drop);
    TrimBack(s, after, drop);
  }

  // ---- Decimal numbers ----

  predicate IsDigit(c: char) {
    '0' <= c <= '9'
  }

  predicate AllDigits(s: string) {
    forall i :: 0 <= i < |s| ==> IsDigit(s[i])
  }

  function DigitChar(d: nat): (c: char)
    requires d < 10
    ensures IsDigit(c)
  {
    '0' + d as char
  }

  function DigitValue(c: char): (d: nat)
    requires IsDigit(c)
    ensures d < 10 && DigitChar(d) == c
  {
    (c - '0') as nat
  }

  lemma DigitsInOrder(d: nat)
    requires d < 10
    ensures DigitChar(d) == "0123456789"[d]
  {}

  function Decimal(n: nat): (s: string)
    ensures s != [] && AllDigits(s)
  {
    if n < 10 then [DigitChar(n)] else Decimal(n / 10) + [DigitChar(n % 10)]
  }

  function DigitsValue(s: string): nat
    requires AllDigits(s)
  {
    if s == [] then 0 else 10 * DigitsValue(s[..|s| - 1]) + DigitValue(s[|s| - 1])
  }

  /** A number is printed with its value and without leading zeros. */
  lemma {:induction false} DecimalValue(n: nat)
    ensures DigitsValue(Decimal(n)) == n
    ensures Decimal(n)[0] == '0' ==> n == 0 && Decimal(n) == "0"
  {
    if n >= 10 {
      var init := Decimal(n / 10);
      DecimalValue(n / 10);
      assert (init + [DigitChar(n % 10)])[..|init|] == init;
    }
  }

  /** A signed number as it is printed: a minus sign only if negative. */
  function SignedDecimal(n: int): (s: string)
    ensures s != [] && (s[0] == '-' <==> n < 0) && forall i :: 0 <= i < |s| ==> IsDigit(s[i]) || s[i] == '-'
  {
    if n < 0 then ['-'] + Decimal(-n) else Decimal(n)
  }

  /** `str::parse::<i64>`: an optional sign, at least one digit, and a value that fits. */
  function ParseI64(s: string): Option<i64> {
    var digits := if s != [] && s[0] in {'-', '+'} then s[1..] else s;
    if digits == [] || !AllDigits(digits) then None
    else
      var value := if s[0] == '-' then -(DigitsValue(digits) as int) else DigitsValue(digits);
      if -TWO_63 <= value < TWO_63 then Some(value) else None
  }

  /** What is printed is read back, with or without a plus sign, exactly if it fits. */
  lemma ParsePrinted(n: int)
    ensures ParseI64(SignedDecimal(n)) == if -TWO_63 <= n < TWO_63 then Some(n) else None
    ensures 0 <= n ==> ParseI64("+" + Decimal(n)) == if n < TWO_63 then Some(n) else None
  {
    if 0 <= n { assert ("+" + Decimal(n))[1..] == Decimal(n); }
    if n < 0 {
      DecimalValue(-n);
      assert SignedDecimal(n)[1..] == Decimal(-n);
    } else {
      DecimalValue(n);
    }
  }

  // ---- Hex ----

  type Byte = bv8

  function HexChar(nibble: Byte): char
    requires nibble < 16
  {
    "0123456789abcdef"[nibble]
  }

  /** A digit in either case. */
  function HexValue(c: char): (r: Option<Byte>)
    ensures r.Some? ==> r.value < 16
  {
    match c
    case '0' => Some(0) case '1' => Some(1) case '2' => Some(2) case '3' => Some(3)
    case '4' => Some(4) case '5' => Some(5) case '6' => Some(6) case '7' => Some(7)
    case '8' => Some(8) case '9' => Some(9)
    case 'a' => Some(10) case 'b' => Some(11) case 'c' => Some(12)
    case 'd' => Some(13) case 'e' => Some(14) case 'f' => Some(15)
    case 'A' => Some(10) case 'B' => Some(11) case 'C' => Some(12)
    case 'D' => Some(13) case 'E' => Some(14) case 'F' => Some(15)
    case _ => None
  }

  function HexEncode(bytes: seq<Byte>): string {
    if bytes == [] then [] else [HexChar(bytes[0] >> 4), HexChar(bytes[0] & 15)] + HexEncode(bytes[1..])
  }

  function HexDecode(s: string): Option<seq<Byte>>
  {
    if s == [] then Some([])
    else if |s| == 1 then None
    else
      match (HexValue(s[0]), HexValue(s[1]), HexDecode(s[2..]))
      case (Some(high), Some(low), Some(rest)) => Some([(high << 4) | low] + rest)
      case _ => None
  }

  lemma HexByte(b: Byte)
    ensures b >> 4 < 16 && b & 15 < 16
    ensures ((b >> 4) << 4) | (b & 15) == b
  {}

  lemma HexDigits(nibble: Byte)
    requires nibble < 16
    ensures HexValue(HexChar(nibble)) == Some(nibble)
    ensures HexValue("0123456789abcdef"[nibble]) == HexValue("0123456789ABCDEF"[nibble]) == Some(nibble)
    ensures HexChar(nibble) in "0123456789abcdef"
  {}

  lemma NotHex(c: char)
    ensures HexValue(c).None? <==> c !in "0123456789abcdefABCDEF"
  {
    var digits := "0123456789abcdefABCDEF";
    assert forall i :: 0 <= i < |digits| ==> HexValue(digits[i]).Some?;
    if HexValue(c).Some? { var v := HexValue(c).value; assert c == digits[v] || (10 <= v && c == digits[v + 6]); }
  }

  lemma {:induction false} HexRoundTrip(bytes: seq<Byte>)
    ensures HexDecode(HexEncode(bytes)) == Some(bytes)
    ensures forall c :: c in HexEncode(bytes) ==> c in "0123456789abcdef"
  {
    if bytes != [] {
      HexRoundTrip(bytes[1..]);
      HexByte(bytes[0]);
      HexDigits(bytes[0] >> 4);
      HexDigits(bytes[0] & 15);
      var s := HexEncode(bytes);
      assert s[2..] == HexEncode(bytes[1..]);
      assert s[0] == HexChar(bytes[0] >> 4) && s[1] == HexChar(bytes[0] & 15);
      assert bytes == [bytes[0]] + bytes[1..];
    }
  }
}
