/** Query strings, as the bytes of their UTF-8: `parse_query`, `urlencoding_decode` and `hex_digit`
    (`apps/gateway/src/handlers.rs`). */
module QueryStrings {
  import opened Wrappers
  import opened Text
  import opened Utf8

  const PERCENT: Byte := 37
  const PLUS: Byte := 43
  const SPACE: Byte := 32
  const AMPERSAND: Byte := 38
  const EQUALS: Byte := 61

  function HexDigit(b: Byte): Option<Byte> {
    if 48 <= b <= 57 then Some(b - 48)
    else if 97 <= b <= 102 then Some(b - 97 + 10)
    else if 65 <= b <= 70 then Some(b - 65 + 10)
    else None
  }

  /** What the text decodes to at its first byte, and how many bytes that takes. */
  function First(s: Bytes): (r: (Byte, nat))
    requires s != []
    ensures 1 <= r.1 <= 3 && r.1 <= |s|
  {
    if s[0] == PERCENT && 2 < |s| && HexDigit(s[1]).Some? && HexDigit(s[2]).Some?
    then ((HexDigit(s[1]).value << 4) | HexDigit(s[2]).value, 3)
    else (if s[0] == PLUS then SPACE else s[0], 1)
  }

  function Decoded(s: Bytes): Bytes {
    if s == [] then [] else [First(s).0] + Decoded(s[First(s).1..])
  }

  /** The text that decoding returns: anything that is not UTF-8 is replaced. */
  function DecodedText(s: Bytes): Bytes {
    Lossy(Decoded(s))
  }

  lemma DecodedFrom(bytes: Bytes, i: nat)
    requires i < |bytes|
    ensures Decoded(bytes[i..]) ==
      if bytes[i] == PERCENT && i + 2 < |bytes| && HexDigit(bytes[i + 1]).Some? && HexDigit(bytes[i + 2]).Some?
      then [(HexDigit(bytes[i + 1]).value << 4) | HexDigit(bytes[i + 2]).value] + Decoded(bytes[i + 3..])
      else [if bytes[i] == PLUS then SPACE else bytes[i]] + Decoded(bytes[i + 1..])
  {
    hide HexDigit;
    var rest := bytes[i..];
    assert rest[1..] == bytes[i + 1..] && (i + 2 < |bytes| ==> rest[3..] == bytes[i + 3..]);
  }

  lemma DecodedEnd()
    ensures Decoded([]) == []
  {}

  lemma Shifted(out: Bytes, b: Byte, rest: Bytes)
    ensures out + ([b] + rest) == (out + [b]) + rest
  {}

  method UrlDecode(bytes: Bytes) returns (text: Bytes)
    ensures text == DecodedText(bytes)
  {
    hide HexDigit, Lossy, Decoded, First;
    DecodedEnd();
    var out: Bytes := [];
    var i := 0;
    while i < |bytes|
      invariant 0 <= i <= |bytes|
      invariant out + Decoded(bytes[i..]) == Decoded(bytes)
    {
      DecodedFrom(bytes, i);
      if bytes[i] == PERCENT && i + 2 < |bytes| {
        var hi := HexDigit(bytes[i + 1]);
        var lo := HexDigit(bytes[i + 2]);
        if hi.Some? && lo.Some? {
          Shifted(out, (hi.value << 4) | lo.value, Decoded(bytes[i + 3..]));
          out := out + [(hi.value << 4) | lo.value];
          i := i + 3;
          continue;
        }
        Shifted(out, bytes[i], Decoded(bytes[i + 1..]));
        out := out + [bytes[i]];
        i := i + 1;
      } else if bytes[i] == PLUS {
        Shifted(out, SPACE, Decoded(bytes[i + 1..]));
        out := out + [SPACE];
        i := i + 1;
      } else {
        Shifted(out, bytes[i], Decoded(bytes[i + 1..]));
        out := out + [bytes[i]];
        i := i + 1;
      }
    }
    assert bytes[i..] == [];
    assert out + [] == out;
    return Lossy(out);
  }

  /** The bytes are the characters they are named for, and hex digits those of either case. */
  lemma BytesAreCharacters(b: Byte)
    ensures PERCENT as char == '%' && PLUS as char == '+' && SPACE as char == ' '
    ensures AMPERSAND as char == '&' && EQUALS as char == '='
    ensures HexDigit(b) == HexValue(b as char)
  {}

  /** A percent sign that two hex digits do not follow is a character like any other. */
  lemma LonePercent(s: Bytes)
    requires s != [] && s[0] == PERCENT
    requires |s| < 3 || HexDigit(s[1]) == None || HexDigit(s[2]) == None
    ensures Decoded(s) == [PERCENT] + Decoded(s[1..])
  {}

  // ---- Length ----

  /** A character of several bytes is copied. */
  lemma {:induction false} DecodedCopies(u: Bytes, t: Bytes)
    requires forall i :: 0 <= i < |u| ==> 0x80 <= u[i]
    ensures Decoded(u + t) == u + Decoded(t)
  {
    if u == [] {
      assert u + t == t;
    } else {
      assert (u + t)[1..] == u[1..] + t;
      DecodedCopies(u[1..], t);
      assert First(u + t) == (u[0], 1);
      assert u == [u[0]] + u[1..];
    }
  }

  /** After bytes that escapes have produced, three written for each, text decodes to no more than its
      own length and theirs. */
  lemma {:induction false} EscapesPay(escaped: Bytes, s: Bytes)
    requires ValidUtf8(s)
    ensures |Lossy(escaped + Decoded(s))| <= 3 * |escaped| + |s|
    decreases |s|
  {
    hide Lossy, ValidUtf8, Decoded, IsCharacter, Front, First;
    if s == [] {
      NothingDecoded(escaped);
      LossyBound(escaped);
    } else if First(s).1 == 3 {
      AsciiSkipped(s);
      DecodedStep(escaped, s);
      EscapesPay(escaped + [First(s).0], s[3..]);
    } else {
      var n := Front(s).length;
      FrontIsValid(s);
      CharacterDecoded(s);
      var u := if n == 1 then [First(s).0] else s[..n];
      LossySynchronizes(escaped, u, Decoded(s[n..]));
      assert escaped + (u + Decoded(s[n..])) == escaped + u + Decoded(s[n..]);
      LossyBound(escaped);
      EscapesPay([], s[n..]);
      assert [] + Decoded(s[n..]) == Decoded(s[n..]);
    }
  }

  lemma NothingDecoded(escaped: Bytes)
    ensures escaped + Decoded([]) == escaped
  {}

  lemma DecodedStep(escaped: Bytes, s: Bytes)
    requires s != []
    ensures escaped + Decoded(s) == (escaped + [First(s).0]) + Decoded(s[First(s).1..])
  {}

  lemma FrontIsValid(s: Bytes)
    requires ValidUtf8(s) && s != [] && First(s).1 != 3
    ensures Front(s).valid && ValidUtf8(s[Front(s).length..]) && First(s).1 == 1
  {}

  /** An escape is three characters of one byte. */
  lemma AsciiSkipped(s: Bytes)
    requires ValidUtf8(s) && s != [] && First(s).1 == 3
    ensures ValidUtf8(s[3..])
  {
    ValidStep(s);
    assert s[1] <= 0x7F && s[2] <= 0x7F;
    ValidStep(s[1..]);
    assert s[1..][1..] == s[2..];
    ValidStep(s[2..]);
    assert s[2..][1..] == s[3..];
  }

  /** A character that is no escape decodes to a character of its length. */
  lemma CharacterDecoded(s: Bytes)
    requires s != [] && Front(s).valid && First(s).1 == 1
    ensures var n := Front(s).length; var u := if n == 1 then [First(s).0] else s[..n];
      IsCharacter(u) && |u| == n && Decoded(s) == u + Decoded(s[n..])
  {
    var n := Front(s).length;
    var u := s[..n];
    assert s == u + s[n..];
    FrontAlone(s);
    FrontCharacter(u, []);
    if n > 1 {
      hide Front, IsCharacter;
      DecodedCopies(u, s[n..]);
    } else {
      assert Front([First(s).0]) == Chunk(true, 1);
    }
  }

  /** Decoding never lengthens a text, replacement characters included. */
  lemma NeverLonger(s: Bytes)
    requires ValidUtf8(s)
    ensures |DecodedText(s)| <= |s|
  {
    EscapesPay([], s);
    assert [] + Decoded(s) == Decoded(s);
  }

  // ---- Percent-encoding ----

  /** The ways to write one byte: itself unless it has a meaning of its own, `+` for a space, or a
      percent sign and two hex digits of either case. */
  ghost predicate Writes(unit: Bytes, b: Byte) {
    || (unit == [b] && b != PERCENT && b != PLUS && b != AMPERSAND && b != EQUALS)
    || (unit == [PLUS] && b == SPACE)
    || (|unit| == 3 && unit[0] == PERCENT && HexDigit(unit[1]).Some? && HexDigit(unit[2]).Some?
        && (HexDigit(unit[1]).value << 4) | HexDigit(unit[2]).value == b)
  }

  /** `text` percent-encodes `bytes`, in whichever of the allowed ways for each byte. */
  ghost predicate Encodes(text: Bytes, bytes: Bytes)
    decreases |bytes|
  {
    if bytes == [] then text == []
    else exists n :: 0 < n <= |text| && Writes(text[..n], bytes[0]) && Encodes(text[n..], bytes[1..])
  }

  lemma {:induction false} DecodedUndoesEncode(text: Bytes, bytes: Bytes)
    requires Encodes(text, bytes)
    ensures Decoded(text) == bytes
    decreases |bytes|
  {
    if bytes != [] {
      var n :| 0 < n <= |text| && Writes(text[..n], bytes[0]) && Encodes(text[n..], bytes[1..]);
      DecodedUndoesEncode(text[n..], bytes[1..]);
      FirstUndoesWrites(text, n, bytes[0]);
      assert bytes == [bytes[0]] + bytes[1..];
    }
  }

  /** Decoding undoes every encoding of every text. */
  lemma DecodeUndoesEncode(text: Bytes, bytes: Bytes)
    requires Encodes(text, bytes) && ValidUtf8(bytes)
    ensures DecodedText(text) == bytes
  {
    DecodedUndoesEncode(text, bytes);
    LossyKeepsValid(bytes);
  }

  lemma FirstUndoesWrites(text: Bytes, n: nat, b: Byte)
    requires 0 < n <= |text| && Writes(text[..n], b)
    ensures First(text) == (b, n)
  {
    assert text[0] == text[..n][0];
    if n == 3 {
      assert text[1] == text[..n][1] && text[2] == text[..n][2];
    }
  }

  /** An encoded text holds none of the bytes that structure a query. */
  lemma {:induction false} EncodedIsPlain(text: Bytes, bytes: Bytes)
    requires Encodes(text, bytes)
    ensures AMPERSAND !in text && EQUALS !in text
    decreases |bytes|
  {
    if bytes != [] {
      var n :| 0 < n <= |text| && Writes(text[..n], bytes[0]) && Encodes(text[n..], bytes[1..]);
      EncodedIsPlain(text[n..], bytes[1..]);
      WritesIsPlain(text[..n], bytes[0]);
      assert text == text[..n] + text[n..];
    }
  }

  lemma WritesIsPlain(unit: Bytes, b: Byte)
    requires Writes(unit, b)
    ensures AMPERSAND !in unit && EQUALS !in unit
  {
    if |unit| == 3 {
      assert unit == [unit[0], unit[1], unit[2]];
    }
  }

  // ---- Queries ----

  type Pair = (Bytes, Bytes)

  function PairOf(text: Bytes): Pair {
    var (key, value) := SplitOnce(text, EQUALS);
    (DecodedText(key), if value.Some? then DecodedText(value.value) else [])
  }

  /** Later pairs overwrite earlier ones, as collecting into a map does. */
  function Collected(parts: seq<Bytes>): map<Bytes, Bytes> {
    if parts == [] then map[]
    else
      var init, last := Collected(parts[..|parts| - 1]), parts[|parts| - 1];
      if last == [] then init else init[PairOf(last).0 := PairOf(last).1]
  }

  function ParseQuery(raw: Bytes): map<Bytes, Bytes> {
    Collected(Split(raw, AMPERSAND))
  }

  function MapOf(pairs: seq<Pair>): map<Bytes, Bytes> {
    if pairs == [] then map[]
    else MapOf(pairs[..|pairs| - 1])[pairs[|pairs| - 1].0 := pairs[|pairs| - 1].1]
  }

  /** `text` writes the pair as `key=value`, both encoded. */
  ghost predicate WritesPair(text: Bytes, pair: Pair) {
    exists n :: 0 <= n < |text| && text[n] == EQUALS && Encodes(text[..n], pair.0) && Encodes(text[n + 1..], pair.1)
  }

  predicate IsText(pair: Pair) {
    ValidUtf8(pair.0) && ValidUtf8(pair.1)
  }

  lemma PairSplit(key: Bytes, value: Bytes)
    requires EQUALS !in key && AMPERSAND !in key && AMPERSAND !in value
    ensures PairOf(key + [EQUALS] + value) == (DecodedText(key), DecodedText(value))
    ensures AMPERSAND !in key + [EQUALS] + value
  {
    hide DecodedText;
    SplitOnceAt(key, value, EQUALS);
  }

  lemma CutAt(text: Bytes, n: nat)
    requires n < |text|
    ensures text == text[..n] + [text[n]] + text[n + 1..]
  {}

  lemma PairRoundTrip(text: Bytes, pair: Pair)
    requires WritesPair(text, pair) && IsText(pair)
    ensures PairOf(text) == pair && text != [] && AMPERSAND !in text
  {
    var n :| 0 <= n < |text| && text[n] == EQUALS && Encodes(text[..n], pair.0) && Encodes(text[n + 1..], pair.1);
    assert ValidUtf8(pair.0) && ValidUtf8(pair.1);
    hide *;
    EncodedIsPlain(text[..n], pair.0);
    EncodedIsPlain(text[n + 1..], pair.1);
    DecodeUndoesEncode(text[..n], pair.0);
    DecodeUndoesEncode(text[n + 1..], pair.1);
    PairSplit(text[..n], text[n + 1..]);
    CutAt(text, n);
  }

  lemma {:induction false} CollectedIsMap(parts: seq<Bytes>, pairs: seq<Pair>)
    requires |parts| == |pairs| && forall i :: 0 <= i < |parts| ==> WritesPair(parts[i], pairs[i]) && IsText(pairs[i])
    ensures Collected(parts) == MapOf(pairs)
  {
    if parts != [] {
      var last := |parts| - 1;
      CollectedIsMap(parts[..last], pairs[..last]);
      PairRoundTrip(parts[last], pairs[last]);
    }
  }

  /** A key with no value has the empty one, and an empty query no keys. */
  lemma KeyAlone(text: Bytes, key: Bytes)
    requires Encodes(text, key) && ValidUtf8(key) && text != []
    ensures ParseQuery(text) == map[key := []] && ParseQuery([]) == map[]
  {
    EncodedIsPlain(text, key);
    DecodeUndoesEncode(text, key);
    SplitOnceNone(text, EQUALS);
    hide Encodes, ValidUtf8, DecodedText;
    SplitOfJoin([text], AMPERSAND);
    var none: seq<Bytes> := [[]];
    assert Split([], AMPERSAND) == none && none[..0] == [] && none[0] == [];
    assert Collected(none[..0]) == map[];
    assert [text][..0] == [] && [text][0] == text;
    assert Collected([text][..0]) == map[];
    assert PairOf(text) == (key, []);
  }

  /** Parsing undoes writing: the query that joins any encodings of a list of pairs of texts parses to
      the map of those pairs, empty keys, empty values, no pairs at all and repeated keys included. */
  lemma QueryRoundTrip(parts: seq<Bytes>, pairs: seq<Pair>)
    requires |parts| == |pairs| && forall i :: 0 <= i < |parts| ==> WritesPair(parts[i], pairs[i]) && IsText(pairs[i])
    ensures ParseQuery(Join(parts, AMPERSAND)) == MapOf(pairs)
  {
    hide WritesPair, PairOf, IsText;
    if parts == [] {
      assert Split(Join(parts, AMPERSAND), AMPERSAND) == [[]];
      assert Collected([[]]) == Collected([[]][..0]);
    } else {
      forall i | 0 <= i < |parts| ensures AMPERSAND !in parts[i] { PairRoundTrip(parts[i], pairs[i]); }
      SplitOfJoin(parts, AMPERSAND);
      CollectedIsMap(parts, pairs);
    }
  }

  /** With distinct keys the map holds exactly the pairs. */
  lemma {:induction false} MapHoldsPairs(pairs: seq<Pair>)
    requires forall i, j :: 0 <= i < j < |pairs| ==> pairs[i].0 != pairs[j].0
    ensures forall k, v :: (k, v) in pairs <==> k in MapOf(pairs) && MapOf(pairs)[k] == v
  {
    if pairs != [] {
      var init, last := pairs[..|pairs| - 1], pairs[|pairs| - 1];
      MapHoldsPairs(init);
      assert pairs == init + [last];
      forall k, v | (k, v) in init ensures k != last.0 {}
    }
  }

  // ---- The usual encoder ----

  function UpperHex(nibble: Byte): Byte
    requires nibble < 16
  {
    if nibble < 10 then 48 + nibble else 65 + (nibble - 10)
  }

  /** The unreserved characters of section 2.3 of RFC 3986. */
  predicate IsUnreserved(b: Byte) {
    48 <= b <= 57 || 65 <= b <= 90 || 97 <= b <= 122 || b == 45 || b == 46 || b == 95 || b == 126
  }

  function Encode(bytes: Bytes): Bytes {
    if bytes == [] then []
    else
      var b := bytes[0];
      HexByte(b);
      (if IsUnreserved(b) then [b] else if b == SPACE then [PLUS] else [PERCENT, UpperHex(b >> 4), UpperHex(b & 15)])
      + Encode(bytes[1..])
  }

  lemma UpperHexDigit(nibble: Byte)
    requires nibble < 16
    ensures HexDigit(UpperHex(nibble)) == Some(nibble)
  {}

  /** One such encoder: decoding its output gives back every text. */
  lemma {:induction false} EncodeRoundTrip(bytes: Bytes)
    ensures Encodes(Encode(bytes), bytes)
    ensures ValidUtf8(bytes) ==> DecodedText(Encode(bytes)) == bytes
  {
    hide DecodedText, ValidUtf8;
    if bytes != [] {
      EncodeRoundTrip(bytes[1..]);
      HexByte(bytes[0]);
      UpperHexDigit(bytes[0] >> 4);
      UpperHexDigit(bytes[0] & 15);
      var n := if IsUnreserved(bytes[0]) || bytes[0] == SPACE then 1 else 3;
      var text := Encode(bytes);
      assert text[n..] == Encode(bytes[1..]);
      assert Writes(text[..n], bytes[0]);
    }
    if ValidUtf8(bytes) { DecodeUndoesEncode(Encode(bytes), bytes); }
  }
}
