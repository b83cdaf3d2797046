/** UTF-8, as far as `String::from_utf8_lossy` needs it (section 4 of RFC 3629). */
module Utf8 {
  import opened Text

  type Bytes = seq<Byte>

  /** How long a character with this first byte is; 0 if none has it. */
  function Width(b: Byte): (w: nat)
    ensures w <= 4
  {
    if b <= 0x7F then 1
    else if 0xC2 <= b <= 0xDF then 2
    else if 0xE0 <= b <= 0xEF then 3
    else if 0xF0 <= b <= 0xF4 then 4
    else 0
  }

  predicate IsContinuation(b: Byte) {
    0x80 <= b <= 0xBF
  }

  predicate IsSecond(first: Byte, b: Byte) {
    && IsContinuation(b)
    && (first == 0xE0 ==> 0xA0 <= b) && (first == 0xED ==> b <= 0x9F)
    && (first == 0xF0 ==> 0x90 <= b) && (first == 0xF4 ==> b <= 0x8F)
  }

  datatype Chunk = Chunk(valid: bool, length: nat)

  /** The front of the bytes: a character, or as many bytes as a character could have started with. */
  function Front(s: Bytes): (c: Chunk)
    requires s != []
    ensures 1 <= c.length <= 4 && c.length <= |s| && (!c.valid ==> c.length <= 3)
  {
    var w := Width(s[0]);
    if w == 0 then Chunk(false, 1)
    else if w == 1 then Chunk(true, 1)
    else if |s| < 2 || !IsSecond(s[0], s[1]) then Chunk(false, 1)
    else if w == 2 then Chunk(true, 2)
    else if |s| < 3 || !IsContinuation(s[2]) then Chunk(false, 2)
    else if w == 3 then Chunk(true, 3)
    else if |s| < 4 || !IsContinuation(s[3]) then Chunk(false, 3)
    else Chunk(true, 4)
  }

  predicate ValidUtf8(s: Bytes) {
    s == [] || (Front(s).valid && ValidUtf8(s[Front(s).length..]))
  }

  /** The encoding of U+FFFD. */
  const REPLACEMENT: Bytes := [0xEF, 0xBF, 0xBD]

  function Lossy(s: Bytes): Bytes
    decreases |s|
  {
    if s == [] then [] else Shown(s) + Lossy(s[Front(s).length..])
  }

  /** What the front of the bytes becomes. */
  function Shown(s: Bytes): Bytes
    requires s != []
  {
    if Front(s).valid then s[..Front(s).length] else REPLACEMENT
  }

  /** Valid text comes through unchanged. */
  lemma {:induction false} LossyKeepsValid(s: Bytes)
    requires ValidUtf8(s)
    ensures Lossy(s) == s
  {
    if s != [] {
      LossyKeepsValid(s[Front(s).length..]);
      assert s == s[..Front(s).length] + s[Front(s).length..];
    }
  }

  /** No byte becomes more than one replacement character. */
  lemma {:induction false} LossyBound(s: Bytes)
    ensures |Lossy(s)| <= 3 * |s|
  {
    if s != [] { LossyBound(s[Front(s).length..]); }
  }

  predicate IsCharacter(u: Bytes) {
    u != [] && Front(u) == Chunk(true, |u|)
  }

  // ---- The standard's definition ----

  /** A code point that text can hold: any but the surrogates. */
  predicate IsScalar(n: bv32) {
    n <= 0xD7FF || 0xE000 <= n <= 0x10FFFF
  }

  /** The last six bits, behind the mark of a byte that continues a character. */
  function Continuation(n: bv32): Byte {
    0x80 | ((n & 0x3F) as Byte)
  }

  /** The table of section 3 of RFC 3629. */
  function Encoded(n: bv32): Bytes
    requires IsScalar(n)
  {
    if n <= 0x7F then [n as Byte]
    else if n <= 0x7FF then [0xC0 | ((n >> 6) as Byte), Continuation(n)]
    else if n <= 0xFFFF then [0xE0 | ((n >> 12) as Byte), Continuation(n >> 6), Continuation(n)]
    else [0xF0 | ((n >> 18) as Byte), Continuation(n >> 12), Continuation(n >> 6), Continuation(n)]
  }

  /** Every code point's encoding is a character, */
  lemma EncodedIsCharacter(n: bv32)
    requires IsScalar(n)
    ensures IsCharacter(Encoded(n))
  {}

  /** The code point that two, three or four bytes encode. */
  function Scalar2(a: Byte, b: Byte): bv32 {
    (((a & 0x1F) as bv32) << 6) | ((b & 0x3F) as bv32)
  }

  function Scalar3(a: Byte, b: Byte, c: Byte): bv32 {
    (((a & 0x0F) as bv32) << 12) | (((b & 0x3F) as bv32) << 6) | ((c & 0x3F) as bv32)
  }

  function Scalar4(a: Byte, b: Byte, c: Byte, d: Byte): bv32 {
    (((a & 0x07) as bv32) << 18) | (((b & 0x3F) as bv32) << 12) | (((c & 0x3F) as bv32) << 6) | ((d & 0x3F) as bv32)
  }

  lemma OneByte(a: Byte)
    requires Width(a) == 1
    ensures IsScalar(a as bv32) && Encoded(a as bv32) == [a]
  {}

  lemma TwoBytes(a: Byte, b: Byte)
    requires Width(a) == 2 && IsSecond(a, b)
    ensures var n := Scalar2(a, b); 0x7F < n <= 0x7FF && 0xC0 | ((n >> 6) as Byte) == a && Continuation(n) == b
  {}

  lemma ThreeBytes(a: Byte, b: Byte, c: Byte)
    requires Width(a) == 3 && IsSecond(a, b) && IsContinuation(c)
    ensures var n := Scalar3(a, b, c);
      && 0x7FF < n <= 0xFFFF && IsScalar(n) && 0xE0 | ((n >> 12) as Byte) == a
      && Continuation(n >> 6) == b && Continuation(n) == c
  {}

  lemma FourBytes(a: Byte, b: Byte, c: Byte, d: Byte)
    requires Width(a) == 4 && IsSecond(a, b) && IsContinuation(c) && IsContinuation(d)
    ensures var n := Scalar4(a, b, c, d);
      && 0xFFFF < n <= 0x10FFFF && 0xF0 | ((n >> 18) as Byte) == a
      && Continuation(n >> 12) == b && Continuation(n >> 6) == c && Continuation(n) == d
  {}

  /** and every character encodes a code point. */
  lemma CharacterIsEncoded(u: Bytes) returns (n: bv32)
    requires IsCharacter(u)
    ensures IsScalar(n) && Encoded(n) == u
  {
    n := if |u| == 1 then u[0] as bv32 else if |u| == 2 then Scalar2(u[0], u[1])
         else if |u| == 3 then Scalar3(u[0], u[1], u[2]) else Scalar4(u[0], u[1], u[2], u[3]);
    hide Scalar2, Scalar3, Scalar4, Encoded, Continuation, IsSecond, IsContinuation, Width, IsScalar;
    if |u| == 1 {
      OneByte(u[0]);
      assert u == [u[0]];
    } else if |u| == 2 {
      TwoBytes(u[0], u[1]);
      EncodedAs(n, u);
    } else if |u| == 3 {
      ThreeBytes(u[0], u[1], u[2]);
      EncodedAs(n, u);
    } else {
      FourBytes(u[0], u[1], u[2], u[3]);
      EncodedAs(n, u);
    }
  }

  lemma EncodedAs(n: bv32, u: Bytes)
    requires 2 <= |u| <= 4 && u[|u| - 1] == Continuation(n)
    requires |u| == 2 ==> 0x7F < n <= 0x7FF && u[0] == 0xC0 | ((n >> 6) as Byte)
    requires |u| == 3 ==> 0x7FF < n <= 0xFFFF && IsScalar(n) && u[0] == 0xE0 | ((n >> 12) as Byte) && u[1] == Continuation(n >> 6)
    requires |u| == 4 ==> 0xFFFF < n <= 0x10FFFF && u[0] == 0xF0 | ((n >> 18) as Byte)
                          && u[1] == Continuation(n >> 12) && u[2] == Continuation(n >> 6)
    ensures IsScalar(n) && Encoded(n) == u
  {
    hide Continuation;
  }

  /** Bytes that start no character are replaced together as far as a character could have gone on: one byte,
      or all that some character starts with, and never fewer than that. */
  lemma LongestStart(s: Bytes)
    requires s != [] && !Front(s).valid
    ensures var k := Front(s).length;
      && (k == 1 || exists u :: IsCharacter(u) && k < |u| && u[..k] == s[..k])
      && forall u, m | IsCharacter(u) && k < m <= |u| && m <= |s| :: u[..m] != s[..m]
  {
    var k := Front(s).length;
    if k > 1 {
      var u := if k == 2 && Width(s[0]) == 4 then s[..k] + [0x80, 0x80] else s[..k] + [0x80];
      assert u[0] == s[0] && u[1] == s[1] && (k == 3 ==> u[2] == s[2]);
      assert IsCharacter(u) && u[..k] == s[..k];
    }
    forall u: Bytes, m | IsCharacter(u) && k < m <= |u| && m <= |s| ensures u[..m] != s[..m] {
      if u[..m] == s[..m] {
        assert forall i :: 0 <= i < m ==> u[i] == u[..m][i] == s[i];
      }
    }
  }

  /** They become one U+FFFD. */
  lemma Replaced(s: Bytes)
    requires s != [] && !Front(s).valid
    ensures Lossy(s) == Encoded(0xFFFD) + Lossy(s[Front(s).length..])
  {
    assert IsScalar(0xFFFD) && Encoded(0xFFFD) == REPLACEMENT by { hide Front, Lossy; }
    hide Encoded, IsScalar, Front;
    LossyStep(s);
  }

  /** The text of these code points. */
  function EncodedText(ns: seq<bv32>): Bytes
    requires forall i :: 0 <= i < |ns| ==> IsScalar(ns[i])
  {
    if ns == [] then [] else Encoded(ns[0]) + EncodedText(ns[1..])
  }

  /** Texts of code points are valid, */
  lemma {:induction false} EncodedIsValid(ns: seq<bv32>)
    requires forall i :: 0 <= i < |ns| ==> IsScalar(ns[i])
    ensures ValidUtf8(EncodedText(ns))
  {
    hide IsScalar, Encoded, Front;
    if ns != [] {
      var u, rest := Encoded(ns[0]), EncodedText(ns[1..]);
      EncodedIsValid(ns[1..]);
      EncodedIsCharacter(ns[0]);
      FrontCharacter(u, rest);
      assert (u + rest)[|u|..] == rest;
    }
  }

  /** and nothing else is. */
  lemma {:induction false} ValidIsEncoded(s: Bytes) returns (ns: seq<bv32>)
    requires ValidUtf8(s)
    ensures (forall i :: 0 <= i < |ns| ==> IsScalar(ns[i])) && EncodedText(ns) == s
    decreases |s|
  {
    hide IsScalar, Encoded;
    if s == [] {
      ns := [];
    } else {
      var k := Front(s).length;
      assert IsCharacter(s[..k]) by { FrontAlone(s); }
      hide Front, IsCharacter;
      var n := CharacterIsEncoded(s[..k]);
      var rest := ValidIsEncoded(s[k..]);
      ns := [n] + rest;
      assert ns[1..] == rest && s == s[..k] + s[k..];
    }
  }

  lemma FrontAlone(s: Bytes)
    requires s != [] && Front(s).valid
    ensures IsCharacter(s[..Front(s).length])
  {
    var u := s[..Front(s).length];
    assert u[0] == s[0] && forall i :: 0 <= i < |u| ==> u[i] == s[i];
  }

  /** A chunk ends before a byte that continues nothing, as it does at the end of the bytes. */
  lemma FrontStops(s: Bytes, t: Bytes)
    requires s != [] && (t == [] || !IsContinuation(t[0]))
    ensures Front(s + t) == Front(s)
  {}

  lemma FrontCharacter(u: Bytes, t: Bytes)
    requires IsCharacter(u)
    ensures Front(u + t) == Chunk(true, |u|) && !IsContinuation(u[0])
    ensures |u| > 1 ==> forall i :: 0 <= i < |u| ==> 0x80 <= u[i]
    ensures |u| == 1 ==> u[0] <= 0x7F
  {}

  lemma LossyStep(s: Bytes)
    requires s != []
    ensures Lossy(s) == Shown(s) + Lossy(s[Front(s).length..])
  {}

  lemma FrontOf(s: Bytes, u: Bytes, t: Bytes)
    requires IsCharacter(u) && s != []
    ensures var n, all := Front(s).length, s + u + t;
      Front(all) == Front(s) && all[..n] == s[..n] && all[n..] == s[n..] + u + t
  {
    FrontCharacter(u, t);
    FrontStops(s, u + t);
    assert s + u + t == s + (u + t);
    hide Front;
  }

  lemma LossyCharacter(u: Bytes, t: Bytes)
    requires IsCharacter(u)
    ensures Lossy(u + t) == u + Lossy(t)
  {
    FrontCharacter(u, t);
    hide Front;
    assert (u + t)[..|u|] == u && (u + t)[|u|..] == t;
  }

  /** Decoding falls back into step at every whole character, whatever comes before it. */
  lemma {:induction false} LossySynchronizes(s: Bytes, u: Bytes, t: Bytes)
    requires IsCharacter(u)
    ensures Lossy(s + u + t) == Lossy(s) + u + Lossy(t)
    decreases |s|
  {
    hide Front, IsCharacter, Lossy;
    if s == [] {
      LossyNothing();
      LossyCharacter(u, t);
      assert s + u + t == u + t;
    } else {
      var rest := s[Front(s).length..];
      FrontOf(s, u, t);
      LossyStep(s + u + t);
      LossyStep(s);
      LossySynchronizes(rest, u, t);
      Regroup(Shown(s), Lossy(rest), u, Lossy(t));
    }
  }

  lemma LossyNothing()
    ensures Lossy([]) == []
  {}

  lemma Regroup(a: Bytes, b: Bytes, c: Bytes, d: Bytes)
    ensures a + (b + c + d) == a + b + c + d
  {}

  /** A character of one byte leaves valid text behind it. */
  lemma ValidStep(s: Bytes)
    requires ValidUtf8(s) && s != [] && s[0] <= 0x7F
    ensures ValidUtf8(s[1..])
  {
    assert Front(s) == Chunk(true, 1);
  }
}
