/** Signature headers of outbound webhooks (`apps/gateway/src/outbound_webhook.rs`). The keyed hash
    is a parameter: any function from a secret and a text to bytes. */
module Signatures {
  import opened Wrappers
  import opened MachineInts
  import opened Arithmetic
  import opened Text

  type Mac = (string, string) -> seq<Byte>

  datatype SignatureError = MissingTimestamp | MissingSignature | OutsideTolerance | Mismatch

  function SignedText(timestamp: i64, payload: string): string {
    SignedDecimal(timestamp) + ['.'] + payload
  }

  function ComputeSignature(hmac: Mac, secret: string, timestamp: i64, payload: string): string {
    HexEncode(hmac(secret, SignedText(timestamp, payload)))
  }

  function CreateHeader(hmac: Mac, secret: string, timestamp: i64, payload: string): string {
    "t=" + SignedDecimal(timestamp) + ",v1=" + ComputeSignature(hmac, secret, timestamp, payload)
  }

  // ---- Reading a header ----

  /** The characters `str::trim` removes. */
  predicate IsSpace(c: char) {
    '\t' <= c <= '\r' || c == ' ' || c == '\U{85}' || c == '\U{A0}' || c == '\U{1680}' || '\U{2000}' <= c <= '\U{200A}'
    || c == '\U{2028}' || c == '\U{2029}' || c == '\U{202F}' || c == '\U{205F}' || c == '\U{3000}'
  }

  function Field(item: string): (string, Option<string>) {
    var (key, value) := SplitOnce(item, '=');
    (Trim(key, IsSpace), if value.Some? then Some(Trim(value.value, IsSpace)) else None)
  }

  /** The item sets the timestamp. */
  function TimestampOf(item: string): Option<i64> {
    var (key, value) := Field(item);
    if key == "t" && value.Some? then ParseI64(value.value) else None
  }

  /** The item adds a candidate signature. */
  function SignatureOf(item: string): Option<string> {
    var (key, value) := Field(item);
    if key == "v1" then value else None
  }

  datatype Parsed = Parsed(timestamp: Option<i64>, signatures: seq<string>)

  function Read(items: seq<string>): Parsed {
    if items == [] then Parsed(None, [])
    else
      var before, item := Read(items[..|items| - 1]), items[|items| - 1];
      Parsed(if TimestampOf(item).Some? then TimestampOf(item) else before.timestamp,
             if SignatureOf(item).Some? then before.signatures + [SignatureOf(item).value] else before.signatures)
  }

  method ReadHeader(header: string) returns (timestamp: Option<i64>, signatures: seq<string>)
    ensures Parsed(timestamp, signatures) == Read(Split(header, ','))
  {
    var items := Split(header, ',');
    timestamp, signatures := None, [];
    for n := 0 to |items|
      invariant Parsed(timestamp, signatures) == Read(items[..n])
    {
      assert items[..n + 1][..n] == items[..n];
      var (key, value) := Field(items[n]);
      match (key, value)
      case ("t", Some(text)) =>
        var parsed := ParseI64(text);
        if parsed.Some? { timestamp := parsed; }
      case ("v1", Some(signature)) =>
        signatures := signatures + [signature];
      case _ =>
    }
    assert items[..|items|] == items;
  }

  // ---- Comparing ----

  /** Equality without an early exit. */
  method ConstantTimeEqual(a: seq<Byte>, b: seq<Byte>) returns (equal: bool)
    requires |a| == |b|
    ensures equal <==> a == b
  {
    var diff: Byte := 0;
    for i := 0 to |a|
      invariant diff == 0 <==> a[..i] == b[..i]
    {
      OrXor(diff, a[i], b[i]);
      diff := diff | (a[i] ^ b[i]);
      assert a[..i + 1] == a[..i] + [a[i]] && b[..i + 1] == b[..i] + [b[i]];
    }
    assert a[..|a|] == a && b[..|b|] == b;
    return diff == 0;
  }

  lemma OrXor(diff: Byte, a: Byte, b: Byte)
    ensures diff | (a ^ b) == 0 <==> diff == 0 && a == b
  {}

  // ---- Verifying ----

  predicate InTolerance(timestamp: i64, tolerance: i64, now: i64) {
    tolerance > 0 ==> Abs(now - timestamp) <= tolerance
  }

  /** The candidate is the hex, in either case, of the hash. */
  predicate Authenticates(hmac: Mac, secret: string, timestamp: i64, payload: string, candidate: string) {
    HexDecode(candidate) == Some(hmac(secret, SignedText(timestamp, payload)))
  }

  function Verdict(hmac: Mac, secret: string, parsed: Parsed, payload: string, tolerance: i64, now: i64)
    : Result<(), SignatureError>
  {
    match parsed.timestamp
    case None => Err(MissingTimestamp)
    case Some(timestamp) =>
      if parsed.signatures == [] then Err(MissingSignature)
      else if !InTolerance(timestamp, tolerance, now) then Err(OutsideTolerance)
      else if exists i :: 0 <= i < |parsed.signatures| && Authenticates(hmac, secret, timestamp, payload, parsed.signatures[i])
      then Ok(())
      else Err(Mismatch)
  }

  method VerifySignature(hmac: Mac, secret: string, header: string, payload: string, tolerance: i64, now: i64)
    returns (r: Result<(), SignatureError>)
    ensures r == Verdict(hmac, secret, Read(Split(header, ',')), payload, tolerance, now)
  {
    hide HexDecode, HexEncode, SignedText, Read, Split;
    var found, signatures := ReadHeader(header);
    if found.None? { return Err(MissingTimestamp); }
    var timestamp := found.value;
    if signatures == [] { return Err(MissingSignature); }
    if tolerance > 0 {
      if Abs(now - timestamp) > tolerance { return Err(OutsideTolerance); }
    }
    var expected := ComputeSignature(hmac, secret, timestamp, payload);
    HexRoundTrip(hmac(secret, SignedText(timestamp, payload)));
    var expectedBytes := HexDecode(expected).value;
    for n := 0 to |signatures|
      invariant forall i :: 0 <= i < n ==> !Authenticates(hmac, secret, timestamp, payload, signatures[i])
    {
      var candidate := HexDecode(signatures[n]);
      if candidate.Some? && |candidate.value| == |expectedBytes| {
        var equal := ConstantTimeEqual(candidate.value, expectedBytes);
        if equal {
          assert Authenticates(hmac, secret, timestamp, payload, signatures[n]);
          return Ok(());
        }
      }
    }
    return Err(Mismatch);
  }

  /** `timestamp` is what the last readable `t` item of the header says. */
  ghost predicate LastTimestamp(items: seq<string>, timestamp: i64) {
    exists i :: 0 <= i < |items| && TimestampOf(items[i]) == Some(timestamp)
                && forall j :: i < j < |items| ==> TimestampOf(items[j]).None?
  }

  lemma {:induction false} ReadFindsTimestamp(items: seq<string>)
    ensures Read(items).timestamp.Some? ==> LastTimestamp(items, Read(items).timestamp.value)
    ensures Read(items).timestamp.None? ==> forall i :: 0 <= i < |items| ==> TimestampOf(items[i]).None?
  {
    if items != [] {
      var init, last := items[..|items| - 1], |items| - 1;
      ReadFindsTimestamp(init);
      if TimestampOf(items[last]).None? && Read(init).timestamp.Some? {
        var t := Read(init).timestamp.value;
        var i :| 0 <= i < |init| && TimestampOf(init[i]) == Some(t)
                 && forall j :: i < j < |init| ==> TimestampOf(init[j]).None?;
        assert TimestampOf(items[i]) == Some(t);
        assert forall j :: i < j < |items| ==> j == last || items[j] == init[j];
      } else if TimestampOf(items[last]).None? {
        assert forall i :: 0 <= i < |items| ==> i == last || items[i] == init[i];
      }
    }
  }

  lemma {:induction false} ReadFindsSignatures(items: seq<string>, signature: string)
    ensures signature in Read(items).signatures <==>
      exists i :: 0 <= i < |items| && SignatureOf(items[i]) == Some(signature)
  {
    if items != [] {
      var init, last := items[..|items| - 1], |items| - 1;
      ReadFindsSignatures(init, signature);
      if i :| 0 <= i < |init| && SignatureOf(init[i]) == Some(signature) {
        assert SignatureOf(items[i]) == Some(signature);
      }
      if i :| 0 <= i < |items| && SignatureOf(items[i]) == Some(signature) {
        assert i == last || SignatureOf(init[i]) == Some(signature);
      }
    }
  }

  ghost predicate HasTimestamp(items: seq<string>) {
    exists i :: 0 <= i < |items| && TimestampOf(items[i]).Some?
  }

  ghost predicate HasCandidate(items: seq<string>, signature: string) {
    exists i :: 0 <= i < |items| && SignatureOf(items[i]) == Some(signature)
  }

  /** The candidate is the hex, in either case, of the hash of `timestamp.payload`. */
  ghost predicate IsSignature(hmac: Mac, secret: string, timestamp: i64, payload: string, candidate: string) {
    HexDecode(candidate) == Some(hmac(secret, SignedDecimal(timestamp) + "." + payload))
  }

  /** A header is accepted if and only if its last readable timestamp is within the tolerance of now, if there
      is one, and some `v1` item is the hex of the hash of that timestamp and the payload. */
  lemma AcceptedIff(hmac: Mac, secret: string, header: string, payload: string, tolerance: i64, now: i64)
    ensures var items := Split(header, ',');
      Verdict(hmac, secret, Read(items), payload, tolerance, now).Ok? <==>
      exists timestamp: i64, signature ::
        && LastTimestamp(items, timestamp)
        && (tolerance > 0 ==> timestamp - tolerance <= now <= timestamp + tolerance)
        && HasCandidate(items, signature) && IsSignature(hmac, secret, timestamp, payload, signature)
  {
    hide HexDecode, TimestampOf, SignatureOf, Split;
    var items := Split(header, ',');
    var parsed := Read(items);
    ReadFindsTimestamp(items);
    if Verdict(hmac, secret, parsed, payload, tolerance, now).Ok? {
      var i :| 0 <= i < |parsed.signatures|
               && Authenticates(hmac, secret, parsed.timestamp.value, payload, parsed.signatures[i]);
      ReadFindsSignatures(items, parsed.signatures[i]);
      assert HasCandidate(items, parsed.signatures[i]);
      assert IsSignature(hmac, secret, parsed.timestamp.value, payload, parsed.signatures[i]);
    }
    forall timestamp: i64, signature | LastTimestamp(items, timestamp)
        && (tolerance > 0 ==> timestamp - tolerance <= now <= timestamp + tolerance)
        && HasCandidate(items, signature) && IsSignature(hmac, secret, timestamp, payload, signature)
      ensures Verdict(hmac, secret, parsed, payload, tolerance, now).Ok?
    {
      assert parsed.timestamp.Some?;
      OneLastTimestamp(items, timestamp, parsed.timestamp.value);
      ReadFindsSignatures(items, signature);
      assert Authenticates(hmac, secret, timestamp, payload, signature);
    }
  }

  /** Why a header is refused: for want of a readable timestamp first, then of a `v1` item, then because its
      last timestamp is out of tolerance, and only then because no candidate fits. */
  lemma RefusedBecause(hmac: Mac, secret: string, header: string, payload: string, tolerance: i64, now: i64)
    ensures var items := Split(header, ',');
      var verdict := Verdict(hmac, secret, Read(items), payload, tolerance, now);
      && (verdict == Err(MissingTimestamp) <==> !HasTimestamp(items))
      && (verdict == Err(MissingSignature) <==> HasTimestamp(items) && forall signature :: !HasCandidate(items, signature))
      && (verdict == Err(OutsideTolerance) <==>
            && (exists signature :: HasCandidate(items, signature))
            && exists timestamp: i64 :: LastTimestamp(items, timestamp) && tolerance > 0
                                        && !(timestamp - tolerance <= now <= timestamp + tolerance))
  {
    hide TimestampOf, SignatureOf, Split, Authenticates;
    var items := Split(header, ',');
    var parsed := Read(items);
    ReadFindsTimestamp(items);
    assert parsed.timestamp.Some? <==> HasTimestamp(items);
    CandidatesRead(items);
    if parsed.timestamp.Some? {
      forall timestamp: i64 | LastTimestamp(items, timestamp) ensures timestamp == parsed.timestamp.value {
        OneLastTimestamp(items, timestamp, parsed.timestamp.value);
      }
    }
  }

  lemma CandidatesRead(items: seq<string>)
    ensures Read(items).signatures == [] <==> forall signature :: !HasCandidate(items, signature)
  {
    forall signature ensures signature in Read(items).signatures <==> HasCandidate(items, signature) {
      ReadFindsSignatures(items, signature);
    }
    if Read(items).signatures != [] { assert Read(items).signatures[0] in Read(items).signatures; }
  }

  lemma OneLastTimestamp(items: seq<string>, s: i64, t: i64)
    requires LastTimestamp(items, s) && LastTimestamp(items, t)
    ensures s == t
  {
    var i :| 0 <= i < |items| && TimestampOf(items[i]) == Some(s)
             && forall j :: i < j < |items| ==> TimestampOf(items[j]).None?;
    var k :| 0 <= k < |items| && TimestampOf(items[k]) == Some(t)
             && forall j :: k < j < |items| ==> TimestampOf(items[j]).None?;
    assert i == k;
  }

  // ---- Printing and reading back ----

  /** Spaces around the key and the value of an item do not matter. */
  lemma SpacedField(a: string, key: string, b: string, c: string, value: string, d: string)
    requires forall x :: x in a || x in b || x in c || x in d ==> IsSpace(x)
    requires key == "t" || key == "v1"
    requires value != [] && !IsSpace(value[0]) && !IsSpace(value[|value| - 1])
    ensures Field(a + key + b + "=" + c + value + d) == (key, Some(value))
    ensures key == "t" ==> TimestampOf(a + key + b + "=" + c + value + d) == ParseI64(value)
    ensures key == "v1" ==> SignatureOf(a + key + b + "=" + c + value + d) == Some(value)
  {
    assert !IsSpace('=');
    assert a + key + b + "=" + c + value + d == (a + key + b) + ['='] + (c + value + d);
    SplitOnceAt(a + key + b, c + value + d, '=');
    Trimmed(a, key, b, IsSpace);
    Trimmed(c, value, d, IsSpace);
  }

  lemma FieldOf(key: string, value: string)
    requires key == "t" || key == "v1"
    requires forall c :: c in value ==> !IsSpace(c)
    ensures Field(key + ['='] + value) == (key, Some(value))
  {
    SplitOnceAt(key, value, '=');
  }

  lemma PrintedItems(t: string, v: string)
    requires forall c :: c in t || c in v ==> c != ','
    ensures Split("t=" + t + ",v1=" + v, ',') == ["t" + ['='] + t, "v1" + ['='] + v]
  {
    var items := ["t" + ['='] + t, "v1" + ['='] + v];
    assert items[1..] == ["v1" + ['='] + v];
    assert "t=" + t + ",v1=" + v == Join(items, ',');
    SplitOfJoin(items, ',');
  }

  lemma ReadTwo(first: string, second: string)
    ensures Read([first, second]) == Parsed(
      if TimestampOf(second).Some? then TimestampOf(second) else TimestampOf(first),
      (if SignatureOf(first).Some? then [SignatureOf(first).value] else [])
      + if SignatureOf(second).Some? then [SignatureOf(second).value] else [])
  {
    hide TimestampOf, SignatureOf;
    assert [first, second][..1] == [first] && [first][..0] == [];
    assert Read([first]) == Parsed(TimestampOf(first), if SignatureOf(first).Some? then [SignatureOf(first).value] else []);
  }

  lemma DecimalIsPlain(n: i64)
    ensures forall c :: c in SignedDecimal(n) ==> c != ',' && !IsSpace(c)
  {}

  lemma HexIsPlain(bytes: seq<Byte>)
    ensures forall c :: c in HexEncode(bytes) ==> c != ',' && !IsSpace(c)
  {
    HexRoundTrip(bytes);
  }

  /** What the verifier reads from a printed header. */
  lemma ReadPrinted(hmac: Mac, secret: string, timestamp: i64, payload: string)
    ensures Read(Split(CreateHeader(hmac, secret, timestamp, payload), ','))
         == Parsed(Some(timestamp), [ComputeSignature(hmac, secret, timestamp, payload)])
  {
    var t, v := SignedDecimal(timestamp), ComputeSignature(hmac, secret, timestamp, payload);
    HexIsPlain(hmac(secret, SignedText(timestamp, payload)));
    DecimalIsPlain(timestamp);
    ParsePrinted(timestamp);
    hide HexEncode, SignedDecimal, ParseI64, Split, Read, IsSpace, Trim, SplitOnce;
    PrintedItems(t, v);
    FieldOf("t", t);
    FieldOf("v1", v);
    ReadTwo("t" + ['='] + t, "v1" + ['='] + v);
  }

  /** Against any secret, payload and tolerance, a printed header is accepted exactly when it is in
      tolerance and the two hashes agree. With tolerance 0 it verifies what it was made for, and
      another payload or secret passes only if their hashes collide. */
  lemma HeaderRoundTrip(
    hmac: Mac, secret: string, timestamp: i64, payload: string, secret': string, payload': string, tolerance: i64, now: i64)
    ensures var parsed := Read(Split(CreateHeader(hmac, secret, timestamp, payload), ','));
      && (Verdict(hmac, secret', parsed, payload', tolerance, now).Ok? <==>
          && (tolerance > 0 ==> timestamp - tolerance <= now <= timestamp + tolerance)
          && hmac(secret, SignedDecimal(timestamp) + "." + payload) == hmac(secret', SignedDecimal(timestamp) + "." + payload'))
      && Verdict(hmac, secret, parsed, payload, 0, now) == Ok(())
  {
    ReadPrinted(hmac, secret, timestamp, payload);
    HexRoundTrip(hmac(secret, SignedText(timestamp, payload)));
    var signature := ComputeSignature(hmac, secret, timestamp, payload);
    assert [signature][0] == signature;
  }

  /** The signed text determines both of its parts. */
  lemma SignedTextInjective(s: i64, p: string, t: i64, q: string)
    requires SignedText(s, p) == SignedText(t, q)
    ensures s == t && p == q
  {
    SplitOnceAt(SignedDecimal(s), p, '.');
    SplitOnceAt(SignedDecimal(t), q, '.');
    ParsePrinted(s);
    ParsePrinted(t);
  }
}
