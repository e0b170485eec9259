/** Signed webhook deliveries: the header, its verification and the comparison loop (packages/webhook/src/index.ts). */
module Webhook {
  import opened Texts
  import opened Options

  // ---- The comparison ----

  /** `a ^ b` on the binary digits. */
  function Xor(a: nat, b: nat): nat {
    if a == 0 && b == 0 then 0 else 2 * Xor(a / 2, b / 2) + (a + b) % 2
  }

  /** `a | b` on the binary digits. */
  function Or(a: nat, b: nat): nat {
    if a == 0 && b == 0 then 0 else 2 * Or(a / 2, b / 2) + if a % 2 == 1 || b % 2 == 1 then 1 else 0
  }

  lemma {:induction false} XorZero(a: nat, b: nat)
    ensures Xor(a, b) == 0 <==> a == b
  {
    if a != 0 || b != 0 {
      XorZero(a / 2, b / 2);
    }
  }

  lemma {:induction false} OrZero(a: nat, b: nat)
    ensures Or(a, b) == 0 <==> a == 0 && b == 0
  {
    if a != 0 || b != 0 {
      OrZero(a / 2, b / 2);
    }
  }

  /** Looks at every position, and is true exactly for equal texts. */
  method TimingSafeEqual(a: Text, b: Text) returns (equal: bool)
    ensures equal <==> a == b
  {
    if |a| != |b| {
      return false;
    }
    var result := 0;
    for i := 0 to |a|
      invariant result == 0 <==> a[..i] == b[..i]
    {
      XorZero(a[i], b[i]);
      OrZero(result, Xor(a[i], b[i]));
      assert a[..i + 1] == a[..i] + [a[i]] && b[..i + 1] == b[..i] + [b[i]];
      result := Or(result, Xor(a[i], b[i]));
    }
    assert a[..|a|] == a && b[..|b|] == b;
    equal := result == 0;
  }

  // ---- The header ----

  const T_PREFIX: Text := [0x74, EQUALS]
  const V1_PREFIX: Text := [0x76, 0x31, EQUALS]

  /** The header of a delivery: its timestamp and its signature. */
  function Header(timestamp: int, signature: Text): Text {
    T_PREFIX + Numeral(timestamp) + [COMMA] + V1_PREFIX + signature
  }

  /** The first part that starts with the prefix. */
  function FindPart(parts: seq<Text>, prefix: Text): (part: Option<Text>)
    ensures part.Some? ==> prefix <= part.value
  {
    if parts == [] then None
    else if prefix <= parts[0] then Some(parts[0])
    else FindPart(parts[1..], prefix)
  }

  datatype ParsedHeader = BadFormat | BadTimestamp | Fields(timestamp: int, signature: Text)

  function ParseHeader(header: Text): ParsedHeader {
    var parts := Split(header, COMMA);
    var timestampPart, signaturePart := FindPart(parts, T_PREFIX), FindPart(parts, V1_PREFIX);
    if timestampPart.None? || signaturePart.None? then BadFormat
    else
      var timestamp := ParseInt(timestampPart.value[2..]);
      if timestamp.None? then BadTimestamp
      else Fields(timestamp.value, signaturePart.value[3..])
  }

  /** The header carries its two fields: it parses back to exactly the timestamp and the signature sent. */
  lemma HeaderParses(timestamp: int, signature: Text)
    requires COMMA !in signature
    ensures Header(timestamp, signature) == Ascii("t=") + Numeral(timestamp) + Ascii(",v1=") + signature
    ensures ParseHeader(Header(timestamp, signature)) == Fields(timestamp, signature)
  {
    assert Ascii("t=") == T_PREFIX && Ascii(",v1=") == [COMMA] + V1_PREFIX;
    ParseNumeral(timestamp);
    var first, second := T_PREFIX + Numeral(timestamp), V1_PREFIX + signature;
    HeaderParts(timestamp, signature, first, second);
    FindBoth(first, second);
    assert first[2..] == Numeral(timestamp) && second[3..] == signature;
  }

  lemma HeaderParts(timestamp: int, signature: Text, first: Text, second: Text)
    requires COMMA !in signature && first == T_PREFIX + Numeral(timestamp) && second == V1_PREFIX + signature
    ensures Split(Header(timestamp, signature), COMMA) == [first, second]
  {
    ParseNumeral(timestamp);
    assert Header(timestamp, signature) == first + [COMMA] + second;
    SplitConcat(first, second, COMMA);
    assert COMMA !in second;
  }

  lemma FindBoth(first: Text, second: Text)
    requires T_PREFIX <= first && V1_PREFIX <= second
    ensures FindPart([first, second], T_PREFIX) == Some(first)
    ensures FindPart([first, second], V1_PREFIX) == Some(second)
  {
    assert first[0] != V1_PREFIX[0];
    assert [first, second][1..] == [second];
  }

  // ---- Signing and verifying ----

  /** What is signed: `<timestamp>.<payload>` */
  function SignedPayload(payload: Text, timestamp: int): Text { Numeral(timestamp) + [DOT] + payload }

  function GenerateSignature(hmac: (Text, Text) -> Text, payload: Text, timestamp: int, secret: Text): Text {
    hmac(secret, SignedPayload(payload, timestamp))
  }

  /** The signed text determines both the timestamp and the payload. */
  lemma SignedPayloadUnambiguous(p: Text, t: int, q: Text, u: int)
    ensures SignedPayload(p, t) == SignedPayload(q, u) <==> p == q && t == u
  {
    ParseNumeral(t);
    ParseNumeral(u);
    if SignedPayload(p, t) == SignedPayload(q, u) {
      SplitConcat(Numeral(t), p, DOT);
      SplitConcat(Numeral(u), q, DOT);
      assert ([Numeral(t)] + Split(p, DOT))[1..] == Split(p, DOT);
      assert ([Numeral(u)] + Split(q, DOT))[1..] == Split(q, DOT);
      assert ([Numeral(t)] + Split(p, DOT))[0] == ([Numeral(u)] + Split(q, DOT))[0];
      JoinSplit(p, DOT);
      JoinSplit(q, DOT);
    }
  }

  datatype Verdict = Valid | InvalidFormat | InvalidTimestamp | TooOld | InFuture | Mismatch

  /** The age is tested before the signature. */
  method VerifySignature(hmac: (Text, Text) -> Text, payload: Text, header: Text, secret: Text, maxAgeSeconds: int, now: int)
    returns (v: Verdict)
    ensures v == Valid <==> Accepted(hmac, payload, header, secret, maxAgeSeconds, now)
    ensures v == InvalidFormat <==> ParseHeader(header).BadFormat?
    ensures v == InvalidTimestamp <==> ParseHeader(header).BadTimestamp?
    ensures v == TooOld <==> ParseHeader(header).Fields? && now - ParseHeader(header).timestamp > maxAgeSeconds
    ensures v == InFuture <==>
              ParseHeader(header).Fields? && now - ParseHeader(header).timestamp <= maxAgeSeconds && now - ParseHeader(header).timestamp < -60
  {
    var parsed := ParseHeader(header);
    if parsed.BadFormat? {
      return InvalidFormat;
    }
    if parsed.BadTimestamp? {
      return InvalidTimestamp;
    }
    var age := now - parsed.timestamp;
    if age > maxAgeSeconds {
      return TooOld;
    }
    if age < -60 {
      return InFuture;
    }
    var expected := GenerateSignature(hmac, payload, parsed.timestamp, secret);
    var equal := TimingSafeEqual(parsed.signature, expected);
    v := if equal then Valid else Mismatch;
  }

  /** The header names a fresh timestamp and the signature of that timestamp and this payload. */
  predicate Accepted(hmac: (Text, Text) -> Text, payload: Text, header: Text, secret: Text, maxAgeSeconds: int, now: int) {
    var parsed := ParseHeader(header);
    && parsed.Fields?
    && -60 <= now - parsed.timestamp <= maxAgeSeconds
    && parsed.signature == hmac(secret, SignedPayload(payload, parsed.timestamp))
  }

  /** A delivery is accepted exactly while it is fresh, if its signature is the HMAC of its own timestamp and payload. */
  lemma AcceptsExactly(
    hmac: (Text, Text) -> Text, payload: Text, timestamp: int, signature: Text, secret: Text, maxAgeSeconds: int, now: int)
    requires COMMA !in signature
    ensures Accepted(hmac, payload, Header(timestamp, signature), secret, maxAgeSeconds, now) <==>
              && signature == hmac(secret, SignedPayload(payload, timestamp))
              && -60 <= now - timestamp <= maxAgeSeconds
  {
    HeaderParses(timestamp, signature);
  }

  ghost predicate Injective(hmac: (Text, Text) -> Text, secret: Text) {
    forall x, y :: hmac(secret, x) == hmac(secret, y) ==> x == y
  }

  /**
   One signature vouches for one delivery: a header that carries the signature of a delivery is accepted for no other
   payload and no other timestamp, whenever it is presented.
   */
  lemma SignatureBindsDelivery(
    hmac: (Text, Text) -> Text, payload: Text, timestamp: int, secret: Text, other: Text, header: Text, maxAgeSeconds: int, now: int)
    requires Injective(hmac, secret) && ParseHeader(header).Fields?
    requires ParseHeader(header).signature == GenerateSignature(hmac, payload, timestamp, secret)
    ensures Accepted(hmac, other, header, secret, maxAgeSeconds, now) <==>
              other == payload && ParseHeader(header).timestamp == timestamp && -60 <= now - timestamp <= maxAgeSeconds
  {
    SignedPayloadUnambiguous(other, ParseHeader(header).timestamp, payload, timestamp);
  }
}
