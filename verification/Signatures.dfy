/**
 The DER signature codec, low-S normalisation and the compact signature layout of the KMS signer
 (packages/signers/src/gcpKmsSigner.ts).
 */
module Signatures {
  import opened Lists

  type Byte = n: nat | n < 256
  type Bytes = seq<Byte>
  type Nibble = n: nat | n < 16

  // ---- Big-endian integers and hexadecimal text ----

  /** The unsigned big-endian value of a buffer. */
  function Value(b: Bytes): nat {
    if b == [] then 0 else Value(b[..|b| - 1]) * 256 + b[|b| - 1]
  }

  function Pow(base: nat, n: nat): nat {
    if n == 0 then 1 else Pow(base, n - 1) * base
  }

  /** `n.toString(16)`, digit by digit. */
  function ToHex(n: nat): (h: seq<Nibble>)
    ensures |h| > 0
  {
    if n < 16 then [n] else ToHex(n / 16) + [n % 16]
  }

  /** `h.padStart(width, '0')` */
  function PadStart(h: seq<Nibble>, width: nat): seq<Nibble>
    decreases width - |h|
  {
    if |h| >= width then h else PadStart([0] + h, width)
  }

  function JoinNibbles(x: Nibble, y: Nibble): Byte { (x as nat) * 16 + y }

  /** `Buffer.from(h, 'hex')`: an odd last digit is dropped. */
  function FromHex(h: seq<Nibble>): Bytes {
    if |h| < 2 then [] else [JoinNibbles(h[0], h[1])] + FromHex(h[2..])
  }

  /** `buffer.toString('hex')` */
  function HexOf(b: Bytes): seq<Nibble> {
    if b == [] then [] else [b[0] / 16, b[0] % 16] + HexOf(b[1..])
  }

  function HexValue(h: seq<Nibble>): nat {
    if h == [] then 0 else HexValue(h[..|h| - 1]) * 16 + h[|h| - 1]
  }

  /** The integer as 32 bytes, by way of 64 hex digits. */
  function Bytes32(n: nat): Bytes { FromHex(PadStart(ToHex(n), 64)) }

  lemma {:induction false} ToHexValue(n: nat)
    ensures HexValue(ToHex(n)) == n
  {
    if n < 16 {
      assert [n as Nibble][..0] == [];
    } else {
      ToHexValue(n / 16);
      assert ToHex(n)[..|ToHex(n)| - 1] == ToHex(n / 16);
    }
  }

  lemma {:induction false} ToHexLength(n: nat, width: nat)
    requires width > 0 && n < Pow(16, width)
    ensures |ToHex(n)| <= width
  {
    if n >= 16 {
      assert width > 1;
      ToHexLength(n / 16, width - 1);
    }
  }

  lemma {:induction false} HexValueLeadingZero(h: seq<Nibble>)
    ensures HexValue([0] + h) == HexValue(h)
  {
    var g := [0 as Nibble] + h;
    if h == [] {
      assert g[..0] == [];
    } else {
      HexValueLeadingZero(h[..|h| - 1]);
      assert g[..|g| - 1] == [0] + h[..|h| - 1];
    }
  }

  lemma {:induction false} PadStartValue(h: seq<Nibble>, width: nat)
    ensures HexValue(PadStart(h, width)) == HexValue(h)
    ensures |PadStart(h, width)| == if |h| >= width then |h| else width
    decreases width - |h|
  {
    if |h| < width {
      PadStartValue([0] + h, width);
      HexValueLeadingZero(h);
    }
  }

  lemma {:induction false} FromHexAppend(h: seq<Nibble>, x: Nibble, y: Nibble)
    requires |h| % 2 == 0
    ensures FromHex(h + [x, y]) == FromHex(h) + [JoinNibbles(x, y)]
  {
    if h == [] {
      assert (h + [x, y])[2..] == [] && h + [x, y] == [x, y];
    } else {
      assert (h + [x, y])[2..] == h[2..] + [x, y];
      FromHexAppend(h[2..], x, y);
    }
  }

  lemma HexValueByte(h: seq<Nibble>, x: Nibble, y: Nibble)
    ensures HexValue(h + [x, y]) == HexValue(h) * 256 + JoinNibbles(x, y)
  {
    var g := h + [x, y];
    assert g[..|g| - 1] == h + [x] && (h + [x])[..|h|] == h;
  }

  lemma {:induction false} FromHexValue(h: seq<Nibble>)
    requires |h| % 2 == 0
    ensures Value(FromHex(h)) == HexValue(h) && |FromHex(h)| == |h| / 2
  {
    if h != [] {
      var n := |h|;
      var front, x, y := h[..n - 2], h[n - 2], h[n - 1];
      assert h == front + [x, y];
      FromHexValue(front);
      FromHexAppend(front, x, y);
      HexValueByte(front, x, y);
    }
  }

  const TWO_256: nat := 0x1_0000_0000_0000_0000_0000_0000_0000_0000_0000_0000_0000_0000_0000_0000_0000_0000

  lemma {:induction false} PowDouble(base: nat, n: nat)
    ensures Pow(base, n + n) == Pow(base, n) * Pow(base, n)
  {
    PowAdd(base, n, n);
  }

  lemma {:induction false} PowAdd(base: nat, m: nat, n: nat)
    ensures Pow(base, m + n) == Pow(base, m) * Pow(base, n)
  {
    if n > 0 {
      PowAdd(base, m, n - 1);
    }
  }

  /** 64 hex digits hold 256 bits; `n` is 4, kept symbolic. */
  lemma Sixteen64(n: nat)
    requires n + n == 8
    ensures Pow(16, n * 16) == TWO_256
  {
    assert Pow(16, n) == 0x1_0000 by {
      assert Pow(16, n - 1) == 0x1000 by {
        assert Pow(16, n - 2) == 0x100 by {
          assert Pow(16, n - 3) == 0x10 by {
            assert Pow(16, n - 4) == 1;
          }
        }
      }
    }
    PowDouble(16, n);
    PowDouble(16, n + n);
    PowDouble(16, n + n + n + n);
    PowDouble(16, n * 8);
  }

  lemma Four() returns (n: nat)
    ensures n + n == 8
  {
    n := 4;
  }

  /** Every integer below 2^256 becomes 32 bytes of the same value. */
  lemma Bytes32Value(n: nat)
    requires n < TWO_256
    ensures |Bytes32(n)| == 32 && Value(Bytes32(n)) == n
  {
    var w := Four();
    Sixteen64(w);
    ToHexLength(n, w * 16);
    ToHexValue(n);
    PadStartValue(ToHex(n), 64);
    FromHexValue(PadStart(ToHex(n), 64));
  }

  lemma {:induction false} ValueBound(b: Bytes)
    ensures Value(b) < Pow(256, |b|)
  {
    if b != [] {
      ValueBound(b[..|b| - 1]);
    }
  }

  // ---- DER ----

  datatype Parsed = Invalid | Signature(r: nat, s: nat)

  /** `der[i]`, -1 standing for undefined. */
  function At(der: Bytes, i: nat): int { if i < |der| then der[i] else -1 }

  /** `der.subarray(from, from + n)`, clamped to the buffer. */
  function Sub(der: Bytes, from: nat, n: nat): Bytes {
    if from >= |der| then [] else if from + n >= |der| then der[from..] else der[from..from + n]
  }

  function Parse(der: Bytes): Parsed {
    if At(der, 0) != 0x30 || At(der, 2) != 0x02 || At(der, 3) < 0 then Invalid
    else
      var rLen := At(der, 3);
      var offset := 4 + rLen;
      if At(der, offset) != 0x02 || At(der, offset + 1) < 0 then Invalid
      else
        var rBytes, sBytes := Sub(der, 4, rLen), Sub(der, offset + 2, At(der, offset + 1));
        if rBytes == [] || sBytes == [] then Invalid else Signature(Value(rBytes), Value(sBytes))
  }

  /** Reading past the end yields undefined, after which every path of the source throws. */
  method ParseDerSignature(der: Bytes) returns (p: Parsed)
    ensures p == Parse(der)
  {
    if At(der, 0) != 0x30 {
      return Invalid;
    }
    var offset := 2;
    if At(der, offset) != 0x02 {
      return Invalid;
    }
    offset := offset + 1;
    var rLen := At(der, offset);
    if rLen < 0 {
      return Invalid;
    }
    offset := offset + 1;
    var rBytes := Sub(der, offset, rLen);
    offset := offset + rLen;
    if At(der, offset) != 0x02 {
      return Invalid;
    }
    offset := offset + 1;
    var sLen := At(der, offset);
    if sLen < 0 {
      return Invalid;
    }
    offset := offset + 1;
    var sBytes := Sub(der, offset, sLen);
    if rBytes == [] || sBytes == [] {
      return Invalid;
    }
    p := Signature(Value(rBytes), Value(sBytes));
  }

  /** A buffer without the leading zero bytes that are not its last byte. */
  function Trimmed(b: Bytes): Bytes {
    if |b| > 1 && b[0] == 0 then Trimmed(b[1..]) else b
  }

  /** The content octets of the INTEGER. */
  function Content(b: Bytes): Bytes {
    var t := Trimmed(b);
    if t != [] && t[0] >= 0x80 then [0] + t else t
  }

  /** A tag, a one-byte length and the content. */
  function Tlv(tag: Byte, content: Bytes): Bytes { [tag, |content| % 256] + content }

  method Asn1Integer(buf: Bytes) returns (der: Bytes)
    ensures der == Tlv(0x02, Content(buf))
  {
    var start := 0;
    while start < |buf| - 1 && buf[start] == 0
      invariant 0 <= start <= |buf|
      invariant Trimmed(buf[start..]) == Trimmed(buf)
    {
      assert buf[start..][1..] == buf[start + 1..];
      start := start + 1;
    }
    var trimmed := buf[start..];
    if trimmed != [] && trimmed[0] >= 0x80 {
      trimmed := [0] + trimmed;
    }
    der := [0x02, |trimmed| % 256] + trimmed;
  }

  function Encode(r: Bytes, s: Bytes): Bytes {
    Tlv(0x30, Tlv(0x02, Content(r)) + Tlv(0x02, Content(s)))
  }

  method EncodeDerSignature(r: Bytes, s: Bytes) returns (der: Bytes)
    ensures der == Encode(r, s)
  {
    var rDer := Asn1Integer(r);
    var sDer := Asn1Integer(s);
    var payload := rDer + sDer;
    der := [0x30, |payload| % 256] + payload;
  }

  // ---- Canonical DER (sections 8.3 and 10.1 of X.690) ----

  /** The shortest two's complement content of a non-negative INTEGER. */
  predicate Minimal(c: Bytes) {
    c != [] && c[0] < 0x80 && (|c| > 1 && c[0] == 0 ==> c[1] >= 0x80)
  }

  /** A SEQUENCE of two minimal non-negative INTEGERs, all lengths in short form. */
  predicate CanonicalOf(der: Bytes, cr: Bytes, cs: Bytes) {
    && Minimal(cr) && Minimal(cs)
    && 4 + |cr| + |cs| < 128
    && der == [0x30, 4 + |cr| + |cs|] + ([0x02, |cr|] + cr + ([0x02, |cs|] + cs))
  }

  ghost predicate Canonical(der: Bytes) {
    exists cr, cs :: CanonicalOf(der, cr, cs)
  }

  lemma {:induction false} ValueLeadingZero(b: Bytes)
    ensures Value([0] + b) == Value(b)
  {
    var c := [0 as Byte] + b;
    if b == [] {
      assert c[..0] == [];
    } else {
      ValueLeadingZero(b[..|b| - 1]);
      assert c[..|c| - 1] == [0] + b[..|b| - 1];
    }
  }

  /** Content octets are minimal, keep the value, and outgrow the buffer by at most one. */
  lemma {:induction false} ContentIsMinimal(b: Bytes)
    requires b != []
    ensures Minimal(Content(b)) && Value(Content(b)) == Value(b) && |Content(b)| <= |b| + 1
  {
    if |b| > 1 && b[0] == 0 {
      ContentIsMinimal(b[1..]);
      ValueLeadingZero(b[1..]);
      assert b == [0] + b[1..];
    } else {
      ValueLeadingZero(b);
    }
  }

  lemma {:induction false} ValuePositive(b: Bytes)
    requires b != [] && b[0] != 0
    ensures Value(b) > 0
  {
    if |b| > 1 {
      ValuePositive(b[..|b| - 1]);
    }
  }

  lemma {:induction false} ValueInjective(a: Bytes, b: Bytes)
    requires a == [] || a[0] != 0
    requires b == [] || b[0] != 0
    requires Value(a) == Value(b)
    ensures a == b
  {
    if a == [] {
      if b != [] {
        ValuePositive(b);
      }
    } else if b == [] {
      ValuePositive(a);
    } else {
      var x, y := a[..|a| - 1], b[..|b| - 1];
      assert a == x + [a[|a| - 1]] && b == y + [b[|b| - 1]];
      ValueInjective(x, y);
    }
  }

  /** A minimal content is determined by its value. */
  lemma MinimalUnique(c: Bytes, d: Bytes)
    requires Minimal(c) && Minimal(d) && Value(c) == Value(d)
    ensures c == d
  {
    var c', d' := if c[0] == 0 then c[1..] else c, if d[0] == 0 then d[1..] else d;
    assert c[0] == 0 ==> c == [0] + c[1..];
    assert d[0] == 0 ==> d == [0] + d[1..];
    ValueLeadingZero(c[1..]);
    ValueLeadingZero(d[1..]);
    ValueInjective(c', d');
  }

  lemma EncodeShape(cr: Bytes, cs: Bytes)
    requires |cr| < 256 && |cs| < 256
    ensures Tlv(0x30, Tlv(0x02, cr) + Tlv(0x02, cs)) == [0x30, (4 + |cr| + |cs|) % 256] + ([0x02, |cr|] + cr + ([0x02, |cs|] + cs))
  {
  }

  lemma ParseContents(der: Bytes, length: Byte, cr: Bytes, cs: Bytes)
    requires 0 < |cr| < 256 && 0 < |cs| < 256
    requires der == [0x30, length] + ([0x02, |cr|] + cr + ([0x02, |cs|] + cs))
    ensures Parse(der) == Signature(Value(cr), Value(cs))
  {
    var offset := 4 + |cr|;
    assert der[2] == 0x02 && der[3] == |cr| && der[offset] == 0x02 && der[offset + 1] == |cs|;
    assert Sub(der, 4, |cr|) == cr;
    assert Sub(der, offset + 2, |cs|) == cs;
  }

  /** What is taken of the bytes after a length octet. */
  function Taken(n: nat, tail: Bytes): Bytes { if |tail| <= n then tail else tail[..n] }

  lemma SubTail(head: Bytes, tail: Bytes, n: nat)
    requires tail != []
    ensures Sub(head + tail, |head|, n) == Taken(n, tail)
  {
    var der := head + tail;
    assert der[|head|..] == tail;
    if n < |tail| {
      assert der[|head|..|head| + n] == tail[..n];
    }
  }

  lemma SubMiddle(head: Bytes, middle: Bytes, tail: Bytes)
    requires middle != []
    ensures Sub(head + middle + tail, |head|, |middle|) == middle
  {
    assert head + middle + tail == head + (middle + tail);
    SubTail(head, middle + tail, |middle|);
  }

  lemma ParseFields(der: Bytes, cr: Bytes, cs: Bytes, n: nat)
    requires 0 < |cr| < 256 && cs != [] && |der| >= 6 + |cr|
    requires der[0] == 0x30 && der[2] == 0x02 && der[3] == |cr| && der[4 + |cr|] == 0x02 && der[5 + |cr|] == n
    requires Sub(der, 4, |cr|) == cr && Sub(der, 6 + |cr|, n) == cs
    ensures Parse(der) == Signature(Value(cr), Value(cs))
  {
  }

  lemma LaxShape(length: Byte, cr: Bytes, n: Byte, tail: Bytes, der: Bytes)
    requires 0 < |cr| < 256 && n > 0 && tail != []
    requires der == [0x30, length, 0x02, |cr|] + cr + [0x02, n] + tail
    ensures |der| >= 6 + |cr|
    ensures der[0] == 0x30 && der[2] == 0x02 && der[3] == |cr| && der[4 + |cr|] == 0x02 && der[5 + |cr|] == n
    ensures Sub(der, 4, |cr|) == cr && Sub(der, 6 + |cr|, n) == Taken(n, tail)
  {
    var start: Bytes := [0x30, length, 0x02, |cr|];
    SubTail(start + cr + [0x02, n], tail, n);
    SubMiddle(start, cr, [0x02, n] + tail);
    assert der == start + cr + ([0x02, n] + tail);
  }

  /** Whatever the outer length says; bytes after s are not looked at, and an s cut short is taken as it is. */
  lemma ParseIsLax(length: Byte, cr: Bytes, n: Byte, tail: Bytes, der: Bytes)
    requires 0 < |cr| < 256 && n > 0 && tail != []
    requires der == [0x30, length, 0x02, |cr|] + cr + [0x02, n] + tail
    ensures Parse(der) == Signature(Value(cr), Value(Taken(n, tail)))
  {
    LaxShape(length, cr, n, tail, der);
    ParseFields(der, cr, Taken(n, tail), n);
  }

  /** Parsing undoes encoding: the values of the two buffers come back. */
  lemma ParseEncode(r: Bytes, s: Bytes)
    requires 0 < |r| < 255 && 0 < |s| < 255
    ensures Parse(Encode(r, s)) == Signature(Value(r), Value(s))
  {
    ContentIsMinimal(r);
    ContentIsMinimal(s);
    ParseEncoded(Content(r), Content(s));
  }

  lemma ParseEncoded(cr: Bytes, cs: Bytes)
    requires 0 < |cr| < 256 && 0 < |cs| < 256
    ensures Parse(Tlv(0x30, Tlv(0x02, cr) + Tlv(0x02, cs))) == Signature(Value(cr), Value(cs))
  {
    EncodeShape(cr, cs);
    ParseContents(Tlv(0x30, Tlv(0x02, cr) + Tlv(0x02, cs)), (4 + |cr| + |cs|) % 256, cr, cs);
  }

  /** What is encoded is canonical: minimal integers, short lengths (up to 60 bytes each, 32 in the signer). */
  lemma EncodeIsCanonical(r: Bytes, s: Bytes)
    requires 0 < |r| <= 60 && 0 < |s| <= 60
    ensures Canonical(Encode(r, s))
  {
    ContentIsMinimal(r);
    ContentIsMinimal(s);
    EncodeContents(r, s, Content(r), Content(s));
    assert CanonicalOf(Encode(r, s), Content(r), Content(s));
  }

  lemma ContentOfBytes32(c: Bytes)
    requires Minimal(c) && Value(c) < TWO_256
    ensures Content(Bytes32(Value(c))) == c
  {
    Bytes32Value(Value(c));
    ContentIsMinimal(Bytes32(Value(c)));
    MinimalUnique(Content(Bytes32(Value(c))), c);
  }

  lemma ParseCanonical(der: Bytes, cr: Bytes, cs: Bytes)
    requires CanonicalOf(der, cr, cs)
    ensures Parse(der) == Signature(Value(cr), Value(cs))
  {
    ParseContents(der, 4 + |cr| + |cs|, cr, cs);
  }

  lemma EncodeCanonical(der: Bytes, cr: Bytes, cs: Bytes)
    requires CanonicalOf(der, cr, cs) && Value(cr) < TWO_256 && Value(cs) < TWO_256
    ensures Encode(Bytes32(Value(cr)), Bytes32(Value(cs))) == der
  {
    ContentOfBytes32(cr);
    ContentOfBytes32(cs);
    EncodeContents(Bytes32(Value(cr)), Bytes32(Value(cs)), cr, cs);
  }

  /** Encoding undoes parsing: a canonical signature with values below 2^256 is reproduced byte for byte. */
  lemma EncodeParse(der: Bytes, r: nat, s: nat)
    requires Canonical(der) && Parse(der) == Signature(r, s) && r < TWO_256 && s < TWO_256
    ensures Encode(Bytes32(r), Bytes32(s)) == der
  {
    var cr, cs :| CanonicalOf(der, cr, cs);
    ParseCanonical(der, cr, cs);
    EncodeCanonical(der, cr, cs);
  }

  /** Every canonical signature parses. */
  lemma CanonicalParses(der: Bytes)
    requires Canonical(der)
    ensures Parse(der).Signature?
  {
    var cr, cs :| CanonicalOf(der, cr, cs);
    ParseCanonical(der, cr, cs);
  }

  lemma EncodeContents(b: Bytes, c: Bytes, cr: Bytes, cs: Bytes)
    requires Content(b) == cr && Content(c) == cs && 4 + |cr| + |cs| < 128
    ensures Encode(b, c) == [0x30, 4 + |cr| + |cs|] + ([0x02, |cr|] + cr + ([0x02, |cs|] + cs))
  {
    EncodeShape(cr, cs);
  }

  /** A canonical encoding is the only one of its two integers. */
  lemma CanonicalUnique(a: Bytes, b: Bytes)
    requires Canonical(a) && Canonical(b) && Parse(a) == Parse(b)
    ensures a == b
  {
    var ar, az :| CanonicalOf(a, ar, az);
    var br, bz :| CanonicalOf(b, br, bz);
    ParseCanonical(a, ar, az);
    ParseCanonical(b, br, bz);
    SameContents(a, b, ar, az, br, bz);
  }

  lemma SameContents(a: Bytes, b: Bytes, ar: Bytes, az: Bytes, br: Bytes, bz: Bytes)
    requires CanonicalOf(a, ar, az) && CanonicalOf(b, br, bz)
    requires Value(ar) == Value(br) && Value(az) == Value(bz)
    ensures a == b
  {
    MinimalUnique(ar, br);
    MinimalUnique(az, bz);
  }

  // ---- Low-S (EIP-2) ----

  const N: nat := 0xFFFF_FFFF_FFFF_FFFF_FFFF_FFFF_FFFF_FFFE_BAAE_DCE6_AF48_A03B_BFD2_5E8C_D036_4141
  const HALF_N: nat := N / 2

  /** The s of the signature, and whether it was flipped. */
  function Normalised(rawS: nat): (int, bool) {
    if rawS > HALF_N then (N - rawS, true) else (rawS, false)
  }

  function SForVerify(s: int, flipped: bool): int { if flipped then N - s else s }

  /** Low-S lands in [1, N/2], changes nothing the second time, and is one of the two equivalent values. */
  lemma LowS(rawS: nat)
    requires 0 < rawS < N
    ensures
      var (s, flipped) := Normalised(rawS);
      && 1 <= s <= HALF_N
      && Normalised(s) == (s, false)
      && (s == rawS || s + rawS == N)
      && SForVerify(s, flipped) == rawS
  {
    assert 2 * HALF_N + 1 == N;
  }

  /** Of s and N - s exactly one is low: the normalised value identifies the pair. */
  lemma LowSIdentifies(a: nat, b: nat)
    requires 0 < a < N && 0 < b < N
    ensures Normalised(a).0 == Normalised(b).0 <==> a == b || a + b == N
  {
    assert 2 * HALF_N + 1 == N;
  }

  /** The signature components, and the DER text handed to the verifier, for what the KMS returned. */
  function Components(der: Bytes): (int, int, bool)
    requires Parse(der).Signature?
  {
    var (s, flipped) := Normalised(Parse(der).s);
    (Parse(der).r, s, flipped)
  }

  /** The DER text of two integers of at most 256 bits. */
  function DerOf(r: nat, s: nat): Bytes { Encode(Bytes32(r), Bytes32(s)) }

  function VerifierDer(der: Bytes): Bytes
    requires Parse(der).Signature? && Parse(der).s <= N
  {
    var (r, s, flipped) := Components(der);
    DerOf(r, SForVerify(s, flipped))
  }

  /** A canonical signature is verified as the very bytes the KMS returned, flipped or not. */
  lemma VerifiedAsReturned(der: Bytes)
    requires Canonical(der) && Parse(der).Signature?
    requires Parse(der).r < N && 0 < Parse(der).s < N
    ensures VerifierDer(der) == der
  {
    assert N < TWO_256;
    LowS(Parse(der).s);
    EncodeParse(der, Parse(der).r, Parse(der).s);
  }

  /** What is verified is always canonical and holds the integers as returned, whatever the lax parser let through. */
  lemma VerifiedIsCanonical(der: Bytes)
    requires Parse(der).Signature? && Parse(der).r < N && 0 < Parse(der).s < N
    ensures Canonical(VerifierDer(der)) && Parse(VerifierDer(der)) == Parse(der)
  {
    assert N < TWO_256;
    var r, z := Parse(der).r, Parse(der).s;
    LowS(z);
    Bytes32Value(r);
    Bytes32Value(z);
    EncodeIsCanonical(Bytes32(r), Bytes32(z));
    ParseEncode(Bytes32(r), Bytes32(z));
  }

  /** So it is what the KMS returned exactly when that is canonical. */
  lemma VerifiedAsReturnedExactly(der: Bytes)
    requires Parse(der).Signature? && Parse(der).r < N && 0 < Parse(der).s < N
    ensures VerifierDer(der) == der ==> Canonical(der)
    ensures Canonical(der) ==> VerifierDer(der) == der
  {
    VerifiedIsCanonical(der);
    if Canonical(der) {
      VerifiedAsReturned(der);
    }
  }

  /** A SEQUENCE of wrong length, of which the second INTEGER is cut short. */
  const LAX: Bytes := [0x30, 0, 0x02, 1, 5, 0x02, 32, 1]

  lemma LaxParses()
    ensures Parse(LAX) == Signature(5, 1)
  {
    assert Sub(LAX, 4, 1) == [5] && Sub(LAX, 7, 32) == [1];
    ValueByte([], 5);
    ValueByte([], 1);
    assert [] + [5] == [5] && [] + [1] == [1];
  }

  lemma LaxIsNotCanonical()
    ensures !Canonical(LAX)
  {
    forall cr, cs ensures CanonicalOf(LAX, cr, cs) ==> LAX[1] == 4 + |cr| + |cs| {
    }
  }

  /** Such input passes the parser, and what is verified then is not what was returned. */
  lemma LaxInputIsAccepted()
    ensures Parse(LAX) == Signature(5, 1) && !Canonical(LAX) && VerifierDer(LAX) != LAX
  {
    LaxParses();
    LaxIsNotCanonical();
    VerifiedAsReturnedExactly(LAX);
  }

  lemma ValueByte(b: Bytes, x: Byte)
    ensures Value(b + [x]) == Value(b) * 256 + x
  {
    assert (b + [x])[..|b|] == b;
  }

  // ---- The compact signature ----

  /** The hex digits of `r || s || v - 27`. */
  function SignHash(r: nat, s: nat, v: nat): seq<Nibble>
    requires v >= 27
  {
    HexOf(Bytes32(r)) + HexOf(Bytes32(s)) + PadStart(ToHex(v - 27), 2)
  }

  lemma FromHexHead(b: Byte, tail: seq<Nibble>)
    ensures FromHex([b / 16, b % 16] + tail) == [b] + FromHex(tail)
  {
    assert ([(b / 16) as Nibble, (b % 16) as Nibble] + tail)[2..] == tail;
    assert JoinNibbles(b / 16, b % 16) == b;
  }

  lemma {:induction false} HexOfReads(b: Bytes, rest: seq<Nibble>)
    ensures FromHex(HexOf(b) + rest) == b + FromHex(rest)
  {
    if b == [] {
      assert HexOf(b) + rest == rest;
    } else {
      HexOfReads(b[1..], rest);
      FromHexHead(b[0], HexOf(b[1..]) + rest);
      assert HexOf(b) + rest == [b[0] / 16, b[0] % 16] + (HexOf(b[1..]) + rest);
      assert b == [b[0]] + b[1..];
    }
  }

  lemma Layout(rBuf: Bytes, sBuf: Bytes, last: seq<Nibble>)
    ensures FromHex(HexOf(rBuf) + HexOf(sBuf) + last) == rBuf + sBuf + FromHex(last)
  {
    HexOfReads(sBuf, last);
    HexOfReads(rBuf, HexOf(sBuf) + last);
    Associative(HexOf(rBuf), HexOf(sBuf), last);
    Associative(rBuf, sBuf, FromHex(last));
  }

  lemma FromHexPair(x: Nibble, y: Nibble)
    ensures FromHex([x, y]) == [JoinNibbles(x, y)]
  {
    FromHexAppend([], x, y);
    assert [] + [x, y] == [x, y] && [] + [JoinNibbles(x, y)] == [JoinNibbles(x, y)];
  }

  lemma LastByte(bit: Nibble)
    ensures FromHex(PadStart(ToHex(bit), 2)) == [bit]
  {
    assert ToHex(bit) == [bit];
    FromHexPair(0, bit);
  }

  lemma Thirds(r: Bytes, s: Bytes, last: Byte)
    requires |r| == 32 && |s| == 32
    ensures
      var b := r + s + [last];
      |b| == 65 && b[..32] == r && b[32..64] == s && b[64] == last
  {
  }

  lemma SignHashBytes(r: nat, s: nat, v: nat)
    requires v == 27 || v == 28
    ensures FromHex(SignHash(r, s, v)) == Bytes32(r) + Bytes32(s) + [v - 27]
  {
    Layout(Bytes32(r), Bytes32(s), PadStart(ToHex(v - 27), 2));
    LastByte(v - 27);
  }

  /** 65 bytes: r and s at full width, then the recovery bit. */
  lemma SignHashLayout(r: nat, s: nat, v: nat)
    requires r < TWO_256 && s < TWO_256 && (v == 27 || v == 28)
    ensures
      var b := FromHex(SignHash(r, s, v));
      |b| == 65 && Value(b[..32]) == r && Value(b[32..64]) == s && b[64] == v - 27
  {
    Bytes32Value(r);
    Bytes32Value(s);
    SignHashBytes(r, s, v);
    Thirds(Bytes32(r), Bytes32(s), v - 27);
  }

  // ---- SubjectPublicKeyInfo ----

  const EC_OID: Bytes := [0x06, 0x07, 0x2a, 0x86, 0x48, 0xce, 0x3d, 0x02, 0x01]
  const SECP256K1_OID: Bytes := [0x06, 0x05, 0x2b, 0x81, 0x04, 0x00, 0x0a]

  function BuildSpkiDer(key: Bytes): Bytes {
    Tlv(0x30, Tlv(0x30, EC_OID + SECP256K1_OID) + ([0x03, (|key| + 1) % 256, 0x00] + key))
  }

  /** A well-formed element: the length octet, in short form, covers exactly the rest. */
  predicate ShortForm(der: Bytes) { |der| >= 2 && der[1] < 0x80 && der[1] == |der| - 2 }

  lemma Middle<T>(a: seq<T>, b: seq<T>, c: seq<T>)
    ensures (a + (b + c))[|a|..|a| + |b|] == b && (a + (b + c))[|a| + |b|..] == c
  {
  }

  const ALGORITHM: Bytes := Tlv(0x30, EC_OID + SECP256K1_OID)

  lemma AlgorithmParts()
    ensures |ALGORITHM| == 18 && ShortForm(ALGORITHM)
    ensures ALGORITHM[2..11] == EC_OID && ALGORITHM[11..18] == SECP256K1_OID
  {
    assert ALGORITHM == [0x30, 16] + (EC_OID + SECP256K1_OID);
    Middle([0x30, 16], EC_OID, SECP256K1_OID);
  }

  /** The same places, counted in the whole. */
  lemma Within<T>(whole: seq<T>, part: seq<T>, at: nat, from: nat, upTo: nat)
    requires from <= upTo <= |part| && at + |part| <= |whole| && whole[at..at + |part|] == part
    ensures whole[at + from..at + upTo] == part[from..upTo]
  {
    forall i | at + from <= i < at + upTo ensures whole[i] == part[i - at] {
      assert whole[at..at + |part|][i - at] == whole[i];
    }
  }

  /** Rebuilding the SubjectPublicKeyInfo of an uncompressed key and taking its last 65 bytes gives the key back. */
  lemma SpkiRoundTrip(key: Bytes)
    requires |key| == 65
    ensures
      var der := BuildSpkiDer(key);
      && |der| == 88 && der[|der| - 65..] == key
      && ShortForm(der) && ShortForm(der[2..20]) && ShortForm(der[4..13]) && ShortForm(der[13..20]) && ShortForm(der[20..])
  {
    var der := BuildSpkiDer(key);
    var bits: Bytes := [0x03, 66, 0x00] + key;
    AlgorithmParts();
    assert der == [0x30, 86] + (ALGORITHM + bits);
    Middle([0x30, 86], ALGORITHM, bits);
    Within(der, ALGORITHM, 2, 2, 11);
    Within(der, ALGORITHM, 2, 11, 18);
    Within(der, bits, 20, 3, 68);
  }
}
