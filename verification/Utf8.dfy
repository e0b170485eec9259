/** UTF-8 (RFC 3629, section 3) for JavaScript strings, whose length in bytes decides when an evidence file is full. */
module Utf8 {
  import opened Texts
  import opened Json
  import opened Store

  type Byte = n: nat | n < 256

  /** The code point of a surrogate pair. */
  function OfPair(high: CodeUnit, low: CodeUnit): (cp: nat)
    requires HighSurrogate(high) && LowSurrogate(low)
    ensures 0x10000 <= cp < 0x110000
  {
    0x10000 + (high - 0xD800) * 0x400 + (low - 0xDC00)
  }

  function Encode(cp: nat): seq<Byte>
    requires cp < 0x110000
  {
    if cp < 0x80 then [cp]
    else if cp < 0x800 then [0xC0 + cp / 0x40, 0x80 + cp % 0x40]
    else if cp < 0x10000 then [0xE0 + cp / 0x1000, 0x80 + cp / 0x40 % 0x40, 0x80 + cp % 0x40]
    else [0xF0 + cp / 0x40000, 0x80 + cp / 0x1000 % 0x40, 0x80 + cp / 0x40 % 0x40, 0x80 + cp % 0x40]
  }

  /** The bytes of a text; a lone surrogate is written as U+FFFD. */
  function Bytes(t: Text): seq<Byte> {
    if t == [] then []
    else if StartsWithPair(t) then Encode(OfPair(t[0], t[1])) + Bytes(t[2..])
    else Encode(if HighSurrogate(t[0]) || LowSurrogate(t[0]) then 0xFFFD else t[0]) + Bytes(t[1..])
  }

  /** The payload of a continuation byte. */
  function Tail(b: Byte): int { (b as int) - 0x80 }

  /** The code point at the front of the bytes, by its first byte, and how many bytes it takes. */
  function Decode(b: seq<Byte>): (int, nat) {
    if b == [] then (0, 0)
    else
      var first: int := b[0];
      if first < 0xC0 then (first, 1)
      else if first < 0xE0 then if |b| < 2 then (0, 1) else ((first - 0xC0) * 0x40 + Tail(b[1]), 2)
      else if first < 0xF0 then
        if |b| < 3 then (0, 1) else ((first - 0xE0) * 0x1000 + Tail(b[1]) * 0x40 + Tail(b[2]), 3)
      else if |b| < 4 then (0, 1)
      else ((first - 0xF0) * 0x40000 + Tail(b[1]) * 0x1000 + Tail(b[2]) * 0x40 + Tail(b[3]), 4)
  }

  /** The code units of a code point. */
  function Units(cp: int): Text {
    if 0 <= cp < 0x10000 then [cp]
    else if 0x10000 <= cp < 0x110000 then [0xD800 + (cp - 0x10000) / 0x400, 0xDC00 + (cp - 0x10000) % 0x400]
    else []
  }

  function Read(b: seq<Byte>): Text {
    if b == [] then []
    else
      var (cp, n) := Decode(b);
      if 1 <= n <= |b| then Units(cp) + Read(b[n..]) else []
  }

  /** No half of a surrogate pair stands alone. */
  predicate WellFormed(t: Text) {
    if t == [] then true
    else if StartsWithPair(t) then WellFormed(t[2..])
    else !HighSurrogate(t[0]) && !LowSurrogate(t[0]) && WellFormed(t[1..])
  }

  lemma Sextets(cp: nat)
    requires cp < 0x110000
    ensures cp / 0x40 * 0x40 + cp % 0x40 == cp
    ensures cp / 0x1000 * 0x1000 + cp / 0x40 % 0x40 * 0x40 + cp % 0x40 == cp
    ensures cp / 0x40000 * 0x40000 + cp / 0x1000 % 0x40 * 0x1000 + cp / 0x40 % 0x40 * 0x40 + cp % 0x40 == cp
  {
    assert cp / 0x40 / 0x40 == cp / 0x1000 && cp / 0x1000 / 0x40 == cp / 0x40000;
  }

  lemma DecodeEncode(cp: nat, rest: seq<Byte>)
    requires cp < 0x110000
    ensures Decode(Encode(cp) + rest) == (cp, |Encode(cp)|)
  {
    Sextets(cp);
  }

  lemma UnitsOfPair(high: CodeUnit, low: CodeUnit)
    requires HighSurrogate(high) && LowSurrogate(low)
    ensures Units(OfPair(high, low)) == [high, low]
  {
  }

  lemma ReadOne(cp: nat, rest: seq<Byte>)
    requires cp < 0x110000
    ensures Read(Encode(cp) + rest) == Units(cp) + Read(rest)
  {
    DecodeEncode(cp, rest);
    assert (Encode(cp) + rest)[|Encode(cp)|..] == rest;
  }

  lemma PairReadsBack(t: Text)
    requires StartsWithPair(t) && Read(Bytes(t[2..])) == t[2..]
    ensures Read(Bytes(t)) == t
  {
    UnitsOfPair(t[0], t[1]);
    ReadOne(OfPair(t[0], t[1]), Bytes(t[2..]));
    assert t == [t[0], t[1]] + t[2..];
  }

  lemma UnitReadsBack(t: Text)
    requires t != [] && !HighSurrogate(t[0]) && !LowSurrogate(t[0]) && Read(Bytes(t[1..])) == t[1..]
    ensures Read(Bytes(t)) == t
  {
    ReadOne(t[0], Bytes(t[1..]));
    assert t == [t[0]] + t[1..];
  }

  /** The encoding is one: well-formed text comes back from its bytes. */
  lemma {:induction false} BytesRead(t: Text)
    requires WellFormed(t)
    ensures Read(Bytes(t)) == t
    decreases |t|
  {
    if t == [] {
    } else if StartsWithPair(t) {
      BytesRead(t[2..]);
      PairReadsBack(t);
    } else {
      BytesRead(t[1..]);
      UnitReadsBack(t);
    }
  }

  /** What rotation compares with the limit is the number of these bytes. */
  lemma {:induction false} LengthIsBytes(t: Text)
    ensures Utf8Length(t) == |Bytes(t)|
    decreases |t|
  {
    if t == [] {
    } else if StartsWithPair(t) {
      LengthIsBytes(t[2..]);
    } else {
      LengthIsBytes(t[1..]);
    }
  }
}
