/**
 JSON values, `JSON.stringify` in its compact form, and a reader for that form.
 A field list is in property-enumeration order. Numbers are integers printed in decimal.
 */
module Json {
  import opened Texts
  import opened Lists
  import opened Options

  datatype Json =
    | Null
    | Bool(b: bool)
    | Num(n: int)
    | Str(s: Text)
    | Arr(items: seq<Json>)
    | Obj(fields: seq<Field>)

  datatype Field = Field(key: Text, value: Json)

  datatype Read<+T> = Got(value: T, rest: Text) | Malformed

  /** The value of `key`, the last one where the text repeats it. */
  function Member(fields: seq<Field>, key: Text): Option<Json> {
    if fields == [] then None
    else
      var last := fields[|fields| - 1];
      if last.key == key then Some(last.value) else Member(fields[..|fields| - 1], key)
  }

  // ---- String literals (RFC 8259, section 7) ----

  const LOWER_B: CodeUnit := 0x62
  const LOWER_F: CodeUnit := 0x66
  const LOWER_N: CodeUnit := 0x6E
  const LOWER_R: CodeUnit := 0x72
  const LOWER_T: CodeUnit := 0x74
  const LOWER_U: CodeUnit := 0x75

  predicate HighSurrogate(c: CodeUnit) { 0xD800 <= c < 0xDC00 }

  predicate LowSurrogate(c: CodeUnit) { 0xDC00 <= c < 0xE000 }

  function HexDigit(d: nat): CodeUnit
    requires d < 16
  {
    if d < 10 then 0x30 + d else 0x61 + (d - 10)
  }

  function HexEscape(c: CodeUnit): Text {
    [BACKSLASH, LOWER_U, HexDigit(c / 0x1000), HexDigit(c / 0x100 % 0x10), HexDigit(c / 0x10 % 0x10), HexDigit(c % 0x10)]
  }

  /** One code unit inside a literal, when it is not half of a surrogate pair. */
  function EscapeUnit(c: CodeUnit): Text {
    if c == 0x08 then [BACKSLASH, LOWER_B]
    else if c == 0x09 then [BACKSLASH, LOWER_T]
    else if c == NEWLINE then [BACKSLASH, LOWER_N]
    else if c == 0x0C then [BACKSLASH, LOWER_F]
    else if c == 0x0D then [BACKSLASH, LOWER_R]
    else if c == QUOTE || c == BACKSLASH then [BACKSLASH, c]
    else if c < 0x20 || HighSurrogate(c) || LowSurrogate(c) then HexEscape(c)
    else [c]
  }

  predicate StartsWithPair(s: Text) {
    |s| >= 2 && HighSurrogate(s[0]) && LowSurrogate(s[1])
  }

  /** The body of a string literal: surrogate pairs stay raw, lone surrogates are escaped. */
  function Escape(s: Text): (t: Text)
    ensures forall c <- t :: c >= 0x20
    decreases |s|
  {
    if s == [] then []
    else if StartsWithPair(s) then s[..2] + Escape(s[2..])
    else EscapeUnit(s[0]) + Escape(s[1..])
  }

  function HexValue(c: CodeUnit): (d: int)
    ensures d < 16
  {
    if 0x30 <= c < 0x3A then c - 0x30 else if 0x61 <= c < 0x67 then c - 0x61 + 10 else -1
  }

  /** The escape sequence at the front of `t`, backslash already consumed. */
  function ReadEscape(t: Text): (r: Read<CodeUnit>)
    ensures r.Got? ==> |r.rest| < |t|
  {
    if t == [] then Malformed
    else if t[0] == LOWER_B then Got(0x08, t[1..])
    else if t[0] == LOWER_T then Got(0x09, t[1..])
    else if t[0] == LOWER_N then Got(NEWLINE, t[1..])
    else if t[0] == LOWER_F then Got(0x0C, t[1..])
    else if t[0] == LOWER_R then Got(0x0D, t[1..])
    else if t[0] == QUOTE || t[0] == BACKSLASH || t[0] == SLASH then Got(t[0], t[1..])
    else if t[0] == LOWER_U && |t| >= 5 && HexValue(t[1]) >= 0 && HexValue(t[2]) >= 0 && HexValue(t[3]) >= 0 && HexValue(t[4]) >= 0 then
      Got(((HexValue(t[1]) * 16 + HexValue(t[2])) * 16 + HexValue(t[3])) * 16 + HexValue(t[4]), t[5..])
    else Malformed
  }

  /** A literal's content, opening quote already consumed. */
  function ReadString(t: Text): (r: Read<Text>)
    ensures r.Got? ==> |r.rest| < |t|
    decreases |t|
  {
    if t == [] || t[0] < 0x20 then Malformed
    else if t[0] == QUOTE then Got([], t[1..])
    else if t[0] == BACKSLASH then
      match ReadEscape(t[1..])
      case Malformed => Malformed
      case Got(c, rest) =>
        match ReadString(rest)
        case Malformed => Malformed
        case Got(s, rest') => Got([c] + s, rest')
    else
      match ReadString(t[1..])
      case Malformed => Malformed
      case Got(s, rest) => Got([t[0]] + s, rest)
  }

  lemma Nibbles(c: CodeUnit)
    ensures ((c / 0x1000 * 16 + c / 0x100 % 0x10) * 16 + c / 0x10 % 0x10) * 16 + c % 0x10 == c
  {
    assert c / 0x10 / 0x10 == c / 0x100 && c / 0x100 / 0x10 == c / 0x1000;
  }

  lemma HexDigitReads(d: nat)
    requires d < 16
    ensures HexValue(HexDigit(d)) == d
  {
  }

  lemma HexEscapeReads(c: CodeUnit, rest: Text)
    ensures ReadEscape(HexEscape(c)[1..] + rest) == Got(c, rest)
  {
    var a, b, d, e := c / 0x1000, c / 0x100 % 0x10, c / 0x10 % 0x10, c % 0x10;
    var t := [LOWER_U, HexDigit(a), HexDigit(b), HexDigit(d), HexDigit(e)] + rest;
    assert HexEscape(c)[1..] + rest == t;
    HexDigitReads(a);
    HexDigitReads(b);
    HexDigitReads(d);
    HexDigitReads(e);
    assert t[5..] == rest;
    Nibbles(c);
  }

  ghost function WithUnit(c: CodeUnit, r: Read<Text>): Read<Text> {
    match r
    case Malformed => Malformed
    case Got(s, rest) => Got([c] + s, rest)
  }

  lemma RawUnitReads(c: CodeUnit, rest: Text)
    requires c >= 0x20 && c != QUOTE && c != BACKSLASH
    ensures ReadString([c] + rest) == WithUnit(c, ReadString(rest))
  {
    assert ([c] + rest)[1..] == rest;
  }

  lemma EscapedUnitReads(c: CodeUnit, t: Text, rest: Text)
    requires ReadEscape(t) == Got(c, rest)
    ensures ReadString([BACKSLASH] + t) == WithUnit(c, ReadString(rest))
  {
    assert ([BACKSLASH] + t)[1..] == t;
  }

  lemma EscapeReadsBack(c: CodeUnit, rest: Text)
    requires |EscapeUnit(c)| > 1
    ensures ReadEscape(EscapeUnit(c)[1..] + rest) == Got(c, rest)
  {
    if |EscapeUnit(c)| == 2 {
      assert (EscapeUnit(c)[1..] + rest)[1..] == rest;
    } else {
      HexEscapeReads(c, rest);
    }
  }

  lemma EscapeUnitReads(c: CodeUnit, rest: Text)
    ensures ReadString(EscapeUnit(c) + rest) == WithUnit(c, ReadString(rest))
  {
    var u := EscapeUnit(c);
    if |u| == 1 {
      RawUnitReads(c, rest);
    } else {
      EscapeReadsBack(c, rest);
      EscapedUnitReads(c, u[1..] + rest, rest);
      Associative([BACKSLASH], u[1..], rest);
      assert u == [BACKSLASH] + u[1..];
    }
  }

  lemma PairReads(c: CodeUnit, d: CodeUnit, tail: Text, s: Text, rest: Text)
    requires HighSurrogate(c) && LowSurrogate(d) && ReadString(tail) == Got(s, rest)
    ensures ReadString([c, d] + tail) == Got([c, d] + s, rest)
  {
    RawUnitReads(d, tail);
    RawUnitReads(c, [d] + tail);
    assert [c, d] + tail == [c] + ([d] + tail);
    assert [c, d] + s == [c] + ([d] + s);
  }

  lemma PairFirst(s: Text, end: Text)
    requires StartsWithPair(s)
    ensures Escape(s) + end == [s[0], s[1]] + (Escape(s[2..]) + end) && s == [s[0], s[1]] + s[2..]
  {
    Associative(s[..2], Escape(s[2..]), end);
    assert s[..2] == [s[0], s[1]];
  }

  lemma UnitFirst(s: Text, end: Text)
    requires s != [] && !StartsWithPair(s)
    ensures Escape(s) + end == EscapeUnit(s[0]) + (Escape(s[1..]) + end) && s == [s[0]] + s[1..]
  {
    Associative(EscapeUnit(s[0]), Escape(s[1..]), end);
  }

  lemma {:induction false} EscapeReads(s: Text, rest: Text)
    ensures ReadString(Escape(s) + ([QUOTE] + rest)) == Got(s, rest)
    decreases |s|
  {
    var end := [QUOTE] + rest;
    if s == [] {
      assert Escape(s) + end == end && end[1..] == rest;
    } else if StartsWithPair(s) {
      EscapeReads(s[2..], rest);
      PairFirst(s, end);
      PairReads(s[0], s[1], Escape(s[2..]) + end, s[2..], rest);
    } else {
      EscapeReads(s[1..], rest);
      UnitFirst(s, end);
      EscapeUnitReads(s[0], Escape(s[1..]) + end);
    }
  }

  // ---- Printing ----

  const NULL_TEXT: Text := [0x6E, 0x75, 0x6C, 0x6C]
  const TRUE_TEXT: Text := [0x74, 0x72, 0x75, 0x65]
  const FALSE_TEXT: Text := [0x66, 0x61, 0x6C, 0x73, 0x65]

  function PrintString(s: Text): Text {
    [QUOTE] + Escape(s) + [QUOTE]
  }

  /** `JSON.stringify(v)`. */
  function Print(v: Json): Text
    decreases v, 1
  {
    match v
    case Null => NULL_TEXT
    case Bool(b) => if b then TRUE_TEXT else FALSE_TEXT
    case Num(n) => Numeral(n)
    case Str(s) => PrintString(s)
    case Arr(items) =>
      if items == [] then [LBRACKET, RBRACKET]
      else [LBRACKET] + Print(items[0]) + PrintItems(items[1..]) + [RBRACKET]
    case Obj(fields) =>
      if fields == [] then [LBRACE, RBRACE]
      else [LBRACE] + PrintField(fields[0]) + PrintFields(fields[1..]) + [RBRACE]
  }

  function PrintItems(items: seq<Json>): Text
    decreases items, 0
  {
    if items == [] then [] else [COMMA] + Print(items[0]) + PrintItems(items[1..])
  }

  function PrintField(f: Field): Text
    decreases f, 2
  {
    PrintString(f.key) + [COLON] + Print(f.value)
  }

  function PrintFields(fields: seq<Field>): Text
    decreases fields, 0
  {
    if fields == [] then [] else [COMMA] + PrintField(fields[0]) + PrintFields(fields[1..])
  }

  // ---- Reading ----

  /** The value at the front of a compact text, and what follows it. */
  function ReadValue(t: Text): (r: Read<Json>)
    ensures r.Got? ==> |r.rest| < |t|
    decreases |t|, 1
  {
    if t == [] then Malformed
    else if IsDigit(t[0]) then
      var (n, rest) := ReadDigits(t[1..], t[0] - ZERO);
      Got(Num(n), rest)
    else if t[0] == MINUS && |t| > 1 && IsDigit(t[1]) then
      var (n, rest) := ReadDigits(t[1..], 0);
      Got(Num(-(n as int)), rest)
    else if t[0] == QUOTE then
      match ReadString(t[1..])
      case Malformed => Malformed
      case Got(s, rest) => Got(Str(s), rest)
    else if t[0] == LBRACKET then
      if |t| > 1 && t[1] == RBRACKET then Got(Arr([]), t[2..])
      else
        match ReadValue(t[1..])
        case Malformed => Malformed
        case Got(v, rest) =>
          match ReadItems(rest)
          case Malformed => Malformed
          case Got(vs, rest') => Got(Arr([v] + vs), rest')
    else if t[0] == LBRACE then
      if |t| > 1 && t[1] == RBRACE then Got(Obj([]), t[2..])
      else
        match ReadField(t[1..])
        case Malformed => Malformed
        case Got(f, rest) =>
          match ReadFields(rest)
          case Malformed => Malformed
          case Got(fs, rest') => Got(Obj([f] + fs), rest')
    else if NULL_TEXT <= t then Got(Null, t[4..])
    else if TRUE_TEXT <= t then Got(Bool(true), t[4..])
    else if FALSE_TEXT <= t then Got(Bool(false), t[5..])
    else Malformed
  }

  function ReadItems(t: Text): (r: Read<seq<Json>>)
    ensures r.Got? ==> |r.rest| < |t|
    decreases |t|, 0
  {
    if t == [] then Malformed
    else if t[0] == RBRACKET then Got([], t[1..])
    else if t[0] != COMMA then Malformed
    else
      match ReadValue(t[1..])
      case Malformed => Malformed
      case Got(v, rest) =>
        match ReadItems(rest)
        case Malformed => Malformed
        case Got(vs, rest') => Got([v] + vs, rest')
  }

  function ReadField(t: Text): (r: Read<Field>)
    ensures r.Got? ==> |r.rest| < |t|
    decreases |t|, 0
  {
    if t == [] || t[0] != QUOTE then Malformed
    else
      match ReadString(t[1..])
      case Malformed => Malformed
      case Got(key, rest) =>
        if rest == [] || rest[0] != COLON then Malformed
        else
          match ReadValue(rest[1..])
          case Malformed => Malformed
          case Got(v, rest') => Got(Field(key, v), rest')
  }

  function ReadFields(t: Text): (r: Read<seq<Field>>)
    ensures r.Got? ==> |r.rest| < |t|
    decreases |t|, 0
  {
    if t == [] then Malformed
    else if t[0] == RBRACE then Got([], t[1..])
    else if t[0] != COMMA then Malformed
    else
      match ReadField(t[1..])
      case Malformed => Malformed
      case Got(f, rest) =>
        match ReadFields(rest)
        case Malformed => Malformed
        case Got(fs, rest') => Got([f] + fs, rest')
  }

  // ---- The reader inverts the printer ----

  lemma DigitsRead(m: nat, rest: Text)
    requires Delimited(rest)
    ensures
      var d := Decimal(m) + rest;
      && IsDigit(d[0]) && ReadDigits(d, 0) == (m, rest)
      && ReadDigits(d[1..], d[0] - ZERO) == (m, rest)
  {
    var d := Decimal(m) + rest;
    DecimalReads(m, rest);
    assert d[0] == Decimal(m)[0];
  }

  lemma NumeralReads(n: int, rest: Text)
    requires Delimited(rest)
    ensures ReadValue(Numeral(n) + rest) == Got(Num(n), rest)
  {
    if n < 0 {
      DigitsRead(-n, rest);
      Associative([MINUS], Decimal(-n), rest);
    } else {
      DigitsRead(n, rest);
    }
  }

  lemma {:induction false} PrintStart(v: Json)
    ensures |Print(v)| > 0 && Print(v)[0] != RBRACKET && Print(v)[0] != RBRACE
  {
    if v.Num? && v.n >= 0 {
      assert Print(v)[0] == Decimal(v.n)[0] && IsDigit(Decimal(v.n)[0]);
    }
  }

  lemma ReadItemsMore(t: Text, v: Json, tail: Text, vs: seq<Json>, rest: Text)
    requires ReadValue(t) == Got(v, tail) && ReadItems(tail) == Got(vs, rest)
    ensures ReadItems([COMMA] + t) == Got([v] + vs, rest)
  {
    assert ([COMMA] + t)[1..] == t;
  }

  lemma ReadFieldsEnd(rest: Text)
    ensures ReadFields([RBRACE] + rest) == Got([], rest)
  {
    assert ([RBRACE] + rest)[1..] == rest;
  }

  lemma ReadFieldsMore(t: Text, f: Field, tail: Text, fs: seq<Field>, rest: Text)
    requires ReadField(t) == Got(f, tail) && ReadFields(tail) == Got(fs, rest)
    ensures ReadFields([COMMA] + t) == Got([f] + fs, rest)
  {
    assert ([COMMA] + t)[1..] == t;
  }

  lemma ReadFieldOf(t: Text, key: Text, u: Text, v: Json, rest: Text)
    requires ReadString(t) == Got(key, [COLON] + u) && ReadValue(u) == Got(v, rest)
    ensures ReadField([QUOTE] + t) == Got(Field(key, v), rest)
  {
    assert ([QUOTE] + t)[1..] == t;
    assert ([COLON] + u)[1..] == u;
  }

  lemma ReadObject(t: Text, f: Field, tail: Text, fs: seq<Field>, rest: Text)
    requires t != [] && t[0] != RBRACE
    requires ReadField(t) == Got(f, tail) && ReadFields(tail) == Got(fs, rest)
    ensures ReadValue([LBRACE] + t) == Got(Obj([f] + fs), rest)
  {
    assert ([LBRACE] + t)[1..] == t;
  }

  lemma ReadLeaf(v: Json, rest: Text)
    requires v.Null? || v.Bool? || v == Arr([]) || v == Obj([])
    ensures ReadValue(Print(v) + rest) == Got(v, rest)
  {
    assert (Print(v) + rest)[|Print(v)|..] == rest;
  }

  lemma ReadStringValue(s: Text, rest: Text)
    ensures ReadValue(PrintString(s) + rest) == Got(Str(s), rest)
  {
    EscapeReads(s, rest);
    var t := Escape(s) + ([QUOTE] + rest);
    assert PrintString(s) + rest == [QUOTE] + t by {
      Associative([QUOTE] + Escape(s), [QUOTE], rest);
      Associative([QUOTE], Escape(s), [QUOTE] + rest);
    }
    assert ([QUOTE] + t)[1..] == t;
  }

  lemma Bracketed(open: CodeUnit, head: Text, tail: Text, close: CodeUnit, rest: Text)
    ensures [open] + head + tail + [close] + rest == [open] + (head + (tail + ([close] + rest)))
  {
  }

  lemma Separated(head: Text, tail: Text, rest: Text)
    ensures [COMMA] + head + tail + rest == [COMMA] + (head + (tail + rest))
  {
  }

  lemma ReadArray(t: Text, v: Json, tail: Text, vs: seq<Json>, rest: Text)
    requires t != [] && t[0] != RBRACKET
    requires ReadValue(t) == Got(v, tail) && ReadItems(tail) == Got(vs, rest)
    ensures ReadValue([LBRACKET] + t) == Got(Arr([v] + vs), rest)
  {
    assert ([LBRACKET] + t)[1..] == t;
  }

  lemma ArrReads(v: Json, vs: seq<Json>, tail: Text, rest: Text)
    requires tail == PrintItems(vs) + ([RBRACKET] + rest)
    requires ReadValue(Print(v) + tail) == Got(v, tail) && ReadItems(tail) == Got(vs, rest)
    ensures ReadValue(Print(Arr([v] + vs)) + rest) == Got(Arr([v] + vs), rest)
  {
    PrintStart(v);
    ReadArray(Print(v) + tail, v, tail, vs, rest);
    Bracketed(LBRACKET, Print(v), PrintItems(vs), RBRACKET, rest);
    assert ([v] + vs)[1..] == vs;
  }

  lemma ObjReads(f: Field, fs: seq<Field>, tail: Text, rest: Text)
    requires tail == PrintFields(fs) + ([RBRACE] + rest)
    requires ReadField(PrintField(f) + tail) == Got(f, tail) && ReadFields(tail) == Got(fs, rest)
    ensures ReadValue(Print(Obj([f] + fs)) + rest) == Got(Obj([f] + fs), rest)
  {
    ReadObject(PrintField(f) + tail, f, tail, fs, rest);
    Bracketed(LBRACE, PrintField(f), PrintFields(fs), RBRACE, rest);
    assert ([f] + fs)[1..] == fs;
  }

  /** The printer is prefix-decodable: what a printed value is followed by does not change how it reads. */
  lemma {:induction false} PrintReads(v: Json, rest: Text)
    requires Delimited(rest)
    ensures ReadValue(Print(v) + rest) == Got(v, rest)
    decreases v, 1
  {
    match v
    case Null => ReadLeaf(v, rest);
    case Bool(_) => ReadLeaf(v, rest);
    case Num(n) => NumeralReads(n, rest);
    case Str(s) => ReadStringValue(s, rest);
    case Arr(items) =>
      if items == [] {
        ReadLeaf(v, rest);
      } else {
        var tail := PrintItems(items[1..]) + ([RBRACKET] + rest);
        PrintItemsReads(items[1..], rest);
        PrintReads(items[0], tail);
        ArrReads(items[0], items[1..], tail, rest);
        assert [items[0]] + items[1..] == items;
      }
    case Obj(fields) =>
      if fields == [] {
        ReadLeaf(v, rest);
      } else {
        var tail := PrintFields(fields[1..]) + ([RBRACE] + rest);
        PrintFieldsReads(fields[1..], rest);
        PrintFieldReads(fields[0], tail);
        ObjReads(fields[0], fields[1..], tail, rest);
        assert [fields[0]] + fields[1..] == fields;
      }
  }

  lemma {:induction false} PrintItemsReads(items: seq<Json>, rest: Text)
    ensures ReadItems(PrintItems(items) + ([RBRACKET] + rest)) == Got(items, rest)
    ensures Delimited(PrintItems(items) + ([RBRACKET] + rest))
    decreases items, 0
  {
    if items == [] {
      assert PrintItems(items) + ([RBRACKET] + rest) == [RBRACKET] + rest;
    } else {
      var tail := PrintItems(items[1..]) + ([RBRACKET] + rest);
      PrintItemsReads(items[1..], rest);
      PrintReads(items[0], tail);
      ReadItemsMore(Print(items[0]) + tail, items[0], tail, items[1..], rest);
      Separated(Print(items[0]), PrintItems(items[1..]), [RBRACKET] + rest);
      assert [items[0]] + items[1..] == items;
    }
  }

  lemma {:induction false} PrintFieldReads(f: Field, rest: Text)
    requires Delimited(rest)
    ensures ReadField(PrintField(f) + rest) == Got(f, rest)
    decreases f, 2
  {
    var u := Print(f.value) + rest;
    EscapeReads(f.key, [COLON] + u);
    PrintReads(f.value, rest);
    ReadFieldOf(Escape(f.key) + ([QUOTE] + ([COLON] + u)), f.key, u, f.value, rest);
    assert PrintField(f) + rest == [QUOTE] + (Escape(f.key) + ([QUOTE] + ([COLON] + u))) by {
      Associative(PrintString(f.key) + [COLON], Print(f.value), rest);
      Associative(PrintString(f.key), [COLON], u);
      Associative([QUOTE] + Escape(f.key), [QUOTE], [COLON] + u);
      Associative([QUOTE], Escape(f.key), [QUOTE] + ([COLON] + u));
    }
  }

  lemma {:induction false} PrintFieldsReads(fields: seq<Field>, rest: Text)
    ensures ReadFields(PrintFields(fields) + ([RBRACE] + rest)) == Got(fields, rest)
    ensures Delimited(PrintFields(fields) + ([RBRACE] + rest))
    decreases fields, 0
  {
    if fields == [] {
      ReadFieldsEnd(rest);
      assert PrintFields(fields) + ([RBRACE] + rest) == [RBRACE] + rest;
    } else {
      var tail := PrintFields(fields[1..]) + ([RBRACE] + rest);
      PrintFieldsReads(fields[1..], rest);
      PrintFieldReads(fields[0], tail);
      ReadFieldsMore(PrintField(fields[0]) + tail, fields[0], tail, fields[1..], rest);
      Separated(PrintField(fields[0]), PrintFields(fields[1..]), [RBRACE] + rest);
      assert [fields[0]] + fields[1..] == fields;
    }
  }

  /** `JSON.parse` of a whole compact text. */
  function Parse(t: Text): (r: Read<Json>) {
    var r := ReadValue(t);
    if r.Got? && r.rest == [] then r else Malformed
  }

  lemma ParsePrint(v: Json)
    ensures Parse(Print(v)) == Got(v, [])
  {
    PrintReads(v, []);
    assert Print(v) + [] == Print(v);
  }

  /** Different values never print the same text. */
  lemma PrintInjective(a: Json, b: Json)
    requires Print(a) == Print(b)
    ensures a == b
  {
    ParsePrint(a);
    ParsePrint(b);
  }

  /** Compact text holds no control character, so one value is one line. */
  lemma {:induction false} PrintIsOneLine(v: Json)
    ensures forall c <- Print(v) :: c >= 0x20
    decreases v, 1
  {
    match v
    case Arr(items) =>
      if items != [] {
        PrintIsOneLine(items[0]);
        PrintItemsOneLine(items[1..]);
      }
    case Obj(fields) =>
      if fields != [] {
        PrintFieldOneLine(fields[0]);
        PrintFieldsOneLine(fields[1..]);
      }
    case Num(n) =>
      forall c | c in Print(v) ensures c >= 0x20 {
        assert c == MINUS || c in Decimal(if n < 0 then -n else n);
      }
    case _ =>
  }

  lemma {:induction false} PrintItemsOneLine(items: seq<Json>)
    ensures forall c <- PrintItems(items) :: c >= 0x20
    decreases items, 0
  {
    if items != [] {
      PrintIsOneLine(items[0]);
      PrintItemsOneLine(items[1..]);
    }
  }

  lemma {:induction false} PrintFieldsOneLine(fields: seq<Field>)
    ensures forall c <- PrintFields(fields) :: c >= 0x20
    decreases fields, 0
  {
    if fields != [] {
      PrintFieldOneLine(fields[0]);
      PrintFieldsOneLine(fields[1..]);
    }
  }

  lemma {:induction false} PrintFieldOneLine(f: Field)
    ensures forall c <- PrintField(f) :: c >= 0x20
    decreases f, 2
  {
    PrintIsOneLine(f.value);
  }
}
