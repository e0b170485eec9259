/** JavaScript strings: sequences of UTF-16 code units, their default order and decimal numerals. */
module Texts {
  import opened Options

  type CodeUnit = n: nat | n < 0x10000
  type Text = seq<CodeUnit>

  const QUOTE: CodeUnit := 0x22
  const PLUS: CodeUnit := 0x2B
  const COMMA: CodeUnit := 0x2C
  const MINUS: CodeUnit := 0x2D
  const DOT: CodeUnit := 0x2E
  const SLASH: CodeUnit := 0x2F
  const ZERO: CodeUnit := 0x30
  const COLON: CodeUnit := 0x3A
  const EQUALS: CodeUnit := 0x3D
  const LBRACKET: CodeUnit := 0x5B
  const BACKSLASH: CodeUnit := 0x5C
  const RBRACKET: CodeUnit := 0x5D
  const LBRACE: CodeUnit := 0x7B
  const RBRACE: CodeUnit := 0x7D
  const NEWLINE: CodeUnit := 0x0A

  /** The code units of an ASCII literal. */
  function Ascii(s: string): (t: Text)
    ensures |t| == |s|
    ensures forall i :: 0 <= i < |s| && s[i] as int < 0x10000 ==> t[i] == s[i] as int
  {
    seq(|s|, i requires 0 <= i < |s| => if s[i] as int < 0x10000 then s[i] as int else 0)
  }

  predicate IsDigit(c: CodeUnit) {
    ZERO <= c <= ZERO + 9
  }

  /** Code-unit comparison: the sign `<` gives for two JavaScript strings. */
  function Compare(a: Text, b: Text): (r: int)
    ensures r == 0 <==> a == b
    ensures -1 <= r <= 1
  {
    if a == [] then if b == [] then 0 else -1
    else if b == [] then 1
    else if a[0] < b[0] then -1
    else if a[0] > b[0] then 1
    else
      assert a == [a[0]] + a[1..] && b == [b[0]] + b[1..];
      Compare(a[1..], b[1..])
  }

  lemma {:induction false} CompareSymmetric(a: Text, b: Text)
    ensures Compare(a, b) == -Compare(b, a)
  {
    if a != [] && b != [] && a[0] == b[0] {
      CompareSymmetric(a[1..], b[1..]);
    }
  }

  lemma {:induction false} CompareTransitive(a: Text, b: Text, c: Text)
    requires Compare(a, b) <= 0 && Compare(b, c) <= 0
    ensures Compare(a, c) <= 0
  {
    if a != [] && b != [] && c != [] && a[0] == b[0] == c[0] {
      CompareTransitive(a[1..], b[1..], c[1..]);
    }
  }

  /** `a` comes before `b`: it is a proper prefix, or smaller at the first difference. */
  predicate Precedes(a: Text, b: Text) {
    (a <= b && a != b) || exists i: nat | i < |a| :: SmallerAt(a, b, i)
  }

  lemma {:induction false} CompareMeans(a: Text, b: Text)
    ensures Compare(a, b) < 0 <==> Precedes(a, b)
  {
    if a != [] && b != [] && a[0] == b[0] {
      CompareMeans(a[1..], b[1..]);
      PrecedesTail(a, b);
    } else if a != [] && b != [] && a[0] < b[0] {
      assert SmallerAt(a, b, 0);
    }
  }

  /** They differ first at this place, where `a` is smaller. */
  predicate SmallerAt(a: Text, b: Text, i: nat) { i < |a| && i < |b| && a[..i] == b[..i] && a[i] < b[i] }

  lemma SmallerInTail(a: Text, b: Text, i: nat)
    requires a != [] && b != [] && a[0] == b[0]
    ensures SmallerAt(a, b, i + 1) <==> SmallerAt(a[1..], b[1..], i)
  {
    var x, y := a[1..], b[1..];
    if i < |x| && i < |y| {
      assert a[..i + 1] == [a[0]] + x[..i] && b[..i + 1] == [b[0]] + y[..i];
      assert a[..i + 1][1..] == x[..i] && b[..i + 1][1..] == y[..i];
    }
  }

  lemma PrecedesTail(a: Text, b: Text)
    requires a != [] && b != [] && a[0] == b[0]
    ensures Precedes(a, b) <==> Precedes(a[1..], b[1..])
  {
    assert a == [a[0]] + a[1..] && b == [b[0]] + b[1..];
    if i: nat :| SmallerAt(a, b, i) {
      SmallerInTail(a, b, i - 1);
    }
    if i: nat :| SmallerAt(a[1..], b[1..], i) {
      SmallerInTail(a, b, i);
    }
  }

  /** `String(n)` for a non-negative integer. */
  function Decimal(n: nat): (t: Text)
    ensures |t| > 0
    ensures forall c <- t :: IsDigit(c)
  {
    if n < 10 then [ZERO + n] else Decimal(n / 10) + [ZERO + n % 10]
  }

  /** `String(n)` for an integer. */
  function Numeral(n: int): Text {
    if n < 0 then [MINUS] + Decimal(-n) else Decimal(n)
  }

  /** The value of the longest digit prefix of `t`, on top of `acc`, and what follows it. */
  function ReadDigits(t: Text, acc: nat): (r: (nat, Text))
    ensures |r.1| <= |t|
  {
    if t != [] && IsDigit(t[0]) then ReadDigits(t[1..], 10 * acc + (t[0] - ZERO)) else (acc, t)
  }

  /** `rest` does not go on with a digit. */
  predicate Delimited(rest: Text) {
    rest == [] || !IsDigit(rest[0])
  }

  lemma {:induction false} DecimalReads(n: nat, rest: Text)
    ensures ReadDigits(Decimal(n) + rest, 0) == ReadDigits(rest, n)
  {
    if n < 10 {
      assert (Decimal(n) + rest)[1..] == rest;
    } else {
      var last := [ZERO + n % 10];
      assert Decimal(n) + rest == Decimal(n / 10) + (last + rest);
      DecimalReads(n / 10, last + rest);
      assert (last + rest)[1..] == rest;
    }
  }

  lemma {:induction false} DecimalInjective(m: nat, n: nat, x: Text, y: Text)
    requires Delimited(x) && Delimited(y)
    requires Decimal(m) + x == Decimal(n) + y
    ensures m == n && x == y
  {
    DecimalReads(m, x);
    DecimalReads(n, y);
  }

  lemma DecimalUnique(m: nat, n: nat)
    requires Decimal(m) == Decimal(n)
    ensures m == n
  {
    assert Decimal(m) + [] == Decimal(n) + [];
    DecimalInjective(m, n, [], []);
  }

  /** `toLowerCase` on ASCII text. */
  function Lower(t: Text): (r: Text)
    ensures |r| == |t|
    ensures COLON !in t ==> COLON !in r
  {
    seq(|t|, i requires 0 <= i < |t| => if 0x41 <= t[i] <= 0x5A then t[i] + 0x20 else t[i])
  }

  /** No capital letter is left, and nothing but capital letters is changed. */
  lemma LowerMeans(t: Text)
    ensures forall c <- Lower(t) :: !(0x41 <= c <= 0x5A)
    ensures forall i :: 0 <= i < |t| ==> Lower(t)[i] == t[i] || (Ascii("A")[0] <= t[i] <= Ascii("Z")[0] && Lower(t)[i] == t[i] + 0x20)
    ensures Lower(Lower(t)) == Lower(t)
  {
  }

  /** `text.split(separator)` for a one-unit separator: never empty. */
  function Split(t: Text, separator: CodeUnit): (parts: seq<Text>)
    ensures |parts| > 0
    ensures forall p <- parts :: separator !in p
    ensures separator !in t ==> parts == [t]
  {
    if t == [] then [[]]
    else
      var parts := Split(t[1..], separator);
      if t[0] == separator then [[]] + parts
      else
        assert t == [t[0]] + t[1..];
        [[t[0]] + parts[0]] + parts[1..]
  }

  /** `parts.join(separator)`. */
  function Join(parts: seq<Text>, separator: CodeUnit): Text {
    if |parts| == 0 then []
    else if |parts| == 1 then parts[0]
    else parts[0] + [separator] + Join(parts[1..], separator)
  }

  lemma SplitStep(c: CodeUnit, t: Text, separator: CodeUnit)
    ensures
      var parts := Split(t, separator);
      Split([c] + t, separator) == if c == separator then [[]] + parts else [[c] + parts[0]] + parts[1..]
  {
    assert ([c] + t)[1..] == t;
  }

  lemma {:induction false} SplitConcat(a: Text, b: Text, separator: CodeUnit)
    requires separator !in a
    ensures Split(a + [separator] + b, separator) == [a] + Split(b, separator)
  {
    if a == [] {
      assert a + [separator] + b == [separator] + b;
      SplitStep(separator, b, separator);
    } else {
      var front := a[1..] + [separator] + b;
      assert a + [separator] + b == [a[0]] + front && a[0] != separator;
      SplitConcat(a[1..], b, separator);
      SplitStep(a[0], front, separator);
      assert [a[0]] + a[1..] == a;
      assert Split(front, separator)[0] == a[1..] && Split(front, separator)[1..] == Split(b, separator);
    }
  }

  /** The parts of a text with one more unit in front. */
  function Prepended(c: CodeUnit, parts: seq<Text>, separator: CodeUnit): (more: seq<Text>)
    requires parts != []
    ensures more != []
  {
    if c == separator then [[]] + parts else [[c] + parts[0]] + parts[1..]
  }

  lemma PrependedAppend(c: CodeUnit, parts: seq<Text>, more: seq<Text>, separator: CodeUnit)
    requires parts != []
    ensures Prepended(c, parts + more, separator) == Prepended(c, parts, separator) + more
  {
  }

  lemma SplitPrepended(c: CodeUnit, t: Text, separator: CodeUnit)
    ensures Split([c] + t, separator) == Prepended(c, Split(t, separator), separator)
  {
    SplitStep(c, t, separator);
  }

  /** A text is split at a separator into the parts before it and the parts after it. */
  lemma {:induction false} SplitBoth(a: Text, b: Text, separator: CodeUnit)
    ensures Split(a + [separator] + b, separator) == Split(a, separator) + Split(b, separator)
  {
    if a == [] {
      assert a + [separator] + b == [separator] + b;
      SplitPrepended(separator, b, separator);
    } else {
      var front := a[1..] + [separator] + b;
      assert a + [separator] + b == [a[0]] + front && a == [a[0]] + a[1..];
      SplitBoth(a[1..], b, separator);
      SplitPrepended(a[0], front, separator);
      SplitPrepended(a[0], a[1..], separator);
      PrependedAppend(a[0], Split(a[1..], separator), Split(b, separator), separator);
    }
  }

  /** Splitting undoes joining, for separator-free parts of a non-empty list. */
  lemma {:induction false} SplitJoin(parts: seq<Text>, separator: CodeUnit)
    requires |parts| > 0
    requires forall p <- parts :: separator !in p
    ensures Split(Join(parts, separator), separator) == parts
  {
    if |parts| > 1 {
      SplitConcat(parts[0], Join(parts[1..], separator), separator);
      SplitJoin(parts[1..], separator);
    }
  }

  lemma JoinFirst(c: CodeUnit, parts: seq<Text>, separator: CodeUnit)
    requires parts != []
    ensures Join([[c] + parts[0]] + parts[1..], separator) == [c] + Join(parts, separator)
  {
    var longer := [[c] + parts[0]] + parts[1..];
    assert longer[1..] == parts[1..];
  }

  lemma JoinEmptyFirst(parts: seq<Text>, separator: CodeUnit)
    requires parts != []
    ensures Join([[]] + parts, separator) == [separator] + Join(parts, separator)
  {
    assert ([[]] + parts)[1..] == parts;
  }

  /** Joining undoes splitting, for every text. */
  lemma {:induction false} JoinSplit(t: Text, separator: CodeUnit)
    ensures Join(Split(t, separator), separator) == t
  {
    if t != [] {
      JoinSplit(t[1..], separator);
      assert t == [t[0]] + t[1..];
      SplitStep(t[0], t[1..], separator);
      JoinFirst(t[0], Split(t[1..], separator), separator);
      JoinEmptyFirst(Split(t[1..], separator), separator);
    }
  }

  // ---- White space and numbers ----

  /** The code units `trim` removes: ECMAScript white space and line terminators. */
  predicate IsSpace(c: CodeUnit) {
    || 0x09 <= c <= 0x0D || c == 0x20 || c == 0xA0 || c == 0x1680 || 0x2000 <= c <= 0x200A
    || c == 0x2028 || c == 0x2029 || c == 0x202F || c == 0x205F || c == 0x3000 || c == 0xFEFF
  }

  /** Among ASCII units: the blank, tabulators and line ends. */
  lemma AsciiSpaces(c: CodeUnit)
    ensures c < 0x80 ==> (IsSpace(c) <==> c in Ascii(" \t\n\r") || c == 0x0B || c == 0x0C)
  {
    var spaces := Ascii(" \t\n\r");
    assert |spaces| == 4 && spaces[0] == 0x20 && spaces[1] == 0x09 && spaces[2] == 0x0A && spaces[3] == 0x0D;
    assert spaces == [0x20, 0x09, 0x0A, 0x0D];
  }

  function TrimStart(t: Text): Text { if t != [] && IsSpace(t[0]) then TrimStart(t[1..]) else t }

  function TrimEnd(t: Text): Text {
    if t != [] && IsSpace(t[|t| - 1]) then TrimEnd(t[..|t| - 1]) else t
  }

  function Trim(t: Text): Text { TrimEnd(TrimStart(t)) }

  /** `parseInt(text, 10)`; `None` for NaN. */
  function ParseInt(text: Text): Option<int> {
    var t := TrimStart(text);
    var signed := t != [] && (t[0] == MINUS || t[0] == PLUS);
    var digits := if signed then t[1..] else t;
    if digits == [] || !IsDigit(digits[0]) then None
    else
      var n: int := ReadDigits(digits, 0).0;
      Some(if signed && t[0] == MINUS then -n else n)
  }

  lemma {:induction false} DecimalDigits(n: nat)
    ensures ReadDigits(Decimal(n), 0) == (n, [])
  {
    DecimalReads(n, []);
    assert Decimal(n) + [] == Decimal(n);
  }

  lemma ParseNumeral(n: int)
    ensures ParseInt(Numeral(n)) == Some(n)
    ensures COMMA !in Numeral(n) && DOT !in Numeral(n)
  {
    var m: nat := if n < 0 then -n else n;
    DecimalDigits(m);
    assert IsDigit(Decimal(m)[0]);
    assert n < 0 ==> Numeral(n)[1..] == Decimal(m);
  }
}
