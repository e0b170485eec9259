/** The form of the printed text: compact, and with the shortest escapes (packages/watchtower-core/src/utils/canonical.ts). */
module JsonShape {
  import opened Texts
  import opened Lists
  import opened Json

  function Colon(f: Field): Text { PrintString(f.key) + [COLON] + Print(f.value) }

  lemma {:induction false} ItemsJoin(first: Text, items: seq<Json>)
    ensures first + PrintItems(items) == Join([first] + Map(Print, items), COMMA)
    decreases |items|
  {
    if items != [] {
      ItemsJoin(Print(items[0]), items[1..]);
      assert Map(Print, items) == [Print(items[0])] + Map(Print, items[1..]);
      assert ([first] + Map(Print, items))[1..] == Map(Print, items);
    }
  }

  lemma {:induction false} FieldsJoin(first: Text, fields: seq<Field>)
    ensures first + PrintFields(fields) == Join([first] + Map(Colon, fields), COMMA)
    decreases |fields|
  {
    if fields != [] {
      FieldsJoin(Colon(fields[0]), fields[1..]);
      assert Map(Colon, fields) == [Colon(fields[0])] + Map(Colon, fields[1..]);
      assert ([first] + Map(Colon, fields))[1..] == Map(Colon, fields);
    }
  }

  lemma MapFirst<T, U>(f: T -> U, xs: seq<T>)
    requires xs != []
    ensures Map(f, xs) == [f(xs[0])] + Map(f, xs[1..])
  {
  }

  /** The text has no white space: items are joined by commas. */
  lemma ArrShape(items: seq<Json>)
    ensures Print(Arr(items)) == [LBRACKET] + Join(Map(Print, items), COMMA) + [RBRACKET]
  {
    if items != [] {
      ItemsJoin(Print(items[0]), items[1..]);
      MapFirst(Print, items);
    }
  }

  /** Members are joined by commas, keys and values by colons. */
  lemma ObjShape(fields: seq<Field>)
    ensures Print(Obj(fields)) == [LBRACE] + Join(Map(Colon, fields), COMMA) + [RBRACE]
  {
    if fields != [] {
      FieldsJoin(Colon(fields[0]), fields[1..]);
      MapFirst(Colon, fields);
    }
  }

  lemma PrintWords()
    ensures Print(Null) == Ascii("null") && Print(Bool(true)) == Ascii("true") && Print(Bool(false)) == Ascii("false")
  {
  }

  /** Reading one unit that is not escaped, or one escape sequence, and then the rest. */
  lemma ReadsFirst(u: Text)
    requires ReadString(u).Got?
    ensures u != [] && u[0] >= 0x20
    ensures u[0] == QUOTE ==> ReadString(u).value == []
    ensures u[0] == BACKSLASH ==>
              ReadEscape(u[1..]).Got? && ReadEscape(u[1..]).rest != [] && ReadString(u).value != []
              && ReadString(u).value[0] == ReadEscape(u[1..]).value
    ensures u[0] != QUOTE && u[0] != BACKSLASH ==> ReadString(u).value != [] && ReadString(u).value[0] == u[0]
  {
  }

  /** No text that reads as the unit is shorter than the one printed, lone surrogates aside. */
  lemma EscapeIsShortest(c: CodeUnit, t: Text, u: Text)
    requires !HighSurrogate(c) && !LowSurrogate(c)
    requires u == t + [QUOTE] && ReadString(u).Got? && ReadString(u).value == [c]
    ensures |EscapeUnit(c)| <= |t|
  {
    ReadsFirst(u);
    if u[0] == BACKSLASH {
      EscapeTakes(u[1..], c);
    } else {
      PlainUnit(c);
    }
  }

  lemma PlainUnit(c: CodeUnit)
    requires c >= 0x20 && c != QUOTE && c != BACKSLASH && !HighSurrogate(c) && !LowSurrogate(c)
    ensures EscapeUnit(c) == [c]
  {
  }

  lemma EscapeTakes(u: Text, c: CodeUnit)
    requires !HighSurrogate(c) && !LowSurrogate(c)
    requires ReadEscape(u).Got? && ReadEscape(u).value == c && ReadEscape(u).rest != []
    ensures |EscapeUnit(c)| <= |u|
  {
  }
}
