/** Files of one JSON value per line, as they are appended to and read back. */
module Ndjson {
  import opened Texts
  import opened Json
  import opened Lists

  function NonEmpty(t: Text): seq<Text> { if t == [] then [] else [t] }

  function NonBlank(t: Text): seq<Text> { if Trim(t) == [] then [] else [t] }

  /** The non-empty lines of the content without white space at its ends: how the evidence store reads a file. */
  function TrimmedLines(content: Text): seq<Text> { Collect(NonEmpty, Split(Trim(content), NEWLINE)) }

  /** The lines that are not blank: how the transparency log reads a file. */
  function RawLines(content: Text): seq<Text> { Collect(NonBlank, Split(content, NEWLINE)) }

  function Line(t: Text): Text { t + [NEWLINE] }

  /** The content of a file to which `lines` have been appended. */
  function Content(lines: seq<Text>): Text { Collect(Line, lines) }

  /** What a printed object is: one line without white space at its ends. */
  predicate Solid(t: Text) {
    t != [] && !IsSpace(t[0]) && !IsSpace(t[|t| - 1]) && NEWLINE !in t
  }

  predicate AllSolid(lines: seq<Text>) { forall l <- lines :: Solid(l) }

  lemma {:induction false} ContentIsJoin(lines: seq<Text>)
    requires lines != []
    ensures Content(lines) == Join(lines, NEWLINE) + [NEWLINE]
  {
    if |lines| == 1 {
      CollectOne(Line, lines[0]);
      assert lines == [lines[0]];
    } else {
      ContentIsJoin(lines[1..]);
    }
  }

  lemma {:induction false} JoinEnds(lines: seq<Text>)
    requires lines != [] && AllSolid(lines)
    ensures var t := Join(lines, NEWLINE); t != [] && !IsSpace(t[0]) && !IsSpace(t[|t| - 1])
  {
    assert Solid(lines[0]);
    if |lines| > 1 {
      JoinEnds(lines[1..]);
      var tail := Join(lines[1..], NEWLINE);
      assert Join(lines, NEWLINE) == lines[0] + [NEWLINE] + tail;
    }
  }

  lemma TrimContent(t: Text)
    requires t != [] && !IsSpace(t[0]) && !IsSpace(t[|t| - 1])
    ensures Trim(t + [NEWLINE]) == t && Trim(t) == t
  {
    var u := t + [NEWLINE];
    assert TrimStart(u) == u && u[..|u| - 1] == t;
    assert TrimEnd(u) == TrimEnd(t) == t;
  }

  lemma {:induction false} NoneFiltered(lines: seq<Text>)
    requires AllSolid(lines)
    ensures Collect(NonEmpty, lines) == lines && Collect(NonBlank, lines) == lines
  {
    if lines != [] {
      assert Solid(lines[0]);
      TrimContent(lines[0]);
      NoneFiltered(lines[1..]);
    }
  }

  /** Both ways of reading give back the lines appended. */
  lemma LinesReadBack(lines: seq<Text>)
    requires AllSolid(lines)
    ensures TrimmedLines(Content(lines)) == lines && RawLines(Content(lines)) == lines
  {
    NoneFiltered(lines);
    var one: seq<Text> := [[]];
    CollectOne(NonEmpty, []);
    CollectOne(NonBlank, []);
    if lines != [] {
      var body := Join(lines, NEWLINE);
      ContentIsJoin(lines);
      JoinEnds(lines);
      TrimContent(body);
      SplitJoin(lines, NEWLINE);
      SplitJoinEnd(lines);
      CollectConcat(NonBlank, lines, one);
    }
  }

  lemma {:induction false} SplitJoinEnd(lines: seq<Text>)
    requires lines != [] && forall l <- lines :: NEWLINE !in l
    ensures Split(Join(lines, NEWLINE) + [NEWLINE], NEWLINE) == lines + [[]]
  {
    var rest := if |lines| == 1 then [] else Join(lines[1..], NEWLINE) + [NEWLINE];
    SplitConcat(lines[0], rest, NEWLINE);
    assert Join(lines, NEWLINE) + [NEWLINE] == lines[0] + [NEWLINE] + rest;
    if |lines| > 1 {
      SplitJoinEnd(lines[1..]);
      assert lines == [lines[0]] + lines[1..];
    }
  }

  // ---- Lines of JSON objects ----

  predicate AllObjects(values: seq<Json>) { forall v <- values :: v.Obj? }

  function Printed(values: seq<Json>): seq<Text> { Map(Print, values) }

  /** The file holding `values`, one per line. */
  function FileOf(values: seq<Json>): Text { Content(Printed(values)) }

  /** What is appended for a value: its compact text and a line break. */
  function LineOf(value: Json): Text { Print(value) + [NEWLINE] }

  lemma PrintIsSolid(v: Json)
    ensures Solid(Print(v))
  {
    PrintIsOneLine(v);
    if v.Num? {
      NumeralIsSolid(v.n);
    }
  }

  lemma NumeralIsSolid(n: int)
    ensures Solid(Numeral(n))
  {
    var d := Decimal(if n < 0 then -n else n);
    assert IsDigit(d[0]) && IsDigit(d[|d| - 1]);
    assert forall c <- d :: IsDigit(c);
  }

  lemma PrintedAreSolid(values: seq<Json>)
    ensures AllSolid(Printed(values))
  {
    forall l | l in Printed(values) ensures Solid(l) {
      var i :| 0 <= i < |values| && l == Print(values[i]);
      PrintIsSolid(values[i]);
    }
  }

  /** Appending a line to a file of values gives the file of one more value. */
  lemma AppendLine(values: seq<Json>, v: Json)
    ensures FileOf(values) + LineOf(v) == FileOf(values + [v])
  {
    MapAppend(Print, values, v);
    CollectConcat(Line, Printed(values), [Print(v)]);
    CollectOne(Line, Print(v));
  }

  /** `JSON.parse` of a compact line; `None` where it throws. */
  function ParseLine(l: Text): seq<Json> {
    var r := Parse(l);
    if r.Got? && r.rest == [] then [r.value] else []
  }

  lemma ParsePrinted(v: Json)
    ensures ParseLine(Print(v)) == [v]
  {
    ParsePrint(v);
  }

  lemma {:induction false} ParseAll(values: seq<Json>)
    ensures Collect(ParseLine, Printed(values)) == values
  {
    if values != [] {
      ParsePrinted(values[0]);
      ParseAll(values[1..]);
      assert Printed(values)[1..] == Printed(values[1..]);
    }
  }
}
