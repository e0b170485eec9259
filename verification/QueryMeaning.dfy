/** What the filters, the order and the tolerance of queries come to (packages/evidence-store/src/store.ts). */
module QueryMeaning {
  import opened Texts
  import opened Options
  import opened Json
  import opened Lists
  import opened Sorting
  import opened Ndjson
  import opened Files
  import opened Store
  import opened StoreLaws

  // ---- Filters ----

  /** The elements with the property, in order. */
  function Where<T>(p: T -> bool, xs: seq<T>): seq<T> {
    if xs == [] then [] else (if p(xs[0]) then [xs[0]] else []) + Where(p, xs[1..])
  }

  lemma WhereFirst<T>(p: T -> bool, x: T, xs: seq<T>)
    ensures Where(p, [x] + xs) == (if p(x) then [x] else []) + Where(p, xs)
  {
    assert ([x] + xs)[1..] == xs;
  }

  lemma {:induction false} WhereAppend<T>(p: T -> bool, xs: seq<T>, ys: seq<T>)
    ensures Where(p, xs + ys) == Where(p, xs) + Where(p, ys)
  {
    if xs == [] {
      assert xs + ys == ys;
    } else {
      assert xs + ys == [xs[0]] + (xs[1..] + ys);
      WhereAppend(p, xs[1..], ys);
      WhereFirst(p, xs[0], xs[1..] + ys);
      Associative(if p(xs[0]) then [xs[0]] else [], Where(p, xs[1..]), Where(p, ys));
    }
  }

  lemma {:induction false} CollectWhere<T, U>(f: T -> seq<U>, g: T -> seq<U>, p: U -> bool, xs: seq<T>)
    requires forall x :: g(x) == Where(p, f(x))
    ensures Collect(g, xs) == Where(p, Collect(f, xs))
  {
    if xs != [] {
      CollectWhere(f, g, p, xs[1..]);
      WhereAppend(p, f(xs[0]), Collect(f, xs[1..]));
    }
  }

  ghost predicate Narrows(q: Query, q': Query, p: Record -> bool) {
    forall kind, r :: Selects(q', kind, r) <==> Selects(q, kind, r) && p(r)
  }

  lemma NarrowedAnswer(parse: Json -> Parsed, q: Query, q': Query, p: Record -> bool, contents: seq<seq<Json>>)
    requires Narrows(q, q', p)
    ensures Selected(parse, q', contents) == Where(p, Selected(parse, q, contents))
  {
    forall line ensures Keep(parse, q')(line) == Where(p, Keep(parse, q)(line)) {
      match parse(line)
      case Rejected =>
      case Accepted(kind, r) =>
        assert Selects(q', kind, r) <==> Selects(q, kind, r) && p(r);
        assert [r][1..] == [];
    }
    forall lines ensures Kept(parse, q')(lines) == Where(p, Kept(parse, q)(lines)) {
      CollectWhere(Keep(parse, q), Keep(parse, q'), p, lines);
    }
    CollectWhere(Kept(parse, q), Kept(parse, q'), p, contents);
  }

  /** A chain filter keeps, of what the query selects without it, the records of that chain. */
  lemma ChainFilter(parse: Json -> Parsed, q: Query, chainId: int, contents: seq<seq<Json>>)
    requires q.chainId == None
    ensures Selected(parse, q.(chainId := Some(chainId)), contents) ==
              Where((r: Record) => r.chainId == chainId, Selected(parse, q, contents))
  {
    NarrowedAnswer(parse, q, q.(chainId := Some(chainId)), (r: Record) => r.chainId == chainId, contents);
  }

  /** A receipt filter keeps the records of that receipt, unless it is empty. */
  lemma ReceiptFilter(parse: Json -> Parsed, q: Query, receiptId: Text, contents: seq<seq<Json>>)
    requires q.receiptId == None
    ensures Selected(parse, q.(receiptId := Some(receiptId)), contents) ==
              if receiptId == [] then Selected(parse, q, contents)
              else Where((r: Record) => r.receiptId == Some(receiptId), Selected(parse, q, contents))
  {
    if receiptId == [] {
      NarrowedAnswer(parse, q, q.(receiptId := Some(receiptId)), (r: Record) => true, contents);
      WhereAll(Selected(parse, q, contents));
    } else {
      NarrowedAnswer(parse, q, q.(receiptId := Some(receiptId)), (r: Record) => r.receiptId == Some(receiptId), contents);
    }
  }

  lemma {:induction false} WhereAll(xs: seq<Record>)
    ensures Where((r: Record) => true, xs) == xs
  {
    if xs != [] {
      WhereAll(xs[1..]);
    }
  }

  /** Among findings, filters by rule and severity keep what has them. */
  lemma FindingFilters(parse: Json -> Parsed, q: Query, ruleId: Text, severity: Text, contents: seq<seq<Json>>)
    requires q.kind == Some(Finding) && q.ruleId == None && q.severity == None && ruleId != [] && severity != []
    ensures Selected(parse, q.(ruleId := Some(ruleId)), contents) ==
              Where((r: Record) => r.ruleId == Some(ruleId), Selected(parse, q, contents))
    ensures Selected(parse, q.(severity := Some(severity)), contents) ==
              Where((r: Record) => r.severity == Some(severity), Selected(parse, q, contents))
  {
    NarrowedAnswer(parse, q, q.(ruleId := Some(ruleId)), (r: Record) => r.ruleId == Some(ruleId), contents);
    NarrowedAnswer(parse, q, q.(severity := Some(severity)), (r: Record) => r.severity == Some(severity), contents);
  }

  /** Actions have neither: these filters do not apply to them. */
  lemma ActionsIgnoreFindingFilters(parse: Json -> Parsed, q: Query, ruleId: Option<Text>, severity: Option<Text>, contents: seq<seq<Json>>)
    requires q.kind == Some(Action)
    ensures Selected(parse, q.(ruleId := ruleId, severity := severity), contents) == Selected(parse, q, contents)
  {
    NarrowedAnswer(parse, q, q.(ruleId := ruleId, severity := severity), (r: Record) => true, contents);
    WhereAll(Selected(parse, q, contents));
  }

  /** Both dates are inclusive. */
  lemma DateFilters(parse: Json -> Parsed, q: Query, start: int, end: int, contents: seq<seq<Json>>)
    requires q.startDate == None && q.endDate == None
    ensures Selected(parse, q.(startDate := Some(start)), contents) ==
              Where((r: Record) => start <= r.time, Selected(parse, q, contents))
    ensures Selected(parse, q.(endDate := Some(end)), contents) ==
              Where((r: Record) => r.time <= end, Selected(parse, q, contents))
    ensures Selected(parse, q.(startDate := Some(start), endDate := Some(end)), contents) ==
              Where((r: Record) => start <= r.time <= end, Selected(parse, q, contents))
  {
    NarrowedAnswer(parse, q, q.(startDate := Some(start)), (r: Record) => start <= r.time, contents);
    NarrowedAnswer(parse, q, q.(endDate := Some(end)), (r: Record) => r.time <= end, contents);
    NarrowedAnswer(
      parse, q, q.(startDate := Some(start), endDate := Some(end)), (r: Record) => start <= r.time <= end, contents);
  }

  lemma {:induction false} CollectParts<T, U>(f: T -> seq<U>, g: T -> seq<U>, h: T -> seq<U>, xs: seq<T>)
    requires forall x :: multiset(h(x)) == multiset(f(x)) + multiset(g(x))
    ensures multiset(Collect(h, xs)) == multiset(Collect(f, xs)) + multiset(Collect(g, xs))
  {
    if xs != [] {
      CollectParts(f, g, h, xs[1..]);
    }
  }

  /** Findings and actions, queried apart, make up what is queried together. */
  lemma KindsPartition(parse: Json -> Parsed, q: Query, contents: seq<seq<Json>>)
    requires q.kind == None
    ensures multiset(Selected(parse, q, contents)) ==
              multiset(Selected(parse, q.(kind := Some(Finding)), contents)) + multiset(Selected(parse, q.(kind := Some(Action)), contents))
  {
    var f, a := q.(kind := Some(Finding)), q.(kind := Some(Action));
    forall line ensures multiset(Keep(parse, q)(line)) == multiset(Keep(parse, f)(line)) + multiset(Keep(parse, a)(line)) {
      match parse(line)
      case Rejected =>
      case Accepted(kind, r) => assert Selects(q, kind, r) <==> Selects(f, kind, r) || Selects(a, kind, r);
    }
    forall lines ensures multiset(Kept(parse, q)(lines)) == multiset(Kept(parse, f)(lines)) + multiset(Kept(parse, a)(lines)) {
      CollectParts(Keep(parse, f), Keep(parse, a), Keep(parse, q), lines);
    }
    CollectParts(Kept(parse, f), Kept(parse, a), Kept(parse, q), contents);
  }

  // ---- Files and their order ----

  /** A name with something, or nothing, between the prefix and the suffix. */
  lemma EvidenceNames(name: Text)
    ensures IsEvidenceFile(name) <==> exists middle: Text :: name == Ascii("evidence-") + middle + Ascii(".jsonl")
  {
    var n := |name|;
    if IsEvidenceFile(name) {
      assert n >= 15 by {
        if n < 15 {
          assert name[n - 6] == JSONL[0] == 0x2E;
          assert EVIDENCE[n - 6] == name[n - 6];
          NoDot(n - 6);
        }
      }
      assert name == Ascii("evidence-") + name[9..n - 6] + Ascii(".jsonl");
    }
    if middle: Text :| name == Ascii("evidence-") + middle + Ascii(".jsonl") {
      assert name[n - 6..] == JSONL;
    }
  }

  lemma NoDot(i: nat)
    requires i < 9
    ensures EVIDENCE[i] != 0x2E
  {
    assert |EVIDENCE| == 9;
  }

  /** The files are read in ascending order of their names, and none is left out. */
  lemma FilesAscend(locale: (Text, Text) -> int, files: seq<File>)
    requires TotalPreorder(locale)
    ensures
      var listed := EvidenceFiles(locale, files);
      && (forall i, j :: 0 <= i < j < |listed| ==> locale(listed[i].name, listed[j].name) <= 0)
      && multiset(listed) == multiset(Collect(Evidence, files))
      && forall f :: f in listed <==> f in files && IsEvidenceFile(f.name)
  {
    var order := NameOrder(locale);
    forall x, y ensures Opposite(order, x, y) {
      assert Opposite(locale, x.name, y.name);
    }
    forall x, y, z ensures Transitive(order, x, y, z) {
      assert Transitive(locale, x.name, y.name, z.name);
    }
    SortSorted(order, Collect(Evidence, files));
    SortMultiset(order, Collect(Evidence, files));
    EvidenceMembers(files);
  }

  lemma {:induction false} EvidenceMembers(files: seq<File>)
    ensures forall f :: f in Collect(Evidence, files) <==> f in files && IsEvidenceFile(f.name)
  {
    if files != [] {
      EvidenceMembers(files[1..]);
      assert files == [files[0]] + files[1..];
    }
  }

  /** What earlier files hold comes first: the answer is cut at any file into what the files before it and the rest give. */
  lemma FilesInTurn(parse: Json -> Parsed, q: Query, locale: (Text, Text) -> int, files: seq<File>, i: nat)
    requires i <= |EvidenceFiles(locale, files)|
    ensures
      var listed := EvidenceFiles(locale, files);
      Answer(parse, q, locale, files) == Selected(parse, q, Map(LinesOf, listed[..i])) + Selected(parse, q, Map(LinesOf, listed[i..]))
  {
    var contents := Map(LinesOf, EvidenceFiles(locale, files));
    CollectSplit(Kept(parse, q), contents, i);
    assert contents[..i] == Map(LinesOf, EvidenceFiles(locale, files)[..i]);
    assert contents[i..] == Map(LinesOf, EvidenceFiles(locale, files)[i..]);
  }

  // ---- What is not evidence ----

  /** A line is accepted exactly if it is an object of a known type and version 1 whose data a schema accepts. */
  lemma AcceptedExactly(schemas: Schemas, line: Json, kind: Kind, record: Record)
    ensures ParseEvidence(schemas, line) == Accepted(kind, record) <==>
              && line.Obj?
              && Member(line.fields, Ascii("type")) == Some(Str(if kind == Finding then Ascii("finding") else Ascii("action")))
              && Member(line.fields, Ascii("schemaVersion")) == Some(Num(1))
              && exists data :: Member(line.fields, Ascii("data")) == Some(data) && ReadsAs(schemas, data, record)
  {
    assert TYPE == Ascii("type") && SCHEMA_VERSION == Ascii("schemaVersion") && DATA == Ascii("data");
    assert FINDING == Ascii("finding") && ACTION == Ascii("action");
    assert |FINDING| != |ACTION|;
  }

  /** The first schema that accepts the data gives the record. */
  predicate ReadsAs(schemas: Schemas, data: Json, record: Record) {
    if schemas.finding(data) == None then schemas.action(data) == Some(record) else schemas.finding(data) == Some(record)
  }

  /** A line that does not parse, as a torn write leaves it, costs no other record. */
  lemma TornLineIsSkipped(before: seq<Json>, torn: Text, after: seq<Json>)
    requires AllObjects(before) && AllObjects(after) && Solid(torn) && ParseLine(torn) == []
    ensures Lines(FileOf(before) + Line(torn) + FileOf(after)) == before + after
  {
    var lines := Printed(before) + [torn] + Printed(after);
    PrintedAreSolid(before);
    PrintedAreSolid(after);
    LinesReadBack(lines);
    CollectConcat(Line, Printed(before) + [torn], Printed(after));
    CollectConcat(Line, Printed(before), [torn]);
    CollectOne(Line, torn);
    CollectConcat(ParseLine, Printed(before) + [torn], Printed(after));
    CollectConcat(ParseLine, Printed(before), [torn]);
    CollectOne(ParseLine, torn);
    ParseAll(before);
    ParseAll(after);
    assert before + [] == before;
    NothingNull(before + after);
  }
}
