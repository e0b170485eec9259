/** What every run of writes keeps, and what paged queries return (packages/evidence-store/src/store.ts). */
module StoreLaws {
  import opened Texts
  import opened Options
  import opened Json
  import opened Lists
  import opened Sorting
  import opened Ndjson
  import opened Files
  import opened Store

  // ---- Rotation ----

  /** Every day has a first file of its own, and a suffixed name is of one day and one suffix and never a first file. */
  lemma NamesDiffer(d: Date, e: Date, m: nat, n: nat)
    ensures BaseName(d) == BaseName(e) <==> d == e
    ensures RotatedName(d, m) == RotatedName(e, n) <==> d == e && m == n
    ensures BaseName(d) != RotatedName(e, n)
  {
    var base := BaseName(d);
    assert base[9..19] == d && BaseName(e)[9..19] == e;
    if RotatedName(d, m) == RotatedName(e, n) {
      RotatedInjective(d, e, m, n);
    }
    assert |base| == 25 && |RotatedName(e, n)| == 26 + |Decimal(n)|;
  }

  /** The target is determined by the directory and the date. */
  lemma TargetUnique(files: seq<File>, max: int, date: Date, a: Text, b: Text)
    requires IsTarget(files, max, date, a) && IsTarget(files, max, date, b)
    ensures a == b
  {
    if a != b {
      var m: nat :| FirstFree(files, date, m, a);
    }
  }

  /** No write goes to a file that has reached the limit, and after the first file of a day is full every write makes a new one. */
  lemma TargetHasRoom(files: seq<File>, max: int, date: Date, name: Text)
    requires IsTarget(files, max, date, name)
    ensures Exists(files, name) ==> name == BaseName(date) && Utf8Length(ContentOf(files, name)) < max
    ensures Exists(files, BaseName(date)) && Utf8Length(ContentOf(files, BaseName(date))) >= max ==> !Exists(files, name)
  {
  }

  /** A day's suffixes start at 1 without gaps, behind the day's first file. */
  ghost predicate Contiguous(files: seq<File>) {
    forall date: Date, n: nat | n >= 1 && Exists(files, RotatedName(date, n)) ::
      Exists(files, BaseName(date)) && TakenBelow(files, date, n)
  }

  /** A rotated file holds one line. */
  ghost predicate OneLineEach(files: seq<File>) {
    forall f <- files, date: Date, n: nat | f.name == RotatedName(date, n) :: |Lines(f.content)| == 1
  }

  /** Every evidence file consists of the lines it is read as. */
  predicate IsWhole(f: File) {
    IsEvidenceFile(f.name) ==> AllObjects(Lines(f.content)) && f.content == FileOf(Lines(f.content))
  }

  predicate AllWhole(files: seq<File>) { forall f <- files :: IsWhole(f) }

  ghost predicate Good(files: seq<File>) {
    Contiguous(files) && OneLineEach(files) && AllWhole(files)
  }

  // ---- One write ----

  datatype Write = Write(date: Date, entry: Entry)

  function TextOf(e: Entry): Text { LineOf(EvidenceLine(e)) }

  ghost predicate Writes(files: seq<File>, max: int, w: Write, files': seq<File>, name: Text) {
    IsTarget(files, max, w.date, name) && files' == Append(files, name, TextOf(w.entry))
  }

  lemma WriteKeepsContiguous(files: seq<File>, max: int, w: Write, files': seq<File>, name: Text)
    requires Contiguous(files) && Writes(files, max, w, files', name)
    ensures Contiguous(files')
  {
    forall x ensures Exists(files', x) <==> Exists(files, x) || x == name {
      AppendExists(files, name, TextOf(w.entry), x);
    }
    forall date: Date, n: nat | n >= 1 && Exists(files', RotatedName(date, n))
      ensures Exists(files', BaseName(date)) && TakenBelow(files', date, n)
    {
      if !Exists(files, RotatedName(date, n)) {
        var m: nat :| FirstFree(files, w.date, m, name);
        RotatedInjective(date, w.date, n, m);
      }
    }
  }

  lemma FileReadsBack(values: seq<Json>)
    requires AllObjects(values)
    ensures Lines(FileOf(values)) == values
  {
    PrintedAreSolid(values);
    LinesReadBack(Printed(values));
    ParseAll(values);
    NothingNull(values);
  }

  lemma {:induction false} NothingNull(values: seq<Json>)
    requires AllObjects(values)
    ensures Collect(Value, values) == values
  {
    if values != [] {
      assert values[0].Obj?;
      NothingNull(values[1..]);
    }
  }

  /** A line appended to a whole file is read back as one more value. */
  lemma LineReadsBack(content: Text, e: Entry)
    requires AllObjects(Lines(content)) && content == FileOf(Lines(content))
    ensures
      var after := content + TextOf(e);
      && Lines(after) == Lines(content) + [EvidenceLine(e)]
      && AllObjects(Lines(after)) && after == FileOf(Lines(after))
  {
    var values := Lines(content);
    AppendLine(values, EvidenceLine(e));
    FileReadsBack(values + [EvidenceLine(e)]);
  }

  lemma FirstLineReadsBack(e: Entry)
    ensures Lines(TextOf(e)) == [EvidenceLine(e)]
    ensures TextOf(e) == FileOf(Lines(TextOf(e)))
  {
    AppendLine([], EvidenceLine(e));
    assert FileOf([]) + TextOf(e) == TextOf(e);
    assert [] + [EvidenceLine(e)] == [EvidenceLine(e)];
    FileReadsBack([EvidenceLine(e)]);
  }

  lemma AppendedFile(f: File, e: Entry)
    requires IsWhole(f)
    ensures IsWhole(File(f.name, f.content + TextOf(e)))
  {
    if IsEvidenceFile(f.name) {
      LineReadsBack(f.content, e);
    }
  }

  lemma NewFile(name: Text, e: Entry)
    ensures IsWhole(File(name, TextOf(e))) && |Lines(TextOf(e))| == 1
  {
    FirstLineReadsBack(e);
  }

  lemma WriteKeepsFiles(files: seq<File>, max: int, w: Write, files': seq<File>, name: Text)
    requires OneLineEach(files) && AllWhole(files) && Writes(files, max, w, files', name)
    ensures OneLineEach(files') && AllWhole(files')
  {
    TargetHasRoom(files, max, w.date, name);
    NewFile(name, w.entry);
    forall g | g in files' ensures IsWhole(g) {
      AppendMembers(files, name, TextOf(w.entry), g);
      if g !in files && Exists(files, name) {
        var f :| f in files && f.name == name && g == File(name, f.content + TextOf(w.entry));
        AppendedFile(f, w.entry);
      }
    }
    forall g, date: Date, n: nat | g in files' && g.name == RotatedName(date, n) ensures |Lines(g.content)| == 1 {
      AppendMembers(files, name, TextOf(w.entry), g);
    }
  }

  // ---- The records of a directory ----

  /** The selected records of one file. */
  function FileRecords(parse: Json -> Parsed, q: Query): File -> seq<Record> {
    (f: File) => if IsEvidenceFile(f.name) then Kept(parse, q)(Lines(f.content)) else []
  }

  /** What a query without limit or offset returns. */
  function Answer(parse: Json -> Parsed, q: Query, locale: (Text, Text) -> int, files: seq<File>): seq<Record> {
    Selected(parse, q, Map(LinesOf, EvidenceFiles(locale, files)))
  }

  lemma {:induction false} CollectMap<T, U, V>(f: U -> seq<V>, g: T -> U, h: T -> seq<V>, xs: seq<T>)
    requires forall x <- xs :: h(x) == f(g(x))
    ensures Collect(f, Map(g, xs)) == Collect(h, xs)
  {
    if xs != [] {
      CollectMap(f, g, h, xs[1..]);
      assert Map(g, xs)[1..] == Map(g, xs[1..]);
    }
  }

  lemma {:induction false} CollectFiltered<V>(h: File -> seq<V>, files: seq<File>)
    requires forall f <- files :: !IsEvidenceFile(f.name) ==> h(f) == []
    ensures Collect(h, Collect(Evidence, files)) == Collect(h, files)
  {
    if files != [] {
      CollectFiltered(h, files[1..]);
      CollectConcat(h, Evidence(files[0]), Collect(Evidence, files[1..]));
      CollectOne(h, files[0]);
    }
  }

  lemma AnswerIsCollection(parse: Json -> Parsed, q: Query, locale: (Text, Text) -> int, files: seq<File>)
    ensures multiset(Answer(parse, q, locale, files)) == multiset(Collect(FileRecords(parse, q), files))
  {
    var listed := EvidenceFiles(locale, files);
    var evidence := Collect(Evidence, files);
    OnlyEvidence(files);
    SortMultiset(NameOrder(locale), evidence);
    CollectMap(Kept(parse, q), LinesOf, FileRecords(parse, q), listed);
    CollectPermutation(FileRecords(parse, q), listed, evidence);
    CollectFiltered(FileRecords(parse, q), files);
  }

  lemma {:induction false} OnlyEvidence(files: seq<File>)
    ensures forall f <- Collect(Evidence, files) :: IsEvidenceFile(f.name)
  {
    if files != [] {
      OnlyEvidence(files[1..]);
    }
  }

  /** Appending a text whose share of the records is `extra` adds just those. */
  lemma {:induction false} CollectAppended<V>(h: File -> seq<V>, files: seq<File>, name: Text, text: Text, extra: seq<V>)
    requires h(File(name, text)) == extra
    requires forall f <- files :: f.name == name ==> h(File(name, f.content + text)) == h(f) + extra
    ensures multiset(Collect(h, Append(files, name, text))) == multiset(Collect(h, files)) + multiset(extra)
  {
    if files == [] {
      CollectOne(h, File(name, text));
    } else if files[0].name != name {
      CollectAppended(h, files[1..], name, text, extra);
    }
  }

  lemma KeptOneMore(parse: Json -> Parsed, q: Query, values: seq<Json>, v: Json)
    ensures Kept(parse, q)(values + [v]) == Kept(parse, q)(values) + Keep(parse, q)(v)
  {
    CollectConcat(Keep(parse, q), values, [v]);
    CollectOne(Keep(parse, q), v);
  }

  lemma WholeFileGains(parse: Json -> Parsed, q: Query, f: File, e: Entry)
    requires IsWhole(f) && IsEvidenceFile(f.name)
    ensures FileRecords(parse, q)(File(f.name, f.content + TextOf(e))) == FileRecords(parse, q)(f) + Keep(parse, q)(EvidenceLine(e))
  {
    LineReadsBack(f.content, e);
    KeptOneMore(parse, q, Lines(f.content), EvidenceLine(e));
  }

  lemma NewFileHolds(parse: Json -> Parsed, q: Query, name: Text, e: Entry)
    requires IsEvidenceFile(name)
    ensures FileRecords(parse, q)(File(name, TextOf(e))) == Keep(parse, q)(EvidenceLine(e))
  {
    FirstLineReadsBack(e);
    CollectOne(Keep(parse, q), EvidenceLine(e));
    assert FileRecords(parse, q)(File(name, TextOf(e))) == Kept(parse, q)([EvidenceLine(e)]);
  }

  lemma TargetIsEvidence(files: seq<File>, max: int, date: Date, name: Text)
    requires IsTarget(files, max, date, name)
    ensures IsEvidenceFile(name)
  {
  }

  /** One write adds to the answer of every query exactly its own record, where the query selects it. */
  lemma WriteAddsRecord(parse: Json -> Parsed, q: Query, locale: (Text, Text) -> int, files: seq<File>, max: int, w: Write, files': seq<File>, name: Text)
    requires AllWhole(files) && Writes(files, max, w, files', name)
    ensures multiset(Answer(parse, q, locale, files')) ==
              multiset(Answer(parse, q, locale, files)) + multiset(Keep(parse, q)(EvidenceLine(w.entry)))
  {
    var h, text, extra := FileRecords(parse, q), TextOf(w.entry), Keep(parse, q)(EvidenceLine(w.entry));
    TargetIsEvidence(files, max, w.date, name);
    NewFileHolds(parse, q, name, w.entry);
    forall f | f in files && f.name == name ensures h(File(name, f.content + text)) == h(f) + extra {
      WholeFileGains(parse, q, f, w.entry);
    }
    CollectAppended(h, files, name, text, extra);
    AnswerIsCollection(parse, q, locale, files);
    AnswerIsCollection(parse, q, locale, files');
  }

  // ---- Runs ----

  /** A directory after each of the writes; failed validations change nothing and are left out. */
  ghost predicate IsRun(max: int, writes: seq<Write>, states: seq<seq<File>>) {
    && |states| == |writes| + 1
    && forall i :: 0 <= i < |writes| ==> IsStep(max, writes[i], states[i], states[i + 1])
  }

  ghost predicate IsStep(max: int, w: Write, before: seq<File>, after: seq<File>) {
    exists name :: Writes(before, max, w, after, name)
  }

  /** What the written entries are read back as, where the query selects them. */
  function WrittenRecords(parse: Json -> Parsed, q: Query, writes: seq<Write>): seq<Record> {
    if writes == [] then []
    else WrittenRecords(parse, q, writes[..|writes| - 1]) + Keep(parse, q)(EvidenceLine(writes[|writes| - 1].entry))
  }

  /** Over any run, rotation stays contiguous, files stay whole, and every query answers with what it answered before plus what was written. */
  lemma {:induction false} RunKeepsRecords(parse: Json -> Parsed, q: Query, locale: (Text, Text) -> int, max: int, writes: seq<Write>, states: seq<seq<File>>)
    requires IsRun(max, writes, states) && Good(states[0])
    ensures Good(states[|writes|])
    ensures multiset(Answer(parse, q, locale, states[|writes|])) ==
              multiset(Answer(parse, q, locale, states[0])) + multiset(WrittenRecords(parse, q, writes))
    decreases |writes|
  {
    var n := |writes|;
    if n > 0 {
      RunKeepsRecords(parse, q, locale, max, writes[..n - 1], states[..n]);
      StepKeepsRecords(parse, q, locale, max, writes[n - 1], states[n - 1], states[n]);
    }
  }

  lemma StepKeepsRecords(parse: Json -> Parsed, q: Query, locale: (Text, Text) -> int, max: int, w: Write, before: seq<File>, after: seq<File>)
    requires IsStep(max, w, before, after) && Good(before)
    ensures Good(after)
    ensures multiset(Answer(parse, q, locale, after)) ==
              multiset(Answer(parse, q, locale, before)) + multiset(Keep(parse, q)(EvidenceLine(w.entry)))
  {
    var name :| Writes(before, max, w, after, name);
    WriteKeepsContiguous(before, max, w, after, name);
    WriteKeepsFiles(before, max, w, after, name);
    WriteAddsRecord(parse, q, locale, before, max, w, after, name);
  }

  const EVERYTHING: Query := Query(None, None, None, None, None, None, None, None, None)

  predicate Accepted(schemas: Schemas, e: Entry) { ParseData(schemas, e.data).Some? }

  function RecordOf(schemas: Schemas, e: Entry): Record
    requires Accepted(schemas, e)
  {
    ParseData(schemas, e.data).value
  }

  function Records(schemas: Schemas, writes: seq<Write>): (r: seq<Record>)
    requires forall w <- writes :: Accepted(schemas, w.entry)
    ensures |r| == |writes|
  {
    seq(|writes|, i requires 0 <= i < |writes| => RecordOf(schemas, writes[i].entry))
  }

  lemma {:induction false} AcceptedRecords(schemas: Schemas, writes: seq<Write>)
    requires forall w <- writes :: Accepted(schemas, w.entry)
    ensures WrittenRecords(schemas.Parse(), EVERYTHING, writes) == Records(schemas, writes)
  {
    if writes != [] {
      var front, last := writes[..|writes| - 1], writes[|writes| - 1];
      AcceptedRecords(schemas, front);
      assert last in writes;
      EntryReadsBack(schemas, last.entry);
      assert Records(schemas, writes) == Records(schemas, front) + [RecordOf(schemas, last.entry)];
    }
  }

  /** From an empty directory, the unfiltered query returns exactly the validated records written, as a multiset. */
  lemma UnfilteredIsWritten(schemas: Schemas, locale: (Text, Text) -> int, max: int, writes: seq<Write>, states: seq<seq<File>>)
    requires IsRun(max, writes, states) && states[0] == []
    requires forall w <- writes :: Accepted(schemas, w.entry)
    ensures multiset(Answer(schemas.Parse(), EVERYTHING, locale, states[|writes|])) == multiset(Records(schemas, writes))
  {
    RunKeepsRecords(schemas.Parse(), EVERYTHING, locale, max, writes, states);
    AcceptedRecords(schemas, writes);
    AnswerIsCollection(schemas.Parse(), EVERYTHING, locale, []);
  }

  // ---- Pages ----

  /** Page `k`: offset `k * size`, limit `size`. */
  function PageQuery(q: Query, k: nat, size: nat): Query { q.(offset := Some(PageStart(k, size)), limit := Some(size)) }

  lemma {:induction false} CollectSame<T, U>(f: T -> seq<U>, g: T -> seq<U>, xs: seq<T>)
    requires forall x :: f(x) == g(x)
    ensures Collect(f, xs) == Collect(g, xs)
  {
    if xs != [] {
      CollectSame(f, g, xs[1..]);
    }
  }

  /** Limit and offset do not change what is selected. */
  lemma SelectedIgnoresWindow(parse: Json -> Parsed, q: Query, k: nat, size: nat, contents: seq<seq<Json>>)
    ensures Selected(parse, PageQuery(q, k, size), contents) == Selected(parse, q, contents)
  {
    var p := PageQuery(q, k, size);
    forall line ensures Keep(parse, p)(line) == Keep(parse, q)(line) {
      match parse(line)
      case Rejected =>
      case Accepted(kind, record) => assert Selects(p, kind, record) == Selects(q, kind, record);
    }
    forall lines ensures Kept(parse, p)(lines) == Kept(parse, q)(lines) {
      CollectSame(Keep(parse, p), Keep(parse, q), lines);
    }
    CollectSame(Kept(parse, p), Kept(parse, q), contents);
  }

  /** What the query for page `k` returns. */
  function PagedQuery(parse: Json -> Parsed, q: Query, size: nat, contents: seq<seq<Json>>): nat -> seq<Record> {
    (k: nat) => Window(PageQuery(q, k, size), Selected(parse, PageQuery(q, k, size), contents))
  }

  /** Consecutive pages of at least one record give the whole result, nothing lost or repeated. */
  lemma PagesAreQuery(parse: Json -> Parsed, q: Query, n: nat, size: nat, contents: seq<seq<Json>>)
    requires size >= 1
    ensures Concat(n, PagedQuery(parse, q, size, contents)) == Take(n * size, Selected(parse, q, contents))
  {
    var all := Selected(parse, q, contents);
    forall k: nat ensures PagedQuery(parse, q, size, contents)(k) == Page(PageStart(k, size), size, all) {
      SelectedIgnoresWindow(parse, q, k, size, contents);
      PageIsWindow(q, k, size, all);
    }
    ConcatPages(n, size, all, PagedQuery(parse, q, size, contents));
    PagesAreTake(n, size, all);
    PageStartIsProduct(n, size);
  }

  lemma PageIsWindow<T>(q: Query, k: nat, size: nat, xs: seq<T>)
    requires size >= 1
    ensures Window(PageQuery(q, k, size), xs) == Page(PageStart(k, size), size, xs)
  {
    var p, start := PageQuery(q, k, size), PageStart(k, size);
    assert Offset(p) == start && p.limit == Some(size) && Bound(p) == size;
  }

  /** The limit is kept exactly when it is at least 1 or nothing is left to return: with limit 0 one record still comes back. */
  lemma LimitKept<T>(q: Query, xs: seq<T>)
    requires q.limit.Some?
    ensures Window(q, xs) == Take(q.limit.value, Drop(Offset(q), xs)) <==> q.limit.value >= 1 || Drop(Offset(q), xs) == []
  {
  }
}
