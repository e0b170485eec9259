/** The append-only evidence store: rotation and paged queries (packages/evidence-store/src/store.ts). */
module Store {
  import opened Texts
  import opened Options
  import opened Json
  import opened Lists
  import opened Sorting
  import opened Ndjson
  import opened Files

  // ---- Records ----

  datatype Kind = Finding | Action

  /** A record as the schema returns it: the fields the filters look at, and the value itself. */
  datatype Record = Record(
    chainId: int,
    receiptId: Option<Text>,
    ruleId: Option<Text>,
    severity: Option<Text>,
    time: int,
    data: Json)

  /** The two record schemas; `None` where validation fails. */
  datatype Schemas = Schemas(finding: Json -> Option<Record>, action: Json -> Option<Record>) {
    /** `EvidenceLineSchema.safeParse` */
    function Parse(): Json -> Parsed { line => ParseEvidence(this, line) }
  }

  datatype Entry = Entry(kind: Kind, data: Json)

  const TYPE: Text := [0x74, 0x79, 0x70, 0x65]
  const SCHEMA_VERSION: Text := [0x73, 0x63, 0x68, 0x65, 0x6D, 0x61, 0x56, 0x65, 0x72, 0x73, 0x69, 0x6F, 0x6E]
  const DATA: Text := [0x64, 0x61, 0x74, 0x61]
  const FINDING: Text := [0x66, 0x69, 0x6E, 0x64, 0x69, 0x6E, 0x67]
  const ACTION: Text := [0x61, 0x63, 0x74, 0x69, 0x6F, 0x6E]

  function KindName(kind: Kind): Text { match kind case Finding => FINDING case Action => ACTION }

  /** `{ type, schemaVersion: 1, data }` */
  function EvidenceLine(e: Entry): Json {
    Obj([Field(TYPE, Str(KindName(e.kind))), Field(SCHEMA_VERSION, Num(1)), Field(DATA, e.data)])
  }

  /** The union of the record schemas: the first that accepts. */
  function ParseData(schemas: Schemas, data: Json): Option<Record> {
    if schemas.finding(data).Some? then schemas.finding(data) else schemas.action(data)
  }

  datatype Parsed = Rejected | Accepted(kind: Kind, record: Record)

  /** `EvidenceLineSchema.safeParse(line)` */
  function ParseEvidence(schemas: Schemas, line: Json): Parsed {
    if !line.Obj? then Rejected
    else
      var kind, version, data := Member(line.fields, TYPE), Member(line.fields, SCHEMA_VERSION), Member(line.fields, DATA);
      if version != Some(Num(1)) || data.None? then Rejected
      else
        var record := ParseData(schemas, data.value);
        if record.None? then Rejected
        else if kind == Some(Str(FINDING)) then Accepted(Finding, record.value)
        else if kind == Some(Str(ACTION)) then Accepted(Action, record.value)
        else Rejected
  }

  /** What a written entry is read back as. */
  function ReadBack(schemas: Schemas, e: Entry): Parsed {
    match ParseData(schemas, e.data)
    case None => Rejected
    case Some(record) => Accepted(e.kind, record)
  }

  lemma EntryReadsBack(schemas: Schemas, e: Entry)
    ensures ParseEvidence(schemas, EvidenceLine(e)) == ReadBack(schemas, e)
  {
    var fields := EvidenceLine(e).fields;
    assert fields[..2] == [fields[0], fields[1]] && fields[..2][..1] == [fields[0]];
    assert |TYPE| == 4 && |DATA| == 4 && |SCHEMA_VERSION| == 13 && TYPE[0] != DATA[0];
    assert |FINDING| == 7 && |ACTION| == 6;
    assert Member([fields[0]], TYPE) == Some(fields[0].value);
    assert Member(fields[..2], TYPE) == Some(fields[0].value);
    assert Member(fields[..2], SCHEMA_VERSION) == Some(fields[1].value);
  }

  // ---- Queries ----

  datatype Query = Query(
    kind: Option<Kind>,
    chainId: Option<int>,
    ruleId: Option<Text>,
    receiptId: Option<Text>,
    severity: Option<Text>,
    startDate: Option<int>,
    endDate: Option<int>,
    limit: Option<int>,
    offset: Option<int>)

  /** A filter that is absent or empty accepts anything. */
  predicate Agrees(wanted: Option<Text>, actual: Option<Text>) {
    wanted.None? || wanted.value == [] || actual == wanted
  }

  predicate Selects(q: Query, kind: Kind, r: Record) {
    && (q.kind.Some? ==> kind == q.kind.value)
    && (q.chainId.Some? ==> r.chainId == q.chainId.value)
    && Agrees(q.receiptId, r.receiptId)
    && (kind == Finding ==> Agrees(q.ruleId, r.ruleId) && Agrees(q.severity, r.severity))
    && (q.startDate.Some? ==> r.time >= q.startDate.value)
    && (q.endDate.Some? ==> r.time <= q.endDate.value)
  }

  /** The record of a line, when the line is evidence and the filters select it. */
  function Keep(parse: Json -> Parsed, q: Query): Json -> seq<Record> {
    line =>
      match parse(line)
      case Rejected => []
      case Accepted(kind, record) => if Selects(q, kind, record) then [record] else []
  }

  function Kept(parse: Json -> Parsed, q: Query): seq<Json> -> seq<Record> {
    lines => Collect(Keep(parse, q), lines)
  }

  /** Every selected record of the files' lines, in reading order. */
  function Selected(parse: Json -> Parsed, q: Query, contents: seq<seq<Json>>): seq<Record> {
    Collect(Kept(parse, q), contents)
  }

  // ---- Files ----

  function Value(v: Json): seq<Json> { if v == Null then [] else [v] }

  /** The values of a file's lines, without those that do not parse or are null. */
  function Lines(content: Text): seq<Json> { Collect(Value, Collect(ParseLine, TrimmedLines(content))) }

  function LinesOf(f: File): seq<Json> { Lines(f.content) }

  function Offset(q: Query): int { if q.offset.Some? then q.offset.value else 0 }

  /** What the early exit leaves of a list: the limit is tested after a record has been taken. */
  function Window<T>(q: Query, xs: seq<T>): seq<T> {
    var rest := Drop(Offset(q), xs);
    if q.limit.None? then rest else Take(Bound(q), rest)
  }

  function Bound(q: Query): int
    requires q.limit.Some?
  {
    if q.limit.value < 1 then 1 else q.limit.value
  }

  const EVIDENCE: Text := Ascii("evidence-")
  const JSONL: Text := Ascii(".jsonl")

  predicate IsEvidenceFile(name: Text) {
    EVIDENCE <= name && |JSONL| <= |name| && name[|name| - |JSONL|..] == JSONL
  }

  function Evidence(f: File): seq<File> { if IsEvidenceFile(f.name) then [f] else [] }

  function NameOrder(locale: (Text, Text) -> int): (File, File) -> int {
    (a: File, b: File) => locale(a.name, b.name)
  }

  /** The evidence files in the order of their names. */
  function EvidenceFiles(locale: (Text, Text) -> int, files: seq<File>): seq<File> {
    Sort(NameOrder(locale), Collect(Evidence, files))
  }

  // ---- Names and rotation ----

  /** YYYY-MM-DD */
  type Date = t: Text | |t| == 10 witness seq(10, i => ZERO)

  function BaseName(date: Date): Text { EVIDENCE + date + JSONL }

  function RotatedName(date: Date, suffix: nat): Text { EVIDENCE + date + [MINUS] + Decimal(suffix) + JSONL }

  /** Bytes of the UTF-8 encoding; a lone surrogate is written as U+FFFD. */
  function Utf8Length(t: Text): nat {
    if t == [] then 0
    else if |t| > 1 && HighSurrogate(t[0]) && LowSurrogate(t[1]) then 4 + Utf8Length(t[2..])
    else (if t[0] < 0x80 then 1 else if t[0] < 0x800 then 2 else 3) + Utf8Length(t[1..])
  }

  /** The file to write to is the day's first one with room, or else the first free suffix. */
  ghost predicate IsTarget(files: seq<File>, max: int, date: Date, name: Text) {
    var base := BaseName(date);
    if !Exists(files, base) || Utf8Length(ContentOf(files, base)) < max then name == base
    else exists n: nat :: FirstFree(files, date, n, name)
  }

  predicate FirstFree(files: seq<File>, date: Date, n: nat, name: Text) {
    && 1 <= n && name == RotatedName(date, n) && !Exists(files, name)
    && forall k :: 1 <= k < n ==> Exists(files, RotatedName(date, k))
  }

  predicate TakenBelow(files: seq<File>, date: Date, n: nat) {
    forall k :: 1 <= k < n ==> Exists(files, RotatedName(date, k))
  }

  lemma RotatedInjective(d: Date, e: Date, m: nat, n: nat)
    requires RotatedName(d, m) == RotatedName(e, n)
    ensures d == e && m == n
  {
    var x, y := RotatedName(d, m), RotatedName(e, n);
    assert |x| == 9 + 10 + 1 + |Decimal(m)| + 6 && |y| == 9 + 10 + 1 + |Decimal(n)| + 6;
    assert x[9..19] == d && y[9..19] == e;
    assert x[20..20 + |Decimal(m)|] == Decimal(m) && y[20..20 + |Decimal(n)|] == Decimal(n);
    DecimalUnique(m, n);
  }

  function RotatedNames(date: Date, n: nat): set<Text> {
    if n <= 1 then {} else RotatedNames(date, n - 1) + {RotatedName(date, n - 1)}
  }

  lemma {:induction false} RotatedNamesCount(date: Date, n: nat)
    ensures n >= 1 ==> |RotatedNames(date, n)| == n - 1
    ensures forall name :: name in RotatedNames(date, n) ==> exists k :: 1 <= k < n && name == RotatedName(date, k)
  {
    if n > 1 {
      RotatedNamesCount(date, n - 1);
      if RotatedName(date, n - 1) in RotatedNames(date, n - 1) {
        var k :| 1 <= k < n - 1 && RotatedName(date, n - 1) == RotatedName(date, k);
        RotatedInjective(date, date, n - 1, k);
      }
    }
  }

  function NamesOf(files: seq<File>): set<Text> { set f <- files :: f.name }

  lemma {:induction false} NamesCount(files: seq<File>)
    ensures |NamesOf(files)| <= |files|
  {
    if files == [] {
      assert NamesOf(files) == {};
    } else {
      NamesCount(files[1..]);
      assert files == [files[0]] + files[1..];
      assert NamesOf(files) == {files[0].name} + NamesOf(files[1..]);
    }
  }

  lemma SubsetCount<T>(a: set<T>, b: set<T>)
    requires a <= b
    ensures |a| <= |b|
  {
    assert b == a + (b - a);
    assert a !! (b - a);
  }

  /** The suffix search ends: a directory of so many files cannot hold more suffixes than that. */
  lemma SuffixesRunOut(files: seq<File>, date: Date, n: nat)
    requires TakenBelow(files, date, n)
    ensures n <= |files| + 1
  {
    RotatedNamesCount(date, n);
    NamesCount(files);
    forall name | name in RotatedNames(date, n) ensures name in NamesOf(files) {
      var k :| 1 <= k < n && name == RotatedName(date, k);
      assert Exists(files, RotatedName(date, k));
    }
    SubsetCount(RotatedNames(date, n), NamesOf(files));
  }

  /** The tests of one turn of the loop, in the order of the source. */
  method Filter(parse: Json -> Parsed, q: Query, line: Json) returns (kept: Option<Record>)
    ensures Keep(parse, q)(line) == if kept.Some? then [kept.value] else []
  {
    var parsed := parse(line);
    if parsed.Rejected? {
      return None;
    }
    var record := parsed.record;
    if q.kind.Some? && parsed.kind != q.kind.value {
      return None;
    }
    if q.chainId.Some? && record.chainId != q.chainId.value {
      return None;
    }
    if q.receiptId.Some? && q.receiptId.value != [] && record.receiptId != q.receiptId {
      return None;
    }
    if parsed.kind == Finding {
      if q.ruleId.Some? && q.ruleId.value != [] && record.ruleId != q.ruleId {
        return None;
      }
      if q.severity.Some? && q.severity.value != [] && record.severity != q.severity {
        return None;
      }
    }
    if q.startDate.Some? && record.time < q.startDate.value {
      return None;
    }
    if q.endDate.Some? && record.time > q.endDate.value {
      return None;
    }
    kept := Some(record);
  }

  datatype WriteResult = Written(filePath: Text) | Failed

  class EvidenceStore {
    const schemas: Schemas
    const locale: (Text, Text) -> int
    const maxFileSizeBytes: int
    const validateOnWrite: bool
    var files: seq<File>

    constructor (schemas: Schemas, locale: (Text, Text) -> int, maxFileSizeBytes: int, validateOnWrite: bool, files: seq<File>)
      ensures this.schemas == schemas && this.locale == locale && this.maxFileSizeBytes == maxFileSizeBytes
      ensures this.validateOnWrite == validateOnWrite && this.files == files
    {
      this.schemas := schemas;
      this.locale := locale;
      this.maxFileSizeBytes := maxFileSizeBytes;
      this.validateOnWrite := validateOnWrite;
      this.files := files;
    }

    method GetRotatedFilePath(date: Date) returns (path: Text)
      ensures IsTarget(files, maxFileSizeBytes, date, path)
    {
      var basePath := BaseName(date);
      if !Exists(files, basePath) {
        return basePath;
      }
      if Utf8Length(ContentOf(files, basePath)) < maxFileSizeBytes {
        return basePath;
      }
      var suffix := 1;
      path := RotatedName(date, suffix);
      suffix := suffix + 1;
      while Exists(files, path)
        invariant suffix >= 2 && path == RotatedName(date, suffix - 1)
        invariant TakenBelow(files, date, suffix - 1)
        decreases |files| + 3 - suffix
      {
        SuffixesRunOut(files, date, suffix);
        path := RotatedName(date, suffix);
        suffix := suffix + 1;
      }
      assert FirstFree(files, date, suffix - 1, path);
    }

    method WriteLine(date: Date, e: Entry) returns (r: WriteResult)
      modifies this
      ensures r.Written? && IsTarget(old(files), maxFileSizeBytes, date, r.filePath)
      ensures files == Append(old(files), r.filePath, LineOf(EvidenceLine(e)))
    {
      var filePath := GetRotatedFilePath(date);
      files := Append(files, filePath, LineOf(EvidenceLine(e)));
      r := Written(filePath);
    }

    method WriteFinding(date: Date, finding: Json) returns (r: WriteResult)
      modifies this
      ensures r.Failed? <==> validateOnWrite && schemas.finding(finding).None?
      ensures r.Failed? ==> files == old(files)
      ensures r.Written? ==>
                && IsTarget(old(files), maxFileSizeBytes, date, r.filePath)
                && files == Append(old(files), r.filePath, LineOf(EvidenceLine(Entry(Finding, finding))))
    {
      if validateOnWrite {
        if schemas.finding(finding).None? {
          return Failed;
        }
      }
      r := WriteLine(date, Entry(Finding, finding));
    }

    method WriteActionResult(date: Date, actionResult: Json) returns (r: WriteResult)
      modifies this
      ensures r.Failed? <==> validateOnWrite && schemas.action(actionResult).None?
      ensures r.Failed? ==> files == old(files)
      ensures r.Written? ==>
                && IsTarget(old(files), maxFileSizeBytes, date, r.filePath)
                && files == Append(old(files), r.filePath, LineOf(EvidenceLine(Entry(Action, actionResult))))
    {
      if validateOnWrite {
        if schemas.action(actionResult).None? {
          return Failed;
        }
      }
      r := WriteLine(date, Entry(Action, actionResult));
    }

    method Query(q: Query) returns (results: seq<Record>)
      ensures results == Window(q, Selected(schemas.Parse(), q, Map(LinesOf, EvidenceFiles(locale, files))))
    {
      results := Scan(schemas.Parse(), q, Map(LinesOf, EvidenceFiles(locale, files)));
    }
  }

  /** The nested loop with its early exit selects, drops and takes. */
  method Scan(parse: Json -> Parsed, q: Query, contents: seq<seq<Json>>) returns (results: seq<Record>)
    ensures results == Window(q, Selected(parse, q, contents))
  {
    results := [];
    var skipped := 0;
    var offset := Offset(q);
    ghost var exited := false;
    label fileLoop: for i := 0 to |contents|
      invariant !exited && Progress(q, Selected(parse, q, contents[..i]), skipped, results)
    {
      var lines := contents[i];
      FileStart(parse, q, contents, i);
      for j := 0 to |lines|
        invariant !exited && Progress(q, Seen(parse, q, contents, i, j), skipped, results)
      {
        NextLine(parse, q, contents, i, j);
        var kept := Filter(parse, q, lines[j]);
        if kept.None? {
          continue;
        }
        var record := kept.value;
        if skipped < offset {
          SkipOne(q, Seen(parse, q, contents, i, j), skipped, results, record);
          skipped := skipped + 1;
          continue;
        }
        TakeOne(q, Seen(parse, q, contents, i, j), skipped, results, record, Selected(parse, q, contents));
        results := results + [record];
        if q.limit.Some? && |results| >= q.limit.value {
          exited := true;
          break fileLoop;
        }
      }
      FileEnd(parse, q, contents, i);
    }
    if !exited {
      assert contents[..|contents|] == contents;
      TakenAll(q, Selected(parse, q, contents), skipped, results);
    }
  }

  /** The selected records before line `j` of file `i`. */
  ghost function Seen(parse: Json -> Parsed, q: Query, contents: seq<seq<Json>>, i: nat, j: nat): seq<Record>
    requires i < |contents| && j <= |contents[i]|
  {
    Selected(parse, q, contents[..i]) + Collect(Keep(parse, q), contents[i][..j])
  }

  lemma FileStart(parse: Json -> Parsed, q: Query, contents: seq<seq<Json>>, i: nat)
    requires i < |contents|
    ensures Seen(parse, q, contents, i, 0) == Selected(parse, q, contents[..i])
  {
  }

  lemma SkipOne(q: Query, done: seq<Record>, skipped: nat, results: seq<Record>, record: Record)
    requires Progress(q, done, skipped, results) && skipped < Offset(q)
    ensures Progress(q, done + [record], skipped + 1, results)
  {
  }

  lemma TakenAll(q: Query, done: seq<Record>, skipped: nat, results: seq<Record>)
    requires Progress(q, done, skipped, results)
    ensures results == Window(q, done)
  {
    assert Drop(Offset(q), done) == results;
  }

  lemma NextLine(parse: Json -> Parsed, q: Query, contents: seq<seq<Json>>, i: nat, j: nat)
    requires i < |contents| && j < |contents[i]|
    ensures
      var line := contents[i][j];
      Seen(parse, q, contents, i, j + 1) == Seen(parse, q, contents, i, j) + Keep(parse, q)(line)
    ensures Seen(parse, q, contents, i, j + 1) <= Selected(parse, q, contents)
  {
    var lines := contents[i];
    CollectPrefix(Keep(parse, q), lines, j);
    Associative(Selected(parse, q, contents[..i]), Collect(Keep(parse, q), lines[..j]), Keep(parse, q)(lines[j]));
    DonePrefix(parse, q, contents, i, lines, j, Seen(parse, q, contents, i, j + 1));
  }

  lemma FileEnd(parse: Json -> Parsed, q: Query, contents: seq<seq<Json>>, i: nat)
    requires i < |contents|
    ensures Seen(parse, q, contents, i, |contents[i]|) == Selected(parse, q, contents[..i + 1])
  {
    var lines := contents[i];
    CollectPrefix(Kept(parse, q), contents, i);
    assert lines[..|lines|] == lines;
  }

  /** One more record taken: the limit is reached and the window complete, or the loop goes on. */
  lemma TakeOne(q: Query, done: seq<Record>, skipped: nat, results: seq<Record>, record: Record, all: seq<Record>)
    requires Progress(q, done, skipped, results) && skipped >= Offset(q) && done + [record] <= all
    ensures
      if q.limit.Some? && |results| + 1 >= q.limit.value then results + [record] == Window(q, all)
      else Progress(q, done + [record], skipped, results + [record])
  {
    var next := done + [record];
    assert results + [record] == next[skipped..];
    if q.limit.Some? && |results| + 1 >= q.limit.value {
      TakenEarly(q, all, next, skipped, results + [record]);
    }
  }

  lemma DonePrefix(parse: Json -> Parsed, q: Query, contents: seq<seq<Json>>, i: nat, lines: seq<Json>, j: nat, done: seq<Record>)
    requires i < |contents| && lines == contents[i] && j < |lines|
    requires done == Selected(parse, q, contents[..i]) + Collect(Keep(parse, q), lines[..j + 1])
    ensures done <= Selected(parse, q, contents)
  {
    assert contents == contents[..i + 1] + contents[i + 1..];
    CollectConcat(Kept(parse, q), contents[..i + 1], contents[i + 1..]);
    CollectPrefix(Kept(parse, q), contents, i);
    assert lines == lines[..j + 1] + lines[j + 1..];
    CollectConcat(Keep(parse, q), lines[..j + 1], lines[j + 1..]);
    Associative(Selected(parse, q, contents[..i]), Collect(Keep(parse, q), lines[..j + 1]), Collect(Keep(parse, q), lines[j + 1..]));
    Associative(done, Collect(Keep(parse, q), lines[j + 1..]), Selected(parse, q, contents[i + 1..]));
  }

  /** At the limit, what was taken is the window, whatever follows. */
  lemma TakenEarly(q: Query, all: seq<Record>, done: seq<Record>, skipped: nat, results: seq<Record>)
    requires q.limit.Some? && done <= all && skipped < |done| && results == done[skipped..]
    requires skipped >= Offset(q) && (skipped <= Offset(q) || skipped == 0) && |results| == Bound(q)
    ensures results == Window(q, all)
  {
    var rest := Drop(Offset(q), all);
    assert rest == all[skipped..];
    assert rest[..|results|] == results;
  }

  /** Below the limit: `offset` records were skipped, the others of `done` were taken. */
  predicate Progress(q: Query, done: seq<Record>, skipped: nat, results: seq<Record>) {
    && skipped <= |done| && results == done[skipped..]
    && (skipped == |done| || skipped >= Offset(q)) && (skipped <= Offset(q) || skipped == 0)
    && (q.limit.Some? ==> |results| < Bound(q))
  }
}
