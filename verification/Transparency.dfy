/**
 The transparency log: signed leaves, one per line
 (packages/watchtower-core/src/transparency/leaf.ts, log.ts, packages/watchtower-core/src/signing/sign.ts).
 */
module Transparency {
  import opened Texts
  import opened Options
  import opened Json
  import opened Lists
  import opened Ndjson
  import opened Files
  import Canonical

  /** Optional fields are absent from the object where they are undefined. */
  datatype Leaf = Leaf(
    leafVersion: Text,
    leafId: Text,
    writtenAt: int,
    agentId: Text,
    riskReportHash: Text,
    overallRisk: int,
    receiptId: Option<Text>,
    manifestSha256: Option<Text>,
    cardHash: Option<Text>,
    watchtowerSig: Text)

  datatype LeafInput = LeafInput(
    agentId: Text,
    riskReportHash: Text,
    overallRisk: int,
    receiptId: Option<Text>,
    manifestSha256: Option<Text>,
    cardHash: Option<Text>)

  datatype Outcome = Good | Bad(why: Reason) | Throws

  datatype Reason = IdMismatch | BadSignature | NotJson

  /** The hash, and the key pair: what its private half signs and its public half accepts. */
  datatype Host = Host(hash: Text -> Text, sign: Text -> Text, verify: (Text, Option<Json>) -> Option<bool>)

  /** The public key accepts what the private key signs. */
  ghost predicate Matching(host: Host) {
    forall data: Text :: host.verify(data, Some(Str(host.sign(data)))) == Some(true)
  }

  ghost predicate Injective(hash: Text -> Text) {
    forall x, y :: hash(x) == hash(y) ==> x == y
  }

  const LEAF_VERSION: Text := Ascii("leafVersion")
  const LEAF_ID: Text := Ascii("leafId")
  const WRITTEN_AT: Text := Ascii("writtenAt")
  const AGENT_ID: Text := Ascii("agentId")
  const RISK_REPORT_HASH: Text := Ascii("riskReportHash")
  const OVERALL_RISK: Text := Ascii("overallRisk")
  const RECEIPT_ID: Text := Ascii("receiptId")
  const MANIFEST_SHA256: Text := Ascii("manifestSha256")
  const CARD_HASH: Text := Ascii("cardHash")
  const WATCHTOWER_SIG: Text := Ascii("watchtowerSig")
  const VERSION: Text := Ascii("0.1.0")

  function OptionalField(key: Text, value: Option<Text>): seq<Field> {
    if value.Some? then [Field(key, Str(value.value))] else []
  }

  /** The object of a leaf, in the order `createLeaf` builds it. */
  function LeafFields(leaf: Leaf): seq<Field> {
    [ Field(LEAF_VERSION, Str(leaf.leafVersion)),
      Field(LEAF_ID, Str(leaf.leafId)),
      Field(WRITTEN_AT, Num(leaf.writtenAt)),
      Field(AGENT_ID, Str(leaf.agentId)),
      Field(RISK_REPORT_HASH, Str(leaf.riskReportHash)),
      Field(OVERALL_RISK, Num(leaf.overallRisk)) ]
    + OptionalField(RECEIPT_ID, leaf.receiptId)
    + OptionalField(MANIFEST_SHA256, leaf.manifestSha256)
    + OptionalField(CARD_HASH, leaf.cardHash)
    + [Field(WATCHTOWER_SIG, Str(leaf.watchtowerSig))]
  }

  function LeafJson(leaf: Leaf): Json { Obj(LeafFields(leaf)) }

  // ---- Creating ----

  function InputPayload(input: LeafInput): Json {
    Obj([ Field(LEAF_VERSION, Str(VERSION)),
          Field(AGENT_ID, Str(input.agentId)),
          Field(RISK_REPORT_HASH, Str(input.riskReportHash)),
          Field(OVERALL_RISK, Num(input.overallRisk)) ]
        + OptionalField(RECEIPT_ID, input.receiptId)
        + OptionalField(MANIFEST_SHA256, input.manifestSha256)
        + OptionalField(CARD_HASH, input.cardHash))
  }

  function CreateLeaf(host: Host, input: LeafInput, now: int): Leaf {
    var leafId := host.hash(Canonical.CanonicalJson(InputPayload(input)));
    Leaf(
      VERSION, leafId, now, input.agentId, input.riskReportHash, input.overallRisk,
      input.receiptId, input.manifestSha256, input.cardHash, host.sign(leafId))
  }

  // ---- Verifying what was read ----

  const KEYS: seq<Text> :=
    [LEAF_VERSION, AGENT_ID, RISK_REPORT_HASH, OVERALL_RISK, RECEIPT_ID, MANIFEST_SHA256, CARD_HASH]

  /** `value[key]`; `None` where it is undefined. */
  function Property(v: Json, key: Text): Option<Json> {
    if v.Obj? then Member(v.fields, key) else None
  }

  function PropertyField(v: Json): Text -> seq<Field> {
    key => if Property(v, key).Some? then [Field(key, Property(v, key).value)] else []
  }

  /** The payload: the defined ones among the seven properties; printing leaves undefined ones out. */
  function Payload(v: Json): Json { Obj(Collect(PropertyField(v), KEYS)) }

  /** Fills the payload one property at a time. */
  method BuildPayload(v: Json) returns (payload: Json)
    ensures payload == Payload(v)
  {
    var fields: seq<Field> := [];
    for i := 0 to |KEYS|
      invariant fields == Collect(PropertyField(v), KEYS[..i])
    {
      CollectPrefix(PropertyField(v), KEYS, i);
      if Property(v, KEYS[i]).Some? {
        fields := fields + [Field(KEYS[i], Property(v, KEYS[i]).value)];
      }
    }
    assert KEYS[..|KEYS|] == KEYS;
    payload := Obj(fields);
  }

  function ExpectedId(host: Host, v: Json): Text { host.hash(Canonical.CanonicalJson(Payload(v))) }

  /** Reading a property of null throws, and so does the verifier on a signature that is not text. */
  function VerifyLeaf(host: Host, v: Json): Outcome {
    if v.Null? then Throws
    else if Property(v, LEAF_ID) != Some(Str(ExpectedId(host, v))) then Bad(IdMismatch)
    else
      match host.verify(ExpectedId(host, v), Property(v, WATCHTOWER_SIG))
      case None => Throws
      case Some(accepted) => if accepted then Good else Bad(BadSignature)
  }

  // ---- The log ----

  /** The log directory; `fileOf` names the file of a leaf by the local date of its `writtenAt`. */
  class TransparencyLog {
    const fileOf: int -> Text
    const host: Host
    var files: seq<File>

    constructor (fileOf: int -> Text, host: Host, files: seq<File>)
      ensures this.fileOf == fileOf && this.host == host && this.files == files
    {
      this.fileOf := fileOf;
      this.host := host;
      this.files := files;
    }

    method AppendLeaf(leaf: Leaf) returns (filePath: Text)
      modifies this
      ensures filePath == fileOf(leaf.writtenAt)
      ensures files == Appended(fileOf, old(files), leaf)
    {
      filePath := fileOf(leaf.writtenAt);
      files := Append(files, filePath, LineOf(LeafJson(leaf)));
    }

    /** `None` where reading a leaf throws. */
    method VerifyLogFile(filePath: Text) returns (r: Option<LogResult>)
      ensures !Exists(files, filePath) ==> r == Some(LogResult(0, 0, 0, []))
      ensures Exists(files, filePath) ==>
                var lines := RawLines(ContentOf(files, filePath));
                && (r.None? <==> exists l <- lines :: Throwing(host, l))
                && (r.Some? ==> Counts(host, lines, r.value))
    {
      var result := LogResult(0, 0, 0, []);
      if !Exists(files, filePath) {
        return Some(result);
      }
      r := VerifyLines(host, RawLines(ContentOf(files, filePath)));
    }
  }

  datatype LogError = LogError(line: nat, leafId: Json, why: Reason)

  datatype LogResult = LogResult(totalLeaves: nat, validLeaves: nat, invalidLeaves: nat, errors: seq<LogError>)

  const PARSE_ERROR: Text := Ascii("PARSE_ERROR")
  const UNKNOWN: Text := Ascii("unknown")

  function CheckLine(host: Host, line: Text): Outcome {
    if ParseLine(line) == [] then Bad(NotJson) else VerifyLeaf(host, ParseLine(line)[0])
  }

  // ---- What the result says, in terms of the lines ----

  /** The value's id is the hash of its own canonical payload. */
  predicate HasRightId(host: Host, v: Json) {
    Property(v, LEAF_ID) == Some(Str(host.hash(Canonical.CanonicalJson(Payload(v)))))
  }

  /** What the public key says of the value's signature of that hash. */
  function SignatureCheck(host: Host, v: Json): Option<bool> {
    host.verify(host.hash(Canonical.CanonicalJson(Payload(v))), Property(v, WATCHTOWER_SIG))
  }

  /** The line holds a value with the right id and an accepted signature. */
  predicate ValidLine(host: Host, line: Text) {
    ParseLine(line) != [] && HasRightId(host, ParseLine(line)[0]) && SignatureCheck(host, ParseLine(line)[0]) == Some(true)
  }

  /** The line is at fault for this reason. */
  predicate Fault(host: Host, line: Text, why: Reason) {
    match why
    case NotJson => ParseLine(line) == []
    case IdMismatch => ParseLine(line) != [] && ParseLine(line)[0] != Null && !HasRightId(host, ParseLine(line)[0])
    case BadSignature =>
      ParseLine(line) != [] && HasRightId(host, ParseLine(line)[0]) && SignatureCheck(host, ParseLine(line)[0]) == Some(false)
  }

  /** Reading the leaf throws: it is null, or its id is right and the verifier throws on its signature. */
  predicate LeafThrows(host: Host, v: Json) {
    v == Null || (HasRightId(host, v) && SignatureCheck(host, v) == None)
  }

  predicate Throwing(host: Host, line: Text) { ParseLine(line) != [] && LeafThrows(host, ParseLine(line)[0]) }

  /** The check comes to what the line deserves. */
  lemma CheckMeans(host: Host, line: Text)
    ensures CheckLine(host, line) == Good <==> ValidLine(host, line)
    ensures CheckLine(host, line) == Throws <==> Throwing(host, line)
    ensures forall why :: CheckLine(host, line) == Bad(why) <==> Fault(host, line, why)
  {
  }

  /** The id an error names: the leaf's own where it has one, or the marker of a line that is not JSON. */
  function ReportedId(line: Text): Json {
    if ParseLine(line) == [] then Str(PARSE_ERROR)
    else
      var id := Property(ParseLine(line)[0], LEAF_ID);
      if id.None? || id == Some(Null) then Str(UNKNOWN) else id.value
  }

  /** How many lines are valid. */
  function ValidCount(host: Host, lines: seq<Text>): nat {
    if lines == [] then 0
    else ValidCount(host, lines[..|lines| - 1]) + if ValidLine(host, lines[|lines| - 1]) then 1 else 0
  }

  predicate Faulty(host: Host, line: Text) { exists why :: Fault(host, line, why) }

  /** The error names a line, a reason that is true of it, and its id. */
  predicate Describes(host: Host, lines: seq<Text>, e: LogError) {
    && 1 <= e.line <= |lines|
    && Fault(host, lines[e.line - 1], e.why)
    && NamesId(lines[e.line - 1], e.leafId)
  }

  predicate NamesId(line: Text, id: Json) {
    if ParseLine(line) == [] then id == Str(PARSE_ERROR)
    else
      match Property(ParseLine(line)[0], LEAF_ID)
      case None => id == Str(UNKNOWN)
      case Some(own) => if own == Null then id == Str(UNKNOWN) else id == own
  }

  predicate HasLine(errors: seq<LogError>, n: nat) { exists e <- errors :: e.line == n }

  /** Every line is counted once, and the errors are the faulty lines in order. */
  predicate Counts(host: Host, lines: seq<Text>, r: LogResult) {
    && r.totalLeaves == |lines|
    && r.totalLeaves == r.validLeaves + r.invalidLeaves
    && r.invalidLeaves == |r.errors|
    && r.validLeaves == ValidCount(host, lines)
    && (forall e <- r.errors :: Describes(host, lines, e))
    && (forall i, j :: 0 <= i < j < |r.errors| ==> r.errors[i].line < r.errors[j].line)
    && (forall n :: 0 <= n < |lines| && Faulty(host, lines[n]) ==> HasLine(r.errors, n + 1))
  }

  method VerifyLines(host: Host, lines: seq<Text>) returns (r: Option<LogResult>)
    ensures r.None? <==> exists l <- lines :: Throwing(host, l)
    ensures r.Some? ==> Counts(host, lines, r.value)
  {
    var result := LogResult(0, 0, 0, []);
    for i := 0 to |lines|
      invariant forall l <- lines[..i] :: !Throwing(host, l)
      invariant Counts(host, lines[..i], result)
    {
      assert lines[..i + 1] == lines[..i] + [lines[i]];
      var next := CountLine(host, lines[..i], lines[i], result);
      if next.None? {
        return None;
      }
      result := next.value;
    }
    assert lines[..|lines|] == lines;
    r := Some(result);
  }

  /** One turn of the loop; the lines before this one are for the proof. */
  method CountLine(host: Host, ghost before: seq<Text>, line: Text, result: LogResult) returns (r: Option<LogResult>)
    requires Counts(host, before, result)
    ensures r.None? <==> Throwing(host, line)
    ensures r.Some? ==> Counts(host, before + [line], r.value)
  {
    CheckMeans(host, line);
    var checked := CheckLine(host, line);
    match checked {
      case Throws =>
        r := None;
      case Good =>
        CountGood(host, before, line, result);
        r := Some(result.(totalLeaves := result.totalLeaves + 1, validLeaves := result.validLeaves + 1));
      case Bad(why) =>
        CountBad(host, before, line, result, why);
        r := Some(LogResult(
          result.totalLeaves + 1, result.validLeaves, result.invalidLeaves + 1,
          result.errors + [LogError(result.totalLeaves + 1, ReportedId(line), why)]));
    }
  }

  lemma GoodMore(host: Host, lines: seq<Text>, line: Text)
    ensures ValidCount(host, lines + [line]) == ValidCount(host, lines) + if ValidLine(host, line) then 1 else 0
  {
    assert (lines + [line])[..|lines|] == lines;
  }

  lemma CountGood(host: Host, lines: seq<Text>, line: Text, r: LogResult)
    requires Counts(host, lines, r) && ValidLine(host, line)
    ensures Counts(host, lines + [line], r.(totalLeaves := r.totalLeaves + 1, validLeaves := r.validLeaves + 1))
  {
    var more := lines + [line];
    GoodMore(host, lines, line);
    forall e | e in r.errors ensures Describes(host, more, e) {
      assert Describes(host, lines, e);
    }
    forall n | 0 <= n < |more| && Faulty(host, more[n]) ensures HasLine(r.errors, n + 1) {
      assert Faulty(host, lines[n]);
    }
  }

  lemma CountBad(host: Host, lines: seq<Text>, line: Text, r: LogResult, why: Reason)
    requires Counts(host, lines, r) && Fault(host, line, why)
    ensures
      Counts(host, lines + [line], LogResult(
        r.totalLeaves + 1, r.validLeaves, r.invalidLeaves + 1, r.errors + [LogError(r.totalLeaves + 1, ReportedId(line), why)]))
  {
    GoodMore(host, lines, line);
    ErrorMore(host, lines, line, r, why);
  }

  lemma ErrorMore(host: Host, lines: seq<Text>, line: Text, r: LogResult, why: Reason)
    requires Counts(host, lines, r) && Fault(host, line, why)
    ensures
      var more := lines + [line];
      var errors := r.errors + [LogError(|lines| + 1, ReportedId(line), why)];
      && (forall e <- errors :: Describes(host, more, e))
      && (forall i, j :: 0 <= i < j < |errors| ==> errors[i].line < errors[j].line)
      && (forall n :: 0 <= n < |more| && Faulty(host, more[n]) ==> HasLine(errors, n + 1))
  {
    var more := lines + [line];
    var last := LogError(|lines| + 1, ReportedId(line), why);
    var errors := r.errors + [last];
    forall e | e in errors ensures Describes(host, more, e) {
      assert e in r.errors ==> Describes(host, lines, e);
    }
    forall n | 0 <= n < |more| && Faulty(host, more[n]) ensures HasLine(errors, n + 1) {
      if n < |lines| {
        assert HasLine(r.errors, n + 1);
        var e :| e in r.errors && e.line == n + 1;
        assert e in errors;
      } else {
        assert last in errors;
      }
    }
    forall i | 0 <= i < |r.errors| ensures r.errors[i].line < last.line {
      assert Describes(host, lines, r.errors[i]);
    }
  }

  // ---- What makes verification throw ----

  lemma LineThrows(host: Host, v: Json)
    ensures Throwing(host, Print(v)) <==> LeafThrows(host, v)
  {
    ParsePrinted(v);
  }

  /** A line `null` throws, whatever the key. */
  lemma NullLineThrows(host: Host)
    ensures Throwing(host, Print(Null))
  {
    LineThrows(host, Null);
  }

  /**
   Verifying a log of any values throws exactly if some value is null, or has the right id and a signature that the
   verifier throws on; all other faulty lines are counted.
   */
  lemma LogThrowsExactly(host: Host, values: seq<Json>)
    ensures (exists l <- RawLines(FileOf(values)) :: Throwing(host, l)) <==> exists v <- values :: LeafThrows(host, v)
  {
    PrintedAreSolid(values);
    LinesReadBack(Printed(values));
    if l :| l in Printed(values) && Throwing(host, l) {
      var i :| 0 <= i < |values| && Printed(values)[i] == l;
      LineThrows(host, values[i]);
    }
    if v :| v in values && LeafThrows(host, v) {
      var i :| 0 <= i < |values| && values[i] == v;
      LineThrows(host, v);
      assert Printed(values)[i] in Printed(values);
    }
  }

  /** The value has the right id and an accepted signature. */
  predicate IsSigned(host: Host, v: Json) { HasRightId(host, v) && SignatureCheck(host, v) == Some(true) }

  function Signed(host: Host): Json -> bool { (v: Json) => IsSigned(host, v) }

  lemma SignedLine(host: Host, v: Json)
    ensures ValidLine(host, Print(v)) <==> IsSigned(host, v)
  {
    ParsePrinted(v);
  }

  lemma {:induction false} ValidCountIs(host: Host, values: seq<Json>)
    ensures ValidCount(host, Printed(values)) == |Places(Signed(host), values)|
  {
    if values == [] {
      assert Places(Signed(host), values) == {};
    } else {
      var front, last := values[..|values| - 1], values[|values| - 1];
      assert values == front + [last];
      ValidCountIs(host, front);
      MapAppend(Print, front, last);
      GoodMore(host, Printed(front), Print(last));
      SignedLine(host, last);
      OneMorePlace(Signed(host), front, last);
    }
  }

  /** What an error of a log of these values says of the value on its line. */
  predicate SaysWhy(host: Host, values: seq<Json>, e: LogError) {
    && 1 <= e.line <= |values|
    && var v := values[e.line - 1];
    && (e.why == BadSignature <==> HasRightId(host, v) && SignatureCheck(host, v) == Some(false))
    && (e.why == IdMismatch <==> v != Null && !HasRightId(host, v))
    && e.why != NotJson
  }

  /** The verdict on a log of any values. */
  lemma LogVerdict(host: Host, values: seq<Json>, r: LogResult)
    requires Counts(host, RawLines(FileOf(values)), r)
    ensures r.totalLeaves == |values| && r.validLeaves == |Places(Signed(host), values)|
    ensures forall e <- r.errors :: SaysWhy(host, values, e)
  {
    PrintedAreSolid(values);
    LinesReadBack(Printed(values));
    ValidCountIs(host, values);
    forall e | e in r.errors ensures SaysWhy(host, values, e) {
      assert Describes(host, Printed(values), e);
      ParsePrinted(values[e.line - 1]);
    }
  }

  /** `None` where a line does not parse: `JSON.parse` throws. */
  function ReadLogFile(files: seq<File>, filePath: Text): Option<seq<Json>> {
    if !Exists(files, filePath) then Some([])
    else
      var lines := RawLines(ContentOf(files, filePath));
      if exists l <- lines :: ParseLine(l) == [] then None else Some(Collect(ParseLine, lines))
  }

  /** One line that does not parse makes reading the file throw. */
  lemma TornLineFailsReading(files: seq<File>, filePath: Text, before: seq<Json>, torn: Text, after: seq<Json>)
    requires Exists(files, filePath) && ContentOf(files, filePath) == FileOf(before) + Line(torn) + FileOf(after)
    requires Solid(torn) && ParseLine(torn) == []
    ensures ReadLogFile(files, filePath) == None
  {
    var lines := Printed(before) + [torn] + Printed(after);
    PrintedAreSolid(before);
    PrintedAreSolid(after);
    LinesReadBack(lines);
    CollectConcat(Line, Printed(before) + [torn], Printed(after));
    CollectConcat(Line, Printed(before), [torn]);
    CollectOne(Line, torn);
    assert torn in lines;
  }

  /** Blank lines change nothing that is read. */
  lemma BlankLinesIgnored(before: Text, blank: Text, after: Text)
    requires Trim(blank) == [] && NEWLINE !in blank
    ensures RawLines(before + [NEWLINE] + (blank + [NEWLINE] + after)) == RawLines(before + [NEWLINE] + after)
  {
    SplitBoth(before, blank + [NEWLINE] + after, NEWLINE);
    SplitBoth(blank, after, NEWLINE);
    SplitBoth(before, after, NEWLINE);
    CollectConcat(NonBlank, Split(before, NEWLINE), [blank] + Split(after, NEWLINE));
    CollectConcat(NonBlank, [blank], Split(after, NEWLINE));
    CollectOne(NonBlank, blank);
    CollectConcat(NonBlank, Split(before, NEWLINE), Split(after, NEWLINE));
    assert [] + Collect(NonBlank, Split(after, NEWLINE)) == Collect(NonBlank, Split(after, NEWLINE));
  }

  // ---- Reading returns what was appended ----

  function Appended(fileOf: int -> Text, files: seq<File>, leaf: Leaf): seq<File> {
    Append(files, fileOf(leaf.writtenAt), LineOf(LeafJson(leaf)))
  }

  /** The directory after a sequence of appends. */
  function AfterAppends(fileOf: int -> Text, files: seq<File>, leaves: seq<Leaf>): seq<File> {
    if leaves == [] then files
    else Appended(fileOf, AfterAppends(fileOf, files, leaves[..|leaves| - 1]), leaves[|leaves| - 1])
  }

  /** The leaves of one file, in the order appended. */
  function LeavesOf(fileOf: int -> Text, leaves: seq<Leaf>, filePath: Text): seq<Json> {
    if leaves == [] then []
    else
      var last := leaves[|leaves| - 1];
      LeavesOf(fileOf, leaves[..|leaves| - 1], filePath)
      + if fileOf(last.writtenAt) == filePath then [LeafJson(last)] else []
  }

  lemma {:induction false} AppendsContent(fileOf: int -> Text, files: seq<File>, leaves: seq<Leaf>, filePath: Text, values: seq<Json>)
    requires ContentOf(files, filePath) == FileOf(values)
    ensures ContentOf(AfterAppends(fileOf, files, leaves), filePath) == FileOf(values + LeavesOf(fileOf, leaves, filePath))
  {
    if leaves == [] {
      assert values + [] == values;
    } else {
      var front, last := leaves[..|leaves| - 1], leaves[|leaves| - 1];
      var before, read := AfterAppends(fileOf, files, front), values + LeavesOf(fileOf, front, filePath);
      AppendsContent(fileOf, files, front, filePath, values);
      AppendContent(before, fileOf(last.writtenAt), LineOf(LeafJson(last)), filePath);
      AppendLine(read, LeafJson(last));
      Associative(values, LeavesOf(fileOf, front, filePath), [LeafJson(last)]);
      assert values + (LeavesOf(fileOf, front, filePath) + []) == values + LeavesOf(fileOf, front, filePath);
      assert ContentOf(before, filePath) + [] == ContentOf(before, filePath);
    }
  }

  lemma {:induction false} LeavesAreObjects(fileOf: int -> Text, leaves: seq<Leaf>, filePath: Text)
    ensures AllObjects(LeavesOf(fileOf, leaves, filePath))
  {
    if leaves != [] {
      LeavesAreObjects(fileOf, leaves[..|leaves| - 1], filePath);
    }
  }

  lemma FileReads(files: seq<File>, filePath: Text, values: seq<Json>)
    requires AllObjects(values) && ContentOf(files, filePath) == FileOf(values)
    ensures ReadLogFile(files, filePath) == Some(values)
  {
    PrintedAreSolid(values);
    LinesReadBack(Printed(values));
    ParseAll(values);
    if Exists(files, filePath) {
      forall l | l in Printed(values) ensures ParseLine(l) != [] {
        var i :| 0 <= i < |values| && l == Print(values[i]);
        ParsePrinted(values[i]);
      }
    } else {
      NoContent(files, filePath);
    }
  }

  lemma {:induction false} NoContent(files: seq<File>, name: Text)
    requires !Exists(files, name)
    ensures ContentOf(files, name) == []
  {
    if files != [] {
      NoContent(files[1..], name);
    }
  }

  /** After any sequence of appends, every log file reads back as what it held and then its own leaves, in order. */
  lemma ReadReturnsAppended(fileOf: int -> Text, files: seq<File>, leaves: seq<Leaf>, filePath: Text, values: seq<Json>)
    requires AllObjects(values) && ContentOf(files, filePath) == FileOf(values)
    ensures ReadLogFile(AfterAppends(fileOf, files, leaves), filePath) == Some(values + LeavesOf(fileOf, leaves, filePath))
  {
    AppendsContent(fileOf, files, leaves, filePath, values);
    LeavesAreObjects(fileOf, leaves, filePath);
    FileReads(AfterAppends(fileOf, files, leaves), filePath, values + LeavesOf(fileOf, leaves, filePath));
  }

  // ---- What a leaf id binds ----

  lemma KeysDiffer()
    ensures forall i, j :: 0 <= i < j < |KEYS| ==> KEYS[i] != KEYS[j]
    ensures Canonical.PROTO !in KEYS
    ensures LEAF_ID !in KEYS && WRITTEN_AT !in KEYS && WATCHTOWER_SIG !in KEYS
    ensures LEAF_ID != WRITTEN_AT && LEAF_ID != WATCHTOWER_SIG && WRITTEN_AT != WATCHTOWER_SIG
  {
    assert |LEAF_VERSION| == 11 && |AGENT_ID| == 7 && |RISK_REPORT_HASH| == 14 && |OVERALL_RISK| == 11;
    assert |RECEIPT_ID| == 9 && |MANIFEST_SHA256| == 14 && |CARD_HASH| == 8;
    assert |LEAF_ID| == 6 && |WRITTEN_AT| == 9 && |WATCHTOWER_SIG| == 13;
    assert LEAF_VERSION[0] == 0x6C && OVERALL_RISK[0] == 0x6F && RISK_REPORT_HASH[0] == 0x72 && MANIFEST_SHA256[0] == 0x6D;
    assert RECEIPT_ID[0] == 0x72 && WRITTEN_AT[0] == 0x77 && Canonical.PROTO[0] == 0x5F;
  }

  /** The payload has the defined properties, each once. */
  lemma {:induction false} CollectedFields(v: Json, keys: seq<Text>)
    requires forall i, j :: 0 <= i < j < |keys| ==> keys[i] != keys[j]
    ensures
      var fields := Collect(PropertyField(v), keys);
      && Canonical.Distinct(fields)
      && forall f: Field :: f in fields <==> f.key in keys && Property(v, f.key) == Some(f.value)
  {
    if keys != [] {
      CollectedFields(v, keys[1..]);
      OneMoreField(v, keys[0], keys[1..], Collect(PropertyField(v), keys[1..]));
      assert keys == [keys[0]] + keys[1..];
    }
  }

  lemma OneMoreField(v: Json, key: Text, keys: seq<Text>, rest: seq<Field>)
    requires key !in keys && Canonical.Distinct(rest)
    requires forall f: Field :: f in rest <==> f.key in keys && Property(v, f.key) == Some(f.value)
    ensures Canonical.Distinct(PropertyField(v)(key) + rest)
    ensures forall f: Field ::
              f in PropertyField(v)(key) + rest <==> f.key in [key] + keys && Property(v, f.key) == Some(f.value)
  {
    forall i | 0 <= i < |rest| ensures rest[i].key != key {
      assert rest[i] in rest;
    }
  }

  lemma PropertyIsValid(v: Json, key: Text)
    requires Canonical.Valid(v)
    ensures Property(v, key).Some? ==> Canonical.Valid(Property(v, key).value)
  {
    if v.Obj? {
      MemberIsField(v.fields, key);
    }
  }

  lemma {:induction false} MemberIsField(fields: seq<Field>, key: Text)
    ensures Member(fields, key).Some? ==> Field(key, Member(fields, key).value) in fields
  {
    if fields != [] {
      MemberIsField(fields[..|fields| - 1], key);
    }
  }

  /** The payload's values are proper JavaScript values, as everything `JSON.parse` returns is. */
  predicate Sound(v: Json) {
    forall key <- KEYS | Property(v, key).Some? :: Canonical.Valid(Property(v, key).value)
  }

  lemma ValidIsSound(v: Json)
    requires Canonical.Valid(v)
    ensures Sound(v)
  {
    forall key | key in KEYS && Property(v, key).Some? ensures Canonical.Valid(Property(v, key).value) {
      PropertyIsValid(v, key);
    }
  }

  lemma PayloadIsValid(v: Json)
    requires Sound(v)
    ensures Canonical.Valid(Payload(v))
  {
    KeysDiffer();
    CollectedFields(v, KEYS);
    forall f | f in Payload(v).fields ensures Canonical.Valid(f.value) {
      assert f.key in KEYS;
    }
  }

  /** The same property of two values: both undefined, or the same up to key order. */
  ghost predicate SameProperty(v: Json, w: Json, key: Text) {
    var x, y := Property(v, key), Property(w, key);
    if x.None? then y.None? else y.Some? && Canonical.SameUpToKeyOrder(x.value, y.value, {Canonical.PROTO})
  }

  ghost predicate SamePayload(v: Json, w: Json) { forall key <- KEYS :: SameProperty(v, w, key) }

  /** With an injective hash the expected ids agree exactly when all seven properties do. */
  lemma IdIdentifies(host: Host, v: Json, w: Json)
    requires Injective(host.hash) && Sound(v) && Sound(w)
    ensures ExpectedId(host, v) == ExpectedId(host, w) <==> SamePayload(v, w)
  {
    KeysDiffer();
    CollectedFields(v, KEYS);
    CollectedFields(w, KEYS);
    PayloadIsValid(v);
    PayloadIsValid(w);
    Canonical.CanonicalJsonIdentifies(Payload(v), Payload(w));
    PayloadSame(v, w, Payload(v).fields, Payload(w).fields);
  }

  /** `fields` are the defined properties of `v`. */
  ghost predicate Holds(v: Json, fields: seq<Field>) {
    forall f: Field :: f in fields <==> f.key in KEYS && Property(v, f.key) == Some(f.value)
  }

  lemma PayloadSame(v: Json, w: Json, fs: seq<Field>, gs: seq<Field>)
    requires Holds(v, fs) && Holds(w, gs) && Canonical.PROTO !in KEYS
    ensures Canonical.SameUpToKeyOrder(Obj(fs), Obj(gs), {Canonical.PROTO}) <==> SamePayload(v, w)
  {
    var ignored := {Canonical.PROTO};
    if Canonical.SameUpToKeyOrder(Obj(fs), Obj(gs), ignored) {
      forall key | key in KEYS ensures SameProperty(v, w, key) {
        SameAtKey(v, w, fs, gs, key);
      }
    }
    if SamePayload(v, w) {
      forall f | f in fs && f.key !in ignored ensures Canonical.Matched(f, gs, ignored) {
        assert SameProperty(v, w, f.key);
        assert Field(f.key, Property(w, f.key).value) in gs;
      }
      forall g | g in gs && g.key !in ignored ensures Canonical.HasKey(fs, g.key) {
        assert SameProperty(v, w, g.key);
        assert Field(g.key, Property(v, g.key).value) in fs;
      }
    }
  }

  lemma SameAtKey(v: Json, w: Json, fs: seq<Field>, gs: seq<Field>, key: Text)
    requires Holds(v, fs) && Holds(w, gs) && key in KEYS && key != Canonical.PROTO
    requires Canonical.SameUpToKeyOrder(Obj(fs), Obj(gs), {Canonical.PROTO})
    ensures SameProperty(v, w, key)
  {
    var x, y := Property(v, key), Property(w, key);
    if y.Some? {
      assert Field(key, y.value) in gs;
      assert Canonical.HasKey(fs, key);
    }
    if x.Some? {
      var f := Field(key, x.value);
      assert f in fs;
      assert Canonical.Matched(f, gs, {Canonical.PROTO});
    }
  }

  /** Two values that verify under one leaf id agree on every field of the payload. */
  lemma LeafIdBinds(host: Host, v: Json, w: Json)
    requires Injective(host.hash) && Canonical.Valid(v) && Canonical.Valid(w)
    requires VerifyLeaf(host, v) == Good && VerifyLeaf(host, w) == Good
    ensures Property(v, LEAF_ID) == Property(w, LEAF_ID) <==> SamePayload(v, w)
  {
    ValidIsSound(v);
    ValidIsSound(w);
    IdIdentifies(host, v, w);
  }

  // ---- Leaves as they are created ----

  lemma {:induction false} MemberAppend(xs: seq<Field>, ys: seq<Field>, key: Text)
    ensures Member(xs + ys, key) == if Member(ys, key).Some? then Member(ys, key) else Member(xs, key)
  {
    if ys == [] {
      assert xs + ys == xs;
    } else {
      MemberAppend(xs, ys[..|ys| - 1], key);
      assert (xs + ys)[..|xs + ys| - 1] == xs + ys[..|ys| - 1];
    }
  }

  lemma OptionalMember(k: Text, value: Option<Text>, key: Text)
    ensures Member(OptionalField(k, value), key) == if key == k && value.Some? then Some(Str(value.value)) else None
  {
    if value.Some? {
      var fields := OptionalField(k, value);
      assert fields[..0] == [];
    }
  }

  function Text(value: Option<Text>): Option<Json> { if value.Some? then Some(Str(value.value)) else None }

  /** The six fields every leaf starts with. */
  function HeadFields(leaf: Leaf): seq<Field> { LeafFields(leaf)[..6] }

  lemma HeadDistinct(leaf: Leaf)
    ensures forall i, j :: 0 <= i < j < 6 ==> HeadFields(leaf)[i].key != HeadFields(leaf)[j].key
  {
    KeysDiffer();
    assert LEAF_VERSION in KEYS && AGENT_ID in KEYS && RISK_REPORT_HASH in KEYS && OVERALL_RISK in KEYS;
    assert KEYS[0] != KEYS[1] && KEYS[0] != KEYS[2] && KEYS[0] != KEYS[3];
    assert KEYS[1] != KEYS[2] && KEYS[1] != KEYS[3] && KEYS[2] != KEYS[3];
  }

  lemma HeadMember(leaf: Leaf)
    ensures Member(HeadFields(leaf), LEAF_VERSION) == Some(Str(leaf.leafVersion))
    ensures Member(HeadFields(leaf), LEAF_ID) == Some(Str(leaf.leafId))
    ensures Member(HeadFields(leaf), AGENT_ID) == Some(Str(leaf.agentId))
    ensures Member(HeadFields(leaf), RISK_REPORT_HASH) == Some(Str(leaf.riskReportHash))
    ensures Member(HeadFields(leaf), OVERALL_RISK) == Some(Num(leaf.overallRisk))
  {
    HeadDistinct(leaf);
    MemberAt(HeadFields(leaf), 0);
    MemberAt(HeadFields(leaf), 1);
    MemberAt(HeadFields(leaf), 3);
    MemberAt(HeadFields(leaf), 4);
    MemberAt(HeadFields(leaf), 5);
  }

  lemma HeadLacks(leaf: Leaf, i: nat)
    requires 4 <= i < |KEYS|
    ensures Member(HeadFields(leaf), KEYS[i]) == None
  {
    KeysDiffer();
    assert KEYS[0] != KEYS[i] && KEYS[1] != KEYS[i] && KEYS[2] != KEYS[i] && KEYS[3] != KEYS[i];
    assert KEYS[i] in KEYS;
    MemberAbsent(HeadFields(leaf), KEYS[i]);
  }

  lemma {:induction false} MemberAt(fields: seq<Field>, i: nat)
    requires i < |fields| && forall j :: i < j < |fields| ==> fields[j].key != fields[i].key
    ensures Member(fields, fields[i].key) == Some(fields[i].value)
  {
    if i < |fields| - 1 {
      MemberAt(fields[..|fields| - 1], i);
    }
  }

  lemma {:induction false} MemberAbsent(fields: seq<Field>, key: Text)
    requires forall f <- fields :: f.key != key
    ensures Member(fields, key) == None
  {
    if fields != [] {
      MemberAbsent(fields[..|fields| - 1], key);
    }
  }

  lemma LeafMember(leaf: Leaf, key: Text)
    ensures Member(LeafFields(leaf), key) ==
              if key == WATCHTOWER_SIG then Some(Str(leaf.watchtowerSig))
              else if key == CARD_HASH && leaf.cardHash.Some? then Text(leaf.cardHash)
              else if key == MANIFEST_SHA256 && leaf.manifestSha256.Some? then Text(leaf.manifestSha256)
              else if key == RECEIPT_ID && leaf.receiptId.Some? then Text(leaf.receiptId)
              else Member(HeadFields(leaf), key)
  {
    var head := HeadFields(leaf);
    var a, b, c := OptionalField(RECEIPT_ID, leaf.receiptId), OptionalField(MANIFEST_SHA256, leaf.manifestSha256), OptionalField(CARD_HASH, leaf.cardHash);
    var sig := [Field(WATCHTOWER_SIG, Str(leaf.watchtowerSig))];
    assert LeafFields(leaf) == head + a + b + c + sig;
    MemberAppend(head + a + b + c, sig, key);
    MemberAppend(head + a + b, c, key);
    MemberAppend(head + a, b, key);
    MemberAppend(head, a, key);
    OptionalMember(RECEIPT_ID, leaf.receiptId, key);
    OptionalMember(MANIFEST_SHA256, leaf.manifestSha256, key);
    OptionalMember(CARD_HASH, leaf.cardHash, key);
    OptionalMember(WATCHTOWER_SIG, Some(leaf.watchtowerSig), key);
  }

  /** The properties of a leaf's object are the leaf's fields. */
  lemma LeafProperties(leaf: Leaf)
    ensures
      var v := LeafJson(leaf);
      && Property(v, LEAF_ID) == Some(Str(leaf.leafId))
      && Property(v, LEAF_VERSION) == Some(Str(leaf.leafVersion))
      && Property(v, AGENT_ID) == Some(Str(leaf.agentId))
      && Property(v, RISK_REPORT_HASH) == Some(Str(leaf.riskReportHash))
      && Property(v, OVERALL_RISK) == Some(Num(leaf.overallRisk))
      && Property(v, RECEIPT_ID) == Text(leaf.receiptId)
      && Property(v, MANIFEST_SHA256) == Text(leaf.manifestSha256)
      && Property(v, CARD_HASH) == Text(leaf.cardHash)
      && Property(v, WATCHTOWER_SIG) == Some(Str(leaf.watchtowerSig))
  {
    KeysDiffer();
    HeadMember(leaf);
    HeadLacks(leaf, 4);
    HeadLacks(leaf, 5);
    HeadLacks(leaf, 6);
    forall i | 0 <= i < |KEYS| ensures KEYS[i] in KEYS {
    }
    assert KEYS[4] != KEYS[5] && KEYS[4] != KEYS[6] && KEYS[5] != KEYS[6];
    assert forall i | 0 <= i < 4 :: KEYS[i] != KEYS[4] && KEYS[i] != KEYS[5] && KEYS[i] != KEYS[6];
    LeafMember(leaf, LEAF_ID);
    LeafMember(leaf, WATCHTOWER_SIG);
    LeafMember(leaf, KEYS[0]);
    LeafMember(leaf, KEYS[1]);
    LeafMember(leaf, KEYS[2]);
    LeafMember(leaf, KEYS[3]);
    LeafMember(leaf, KEYS[4]);
    LeafMember(leaf, KEYS[5]);
    LeafMember(leaf, KEYS[6]);
  }

  lemma CollectSeven<T, U>(f: T -> seq<U>, a: T, b: T, c: T, d: T, e: T, x: T, y: T)
    ensures Collect(f, [a, b, c, d, e, x, y]) == f(a) + f(b) + f(c) + f(d) + f(e) + f(x) + f(y)
  {
    CollectThree(f, a, b, c);
    CollectThree(f, d, e, x);
    CollectOne(f, y);
    CollectConcat(f, [a, b, c], [d, e, x]);
    CollectConcat(f, [a, b, c] + [d, e, x], [y]);
    assert [a, b, c, d, e, x, y] == [a, b, c] + [d, e, x] + [y];
  }

  lemma CollectThree<T, U>(f: T -> seq<U>, a: T, b: T, c: T)
    ensures Collect(f, [a, b, c]) == f(a) + f(b) + f(c)
  {
    CollectOne(f, a);
    CollectOne(f, b);
    CollectOne(f, c);
    CollectConcat(f, [a], [b]);
    CollectConcat(f, [a] + [b], [c]);
    assert [a, b, c] == [a] + [b] + [c];
  }

  /** The four properties that every leaf has. */
  lemma RequiredFields(leaf: Leaf)
    ensures
      var f := PropertyField(LeafJson(leaf));
      f(LEAF_VERSION) + f(AGENT_ID) + f(RISK_REPORT_HASH) + f(OVERALL_RISK) ==
      [ Field(LEAF_VERSION, Str(leaf.leafVersion)), Field(AGENT_ID, Str(leaf.agentId)),
        Field(RISK_REPORT_HASH, Str(leaf.riskReportHash)), Field(OVERALL_RISK, Num(leaf.overallRisk)) ]
  {
    LeafProperties(leaf);
  }

  /** The three it may have. */
  lemma OptionalFields(leaf: Leaf)
    ensures
      var f := PropertyField(LeafJson(leaf));
      && f(RECEIPT_ID) == OptionalField(RECEIPT_ID, leaf.receiptId)
      && f(MANIFEST_SHA256) == OptionalField(MANIFEST_SHA256, leaf.manifestSha256)
      && f(CARD_HASH) == OptionalField(CARD_HASH, leaf.cardHash)
  {
    LeafProperties(leaf);
  }

  /** What the verifier recomputes from a leaf is what the creator hashed. */
  lemma SamePayloadBothWays(leaf: Leaf, input: LeafInput)
    requires leaf.leafVersion == VERSION
    requires LeafInput(leaf.agentId, leaf.riskReportHash, leaf.overallRisk, leaf.receiptId, leaf.manifestSha256, leaf.cardHash) == input
    ensures Payload(LeafJson(leaf)) == InputPayload(input)
  {
    CollectSeven(
      PropertyField(LeafJson(leaf)),
      LEAF_VERSION, AGENT_ID, RISK_REPORT_HASH, OVERALL_RISK, RECEIPT_ID, MANIFEST_SHA256, CARD_HASH);
    RequiredFields(leaf);
    OptionalFields(leaf);
  }

  /** A created leaf holds its input and the time, under the hash of its payload and a signature of that. */
  lemma CreatedLeafHolds(host: Host, input: LeafInput, now: int)
    ensures
      var leaf := CreateLeaf(host, input, now);
      && leaf.leafVersion == Ascii("0.1.0") && leaf.writtenAt == now
      && leaf.agentId == input.agentId && leaf.riskReportHash == input.riskReportHash && leaf.overallRisk == input.overallRisk
      && leaf.receiptId == input.receiptId && leaf.manifestSha256 == input.manifestSha256 && leaf.cardHash == input.cardHash
      && HasRightId(host, LeafJson(leaf)) && leaf.watchtowerSig == host.sign(leaf.leafId)
  {
    SamePayloadBothWays(CreateLeaf(host, input, now), input);
    LeafProperties(CreateLeaf(host, input, now));
  }

  /** Every created leaf verifies under the matching key. */
  lemma CreatedLeafVerifies(host: Host, input: LeafInput, now: int)
    requires Matching(host)
    ensures VerifyLeaf(host, LeafJson(CreateLeaf(host, input, now))) == Good
  {
    var leaf := CreateLeaf(host, input, now);
    SamePayloadBothWays(leaf, input);
    LeafProperties(leaf);
  }

  /** Two leaves that verify under one leaf id are equal, but for the time and the signature. */
  lemma LeafIdPinsLeaf(host: Host, a: Leaf, b: Leaf)
    requires Injective(host.hash)
    requires VerifyLeaf(host, LeafJson(a)) == Good && VerifyLeaf(host, LeafJson(b)) == Good
    ensures a.leafId == b.leafId <==>
              a == b.(leafId := a.leafId, writtenAt := a.writtenAt, watchtowerSig := a.watchtowerSig)
  {
    var v, w := LeafJson(a), LeafJson(b);
    LeafProperties(a);
    LeafProperties(b);
    LeafIsSound(a);
    LeafIsSound(b);
    IdIdentifies(host, v, w);
    forall i | 0 <= i < |KEYS| ensures KEYS[i] in KEYS {
    }
    if a.leafId == b.leafId {
      PinnedFields(a, b);
    }
    if a == b.(leafId := a.leafId, writtenAt := a.writtenAt, watchtowerSig := a.watchtowerSig) {
      SameFieldsSamePayload(a, b);
    }
  }

  lemma LeafIsSound(leaf: Leaf)
    ensures Sound(LeafJson(leaf))
  {
    LeafProperties(leaf);
    forall key | key in KEYS && Property(LeafJson(leaf), key).Some?
      ensures Canonical.Valid(Property(LeafJson(leaf), key).value)
    {
      assert key == LEAF_VERSION || key == AGENT_ID || key == RISK_REPORT_HASH || key == OVERALL_RISK
        || key == RECEIPT_ID || key == MANIFEST_SHA256 || key == CARD_HASH;
    }
  }

  lemma PinnedFields(a: Leaf, b: Leaf)
    requires SamePayload(LeafJson(a), LeafJson(b))
    ensures a.leafVersion == b.leafVersion && a.agentId == b.agentId && a.riskReportHash == b.riskReportHash
    ensures a.overallRisk == b.overallRisk && a.receiptId == b.receiptId
    ensures a.manifestSha256 == b.manifestSha256 && a.cardHash == b.cardHash
  {
    var v, w := LeafJson(a), LeafJson(b);
    LeafProperties(a);
    LeafProperties(b);
    assert KEYS[0] in KEYS && KEYS[1] in KEYS && KEYS[2] in KEYS && KEYS[3] in KEYS;
    assert KEYS[4] in KEYS && KEYS[5] in KEYS && KEYS[6] in KEYS;
    SameText(v, w, LEAF_VERSION, Some(a.leafVersion), Some(b.leafVersion));
    SameText(v, w, AGENT_ID, Some(a.agentId), Some(b.agentId));
    SameText(v, w, RISK_REPORT_HASH, Some(a.riskReportHash), Some(b.riskReportHash));
    SameText(v, w, RECEIPT_ID, a.receiptId, b.receiptId);
    SameText(v, w, MANIFEST_SHA256, a.manifestSha256, b.manifestSha256);
    SameText(v, w, CARD_HASH, a.cardHash, b.cardHash);
    assert SameProperty(v, w, OVERALL_RISK);
  }

  lemma SameText(v: Json, w: Json, key: Text, x: Option<Text>, y: Option<Text>)
    requires SamePayload(v, w) && key in KEYS
    requires Property(v, key) == Text(x) && Property(w, key) == Text(y)
    ensures x == y
  {
    assert SameProperty(v, w, key);
  }

  lemma SameFieldsSamePayload(a: Leaf, b: Leaf)
    requires a == b.(leafId := a.leafId, writtenAt := a.writtenAt, watchtowerSig := a.watchtowerSig)
    ensures SamePayload(LeafJson(a), LeafJson(b))
  {
    var v, w := LeafJson(a), LeafJson(b);
    LeafProperties(a);
    LeafProperties(b);
    forall key | key in KEYS ensures SameProperty(v, w, key) {
      assert key == LEAF_VERSION || key == AGENT_ID || key == RISK_REPORT_HASH || key == OVERALL_RISK
        || key == RECEIPT_ID || key == MANIFEST_SHA256 || key == CARD_HASH;
      assert Property(v, key) == Property(w, key);
    }
  }

  // ---- Logs of created leaves ----

  ghost predicate Created(host: Host, leaf: Leaf) {
    exists input, now :: leaf == CreateLeaf(host, input, now)
  }

  lemma CreatedLineIsGood(host: Host, leaf: Leaf)
    requires Matching(host) && Created(host, leaf)
    ensures ValidLine(host, Print(LeafJson(leaf)))
  {
    var input, now :| leaf == CreateLeaf(host, input, now);
    CreatedLeafVerifies(host, input, now);
    ParsePrinted(LeafJson(leaf));
  }

  lemma {:induction false} AllGood(host: Host, lines: seq<Text>)
    requires forall l <- lines :: ValidLine(host, l)
    ensures ValidCount(host, lines) == |lines|
  {
    if lines != [] {
      AllGood(host, lines[..|lines| - 1]);
    }
  }

  lemma {:induction false} CreatedLines(host: Host, fileOf: int -> Text, leaves: seq<Leaf>, filePath: Text)
    requires Matching(host) && forall leaf <- leaves :: Created(host, leaf)
    ensures forall l <- Printed(LeavesOf(fileOf, leaves, filePath)) :: ValidLine(host, l)
  {
    if leaves != [] {
      var front, last := leaves[..|leaves| - 1], leaves[|leaves| - 1];
      CreatedLines(host, fileOf, front, filePath);
      assert Created(host, last);
      CreatedLineIsGood(host, last);
      MapAppend(Print, LeavesOf(fileOf, front, filePath), LeafJson(last));
      assert LeavesOf(fileOf, front, filePath) + [] == LeavesOf(fileOf, front, filePath);
    }
  }

  /** A log to which only created leaves were appended verifies fully: nothing throws, every leaf is valid. */
  lemma CreatedLogVerifies(host: Host, fileOf: int -> Text, leaves: seq<Leaf>, filePath: Text, r: LogResult)
    requires Matching(host) && forall leaf <- leaves :: Created(host, leaf)
    ensures
      var lines := RawLines(ContentOf(AfterAppends(fileOf, [], leaves), filePath));
      var n := |LeavesOf(fileOf, leaves, filePath)|;
      && !(exists l <- lines :: Throwing(host, l))
      && (Counts(host, lines, r) ==> r == LogResult(n, n, 0, []))
  {
    var values := LeavesOf(fileOf, leaves, filePath);
    AppendsContent(fileOf, [], leaves, filePath, []);
    assert [] + values == values;
    LeavesAreObjects(fileOf, leaves, filePath);
    PrintedAreSolid(values);
    LinesReadBack(Printed(values));
    CreatedLines(host, fileOf, leaves, filePath);
    AllGood(host, Printed(values));
  }
}
