/** Verification of a solver's evidence on disk (packages/watchtower-core/src/behavior/verifyEvidence.ts). */
module EvidenceCheck {
  import opened Texts
  import opened Options
  import opened Lists
  import opened Sorting
  import Paths
  import Scoring

  type Byte = n: nat | n < 256
  type Bytes = seq<Byte>

  datatype Artifact = Artifact(path: Text, sha256: Text, bytes: nat)

  datatype Receipt = Receipt(
    receiptId: Text,
    manifestPath: Text,
    manifestSha256: Text,
    delivered: seq<Artifact>)

  datatype Code =
    | ARTIFACT_HASH_MISMATCH
    | ARTIFACT_NOT_FOUND
    | ARTIFACT_SIZE_MISMATCH
    | ARTIFACT_TOO_LARGE
    | DELIVERED_MISMATCH
    | MANIFEST_HASH_MISMATCH
    | MANIFEST_NOT_FOUND
    | MANIFEST_PARSE_FAIL
    | MANIFEST_READ_ERROR
    | MANIFEST_SCHEMA_INVALID
    | MANIFEST_TOO_LARGE
    | UNSAFE_PATH

  datatype Failure = Failure(code: Code, path: Option<Text>)

  datatype Result = Result(ok: bool, failures: seq<Failure>, evidenceLinks: seq<Scoring.Link>)

  /** `JSON.parse` followed by the schema. */
  datatype Manifest = NotJson | OffSchema | Manifest(artifacts: seq<Artifact>)

  /** The file system during one call; `None` where the operation throws. */
  datatype FileSystem = FileSystem(
    present: Text -> bool,
    size: Text -> Option<nat>,
    read: Text -> Option<Bytes>)

  datatype Host = Host(
    cwd: Text,
    files: FileSystem,
    hash: Bytes -> Text,
    parse: Bytes -> Manifest,
    locale: (Text, Text) -> int)

  datatype Limits = Limits(manifest: int, artifact: int)

  // ---- What a verification establishes ----

  /** What a path leads to; a file that exists but has no size cannot be read either. */
  datatype Found = Unsafe | Missing | File(size: nat, content: Option<Bytes>)

  /** The place a path leads to, if both checks let it through. */
  function Locate(host: Host, runDir: Text, path: Text): Option<Text> {
    if Paths.ValidateRelativePath(path) != Paths.Valid then None else Paths.SafeJoin(host.cwd, runDir, path)
  }

  function LookAt(files: FileSystem, place: Option<Text>): Found {
    if place.None? then Unsafe
    else if !files.present(place.value) || files.size(place.value).None? then Missing
    else File(files.size(place.value).value, files.read(place.value))
  }

  function Look(host: Host, runDir: Text, path: Text): Found { LookAt(host.files, Locate(host, runDir, path)) }

  /** The path is safe, and the file it leads to has a size within the limit, can be read, and has this hash. */
  predicate FileHolds(host: Host, runDir: Text, path: Text, max: int, sha256: Text) {
    match Look(host, runDir, path)
    case File(size, Some(content)) => size <= max && host.hash(content) == sha256
    case _ => false
  }

  predicate ArtifactHolds(host: Host, runDir: Text, max: int, a: Artifact) {
    FileHolds(host, runDir, a.path, max, a.sha256) && Look(host, runDir, a.path).size == a.bytes
  }

  /** What is read at a path. */
  function FileBytes(host: Host, runDir: Text, path: Text): Bytes {
    match Look(host, runDir, path)
    case File(_, Some(content)) => content
    case _ => []
  }

  function PathOrder(locale: (Text, Text) -> int): (Artifact, Artifact) -> int {
    (a: Artifact, b: Artifact) => locale(a.path, b.path)
  }

  function PathOf(a: Artifact): Text { a.path }

  /** The comma-separated paths in order. */
  function PathList(locale: (Text, Text) -> int, artifacts: seq<Artifact>): Text {
    Join(Map(PathOf, Sort(PathOrder(locale), artifacts)), COMMA)
  }

  predicate Matches(locale: (Text, Text) -> int, a: seq<Artifact>, b: seq<Artifact>) {
    PathList(locale, a) == PathList(locale, b)
  }

  predicate ManifestHolds(host: Host, runDir: Text, limits: Limits, receipt: Receipt) {
    && FileHolds(host, runDir, receipt.manifestPath, limits.manifest, receipt.manifestSha256)
    && host.parse(FileBytes(host, runDir, receipt.manifestPath)).Manifest?
  }

  predicate DeliveredMatches(host: Host, runDir: Text, receipt: Receipt) {
    var manifest := host.parse(FileBytes(host, runDir, receipt.manifestPath));
    manifest.Manifest? && Matches(host.locale, manifest.artifacts, receipt.delivered)
  }

  predicate AllHold(host: Host, runDir: Text, max: int, artifacts: seq<Artifact>) {
    forall a <- artifacts :: ArtifactHolds(host, runDir, max, a)
  }

  // ---- Failures, one artifact at a time ----

  /** Whether the artifact's bytes were read, so that its link is recorded. */
  predicate WasRead(host: Host, runDir: Text, max: int, a: Artifact) {
    var found := Look(host, runDir, a.path);
    found.File? && found.size <= max && found.content.Some?
  }

  const ARTIFACT_SHA256: Text := Ascii("artifactSha256")

  function LinkOf(a: Artifact): Scoring.Link { Scoring.Link(ARTIFACT_SHA256, a.sha256) }

  function LinksOf(host: Host, runDir: Text, max: int, a: Artifact): seq<Scoring.Link> {
    if WasRead(host, runDir, max, a) then [LinkOf(a)] else []
  }

  function LinksFor(host: Host, runDir: Text, max: int): Artifact -> seq<Scoring.Link> {
    a => LinksOf(host, runDir, max, a)
  }

  function ArtifactLinks(host: Host, runDir: Text, max: int, artifacts: seq<Artifact>): seq<Scoring.Link> {
    Collect(LinksFor(host, runDir, max), artifacts)
  }

  /** The failures pushed for `a`, given that they say when it holds. */
  predicate Explains(host: Host, runDir: Text, max: int, a: Artifact, failures: seq<Failure>) {
    && (failures == [] <==> ArtifactHolds(host, runDir, max, a))
    && AboutArtifact(host, runDir, max, a, failures)
    && Reported(host, runDir, max, a, failures)
  }

  /** An artifact at fault is named; one that was read is reported for its size and for its hash independently. */
  predicate Reported(host: Host, runDir: Text, max: int, a: Artifact, failures: seq<Failure>) {
    && (!ArtifactHolds(host, runDir, max, a) ==> Names(failures, a.path))
    && (WasRead(host, runDir, max, a) && Justified(host, runDir, max, a, ARTIFACT_SIZE_MISMATCH) ==>
          Failure(ARTIFACT_SIZE_MISMATCH, Some(a.path)) in failures)
    && (WasRead(host, runDir, max, a) && Justified(host, runDir, max, a, ARTIFACT_HASH_MISMATCH) ==>
          Failure(ARTIFACT_HASH_MISMATCH, Some(a.path)) in failures)
  }

  predicate AboutArtifact(host: Host, runDir: Text, max: int, a: Artifact, failures: seq<Failure>) {
    forall f <- failures :: f.path == Some(a.path) && Justified(host, runDir, max, a, f.code)
  }

  /** What each code claims about the artifact. */
  predicate Justified(host: Host, runDir: Text, max: int, a: Artifact, code: Code) {
    var found := Look(host, runDir, a.path);
    match code
    case UNSAFE_PATH => found.Unsafe?
    case ARTIFACT_NOT_FOUND => found.Missing? || (found.File? && found.content.None?)
    case ARTIFACT_TOO_LARGE => found.File? && found.size > max
    case ARTIFACT_SIZE_MISMATCH => found.File? && found.size != a.bytes
    case ARTIFACT_HASH_MISMATCH => found.File? && found.content.Some? && host.hash(found.content.value) != a.sha256
    case _ => false
  }

  predicate AboutSome(host: Host, runDir: Text, max: int, artifacts: seq<Artifact>, f: Failure) {
    exists a <- artifacts :: f.path == Some(a.path) && Justified(host, runDir, max, a, f.code)
  }

  /** Every failure is about some delivered artifact and says something true of it. */
  predicate AllJustified(host: Host, runDir: Text, max: int, artifacts: seq<Artifact>, failures: seq<Failure>) {
    forall f <- failures :: AboutSome(host, runDir, max, artifacts, f)
  }

  predicate Names(failures: seq<Failure>, path: Text) {
    exists f <- failures :: f.path == Some(path)
  }

  /** Nothing else is reported but the mismatch of the lists. */
  predicate AllTrue(host: Host, runDir: Text, max: int, artifacts: seq<Artifact>, failures: seq<Failure>) {
    forall f <- failures :: f == Failure(DELIVERED_MISMATCH, None) || AboutSome(host, runDir, max, artifacts, f)
  }

  predicate AllReported(host: Host, runDir: Text, max: int, artifacts: seq<Artifact>, failures: seq<Failure>) {
    forall a <- artifacts :: Reported(host, runDir, max, a, failures)
  }

  function CodeName(code: Code): Text {
    match code
    case ARTIFACT_HASH_MISMATCH => Ascii("ARTIFACT_HASH_MISMATCH")
    case ARTIFACT_NOT_FOUND => Ascii("ARTIFACT_NOT_FOUND")
    case ARTIFACT_SIZE_MISMATCH => Ascii("ARTIFACT_SIZE_MISMATCH")
    case ARTIFACT_TOO_LARGE => Ascii("ARTIFACT_TOO_LARGE")
    case DELIVERED_MISMATCH => Ascii("DELIVERED_MISMATCH")
    case MANIFEST_HASH_MISMATCH => Ascii("MANIFEST_HASH_MISMATCH")
    case MANIFEST_NOT_FOUND => Ascii("MANIFEST_NOT_FOUND")
    case MANIFEST_PARSE_FAIL => Ascii("MANIFEST_PARSE_FAIL")
    case MANIFEST_READ_ERROR => Ascii("MANIFEST_READ_ERROR")
    case MANIFEST_SCHEMA_INVALID => Ascii("MANIFEST_SCHEMA_INVALID")
    case MANIFEST_TOO_LARGE => Ascii("MANIFEST_TOO_LARGE")
    case UNSAFE_PATH => Ascii("UNSAFE_PATH")
  }

  function CompareFailures(locale: (Text, Text) -> int, a: Failure, b: Failure): int {
    var codeDiff := locale(CodeName(a.code), CodeName(b.code));
    if codeDiff != 0 then codeDiff
    else locale(if a.path.Some? then a.path.value else [], if b.path.Some? then b.path.value else [])
  }

  function FailureOrder(locale: (Text, Text) -> int): (Failure, Failure) -> int {
    (a, b) => CompareFailures(locale, a, b)
  }

  function PathText(f: Failure): Text { if f.path.Some? then f.path.value else [] }

  predicate NotAfter(locale: (Text, Text) -> int, f: Failure, g: Failure) {
    var codeDiff := locale(CodeName(f.code), CodeName(g.code));
    codeDiff < 0 || (codeDiff == 0 && locale(PathText(f), PathText(g)) <= 0)
  }

  /** Failures ascend by the name of their code, and those of one code by their path. */
  ghost predicate Ascend(locale: (Text, Text) -> int, failures: seq<Failure>) {
    forall i, j :: 0 <= i < j < |failures| ==> NotAfter(locale, failures[i], failures[j])
  }

  lemma OrderLifts(locale: (Text, Text) -> int)
    requires TotalPreorder(locale)
    ensures TotalPreorder(FailureOrder(locale))
  {
    var order := FailureOrder(locale);
    forall x, y ensures Opposite(order, x, y) {
      assert Opposite(locale, CodeName(x.code), CodeName(y.code)) && Opposite(locale, CodeName(y.code), CodeName(x.code));
      assert Opposite(locale, PathText(x), PathText(y));
    }
    forall x, y, z ensures Transitive(order, x, y, z) {
      Chained(locale, CodeName(x.code), CodeName(y.code), CodeName(z.code));
      Chained(locale, PathText(x), PathText(y), PathText(z));
    }
  }

  lemma Chained(locale: (Text, Text) -> int, a: Text, b: Text, c: Text)
    requires TotalPreorder(locale)
    ensures locale(a, b) <= 0 && locale(b, c) <= 0 ==>
              locale(a, c) <= 0 && (locale(a, c) == 0 ==> locale(a, b) == 0 && locale(b, c) == 0)
  {
    assert Transitive(locale, a, b, c) && Transitive(locale, c, a, b) && Transitive(locale, b, c, a);
    assert Opposite(locale, a, c) && Opposite(locale, c, a) && Opposite(locale, a, b) && Opposite(locale, b, a);
    assert Opposite(locale, b, c) && Opposite(locale, c, b);
  }

  lemma SortAscends(locale: (Text, Text) -> int, failures: seq<Failure>)
    requires TotalPreorder(locale)
    ensures Ascend(locale, Sort(FailureOrder(locale), failures))
  {
    OrderLifts(locale);
    SortSorted(FailureOrder(locale), failures);
  }

  /** `ok` is the absence of failures; sorting loses and adds none, and puts them in order. */
  function BuildResult(host: Host, failures: seq<Failure>, links: seq<Scoring.Link>): (r: Result)
    ensures r.ok <==> failures == []
    ensures multiset(r.failures) == multiset(failures)
    ensures TotalPreorder(host.locale) ==> Ascend(host.locale, r.failures)
    ensures r.evidenceLinks == links
  {
    var sorted := Sort(FailureOrder(host.locale), failures);
    SortMultiset(FailureOrder(host.locale), failures);
    assert TotalPreorder(host.locale) ==> Ascend(host.locale, sorted) by {
      if TotalPreorder(host.locale) {
        SortAscends(host.locale, failures);
      }
    }
    Result(|sorted| == 0, sorted, links)
  }

  /** Why the file cannot be read within the limit, if so. */
  function ReachFailure(files: FileSystem, place: Option<Text>, max: int): Option<Code> {
    if place.None? then Some(UNSAFE_PATH)
    else if !files.present(place.value) then Some(MANIFEST_NOT_FOUND)
    else if files.size(place.value).None? then Some(MANIFEST_READ_ERROR)
    else if files.size(place.value).value > max then Some(MANIFEST_TOO_LARGE)
    else if files.read(place.value).None? then Some(MANIFEST_READ_ERROR)
    else None
  }

  /** What is wrong with its bytes, if anything. */
  function ContentFailure(host: Host, bytes: Bytes, sha256: Text): Option<Code> {
    if host.hash(bytes) != sha256 then Some(MANIFEST_HASH_MISMATCH)
    else match host.parse(bytes)
      case NotJson => Some(MANIFEST_PARSE_FAIL)
      case OffSchema => Some(MANIFEST_SCHEMA_INVALID)
      case Manifest(_) => None
  }

  /** The failure that ends the call at the manifest, if any. */
  function ManifestFailure(host: Host, runDir: Text, limits: Limits, receipt: Receipt): Option<Code> {
    var reach := ReachFailure(host.files, Locate(host, runDir, receipt.manifestPath), limits.manifest);
    if reach.Some? then reach
    else ContentFailure(host, FileBytes(host, runDir, receipt.manifestPath), receipt.manifestSha256)
  }

  function HeadLinks(receipt: Receipt): seq<Scoring.Link> {
    [Scoring.Link(Ascii("receiptId"), receipt.receiptId), Scoring.Link(Ascii("manifestSha256"), receipt.manifestSha256)]
  }

  /** One turn of the artifact loop. */
  method CheckArtifact(host: Host, runDir: Text, max: int, a: Artifact)
    returns (failures: seq<Failure>, links: seq<Scoring.Link>)
    ensures Explains(host, runDir, max, a, failures)
    ensures links == LinksOf(host, runDir, max, a)
  {
    failures, links := [], [];
    if Paths.ValidateRelativePath(a.path) != Paths.Valid {
      failures := Push(host, runDir, max, a, failures, UNSAFE_PATH);
      return;
    }
    var joined := Paths.SafeJoin(host.cwd, runDir, a.path);
    if joined.None? {
      failures := Push(host, runDir, max, a, failures, UNSAFE_PATH);
      return;
    }
    if !host.files.present(joined.value) {
      failures := Push(host, runDir, max, a, failures, ARTIFACT_NOT_FOUND);
      return;
    }
    var size := host.files.size(joined.value);
    if size.None? {
      failures := Push(host, runDir, max, a, failures, ARTIFACT_NOT_FOUND);
      return;
    }
    if size.value > max {
      failures := Push(host, runDir, max, a, failures, ARTIFACT_TOO_LARGE);
      return;
    }
    if size.value != a.bytes {
      failures := Push(host, runDir, max, a, failures, ARTIFACT_SIZE_MISMATCH);
    }
    var bytes := host.files.read(joined.value);
    if bytes.None? {
      failures := Push(host, runDir, max, a, failures, ARTIFACT_NOT_FOUND);
      return;
    }
    if host.hash(bytes.value) != a.sha256 {
      failures := Push(host, runDir, max, a, failures, ARTIFACT_HASH_MISMATCH);
    }
    links := [LinkOf(a)];
  }

  /** Records one more failure of the artifact, for a reason that is true of it. */
  method Push(host: Host, runDir: Text, max: int, a: Artifact, failures: seq<Failure>, code: Code) returns (more: seq<Failure>)
    requires AboutArtifact(host, runDir, max, a, failures) && Justified(host, runDir, max, a, code)
    ensures more == failures + [Failure(code, Some(a.path))]
    ensures AboutArtifact(host, runDir, max, a, more)
  {
    more := failures + [Failure(code, Some(a.path))];
  }

  method CheckArtifacts(host: Host, runDir: Text, max: int, delivered: seq<Artifact>)
    returns (failures: seq<Failure>, links: seq<Scoring.Link>)
    ensures Checked(host, runDir, max, delivered, failures)
    ensures links == ArtifactLinks(host, runDir, max, delivered)
  {
    failures, links := [], [];
    for i := 0 to |delivered|
      invariant Checked(host, runDir, max, delivered[..i], failures)
      invariant links == ArtifactLinks(host, runDir, max, delivered[..i])
    {
      var more, read := CheckArtifact(host, runDir, max, delivered[i]);
      Prefix(delivered, i);
      Extend(host, runDir, max, delivered[..i], delivered[i], delivered[..i + 1], failures, more);
      CollectPrefix(LinksFor(host, runDir, max), delivered, i);
      failures, links := failures + more, links + read;
    }
    assert delivered[..|delivered|] == delivered;
  }

  /** No failure exactly when all hold; every failure is true of an artifact; every artifact at fault is named. */
  predicate Checked(host: Host, runDir: Text, max: int, done: seq<Artifact>, failures: seq<Failure>) {
    && (failures == [] <==> AllHold(host, runDir, max, done))
    && AllJustified(host, runDir, max, done, failures)
    && AllReported(host, runDir, max, done, failures)
  }

  lemma Prefix<T>(xs: seq<T>, i: nat)
    requires i < |xs|
    ensures xs[..i + 1] == xs[..i] + [xs[i]]
  {
  }

  lemma ReportedMonotone(host: Host, runDir: Text, max: int, a: Artifact, few: seq<Failure>, many: seq<Failure>)
    requires Reported(host, runDir, max, a, few) && forall f <- few :: f in many
    ensures Reported(host, runDir, max, a, many)
  {
    if !ArtifactHolds(host, runDir, max, a) {
      var f :| f in few && f.path == Some(a.path);
      assert f in many;
    }
  }

  lemma Extend(host: Host, runDir: Text, max: int, done: seq<Artifact>, a: Artifact, next: seq<Artifact>, failures: seq<Failure>, more: seq<Failure>)
    requires Checked(host, runDir, max, done, failures)
    requires next == done + [a]
    requires Explains(host, runDir, max, a, more)
    ensures Checked(host, runDir, max, next, failures + more)
  {
    forall x ensures x in next <==> x in done || x == a {
    }
    forall f | f in failures + more ensures AboutSome(host, runDir, max, next, f) {
      if f in failures {
        assert AboutSome(host, runDir, max, done, f);
        var x :| x in done && f.path == Some(x.path) && Justified(host, runDir, max, x, f.code);
        assert x in next;
      }
    }
    forall x | x in next ensures Reported(host, runDir, max, x, failures + more) {
      if x in done {
        ReportedMonotone(host, runDir, max, x, failures, failures + more);
      } else {
        ReportedMonotone(host, runDir, max, x, more, failures + more);
      }
    }
  }

  /** `ok` means exactly that everything holds. */
  method VerifyEvidence(host: Host, runDir: Text, limits: Limits, receipt: Receipt) returns (r: Result)
    ensures r.ok <==>
              && ManifestHolds(host, runDir, limits, receipt)
              && DeliveredMatches(host, runDir, receipt)
              && AllHold(host, runDir, limits.artifact, receipt.delivered)
    ensures r.ok <==> r.failures == []
    ensures TotalPreorder(host.locale) ==> Ascend(host.locale, r.failures)
    ensures ManifestFailure(host, runDir, limits, receipt).Some? ==>
              && r.failures == [Failure(ManifestFailure(host, runDir, limits, receipt).value, Some(receipt.manifestPath))]
              && r.evidenceLinks == HeadLinks(receipt)
    ensures ManifestFailure(host, runDir, limits, receipt).None? ==>
              && r.evidenceLinks == HeadLinks(receipt) + ArtifactLinks(host, runDir, limits.artifact, receipt.delivered)
              && (Failure(DELIVERED_MISMATCH, None) in r.failures <==> !DeliveredMatches(host, runDir, receipt))
              && AllReported(host, runDir, limits.artifact, receipt.delivered, r.failures)
              && AllTrue(host, runDir, limits.artifact, receipt.delivered, r.failures)
  {
    var stop, artifacts := ReadManifest(host, runDir, limits, receipt);
    if stop.Some? {
      r := Stop(host, stop.value, receipt.manifestPath, HeadLinks(receipt));
    } else {
      r := VerifyDelivered(host, runDir, limits.artifact, receipt, artifacts);
    }
  }

  /** The first part of the call: the manifest's artifacts, or the code that ends the call. */
  method ReadManifest(host: Host, runDir: Text, limits: Limits, receipt: Receipt) returns (stop: Option<Code>, artifacts: seq<Artifact>)
    ensures stop == ManifestFailure(host, runDir, limits, receipt)
    ensures stop.None? <==> ManifestHolds(host, runDir, limits, receipt)
    ensures stop.None? ==> host.parse(FileBytes(host, runDir, receipt.manifestPath)) == Manifest(artifacts)
  {
    var path := receipt.manifestPath;
    artifacts := [];
    if Paths.ValidateRelativePath(path) != Paths.Valid {
      return Some(UNSAFE_PATH), [];
    }
    var joined := Paths.SafeJoin(host.cwd, runDir, path);
    if joined.None? {
      return Some(UNSAFE_PATH), [];
    }
    if !host.files.present(joined.value) {
      return Some(MANIFEST_NOT_FOUND), [];
    }
    var size := host.files.size(joined.value);
    if size.None? {
      return Some(MANIFEST_READ_ERROR), [];
    }
    if size.value > limits.manifest {
      return Some(MANIFEST_TOO_LARGE), [];
    }
    var bytes := host.files.read(joined.value);
    if bytes.None? {
      return Some(MANIFEST_READ_ERROR), [];
    }
    if host.hash(bytes.value) != receipt.manifestSha256 {
      return Some(MANIFEST_HASH_MISMATCH), [];
    }
    match host.parse(bytes.value) {
      case NotJson => stop := Some(MANIFEST_PARSE_FAIL);
      case OffSchema => stop := Some(MANIFEST_SCHEMA_INVALID);
      case Manifest(declared) => stop, artifacts := None, declared;
    }
  }

  /** The result of a call that ends at the manifest: one failure, and the links so far. */
  method Stop(host: Host, code: Code, path: Text, links: seq<Scoring.Link>) returns (r: Result)
    ensures r == Result(false, [Failure(code, Some(path))], links)
  {
    var failures := [Failure(code, Some(path))];
    r := BuildResult(host, failures, links);
    SortOne(FailureOrder(host.locale), failures[0]);
  }

  /** The list comparison and the artifact loop. */
  method VerifyDelivered(host: Host, runDir: Text, max: int, receipt: Receipt, artifacts: seq<Artifact>) returns (r: Result)
    ensures r.ok <==> Matches(host.locale, artifacts, receipt.delivered) && AllHold(host, runDir, max, receipt.delivered)
    ensures r.ok <==> r.failures == []
    ensures TotalPreorder(host.locale) ==> Ascend(host.locale, r.failures)
    ensures r.evidenceLinks == HeadLinks(receipt) + ArtifactLinks(host, runDir, max, receipt.delivered)
    ensures Failure(DELIVERED_MISMATCH, None) in r.failures <==> !Matches(host.locale, artifacts, receipt.delivered)
    ensures AllReported(host, runDir, max, receipt.delivered, r.failures)
    ensures AllTrue(host, runDir, max, receipt.delivered, r.failures)
  {
    var failures: seq<Failure> := [];
    if !Matches(host.locale, artifacts, receipt.delivered) {
      failures := [Failure(DELIVERED_MISMATCH, None)];
    }
    var more, links := CheckArtifacts(host, runDir, max, receipt.delivered);
    r := BuildResult(host, failures + more, HeadLinks(receipt) + links);
    Reordered(host, runDir, max, receipt.delivered, failures, more, r.failures);
  }

  lemma Reordered(host: Host, runDir: Text, max: int, delivered: seq<Artifact>, first: seq<Failure>, more: seq<Failure>, sorted: seq<Failure>)
    requires multiset(sorted) == multiset(first + more)
    requires AllJustified(host, runDir, max, delivered, more) && AllReported(host, runDir, max, delivered, more)
    requires forall f <- first :: f == Failure(DELIVERED_MISMATCH, None)
    ensures AllReported(host, runDir, max, delivered, sorted)
    ensures AllTrue(host, runDir, max, delivered, sorted)
    ensures Failure(DELIVERED_MISMATCH, None) in sorted <==> Failure(DELIVERED_MISMATCH, None) in first
    ensures sorted == [] <==> first + more == []
  {
    assert |sorted| == |multiset(sorted)| == |multiset(first + more)| == |first + more|;
    forall f ensures f in sorted <==> f in first + more {
      assert f in multiset(sorted) <==> f in multiset(first + more);
    }
    forall a | a in delivered ensures Reported(host, runDir, max, a, sorted) {
      ReportedMonotone(host, runDir, max, a, more, sorted);
    }
  }

  // ---- Codes ----

  const CODES: seq<Code> := [
    ARTIFACT_HASH_MISMATCH, ARTIFACT_NOT_FOUND, ARTIFACT_SIZE_MISMATCH, ARTIFACT_TOO_LARGE, DELIVERED_MISMATCH,
    MANIFEST_HASH_MISMATCH, MANIFEST_NOT_FOUND, MANIFEST_PARSE_FAIL, MANIFEST_READ_ERROR, MANIFEST_SCHEMA_INVALID,
    MANIFEST_TOO_LARGE, UNSAFE_PATH]

  lemma PrecedesAt(a: Text, b: Text, i: nat)
    requires i < |a| && i < |b| && a[i] < b[i] && forall k :: 0 <= k < i ==> a[k] == b[k]
    ensures Precedes(a, b)
  {
    assert SmallerAt(a, b, i);
  }

  /** The codes, as listed, have ascending names: they are all different. */
  lemma CodesAscend(i: nat)
    requires i < 11
    ensures Precedes(CodeName(CODES[i]), CodeName(CODES[i + 1]))
  {
    if i < 3 {
      ArtifactCodesAscend(i);
    } else if 5 <= i < 10 {
      ManifestCodesAscend(i);
    } else {
      PrecedesAt(CodeName(CODES[i]), CodeName(CODES[i + 1]), 0);
    }
  }

  lemma ArtifactCodesAscend(i: nat)
    requires i < 3
    ensures Precedes(CodeName(CODES[i]), CodeName(CODES[i + 1]))
  {
    PrecedesAt(CodeName(CODES[i]), CodeName(CODES[i + 1]), 9);
  }

  lemma ManifestCodesAscend(i: nat)
    requires 5 <= i < 10
    ensures Precedes(CodeName(CODES[i]), CodeName(CODES[i + 1]))
  {
    PrecedesAt(CodeName(CODES[i]), CodeName(CODES[i + 1]), 9);
  }

  // ---- What each code at the manifest means ----

  lemma ReachCodes(files: FileSystem, place: Option<Text>, max: int)
    ensures
      var found := LookAt(files, place);
      match ReachFailure(files, place, max)
      case None => found.File? && found.size <= max && found.content.Some?
      case Some(UNSAFE_PATH) => found.Unsafe?
      case Some(MANIFEST_NOT_FOUND) => found.Missing?
      case Some(MANIFEST_READ_ERROR) => found.Missing? || (found.File? && found.size <= max && found.content == None)
      case Some(MANIFEST_TOO_LARGE) => found.File? && found.size > max
      case _ => false
  {
  }

  /** The code that ends the call says what is wrong with the manifest, and nothing that is tested before it. */
  lemma ManifestCodes(host: Host, runDir: Text, limits: Limits, receipt: Receipt)
    ensures
      var found := Look(host, runDir, receipt.manifestPath);
      match ManifestFailure(host, runDir, limits, receipt)
      case None => ManifestHolds(host, runDir, limits, receipt)
      case Some(UNSAFE_PATH) => found.Unsafe?
      case Some(MANIFEST_NOT_FOUND) => found.Missing?
      case Some(MANIFEST_READ_ERROR) => found.Missing? || (found.File? && found.size <= limits.manifest && found.content == None)
      case Some(MANIFEST_TOO_LARGE) => found.File? && found.size > limits.manifest
      case Some(MANIFEST_HASH_MISMATCH) =>
        && found.File? && found.size <= limits.manifest && found.content.Some?
        && host.hash(found.content.value) != receipt.manifestSha256
      case Some(code) =>
        && FileHolds(host, runDir, receipt.manifestPath, limits.manifest, receipt.manifestSha256)
        && match code
           case MANIFEST_PARSE_FAIL => host.parse(FileBytes(host, runDir, receipt.manifestPath)) == NotJson
           case MANIFEST_SCHEMA_INVALID => host.parse(FileBytes(host, runDir, receipt.manifestPath)) == OffSchema
           case _ => false
  {
    ReachCodes(host.files, Locate(host, runDir, receipt.manifestPath), limits.manifest);
  }

  /** Limits are inclusive: a file holds under a limit of its own size, and under no smaller one. */
  lemma LimitIsInclusive(host: Host, runDir: Text, path: Text, size: nat, content: Bytes)
    requires Look(host, runDir, path) == File(size, Some(content))
    ensures FileHolds(host, runDir, path, size, host.hash(content)) && !FileHolds(host, runDir, path, size - 1, host.hash(content))
  {
  }

  // ---- What the comparison of path lists decides ----

  function PathsOf(artifacts: seq<Artifact>): seq<Text> { Map(PathOf, artifacts) }

  ghost predicate CommaFree(paths: seq<Text>) { forall p <- paths :: COMMA !in p }

  /** The one clash left: no artifact at all, against one artifact with an empty path. */
  predicate EmptyClash(a: seq<Text>, b: seq<Text>) { (a == [] && b == [[]]) || (a == [[]] && b == []) }

  lemma JoinIdentifies(a: seq<Text>, b: seq<Text>)
    requires CommaFree(a) && CommaFree(b)
    ensures Join(a, COMMA) == Join(b, COMMA) <==> a == b || EmptyClash(a, b)
  {
    if a != [] {
      SplitJoin(a, COMMA);
    }
    if b != [] {
      SplitJoin(b, COMMA);
    }
  }

  lemma PathListSorts(locale: (Text, Text) -> int, artifacts: seq<Artifact>)
    ensures PathList(locale, artifacts) == Join(Sort(locale, PathsOf(artifacts)), COMMA)
  {
    SortByKey(PathOf, locale, PathOrder(locale), artifacts);
  }

  lemma SortSmall(cmp: (Text, Text) -> int, paths: seq<Text>)
    ensures Sort(cmp, paths) == [] <==> paths == []
    ensures Sort(cmp, paths) == [[]] <==> paths == [[]]
    ensures CommaFree(paths) ==> CommaFree(Sort(cmp, paths))
  {
    SortMultiset(cmp, paths);
    if |paths| == 1 {
      assert paths == [paths[0]];
      SortOne(cmp, paths[0]);
    }
  }

  /**
   The comma-separated lists agree exactly when the two lists are rearrangements of each other, as far as paths are
   comma-free and the locale separates them.
   */
  lemma MatchesExactly(locale: (Text, Text) -> int, a: seq<Artifact>, b: seq<Artifact>)
    requires TotalPreorder(locale) && Separates(locale, PathsOf(a))
    requires CommaFree(PathsOf(a)) && CommaFree(PathsOf(b))
    ensures Matches(locale, a, b) <==> multiset(PathsOf(a)) == multiset(PathsOf(b)) || EmptyClash(PathsOf(a), PathsOf(b))
  {
    var x, y := PathsOf(a), PathsOf(b);
    PathListSorts(locale, a);
    PathListSorts(locale, b);
    SortSmall(locale, x);
    SortSmall(locale, y);
    JoinIdentifies(Sort(locale, x), Sort(locale, y));
    SortMultiset(locale, x);
    SortMultiset(locale, y);
    if multiset(x) == multiset(y) {
      SortPermutation(locale, x, y);
    }
  }

  /** With a comma in a path two different lists pass for one. */
  lemma CommaConfuses(locale: (Text, Text) -> int, sha256: Text)
    requires locale(Ascii("a"), Ascii("b")) < 0
    ensures
      var one := [Artifact([0x61, COMMA, 0x62], sha256, 0)];
      var two := [Artifact([0x61], sha256, 0), Artifact([0x62], sha256, 0)];
      Matches(locale, one, two) && |one| != |two|
  {
    var one := [Artifact([0x61, COMMA, 0x62], sha256, 0)];
    var two := [Artifact([0x61], sha256, 0), Artifact([0x62], sha256, 0)];
    assert Ascii("a") == [0x61] && Ascii("b") == [0x62];
    PathListSorts(locale, one);
    PathListSorts(locale, two);
    assert PathsOf(one) == [[0x61, COMMA, 0x62]];
    SortOne(locale, [0x61, COMMA, 0x62]);
    assert PathsOf(two) == [[0x61], [0x62]];
    SortOne(locale, [0x62]);
    assert PathsOf(two)[1..] == [[0x62]];
  }

  /** The lists of paths differ, but not their comma-separated texts. */
  ghost predicate Confused(locale: (Text, Text) -> int, a: seq<Artifact>, b: seq<Artifact>) {
    Matches(locale, a, b) && multiset(PathsOf(a)) != multiset(PathsOf(b))
  }

  /** Some comma-free list passes for `a`. */
  ghost predicate Confusable(locale: (Text, Text) -> int, a: seq<Artifact>) {
    exists b :: CommaFree(PathsOf(b)) && Confused(locale, a, b)
  }

  function Unsigned(path: Text): Artifact { Artifact(path, [], 0) }

  /** Artifacts with these paths. */
  function Named(paths: seq<Text>): (artifacts: seq<Artifact>)
    ensures PathsOf(artifacts) == paths
  {
    Map(Unsigned, paths)
  }

  /** A comma-free list that passes for `a` is what splitting the text of `a` gives, sorted as it is. */
  lemma ConfusedIsSplit(locale: (Text, Text) -> int, a: seq<Artifact>, b: seq<Artifact>)
    requires TotalPreorder(locale) && CommaFree(PathsOf(b)) && b != [] && Matches(locale, a, b)
    ensures Sort(locale, PathsOf(b)) == Split(PathList(locale, a), COMMA)
    ensures Sorted(locale, Split(PathList(locale, a), COMMA))
  {
    PathListSorts(locale, b);
    SortSmall(locale, PathsOf(b));
    SplitJoin(Sort(locale, PathsOf(b)), COMMA);
    SortSorted(locale, PathsOf(b));
  }

  /** Two comma-free lists are not confused, the empty ones aside. */
  lemma CommaFreeNotConfused(locale: (Text, Text) -> int, a: seq<Artifact>, b: seq<Artifact>)
    requires TotalPreorder(locale) && CommaFree(PathsOf(a)) && CommaFree(PathsOf(b)) && a != [] && b != []
    ensures !Confused(locale, a, b)
  {
    if Matches(locale, a, b) {
      ConfusedIsSplit(locale, a, b);
      ConfusedIsSplit(locale, a, a);
      SortMultiset(locale, PathsOf(a));
      SortMultiset(locale, PathsOf(b));
    }
  }

  /** No path, or one empty one: each passes for the other. */
  predicate NothingNamed(a: seq<Artifact>) { PathsOf(a) == [] || PathsOf(a) == [[]] }

  lemma EmptyText(locale: (Text, Text) -> int, a: seq<Artifact>)
    ensures PathList(locale, a) == [] <==> NothingNamed(a)
  {
    PathListSorts(locale, a);
    SortSmall(locale, PathsOf(a));
  }

  lemma NothingIsConfusable(locale: (Text, Text) -> int, a: seq<Artifact>)
    requires NothingNamed(a)
    ensures Confusable(locale, a)
  {
    var b := Named(if a == [] then [[]] else []);
    EmptyText(locale, a);
    EmptyText(locale, b);
    assert |multiset(PathsOf(a))| == |a| != |b| == |multiset(PathsOf(b))|;
    assert Confused(locale, a, b);
  }

  /** The parts of a sorted text pass for the list it was made of. */
  lemma SplitConfuses(locale: (Text, Text) -> int, a: seq<Artifact>)
    requires !CommaFree(PathsOf(a)) && Sorted(locale, Split(PathList(locale, a), COMMA))
    ensures Confusable(locale, a)
  {
    var parts := Split(PathList(locale, a), COMMA);
    var b := Named(parts);
    PathListSorts(locale, b);
    SortedStays(locale, parts);
    JoinSplit(PathList(locale, a), COMMA);
    var p :| p in PathsOf(a) && COMMA in p;
    assert p in multiset(PathsOf(a)) && p !in multiset(parts);
    assert Confused(locale, a, b);
  }

  /**
   A list of artifacts passes for some other, comma-free list exactly if it names nothing, or one of its paths has a
   comma and the parts between all commas of its sorted text are in order.
   */
  lemma ConfusableExactly(locale: (Text, Text) -> int, a: seq<Artifact>)
    requires TotalPreorder(locale)
    ensures Confusable(locale, a) <==>
              NothingNamed(a) || (!CommaFree(PathsOf(a)) && Sorted(locale, Split(PathList(locale, a), COMMA)))
  {
    if NothingNamed(a) {
      NothingIsConfusable(locale, a);
    } else {
      forall b | CommaFree(PathsOf(b)) && Confused(locale, a, b)
        ensures !CommaFree(PathsOf(a)) && Sorted(locale, Split(PathList(locale, a), COMMA))
      {
        EmptyText(locale, a);
        EmptyText(locale, b);
        ConfusedIsSplit(locale, a, b);
        if CommaFree(PathsOf(a)) {
          CommaFreeNotConfused(locale, a, b);
        }
      }
      if !CommaFree(PathsOf(a)) && Sorted(locale, Split(PathList(locale, a), COMMA)) {
        SplitConfuses(locale, a);
      }
    }
  }

  /** The other way about, one path with commas passes for any list of two paths or more. */
  lemma OnePathForMany(locale: (Text, Text) -> int, a: seq<Artifact>)
    requires |a| >= 2
    ensures Confused(locale, a, Named([PathList(locale, a)]))
  {
    var b := Named([PathList(locale, a)]);
    PathListSorts(locale, b);
    SortOne(locale, PathList(locale, a));
    assert |multiset(PathsOf(a))| == |a| != |b| == |multiset(PathsOf(b))|;
  }

  // ---- What `ok` pins down ----

  ghost predicate Injective(hash: Bytes -> Text) {
    forall x, y :: hash(x) == hash(y) ==> x == y
  }

  predicate Verified(host: Host, runDir: Text, limits: Limits, receipt: Receipt) {
    && ManifestHolds(host, runDir, limits, receipt)
    && DeliveredMatches(host, runDir, receipt)
    && AllHold(host, runDir, limits.artifact, receipt.delivered)
  }

  /**
   Two receipts verified on different machines that name the same manifest hash were verified against the same
   manifest, and every file both deliver under one hash has the same contents.
   */
  lemma OkPinsContents(h1: Host, dir1: Text, limits1: Limits, r1: Receipt, h2: Host, dir2: Text, limits2: Limits, r2: Receipt)
    requires h1.hash == h2.hash && h1.parse == h2.parse && h1.locale == h2.locale && Injective(h1.hash)
    requires r1.manifestSha256 == r2.manifestSha256
    ensures Verified(h1, dir1, limits1, r1) && Verified(h2, dir2, limits2, r2) ==>
              && FileBytes(h1, dir1, r1.manifestPath) == FileBytes(h2, dir2, r2.manifestPath)
              && Matches(h1.locale, r1.delivered, r2.delivered)
              && forall a, b | a in r1.delivered && b in r2.delivered && a.sha256 == b.sha256 ::
                   FileBytes(h1, dir1, a.path) == FileBytes(h2, dir2, b.path)
  {
    SameHashSameBytes(h1, dir1, limits1.manifest, r1.manifestPath, h2, dir2, limits2.manifest, r2.manifestPath, r1.manifestSha256);
    forall a, b | a in r1.delivered && b in r2.delivered && a.sha256 == b.sha256
      ensures ArtifactHolds(h1, dir1, limits1.artifact, a) && ArtifactHolds(h2, dir2, limits2.artifact, b) ==>
                FileBytes(h1, dir1, a.path) == FileBytes(h2, dir2, b.path)
    {
      SameHashSameBytes(h1, dir1, limits1.artifact, a.path, h2, dir2, limits2.artifact, b.path, a.sha256);
    }
  }

  lemma SameHashSameBytes(h1: Host, dir1: Text, max1: int, p1: Text, h2: Host, dir2: Text, max2: int, p2: Text, sha256: Text)
    requires h1.hash == h2.hash && Injective(h1.hash)
    ensures FileHolds(h1, dir1, p1, max1, sha256) && FileHolds(h2, dir2, p2, max2, sha256) ==>
              FileBytes(h1, dir1, p1) == FileBytes(h2, dir2, p2)
  {
  }

  /** Every file that is looked at lies inside the run directory, at the place its normal form names. */
  lemma FoundInside(host: Host, runDir: Text, path: Text)
    ensures !Look(host, runDir, path).Unsafe? ==>
              var base := Paths.Names(host.cwd, runDir);
              Paths.SafeJoin(host.cwd, runDir, path) == Some(Paths.Rooted(base + Paths.Relative(path)))
  {
    if !Look(host, runDir, path).Unsafe? {
      Paths.AcceptedStaysInside(host.cwd, runDir, path);
    }
  }

  /** Every result starts with the links of the receipt and of its manifest's hash. */
  lemma HeadLinksMean(receipt: Receipt)
    ensures |HeadLinks(receipt)| == 2
    ensures HeadLinks(receipt)[0].kind == Ascii("receiptId") && HeadLinks(receipt)[0].ref == receipt.receiptId
    ensures HeadLinks(receipt)[1].kind == Ascii("manifestSha256") && HeadLinks(receipt)[1].ref == receipt.manifestSha256
  {
  }

  /** All hashes of an `ok` are linked, in delivery order. */
  lemma OkLinksAll(host: Host, runDir: Text, max: int, artifacts: seq<Artifact>)
    requires AllHold(host, runDir, max, artifacts)
    ensures |ArtifactLinks(host, runDir, max, artifacts)| == |artifacts|
    ensures forall i :: 0 <= i < |artifacts| ==>
              ArtifactLinks(host, runDir, max, artifacts)[i] == Scoring.Link(Ascii("artifactSha256"), artifacts[i].sha256)
  {
    forall a | a in artifacts ensures LinksFor(host, runDir, max)(a) == [LinkOf(a)] {
      assert ArtifactHolds(host, runDir, max, a);
    }
    CollectSingles(LinksFor(host, runDir, max), LinkOf, artifacts);
  }

  // ---- What `ok` leaves open: the hashes and sizes that the manifest declares ----

  /** Receipt and manifest declare the same for the paths they share. */
  predicate Agree(delivered: seq<Artifact>, declared: seq<Artifact>) {
    forall a, m | a in delivered && m in declared && a.path == m.path :: a == m
  }

  function Declared(host: Host, runDir: Text, receipt: Receipt): seq<Artifact> {
    match host.parse(FileBytes(host, runDir, receipt.manifestPath))
    case Manifest(artifacts) => artifacts
    case _ => []
  }

  function Holds(host: Host, runDir: Text, max: int): Artifact -> bool {
    (a: Artifact) => ArtifactHolds(host, runDir, max, a)
  }

  /** The files meet what is declared for the delivered paths. */
  predicate Meets(holds: Artifact -> bool, delivered: seq<Artifact>, declared: seq<Artifact>) {
    forall a, m | a in delivered && m in declared && a.path == m.path :: holds(m)
  }

  /** No two artifacts that hold differ on one path. */
  ghost predicate OnePerPath(holds: Artifact -> bool) {
    forall a, m :: OneOf(holds, a, m)
  }

  predicate OneOf(holds: Artifact -> bool, a: Artifact, m: Artifact) {
    holds(a) && holds(m) && a.path == m.path ==> a == m
  }

  /** A file has one size and one hash. */
  lemma FilesDecide(host: Host, runDir: Text, max: int)
    ensures OnePerPath(Holds(host, runDir, max))
  {
    forall a, m ensures OneOf(Holds(host, runDir, max), a, m) {
      OneDeclaration(host, runDir, max, a, m);
    }
  }

  lemma OneDeclaration(host: Host, runDir: Text, max: int, a: Artifact, m: Artifact)
    ensures ArtifactHolds(host, runDir, max, a) && ArtifactHolds(host, runDir, max, m) && a.path == m.path ==> a == m
  {
  }

  lemma MeetsExactly(holds: Artifact -> bool, delivered: seq<Artifact>, declared: seq<Artifact>)
    requires OnePerPath(holds) && forall a <- delivered :: holds(a)
    ensures Meets(holds, delivered, declared) <==> Agree(delivered, declared)
  {
    if Meets(holds, delivered, declared) {
      forall a, m | a in delivered && m in declared && a.path == m.path ensures a == m {
        assert OneOf(holds, a, m);
      }
    }
  }

  /** After an `ok`, the files meet the manifest exactly if receipt and manifest agree on hash and size of each path. */
  lemma OkMeetsManifestExactly(host: Host, runDir: Text, limits: Limits, receipt: Receipt)
    ensures
      Verified(host, runDir, limits, receipt) ==>
        (Meets(Holds(host, runDir, limits.artifact), receipt.delivered, Declared(host, runDir, receipt))
        <==> Agree(receipt.delivered, Declared(host, runDir, receipt)))
  {
    if Verified(host, runDir, limits, receipt) {
      FilesDecide(host, runDir, limits.artifact);
      HeldAll(host, runDir, limits.artifact, receipt.delivered);
      MeetsExactly(Holds(host, runDir, limits.artifact), receipt.delivered, Declared(host, runDir, receipt));
    }
  }

  lemma HeldAll(host: Host, runDir: Text, max: int, artifacts: seq<Artifact>)
    ensures AllHold(host, runDir, max, artifacts) <==> forall a <- artifacts :: Holds(host, runDir, max)(a)
  {
  }

  function SetOf(artifacts: seq<Artifact>): set<Artifact> { set a | a in artifacts }

  /** `a` has an artifact for each path of `b`. */
  predicate HasPaths(a: seq<Artifact>, b: seq<Artifact>) { forall x <- b :: HasPath(a, x.path) }

  predicate HasPath(a: seq<Artifact>, path: Text) { exists y <- a :: y.path == path }

  lemma Included(holds: Artifact -> bool, xs: seq<Artifact>, ys: seq<Artifact>)
    requires OnePerPath(holds) && (forall x <- xs :: holds(x)) && (forall y <- ys :: holds(y))
    requires HasPaths(ys, xs)
    ensures SetOf(xs) <= SetOf(ys)
  {
    forall x | x in xs ensures x in ys {
      assert HasPath(ys, x.path);
      var y :| y in ys && y.path == x.path;
      assert OneOf(holds, x, y);
    }
  }

  lemma DeclaredExactly(holds: Artifact -> bool, declared: seq<Artifact>, delivered: seq<Artifact>)
    requires OnePerPath(holds) && forall a <- delivered :: holds(a)
    requires HasPaths(declared, delivered) && HasPaths(delivered, declared)
    ensures (forall m <- declared :: holds(m)) <==> SetOf(declared) == SetOf(delivered)
  {
    if forall m <- declared :: holds(m) {
      Included(holds, declared, delivered);
      Included(holds, delivered, declared);
    }
    if SetOf(declared) == SetOf(delivered) {
      forall m | m in declared ensures holds(m) {
        assert m in SetOf(delivered);
      }
    }
  }

  /**
   Where the lists are known to name the same paths, the files meet every declaration of the manifest exactly if it
   declares the very artifacts delivered.
   */
  lemma OkMeansDeclaredExactly(host: Host, runDir: Text, limits: Limits, receipt: Receipt)
    requires TotalPreorder(host.locale) && Separates(host.locale, PathsOf(Declared(host, runDir, receipt)))
    requires CommaFree(PathsOf(Declared(host, runDir, receipt))) && CommaFree(PathsOf(receipt.delivered))
    ensures
      Verified(host, runDir, limits, receipt) ==>
        (AllHold(host, runDir, limits.artifact, Declared(host, runDir, receipt))
        <==> SetOf(Declared(host, runDir, receipt)) == SetOf(receipt.delivered))
  {
    if Verified(host, runDir, limits, receipt) {
      var declared, delivered := Declared(host, runDir, receipt), receipt.delivered;
      var holds := Holds(host, runDir, limits.artifact);
      FilesDecide(host, runDir, limits.artifact);
      HeldAll(host, runDir, limits.artifact, declared);
      HeldAll(host, runDir, limits.artifact, delivered);
      EmptyPathFails(host, runDir, limits.artifact);
      MatchesExactly(host.locale, declared, delivered);
      SameLists(holds, declared, delivered);
    }
  }

  lemma SameLists(holds: Artifact -> bool, declared: seq<Artifact>, delivered: seq<Artifact>)
    requires OnePerPath(holds) && (forall a <- delivered :: holds(a)) && forall a: Artifact :: a.path == [] ==> !holds(a)
    requires multiset(PathsOf(declared)) == multiset(PathsOf(delivered)) || EmptyClash(PathsOf(declared), PathsOf(delivered))
    ensures (forall m <- declared :: holds(m)) <==> SetOf(declared) == SetOf(delivered)
  {
    if multiset(PathsOf(declared)) == multiset(PathsOf(delivered)) {
      PathsCover(declared, delivered);
      PathsCover(delivered, declared);
      DeclaredExactly(holds, declared, delivered);
    } else {
      var one := if declared == [] then delivered else declared;
      assert PathsOf(one)[0] == one[0].path == [] && one[0] in one && one[0] in SetOf(one);
    }
  }

  lemma PathsCover(a: seq<Artifact>, b: seq<Artifact>)
    requires multiset(PathsOf(a)) == multiset(PathsOf(b))
    ensures HasPaths(a, b)
  {
    forall x | x in b ensures HasPath(a, x.path) {
      var i :| 0 <= i < |b| && b[i] == x;
      assert PathsOf(b)[i] in multiset(PathsOf(b));
      assert x.path in multiset(PathsOf(a));
      var j :| 0 <= j < |a| && PathsOf(a)[j] == x.path;
      assert a[j] in a;
    }
  }

  lemma EmptyPathFails(host: Host, runDir: Text, max: int)
    ensures forall a: Artifact :: a.path == [] ==> !Holds(host, runDir, max)(a)
  {
    forall a: Artifact | a.path == [] ensures !ArtifactHolds(host, runDir, max, a) {
      assert Look(host, runDir, a.path) == Unsafe;
    }
  }

  // ---- An `ok` against the manifest's own declarations ----

  /** Artifacts that hold and name the same paths in the same order are the same. */
  lemma SamePathsSameArtifacts(holds: Artifact -> bool, xs: seq<Artifact>, ys: seq<Artifact>)
    requires OnePerPath(holds) && (forall x <- xs :: holds(x)) && (forall y <- ys :: holds(y))
    requires PathsOf(xs) == PathsOf(ys)
    ensures xs == ys
  {
    forall i | 0 <= i < |xs| ensures xs[i] == ys[i] {
      assert PathsOf(xs)[i] == PathsOf(ys)[i];
      assert OneOf(holds, xs[i], ys[i]);
    }
  }

  /**
   On every host: if the manifest names the paths of the receipt, a receipt of artifacts that hold is verified whatever
   hashes and sizes the manifest declares for them, and these hold only if they are the receipt's.
   */
  lemma OkDespiteManifest(host: Host, runDir: Text, limits: Limits, receipt: Receipt)
    requires ManifestHolds(host, runDir, limits, receipt) && AllHold(host, runDir, limits.artifact, receipt.delivered)
    requires PathsOf(Declared(host, runDir, receipt)) == PathsOf(receipt.delivered)
    ensures Verified(host, runDir, limits, receipt)
    ensures AllHold(host, runDir, limits.artifact, Declared(host, runDir, receipt))
            <==> Declared(host, runDir, receipt) == receipt.delivered
  {
    var declared := Declared(host, runDir, receipt);
    PathListSorts(host.locale, declared);
    PathListSorts(host.locale, receipt.delivered);
    FilesDecide(host, runDir, limits.artifact);
    HeldAll(host, runDir, limits.artifact, declared);
    HeldAll(host, runDir, limits.artifact, receipt.delivered);
    if AllHold(host, runDir, limits.artifact, declared) {
      SamePathsSameArtifacts(Holds(host, runDir, limits.artifact), declared, receipt.delivered);
    }
  }

  const M: Text := [0x6D]
  const A: Text := [0x61]

  /** Where `/m/m` and `/m/a` are. */
  function Place(name: Text): Text { Paths.Rooted([M, name]) }

  /** A host with two files, `/m/m` and `/m/a`, of which only the first is a manifest. */
  function TwoFiles(manifest: Bytes, artifact: Bytes, declared: seq<Artifact>, hash: Bytes -> Text, locale: (Text, Text) -> int): Host {
    Host(
      [SLASH],
      FileSystem(
        path => path == Place(M) || path == Place(A),
        path => if path == Place(M) then Some(|manifest|) else if path == Place(A) then Some(|artifact|) else None,
        path => if path == Place(M) then Some(manifest) else if path == Place(A) then Some(artifact) else None),
      hash,
      bytes => if bytes == manifest then Manifest(declared) else NotJson,
      locale)
  }

  lemma LetterPlace(letter: Text)
    requires letter == M || letter == A
    ensures Paths.ValidateRelativePath(letter) == Paths.Valid && Paths.SafeJoin([SLASH], M, letter) == Some(Place(letter))
  {
    Paths.PlainChar(M[0]);
    Paths.PlainChar(letter[0]);
    Paths.PlainName(letter);
    Paths.PlainName(M);
    Paths.NamesFromRoot(M);
    Paths.AcceptedStaysInside([SLASH], M, letter);
    assert [M] + [letter] == [M, letter];
  }

  lemma PlaceEnds(letter: Text)
    requires |letter| == 1
    ensures Place(letter) == [SLASH] + (M + [SLASH] + letter) && Place(letter)[3] == letter[0]
  {
    assert [M, letter][1..] == [letter];
    assert Join([letter], SLASH) == letter;
  }

  lemma PlacesDiffer()
    ensures Place(M) != Place(A)
  {
    PlaceEnds(M);
    PlaceEnds(A);
  }

  lemma TwoFilesFound(manifest: Bytes, artifact: Bytes, declared: seq<Artifact>, hash: Bytes -> Text, locale: (Text, Text) -> int)
    ensures
      var host := TwoFiles(manifest, artifact, declared, hash, locale);
      Look(host, M, M) == File(|manifest|, Some(manifest)) && Look(host, M, A) == File(|artifact|, Some(artifact))
  {
    var host := TwoFiles(manifest, artifact, declared, hash, locale);
    LetterPlace(M);
    LetterPlace(A);
    PlacesDiffer();
    FoundAt(host, M, M, Place(M));
    FoundAt(host, M, A, Place(A));
  }

  lemma FoundAt(host: Host, runDir: Text, path: Text, joined: Text)
    requires Paths.ValidateRelativePath(path) == Paths.Valid && Paths.SafeJoin(host.cwd, runDir, path) == Some(joined)
    requires host.files.present(joined) && host.files.size(joined).Some?
    ensures Look(host, runDir, path) == File(host.files.size(joined).value, host.files.read(joined))
  {
  }

  /** On a host with a manifest and a file whose hash is not the one the manifest declares, the receipt is verified. */
  lemma OkDespiteOtherHash(manifest: Bytes, artifact: Bytes, hash: Bytes -> Text, other: Text, locale: (Text, Text) -> int, limits: Limits)
    requires |manifest| <= limits.manifest && |artifact| <= limits.artifact && other != hash(artifact)
    ensures
      var declared := [Artifact(A, other, |artifact|)];
      var host := TwoFiles(manifest, artifact, declared, hash, locale);
      var receipt := Receipt([], M, hash(manifest), [Artifact(A, hash(artifact), |artifact|)]);
      && Verified(host, M, limits, receipt)
      && Declared(host, M, receipt) == declared
      && !ArtifactHolds(host, M, limits.artifact, declared[0])
  {
    var declared := [Artifact(A, other, |artifact|)];
    var host := TwoFiles(manifest, artifact, declared, hash, locale);
    var receipt := Receipt([], M, hash(manifest), [Artifact(A, hash(artifact), |artifact|)]);
    TwoFilesFound(manifest, artifact, declared, hash, locale);
    assert PathsOf(declared) == [A] == PathsOf(receipt.delivered);
    OkDespiteManifest(host, M, limits, receipt);
  }
}
