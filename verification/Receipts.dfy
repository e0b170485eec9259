/**
 Receipts made from a manifest, and what verifying them says of that manifest
 (packages/watchtower-core/src/integrations/solverReceiptV0.ts, packages/watchtower-core/src/behavior/ingestReceipt.ts).
 */
module Receipts {
  import opened Texts
  import opened Sorting
  import opened EvidenceCheck

  const MANIFEST_PATH: Text := Ascii("evidence/manifest.json")

  /** The receipt of a manifest: its artifacts by path. */
  function NormalizeReceipt(locale: (Text, Text) -> int, receiptId: Text, artifacts: seq<Artifact>, manifestSha256: Text): Receipt {
    Receipt(receiptId, MANIFEST_PATH, manifestSha256, Sort(PathOrder(locale), artifacts))
  }

  /** The manifest's place and hash, and the manifest's artifacts in ascending order of their paths. */
  lemma NormalizedHolds(locale: (Text, Text) -> int, receiptId: Text, artifacts: seq<Artifact>, manifestSha256: Text)
    requires TotalPreorder(locale)
    ensures
      var receipt := NormalizeReceipt(locale, receiptId, artifacts, manifestSha256);
      && receipt.receiptId == receiptId && receipt.manifestSha256 == manifestSha256
      && receipt.manifestPath == Ascii("evidence/manifest.json")
      && multiset(receipt.delivered) == multiset(artifacts)
      && forall i, j :: 0 <= i < j < |receipt.delivered| ==> locale(receipt.delivered[i].path, receipt.delivered[j].path) <= 0
  {
    var order := PathOrder(locale);
    OrderIsPreorder(locale);
    SortMultiset(order, artifacts);
    SortSorted(order, artifacts);
    forall i, j | 0 <= i < j < |Sort(order, artifacts)|
      ensures locale(Sort(order, artifacts)[i].path, Sort(order, artifacts)[j].path) <= 0
    {
      assert order(Sort(order, artifacts)[i], Sort(order, artifacts)[j]) <= 0;
    }
  }

  lemma OrderIsPreorder(locale: (Text, Text) -> int)
    requires TotalPreorder(locale)
    ensures TotalPreorder(PathOrder(locale))
  {
    var order := PathOrder(locale);
    forall x, y ensures Opposite(order, x, y) {
      assert Opposite(locale, x.path, y.path);
    }
    forall x, y, z ensures Transitive(order, x, y, z) {
      assert Transitive(locale, x.path, y.path, z.path);
    }
  }

  /** The list comparison always succeeds, commas or not. */
  lemma OwnListMatches(locale: (Text, Text) -> int, receiptId: Text, artifacts: seq<Artifact>, manifestSha256: Text)
    requires TotalPreorder(locale)
    ensures Matches(locale, artifacts, NormalizeReceipt(locale, receiptId, artifacts, manifestSha256).delivered)
  {
    OrderIsPreorder(locale);
    SortSorted(PathOrder(locale), artifacts);
    SortedStays(PathOrder(locale), Sort(PathOrder(locale), artifacts));
  }

  /** The file at this path in the run directory is within the limit and has these bytes. */
  predicate InPlace(host: Host, runDir: Text, path: Text, max: int, bytes: Bytes) {
    match Look(host, runDir, path)
    case File(size, Some(content)) => size <= max && content == bytes
    case _ => false
  }

  /**
   Reads a manifest, makes the receipt and verifies it. With a collision-free hash, `ok` means exactly that the manifest
   read is the one in the run directory and that the files meet everything it declares.
   */
  method CheckManifest(host: Host, runDir: Text, limits: Limits, receiptId: Text, bytes: Bytes) returns (ok: bool)
    ensures ok <==> host.parse(bytes).Manifest? && Verified(host, runDir, limits, ReceiptFor(host, receiptId, bytes))
    ensures TotalPreorder(host.locale) && Injective(host.hash) ==>
              (ok <==>
                && host.parse(bytes).Manifest?
                && InPlace(host, runDir, MANIFEST_PATH, limits.manifest, bytes)
                && AllHold(host, runDir, limits.artifact, host.parse(bytes).artifacts))
  {
    var manifest := host.parse(bytes);
    if !manifest.Manifest? {
      return false;
    }
    var receipt := NormalizeReceipt(host.locale, receiptId, manifest.artifacts, host.hash(bytes));
    var r := VerifyEvidence(host, runDir, limits, receipt);
    if TotalPreorder(host.locale) && Injective(host.hash) {
      OwnReceiptVerified(host, runDir, limits, receiptId, bytes);
    }
    ok := r.ok;
  }

  /** The receipt of the manifest in these bytes. */
  function ReceiptFor(host: Host, receiptId: Text, bytes: Bytes): Receipt
    requires host.parse(bytes).Manifest?
  {
    NormalizeReceipt(host.locale, receiptId, host.parse(bytes).artifacts, host.hash(bytes))
  }

  lemma OwnReceiptVerified(host: Host, runDir: Text, limits: Limits, receiptId: Text, bytes: Bytes)
    requires TotalPreorder(host.locale) && Injective(host.hash) && host.parse(bytes).Manifest?
    ensures
      Verified(host, runDir, limits, ReceiptFor(host, receiptId, bytes))
      <==>
      && InPlace(host, runDir, MANIFEST_PATH, limits.manifest, bytes)
      && AllHold(host, runDir, limits.artifact, host.parse(bytes).artifacts)
  {
    var artifacts := host.parse(bytes).artifacts;
    OwnListMatches(host.locale, receiptId, artifacts, host.hash(bytes));
    SortMultiset(PathOrder(host.locale), artifacts);
    SameFile(host, runDir, MANIFEST_PATH, limits.manifest, bytes);
  }

  lemma SameFile(host: Host, runDir: Text, path: Text, max: int, bytes: Bytes)
    requires Injective(host.hash)
    ensures FileHolds(host, runDir, path, max, host.hash(bytes)) <==> InPlace(host, runDir, path, max, bytes)
    ensures InPlace(host, runDir, path, max, bytes) ==> FileBytes(host, runDir, path) == bytes
  {
    var found := Look(host, runDir, path);
    if found.File? && found.content.Some? {
      SameHash(host.hash, found.content.value, bytes);
    }
  }

  lemma SameHash(hash: Bytes -> Text, x: Bytes, y: Bytes)
    requires Injective(hash)
    ensures hash(x) == hash(y) <==> x == y
  {
  }
}
