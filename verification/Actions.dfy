/**
 The action executor and its idempotency ledger
 (packages/core/src/actions/actionExecutor.ts, packages/core/src/state/actionLedger.ts).
 */
module Actions {
  import opened Options
  import opened Lists

  datatype ActionType = NONE | OPEN_DISPUTE | SUBMIT_EVIDENCE | ESCALATE | NOTIFY | MANUAL_REVIEW

  /** An empty `receiptId` stands for an absent one: the source treats both alike. */
  datatype Finding = Finding(id: string, receiptId: string, recommendedAction: ActionType, blockNumber: int)

  datatype Entry = Entry(receiptId: string, actionType: ActionType, txHash: string, blockNumber: int, timestamp: int, findingId: string)

  // ---- The ledger: a JavaScript Map in insertion order, and the file it is saved to ----

  type Entries = seq<(string, Entry)>

  predicate Has(entries: Entries, key: string) {
    exists i :: 0 <= i < |entries| && entries[i].0 == key
  }

  /** Sets an entry of the map: in place where the key is known, last where it is new. */
  function Put(entries: Entries, key: string, entry: Entry): Entries {
    if entries == [] then [(key, entry)]
    else if entries[0].0 == key then [(key, entry)] + entries[1..]
    else [entries[0]] + Put(entries[1..], key, entry)
  }

  /** The entries in insertion order: what is written to the file. */
  function Saved(entries: Entries): (file: seq<Entry>)
    ensures |file| == |entries|
    ensures forall i :: 0 <= i < |entries| ==> file[i] == entries[i].1
  {
    seq(|entries|, i requires 0 <= i < |entries| => entries[i].1)
  }

  /** The Map that reading the file back builds. */
  function Loaded(file: seq<Entry>): Entries {
    if file == [] then []
    else
      var last := file[|file| - 1];
      Put(Loaded(file[..|file| - 1]), last.receiptId, last)
  }

  /** Keys are distinct and repeat the receipt of their entry. */
  predicate Keyed(entries: Entries) {
    && (forall i, j :: 0 <= i < j < |entries| ==> entries[i].0 != entries[j].0)
    && (forall i :: 0 <= i < |entries| ==> entries[i].0 == entries[i].1.receiptId)
  }

  lemma {:induction false} PutNew(entries: Entries, key: string, entry: Entry)
    requires !Has(entries, key)
    ensures Put(entries, key, entry) == entries + [(key, entry)]
  {
    if entries != [] {
      assert entries[0].0 != key;
      assert !Has(entries[1..], key) by {
        forall i | 0 <= i < |entries[1..]| ensures entries[1..][i].0 != key {
          assert entries[1..][i] == entries[i + 1];
        }
      }
      PutNew(entries[1..], key, entry);
    }
  }

  /** Setting a key gives it the entry in its old place, or in a new last one, and leaves all else alone. */
  lemma {:induction false} PutSets(entries: Entries, key: string, entry: Entry)
    ensures
      var after := Put(entries, key, entry);
      && |after| == |entries| + (if Has(entries, key) then 0 else 1)
      && (forall i :: 0 <= i < |entries| ==> after[i].0 == entries[i].0)
      && (forall i :: 0 <= i < |entries| && entries[i].0 != key ==> after[i] == entries[i])
      && exists i :: 0 <= i < |after| && after[i] == (key, entry)
  {
    if entries == [] {
      assert Put(entries, key, entry)[0] == (key, entry);
    } else if entries[0].0 == key {
      assert Put(entries, key, entry)[0] == (key, entry);
    } else {
      var tail := entries[1..];
      PutSets(tail, key, entry);
      assert Has(tail, key) <==> Has(entries, key) by {
        if i :| 0 <= i < |entries| && entries[i].0 == key {
          assert tail[i - 1].0 == key;
        }
        if i :| 0 <= i < |tail| && tail[i].0 == key {
          assert entries[i + 1].0 == key;
        }
      }
      var i :| 0 <= i < |Put(tail, key, entry)| && Put(tail, key, entry)[i] == (key, entry);
      assert Put(entries, key, entry)[i + 1] == (key, entry);
    }
  }

  lemma LastIsNew(entries: Entries)
    requires Keyed(entries) && entries != []
    ensures !Has(entries[..|entries| - 1], entries[|entries| - 1].0)
  {
  }

  /** A restart finds the ledger that was last saved. */
  lemma {:induction false} LoadSaved(entries: Entries)
    requires Keyed(entries)
    ensures Loaded(Saved(entries)) == entries
  {
    if entries != [] {
      var last := |entries| - 1;
      LoadSaved(entries[..last]);
      assert Saved(entries)[..last] == Saved(entries[..last]);
      LastIsNew(entries);
      PutNew(entries[..last], entries[last].0, entries[last].1);
    }
  }

  /** The configuration; `lower` is `toLowerCase`, `handlers` the action types with a handler. */
  datatype Config = Config(dryRun: bool, maxActionsPerBatch: int, handlers: set<ActionType>, lower: string -> string)

  predicate HasActed(cfg: Config, entries: Entries, receiptId: string) {
    Has(entries, cfg.lower(receiptId))
  }

  function EntryFor(cfg: Config, f: Finding, txHash: string, now: int): Entry {
    Entry(cfg.lower(f.receiptId), f.recommendedAction, txHash, f.blockNumber, now, f.id)
  }

  class ActionLedger {
    var entries: Entries
    var file: Option<seq<Entry>>

    /** `disk` is the file's content, if it exists. */
    constructor (disk: Option<seq<Entry>>)
      ensures file == disk
      ensures entries == if disk.Some? then Loaded(disk.value) else []
    {
      file := disk;
      entries := [];
      new;
      Load();
    }

    method Load()
      requires entries == []
      modifies this`entries
      ensures entries == if file.Some? then Loaded(file.value) else []
    {
      if file.None? {
        return;
      }
      var serialized := file.value;
      for i := 0 to |serialized|
        invariant file == old(file)
        invariant entries == Loaded(serialized[..i])
      {
        entries := Put(entries, serialized[i].receiptId, serialized[i]);
        assert serialized[..i + 1][..i] == serialized[..i];
      }
      assert serialized[..|serialized|] == serialized;
    }

    method Save()
      modifies this`file
      ensures file == Some(Saved(entries))
    {
      file := Some(Saved(entries));
    }

    /** Fails, and changes nothing, when the receipt is already recorded. */
    method RecordAction(key: string, entry: Entry) returns (recorded: bool)
      modifies this
      ensures recorded == !Has(old(entries), key)
      ensures entries == if recorded then old(entries) + [(key, entry)] else old(entries)
      ensures file == if recorded then Some(Saved(entries)) else old(file)
    {
      if Has(entries, key) {
        return false;
      }
      PutNew(entries, key, entry);
      entries := Put(entries, key, entry);
      Save();
      recorded := true;
    }
  }

  // ---- One action ----

  datatype Result = Result(success: bool, dryRun: bool, txHash: Option<string>, finding: Finding)

  /** A success that was not a dry run. */
  predicate Real(r: Result) { r.success && !r.dryRun }

  function Failure(f: Finding): Result { Result(false, false, None, f) }

  /** The executor passes over this finding. */
  predicate Skips(cfg: Config, entries: Entries, f: Finding) {
    f.recommendedAction == NONE || (f.receiptId != "" && HasActed(cfg, entries, f.receiptId))
  }

  /** The result of `executeAction` when it does not come to call a handler. */
  function WithoutHandler(cfg: Config, f: Finding): Option<Result> {
    if cfg.dryRun then Some(Result(true, true, None, f))
    else if f.recommendedAction !in cfg.handlers then Some(Failure(f))
    else None
  }

  /** `mapActionType` throws on the other types. */
  predicate Mapped(a: ActionType) { a == OPEN_DISPUTE || a == SUBMIT_EVIDENCE }

  /** What `executeAction` does once the handler has settled: `outcome` is the transaction hash, or None if it threw. */
  function Settle(cfg: Config, entries: Entries, f: Finding, outcome: Option<string>, now: int): (Entries, Result) {
    match outcome
    case None => (entries, Failure(f))
    case Some(txHash) =>
      var done := Result(true, false, Some(txHash), f);
      if f.receiptId == "" then (entries, done)
      else if !Mapped(f.recommendedAction) || HasActed(cfg, entries, f.receiptId) then (entries, Failure(f))
      else (entries + [(cfg.lower(f.receiptId), EntryFor(cfg, f, txHash, now))], done)
  }

  // ---- One batch on its own ----

  /** Result and ledger for the finding at hand, when it is neither past the limit nor skipped. */
  function Performed(cfg: Config, handler: Finding -> Option<string>, now: int, entries: Entries, f: Finding): (Entries, Result) {
    match WithoutHandler(cfg, f)
    case Some(r) => (entries, r)
    case None => Settle(cfg, entries, f, handler(f), now)
  }

  /** Ledger and results after the remaining findings, `executed` real successes into the batch. */
  function Executed(cfg: Config, handler: Finding -> Option<string>, now: int, entries: Entries, findings: seq<Finding>, executed: int): (Entries, seq<Result>)
    decreases |findings|
  {
    if findings == [] || executed >= cfg.maxActionsPerBatch then (entries, [])
    else if Skips(cfg, entries, findings[0]) then Executed(cfg, handler, now, entries, findings[1..], executed)
    else
      var f := findings[0];
      var (next, r) := Performed(cfg, handler, now, entries, f);
      var (last, rs) := Executed(cfg, handler, now, next, findings[1..], if Real(r) then executed + 1 else executed);
      (last, [r] + rs)
  }

  method ExecuteAction(cfg: Config, ledger: ActionLedger, f: Finding, handler: Finding -> Option<string>, now: int) returns (r: Result)
    modifies ledger
    ensures (ledger.entries, r) == Performed(cfg, handler, now, old(ledger.entries), f)
    ensures ledger.file == if ledger.entries == old(ledger.entries) then old(ledger.file) else Some(Saved(ledger.entries))
  {
    if cfg.dryRun {
      return Result(true, true, None, f);
    }
    if f.recommendedAction !in cfg.handlers {
      return Failure(f);
    }
    var outcome := handler(f);
    if outcome.None? {
      return Failure(f);
    }
    if f.receiptId != "" {
      if !Mapped(f.recommendedAction) {
        return Failure(f);
      }
      var recorded := ledger.RecordAction(cfg.lower(f.receiptId), EntryFor(cfg, f, outcome.value, now));
      if !recorded {
        return Failure(f);
      }
    }
    r := Result(true, false, Some(outcome.value), f);
  }

  /** The whole outcome is what has been done followed by what remains. */
  ghost predicate Continues(whole: (Entries, seq<Result>), done: seq<Result>, rest: (Entries, seq<Result>)) {
    whole.0 == rest.0 && whole.1 == done + rest.1
  }

  lemma ContinuesOne(whole: (Entries, seq<Result>), done: seq<Result>, r: Result, rest: (Entries, seq<Result>))
    requires Continues(whole, done, (rest.0, [r] + rest.1))
    ensures Continues(whole, done + [r], rest)
  {
    Associative(done, [r], rest.1);
  }

  method ExecuteActions(cfg: Config, ledger: ActionLedger, findings: seq<Finding>, handler: Finding -> Option<string>, now: int)
      returns (results: seq<Result>)
    modifies ledger
    ensures (ledger.entries, results) == Executed(cfg, handler, now, old(ledger.entries), findings, 0)
  {
    results := [];
    var actionsExecuted := 0;
    ghost var whole := Executed(cfg, handler, now, ledger.entries, findings, 0);
    assert findings[0..] == findings && [] + whole.1 == whole.1;
    for i := 0 to |findings|
      invariant Continues(whole, results, Executed(cfg, handler, now, ledger.entries, findings[i..], actionsExecuted))
    {
      assert findings[i..][1..] == findings[i + 1..];
      if actionsExecuted >= cfg.maxActionsPerBatch {
        break;
      }
      var finding := findings[i];
      if finding.recommendedAction == NONE {
        continue;
      }
      if finding.receiptId != "" && HasActed(cfg, ledger.entries, finding.receiptId) {
        continue;
      }
      var result := ExecuteAction(cfg, ledger, finding, handler, now);
      ghost var done := results;
      results := results + [result];
      if result.success && !result.dryRun {
        actionsExecuted := actionsExecuted + 1;
      }
      ContinuesOne(whole, done, result, Executed(cfg, handler, now, ledger.entries, findings[i + 1..], actionsExecuted));
    }
    assert results + [] == results;
  }
}
