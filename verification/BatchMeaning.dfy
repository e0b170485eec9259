/** What one action and one batch do, in the source's own terms (packages/core/src/actions/actionExecutor.ts). */
module BatchMeaning {
  import opened Options
  import opened Actions

  // ---- One action ----

  /** The receipt can be recorded: the ledger knows the type and not the receipt. */
  predicate CanRecord(cfg: Config, entries: Entries, f: Finding) {
    Mapped(f.recommendedAction) && !HasActed(cfg, entries, f.receiptId)
  }

  /** A handler is called, returns, and what it did can be recorded or needs no record. */
  predicate Succeeds(cfg: Config, handler: Finding -> Option<string>, entries: Entries, f: Finding) {
    && !cfg.dryRun && f.recommendedAction in cfg.handlers && handler(f).Some?
    && (f.receiptId == "" || CanRecord(cfg, entries, f))
  }

  /** The new entry names receipt, type, transaction, block, time and finding. */
  predicate EntryHolds(cfg: Config, entry: (string, Entry), f: Finding, txHash: string, now: int) {
    && entry.0 == entry.1.receiptId == cfg.lower(f.receiptId)
    && entry.1.actionType == f.recommendedAction
    && entry.1.txHash == txHash
    && entry.1.blockNumber == f.blockNumber
    && entry.1.timestamp == now
    && entry.1.findingId == f.id
  }

  /** An action succeeds for real exactly under its conditions, a dry run always and only on paper; the ledger gains an entry for a real success with a receipt. */
  lemma ActionMeans(cfg: Config, handler: Finding -> Option<string>, now: int, entries: Entries, f: Finding)
    ensures
      var (next, r) := Performed(cfg, handler, now, entries, f);
      && r.finding == f && r.dryRun == cfg.dryRun
      && (Real(r) <==> Succeeds(cfg, handler, entries, f))
      && (r.dryRun ==> r.success)
      && r.txHash == (if Real(r) then handler(f) else None)
      && entries <= next
      && |next| == |entries| + (if Real(r) && f.receiptId != "" then 1 else 0)
      && (Real(r) && f.receiptId != "" ==> EntryHolds(cfg, next[|entries|], f, handler(f).value, now))
  {
  }

  // ---- One batch ----

  function FindingsOf(results: seq<Result>): seq<Finding> {
    if results == [] then [] else [results[0].finding] + FindingsOf(results[1..])
  }

  /** `xs` is `ys` with some elements left out. */
  predicate LeavesOut(xs: seq<Finding>, ys: seq<Finding>) {
    if xs == [] then true
    else if ys == [] then false
    else (xs[0] == ys[0] && LeavesOut(xs[1..], ys[1..])) || LeavesOut(xs, ys[1..])
  }

  function RealOnes(results: seq<Result>): nat {
    if results == [] then 0 else (if Real(results[0]) then 1 else 0) + RealOnes(results[1..])
  }

  predicate HasResult(results: seq<Result>, f: Finding) { exists r <- results :: r.finding == f }

  /** The finding asks for nothing, or its receipt is in the ledger. */
  predicate NeedsNothing(cfg: Config, entries: Entries, f: Finding) {
    f.recommendedAction == NONE || (f.receiptId != "" && Has(entries, cfg.lower(f.receiptId)))
  }

  lemma StillHas(entries: Entries, next: Entries, key: string)
    requires entries <= next && Has(entries, key)
    ensures Has(next, key)
  {
    var i :| 0 <= i < |entries| && entries[i].0 == key;
    assert next[i].0 == key;
  }

  /** The ledger only grows, results come in the order of the findings, and none is about a finding that needs nothing. */
  lemma {:induction false} BatchInOrder(cfg: Config, handler: Finding -> Option<string>, now: int, entries: Entries, findings: seq<Finding>, executed: int)
    ensures
      var (last, rs) := Executed(cfg, handler, now, entries, findings, executed);
      && entries <= last
      && LeavesOut(FindingsOf(rs), findings)
      && forall r <- rs :: !NeedsNothing(cfg, entries, r.finding)
    decreases |findings|
  {
    if findings == [] || executed >= cfg.maxActionsPerBatch {
    } else if Skips(cfg, entries, findings[0]) {
      BatchInOrder(cfg, handler, now, entries, findings[1..], executed);
    } else {
      var f := findings[0];
      var (next, r) := Performed(cfg, handler, now, entries, f);
      var e := if Real(r) then executed + 1 else executed;
      ActionMeans(cfg, handler, now, entries, f);
      BatchInOrder(cfg, handler, now, next, findings[1..], e);
      var (last, rs) := Executed(cfg, handler, now, next, findings[1..], e);
      forall x | x in rs ensures !NeedsNothing(cfg, entries, x.finding) {
        if x.finding.receiptId != "" && Has(entries, cfg.lower(x.finding.receiptId)) {
          StillHas(entries, next, cfg.lower(x.finding.receiptId));
        }
      }
      assert ([r] + rs)[1..] == rs;
    }
  }

  /** A batch that does not reach its limit leaves no finding over: each has a result, asks for nothing or is recorded in the end. */
  lemma {:induction false} BatchIsComplete(cfg: Config, handler: Finding -> Option<string>, now: int, entries: Entries, findings: seq<Finding>, executed: int)
    ensures
      var (last, rs) := Executed(cfg, handler, now, entries, findings, executed);
      && (executed <= cfg.maxActionsPerBatch ==> executed + RealOnes(rs) <= cfg.maxActionsPerBatch)
      && (executed + RealOnes(rs) < cfg.maxActionsPerBatch ==>
            forall f <- findings :: HasResult(rs, f) || NeedsNothing(cfg, last, f))
    decreases |findings|
  {
    if findings == [] || executed >= cfg.maxActionsPerBatch {
    } else {
      var f := findings[0];
      var skipped := Skips(cfg, entries, f);
      var (next, r) := if skipped then (entries, Failure(f)) else Performed(cfg, handler, now, entries, f);
      var e := if !skipped && Real(r) then executed + 1 else executed;
      ActionMeans(cfg, handler, now, entries, f);
      BatchIsComplete(cfg, handler, now, next, findings[1..], e);
      BatchInOrder(cfg, handler, now, next, findings[1..], e);
      var (last, rest) := Executed(cfg, handler, now, next, findings[1..], e);
      var rs := if skipped then rest else [r] + rest;
      assert ([r] + rest)[1..] == rest && findings == [f] + findings[1..];
      if skipped && f.recommendedAction != NONE {
        StillHas(entries, last, cfg.lower(f.receiptId));
      }
      forall g | g in findings[1..] && HasResult(rest, g) ensures HasResult(rs, g) {
        var x :| x in rest && x.finding == g;
        assert x in rs;
      }
      if !skipped {
        assert r in rs && HasResult(rs, f);
      }
    }
  }

  function OnPaper(f: Finding): Result { Result(true, true, None, f) }

  /** The findings that ask for something and are not recorded, each reported as done on paper. */
  function Rehearsed(cfg: Config, entries: Entries, findings: seq<Finding>): seq<Result> {
    if findings == [] then []
    else (if NeedsNothing(cfg, entries, findings[0]) then [] else [OnPaper(findings[0])]) + Rehearsed(cfg, entries, findings[1..])
  }

  /** A dry run reports every such finding, whatever the handlers and however many there are, and leaves the ledger as it is. */
  lemma {:induction false} DryRunRehearses(cfg: Config, handler: Finding -> Option<string>, now: int, entries: Entries, findings: seq<Finding>, executed: int)
    requires cfg.dryRun
    ensures Executed(cfg, handler, now, entries, findings, executed) ==
              (entries, if executed >= cfg.maxActionsPerBatch then [] else Rehearsed(cfg, entries, findings))
    decreases |findings|
  {
    if findings != [] && executed < cfg.maxActionsPerBatch {
      DryRunRehearses(cfg, handler, now, entries, findings[1..], executed);
      assert [] + Rehearsed(cfg, entries, findings[1..]) == Rehearsed(cfg, entries, findings[1..]);
    }
  }
}
