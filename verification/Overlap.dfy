/**
 The executor down to the awaits between which batches interleave, with restarts: what every run keeps
 (packages/core/src/actions/actionExecutor.ts, packages/core/src/state/actionLedger.ts).
 */
module Overlap {
  import opened Options
  import opened Lists
  import opened Actions

  // ---- Overlapping batches, handlers that settle at any time, and restarts ----

  datatype Phase =
    | Ready                     // about to look at the next finding
    | Awaiting(finding: Finding) // its handler is running
    | Settled(result: Result)   // executeAction has returned, its caller has not resumed
    | Over

  datatype Batch = Batch(findings: seq<Finding>, executed: nat, results: seq<Result>, phase: Phase)

  /** `calls`, `threw` and `produced` record every handler call, every call that threw and every result, across restarts. */
  datatype System = System(
    entries: Entries,
    file: Option<seq<Entry>>,
    batches: seq<Batch>,
    calls: seq<Finding>,
    threw: seq<Finding>,
    produced: seq<Result>)

  datatype Move =
    | Begin(findings: seq<Finding>)
    | Look(b: nat)                                      // one finding, up to the next await
    | HandlerSettles(b: nat, outcome: Option<string>, now: int)
    | Resume(b: nat)                                    // the batch takes the result
    | Restart                                           // the process dies and loads the file

  /** What the environment may do: let batches overlap, and let a restart cut a running handler off. */
  datatype Env = Env(overlaps: bool, cuts: bool)

  predicate AllOver(s: System) { forall b <- s.batches :: b.phase.Over? }

  predicate NoneAwaits(s: System) { forall b <- s.batches :: !b.phase.Awaiting? }

  predicate Legal(env: Env, s: System, m: Move) {
    match m
    case Begin(_) => env.overlaps || AllOver(s)
    case Look(b) => b < |s.batches| && s.batches[b].phase.Ready?
    case HandlerSettles(b, _, _) => b < |s.batches| && s.batches[b].phase.Awaiting?
    case Resume(b) => b < |s.batches| && s.batches[b].phase.Settled?
    case Restart => env.cuts || NoneAwaits(s)
  }

  function Looked(cfg: Config, s: System, b: nat): System
    requires b < |s.batches|
  {
    var batch := s.batches[b];
    if batch.findings == [] || batch.executed >= cfg.maxActionsPerBatch then
      s.(batches := s.batches[b := batch.(phase := Over)])
    else
      var f := batch.findings[0];
      var next := batch.(findings := batch.findings[1..]);
      if Skips(cfg, s.entries, f) then s.(batches := s.batches[b := next])
      else
        match WithoutHandler(cfg, f)
        case Some(r) => s.(batches := s.batches[b := next.(phase := Settled(r))], produced := s.produced + [r])
        case None => s.(batches := s.batches[b := next.(phase := Awaiting(f))], calls := s.calls + [f])
  }

  function Apply(cfg: Config, env: Env, s: System, m: Move): System
    requires Legal(env, s, m)
  {
    match m
    case Begin(findings) => s.(batches := s.batches + [Batch(findings, 0, [], Ready)])
    case Look(b) => Looked(cfg, s, b)
    case HandlerSettles(b, outcome, now) =>
      var batch := s.batches[b];
      var (entries, r) := Settle(cfg, s.entries, batch.phase.finding, outcome, now);
      System(
        entries,
        if entries == s.entries then s.file else Some(Saved(entries)),
        s.batches[b := batch.(phase := Settled(r))],
        s.calls,
        if outcome.None? then s.threw + [batch.phase.finding] else s.threw,
        s.produced + [r])
    case Resume(b) =>
      var batch := s.batches[b];
      var r := batch.phase.result;
      s.(batches := s.batches[b := batch.(
        phase := Ready,
        results := batch.results + [r],
        executed := if Real(r) then batch.executed + 1 else batch.executed)])
    case Restart => s.(batches := [], entries := if s.file.Some? then Loaded(s.file.value) else [])
  }

  predicate LegalRun(cfg: Config, env: Env, s: System, run: seq<Move>)
    decreases |run|
  {
    run == [] || (Legal(env, s, run[0]) && LegalRun(cfg, env, Apply(cfg, env, s, run[0]), run[1..]))
  }

  function Run(cfg: Config, env: Env, s: System, run: seq<Move>): System
    requires LegalRun(cfg, env, s, run)
    decreases |run|
  {
    if run == [] then s else Run(cfg, env, Apply(cfg, env, s, run[0]), run[1..])
  }

  lemma Unroll(cfg: Config, env: Env, s: System, m: Move, rest: seq<Move>)
    requires Legal(env, s, m) && LegalRun(cfg, env, Apply(cfg, env, s, m), rest)
    ensures LegalRun(cfg, env, s, [m] + rest) && Run(cfg, env, s, [m] + rest) == Run(cfg, env, Apply(cfg, env, s, m), rest)
  {
    assert ([m] + rest)[1..] == rest;
  }

  /** The outcome of the only batch of `s`, run to its end, is the one `ExecuteActions` promises. */
  ghost predicate Completes(cfg: Config, handler: Finding -> Option<string>, now: int, s: System, t: System)
    requires |s.batches| == 1
  {
    var b := s.batches[0];
    var (entries, rs) := Executed(cfg, handler, now, s.entries, b.findings, b.executed);
    && t.entries == entries
    && t.produced == s.produced + rs
    && |t.batches| == 1 && t.batches[0].phase.Over? && t.batches[0].results == b.results + rs
  }

  /** The only batch of `s` has performed its first finding, and nothing else has happened. */
  ghost predicate TookOne(cfg: Config, handler: Finding -> Option<string>, now: int, s: System, t: System) {
    && |s.batches| == 1 && s.batches[0].findings != []
    && var b := s.batches[0];
      var performed := Performed(cfg, handler, now, s.entries, b.findings[0]);
      && t.entries == performed.0 && t.produced == s.produced + [performed.1]
      && t.batches ==
           [Batch(b.findings[1..], if Real(performed.1) then b.executed + 1 else b.executed, b.results + [performed.1], Ready)]
  }

  lemma OneFinding(cfg: Config, env: Env, handler: Finding -> Option<string>, now: int, s: System) returns (run: seq<Move>)
    requires |s.batches| == 1 && s.batches[0].phase.Ready?
    requires s.batches[0].findings != [] && s.batches[0].executed < cfg.maxActionsPerBatch
    requires !Skips(cfg, s.entries, s.batches[0].findings[0])
    ensures LegalRun(cfg, env, s, run)
    ensures TookOne(cfg, handler, now, s, Run(cfg, env, s, run))
  {
    var f := s.batches[0].findings[0];
    var s1 := Apply(cfg, env, s, Look(0));
    if WithoutHandler(cfg, f).Some? {
      Unroll(cfg, env, s1, Resume(0), []);
      Unroll(cfg, env, s, Look(0), [Resume(0)] + []);
      run := [Look(0)] + ([Resume(0)] + []);
    } else {
      var settles := HandlerSettles(0, handler(f), now);
      Unroll(cfg, env, Apply(cfg, env, s1, settles), Resume(0), []);
      Unroll(cfg, env, s1, settles, [Resume(0)] + []);
      Unroll(cfg, env, s, Look(0), [settles] + ([Resume(0)] + []));
      run := [Look(0)] + ([settles] + ([Resume(0)] + []));
    }
  }

  /** Without interleaving the moves of a batch add up to the sequential procedure. */
  lemma {:induction false} LoneBatch(cfg: Config, env: Env, handler: Finding -> Option<string>, now: int, s: System) returns (run: seq<Move>)
    requires |s.batches| == 1 && s.batches[0].phase.Ready?
    ensures LegalRun(cfg, env, s, run) && Completes(cfg, handler, now, s, Run(cfg, env, s, run))
    decreases |s.batches[0].findings|
  {
    var b := s.batches[0];
    if b.findings == [] || b.executed >= cfg.maxActionsPerBatch {
      Unroll(cfg, env, s, Look(0), []);
      run := [Look(0)] + [];
    } else if Skips(cfg, s.entries, b.findings[0]) {
      var rest := LoneBatch(cfg, env, handler, now, Apply(cfg, env, s, Look(0)));
      Unroll(cfg, env, s, Look(0), rest);
      run := [Look(0)] + rest;
    } else {
      var first := OneFinding(cfg, env, handler, now, s);
      var t := Run(cfg, env, s, first);
      var rest := LoneBatch(cfg, env, handler, now, t);
      RunAppend(cfg, env, s, first, rest);
      AfterFinding(cfg, handler, now, s, t, Run(cfg, env, t, rest));
      run := first + rest;
    }
  }

  lemma AfterFinding(cfg: Config, handler: Finding -> Option<string>, now: int, s: System, t: System, u: System)
    requires |s.batches| == 1 && s.batches[0].findings != [] && s.batches[0].executed < cfg.maxActionsPerBatch
    requires !Skips(cfg, s.entries, s.batches[0].findings[0])
    requires TookOne(cfg, handler, now, s, t) && Completes(cfg, handler, now, t, u)
    ensures Completes(cfg, handler, now, s, u)
  {
    var b := s.batches[0];
    var r := Performed(cfg, handler, now, s.entries, b.findings[0]).1;
    var rs := Executed(cfg, handler, now, t.entries, t.batches[0].findings, t.batches[0].executed).1;
    Associative(s.produced, [r], rs);
    Associative(b.results, [r], rs);
  }

  /** A process that has just loaded a ledger some earlier process saved. */
  ghost predicate Initial(s: System) {
    && s.batches == [] && s.calls == [] && s.produced == []
    && Keyed(s.entries)
    && s.file == if s.entries == [] && s.file.None? then None else Some(Saved(s.entries))
  }

  predicate Counts(r: Result) { Real(r) && r.finding.receiptId != "" }

  /** The real successes that carry a receipt. */
  function Acted(produced: seq<Result>): seq<Result> {
    if produced == [] then []
    else
      var front, last := produced[..|produced| - 1], produced[|produced| - 1];
      if Counts(last) then Acted(front) + [last] else Acted(front)
  }

  /** The entry records this success. */
  predicate Records(cfg: Config, entry: (string, Entry), r: Result) {
    && entry.0 == cfg.lower(r.finding.receiptId)
    && r.txHash == Some(entry.1.txHash)
    && entry.1.findingId == r.finding.id
    && entry.1.actionType == r.finding.recommendedAction
    && entry.1.blockNumber == r.finding.blockNumber
  }

  /** The ledger is the one found at the start followed by one entry for each success with a receipt, in order. */
  ghost predicate Accounts(cfg: Config, found: nat, entries: Entries, produced: seq<Result>) {
    var acted := Acted(produced);
    && |entries| == found + |acted|
    && forall i :: 0 <= i < |acted| ==> Records(cfg, entries[found + i], acted[i])
  }

  ghost predicate Safe(cfg: Config, found: nat, s: System) {
    && Keyed(s.entries)
    && (s.file == Some(Saved(s.entries)) || (s.file == None && s.entries == []))
    && Accounts(cfg, found, s.entries, s.produced)
  }

  lemma SettleSafe(cfg: Config, found: nat, s: System, f: Finding, outcome: Option<string>, now: int)
    requires Safe(cfg, found, s)
    ensures
      var (entries, r) := Settle(cfg, s.entries, f, outcome, now);
      Keyed(entries) && Accounts(cfg, found, entries, s.produced + [r])
  {
    var (entries, r) := Settle(cfg, s.entries, f, outcome, now);
    if Counts(r) {
      var key := cfg.lower(f.receiptId);
      assert outcome.Some? && !HasActed(cfg, s.entries, f.receiptId);
      var entry := (key, EntryFor(cfg, f, outcome.value, now));
      AccountsMore(cfg, found, s.entries, s.produced, r, entry);
      forall i | 0 <= i < |s.entries| ensures entries[i].0 != key {
        assert s.entries[i].0 != key;
      }
    } else {
      assert entries == s.entries;
      AccountsKept(cfg, found, s.entries, s.produced, r);
    }
  }

  lemma StepSafe(cfg: Config, env: Env, found: nat, s: System, m: Move)
    requires Safe(cfg, found, s) && Legal(env, s, m)
    ensures Safe(cfg, found, Apply(cfg, env, s, m))
    ensures s.entries <= Apply(cfg, env, s, m).entries
  {
    match m
    case HandlerSettles(b, outcome, now) => SettleSafe(cfg, found, s, s.batches[b].phase.finding, outcome, now);
    case Restart => LoadSaved(s.entries);
    case Look(b) => LookSafe(cfg, env, found, s, b);
    case _ =>
  }

  /** Looking leaves ledger and file alone, and produces a result only where no handler is called. */
  lemma LookProduces(cfg: Config, s: System, b: nat, t: System)
    requires b < |s.batches| && t == Looked(cfg, s, b)
    ensures t.entries == s.entries && t.file == s.file
    ensures t.produced == s.produced || exists f :: WithoutHandler(cfg, f).Some? && t.produced == s.produced + [WithoutHandler(cfg, f).value]
  {
    if s.batches[b].findings != [] && WithoutHandler(cfg, s.batches[b].findings[0]).Some? {
      var f := s.batches[b].findings[0];
      assert t.produced == s.produced || t.produced == s.produced + [WithoutHandler(cfg, f).value];
    }
  }

  lemma LookSafe(cfg: Config, env: Env, found: nat, s: System, b: nat)
    requires Safe(cfg, found, s) && Legal(env, s, Look(b))
    ensures Safe(cfg, found, Apply(cfg, env, s, Look(b)))
    ensures s.entries == Apply(cfg, env, s, Look(b)).entries
  {
    var t := Looked(cfg, s, b);
    LookProduces(cfg, s, b, t);
    if t.produced != s.produced {
      var f :| WithoutHandler(cfg, f).Some? && t.produced == s.produced + [WithoutHandler(cfg, f).value];
      AccountsKept(cfg, found, s.entries, s.produced, WithoutHandler(cfg, f).value);
    }
  }

  lemma ActedMore(produced: seq<Result>, r: Result)
    ensures Counts(r) ==> Acted(produced + [r]) == Acted(produced) + [r]
    ensures !Counts(r) ==> Acted(produced + [r]) == Acted(produced)
  {
    assert (produced + [r])[..|produced|] == produced;
  }

  /** A result that does not count needs no entry. */
  lemma AccountsKept(cfg: Config, found: nat, entries: Entries, produced: seq<Result>, r: Result)
    requires Accounts(cfg, found, entries, produced) && !Counts(r)
    ensures Accounts(cfg, found, entries, produced + [r])
  {
    ActedMore(produced, r);
  }

  /** One that counts needs an entry of its own. */
  lemma AccountsMore(cfg: Config, found: nat, entries: Entries, produced: seq<Result>, r: Result, entry: (string, Entry))
    requires Accounts(cfg, found, entries, produced) && Counts(r) && Records(cfg, entry, r)
    ensures Accounts(cfg, found, entries + [entry], produced + [r])
  {
    ActedMore(produced, r);
  }

  lemma {:induction false} RunSafe(cfg: Config, env: Env, found: nat, s: System, run: seq<Move>)
    requires Safe(cfg, found, s) && LegalRun(cfg, env, s, run)
    ensures Safe(cfg, found, Run(cfg, env, s, run))
    ensures s.entries <= Run(cfg, env, s, run).entries
    decreases |run|
  {
    if run != [] {
      StepSafe(cfg, env, found, s, run[0]);
      RunSafe(cfg, env, found, Apply(cfg, env, s, run[0]), run[1..]);
    }
  }

  /** `r` is the i-th result of all time. */
  predicate ActedOn(produced: seq<Result>, i: int, cfg: Config, key: string) {
    0 <= i < |produced| && Counts(produced[i]) && cfg.lower(produced[i].finding.receiptId) == key
  }

  /** The position among the successes of the success at position `i`. */
  function Rank(produced: seq<Result>, i: nat): (n: nat)
    requires i < |produced| && Counts(produced[i])
    ensures n < |Acted(produced)| && Acted(produced)[n] == produced[i]
    decreases |produced|
  {
    var last := |produced| - 1;
    if i == last then |Acted(produced)| - 1
    else
      assert produced[..last][i] == produced[i];
      Rank(produced[..last], i)
  }

  lemma {:induction false} RankMonotone(produced: seq<Result>, i: nat, j: nat)
    requires i < j < |produced|
    requires Counts(produced[i])
    requires Counts(produced[j])
    ensures Rank(produced, i) < Rank(produced, j)
    decreases |produced|
  {
    var last := |produced| - 1;
    if j < last {
      RankMonotone(produced[..last], i, j);
    }
  }

  /**
   Whatever batches overlap, whenever handlers settle and however often the process restarts: at most
   one real success is ever produced per lower-cased receipt, none for a receipt in the ledger found
   at the start, and each is in the saved file with its own transaction.
   */
  lemma AtMostOneSuccessPerReceipt(cfg: Config, env: Env, s: System, run: seq<Move>, i: nat, j: nat, key: string)
    requires Initial(s) && LegalRun(cfg, env, s, run)
    requires ActedOn(Run(cfg, env, s, run).produced, i, cfg, key) && ActedOn(Run(cfg, env, s, run).produced, j, cfg, key)
    ensures i == j
    ensures !Has(s.entries, key)
    ensures
      var t := Run(cfg, env, s, run);
      t.file.Some? && exists e <- t.file.value :: Records(cfg, (key, e), t.produced[i])
  {
    var found := |s.entries|;
    var t := Run(cfg, env, s, run);
    RunSafe(cfg, env, found, s, run);
    RecordedAt(cfg, found, t, i, key);
    RecordedAt(cfg, found, t, j, key);
    if i < j {
      RankMonotone(t.produced, i, j);
    } else if j < i {
      RankMonotone(t.produced, j, i);
    }
    forall k | 0 <= k < found ensures s.entries[k].0 != key {
      assert t.entries[k] == s.entries[k];
    }
  }

  /** The success has its own entry, after those found at the start, and in the file. */
  lemma RecordedAt(cfg: Config, found: nat, t: System, i: nat, key: string)
    requires Safe(cfg, found, t) && ActedOn(t.produced, i, cfg, key)
    ensures found + Rank(t.produced, i) < |t.entries| && t.entries[found + Rank(t.produced, i)].0 == key
    ensures t.file.Some? && exists e <- t.file.value :: Records(cfg, (key, e), t.produced[i])
  {
    var n := found + Rank(t.produced, i);
    assert Records(cfg, t.entries[n], t.produced[i]);
    assert t.file.value[n] == t.entries[n].1 && t.file.value[n] in t.file.value;
  }

  // ---- The limit of a batch ----

  function RealCount(results: seq<Result>): nat {
    if results == [] then 0
    else RealCount(results[..|results| - 1]) + (if Real(results[|results| - 1]) then 1 else 0)
  }

  function Limit(cfg: Config): nat { if cfg.maxActionsPerBatch < 0 then 0 else cfg.maxActionsPerBatch }

  /** The real successes of a batch, the one it has yet to take included. */
  function Successes(b: Batch): nat {
    RealCount(b.results) + (if b.phase.Settled? && Real(b.phase.result) then 1 else 0)
  }

  ghost predicate WithinLimit(cfg: Config, b: Batch) {
    && b.executed == RealCount(b.results)
    && b.executed + (if b.phase.Awaiting? || b.phase.Settled? then 1 else 0) <= Limit(cfg)
  }

  lemma StepWithinLimit(cfg: Config, env: Env, s: System, m: Move)
    requires Legal(env, s, m) && forall b <- s.batches :: WithinLimit(cfg, b)
    ensures forall b <- Apply(cfg, env, s, m).batches :: WithinLimit(cfg, b)
  {
    var s' := Apply(cfg, env, s, m);
    forall b | b in s'.batches ensures WithinLimit(cfg, b) {
      if b !in s.batches {
        match m
        case Begin(_) =>
        case Resume(i) =>
          assert s.batches[i] in s.batches;
          assert b.results[..|b.results| - 1] == s.batches[i].results;
        case Look(i) => assert s.batches[i] in s.batches;
        case HandlerSettles(i, _, _) => assert s.batches[i] in s.batches;
        case Restart =>
      }
    }
  }

  /** No batch produces more real successes than `maxActionsPerBatch`, whatever runs beside it. */
  lemma {:induction false} BatchesWithinLimit(cfg: Config, env: Env, s: System, run: seq<Move>)
    requires LegalRun(cfg, env, s, run) && forall b <- s.batches :: WithinLimit(cfg, b)
    ensures forall b <- Run(cfg, env, s, run).batches :: WithinLimit(cfg, b) && Successes(b) <= Limit(cfg)
    decreases |run|
  {
    if run != [] {
      StepWithinLimit(cfg, env, s, run[0]);
      BatchesWithinLimit(cfg, env, Apply(cfg, env, s, run[0]), run[1..]);
    }
  }

  lemma {:induction false} RunAppend(cfg: Config, env: Env, s: System, xs: seq<Move>, ys: seq<Move>)
    requires LegalRun(cfg, env, s, xs) && LegalRun(cfg, env, Run(cfg, env, s, xs), ys)
    ensures LegalRun(cfg, env, s, xs + ys) && Run(cfg, env, s, xs + ys) == Run(cfg, env, Run(cfg, env, s, xs), ys)
    decreases |xs|
  {
    if xs == [] {
      assert xs + ys == ys;
    } else {
      assert (xs + ys)[1..] == xs[1..] + ys;
      RunAppend(cfg, env, Apply(cfg, env, s, xs[0]), xs[1..], ys);
    }
  }
}
