/**
 How often a handler is called for one receipt, and exactly when that is at most once
 (packages/core/src/actions/actionExecutor.ts, packages/core/src/state/actionLedger.ts).
 */
module HandlerCalls {
  import opened Options
  import opened Actions
  import opened Overlap

  predicate KeyIs(cfg: Config, f: Finding, key: string) { f.receiptId != "" && cfg.lower(f.receiptId) == key }

  function CallsFor(cfg: Config, calls: seq<Finding>, key: string): nat {
    if calls == [] then 0
    else CallsFor(cfg, calls[..|calls| - 1], key) + (if KeyIs(cfg, calls[|calls| - 1], key) then 1 else 0)
  }

  /** The calls for a receipt that may have acted: they returned, are running, or were cut off by a restart. */
  function Effective(cfg: Config, s: System, key: string): int {
    CallsFor(cfg, s.calls, key) - CallsFor(cfg, s.threw, key)
  }

  lemma CallsForMore(cfg: Config, calls: seq<Finding>, f: Finding, key: string)
    ensures CallsFor(cfg, calls + [f], key) == CallsFor(cfg, calls, key) + (if KeyIs(cfg, f, key) then 1 else 0)
  {
    assert (calls + [f])[..|calls|] == calls;
  }

  // ---- After a receipt is recorded ----

  /** Once a receipt is in the ledger no handler is called for it again, restarts included. */
  lemma {:induction false} NoCallOnceRecorded(cfg: Config, env: Env, found: nat, s: System, run: seq<Move>, key: string)
    requires Safe(cfg, found, s) && LegalRun(cfg, env, s, run) && Has(s.entries, key)
    ensures CallsFor(cfg, Run(cfg, env, s, run).calls, key) == CallsFor(cfg, s.calls, key)
    decreases |run|
  {
    if run != [] {
      var s' := Apply(cfg, env, s, run[0]);
      StepSafe(cfg, env, found, s, run[0]);
      var i :| 0 <= i < |s.entries| && s.entries[i].0 == key;
      assert s'.entries[i].0 == key;
      if |s'.calls| > |s.calls| {
        assert s'.calls[..|s.calls|] == s.calls;
      }
      NoCallOnceRecorded(cfg, env, found, s', run[1..], key);
    }
  }

  // ---- Before that: serial batches whose handlers the ledger knows ----

  predicate Serial(env: Env) { !env.overlaps && !env.cuts }

  /** Every handler that can be called is one whose success the ledger records. */
  predicate AllMapped(cfg: Config) { forall a <- cfg.handlers :: a == NONE || Mapped(a) }

  /** Some batch awaits a handler for this receipt. */
  predicate InFlight(cfg: Config, batches: seq<Batch>, key: string) {
    exists b <- batches :: b.phase.Awaiting? && KeyIs(cfg, b.phase.finding, key)
  }

  predicate OthersOver(batches: seq<Batch>, b: nat) {
    forall i :: 0 <= i < |batches| && i != b ==> batches[i].phase.Over?
  }

  /** At most one batch is not over. */
  ghost predicate OneAtATime(batches: seq<Batch>) { exists b: nat :: OthersOver(batches, b) }

  /** What is awaited can be recorded: its type is mapped, and its receipt is not in the ledger. */
  predicate Recordable(cfg: Config, entries: Entries, phase: Phase) {
    phase.Awaiting? ==>
      && Mapped(phase.finding.recommendedAction)
      && (phase.finding.receiptId != "" ==> !HasActed(cfg, entries, phase.finding.receiptId))
  }

  /** Each effective call is in the ledger or in flight. */
  ghost predicate Tracked(cfg: Config, s: System, key: string) {
    Effective(cfg, s, key) <= (if Has(s.entries, key) then 1 else 0) + (if InFlight(cfg, s.batches, key) then 1 else 0)
  }

  ghost predicate Once(cfg: Config, s: System) {
    && OneAtATime(s.batches)
    && (forall b <- s.batches :: Recordable(cfg, s.entries, b.phase))
    && (forall key :: Tracked(cfg, s, key))
  }

  /** With the other batches over, what is in flight is what batch `b` awaits. */
  lemma FlightAt(cfg: Config, batches: seq<Batch>, b: nat, key: string)
    requires b < |batches| && OthersOver(batches, b)
    ensures InFlight(cfg, batches, key) <==> batches[b].phase.Awaiting? && KeyIs(cfg, batches[b].phase.finding, key)
  {
    assert batches[b] in batches;
  }

  lemma StillAlone(batches: seq<Batch>, b: nat, next: Batch)
    requires b < |batches| && OneAtATime(batches) && !batches[b].phase.Over?
    ensures OthersOver(batches, b) && OthersOver(batches[b := next], b) && OneAtATime(batches[b := next])
  {
  }

  /** Batch `b` moves on: it is enough that what it awaits afterwards is recordable and the receipts stay tracked. */
  lemma BatchMoves(cfg: Config, s: System, b: nat, s': System)
    requires Once(cfg, s) && b < |s.batches| && !s.batches[b].phase.Over?
    requires |s'.batches| == |s.batches| && s'.batches == s.batches[b := s'.batches[b]]
    requires Recordable(cfg, s'.entries, s'.batches[b].phase)
    requires forall key :: TrackedAt(cfg, s, b, key) ==> TrackedAt(cfg, s', b, key)
    ensures Once(cfg, s')
  {
    StillAlone(s.batches, b, s'.batches[b]);
    forall key ensures Tracked(cfg, s', key) {
      FlightAt(cfg, s.batches, b, key);
      FlightAt(cfg, s'.batches, b, key);
      assert Tracked(cfg, s, key);
      assert TrackedAt(cfg, s, b, key);
    }
    forall x | x in s'.batches ensures Recordable(cfg, s'.entries, x.phase) {
      var i :| 0 <= i < |s'.batches| && s'.batches[i] == x;
      assert i != b ==> x.phase.Over?;
    }
  }

  /** `Tracked`, when only batch `b` can be awaiting. */
  predicate TrackedAt(cfg: Config, s: System, b: nat, key: string)
    requires b < |s.batches|
  {
    var phase := s.batches[b].phase;
    Effective(cfg, s, key) <=
      (if Has(s.entries, key) then 1 else 0) + (if phase.Awaiting? && KeyIs(cfg, phase.finding, key) then 1 else 0)
  }

  lemma LookOnce(cfg: Config, env: Env, s: System, b: nat)
    requires AllMapped(cfg) && Once(cfg, s) && Legal(env, s, Look(b))
    ensures Once(cfg, Apply(cfg, env, s, Look(b)))
  {
    var s' := Apply(cfg, env, s, Look(b));
    forall key | TrackedAt(cfg, s, b, key) ensures TrackedAt(cfg, s', b, key) {
      LookTracked(cfg, env, s, b, key);
    }
    BatchMoves(cfg, s, b, s');
  }

  lemma LookTracked(cfg: Config, env: Env, s: System, b: nat, key: string)
    requires Legal(env, s, Look(b)) && TrackedAt(cfg, s, b, key)
    ensures TrackedAt(cfg, Apply(cfg, env, s, Look(b)), b, key)
  {
    var batch := s.batches[b];
    if batch.findings == [] || batch.executed >= cfg.maxActionsPerBatch || Skips(cfg, s.entries, batch.findings[0]) {
    } else if WithoutHandler(cfg, batch.findings[0]).None? {
      CallsForMore(cfg, s.calls, batch.findings[0], key);
      assert !Skips(cfg, s.entries, batch.findings[0]);
    }
  }

  lemma SettleOnce(cfg: Config, env: Env, s: System, b: nat, outcome: Option<string>, now: int)
    requires Once(cfg, s) && Legal(env, s, HandlerSettles(b, outcome, now))
    ensures Once(cfg, Apply(cfg, env, s, HandlerSettles(b, outcome, now)))
  {
    var s' := Apply(cfg, env, s, HandlerSettles(b, outcome, now));
    var f := s.batches[b].phase.finding;
    assert s.batches[b] in s.batches;
    assert Recordable(cfg, s.entries, s.batches[b].phase);
    forall key | TrackedAt(cfg, s, b, key) ensures TrackedAt(cfg, s', b, key) {
      if outcome.None? {
        CallsForMore(cfg, s.threw, f, key);
      } else {
        SettledIsRecorded(cfg, s.entries, f, outcome, now, key);
      }
    }
    BatchMoves(cfg, s, b, s');
  }

  lemma SettledIsRecorded(cfg: Config, entries: Entries, f: Finding, outcome: Option<string>, now: int, key: string)
    requires outcome.Some? && Recordable(cfg, entries, Awaiting(f))
    ensures
      var next := Settle(cfg, entries, f, outcome, now).0;
      Has(next, key) <==> Has(entries, key) || KeyIs(cfg, f, key)
  {
    var next := Settle(cfg, entries, f, outcome, now).0;
    if f.receiptId != "" {
      assert next[|entries|].0 == cfg.lower(f.receiptId);
      if i :| 0 <= i < |entries| && entries[i].0 == key {
        assert next[i].0 == key;
      }
    }
  }

  lemma BeginOnce(cfg: Config, env: Env, s: System, findings: seq<Finding>)
    requires !env.overlaps && Once(cfg, s) && Legal(env, s, Begin(findings))
    ensures Once(cfg, Apply(cfg, env, s, Begin(findings)))
  {
    var s' := Apply(cfg, env, s, Begin(findings));
    assert OthersOver(s'.batches, |s.batches|) by {
      forall i | 0 <= i < |s'.batches| && i != |s.batches| ensures s'.batches[i].phase.Over? {
        assert s'.batches[i] == s.batches[i] && s.batches[i] in s.batches;
      }
    }
    forall key ensures Tracked(cfg, s', key) {
      assert Tracked(cfg, s, key);
      FlightAt(cfg, s'.batches, |s.batches|, key);
    }
  }

  lemma RestartOnce(cfg: Config, env: Env, found: nat, s: System)
    requires !env.cuts && Once(cfg, s) && Safe(cfg, found, s) && Legal(env, s, Restart)
    ensures Once(cfg, Apply(cfg, env, s, Restart))
  {
    var s' := Apply(cfg, env, s, Restart);
    LoadSaved(s.entries);
    assert OthersOver(s'.batches, 0);
    forall key ensures Tracked(cfg, s', key) {
      assert Tracked(cfg, s, key);
    }
  }

  lemma StepOnce(cfg: Config, env: Env, found: nat, s: System, m: Move)
    requires Serial(env) && AllMapped(cfg) && Once(cfg, s) && Safe(cfg, found, s) && Legal(env, s, m)
    ensures Once(cfg, Apply(cfg, env, s, m))
  {
    match m
    case Begin(findings) => BeginOnce(cfg, env, s, findings);
    case Look(b) => LookOnce(cfg, env, s, b);
    case HandlerSettles(b, outcome, now) => SettleOnce(cfg, env, s, b, outcome, now);
    case Resume(b) => BatchMoves(cfg, s, b, Apply(cfg, env, s, m));
    case Restart => RestartOnce(cfg, env, found, s);
  }

  lemma {:induction false} RunOnce(cfg: Config, env: Env, found: nat, s: System, run: seq<Move>)
    requires Serial(env) && AllMapped(cfg) && Once(cfg, s) && Safe(cfg, found, s) && LegalRun(cfg, env, s, run)
    ensures Once(cfg, Run(cfg, env, s, run))
    decreases |run|
  {
    if run != [] {
      StepSafe(cfg, env, found, s, run[0]);
      StepOnce(cfg, env, found, s, run[0]);
      RunOnce(cfg, env, found, Apply(cfg, env, s, run[0]), run[1..]);
    }
  }

  /** Not in flight and in the ledger at once, so one effective call at most. */
  lemma OnceMeansOne(cfg: Config, s: System, key: string)
    requires Once(cfg, s)
    ensures Effective(cfg, s, key) <= 1
  {
    assert Tracked(cfg, s, key);
    if InFlight(cfg, s.batches, key) {
      var b :| b in s.batches && b.phase.Awaiting? && KeyIs(cfg, b.phase.finding, key);
      assert Recordable(cfg, s.entries, b.phase);
    }
  }

  // ---- Exactly when a handler is effectively called at most once per receipt ----

  predicate OneCallIn(cfg: Config, env: Env, s: System, run: seq<Move>, key: string) {
    LegalRun(cfg, env, s, run) ==> Effective(cfg, Run(cfg, env, s, run), key) <= 1
  }

  /** In every run from every ledger, each receipt has at most one effective handler call. */
  ghost predicate OneCallPerReceipt(cfg: Config, env: Env) {
    forall s, run, key :: Initial(s) ==> OneCallIn(cfg, env, s, run, key)
  }

  /** No handler can be called at all. */
  predicate NeverCalls(cfg: Config) {
    cfg.dryRun || cfg.maxActionsPerBatch <= 0 || forall a <- cfg.handlers :: a == NONE
  }

  const EMPTY: System := System([], None, [], [], [], [])

  function Awaits(f: Finding): Batch { Batch([], 0, [], Awaiting(f)) }

  /** A first batch calls the handler of its only finding. */
  lemma FirstCall(cfg: Config, env: Env, s: System, f: Finding, rest: seq<Move>)
    requires !cfg.dryRun && cfg.maxActionsPerBatch >= 1
    requires f.recommendedAction in cfg.handlers && f.recommendedAction != NONE
    requires s.batches == [] && s.entries == []
    requires LegalRun(cfg, env, s.(batches := [Awaits(f)], calls := s.calls + [f]), rest)
    ensures LegalRun(cfg, env, s, [Begin([f])] + ([Look(0)] + rest))
    ensures Run(cfg, env, s, [Begin([f])] + ([Look(0)] + rest)) ==
              Run(cfg, env, s.(batches := [Awaits(f)], calls := s.calls + [f]), rest)
  {
    var ready := s.(batches := [Batch([f], 0, [], Ready)]);
    assert [f][1..] == [] && ready.batches[0 := Awaits(f)] == [Awaits(f)];
    assert Apply(cfg, env, s, Begin([f])) == ready;
    assert Apply(cfg, env, ready, Look(0)) == s.(batches := [Awaits(f)], calls := s.calls + [f]);
    Unroll(cfg, env, ready, Look(0), rest);
    Unroll(cfg, env, s, Begin([f]), [Look(0)] + rest);
  }

  /** The process dies while the handler runs, and the next one finds no trace of the call. */
  function RestartRun(f: Finding): seq<Move> {
    [Begin([f])] + ([Look(0)] + ([Restart] + ([Begin([f])] + ([Look(0)] + []))))
  }

  lemma RestartCallsTwice(cfg: Config, env: Env, f: Finding)
    requires env.cuts && !cfg.dryRun && cfg.maxActionsPerBatch >= 1
    requires f.recommendedAction in cfg.handlers && f.recommendedAction != NONE && f.receiptId != ""
    ensures Initial(EMPTY) && LegalRun(cfg, env, EMPTY, RestartRun(f))
    ensures Run(cfg, env, EMPTY, RestartRun(f)).calls == [f, f] && Run(cfg, env, EMPTY, RestartRun(f)).threw == []
    ensures Effective(cfg, Run(cfg, env, EMPTY, RestartRun(f)), cfg.lower(f.receiptId)) == 2
  {
    var one := EMPTY.(batches := [Awaits(f)], calls := [f]);
    var dead := EMPTY.(calls := [f]);
    var two := EMPTY.(batches := [Awaits(f)], calls := [f] + [f]);
    assert [] + [f] == [f];
    FirstCall(cfg, env, dead, f, []);
    assert Apply(cfg, env, one, Restart) == dead;
    Unroll(cfg, env, one, Restart, [Begin([f])] + ([Look(0)] + []));
    FirstCall(cfg, env, EMPTY, f, [Restart] + ([Begin([f])] + ([Look(0)] + [])));
    TwoCalls(cfg, f);
  }

  /** Two batches that overlap: both find the ledger empty, both call, and both handlers return. */
  function OverlapRun(f: Finding, tx: string, tx': string, now: int): seq<Move> {
    [Begin([f])] + ([Look(0)] + ([Begin([f])] + ([Look(1)] + BothSettle(tx, tx', now))))
  }

  function BothSettle(tx: string, tx': string, now: int): seq<Move> {
    [HandlerSettles(0, Some(tx), now)] + ([HandlerSettles(1, Some(tx'), now)] + [])
  }

  function BothAwait(f: Finding): System { EMPTY.(batches := [Awaits(f), Awaits(f)], calls := [f, f]) }

  /** The first return is recorded; the second finds the receipt taken and is reported as failed. */
  lemma BothReturn(cfg: Config, env: Env, f: Finding, tx: string, tx': string, now: int)
    requires Mapped(f.recommendedAction) && f.receiptId != ""
    ensures LegalRun(cfg, env, BothAwait(f), BothSettle(tx, tx', now))
    ensures
      var t := Run(cfg, env, BothAwait(f), BothSettle(tx, tx', now));
      t.calls == [f, f] && t.threw == [] && t.produced == [Result(true, false, Some(tx), f), Failure(f)]
  {
    var first, second := HandlerSettles(0, Some(tx), now), HandlerSettles(1, Some(tx'), now);
    var s1 := Apply(cfg, env, BothAwait(f), first);
    var entry := (cfg.lower(f.receiptId), EntryFor(cfg, f, tx, now));
    assert !HasActed(cfg, [], f.receiptId) && [] + [entry] == [entry];
    assert s1.entries == [entry] && s1.produced == [Result(true, false, Some(tx), f)];
    assert HasActed(cfg, s1.entries, f.receiptId) by {
      assert s1.entries[0].0 == cfg.lower(f.receiptId);
    }
    assert s1.batches[1] == Awaits(f);
    Unroll(cfg, env, s1, second, []);
    Unroll(cfg, env, BothAwait(f), first, [second] + []);
  }

  lemma BothBegin(cfg: Config, env: Env, f: Finding, rest: seq<Move>)
    requires env.overlaps && !cfg.dryRun && cfg.maxActionsPerBatch >= 1
    requires f.recommendedAction in cfg.handlers && f.recommendedAction != NONE
    requires LegalRun(cfg, env, BothAwait(f), rest)
    ensures LegalRun(cfg, env, EMPTY, [Begin([f])] + ([Look(0)] + ([Begin([f])] + ([Look(1)] + rest))))
    ensures Run(cfg, env, EMPTY, [Begin([f])] + ([Look(0)] + ([Begin([f])] + ([Look(1)] + rest)))) ==
              Run(cfg, env, BothAwait(f), rest)
  {
    var one := EMPTY.(batches := [Awaits(f)], calls := [f]);
    var ready := one.(batches := [Awaits(f), Batch([f], 0, [], Ready)]);
    assert [] + [f] == [f] && [f] + [f] == [f, f] && [f][1..] == [];
    assert ready.batches[1 := Awaits(f)] == BothAwait(f).batches;
    assert Apply(cfg, env, one, Begin([f])) == ready && Apply(cfg, env, ready, Look(1)) == BothAwait(f);
    Unroll(cfg, env, ready, Look(1), rest);
    Unroll(cfg, env, one, Begin([f]), [Look(1)] + rest);
    FirstCall(cfg, env, EMPTY, f, [Begin([f])] + ([Look(1)] + rest));
  }

  lemma OverlappingBatchesCallTwice(cfg: Config, env: Env, f: Finding, tx: string, tx': string, now: int)
    requires env.overlaps && !cfg.dryRun && cfg.maxActionsPerBatch >= 1
    requires f.recommendedAction in cfg.handlers && Mapped(f.recommendedAction) && f.receiptId != ""
    ensures Initial(EMPTY) && LegalRun(cfg, env, EMPTY, OverlapRun(f, tx, tx', now))
    ensures
      var t := Run(cfg, env, EMPTY, OverlapRun(f, tx, tx', now));
      && t.calls == [f, f] && t.threw == [] && t.produced == [Result(true, false, Some(tx), f), Failure(f)]
      && Effective(cfg, t, cfg.lower(f.receiptId)) == 2
  {
    BothReturn(cfg, env, f, tx, tx', now);
    BothBegin(cfg, env, f, BothSettle(tx, tx', now));
    TwoCalls(cfg, f);
  }

  lemma TwoCalls(cfg: Config, f: Finding)
    requires f.receiptId != ""
    ensures CallsFor(cfg, [f, f], cfg.lower(f.receiptId)) == 2 && CallsFor(cfg, [], cfg.lower(f.receiptId)) == 0
  {
    CallsForMore(cfg, [f], f, cfg.lower(f.receiptId));
    CallsForMore(cfg, [], f, cfg.lower(f.receiptId));
    assert [f] + [f] == [f, f] && [] + [f] == [f];
  }

  /** A call of a type the ledger does not know returns, is reported as failed, and the next batch calls again. */
  function UnmappedRun(f: Finding, tx: string, now: int): seq<Move> {
    [Begin([f])] + ([Look(0)] + ([HandlerSettles(0, Some(tx), now)] + ([Restart] + ([Begin([f])] + ([Look(0)] + [])))))
  }

  lemma UnmappedCallsTwice(cfg: Config, env: Env, f: Finding, tx: string, now: int)
    requires !cfg.dryRun && cfg.maxActionsPerBatch >= 1 && !Mapped(f.recommendedAction)
    requires f.recommendedAction in cfg.handlers && f.recommendedAction != NONE && f.receiptId != ""
    ensures LegalRun(cfg, env, EMPTY, UnmappedRun(f, tx, now))
    ensures
      var t := Run(cfg, env, EMPTY, UnmappedRun(f, tx, now));
      t.calls == [f, f] && t.threw == [] && t.produced == [Failure(f)] && t.entries == []
    ensures Effective(cfg, Run(cfg, env, EMPTY, UnmappedRun(f, tx, now)), cfg.lower(f.receiptId)) == 2
  {
    var dead := EMPTY.(calls := [f], produced := [Failure(f)]);
    assert [] + [f] == [f] && [f] + [f] == [f, f];
    FirstCall(cfg, env, dead, f, []);
    UnmappedSettles(cfg, env, f, tx, now, [Begin([f])] + ([Look(0)] + []));
    FirstCall(cfg, env, EMPTY, f, [HandlerSettles(0, Some(tx), now)] + ([Restart] + ([Begin([f])] + ([Look(0)] + []))));
    TwoCalls(cfg, f);
  }

  /** The call returns, and leaves nothing but a reported failure. */
  lemma UnmappedSettles(cfg: Config, env: Env, f: Finding, tx: string, now: int, rest: seq<Move>)
    requires !Mapped(f.recommendedAction) && f.receiptId != ""
    requires LegalRun(cfg, env, EMPTY.(calls := [f], produced := [Failure(f)]), rest)
    ensures
      var one := EMPTY.(batches := [Awaits(f)], calls := [f]);
      var moves := [HandlerSettles(0, Some(tx), now)] + ([Restart] + rest);
      && LegalRun(cfg, env, one, moves)
      && Run(cfg, env, one, moves) == Run(cfg, env, EMPTY.(calls := [f], produced := [Failure(f)]), rest)
  {
    var one := EMPTY.(batches := [Awaits(f)], calls := [f]);
    var settles := HandlerSettles(0, Some(tx), now);
    var settled := one.(batches := [Awaits(f).(phase := Settled(Failure(f)))], produced := [Failure(f)]);
    assert [] + [Failure(f)] == [Failure(f)] && one.batches[0 := settled.batches[0]] == settled.batches;
    assert Apply(cfg, env, one, settles) == settled;
    assert Apply(cfg, env, settled, Restart) == EMPTY.(calls := [f], produced := [Failure(f)]);
    Unroll(cfg, env, settled, Restart, rest);
    Unroll(cfg, env, one, settles, [Restart] + rest);
  }

  lemma SerialCallsOnce(cfg: Config, env: Env)
    requires Serial(env) && AllMapped(cfg)
    ensures OneCallPerReceipt(cfg, env)
  {
    forall s, run, key | Initial(s) ensures OneCallIn(cfg, env, s, run, key) {
      if LegalRun(cfg, env, s, run) {
        assert OthersOver(s.batches, 0);
        RunOnce(cfg, env, |s.entries|, s, run);
        OnceMeansOne(cfg, Run(cfg, env, s, run), key);
      }
    }
  }

  lemma {:induction false} NoCalls(cfg: Config, env: Env, s: System, run: seq<Move>)
    requires NeverCalls(cfg) && LegalRun(cfg, env, s, run) && s.calls == []
    ensures Run(cfg, env, s, run).calls == []
    decreases |run|
  {
    if run != [] {
      NoCalls(cfg, env, Apply(cfg, env, s, run[0]), run[1..]);
    }
  }

  lemma NeverCallsTwice(cfg: Config, env: Env)
    requires NeverCalls(cfg)
    ensures OneCallPerReceipt(cfg, env)
  {
    forall s, run, key | Initial(s) ensures OneCallIn(cfg, env, s, run, key) {
      if LegalRun(cfg, env, s, run) {
        NoCalls(cfg, env, s, run);
      }
    }
  }

  /**
   Each receipt has at most one effective handler call in every run exactly if no handler can be called at all, or
   batches do not overlap, no restart cuts a running handler off, and every handler is of a type the ledger records.
   Each of the three is needed: the run that breaks one of them respects the others.
   */
  lemma OneCallExactly(cfg: Config, env: Env)
    ensures OneCallPerReceipt(cfg, env) <==> NeverCalls(cfg) || (!env.overlaps && !env.cuts && AllMapped(cfg))
  {
    if NeverCalls(cfg) {
      NeverCallsTwice(cfg, env);
    } else if Serial(env) && AllMapped(cfg) {
      SerialCallsOnce(cfg, env);
    } else {
      var a :| a in cfg.handlers && a != NONE && (Serial(env) ==> !Mapped(a));
      var f := Finding("", "r", a, 0);
      TwoCallsSomehow(cfg, env, f);
    }
  }

  lemma TwoCallsSomehow(cfg: Config, env: Env, f: Finding)
    requires !cfg.dryRun && cfg.maxActionsPerBatch >= 1
    requires f.recommendedAction in cfg.handlers && f.recommendedAction != NONE && f.receiptId != ""
    requires env.overlaps || env.cuts || !Mapped(f.recommendedAction)
    ensures !OneCallPerReceipt(cfg, env)
  {
    var key := cfg.lower(f.receiptId);
    if !Mapped(f.recommendedAction) {
      UnmappedCallsTwice(cfg, env, f, "", 0);
      assert !OneCallIn(cfg, env, EMPTY, UnmappedRun(f, "", 0), key);
    } else if env.cuts {
      RestartCallsTwice(cfg, env, f);
      assert !OneCallIn(cfg, env, EMPTY, RestartRun(f), key);
    } else {
      OverlappingBatchesCallTwice(cfg, env, f, "", "", 0);
      assert !OneCallIn(cfg, env, EMPTY, OverlapRun(f, "", "", 0), key);
    }
  }
}
