/**
 Rows of events that were reorganised away: when there are none, and that they stay
 (packages/watchtower-core/src/identity/identityPoller.ts, identityStore.ts).
 */
module Orphans {
  import opened Lists
  import opened Identity
  import opened Reorgs

  /** The row is that of an event in blocks `startBlock` to `upTo`. */
  predicate Backed(cfg: Config, chain: Chain, upTo: int, row: Row) {
    exists b | 0 <= b < |chain| :: cfg.startBlock <= b <= upTo && EmittedIn(cfg, chain[b], row)
  }

  predicate EmittedIn(cfg: Config, block: seq<Event>, row: Row) {
    exists e <- block :: RowHolds(cfg, row, e)
  }

  /** Every row is that of an event which is canonical now. */
  ghost predicate NoOrphans(cfg: Config, s: System) {
    forall r <- s.rows :: Backed(cfg, s.chain, Head(s.chain), r)
  }

  // ---- Rows stay ----

  lemma {:induction false} RowsStay(cfg: Config, env: Env, s: System, run: seq<Action>)
    requires LegalRun(cfg, env, s, run)
    ensures s.rows <= Run(cfg, env, s, run).rows
    decreases |run|
  {
    if run != [] {
      match run[0] {
        case Finish(i) =>
          if s.polls[i].Fetched? {
            InsertAllKeeps(cfg, s.rows, s.polls[i].events);
          }
        case Abort(i, n) =>
          if s.polls[i].Fetched? {
            InsertAllKeeps(cfg, s.rows, Take(n, s.polls[i].events));
          }
        case _ =>
      }
      RowsStay(cfg, env, Apply(cfg, env, s, run[0]), run[1..]);
    }
  }

  // ---- Within the confirmations every row is canonical ----

  /** The answer holds events of settled blocks only. */
  ghost predicate AnswerBacked(cfg: Config, chain: Chain, p: Poll) {
    && (!p.Started? ==> p.latest <= Head(chain))
    && (p.Fetched? ==> forall e <- p.events :: Backed(cfg, chain, Head(chain) - cfg.confirmations, RowOf(cfg, e)))
  }

  ghost predicate AllBacked(cfg: Config, s: System) {
    && (forall r <- s.rows :: Backed(cfg, s.chain, Head(s.chain) - cfg.confirmations, r))
    && forall p <- s.polls :: AnswerBacked(cfg, s.chain, p)
  }

  /** Without batches nothing is ever fetched. */
  ghost predicate NothingFetched(s: System) {
    s.rows == [] && forall p <- s.polls :: !p.Fetched?
  }

  ghost predicate Kept(cfg: Config, s: System) {
    if cfg.batchSize == 0 then NothingFetched(s) else AllBacked(cfg, s)
  }

  /** Reorganisations within the confirmations are harmless, and so are all if there are no batches. */
  predicate Harmless(cfg: Config, env: Env) { env.reorgDepth <= cfg.confirmations || cfg.batchSize == 0 }

  lemma {:induction false} EventsBacked(cfg: Config, chain: Chain, from: int, upTo: int, e: Event)
    requires cfg.startBlock <= from && upTo < |chain| && e in Events(chain, from, upTo)
    ensures Backed(cfg, chain, upTo, RowOf(cfg, e))
    decreases upTo - from
  {
    if e in chain[upTo] {
      assert EmittedIn(cfg, chain[upTo], RowOf(cfg, e));
    } else {
      EventsBacked(cfg, chain, from, upTo - 1, e);
    }
  }

  /** A row stays backed by more blocks, and by another chain that agrees on these. */
  lemma BackedStays(cfg: Config, chain: Chain, chain': Chain, upTo: int, upTo': int, row: Row)
    requires Backed(cfg, chain, upTo, row) && upTo <= upTo'
    requires forall b :: 0 <= b < |chain| && b <= upTo ==> b < |chain'| && chain'[b] == chain[b]
    ensures Backed(cfg, chain', upTo', row)
  {
    var b :| 0 <= b < |chain| && cfg.startBlock <= b <= upTo && EmittedIn(cfg, chain[b], row);
    assert EmittedIn(cfg, chain'[b], row);
  }

  lemma {:induction false} InsertAllRows(cfg: Config, rows: seq<Row>, events: seq<Event>, r: Row)
    requires r in InsertAll(cfg, rows, events)
    ensures r in rows || exists e <- events :: r == RowOf(cfg, e)
    decreases |events|
  {
    if events != [] {
      InsertAllRows(cfg, Insert(cfg, rows, events[0]), events[1..], r);
    }
  }

  lemma InsertBacked(cfg: Config, s: System, events: seq<Event>)
    requires AllBacked(cfg, s)
    requires forall e <- events :: Backed(cfg, s.chain, Head(s.chain) - cfg.confirmations, RowOf(cfg, e))
    ensures forall r <- InsertAll(cfg, s.rows, events) :: Backed(cfg, s.chain, Head(s.chain) - cfg.confirmations, r)
  {
    forall r | r in InsertAll(cfg, s.rows, events)
      ensures Backed(cfg, s.chain, Head(s.chain) - cfg.confirmations, r)
    {
      InsertAllRows(cfg, s.rows, events, r);
    }
  }

  lemma AdvanceBacked(cfg: Config, env: Env, s: System, chain: Chain)
    requires env.reorgDepth <= cfg.confirmations && AllBacked(cfg, s) && Legal(cfg, env, s, Advance(chain))
    ensures AllBacked(cfg, s.(chain := chain))
  {
    var low, high := Head(s.chain) - cfg.confirmations, Head(chain) - cfg.confirmations;
    forall r | r in s.rows ensures Backed(cfg, chain, high, r) {
      BackedStays(cfg, s.chain, chain, low, high, r);
    }
    forall p | p in s.polls ensures AnswerBacked(cfg, chain, p) {
      assert AnswerBacked(cfg, s.chain, p);
      if p.Fetched? {
        forall e | e in p.events ensures Backed(cfg, chain, high, RowOf(cfg, e)) {
          BackedStays(cfg, s.chain, chain, low, high, RowOf(cfg, e));
        }
      }
    }
  }

  lemma FetchBacked(cfg: Config, env: Env, s: System, i: nat)
    requires AllBacked(cfg, s) && Legal(cfg, env, s, Fetch(i))
    ensures AnswerBacked(cfg, s.chain, Apply(cfg, env, s, Fetch(i)).polls[i])
  {
    var p := s.polls[i];
    assert AnswerBacked(cfg, s.chain, p);
    var upTo := To(cfg, p);
    forall e | e in Events(s.chain, From(cfg, p), upTo)
      ensures Backed(cfg, s.chain, Head(s.chain) - cfg.confirmations, RowOf(cfg, e))
    {
      EventsBacked(cfg, s.chain, From(cfg, p), upTo, e);
      BackedStays(cfg, s.chain, s.chain, upTo, Head(s.chain) - cfg.confirmations, RowOf(cfg, e));
    }
  }

  lemma EndBacked(cfg: Config, s: System, i: nat, n: nat)
    requires AllBacked(cfg, s) && i < |s.polls| && s.polls[i].Fetched?
    ensures forall r <- InsertAll(cfg, s.rows, s.polls[i].events) :: Backed(cfg, s.chain, Head(s.chain) - cfg.confirmations, r)
    ensures forall r <- InsertAll(cfg, s.rows, Take(n, s.polls[i].events)) :: Backed(cfg, s.chain, Head(s.chain) - cfg.confirmations, r)
  {
    assert AnswerBacked(cfg, s.chain, s.polls[i]);
    InsertBacked(cfg, s, s.polls[i].events);
    InsertBacked(cfg, s, Take(n, s.polls[i].events));
  }

  lemma StepBacked(cfg: Config, env: Env, s: System, a: Action)
    requires env.reorgDepth <= cfg.confirmations && AllBacked(cfg, s) && Legal(cfg, env, s, a)
    ensures AllBacked(cfg, Apply(cfg, env, s, a))
  {
    match a
    case Advance(chain) => AdvanceBacked(cfg, env, s, chain);
    case Start =>
    case ReadHead(i) =>
    case Fetch(i) => FetchBacked(cfg, env, s, i);
    case Finish(i) =>
      RemovedMembers(s.polls, i);
      if s.polls[i].Fetched? {
        EndBacked(cfg, s, i, 0);
      }
    case Abort(i, n) =>
      RemovedMembers(s.polls, i);
      if s.polls[i].Fetched? {
        EndBacked(cfg, s, i, n);
      }
  }

  lemma StepUnfetched(cfg: Config, env: Env, s: System, a: Action)
    requires cfg.batchSize == 0 && NothingFetched(s) && Legal(cfg, env, s, a)
    ensures NothingFetched(Apply(cfg, env, s, a))
  {
    match a
    case Finish(i) => RemovedMembers(s.polls, i);
    case Abort(i, n) => RemovedMembers(s.polls, i);
    case _ =>
  }

  lemma {:induction false} RunKept(cfg: Config, env: Env, s: System, run: seq<Action>)
    requires Harmless(cfg, env) && Kept(cfg, s) && LegalRun(cfg, env, s, run)
    ensures Kept(cfg, Run(cfg, env, s, run))
    decreases |run|
  {
    if run != [] {
      if cfg.batchSize == 0 {
        StepUnfetched(cfg, env, s, run[0]);
      } else {
        StepBacked(cfg, env, s, run[0]);
      }
      RunKept(cfg, env, Apply(cfg, env, s, run[0]), run[1..]);
    }
  }

  lemma KeptHasNoOrphans(cfg: Config, s: System)
    requires Kept(cfg, s)
    ensures NoOrphans(cfg, s)
  {
    forall r | r in s.rows ensures Backed(cfg, s.chain, Head(s.chain), r) {
      BackedStays(cfg, s.chain, s.chain, Head(s.chain) - cfg.confirmations, Head(s.chain), r);
    }
  }

  // ---- Beyond them an orphan can appear, and then it stays ----

  function OrphanStart(cfg: Config, e: Event): System {
    System(EmptyBlocks(cfg.startBlock + cfg.confirmations + 1)[cfg.startBlock := [e]], [], 0, [])
  }

  /** A poll stores `e`, and `startBlock` then loses it. */
  function OrphanRun(cfg: Config): seq<Action> {
    [Start] + ([ReadHead(0)] + ([Fetch(0)] + ([Finish(0)] +
    ([Advance(EmptyBlocks(cfg.startBlock + cfg.confirmations + 1))] + []))))
  }

  lemma InsertOne(cfg: Config, e: Event)
    ensures InsertAll(cfg, [], [e]) == [RowOf(cfg, e)]
  {
    assert !HasId([], IdOf(cfg, e));
    assert [e][1..] == [] && Insert(cfg, [], e) == [RowOf(cfg, e)];
  }

  lemma OrphanIsStored(cfg: Config, e: Event)
    requires cfg.batchSize >= 1
    ensures
      var s := OrphanStart(cfg, e);
      && FromBlock(cfg, s.cursor) <= ToBlock(cfg, FromBlock(cfg, s.cursor), Head(s.chain))
      && Polled(cfg, s) == System(s.chain, [RowOf(cfg, e)], cfg.startBlock, [])
  {
    var s := OrphanStart(cfg, e);
    NoEvents(s.chain, cfg.startBlock, cfg.startBlock - 1);
    assert Events(s.chain, cfg.startBlock, cfg.startBlock) == [] + [e] == [e];
    InsertOne(cfg, e);
  }

  lemma OrphanAppears(cfg: Config, env: Env, e: Event)
    requires !Harmless(cfg, env)
    ensures Initial(OrphanStart(cfg, e)) && LegalRun(cfg, env, OrphanStart(cfg, e), OrphanRun(cfg))
    ensures
      var t := Run(cfg, env, OrphanStart(cfg, e), OrphanRun(cfg));
      t.rows == [RowOf(cfg, e)] && (forall b <- t.chain :: b == []) && !NoOrphans(cfg, t)
  {
    var s, chain := OrphanStart(cfg, e), EmptyBlocks(cfg.startBlock + cfg.confirmations + 1);
    OrphanIsStored(cfg, e);
    var polled := Polled(cfg, s);
    assert Legal(cfg, env, polled, Advance(chain));
    Unroll(cfg, env, polled, Advance(chain), []);
    PollFinishes(cfg, env, s, [Advance(chain)] + []);
    assert RowOf(cfg, e) in polled.rows && !Backed(cfg, chain, Head(chain), RowOf(cfg, e));
  }

  ghost predicate RunHasNoOrphans(cfg: Config, env: Env, s: System, run: seq<Action>) {
    LegalRun(cfg, env, s, run) ==> NoOrphans(cfg, Run(cfg, env, s, run))
  }

  ghost predicate NeverOrphans(cfg: Config, env: Env) {
    forall s, run :: Initial(s) ==> RunHasNoOrphans(cfg, env, s, run)
  }

  /**
   At all times, with overlapping and dying polls and batches of any size: the store holds no row of an event that was
   reorganised away exactly if reorganisations stay within the confirmations (or there are no batches).
   */
  lemma NeverOrphansExactly(cfg: Config, env: Env)
    ensures NeverOrphans(cfg, env) <==> env.reorgDepth <= cfg.confirmations || cfg.batchSize == 0
  {
    if Harmless(cfg, env) {
      forall s, run | Initial(s) ensures RunHasNoOrphans(cfg, env, s, run) {
        if LegalRun(cfg, env, s, run) {
          RunKept(cfg, env, s, run);
          KeptHasNoOrphans(cfg, Run(cfg, env, s, run));
        }
      }
    } else {
      var e := Event([], 0, [], []);
      OrphanAppears(cfg, env, e);
      assert !RunHasNoOrphans(cfg, env, OrphanStart(cfg, e), OrphanRun(cfg));
    }
  }
}
