/**
 What the identity store holds when polls follow one another and reorganisations stay within the confirmations
 (packages/watchtower-core/src/identity/identityPoller.ts, identityStore.ts).
 */
module ExactStore {
  import opened Lists
  import opened Identity
  import opened Reorgs

  function RowsOf(cfg: Config, events: seq<Event>): (rows: seq<Row>)
    ensures |rows| == |events|
    ensures forall i :: 0 <= i < |events| ==> rows[i] == RowOf(cfg, events[i])
  {
    seq(|events|, i requires 0 <= i < |events| => RowOf(cfg, events[i]))
  }

  ghost predicate DistinctIds(cfg: Config, events: seq<Event>) {
    forall i, j :: 0 <= i < j < |events| ==> IdOf(cfg, events[i]) != IdOf(cfg, events[j])
  }

  ghost predicate DistinctChain(cfg: Config, chain: Chain) {
    DistinctIds(cfg, Events(chain, 0, Head(chain)))
  }

  // ---- Ranges of events ----

  lemma {:induction false} EventsSplit(chain: Chain, from: int, mid: int, upTo: int)
    requires 0 <= from <= mid + 1 && mid <= upTo < |chain|
    ensures Events(chain, from, upTo) == Events(chain, from, mid) + Events(chain, mid + 1, upTo)
    decreases upTo - mid
  {
    if mid < upTo {
      EventsSplit(chain, from, mid, upTo - 1);
      Associative(Events(chain, from, mid), Events(chain, mid + 1, upTo - 1), chain[upTo]);
    }
  }

  /** Events up to an earlier block come first. */
  lemma EventsPrefix(chain: Chain, from: int, mid: int, upTo: int)
    requires 0 <= from && mid <= upTo < |chain|
    ensures Events(chain, from, mid) <= Events(chain, from, upTo)
  {
    if from <= mid + 1 {
      EventsSplit(chain, from, mid, upTo);
    }
  }

  lemma {:induction false} EventsAgree(chain: Chain, chain': Chain, from: int, upTo: int)
    requires 0 <= from && upTo < |chain| && upTo < |chain'|
    requires forall b :: from <= b <= upTo ==> chain[b] == chain'[b]
    ensures Events(chain, from, upTo) == Events(chain', from, upTo)
    decreases upTo - from
  {
    if from <= upTo {
      EventsAgree(chain, chain', from, upTo - 1);
    }
  }

  lemma SubDistinct(cfg: Config, a: seq<Event>, b: seq<Event>, c: seq<Event>)
    requires DistinctIds(cfg, a + (b + c))
    ensures DistinctIds(cfg, b)
  {
    forall i, j | 0 <= i < j < |b| ensures IdOf(cfg, b[i]) != IdOf(cfg, b[j]) {
      assert b[i] == (a + (b + c))[|a| + i] && b[j] == (a + (b + c))[|a| + j];
    }
  }

  lemma RangeDistinct(cfg: Config, chain: Chain, from: int, upTo: int)
    requires DistinctChain(cfg, chain) && 0 <= from && upTo < |chain|
    ensures DistinctIds(cfg, Events(chain, from, upTo))
  {
    if from <= upTo {
      EventsSplit(chain, 0, from - 1, Head(chain));
      EventsSplit(chain, from, upTo, Head(chain));
      SubDistinct(cfg, Events(chain, 0, from - 1), Events(chain, from, upTo), Events(chain, upTo + 1, Head(chain)));
    }
  }

  // ---- Inserting a stretch of a list of which a beginning is stored ----

  lemma {:induction false} InsertAllAppend(cfg: Config, rows: seq<Row>, xs: seq<Event>, ys: seq<Event>)
    ensures InsertAll(cfg, rows, xs + ys) == InsertAll(cfg, InsertAll(cfg, rows, xs), ys)
    decreases |xs|
  {
    if xs == [] {
      assert xs + ys == ys;
    } else {
      assert (xs + ys)[1..] == xs[1..] + ys;
      InsertAllAppend(cfg, Insert(cfg, rows, xs[0]), xs[1..], ys);
    }
  }

  lemma {:induction false} InsertKnown(cfg: Config, rows: seq<Row>, events: seq<Event>)
    requires forall e <- events :: HasId(rows, IdOf(cfg, e))
    ensures InsertAll(cfg, rows, events) == rows
    decreases |events|
  {
    if events != [] {
      InsertKnown(cfg, rows, events[1..]);
    }
  }

  lemma {:induction false} InsertNew(cfg: Config, known: seq<Event>, events: seq<Event>)
    requires DistinctIds(cfg, known + events)
    ensures InsertAll(cfg, RowsOf(cfg, known), events) == RowsOf(cfg, known + events)
    decreases |events|
  {
    if events == [] {
      assert known + events == known;
    } else {
      var e := events[0];
      var rows := RowsOf(cfg, known);
      assert !HasId(rows, IdOf(cfg, e)) by {
        forall i | 0 <= i < |rows| ensures rows[i].id != IdOf(cfg, e) {
          assert (known + events)[i] == known[i] && (known + events)[|known|] == e;
        }
      }
      assert rows + [RowOf(cfg, e)] == RowsOf(cfg, known + [e]);
      assert known + events == (known + [e]) + events[1..];
      InsertNew(cfg, known + [e], events[1..]);
    }
  }

  lemma PartKnown(cfg: Config, a: seq<Event>, b: seq<Event>, c: seq<Event>)
    ensures forall e <- b :: HasId(RowsOf(cfg, a + b + c), IdOf(cfg, e))
  {
    var rows := RowsOf(cfg, a + b + c);
    forall e | e in b ensures HasId(rows, IdOf(cfg, e)) {
      var i :| 0 <= i < |b| && b[i] == e;
      assert rows[|a| + i] == RowOf(cfg, e) && rows[|a| + i] in rows;
    }
  }

  /** Inserting a part of what is stored changes nothing. */
  lemma InsertInside(cfg: Config, a: seq<Event>, b: seq<Event>, c: seq<Event>)
    ensures InsertAll(cfg, RowsOf(cfg, a + b + c), b) == RowsOf(cfg, a + b + c)
  {
    PartKnown(cfg, a, b, c);
    InsertKnown(cfg, RowsOf(cfg, a + b + c), b);
  }

  /** Inserting `b + c` on top of `a + b` adds the rows of `c`. */
  lemma InsertOverlapping(cfg: Config, a: seq<Event>, b: seq<Event>, c: seq<Event>)
    requires DistinctIds(cfg, a + b + c)
    ensures InsertAll(cfg, RowsOf(cfg, a + b), b + c) == RowsOf(cfg, a + b + c)
  {
    InsertInside(cfg, a, b, []);
    assert a + b + [] == a + b;
    InsertAllAppend(cfg, RowsOf(cfg, a + b), b, c);
    InsertNew(cfg, a + b, c);
  }

  /** A list cut at three places. */
  lemma Pieces<T>(xs: seq<T>, i: nat, j: nat, k: nat)
    requires i <= j <= k <= |xs|
    ensures xs[..j] == xs[..i] + xs[i..j] && xs[i..k] == xs[i..j] + xs[j..k] && xs[..k] == xs[..i] + xs[i..j] + xs[j..k]
  {
  }

  lemma DistinctFront(cfg: Config, events: seq<Event>, m: nat)
    requires DistinctIds(cfg, events) && m <= |events|
    ensures DistinctIds(cfg, events[..m])
  {
  }

  lemma InsertKnownStretch(cfg: Config, events: seq<Event>, j: nat, m: nat, k: nat)
    requires j <= m <= k <= |events|
    ensures InsertAll(cfg, RowsOf(cfg, events[..k]), events[j..m]) == RowsOf(cfg, events[..k])
  {
    Pieces(events, j, m, k);
    InsertInside(cfg, events[..j], events[j..m], events[m..k]);
  }

  lemma InsertFurther(cfg: Config, events: seq<Event>, j: nat, k: nat, m: nat)
    requires DistinctIds(cfg, events) && j <= k <= m <= |events|
    ensures InsertAll(cfg, RowsOf(cfg, events[..k]), events[j..m]) == RowsOf(cfg, events[..m])
  {
    DistinctFront(cfg, events, m);
    Pieces(events, j, k, m);
    InsertOverlapping(cfg, events[..j], events[j..k], events[k..m]);
  }

  /** With the first `k` stored, inserting all from `j <= k` on completes the list. */
  lemma InsertRest(cfg: Config, events: seq<Event>, j: nat, k: nat)
    requires DistinctIds(cfg, events) && j <= k <= |events|
    ensures InsertAll(cfg, RowsOf(cfg, events[..k]), events[j..]) == RowsOf(cfg, events)
  {
    InsertFurther(cfg, events, j, k, |events|);
    assert events[j..|events|] == events[j..] && events[..|events|] == events;
  }

  lemma RowsOfFront(cfg: Config, events: seq<Event>, k: nat, m: nat)
    requires k <= m <= |events|
    ensures RowsOf(cfg, events[..k]) <= RowsOf(cfg, events[..m]) <= RowsOf(cfg, events)
  {
  }

  /** Inserting only some of them leaves a longer beginning of the list. */
  lemma InsertPart(cfg: Config, events: seq<Event>, j: nat, k: nat, n: nat)
    requires DistinctIds(cfg, events) && j <= k <= |events|
    ensures
      var rows := InsertAll(cfg, RowsOf(cfg, events[..k]), Take(n, events[j..]));
      RowsOf(cfg, events[..k]) <= rows <= RowsOf(cfg, events)
  {
    var m := if n < |events| - j then j + n else |events|;
    assert Take(n, events[j..]) == events[j..m];
    if m <= k {
      InsertKnownStretch(cfg, events, j, m, k);
      RowsOfFront(cfg, events, k, k);
    } else {
      InsertFurther(cfg, events, j, k, m);
      RowsOfFront(cfg, events, k, m);
    }
  }

  // ---- What the store holds ----

  function RowsTo(cfg: Config, chain: Chain, upTo: int): seq<Row>
    requires upTo < |chain|
  {
    RowsOf(cfg, Events(chain, cfg.startBlock, upTo))
  }

  lemma RowsPrefix(cfg: Config, chain: Chain, mid: int, upTo: int)
    requires mid <= upTo < |chain|
    ensures RowsTo(cfg, chain, mid) <= RowsTo(cfg, chain, upTo)
  {
    EventsPrefix(chain, cfg.startBlock, mid, upTo);
  }

  /** The last block that a poll from this cursor fetches when it sees this head. */
  function Last(cfg: Config, cursor: nat, latest: int): int { ToBlock(cfg, FromBlock(cfg, cursor), latest) }

  /** The rows are canonical events in chain order, each once, from `startBlock` on: at least up to the cursor, at most up to `last`. */
  ghost predicate Between(cfg: Config, s: System, last: int) {
    && last < |s.chain|
    && (s.cursor != 0 ==> cfg.startBlock <= s.cursor <= last && RowsTo(cfg, s.chain, s.cursor) <= s.rows)
    && s.rows <= RowsTo(cfg, s.chain, last)
  }

  /** Exactly the canonical events of `[startBlock, cursor]`, each once, in chain order. */
  ghost predicate Exact(cfg: Config, s: System) {
    (s.cursor == 0 && s.rows == []) || ExactTo(cfg, s)
  }

  ghost predicate ExactTo(cfg: Config, s: System) {
    cfg.startBlock <= s.cursor <= Head(s.chain) - cfg.confirmations && s.rows == RowsTo(cfg, s.chain, s.cursor)
  }

  /** The head that bounds what is stored: the one the running poll saw, if it has seen one. */
  function Horizon(s: System): int {
    if s.polls != [] && !s.polls[0].Started? then s.polls[0].latest else Head(s.chain)
  }

  ghost predicate PollIn(cfg: Config, s: System, p: Poll) {
    && p.cursor == s.cursor
    && (!p.Started? ==> p.latest <= Head(s.chain))
    && (p.Fetched? ==>
          && From(cfg, p) <= To(cfg, p)
          && To(cfg, p) < |s.chain| && p.events == Events(s.chain, From(cfg, p), To(cfg, p)))
  }

  ghost predicate InTurn(cfg: Config, env: Env, s: System) {
    && |s.polls| <= 1
    && (s.cursor != 0 ==> s.cursor <= Horizon(s) - cfg.confirmations)
    && (forall p <- s.polls :: PollIn(cfg, s, p))
    && Between(cfg, s, Last(cfg, s.cursor, Horizon(s)))
    && (!env.dying ==> Exact(cfg, s))
  }

  predicate Mild(cfg: Config, env: Env) {
    env.serial && env.reorgDepth <= cfg.confirmations && cfg.batchSize >= cfg.overlapBlocks + 1
  }

  /** A higher horizon only allows more. */
  lemma HigherHorizon(cfg: Config, s: System, low: int, high: int)
    requires Between(cfg, s, Last(cfg, s.cursor, low)) && low <= high <= Head(s.chain)
    ensures Between(cfg, s, Last(cfg, s.cursor, high))
  {
    RowsPrefix(cfg, s.chain, Last(cfg, s.cursor, low), Last(cfg, s.cursor, high));
  }

  /** A poll's events are a stretch of the events up to its last block, starting no later than the stored ones end. */
  lemma PollStretch(cfg: Config, s: System, last: int, from: int) returns (j: nat, k: nat)
    requires Between(cfg, s, last) && from == FromBlock(cfg, s.cursor) <= last && DistinctChain(cfg, s.chain)
    ensures
      var events := Events(s.chain, cfg.startBlock, last);
      && j <= k <= |events| && DistinctIds(cfg, events)
      && events[j..] == Events(s.chain, from, last) && s.rows == RowsOf(cfg, events[..k])
  {
    var events := Events(s.chain, cfg.startBlock, last);
    RangeDistinct(cfg, s.chain, cfg.startBlock, last);
    EventsSplit(s.chain, cfg.startBlock, from - 1, last);
    j, k := |Events(s.chain, cfg.startBlock, from - 1)|, |s.rows|;
    if s.cursor != 0 {
      EventsPrefix(s.chain, cfg.startBlock, from - 1, s.cursor);
    }
    assert s.rows == RowsOf(cfg, events[..k]);
  }

  /** A poll that finishes leaves exactly the events up to its last block, however many of them dead polls had inserted. */
  lemma FinishExact(cfg: Config, env: Env, s: System)
    requires Mild(cfg, env) && InTurn(cfg, env, s) && DistinctChain(cfg, s.chain)
    requires Legal(cfg, env, s, Finish(0)) && s.polls[0].Fetched?
    ensures
      var s' := Apply(cfg, env, s, Finish(0));
      s'.polls == [] && s'.cursor >= s.cursor && ExactTo(cfg, s')
  {
    var p := s.polls[0];
    assert PollIn(cfg, s, p);
    NoStepBack(cfg, env, s);
    var j, k := PollStretch(cfg, s, To(cfg, p), From(cfg, p));
    InsertRest(cfg, Events(s.chain, cfg.startBlock, To(cfg, p)), j, k);
  }

  lemma NoStepBack(cfg: Config, env: Env, s: System)
    requires Mild(cfg, env) && InTurn(cfg, env, s) && s.polls != [] && s.polls[0].Fetched?
    ensures
      var p := s.polls[0];
      s.cursor <= To(cfg, p) <= Head(s.chain) - cfg.confirmations && cfg.startBlock <= To(cfg, p) && |s.polls| == 1
  {
    assert PollIn(cfg, s, s.polls[0]);
  }

  /** A poll that dies leaves a longer beginning of the same events. */
  lemma AbortBetween(cfg: Config, env: Env, s: System, n: nat)
    requires Mild(cfg, env) && InTurn(cfg, env, s) && DistinctChain(cfg, s.chain)
    requires Legal(cfg, env, s, Abort(0, n)) && s.polls[0].Fetched?
    ensures Between(cfg, Apply(cfg, env, s, Abort(0, n)), To(cfg, s.polls[0]))
  {
    var p := s.polls[0];
    assert PollIn(cfg, s, p);
    var events := Events(s.chain, cfg.startBlock, To(cfg, p));
    var j, k := PollStretch(cfg, s, To(cfg, p), From(cfg, p));
    InsertPart(cfg, events, j, k, n);
  }

  /** Blocks that a reorganisation within the confirmations cannot reach hold the same events. */
  lemma AdvanceKeeps(cfg: Config, env: Env, s: System, chain: Chain, upTo: int)
    requires Mild(cfg, env) && Legal(cfg, env, s, Advance(chain)) && upTo <= Head(s.chain) - cfg.confirmations
    ensures RowsTo(cfg, s.chain, upTo) == RowsTo(cfg, chain, upTo)
    ensures forall from :: 0 <= from ==> Events(s.chain, from, upTo) == Events(chain, from, upTo)
  {
    forall from | 0 <= from ensures Events(s.chain, from, upTo) == Events(chain, from, upTo) {
      EventsAgree(s.chain, chain, from, upTo);
    }
  }

  lemma AdvanceBetween(cfg: Config, env: Env, s: System, chain: Chain, last: int)
    requires Mild(cfg, env) && Between(cfg, s, last) && Legal(cfg, env, s, Advance(chain))
    requires last <= Head(s.chain) - cfg.confirmations
    ensures Between(cfg, s.(chain := chain), last)
  {
    AdvanceKeeps(cfg, env, s, chain, last);
    if s.cursor != 0 {
      AdvanceKeeps(cfg, env, s, chain, s.cursor);
    }
  }

  lemma AdvanceExact(cfg: Config, env: Env, s: System, chain: Chain)
    requires Mild(cfg, env) && Exact(cfg, s) && Legal(cfg, env, s, Advance(chain))
    ensures Exact(cfg, s.(chain := chain))
  {
    if ExactTo(cfg, s) {
      AdvanceKeeps(cfg, env, s, chain, s.cursor);
    }
  }

  lemma AdvancePoll(cfg: Config, env: Env, s: System, chain: Chain, p: Poll)
    requires Mild(cfg, env) && PollIn(cfg, s, p) && Legal(cfg, env, s, Advance(chain))
    ensures PollIn(cfg, s.(chain := chain), p)
  {
    if p.Fetched? {
      AdvanceKeeps(cfg, env, s, chain, To(cfg, p));
    }
  }

  /** The running poll, and how far it reaches. */
  lemma AdvancePolls(cfg: Config, env: Env, s: System, chain: Chain)
    requires Mild(cfg, env) && InTurn(cfg, env, s) && Legal(cfg, env, s, Advance(chain))
    ensures forall p <- s.polls :: PollIn(cfg, s.(chain := chain), p)
    ensures Horizon(s) <= Horizon(s.(chain := chain)) <= Head(chain) && Horizon(s) <= Head(s.chain)
  {
    if s.polls != [] {
      assert PollIn(cfg, s, s.polls[0]);
      AdvancePoll(cfg, env, s, chain, s.polls[0]);
    }
  }

  lemma AdvanceRows(cfg: Config, env: Env, s: System, chain: Chain, low: int, high: int)
    requires Mild(cfg, env) && Legal(cfg, env, s, Advance(chain))
    requires Between(cfg, s, Last(cfg, s.cursor, low)) && low <= high <= Head(chain) && low <= Head(s.chain)
    ensures Between(cfg, s.(chain := chain), Last(cfg, s.cursor, high))
  {
    AdvanceBetween(cfg, env, s, chain, Last(cfg, s.cursor, low));
    HigherHorizon(cfg, s.(chain := chain), low, high);
  }

  lemma AdvanceInTurn(cfg: Config, env: Env, s: System, chain: Chain)
    requires Mild(cfg, env) && InTurn(cfg, env, s) && Legal(cfg, env, s, Advance(chain))
    ensures InTurn(cfg, env, s.(chain := chain))
  {
    AdvancePolls(cfg, env, s, chain);
    AdvanceRows(cfg, env, s, chain, Horizon(s), Horizon(s.(chain := chain)));
    if !env.dying {
      AdvanceExact(cfg, env, s, chain);
    }
  }

  /** A poll that ends without having fetched changes nothing. */
  lemma EndsUnfetched(cfg: Config, env: Env, s: System)
    requires InTurn(cfg, env, s) && s.polls != [] && !s.polls[0].Fetched?
    ensures InTurn(cfg, env, s.(polls := []))
  {
    assert PollIn(cfg, s, s.polls[0]);
    HigherHorizon(cfg, s, Horizon(s), Head(s.chain));
  }

  lemma AbortInTurn(cfg: Config, env: Env, s: System, n: nat)
    requires Mild(cfg, env) && InTurn(cfg, env, s) && Legal(cfg, env, s, Abort(0, n)) && DistinctChain(cfg, s.chain)
    ensures InTurn(cfg, env, Apply(cfg, env, s, Abort(0, n)))
  {
    var s' := Apply(cfg, env, s, Abort(0, n));
    assert s'.polls == [] && PollIn(cfg, s, s.polls[0]);
    if s.polls[0].Fetched? {
      AbortBetween(cfg, env, s, n);
      HigherHorizon(cfg, s', s.polls[0].latest, Head(s'.chain));
    } else {
      EndsUnfetched(cfg, env, s);
    }
  }

  lemma FinishStep(cfg: Config, env: Env, s: System)
    requires Mild(cfg, env) && InTurn(cfg, env, s) && Legal(cfg, env, s, Finish(0)) && DistinctChain(cfg, s.chain)
    ensures InTurn(cfg, env, Apply(cfg, env, s, Finish(0))) && Apply(cfg, env, s, Finish(0)).cursor >= s.cursor
  {
    if s.polls[0].Fetched? {
      FinishExact(cfg, env, s);
      FinishInTurn(cfg, env, Apply(cfg, env, s, Finish(0)));
    } else {
      EndsUnfetched(cfg, env, s);
      assert Removed(s.polls, 0) == [];
    }
  }

  lemma FetchInTurn(cfg: Config, env: Env, s: System)
    requires InTurn(cfg, env, s) && Legal(cfg, env, s, Fetch(0))
    ensures InTurn(cfg, env, Apply(cfg, env, s, Fetch(0)))
  {
    assert PollIn(cfg, s, s.polls[0]);
  }

  lemma ReadHeadInTurn(cfg: Config, env: Env, s: System)
    requires InTurn(cfg, env, s) && Legal(cfg, env, s, ReadHead(0))
    ensures InTurn(cfg, env, Apply(cfg, env, s, ReadHead(0)))
  {
    assert PollIn(cfg, s, s.polls[0]);
  }

  lemma StartInTurn(cfg: Config, env: Env, s: System)
    requires Mild(cfg, env) && InTurn(cfg, env, s) && Legal(cfg, env, s, Start)
    ensures InTurn(cfg, env, Apply(cfg, env, s, Start))
  {
  }

  lemma StepInTurn(cfg: Config, env: Env, s: System, a: Action)
    requires Mild(cfg, env) && InTurn(cfg, env, s) && Legal(cfg, env, s, a) && DistinctChain(cfg, s.chain)
    ensures InTurn(cfg, env, Apply(cfg, env, s, a)) && Apply(cfg, env, s, a).cursor >= s.cursor
  {
    match a
    case Advance(chain) => AdvanceInTurn(cfg, env, s, chain);
    case Fetch(i) => FetchInTurn(cfg, env, s);
    case Finish(i) => FinishStep(cfg, env, s);
    case Abort(i, n) => AbortInTurn(cfg, env, s, n);
    case ReadHead(i) => ReadHeadInTurn(cfg, env, s);
    case Start => StartInTurn(cfg, env, s);
  }

  lemma FinishInTurn(cfg: Config, env: Env, s: System)
    requires Mild(cfg, env) && s.polls == []
    requires ExactTo(cfg, s)
    ensures InTurn(cfg, env, s)
  {
    RowsPrefix(cfg, s.chain, s.cursor, Last(cfg, s.cursor, Head(s.chain)));
  }

  ghost predicate DistinctChains(cfg: Config, s: System, run: seq<Action>) {
    && DistinctChain(cfg, s.chain)
    && forall a <- run :: a.Advance? && |a.chain| > 0 ==> DistinctChain(cfg, a.chain)
  }

  lemma {:induction false} RunInTurn(cfg: Config, env: Env, s: System, run: seq<Action>)
    requires Mild(cfg, env) && InTurn(cfg, env, s) && |s.chain| > 0 && LegalRun(cfg, env, s, run) && DistinctChains(cfg, s, run)
    ensures InTurn(cfg, env, Run(cfg, env, s, run)) && Run(cfg, env, s, run).cursor >= s.cursor
    decreases |run|
  {
    if run != [] {
      StepInTurn(cfg, env, s, run[0]);
      assert run[0] in run;
      RunInTurn(cfg, env, Apply(cfg, env, s, run[0]), run[1..]);
    }
  }

  /** A poll that finishes now leaves exactly the canonical events up to its cursor. */
  ghost predicate FinishesExact(cfg: Config, env: Env, t: System) {
    forall i: nat :: Legal(cfg, env, t, Finish(i)) && t.polls[i].Fetched? ==>
      ExactTo(cfg, Apply(cfg, env, t, Finish(i)))
  }

  /** What holds at any time; see `StoreIsExact`. */
  ghost predicate Stored(cfg: Config, env: Env, t: System) {
    && Between(cfg, t, Head(t.chain) - cfg.confirmations)
    && FinishesExact(cfg, env, t)
    && (!env.dying ==> Exact(cfg, t))
  }

  lemma DistinctParts(cfg: Config, s: System, before: seq<Action>, after: seq<Action>)
    requires DistinctChains(cfg, s, before + after)
    ensures DistinctChains(cfg, s, before)
    ensures forall t: System :: DistinctChain(cfg, t.chain) ==> DistinctChains(cfg, t, after)
  {
  }

  /**
   If reorganisations stay within the confirmations, a batch outreaches the overlap and polls follow one another, then
   at every time the rows are the canonical events from `startBlock` on, each once and in chain order, up to the cursor
   at least and the safe head at most; they end at the cursor right after every finished poll, and always if no poll
   dies; and the cursor never goes back.
   */
  lemma StoreIsExact(cfg: Config, env: Env, s: System, before: seq<Action>, after: seq<Action>)
    requires Mild(cfg, env) && Initial(s) && DistinctChains(cfg, s, before + after) && LegalRun(cfg, env, s, before + after)
    ensures LegalRun(cfg, env, s, before) && Stored(cfg, env, Run(cfg, env, s, before))
    ensures
      var t := Run(cfg, env, s, before);
      LegalRun(cfg, env, t, after) && Run(cfg, env, t, after).cursor >= t.cursor
  {
    RunAppend(cfg, env, s, before, after);
    DistinctParts(cfg, s, before, after);
    StartsInTurn(cfg, env, s);
    RunInTurn(cfg, env, s, before);
    LastChain(cfg, env, s, before);
    StoredInTurn(cfg, env, Run(cfg, env, s, before));
    RunInTurn(cfg, env, Run(cfg, env, s, before), after);
  }

  /** In the same runs the columns of each row are those of the canonical event in its place. */
  lemma RowsHoldEvents(cfg: Config, env: Env, s: System, run: seq<Action>, i: nat)
    requires Mild(cfg, env) && Initial(s) && DistinctChains(cfg, s, run) && LegalRun(cfg, env, s, run)
    requires i < |Run(cfg, env, s, run).rows|
    ensures
      var t := Run(cfg, env, s, run);
      var events := Events(t.chain, cfg.startBlock, Head(t.chain) - cfg.confirmations);
      i < |events| && RowHolds(cfg, t.rows[i], events[i])
  {
    assert run + [] == run;
    StoreIsExact(cfg, env, s, run, []);
    var t := Run(cfg, env, s, run);
    RowAt(cfg, t.chain, Head(t.chain) - cfg.confirmations, t.rows, i);
  }

  lemma RowAt(cfg: Config, chain: Chain, upTo: int, rows: seq<Row>, i: nat)
    requires upTo < |chain| && rows <= RowsTo(cfg, chain, upTo) && i < |rows|
    ensures i < |Events(chain, cfg.startBlock, upTo)| && RowHolds(cfg, rows[i], Events(chain, cfg.startBlock, upTo)[i])
  {
    assert rows[i] == RowsTo(cfg, chain, upTo)[i];
  }

  lemma StartsInTurn(cfg: Config, env: Env, s: System)
    requires Initial(s)
    ensures InTurn(cfg, env, s)
  {
  }

  lemma StoredInTurn(cfg: Config, env: Env, t: System)
    requires Mild(cfg, env) && InTurn(cfg, env, t) && |t.chain| > 0 && DistinctChain(cfg, t.chain)
    ensures Stored(cfg, env, t)
  {
    ToSafeHead(cfg, env, t);
    forall i: nat | Legal(cfg, env, t, Finish(i)) && t.polls[i].Fetched?
      ensures ExactTo(cfg, Apply(cfg, env, t, Finish(i)))
    {
      FinishExact(cfg, env, t);
    }
  }

  lemma ToSafeHead(cfg: Config, env: Env, t: System)
    requires InTurn(cfg, env, t) && |t.chain| > 0
    ensures Between(cfg, t, Head(t.chain) - cfg.confirmations)
  {
    assert t.polls != [] ==> PollIn(cfg, t, t.polls[0]);
    RowsPrefix(cfg, t.chain, Last(cfg, t.cursor, Horizon(t)), Head(t.chain) - cfg.confirmations);
  }

  lemma {:induction false} RunAppend(cfg: Config, env: Env, s: System, xs: seq<Action>, ys: seq<Action>)
    requires LegalRun(cfg, env, s, xs + ys)
    ensures LegalRun(cfg, env, s, xs) && LegalRun(cfg, env, Run(cfg, env, s, xs), ys)
    decreases |xs|
  {
    if xs == [] {
      assert xs + ys == ys;
    } else {
      assert (xs + ys)[1..] == xs[1..] + ys;
      RunAppend(cfg, env, Apply(cfg, env, s, xs[0]), xs[1..], ys);
    }
  }

  lemma {:induction false} LastChain(cfg: Config, env: Env, s: System, run: seq<Action>)
    requires |s.chain| > 0 && LegalRun(cfg, env, s, run) && DistinctChains(cfg, s, run)
    ensures |Run(cfg, env, s, run).chain| > 0 && DistinctChain(cfg, Run(cfg, env, s, run).chain)
    decreases |run|
  {
    if run != [] {
      assert run[0] in run;
      LastChain(cfg, env, Apply(cfg, env, s, run[0]), run[1..]);
    }
  }
}
