/**
 The identity poller as a protocol against a chain that grows and reorganises, with polls that overlap and die
 (packages/watchtower-core/src/identity/identityPoller.ts).
 */
module Reorgs {
  import opened Lists
  import opened Identity

  // ---- The protocol ----

  /** The canonical chain: block `b` emits `chain[b]`; the head is the last index. */
  type Chain = seq<seq<Event>>

  function Head(chain: Chain): int { |chain| - 1 }

  /** The canonical events of blocks `from` to `upTo`, in chain order: what the event source returns. */
  function Events(chain: Chain, from: int, upTo: int): seq<Event>
    requires 0 <= from && upTo < |chain|
    decreases upTo - from
  {
    if upTo < from then [] else Events(chain, from, upTo - 1) + chain[upTo]
  }

  /**
   A poll in flight: waiting for the head, about to ask for events or to skip, and with the events it was answered.
   `seen` is the chain that the answer was taken from.
   */
  datatype Poll =
    | Started(cursor: nat)
    | SawHead(cursor: nat, latest: int)
    | Fetched(cursor: nat, latest: int, seen: Chain, events: seq<Event>)

  datatype System = System(chain: Chain, rows: seq<Row>, cursor: nat, polls: seq<Poll>)

  datatype Action =
    | Advance(chain: Chain)       // blocks are produced, or rewritten near the head
    | Start                       // a poll reads the cursor
    | ReadHead(poll: nat)
    | Fetch(poll: nat)            // the source answers
    | Finish(poll: nat)           // the poll inserts and moves the cursor, or skips
    | Abort(poll: nat, done: nat) // it dies, after inserting `done` of the events if it has them

  /** What the environment may do: how deep reorganisations go, whether polls follow one another, whether they die. */
  datatype Env = Env(reorgDepth: nat, serial: bool, dying: bool)

  function From(cfg: Config, p: Poll): int { FromBlock(cfg, p.cursor) }

  function To(cfg: Config, p: Poll): int
    requires !p.Started?
  {
    ToBlock(cfg, From(cfg, p), p.latest)
  }

  predicate Legal(cfg: Config, env: Env, s: System, a: Action) {
    match a
    case Advance(chain) =>
      && |chain| >= |s.chain|
      && forall b :: 0 <= b < |s.chain| && b <= Head(s.chain) - env.reorgDepth ==> chain[b] == s.chain[b]
    case Start => env.serial ==> s.polls == []
    case ReadHead(i) => i < |s.polls| && s.polls[i].Started?
    case Fetch(i) =>
      i < |s.polls| && s.polls[i].SawHead? && From(cfg, s.polls[i]) <= To(cfg, s.polls[i]) && s.polls[i].latest < |s.chain|
    case Finish(i) => i < |s.polls| && !s.polls[i].Started? && (s.polls[i].Fetched? <==> From(cfg, s.polls[i]) <= To(cfg, s.polls[i]))
    case Abort(i, n) => env.dying && i < |s.polls|
  }

  function Apply(cfg: Config, env: Env, s: System, a: Action): System
    requires Legal(cfg, env, s, a)
  {
    match a
    case Advance(chain) => s.(chain := chain)
    case Start => s.(polls := s.polls + [Started(s.cursor)])
    case ReadHead(i) => s.(polls := s.polls[i := SawHead(s.polls[i].cursor, Head(s.chain))])
    case Fetch(i) =>
      var p := s.polls[i];
      s.(polls := s.polls[i := Fetched(p.cursor, p.latest, s.chain, Events(s.chain, From(cfg, p), To(cfg, p)))])
    case Finish(i) =>
      var p := s.polls[i];
      if p.SawHead? then s.(polls := Removed(s.polls, i))
      else System(s.chain, InsertAll(cfg, s.rows, p.events), To(cfg, p), Removed(s.polls, i))
    case Abort(i, n) =>
      var p := s.polls[i];
      s.(polls := Removed(s.polls, i), rows := if p.Fetched? then InsertAll(cfg, s.rows, Take(n, p.events)) else s.rows)
  }

  predicate LegalRun(cfg: Config, env: Env, s: System, run: seq<Action>)
    decreases |run|
  {
    run == [] || (Legal(cfg, env, s, run[0]) && LegalRun(cfg, env, Apply(cfg, env, s, run[0]), run[1..]))
  }

  function Run(cfg: Config, env: Env, s: System, run: seq<Action>): System
    requires LegalRun(cfg, env, s, run)
    decreases |run|
  {
    if run == [] then s else Run(cfg, env, Apply(cfg, env, s, run[0]), run[1..])
  }

  lemma Unroll(cfg: Config, env: Env, s: System, a: Action, rest: seq<Action>)
    requires Legal(cfg, env, s, a) && LegalRun(cfg, env, Apply(cfg, env, s, a), rest)
    ensures LegalRun(cfg, env, s, [a] + rest)
    ensures Run(cfg, env, s, [a] + rest) == Run(cfg, env, Apply(cfg, env, s, a), rest)
  {
    assert ([a] + rest)[1..] == rest;
  }

  predicate Initial(s: System) {
    s.rows == [] && s.cursor == 0 && s.polls == [] && |s.chain| > 0
  }

  // ---- A poll that nothing interleaves with ----

  const POLL_STEPS: seq<Action> := [Start] + ([ReadHead(0)] + ([Fetch(0)] + ([Finish(0)] + [])))

  const SKIP_STEPS: seq<Action> := [Start] + ([ReadHead(0)] + ([Finish(0)] + []))

  function Polled(cfg: Config, s: System): System
    requires |s.chain| > 0
  {
    var from := FromBlock(cfg, s.cursor);
    var upTo := ToBlock(cfg, from, Head(s.chain));
    if from > upTo then s else s.(rows := InsertAll(cfg, s.rows, Events(s.chain, from, upTo)), cursor := upTo)
  }

  function Seen(s: System): Poll { SawHead(s.cursor, Head(s.chain)) }

  /** Its first two steps: it knows the cursor and the head. */
  lemma PollBegins(cfg: Config, env: Env, s: System, rest: seq<Action>)
    requires s.polls == [] && LegalRun(cfg, env, s.(polls := [Seen(s)]), rest)
    ensures LegalRun(cfg, env, s, [Start] + ([ReadHead(0)] + rest))
    ensures Run(cfg, env, s, [Start] + ([ReadHead(0)] + rest)) == Run(cfg, env, s.(polls := [Seen(s)]), rest)
  {
    var started := s.(polls := [Started(s.cursor)]);
    assert Apply(cfg, env, s, Start) == started && Apply(cfg, env, started, ReadHead(0)) == s.(polls := [Seen(s)]);
    Unroll(cfg, env, started, ReadHead(0), rest);
    Unroll(cfg, env, s, Start, [ReadHead(0)] + rest);
  }

  /** The poll with its answer. */
  function Answered(cfg: Config, s: System): Poll
    requires |s.chain| > 0
  {
    var upTo := ToBlock(cfg, FromBlock(cfg, s.cursor), Head(s.chain));
    Fetched(s.cursor, Head(s.chain), s.chain, Events(s.chain, FromBlock(cfg, s.cursor), upTo))
  }

  /** ... and then it fetches. */
  lemma PollFetches(cfg: Config, env: Env, s: System, rest: seq<Action>)
    requires s.polls == [] && |s.chain| > 0
    requires FromBlock(cfg, s.cursor) <= ToBlock(cfg, FromBlock(cfg, s.cursor), Head(s.chain))
    requires LegalRun(cfg, env, s.(polls := [Answered(cfg, s)]), rest)
    ensures LegalRun(cfg, env, s, [Start] + ([ReadHead(0)] + ([Fetch(0)] + rest)))
    ensures Run(cfg, env, s, [Start] + ([ReadHead(0)] + ([Fetch(0)] + rest))) == Run(cfg, env, s.(polls := [Answered(cfg, s)]), rest)
  {
    var seen := s.(polls := [Seen(s)]);
    assert Legal(cfg, env, seen, Fetch(0)) && Apply(cfg, env, seen, Fetch(0)) == s.(polls := [Answered(cfg, s)]);
    Unroll(cfg, env, seen, Fetch(0), rest);
    PollBegins(cfg, env, s, [Fetch(0)] + rest);
  }

  lemma PollFinishes(cfg: Config, env: Env, s: System, rest: seq<Action>)
    requires s.polls == [] && |s.chain| > 0
    requires FromBlock(cfg, s.cursor) <= ToBlock(cfg, FromBlock(cfg, s.cursor), Head(s.chain))
    requires LegalRun(cfg, env, Polled(cfg, s), rest)
    ensures LegalRun(cfg, env, s, [Start] + ([ReadHead(0)] + ([Fetch(0)] + ([Finish(0)] + rest))))
    ensures Run(cfg, env, s, [Start] + ([ReadHead(0)] + ([Fetch(0)] + ([Finish(0)] + rest)))) == Run(cfg, env, Polled(cfg, s), rest)
  {
    var answered := s.(polls := [Answered(cfg, s)]);
    assert Legal(cfg, env, answered, Finish(0)) && Apply(cfg, env, answered, Finish(0)) == Polled(cfg, s);
    Unroll(cfg, env, answered, Finish(0), rest);
    PollFetches(cfg, env, s, [Finish(0)] + rest);
  }

  /** Its steps do to the rows and the cursor what `PollIdentityEvents` promises. */
  lemma UndisturbedPoll(cfg: Config, env: Env, s: System)
    requires s.polls == [] && |s.chain| > 0
    ensures
      var from := FromBlock(cfg, s.cursor);
      var upTo := ToBlock(cfg, from, Head(s.chain));
      var steps := if from > upTo then SKIP_STEPS else POLL_STEPS;
      && LegalRun(cfg, env, s, steps)
      && var t := Run(cfg, env, s, steps);
      && t.chain == s.chain && t.polls == [] && t.cursor == NextCursor(cfg, s.cursor, Head(s.chain))
      && t.rows == if from > upTo then s.rows else InsertAll(cfg, s.rows, Events(s.chain, from, upTo))
  {
    var from := FromBlock(cfg, s.cursor);
    if from > ToBlock(cfg, from, Head(s.chain)) {
      var seen := s.(polls := [Seen(s)]);
      assert Legal(cfg, env, seen, Finish(0)) && Apply(cfg, env, seen, Finish(0)) == s;
      Unroll(cfg, env, seen, Finish(0), []);
      PollBegins(cfg, env, s, [Finish(0)] + []);
    } else {
      PollFinishes(cfg, env, s, []);
    }
  }

  // ---- Safety: no canonical event is missed ----

  /** Every canonical event of blocks `from` to `upTo` has its id in the store. */
  ghost predicate Covered(cfg: Config, chain: Chain, rows: seq<Row>, from: int, upTo: int) {
    forall b, e :: 0 <= b < |chain| && from <= b <= upTo && e in chain[b] ==> HasId(rows, IdOf(cfg, e))
  }

  /** The last block that a reorganisation can no longer reach once the cursor has this value. */
  function Settled(cfg: Config, env: Env, cursor: int): int {
    if env.reorgDepth <= cfg.confirmations then cursor else cursor + cfg.confirmations - env.reorgDepth
  }

  /** A batch so small that the cursor never gets beyond the overlap, and every poll starts at `startBlock`. */
  predicate NeverLeavesStart(cfg: Config) { cfg.batchSize <= cfg.overlapBlocks + 1 }

  /** Whatever a reorganisation can rewrite below the cursor is fetched again. */
  predicate Reaches(cfg: Config, env: Env) {
    env.reorgDepth <= cfg.confirmations + cfg.overlapBlocks + 1 || NeverLeavesStart(cfg)
  }

  /** What a cursor value that was once stored promises from then on. */
  ghost predicate Promise(cfg: Config, env: Env, s: System, cursor: int) {
    cursor != 0 ==>
      && cursor <= Head(s.chain) - cfg.confirmations
      && (NeverLeavesStart(cfg) ==> cursor <= cfg.startBlock + cfg.overlapBlocks)
      && Covered(cfg, s.chain, s.rows, cfg.startBlock, Settled(cfg, env, cursor))
  }

  /** What a poll has been answered: the events of its range, of a chain that is still the canonical one where it is settled. */
  ghost predicate Answer(cfg: Config, env: Env, s: System, p: Poll)
    requires p.Fetched?
  {
    && From(cfg, p) <= To(cfg, p) && p.latest < |p.seen|
    && p.events == Events(p.seen, From(cfg, p), To(cfg, p))
    && (forall b :: 0 <= b <= p.latest - env.reorgDepth && b < |s.chain| ==> s.chain[b] == p.seen[b])
    && Covered(cfg, p.seen, s.rows, cfg.startBlock, From(cfg, p) - 1)
  }

  ghost predicate PollSafe(cfg: Config, env: Env, s: System, p: Poll) {
    && Promise(cfg, env, s, p.cursor)
    && (!p.Started? ==> p.latest <= Head(s.chain))
    && (p.Fetched? ==> Answer(cfg, env, s, p))
  }

  ghost predicate Safe(cfg: Config, env: Env, s: System) {
    && Promise(cfg, env, s, s.cursor)
    && forall p <- s.polls :: PollSafe(cfg, env, s, p)
  }

  lemma {:induction false} InsertAllKeeps(cfg: Config, rows: seq<Row>, events: seq<Event>)
    ensures rows <= InsertAll(cfg, rows, events)
    ensures forall e <- events :: HasId(InsertAll(cfg, rows, events), IdOf(cfg, e))
    decreases |events|
  {
    if events != [] {
      var next := Insert(cfg, rows, events[0]);
      InsertAllKeeps(cfg, next, events[1..]);
      assert HasId(next, IdOf(cfg, events[0])) by {
        if !HasId(rows, IdOf(cfg, events[0])) {
          assert next[|rows|] in next;
        }
      }
    }
  }

  lemma {:induction false} EventsMember(chain: Chain, from: int, upTo: int, b: int, e: Event)
    requires 0 <= from <= b <= upTo < |chain| && e in chain[b]
    ensures e in Events(chain, from, upTo)
    decreases upTo - from
  {
    if b < upTo {
      EventsMember(chain, from, upTo - 1, b, e);
    }
  }

  lemma CoveredKept(cfg: Config, chain: Chain, rows: seq<Row>, rows': seq<Row>, from: int, upTo: int)
    requires Covered(cfg, chain, rows, from, upTo) && rows <= rows'
    ensures Covered(cfg, chain, rows', from, upTo)
  {
  }

  /** More rows keep every promise. */
  lemma MoreRows(cfg: Config, env: Env, s: System, s': System, p: Poll)
    requires PollSafe(cfg, env, s, p) && s'.chain == s.chain && s.rows <= s'.rows
    ensures PollSafe(cfg, env, s', p)
  {
    if p.cursor != 0 {
      CoveredKept(cfg, s.chain, s.rows, s'.rows, cfg.startBlock, Settled(cfg, env, p.cursor));
    }
    if p.Fetched? {
      CoveredKept(cfg, p.seen, s.rows, s'.rows, cfg.startBlock, From(cfg, p) - 1);
    }
  }

  /** A reorganisation keeps every promise. */
  lemma NewChain(cfg: Config, env: Env, s: System, chain: Chain, p: Poll)
    requires PollSafe(cfg, env, s, p) && Legal(cfg, env, s, Advance(chain))
    ensures PollSafe(cfg, env, s.(chain := chain), p)
  {
    var s' := s.(chain := chain);
    if p.cursor != 0 {
      forall b, e | 0 <= b < |chain| && cfg.startBlock <= b <= Settled(cfg, env, p.cursor) && e in chain[b]
        ensures HasId(s'.rows, IdOf(cfg, e))
      {
        assert chain[b] == s.chain[b];
      }
    }
  }

  /** A poll's answer covers what lies below it: what was settled at its cursor was fetched before. */
  lemma FetchSafe(cfg: Config, env: Env, s: System, i: nat)
    requires Reaches(cfg, env) && Safe(cfg, env, s) && Legal(cfg, env, s, Fetch(i))
    ensures PollSafe(cfg, env, Apply(cfg, env, s, Fetch(i)), Apply(cfg, env, s, Fetch(i)).polls[i])
  {
    var p := s.polls[i];
    assert p in s.polls;
    assert Covered(cfg, s.chain, s.rows, cfg.startBlock, From(cfg, p) - 1);
  }

  /** The rows after a finished poll cover the chain it saw up to the new cursor. */
  lemma FinishCovers(cfg: Config, env: Env, s: System, p: Poll)
    requires p.Fetched? && Answer(cfg, env, s, p)
    ensures Covered(cfg, p.seen, InsertAll(cfg, s.rows, p.events), cfg.startBlock, To(cfg, p))
  {
    InsertAllKeeps(cfg, s.rows, p.events);
    CoveredKept(cfg, p.seen, s.rows, InsertAll(cfg, s.rows, p.events), cfg.startBlock, From(cfg, p) - 1);
    forall b, e | 0 <= b < |p.seen| && cfg.startBlock <= b <= To(cfg, p) && e in p.seen[b]
      ensures HasId(InsertAll(cfg, s.rows, p.events), IdOf(cfg, e))
    {
      if b >= From(cfg, p) {
        EventsMember(p.seen, From(cfg, p), To(cfg, p), b, e);
      }
    }
  }

  /** The new cursor keeps its promise, reorganisations between the answer and the inserts included. */
  lemma FinishPromise(cfg: Config, env: Env, s: System, i: nat)
    requires Reaches(cfg, env) && Safe(cfg, env, s) && Legal(cfg, env, s, Finish(i)) && s.polls[i].Fetched?
    ensures
      var s' := Apply(cfg, env, s, Finish(i));
      Promise(cfg, env, s', s'.cursor)
  {
    var p := s.polls[i];
    var s' := Apply(cfg, env, s, Finish(i));
    assert p in s.polls;
    FinishCovers(cfg, env, s, p);
    forall b, e | 0 <= b < |s'.chain| && cfg.startBlock <= b <= Settled(cfg, env, s'.cursor) && e in s'.chain[b]
      ensures HasId(s'.rows, IdOf(cfg, e))
    {
      assert s.chain[b] == p.seen[b];
    }
  }

  lemma RemovedMembers(polls: seq<Poll>, i: nat)
    requires i < |polls|
    ensures forall p <- Removed(polls, i) :: p in polls
  {
  }

  lemma StepSafe(cfg: Config, env: Env, s: System, a: Action)
    requires Reaches(cfg, env) && Safe(cfg, env, s) && Legal(cfg, env, s, a)
    ensures Safe(cfg, env, Apply(cfg, env, s, a))
  {
    var s' := Apply(cfg, env, s, a);
    match a
    case Advance(chain) =>
      NewChain(cfg, env, s, chain, Started(s.cursor));
      forall p | p in s'.polls ensures PollSafe(cfg, env, s', p) {
        NewChain(cfg, env, s, chain, p);
      }
    case Start =>
      forall p | p in s'.polls ensures PollSafe(cfg, env, s', p) {
        MoreRows(cfg, env, s, s', if p in s.polls then p else Started(s.cursor));
      }
    case ReadHead(i) =>
      assert PollSafe(cfg, env, s, s.polls[i]);
      ReplacedSafe(cfg, env, s, i, s'.polls[i], s');
    case Fetch(i) =>
      FetchSafe(cfg, env, s, i);
      ReplacedSafe(cfg, env, s, i, s'.polls[i], s');
    case Finish(i) =>
      if s.polls[i].Fetched? {
        InsertAllKeeps(cfg, s.rows, s.polls[i].events);
        FinishPromise(cfg, env, s, i);
      }
      RemovedSafe(cfg, env, s, i, s');
    case Abort(i, n) =>
      if s.polls[i].Fetched? {
        InsertAllKeeps(cfg, s.rows, Take(n, s.polls[i].events));
      }
      RemovedSafe(cfg, env, s, i, s');
  }

  lemma ReplacedSafe(cfg: Config, env: Env, s: System, i: nat, q: Poll, s': System)
    requires Safe(cfg, env, s) && i < |s.polls| && s' == s.(polls := s.polls[i := q])
    requires PollSafe(cfg, env, s', q)
    ensures Safe(cfg, env, s')
  {
    forall p | p in s'.polls ensures PollSafe(cfg, env, s', p) {
      if p != q {
        MoreRows(cfg, env, s, s', p);
      }
    }
  }

  /** The polls that remain, and the old cursor, keep what they promise when one poll ends. */
  lemma RemovedSafe(cfg: Config, env: Env, s: System, i: nat, s': System)
    requires Safe(cfg, env, s) && i < |s.polls|
    requires s'.chain == s.chain && s'.polls == Removed(s.polls, i) && s.rows <= s'.rows
    ensures forall p <- s'.polls :: PollSafe(cfg, env, s', p)
    ensures Promise(cfg, env, s', s.cursor)
  {
    RemovedMembers(s.polls, i);
    forall p | p in s'.polls ensures PollSafe(cfg, env, s', p) {
      MoreRows(cfg, env, s, s', p);
    }
    MoreRows(cfg, env, s, s', Started(s.cursor));
  }

  lemma {:induction false} RunSafe(cfg: Config, env: Env, s: System, run: seq<Action>)
    requires Reaches(cfg, env) && Safe(cfg, env, s) && LegalRun(cfg, env, s, run)
    ensures Safe(cfg, env, Run(cfg, env, s, run))
    decreases |run|
  {
    if run != [] {
      StepSafe(cfg, env, s, run[0]);
      RunSafe(cfg, env, Apply(cfg, env, s, run[0]), run[1..]);
    }
  }

  /** All settled blocks are covered. */
  ghost predicate SettledCovered(cfg: Config, env: Env, t: System) {
    t.cursor != 0 ==> Covered(cfg, t.chain, t.rows, cfg.startBlock, Settled(cfg, env, t.cursor))
  }

  /** Whichever poll finishes next, it leaves covered what was canonical up to its new cursor when it was answered. */
  ghost predicate FinishesCovered(cfg: Config, env: Env, t: System) {
    forall i: nat :: Legal(cfg, env, t, Finish(i)) && t.polls[i].Fetched? ==>
      Covered(cfg, t.polls[i].seen, Apply(cfg, env, t, Finish(i)).rows, cfg.startBlock, Apply(cfg, env, t, Finish(i)).cursor)
  }

  /**
   In every run, with overlapping and dying polls and any number of reorganisations of depth at most
   `confirmations + overlapBlocks + 1`: at any time the canonical events of all settled blocks are in the store (up to
   `cursor - overlapBlocks` if the depth is at most `confirmations + overlapBlocks`, up to `cursor` if it is at most
   `confirmations`), and right after a poll that was not skipped so are all events up to `cursor` that were canonical
   when the source answered.
   */
  lemma NoEventMissed(cfg: Config, env: Env, s: System, run: seq<Action>)
    requires Reaches(cfg, env) && Initial(s) && LegalRun(cfg, env, s, run)
    ensures SettledCovered(cfg, env, Run(cfg, env, s, run)) && FinishesCovered(cfg, env, Run(cfg, env, s, run))
  {
    RunSafe(cfg, env, s, run);
    var t := Run(cfg, env, s, run);
    forall i: nat | Legal(cfg, env, t, Finish(i)) && t.polls[i].Fetched?
      ensures Covered(cfg, t.polls[i].seen, Apply(cfg, env, t, Finish(i)).rows, cfg.startBlock, Apply(cfg, env, t, Finish(i)).cursor)
    {
      assert t.polls[i] in t.polls;
      FinishCovers(cfg, env, t, t.polls[i]);
    }
  }

  /** In particular, where nothing up to the cursor was rewritten since the answer, all that is canonical now is stored. */
  lemma CanonicalNow(cfg: Config, env: Env, t: System, i: nat)
    requires FinishesCovered(cfg, env, t) && Legal(cfg, env, t, Finish(i)) && t.polls[i].Fetched?
    requires forall b :: 0 <= b < |t.chain| && b <= To(cfg, t.polls[i]) ==> b < |t.polls[i].seen| && t.chain[b] == t.polls[i].seen[b]
    ensures
      var u := Apply(cfg, env, t, Finish(i));
      Covered(cfg, u.chain, u.rows, cfg.startBlock, u.cursor)
  {
  }

  // ---- One block deeper ----

  function EmptyBlocks(n: nat): Chain { seq(n, _ => []) }

  lemma {:induction false} NoEvents(chain: Chain, from: int, upTo: int)
    requires 0 <= from && upTo < |chain|
    requires forall b :: from <= b <= upTo ==> chain[b] == []
    ensures Events(chain, from, upTo) == []
    decreases upTo - from
  {
    if from <= upTo {
      NoEvents(chain, from, upTo - 1);
    }
  }

  /** The first chain is empty up to where the cursor can leave `startBlock` behind. */
  function LosingStart(cfg: Config): System {
    System(EmptyBlocks(cfg.startBlock + cfg.confirmations + cfg.overlapBlocks + 2), [], 0, [])
  }

  function Forked(cfg: Config, e: Event): Chain { LosingStart(cfg).chain[cfg.startBlock := [e]] }

  /** A poll settles an empty chain, `startBlock` then gains `e`, and another poll is answered. */
  function LosingRun(cfg: Config, e: Event): seq<Action> {
    [Start] + ([ReadHead(0)] + ([Fetch(0)] + ([Finish(0)] +
    ([Advance(Forked(cfg, e))] + ([Start] + ([ReadHead(0)] + ([Fetch(0)] + [])))))))
  }

  /** The cursor has left `startBlock` behind when `e` appears there. */
  function Lost(cfg: Config, e: Event): System {
    System(Forked(cfg, e), [], cfg.startBlock + cfg.overlapBlocks + 1, [])
  }

  /** The first poll finds nothing. */
  lemma FirstPollSettles(cfg: Config)
    requires cfg.batchSize >= cfg.overlapBlocks + 2
    ensures
      var s := LosingStart(cfg);
      && FromBlock(cfg, s.cursor) <= ToBlock(cfg, FromBlock(cfg, s.cursor), Head(s.chain))
      && Polled(cfg, s) == s.(cursor := cfg.startBlock + cfg.overlapBlocks + 1)
  {
    NoEvents(LosingStart(cfg).chain, cfg.startBlock, cfg.startBlock + cfg.overlapBlocks + 1);
  }

  /** The second poll starts one block above `e`, and is answered without it. */
  lemma SecondPollStartsAbove(cfg: Config, e: Event)
    requires cfg.batchSize >= cfg.overlapBlocks + 2
    ensures
      var s := Lost(cfg, e);
      && FromBlock(cfg, s.cursor) <= ToBlock(cfg, FromBlock(cfg, s.cursor), Head(s.chain))
      && Answered(cfg, s) == Fetched(s.cursor, Head(s.chain), s.chain, [])
      && Polled(cfg, s) == s
  {
    NoEvents(Forked(cfg, e), cfg.startBlock + 1, cfg.startBlock + cfg.overlapBlocks + 1);
  }

  lemma LosingRunEnds(cfg: Config, env: Env, e: Event)
    requires !Reaches(cfg, env)
    ensures LegalRun(cfg, env, LosingStart(cfg), LosingRun(cfg, e))
    ensures Run(cfg, env, LosingStart(cfg), LosingRun(cfg, e)) == Lost(cfg, e).(polls := [Answered(cfg, Lost(cfg, e))])
  {
    var s1 := LosingStart(cfg).(cursor := cfg.startBlock + cfg.overlapBlocks + 1);
    FirstPollSettles(cfg);
    SecondPollStartsAbove(cfg, e);
    assert Legal(cfg, env, s1, Advance(Forked(cfg, e))) && Apply(cfg, env, s1, Advance(Forked(cfg, e))) == Lost(cfg, e);
    PollFetches(cfg, env, Lost(cfg, e), []);
    Unroll(cfg, env, s1, Advance(Forked(cfg, e)), [Start] + ([ReadHead(0)] + ([Fetch(0)] + [])));
    PollFinishes(cfg, env, LosingStart(cfg), [Advance(Forked(cfg, e))] + ([Start] + ([ReadHead(0)] + ([Fetch(0)] + []))));
  }

  /** Where reorganisations go deeper, and the cursor can leave `startBlock` behind, an event can be lost for good. */
  lemma DeeperReorgLosesEvent(cfg: Config, env: Env, e: Event)
    requires !Reaches(cfg, env)
    ensures Initial(LosingStart(cfg)) && LegalRun(cfg, env, LosingStart(cfg), LosingRun(cfg, e))
    ensures
      var t := Run(cfg, env, LosingStart(cfg), LosingRun(cfg, e));
      Legal(cfg, env, t, Finish(0)) && t.polls[0].Fetched? && t.polls[0].seen == t.chain == Forked(cfg, e)
      && Apply(cfg, env, t, Finish(0)) == Lost(cfg, e)
  {
    LosingRunEnds(cfg, env, e);
    SecondPollStartsAbove(cfg, e);
    var t := Run(cfg, env, LosingStart(cfg), LosingRun(cfg, e));
    assert Legal(cfg, env, t, Finish(0));
    assert Removed(t.polls, 0) == [];
  }

  /** ... although it is canonical, below the cursor and not in the store. */
  lemma LostIsMissing(cfg: Config, env: Env, e: Event)
    requires !Reaches(cfg, env)
    ensures
      var s := Lost(cfg, e);
      && cfg.startBlock < s.cursor < |s.chain| && e in s.chain[cfg.startBlock]
      && !HasId(s.rows, IdOf(cfg, e))
  {
    assert Forked(cfg, e)[cfg.startBlock] == [e];
  }

  ghost predicate RunMissesNothing(cfg: Config, env: Env, s: System, run: seq<Action>) {
    LegalRun(cfg, env, s, run) ==>
      SettledCovered(cfg, env, Run(cfg, env, s, run)) && FinishesCovered(cfg, env, Run(cfg, env, s, run))
  }

  /** In every run from every chain, no event is missed. */
  ghost predicate MissesNothing(cfg: Config, env: Env) {
    forall s, run :: Initial(s) ==> RunMissesNothing(cfg, env, s, run)
  }

  /**
   No run misses an event exactly if reorganisations go no deeper than `confirmations + overlapBlocks + 1`, or a batch is
   so small that polls never leave `startBlock`.
   */
  lemma MissesNothingExactly(cfg: Config, env: Env)
    ensures MissesNothing(cfg, env) <==> env.reorgDepth <= cfg.confirmations + cfg.overlapBlocks + 1 || cfg.batchSize <= cfg.overlapBlocks + 1
  {
    if Reaches(cfg, env) {
      forall s, run | Initial(s) ensures RunMissesNothing(cfg, env, s, run) {
        if LegalRun(cfg, env, s, run) {
          NoEventMissed(cfg, env, s, run);
        }
      }
    } else {
      var e := Event([], 0, [], []);
      DeeperReorgLosesEvent(cfg, env, e);
      LostIsMissing(cfg, env, e);
      var t := Run(cfg, env, LosingStart(cfg), LosingRun(cfg, e));
      assert !FinishesCovered(cfg, env, t);
      assert !RunMissesNothing(cfg, env, LosingStart(cfg), LosingRun(cfg, e));
    }
  }

  // ---- Between the answer and the inserts ----

  /** Whichever poll finishes next, it leaves covered what is canonical up to its new cursor at that moment. */
  ghost predicate FinishesCanonical(cfg: Config, env: Env, t: System) {
    forall i: nat :: Legal(cfg, env, t, Finish(i)) && t.polls[i].Fetched? ==>
      Covered(cfg, t.chain, Apply(cfg, env, t, Finish(i)).rows, cfg.startBlock, Apply(cfg, env, t, Finish(i)).cursor)
  }

  ghost predicate RunIsCurrent(cfg: Config, env: Env, s: System, run: seq<Action>) {
    LegalRun(cfg, env, s, run) ==> FinishesCanonical(cfg, env, Run(cfg, env, s, run))
  }

  ghost predicate AlwaysCurrent(cfg: Config, env: Env) {
    forall s, run :: Initial(s) ==> RunIsCurrent(cfg, env, s, run)
  }

  lemma SafeIsCurrent(cfg: Config, env: Env, t: System)
    requires Safe(cfg, env, t) && env.reorgDepth <= cfg.confirmations
    ensures FinishesCanonical(cfg, env, t)
  {
    forall i: nat | Legal(cfg, env, t, Finish(i)) && t.polls[i].Fetched?
      ensures Covered(cfg, t.chain, Apply(cfg, env, t, Finish(i)).rows, cfg.startBlock, Apply(cfg, env, t, Finish(i)).cursor)
    {
      var p := t.polls[i];
      assert PollSafe(cfg, env, t, p);
      FinishCovers(cfg, env, t, p);
      forall b, e | 0 <= b < |t.chain| && cfg.startBlock <= b <= To(cfg, p) && e in t.chain[b]
        ensures HasId(InsertAll(cfg, t.rows, p.events), IdOf(cfg, e))
      {
        assert t.chain[b] == p.seen[b];
      }
    }
  }

  function StaleStart(cfg: Config): System { System(EmptyBlocks(cfg.startBlock + cfg.confirmations + 1), [], 0, []) }

  /** `startBlock` gains `e` after the source has answered that it is empty. */
  function StaleRun(cfg: Config, e: Event): seq<Action> {
    [Start] + ([ReadHead(0)] + ([Fetch(0)] + ([Advance(StaleStart(cfg).chain[cfg.startBlock := [e]])] + [])))
  }

  lemma AnswerGoesStale(cfg: Config, env: Env, e: Event)
    requires env.reorgDepth > cfg.confirmations && cfg.batchSize >= 1
    ensures LegalRun(cfg, env, StaleStart(cfg), StaleRun(cfg, e))
    ensures !FinishesCanonical(cfg, env, Run(cfg, env, StaleStart(cfg), StaleRun(cfg, e)))
  {
    var s := StaleStart(cfg);
    var chain := s.chain[cfg.startBlock := [e]];
    var answered := s.(polls := [Answered(cfg, s)]);
    NoEvents(s.chain, cfg.startBlock, cfg.startBlock);
    assert Legal(cfg, env, answered, Advance(chain));
    Unroll(cfg, env, answered, Advance(chain), []);
    PollFetches(cfg, env, s, [Advance(chain)] + []);
    var t := answered.(chain := chain);
    assert Legal(cfg, env, t, Finish(0)) && Apply(cfg, env, t, Finish(0)).rows == [];
    assert e in t.chain[cfg.startBlock] && !HasId([], IdOf(cfg, e));
  }

  /**
   What is canonical at the moment a poll finishes is stored up to its cursor, in every run, exactly if reorganisations
   stay within the confirmations (or there are no batches): one may come between the answer and the inserts.
   */
  lemma AlwaysCurrentExactly(cfg: Config, env: Env)
    ensures AlwaysCurrent(cfg, env) <==> env.reorgDepth <= cfg.confirmations || cfg.batchSize == 0
  {
    if env.reorgDepth <= cfg.confirmations || cfg.batchSize == 0 {
      forall s, run | Initial(s) ensures RunIsCurrent(cfg, env, s, run) {
        if LegalRun(cfg, env, s, run) {
          RunSafe(cfg, env, s, run);
          CurrentWithin(cfg, env, Run(cfg, env, s, run));
        }
      }
    } else {
      var e := Event([], 0, [], []);
      AnswerGoesStale(cfg, env, e);
      assert !RunIsCurrent(cfg, env, StaleStart(cfg), StaleRun(cfg, e));
    }
  }

  lemma CurrentWithin(cfg: Config, env: Env, t: System)
    requires Safe(cfg, env, t) && (env.reorgDepth <= cfg.confirmations || cfg.batchSize == 0)
    ensures FinishesCanonical(cfg, env, t)
  {
    if env.reorgDepth <= cfg.confirmations {
      SafeIsCurrent(cfg, env, t);
    }
  }
}
