/**
 The block windows of the context sync (packages/watchtower-core/src/context/ingestContext.ts) and its cursor table
 (packages/watchtower-core/src/context/contextStore.ts).
 */
module Context {
  import opened Texts
  import opened Options
  import opened Lists

  /** The row key of the cursor table. */
  datatype Key = Key(agentId: Text, chainId: int)

  /** What one sync asked for and reported. */
  datatype Result = Result(
    fromBlock: int,
    toBlock: int,
    txCount: nat,
    priorFrom: int,
    priorTo: int,
    priorWindowTxCount: nat,
    skipped: bool)

  // ---- Transactions ----

  /** How many transactions the blocks of [from, last] hold, `txs` giving the number in each block. */
  function Count(txs: int -> nat, from: int, last: int): nat
    decreases last - from
  {
    if from > last then 0 else txs(from) + Count(txs, from + 1, last)
  }

  lemma {:induction false} CountSplit(txs: int -> nat, from: int, mid: int, last: int)
    requires from <= mid + 1 && mid <= last
    ensures Count(txs, from, last) == Count(txs, from, mid) + Count(txs, mid + 1, last)
    decreases mid - from
  {
    if from <= mid {
      CountSplit(txs, from + 1, mid, last);
    }
  }

  /** The transactions of the blocks in [from, last], by their places in `ledger`, which holds the block of each transaction. */
  function Placed(ledger: seq<int>, from: int, last: int): set<int> {
    set i | 0 <= i < |ledger| && from <= ledger[i] <= last
  }

  ghost predicate IsLedger(ledger: seq<int>, txs: int -> nat) { forall b :: txs(b) == multiset(ledger)[b] }

  lemma {:induction false} PlacedInBlock(ledger: seq<int>, block: int)
    ensures |Placed(ledger, block, block)| == multiset(ledger)[block]
  {
    if ledger == [] {
      assert Placed(ledger, block, block) == {};
    } else {
      var front, last := ledger[..|ledger| - 1], ledger[|ledger| - 1];
      assert ledger == front + [last];
      PlacedInBlock(front, block);
      assert Placed(ledger, block, block) == Placed(front, block, block) + if last == block then {|front|} else {};
    }
  }

  lemma DisjointUnion<T>(a: set<T>, b: set<T>)
    requires a !! b
    ensures |a + b| == |a| + |b|
  {
  }

  /** The count is the number of transactions in the range. */
  lemma {:induction false} CountsTransactions(ledger: seq<int>, txs: int -> nat, from: int, last: int)
    requires IsLedger(ledger, txs)
    ensures Count(txs, from, last) == |Placed(ledger, from, last)|
    decreases last - from
  {
    if from > last {
      assert Placed(ledger, from, last) == {};
    } else {
      CountsTransactions(ledger, txs, from + 1, last);
      PlacedInBlock(ledger, from);
      assert Placed(ledger, from, last) == Placed(ledger, from, from) + Placed(ledger, from + 1, last);
      DisjointUnion(Placed(ledger, from, from), Placed(ledger, from + 1, last));
    }
  }

  // ---- The window arithmetic ----

  /** Without an override: the last `maxBlocks` before the tip on the first run, the block after the cursor later. */
  function FromBlock(cursor: int, tip: int, maxBlocks: int, override: Option<int>): int {
    if override.Some? then override.value
    else if cursor == 0 then (if tip > maxBlocks then tip - maxBlocks else 0)
    else cursor + 1
  }

  function EffectiveTo(from: int, last: int, maxBlocks: int): int {
    if last - from > maxBlocks then from + maxBlocks - 1 else last
  }

  function PriorFrom(from: int, last: int): int {
    var size := last - from + 1;
    if from > size then from - size else 0
  }

  function PriorTo(from: int): int { if from > 0 then from - 1 else 0 }

  // ---- The sync ----

  /** `cursors` is the cursor table; a missing row reads as 0. */
  class ContextStore {
    var cursors: map<Key, int>

    constructor ()
      ensures cursors == map[]
    {
      cursors := map[];
    }

    function GetContextCursor(key: Key): int
      reads this
    {
      CursorOf(cursors, key)
    }

    method SetContextCursor(key: Key, lastBlock: int)
      modifies this
      ensures cursors == old(cursors)[key := lastBlock]
    {
      cursors := cursors[key := lastBlock];
    }

    method SyncContext(key: Key, tip: int, txs: int -> nat, maxBlocks: int, fromBlock: Option<int>, toBlock: Option<int>)
      returns (r: Result)
      modifies this
      ensures
        var from := FromBlock(old(GetContextCursor(key)), tip, maxBlocks, fromBlock);
        var last := if toBlock.Some? then toBlock.value else tip;
        && r.fromBlock == from
        && (r.skipped <==> from > last)
        && (r.skipped ==> cursors == old(cursors) && r.toBlock == last && r.txCount == 0)
        && (!r.skipped ==>
              && r.toBlock == EffectiveTo(from, last, maxBlocks)
              && cursors == old(cursors)[key := r.toBlock]
              && r.txCount == Count(txs, from, r.toBlock)
              && r.priorFrom == PriorFrom(from, r.toBlock) && r.priorTo == PriorTo(from)
              && r.priorWindowTxCount == Count(txs, r.priorFrom, r.priorTo))
      ensures fromBlock.Some? ==> r.fromBlock == fromBlock.value
      ensures fromBlock.Some? && toBlock.Some? && fromBlock.value <= toBlock.value <= fromBlock.value + maxBlocks ==>
                !r.skipped && r.toBlock == toBlock.value && r.txCount == Count(txs, fromBlock.value, toBlock.value)
      ensures fromBlock.None? && toBlock.None? && tip >= 0 ==>
                (if r.skipped then None else Some(Window(r.fromBlock, r.toBlock))) == Step(old(GetContextCursor(key)), tip, maxBlocks)
    {
      var cursor := GetContextCursor(key);
      var from := FromBlock(cursor, tip, maxBlocks, fromBlock);
      var last := if toBlock.Some? then toBlock.value else tip;
      if from > last {
        return Result(from, last, 0, 0, 0, 0, true);
      }
      var effectiveTo := if last - from > maxBlocks then from + maxBlocks - 1 else last;
      var txCount := Count(txs, from, effectiveTo);
      var priorWindowSize := effectiveTo - from + 1;
      var priorFrom := if from > priorWindowSize then from - priorWindowSize else 0;
      var priorTo := if from > 0 then from - 1 else 0;
      var priorWindowTxCount := 0;
      if priorFrom <= priorTo {
        priorWindowTxCount := Count(txs, priorFrom, priorTo);
      }
      SetContextCursor(key, effectiveTo);
      r := Result(from, effectiveTo, txCount, priorFrom, priorTo, priorWindowTxCount, false);
    }
  }

  function CursorOf(cursors: map<Key, int>, key: Key): int {
    if key in cursors then cursors[key] else 0
  }

  // ---- Runs without overrides ----

  datatype Window = Window(from: int, last: int)

  /** The window of one sync at `cursor`, if it is not skipped. */
  function Step(cursor: int, tip: nat, maxBlocks: int): Option<Window> {
    var from := FromBlock(cursor, tip, maxBlocks, None);
    if from > tip then None else Some(Window(from, EffectiveTo(from, tip, maxBlocks)))
  }

  function CursorAfter(maxBlocks: int, tips: seq<nat>): int {
    if tips == [] then 0
    else
      var cursor := CursorAfter(maxBlocks, tips[..|tips| - 1]);
      var w := Step(cursor, tips[|tips| - 1], maxBlocks);
      if w.Some? then w.value.last else cursor
  }

  /** The windows of the syncs that were not skipped, one sync for each observed tip. */
  function Windows(maxBlocks: int, tips: seq<nat>): seq<Window> {
    if tips == [] then []
    else
      var before := tips[..|tips| - 1];
      var w := Step(CursorAfter(maxBlocks, before), tips[|tips| - 1], maxBlocks);
      Windows(maxBlocks, before) + Listed(w)
  }

  function Listed(w: Option<Window>): seq<Window> { if w.Some? then [w.value] else [] }

  lemma OneMoreTip(maxBlocks: int, tips: seq<nat>, tip: nat)
    ensures
      var w := Step(CursorAfter(maxBlocks, tips), tip, maxBlocks);
      && Windows(maxBlocks, tips + [tip]) == Windows(maxBlocks, tips) + Listed(w)
      && CursorAfter(maxBlocks, tips + [tip]) == if w.Some? then w.value.last else CursorAfter(maxBlocks, tips)
  {
    assert (tips + [tip])[..|tips|] == tips;
  }

  predicate Adjacent(windows: seq<Window>) {
    forall i :: 0 <= i < |windows| - 1 ==> windows[i + 1].from == windows[i].last + 1
  }

  predicate Bounded(w: Window, maxBlocks: int) {
    0 <= w.from <= w.last && w.last - w.from + 1 <= maxBlocks + 1
  }

  /** Adjacent windows of bounded size that end at a positive cursor. */
  ghost predicate Chained(ws: seq<Window>, cursor: int, maxBlocks: int) {
    && ws != [] && ws[|ws| - 1].last == cursor >= 1
    && Adjacent(ws) && forall w <- ws :: Bounded(w, maxBlocks)
  }

  lemma StepBounds(cursor: int, tip: nat, maxBlocks: int)
    requires cursor >= 0 && maxBlocks >= 1
    ensures
      var w := Step(cursor, tip, maxBlocks);
      && (w.Some? ==> Bounded(w.value, maxBlocks) && cursor <= w.value.last <= tip)
      && (cursor > 0 && w.Some? ==> w.value.from == cursor + 1)
      && (cursor == 0 ==> w.Some? && w.value.last == tip)
  {
  }

  lemma ChainedOneMore(ws: seq<Window>, cursor: int, tip: nat, maxBlocks: int)
    requires Chained(ws, cursor, maxBlocks) && maxBlocks >= 1
    ensures Chained(ws + Listed(Step(cursor, tip, maxBlocks)), Synced(cursor, tip, maxBlocks), maxBlocks)
  {
    StepBounds(cursor, tip, maxBlocks);
  }

  /** After a first run at a tip of at least 1: adjacent windows of at most maxBlocks + 1 blocks up to a positive cursor. */
  lemma {:induction false} WindowsAreAdjacent(maxBlocks: int, tips: seq<nat>)
    requires maxBlocks >= 1 && tips != [] && tips[0] >= 1
    ensures Chained(Windows(maxBlocks, tips), CursorAfter(maxBlocks, tips), maxBlocks)
  {
    var front, tip := tips[..|tips| - 1], tips[|tips| - 1];
    if front == [] {
      StepBounds(0, tip, maxBlocks);
    } else {
      WindowsAreAdjacent(maxBlocks, front);
      ChainedOneMore(Windows(maxBlocks, front), CursorAfter(maxBlocks, front), tip, maxBlocks);
    }
  }

  lemma {:induction false} AdjacentCovers(ws: seq<Window>, maxBlocks: int, i: nat)
    requires ws != [] && Adjacent(ws) && i < |ws|
    requires forall w <- ws :: Bounded(w, maxBlocks)
    ensures ws[0].from <= ws[i].from <= ws[i].last
    ensures forall j :: 0 <= j < i ==> ws[j].last < ws[i].from
  {
    assert Bounded(ws[i], maxBlocks);
    if i > 0 {
      AdjacentCovers(ws, maxBlocks, i - 1);
    }
  }

  predicate Has(w: Window, block: int) { w.from <= block <= w.last }

  /** Some window holds the block. */
  predicate Held(windows: seq<Window>, block: int) { exists w <- windows :: Has(w, block) }

  /** No block is in two windows. */
  ghost predicate NoneTwice(windows: seq<Window>) {
    forall i, j, block :: 0 <= i < j < |windows| ==> !(Has(windows[i], block) && Has(windows[j], block))
  }

  /** Every block from the first window up to `last` is in some window. */
  ghost predicate NoneSkipped(windows: seq<Window>, last: int) {
    windows != [] ==> forall block | windows[0].from <= block <= last :: Held(windows, block)
  }

  /** No window reaches below the first one or above `last`. */
  predicate Within(windows: seq<Window>, last: int) {
    forall w <- windows :: windows[0].from <= w.from && w.last <= last
  }

  /** Adjacent windows repeat no block, skip none and end at the last one. */
  lemma AdjacentPartition(ws: seq<Window>, maxBlocks: int)
    requires ws != [] && Adjacent(ws) && forall w <- ws :: Bounded(w, maxBlocks)
    ensures NoneTwice(ws) && NoneSkipped(ws, ws[|ws| - 1].last) && Within(ws, ws[|ws| - 1].last)
  {
    var last := |ws| - 1;
    forall i, j, block | 0 <= i < j < |ws| ensures !(Has(ws[i], block) && Has(ws[j], block)) {
      AdjacentCovers(ws, maxBlocks, j);
    }
    forall block | ws[0].from <= block <= ws[last].last ensures Held(ws, block) {
      var i := FindWindow(ws, block);
      assert ws[i] in ws;
    }
    forall w | w in ws ensures ws[0].from <= w.from && w.last <= ws[last].last {
      var i :| 0 <= i < |ws| && ws[i] == w;
      AdjacentCovers(ws, maxBlocks, i);
      AdjacentCovers(ws, maxBlocks, last);
    }
  }

  /**
   After a first tip of at least 1, every block from the first window on, up to the cursor, is in exactly one window,
   and no other block is in any.
   */
  lemma EachBlockOnce(maxBlocks: int, tips: seq<nat>)
    requires maxBlocks >= 1 && tips != [] && tips[0] >= 1
    ensures
      var ws := Windows(maxBlocks, tips);
      NoneTwice(ws) && NoneSkipped(ws, CursorAfter(maxBlocks, tips)) && Within(ws, CursorAfter(maxBlocks, tips))
  {
    WindowsAreAdjacent(maxBlocks, tips);
    AdjacentPartition(Windows(maxBlocks, tips), maxBlocks);
  }

  lemma {:induction false} FindWindow(ws: seq<Window>, block: int) returns (i: nat)
    requires ws != [] && Adjacent(ws) && ws[0].from <= block <= ws[|ws| - 1].last
    ensures i < |ws| && Has(ws[i], block)
    decreases |ws|
  {
    if block <= ws[0].last {
      return 0;
    }
    assert ws[1].from == ws[0].last + 1;
    var tail := ws[1..];
    assert Adjacent(tail) by {
      forall k | 0 <= k < |tail| - 1 ensures tail[k + 1].from == tail[k].last + 1 {
        assert ws[k + 1 + 1].from == ws[k + 1].last + 1;
      }
    }
    i := FindWindow(tail, block);
    i := i + 1;
  }

  /** The counts of the syncs that were not skipped, added up. */
  function TotalCount(txs: int -> nat, windows: seq<Window>): nat {
    if windows == [] then 0
    else
      var w := windows[|windows| - 1];
      TotalCount(txs, windows[..|windows| - 1]) + Count(txs, w.from, w.last)
  }

  lemma {:induction false} AdjacentTotal(txs: int -> nat, maxBlocks: int, ws: seq<Window>)
    requires ws != [] && Adjacent(ws) && forall w <- ws :: Bounded(w, maxBlocks)
    ensures TotalCount(txs, ws) == Count(txs, ws[0].from, ws[|ws| - 1].last)
  {
    var n := |ws|;
    var front := ws[..n - 1];
    if n > 1 {
      AdjacentTotal(txs, maxBlocks, front);
      AdjacentCovers(ws, maxBlocks, n - 1);
      AdjacentCovers(ws, maxBlocks, n - 2);
      CountSplit(txs, ws[0].from, ws[n - 2].last, ws[n - 1].last);
    } else {
      assert front == [];
    }
  }

  /** The reported counts sum to the transactions of the union: none is missed, none counted twice. */
  lemma CountsAddUp(txs: int -> nat, maxBlocks: int, tips: seq<nat>)
    requires maxBlocks >= 1 && tips != [] && tips[0] >= 1
    ensures
      var ws := Windows(maxBlocks, tips);
      ws != [] && TotalCount(txs, ws) == Count(txs, ws[0].from, CursorAfter(maxBlocks, tips))
  {
    WindowsAreAdjacent(maxBlocks, tips);
    AdjacentTotal(txs, maxBlocks, Windows(maxBlocks, tips));
  }

  /** In terms of the transactions themselves: the counts sum to the number of those in the blocks covered. */
  lemma CountsEachTransactionOnce(ledger: seq<int>, txs: int -> nat, maxBlocks: int, tips: seq<nat>)
    requires IsLedger(ledger, txs) && maxBlocks >= 1 && tips != [] && tips[0] >= 1
    ensures
      var ws := Windows(maxBlocks, tips);
      ws != [] && TotalCount(txs, ws) == |Placed(ledger, ws[0].from, CursorAfter(maxBlocks, tips))|
  {
    CountsAddUp(txs, maxBlocks, tips);
    CountsTransactions(ledger, txs, Windows(maxBlocks, tips)[0].from, CursorAfter(maxBlocks, tips));
  }

  // ---- The sentinel: cursor 0 doubles as "never run" ----

  /** How many tips of 0 come first: each is forgotten by the next sync. */
  function LeadingZeros(tips: seq<nat>): (z: nat)
    ensures z <= |tips| && (z < |tips| ==> tips[z] > 0)
    ensures forall i :: 0 <= i < z ==> tips[i] == 0
  {
    if tips != [] && tips[0] == 0 then 1 + LeadingZeros(tips[1..]) else 0
  }

  const BLOCK_0: Window := Window(0, 0)

  function Zeros(z: nat): seq<Window> { seq(z, _ => BLOCK_0) }

  lemma {:induction false} ZeroTips(maxBlocks: int, tips: seq<nat>)
    requires maxBlocks >= 1 && forall i :: 0 <= i < |tips| ==> tips[i] == 0
    ensures Windows(maxBlocks, tips) == Zeros(|tips|) && CursorAfter(maxBlocks, tips) == 0
  {
    if tips != [] {
      ZeroTips(maxBlocks, tips[..|tips| - 1]);
    }
  }

  /** `tips` after `before` do what they do in a first run. */
  ghost predicate StartsAfresh(maxBlocks: int, before: seq<nat>, tips: seq<nat>) {
    && Windows(maxBlocks, before + tips) == Windows(maxBlocks, before) + Windows(maxBlocks, tips)
    && CursorAfter(maxBlocks, before + tips) == CursorAfter(maxBlocks, tips)
  }

  lemma AfreshOneMore(maxBlocks: int, before: seq<nat>, tips: seq<nat>, tip: nat)
    requires StartsAfresh(maxBlocks, before, tips)
    ensures StartsAfresh(maxBlocks, before, tips + [tip])
  {
    OneMoreTip(maxBlocks, tips, tip);
    OneMoreTip(maxBlocks, before + tips, tip);
    Associative(before, tips, [tip]);
    Associative(Windows(maxBlocks, before), Windows(maxBlocks, tips), Listed(Step(CursorAfter(maxBlocks, tips), tip, maxBlocks)));
  }

  /** What follows a run that leaves cursor 0 is what a first run would be. */
  lemma {:induction false} Forgotten(maxBlocks: int, before: seq<nat>, tips: seq<nat>)
    requires CursorAfter(maxBlocks, before) == 0
    ensures StartsAfresh(maxBlocks, before, tips)
  {
    if tips == [] {
      assert before + tips == before;
    } else {
      var front, tip := tips[..|tips| - 1], tips[|tips| - 1];
      Forgotten(maxBlocks, before, front);
      AfreshOneMore(maxBlocks, before, front, tip);
      assert tips == front + [tip];
    }
  }

  /** The windows of any run: one for block 0 per leading tip of 0, and then those of a first run at a positive tip. */
  lemma SplitAtZeros(maxBlocks: int, tips: seq<nat>)
    requires maxBlocks >= 1
    ensures
      var z := LeadingZeros(tips);
      && Windows(maxBlocks, tips) == Zeros(z) + Windows(maxBlocks, tips[z..])
      && CursorAfter(maxBlocks, tips) == CursorAfter(maxBlocks, tips[z..])
  {
    var z := LeadingZeros(tips);
    ZeroTips(maxBlocks, tips[..z]);
    Forgotten(maxBlocks, tips[..z], tips[z..]);
    assert tips == tips[..z] + tips[z..];
  }

  /** The first window of a run that starts at a positive tip. */
  lemma {:induction false} FirstWindow(maxBlocks: int, tips: seq<nat>)
    requires maxBlocks >= 1 && tips != [] && tips[0] >= 1
    ensures
      var ws := Windows(maxBlocks, tips);
      ws != [] && ws[0] == Window(if tips[0] > maxBlocks then tips[0] - maxBlocks else 0, tips[0])
  {
    if |tips| > 1 {
      FirstWindow(maxBlocks, tips[..|tips| - 1]);
    } else {
      assert tips[..0] == [];
    }
  }

  /** Where the first positive tip comes after `z` tips of 0, it is too low to leave block 0 alone. */
  predicate Repeats(maxBlocks: int, tips: seq<nat>) {
    var z := LeadingZeros(tips);
    z >= 2 || (z == 1 && z < |tips| && tips[z] <= maxBlocks)
  }

  /** ... or too high to reach back to it. */
  predicate Skips(maxBlocks: int, tips: seq<nat>) {
    var z := LeadingZeros(tips);
    z >= 1 && z < |tips| && tips[z] > maxBlocks + 1
  }

  /** A run repeats a block exactly if it starts with two tips of 0, or with one and then a tip of at most maxBlocks. */
  lemma RepeatsExactly(maxBlocks: int, tips: seq<nat>)
    requires maxBlocks >= 1
    ensures NoneTwice(Windows(maxBlocks, tips)) <==> !Repeats(maxBlocks, tips)
  {
    var z := LeadingZeros(tips);
    var ws, later := Windows(maxBlocks, tips), Windows(maxBlocks, tips[z..]);
    SplitAtZeros(maxBlocks, tips);
    if z < |tips| {
      FirstWindow(maxBlocks, tips[z..]);
      EachBlockOnce(maxBlocks, tips[z..]);
    }
    if z >= 2 {
      assert Has(ws[0], 0) && Has(ws[1], 0);
    } else if Repeats(maxBlocks, tips) {
      assert Has(ws[0], 0) && Has(ws[1], 0);
    } else if z == 0 {
      assert ws == later;
    } else {
      AfterBlock0(ws, later, maxBlocks);
    }
  }

  /** One window for block 0 before windows that lie above it. */
  lemma AfterBlock0(ws: seq<Window>, later: seq<Window>, maxBlocks: int)
    requires ws == Zeros(1) + later && NoneTwice(later)
    requires forall w <- later :: w.from >= 1
    ensures NoneTwice(ws)
  {
    forall i, j, block | 0 <= i < j < |ws| ensures !(Has(ws[i], block) && Has(ws[j], block)) {
      assert ws[j] == later[j - 1] && later[j - 1] in later;
      if i > 0 {
        assert ws[i] == later[i - 1];
      }
    }
  }

  /** After windows for block 0 alone, later ones leave a gap exactly if they start above block 1. */
  lemma SkipsAfterZeros(ws: seq<Window>, z: nat, later: seq<Window>, cursor: int)
    requires z >= 1 && ws == Zeros(z) + later && later != [] && 0 <= later[0].from && 1 <= cursor
    requires NoneSkipped(later, cursor) && Within(later, cursor)
    ensures NoneSkipped(ws, cursor) <==> later[0].from <= 1
  {
    assert ws[0] == BLOCK_0 && ws[0] in ws;
    if later[0].from <= 1 {
      forall block | 0 <= block <= cursor ensures Held(ws, block) {
        if block > 0 {
          assert Held(later, block);
        }
      }
    } else {
      assert !Held(ws, 1);
    }
  }

  /** It skips blocks exactly if tips of 0 are followed by a first positive tip above maxBlocks + 1. */
  lemma SkipsExactly(maxBlocks: int, tips: seq<nat>)
    requires maxBlocks >= 1
    ensures NoneSkipped(Windows(maxBlocks, tips), CursorAfter(maxBlocks, tips)) <==> !Skips(maxBlocks, tips)
  {
    var z := LeadingZeros(tips);
    var ws := Windows(maxBlocks, tips);
    SplitAtZeros(maxBlocks, tips);
    if z == |tips| {
      assert ws == Zeros(z);
      assert z > 0 ==> ws[0] == BLOCK_0 && ws[0] in ws;
    } else {
      PositiveRun(maxBlocks, tips[z..]);
      if z == 0 {
        assert ws == Windows(maxBlocks, tips[z..]);
      } else {
        SkipsAfterZeros(ws, z, Windows(maxBlocks, tips[z..]), CursorAfter(maxBlocks, tips[z..]));
      }
    }
  }

  /** All that is known of a run that starts at a positive tip. */
  lemma PositiveRun(maxBlocks: int, tips: seq<nat>)
    requires maxBlocks >= 1 && tips != [] && tips[0] >= 1
    ensures
      var ws, cursor := Windows(maxBlocks, tips), CursorAfter(maxBlocks, tips);
      && ws != [] && cursor >= 1 && Adjacent(ws)
      && ws[0].from == (if tips[0] > maxBlocks then tips[0] - maxBlocks else 0)
      && NoneTwice(ws) && NoneSkipped(ws, cursor) && Within(ws, cursor)
  {
    FirstWindow(maxBlocks, tips);
    WindowsAreAdjacent(maxBlocks, tips);
    EachBlockOnce(maxBlocks, tips);
  }

  lemma AdjacentAfterBlock0(ws: seq<Window>, later: seq<Window>)
    requires ws == Zeros(1) + later && Adjacent(later) && later != []
    ensures Adjacent(ws) <==> later[0].from == 1
  {
    assert ws[0] == BLOCK_0 && ws[1] == later[0];
    if later[0].from == 1 {
      forall i | 0 <= i < |ws| - 1 ensures ws[i + 1].from == ws[i].last + 1 {
        assert i > 0 ==> ws[i] == later[i - 1] && ws[i + 1] == later[i - 1 + 1];
      }
    }
  }

  /** The windows are adjacent exactly under the same condition that makes every block be covered once. */
  lemma AdjacentExactly(maxBlocks: int, tips: seq<nat>)
    requires maxBlocks >= 1 && tips != []
    ensures Adjacent(Windows(maxBlocks, tips)) <==> tips[0] >= 1 || |tips| == 1 || tips[1] == maxBlocks + 1
  {
    var z := LeadingZeros(tips);
    var ws := Windows(maxBlocks, tips);
    SplitAtZeros(maxBlocks, tips);
    if z >= 2 {
      assert ws[0] == BLOCK_0 && ws[1] == BLOCK_0;
    } else if z < |tips| {
      PositiveRun(maxBlocks, tips[z..]);
      if z == 0 {
        assert ws == Windows(maxBlocks, tips[z..]);
      } else {
        AdjacentAfterBlock0(ws, Windows(maxBlocks, tips[z..]));
      }
    }
  }

  /** No block is repeated and none skipped exactly if the first tip is positive, or its successor, if any, is maxBlocks + 1. */
  lemma EachBlockOnceExactly(maxBlocks: int, tips: seq<nat>)
    requires maxBlocks >= 1 && tips != []
    ensures
      NoneTwice(Windows(maxBlocks, tips)) && NoneSkipped(Windows(maxBlocks, tips), CursorAfter(maxBlocks, tips))
      <==> tips[0] >= 1 || |tips| == 1 || tips[1] == maxBlocks + 1
  {
    RepeatsExactly(maxBlocks, tips);
    SkipsExactly(maxBlocks, tips);
  }

  /** After a first tip of 0, block 0 is covered again exactly if the next tip is at most maxBlocks. */
  lemma TipZeroRescans(maxBlocks: int, tips: seq<nat>)
    requires maxBlocks >= 1 && |tips| >= 2 && tips[0] == 0
    ensures NoneTwice(Windows(maxBlocks, tips)) <==> tips[1] > maxBlocks
    ensures
      var ws := Windows(maxBlocks, tips);
      |ws| >= 2 && Has(ws[0], 0) && (Has(ws[1], 0) <==> tips[1] <= maxBlocks)
  {
    RepeatsExactly(maxBlocks, tips);
    SplitAtZeros(maxBlocks, tips);
    var z := LeadingZeros(tips);
    if z < |tips| {
      FirstWindow(maxBlocks, tips[z..]);
    }
  }

  // ---- Progress ----

  /** The cursor `n` syncs later, the tip not moving; the last sync may close one block more than `maxBlocks`. */
  function Reached(cursor: int, tip: nat, maxBlocks: int, n: nat): int {
    var whole := n * maxBlocks;
    if tip <= cursor then cursor
    else if n > 0 && tip - cursor <= whole + 1 then tip
    else cursor + whole
  }

  /** The tip seen `n` times. */
  function Same(tip: nat, n: nat): seq<nat> { if n == 0 then [] else Same(tip, n - 1) + [tip] }

  function Synced(cursor: int, tip: nat, maxBlocks: int): int {
    var w := Step(cursor, tip, maxBlocks);
    if w.Some? then w.value.last else cursor
  }

  function SyncedTimes(cursor: int, tip: nat, maxBlocks: int, n: nat): int {
    if n == 0 then cursor else Synced(SyncedTimes(cursor, tip, maxBlocks, n - 1), tip, maxBlocks)
  }

  lemma {:induction false} CursorAfterSame(maxBlocks: int, tips: seq<nat>, tip: nat, n: nat)
    ensures CursorAfter(maxBlocks, tips + Same(tip, n)) == SyncedTimes(CursorAfter(maxBlocks, tips), tip, maxBlocks, n)
  {
    if n == 0 {
      assert tips + [] == tips;
    } else {
      CursorAfterSame(maxBlocks, tips, tip, n - 1);
      OneMoreTip(maxBlocks, tips + Same(tip, n - 1), tip);
      Associative(tips, Same(tip, n - 1), [tip]);
    }
  }

  lemma {:induction false} SyncedTimesReaches(cursor: int, tip: nat, maxBlocks: int, n: nat)
    requires cursor >= 1 && maxBlocks >= 1
    ensures SyncedTimes(cursor, tip, maxBlocks, n) == Reached(cursor, tip, maxBlocks, n)
  {
    if n > 0 {
      SyncedTimesReaches(cursor, tip, maxBlocks, n - 1);
      OneMoreSync(cursor, tip, maxBlocks, n, (n - 1) * maxBlocks);
    }
  }

  /** Repeated syncs reach a fixed tip, in exactly as many runs as the gap takes. */
  lemma CatchesUp(maxBlocks: int, tips: seq<nat>, tip: nat, n: nat)
    requires maxBlocks >= 1 && tips != [] && tips[0] >= 1
    ensures CursorAfter(maxBlocks, tips + Same(tip, n)) == Reached(CursorAfter(maxBlocks, tips), tip, maxBlocks, n)
  {
    WindowsAreAdjacent(maxBlocks, tips);
    CursorAfterSame(maxBlocks, tips, tip, n);
    SyncedTimesReaches(CursorAfter(maxBlocks, tips), tip, maxBlocks, n);
  }

  lemma OneMoreSync(start: int, tip: nat, maxBlocks: int, n: nat, whole: nat)
    requires start >= 1 && maxBlocks >= 1 && n >= 1 && whole == (n - 1) * maxBlocks
    ensures
      Reached(start, tip, maxBlocks, n) == Synced(Reached(start, tip, maxBlocks, n - 1), tip, maxBlocks)
  {
    assert n * maxBlocks == whole + maxBlocks;
    assert n == 1 ==> whole == 0;
    assert n > 1 ==> whole >= maxBlocks;
  }

  /** A sync behind the tip moves the cursor exactly when maxBlocks is positive, as the schema demands. */
  lemma ProgressNeedsPositive(maxBlocks: int)
    ensures (forall cursor: nat, tip: nat :: 1 <= cursor < tip ==> Advances(cursor, tip, maxBlocks)) <==> maxBlocks >= 1
  {
    if maxBlocks < 1 {
      assert !Advances(1, 3, maxBlocks);
    }
  }

  predicate Advances(cursor: nat, tip: nat, maxBlocks: int) {
    var w := Step(cursor, tip, maxBlocks);
    w.Some? && w.value.last > cursor
  }

  // ---- The prior window ----

  /**
   Below a positive fromBlock the prior window is the min(size, fromBlock) blocks just before the current window;
   at fromBlock 0 it is block 0, which the current window holds too.
   */
  lemma PriorWindow(from: int, last: int)
    requires 0 <= from <= last
    ensures
      var size := last - from + 1;
      var prior := Window(PriorFrom(from, last), PriorTo(from));
      && (from > 0 ==> prior.last == from - 1 && prior.last - prior.from + 1 == if size < from then size else from)
      && prior.from <= prior.last
      && ((forall b :: !(Has(prior, b) && Has(Window(from, last), b))) <==> from > 0)
  {
    var prior := Window(PriorFrom(from, last), PriorTo(from));
    if from == 0 {
      assert Has(prior, 0) && Has(Window(from, last), 0);
    }
  }

  // ---- Many agents ----

  /** One sync of one agent. */
  datatype Event = Event(key: Key, tip: nat)

  /** The cursor table after syncs of many agents, in any order. */
  function CursorsAfter(maxBlocks: int, events: seq<Event>): map<Key, int> {
    if events == [] then map[]
    else
      var e := events[|events| - 1];
      var cursors := CursorsAfter(maxBlocks, events[..|events| - 1]);
      var w := Step(CursorOf(cursors, e.key), e.tip, maxBlocks);
      if w.Some? then cursors[e.key := w.value.last] else cursors
  }

  /** The tips that the syncs of `key` saw. */
  function TipsOf(events: seq<Event>, key: Key): seq<nat> {
    if events == [] then []
    else
      var e := events[|events| - 1];
      TipsOf(events[..|events| - 1], key) + if e.key == key then [e.tip] else []
  }

  /** Interleaved syncs do not disturb each other: each agent's cursor is that of its own run. */
  lemma {:induction false} AgentsAreIndependent(maxBlocks: int, events: seq<Event>, key: Key)
    ensures CursorOf(CursorsAfter(maxBlocks, events), key) == CursorAfter(maxBlocks, TipsOf(events, key))
  {
    if events != [] {
      var e, before := events[|events| - 1], events[..|events| - 1];
      AgentsAreIndependent(maxBlocks, before, key);
      if e.key == key {
        var tips := TipsOf(before, key) + [e.tip];
        assert tips[..|tips| - 1] == TipsOf(before, key);
      } else {
        assert TipsOf(before, key) + [] == TipsOf(before, key);
      }
    }
  }
}
