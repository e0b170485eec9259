/**
 Context syncs of one agent down to the awaits between reading and writing the cursor, where they interleave and die
 (packages/watchtower-core/src/context/ingestContext.ts).
 */
module SyncOverlap {
  import opened Lists
  import opened Context

  /** `flights` holds the cursor each running sync has read; `tips` and `windows` record what the finished ones saw and counted. */
  datatype System = System(cursor: int, flights: seq<int>, tips: seq<nat>, windows: seq<Window>)

  datatype Move =
    | Begin                         // a sync reads the cursor
    | Complete(i: nat, tip: nat)    // it counts its window and writes the cursor, or is skipped
    | Die(i: nat)                   // it ends before it has stored anything

  predicate Legal(overlaps: bool, s: System, m: Move) {
    match m
    case Begin => overlaps || s.flights == []
    case Complete(i, _) => i < |s.flights|
    case Die(i) => i < |s.flights|
  }

  function Apply(maxBlocks: int, overlaps: bool, s: System, m: Move): System
    requires Legal(overlaps, s, m)
  {
    match m
    case Begin => s.(flights := s.flights + [s.cursor])
    case Complete(i, tip) =>
      var w := Step(s.flights[i], tip, maxBlocks);
      System(
        if w.Some? then w.value.last else s.cursor,
        Removed(s.flights, i),
        s.tips + [tip],
        s.windows + Listed(w))
    case Die(i) => s.(flights := Removed(s.flights, i))
  }

  predicate LegalRun(maxBlocks: int, overlaps: bool, s: System, run: seq<Move>)
    decreases |run|
  {
    run == [] || (Legal(overlaps, s, run[0]) && LegalRun(maxBlocks, overlaps, Apply(maxBlocks, overlaps, s, run[0]), run[1..]))
  }

  function Run(maxBlocks: int, overlaps: bool, s: System, run: seq<Move>): System
    requires LegalRun(maxBlocks, overlaps, s, run)
    decreases |run|
  {
    if run == [] then s else Run(maxBlocks, overlaps, Apply(maxBlocks, overlaps, s, run[0]), run[1..])
  }

  const START: System := System(0, [], [], [])

  // ---- One sync after the other ----

  /** What the finished syncs did is what a sequence of syncs does, and the running one has read the cursor as it is. */
  ghost predicate InTurn(maxBlocks: int, s: System) {
    && s.windows == Windows(maxBlocks, s.tips) && s.cursor == CursorAfter(maxBlocks, s.tips)
    && (s.flights == [] || s.flights == [s.cursor])
  }

  lemma StepInTurn(maxBlocks: int, s: System, m: Move)
    requires InTurn(maxBlocks, s) && Legal(false, s, m)
    ensures InTurn(maxBlocks, Apply(maxBlocks, false, s, m))
  {
    if m.Complete? {
      OneMoreTip(maxBlocks, s.tips, m.tip);
    }
  }

  lemma {:induction false} RunInTurn(maxBlocks: int, s: System, run: seq<Move>)
    requires InTurn(maxBlocks, s) && LegalRun(maxBlocks, false, s, run)
    ensures InTurn(maxBlocks, Run(maxBlocks, false, s, run))
    decreases |run|
  {
    if run != [] {
      StepInTurn(maxBlocks, s, run[0]);
      RunInTurn(maxBlocks, Apply(maxBlocks, false, s, run[0]), run[1..]);
    }
  }

  /** Syncs that follow one another add up to the runs of `Context`, whichever of them die. */
  lemma SerialSyncsAreRuns(maxBlocks: int, run: seq<Move>)
    requires LegalRun(maxBlocks, false, START, run)
    ensures
      var t := Run(maxBlocks, false, START, run);
      t.windows == Windows(maxBlocks, t.tips) && t.cursor == CursorAfter(maxBlocks, t.tips)
  {
    RunInTurn(maxBlocks, START, run);
  }

  // ---- Exactly when every block is counted once ----

  /** Each block from the first one counted up to the cursor is counted once, and no other. */
  ghost predicate Partitioned(s: System) {
    NoneTwice(s.windows) && NoneSkipped(s.windows, s.cursor) && Within(s.windows, s.cursor)
  }

  predicate Positive(tips: seq<nat>) { forall tip <- tips :: tip >= 1 }

  ghost predicate RunPartitions(maxBlocks: int, overlaps: bool, run: seq<Move>) {
    LegalRun(maxBlocks, overlaps, START, run) && Positive(Run(maxBlocks, overlaps, START, run).tips) ==>
      Partitioned(Run(maxBlocks, overlaps, START, run))
  }

  ghost predicate AlwaysPartitions(maxBlocks: int, overlaps: bool) {
    forall run :: RunPartitions(maxBlocks, overlaps, run)
  }

  lemma SerialPartitions(maxBlocks: int, run: seq<Move>)
    requires maxBlocks >= 1 && LegalRun(maxBlocks, false, START, run) && Positive(Run(maxBlocks, false, START, run).tips)
    ensures Partitioned(Run(maxBlocks, false, START, run))
  {
    var tips := Run(maxBlocks, false, START, run).tips;
    SerialSyncsAreRuns(maxBlocks, run);
    if tips != [] {
      assert tips[0] in tips;
      EachBlockOnce(maxBlocks, tips);
    }
  }

  /** Two syncs read the cursor before either writes it. */
  function OverlapRun(tip: nat): seq<Move> {
    [Begin] + ([Begin] + ([Complete(0, tip)] + ([Complete(0, tip)] + [])))
  }

  lemma Unroll(maxBlocks: int, overlaps: bool, s: System, m: Move, rest: seq<Move>)
    requires Legal(overlaps, s, m) && LegalRun(maxBlocks, overlaps, Apply(maxBlocks, overlaps, s, m), rest)
    ensures LegalRun(maxBlocks, overlaps, s, [m] + rest)
    ensures Run(maxBlocks, overlaps, s, [m] + rest) == Run(maxBlocks, overlaps, Apply(maxBlocks, overlaps, s, m), rest)
  {
    assert ([m] + rest)[1..] == rest;
  }

  const BOTH_BEGUN: System := System(0, [0, 0], [], [])

  lemma BothBegin(maxBlocks: int, rest: seq<Move>)
    requires LegalRun(maxBlocks, true, BOTH_BEGUN, rest)
    ensures LegalRun(maxBlocks, true, START, [Begin] + ([Begin] + rest))
    ensures Run(maxBlocks, true, START, [Begin] + ([Begin] + rest)) == Run(maxBlocks, true, BOTH_BEGUN, rest)
  {
    var s := System(0, [0], [], []);
    assert [] + [0] == [0] && [0] + [0] == [0, 0];
    assert Apply(maxBlocks, true, START, Begin) == s && Apply(maxBlocks, true, s, Begin) == BOTH_BEGUN;
    Unroll(maxBlocks, true, s, Begin, rest);
    Unroll(maxBlocks, true, START, Begin, [Begin] + rest);
  }

  /** The first of the syncs that have read 0 completes. */
  lemma CompletesFirst(maxBlocks: int, s: System, tip: nat)
    requires s.flights == [0] || s.flights == [0, 0]
    ensures
      var t := Apply(maxBlocks, true, s, Complete(0, tip));
      && t.flights == s.flights[1..] && t.tips == s.tips + [tip]
      && t.windows == s.windows + Listed(Step(0, tip, maxBlocks))
  {
  }

  /** Both count the same window. */
  lemma OverlapCountsTwice(maxBlocks: int, tip: nat)
    ensures LegalRun(maxBlocks, true, START, OverlapRun(tip))
    ensures
      var t := Run(maxBlocks, true, START, OverlapRun(tip));
      var w := Step(0, tip, maxBlocks);
      t.tips == [tip, tip] && t.windows == Listed(w) + Listed(w)
  {
    var complete := Complete(0, tip);
    var s := Apply(maxBlocks, true, BOTH_BEGUN, complete);
    CompletesFirst(maxBlocks, BOTH_BEGUN, tip);
    CompletesFirst(maxBlocks, s, tip);
    Unroll(maxBlocks, true, s, complete, []);
    Unroll(maxBlocks, true, BOTH_BEGUN, complete, [complete] + []);
    BothBegin(maxBlocks, [complete] + ([complete] + []));
  }

  /** With positive tips every block is counted once, in all runs, exactly if syncs of the agent do not overlap. */
  lemma CountedOnceExactly(maxBlocks: int, overlaps: bool)
    requires maxBlocks >= 1
    ensures AlwaysPartitions(maxBlocks, overlaps) <==> !overlaps
  {
    if overlaps {
      OverlapCountsTwice(maxBlocks, 1);
      StepBounds(0, 1, maxBlocks);
      var ws := Run(maxBlocks, true, START, OverlapRun(1)).windows;
      assert Has(ws[0], 1) && Has(ws[1], 1);
      assert !RunPartitions(maxBlocks, true, OverlapRun(1));
    } else {
      forall run ensures RunPartitions(maxBlocks, false, run) {
        if LegalRun(maxBlocks, false, START, run) && Positive(Run(maxBlocks, false, START, run).tips) {
          SerialPartitions(maxBlocks, run);
        }
      }
    }
  }
}
