/** The counterparty histogram and its maximum (packages/watchtower-core/src/context/deriveContextSignals.ts). */
module Counterparties {
  import opened Texts
  import opened Options
  import opened Lists

  datatype Tx = Tx(from: Text, recipient: Option<Text>)

  datatype Entry = Entry(peer: Text, count: nat)

  /** The other side of a transaction, if it has one. */
  function PeerOf(addr: Text): Tx -> seq<Text> {
    (tx: Tx) =>
      var peer :=
        if Lower(tx.from) != addr then Lower(tx.from)
        else if tx.recipient.Some? then Lower(tx.recipient.value)
        else [];
      if peer == [] then [] else [peer]
  }

  function Peers(addr: Text, txs: seq<Tx>): seq<Text> { Collect(PeerOf(addr), txs) }

  /** How often `peer` occurs. */
  function Times(peers: seq<Text>, peer: Text): nat { multiset(peers)[peer] }

  function Distinct(peers: seq<Text>): set<Text> { set p | p in peers }

  function CountOf(entries: seq<Entry>, peer: Text): nat {
    if entries == [] then 0 else if entries[0].peer == peer then entries[0].count else CountOf(entries[1..], peer)
  }

  /** Counts one more occurrence; a peer not seen before comes last. */
  function Bump(entries: seq<Entry>, peer: Text): seq<Entry> {
    if entries == [] then [Entry(peer, 1)]
    else if entries[0].peer == peer then [Entry(peer, entries[0].count + 1)] + entries[1..]
    else [entries[0]] + Bump(entries[1..], peer)
  }

  predicate DistinctPeers(entries: seq<Entry>) {
    forall i, j :: 0 <= i < j < |entries| ==> entries[i].peer != entries[j].peer
  }

  /** One entry for each peer that occurs, with its number of occurrences. */
  ghost predicate Describes(entries: seq<Entry>, peers: seq<Text>) {
    && DistinctPeers(entries)
    && (forall e <- entries :: e.count > 0)
    && (forall p: Text :: CountOf(entries, p) == Times(peers, p))
  }

  lemma {:induction false} BumpCounts(entries: seq<Entry>, peer: Text, p: Text)
    ensures CountOf(Bump(entries, peer), p) == CountOf(entries, p) + if p == peer then 1 else 0
  {
    if entries != [] && entries[0].peer != peer {
      BumpCounts(entries[1..], peer, p);
    }
  }

  lemma {:induction false} BumpKeys(entries: seq<Entry>, peer: Text)
    requires DistinctPeers(entries) && forall e <- entries :: e.count > 0
    ensures DistinctPeers(Bump(entries, peer)) && forall e <- Bump(entries, peer) :: e.count > 0
    ensures forall e <- Bump(entries, peer) :: e.peer == peer || exists d <- entries :: d.peer == e.peer
  {
    if entries != [] && entries[0].peer != peer {
      BumpKeys(entries[1..], peer);
      var tail := Bump(entries[1..], peer);
      forall e | e in tail ensures e.peer != entries[0].peer {
        if e.peer != peer {
          var d :| d in entries[1..] && d.peer == e.peer;
        }
      }
      assert entries == [entries[0]] + entries[1..];
    }
  }

  lemma BumpDescribes(entries: seq<Entry>, peers: seq<Text>, peer: Text)
    requires Describes(entries, peers)
    ensures Describes(Bump(entries, peer), peers + [peer])
  {
    BumpKeys(entries, peer);
    forall p: Text ensures CountOf(Bump(entries, peer), p) == Times(peers + [peer], p) {
      BumpCounts(entries, peer, p);
    }
  }

  // ---- In terms of the transactions ----

  /** Seen from `addr` the other side is `p`: the recipient of what it sent, or the sender of anything else. */
  predicate OtherSide(addr: Text, tx: Tx, p: Text) {
    && p != []
    && if Lower(tx.from) == addr then tx.recipient.Some? && Lower(tx.recipient.value) == p else Lower(tx.from) == p
  }

  /** The places of the transactions with `p`. */
  function With(addr: Text, txs: seq<Tx>, p: Text): set<int> { set i | 0 <= i < |txs| && OtherSide(addr, txs[i], p) }

  function Sides(tx: Tx): set<Text> { {Lower(tx.from)} + if tx.recipient.Some? then {Lower(tx.recipient.value)} else {} }

  function OtherSides(addr: Text, txs: seq<Tx>): set<Text> { set tx <- txs, p <- Sides(tx) | OtherSide(addr, tx, p) :: p }

  lemma PeerIsOtherSide(addr: Text, tx: Tx)
    ensures forall p: Text :: Times(PeerOf(addr)(tx), p) == if OtherSide(addr, tx, p) then 1 else 0
  {
  }

  lemma OneMoreWith(addr: Text, front: seq<Tx>, tx: Tx, p: Text)
    ensures |With(addr, front + [tx], p)| == |With(addr, front, p)| + if OtherSide(addr, tx, p) then 1 else 0
  {
    var txs := front + [tx];
    assert With(addr, txs, p) == With(addr, front, p) + if OtherSide(addr, tx, p) then {|front|} else {};
  }

  lemma TimesMore(addr: Text, front: seq<Tx>, tx: Tx, p: Text)
    ensures Times(Peers(addr, front + [tx]), p) == Times(Peers(addr, front), p) + if OtherSide(addr, tx, p) then 1 else 0
  {
    CollectConcat(PeerOf(addr), front, [tx]);
    CollectOne(PeerOf(addr), tx);
    PeerIsOtherSide(addr, tx);
  }

  lemma {:induction false} TimesWith(addr: Text, txs: seq<Tx>, p: Text)
    ensures Times(Peers(addr, txs), p) == |With(addr, txs, p)|
  {
    if txs == [] {
      assert With(addr, txs, p) == {};
    } else {
      var front, last := txs[..|txs| - 1], txs[|txs| - 1];
      assert txs == front + [last];
      TimesWith(addr, front, p);
      TimesMore(addr, front, last, p);
      OneMoreWith(addr, front, last, p);
    }
  }

  lemma PeersAreSides(addr: Text, txs: seq<Tx>)
    ensures Distinct(Peers(addr, txs)) == OtherSides(addr, txs)
  {
    forall p: Text ensures p in Distinct(Peers(addr, txs)) <==> p in OtherSides(addr, txs) {
      TimesWith(addr, txs, p);
      assert p in Peers(addr, txs) <==> Times(Peers(addr, txs), p) > 0;
      if i :| i in With(addr, txs, p) {
        assert txs[i] in txs && p in Sides(txs[i]);
      }
      if p in OtherSides(addr, txs) {
        var tx :| tx in txs && OtherSide(addr, tx, p);
        var i :| 0 <= i < |txs| && txs[i] == tx;
        assert i in With(addr, txs, p);
      }
    }
  }

  // ---- The order in which parties come up ----

  /** Some transaction with `p` comes before all with `q`. */
  ghost predicate Earlier(addr: Text, txs: seq<Tx>, p: Text, q: Text) {
    exists i :: i in With(addr, txs, p) && forall j :: j in With(addr, txs, q) ==> i < j
  }

  ghost predicate EarlierAt(addr: Text, txs: seq<Tx>, entries: seq<Entry>, i: int, j: int) {
    0 <= i < j < |entries| ==> Earlier(addr, txs, entries[i].peer, entries[j].peer)
  }

  /** The entries come in the order in which their parties come up. */
  ghost predicate AsSeen(addr: Text, txs: seq<Tx>, entries: seq<Entry>) {
    forall i, j :: EarlierAt(addr, txs, entries, i, j)
  }

  lemma StaysEarlier(addr: Text, front: seq<Tx>, tx: Tx, p: Text, q: Text)
    requires Earlier(addr, front, p, q)
    ensures Earlier(addr, front + [tx], p, q)
  {
    var i :| i in With(addr, front, p) && forall j :: j in With(addr, front, q) ==> i < j;
    assert i in With(addr, front + [tx], p);
    forall j | j in With(addr, front + [tx], q) ensures i < j {
      assert j < |front| ==> j in With(addr, front, q);
    }
  }

  lemma NewIsLater(addr: Text, front: seq<Tx>, tx: Tx, p: Text, q: Text)
    requires With(addr, front, p) != {} && With(addr, front, q) == {}
    ensures Earlier(addr, front + [tx], p, q)
  {
    var i :| i in With(addr, front, p);
    assert i in With(addr, front + [tx], p);
    forall j | j in With(addr, front + [tx], q) ensures i < j {
      assert j < |front| ==> j in With(addr, front, q);
    }
  }

  predicate HasPeer(entries: seq<Entry>, p: Text) { exists e <- entries :: e.peer == p }

  lemma {:induction false} BumpOrder(entries: seq<Entry>, peer: Text)
    ensures |entries| <= |Bump(entries, peer)| <= |entries| + 1
    ensures forall i :: 0 <= i < |entries| ==> Bump(entries, peer)[i].peer == entries[i].peer
    ensures |Bump(entries, peer)| > |entries| ==>
              Bump(entries, peer)[|entries|].peer == peer && !HasPeer(entries, peer)
  {
    if entries != [] && entries[0].peer != peer {
      BumpOrder(entries[1..], peer);
      assert entries == [entries[0]] + entries[1..];
    }
  }

  /** The entries are those of the parties that have come up. */
  ghost predicate ListsSeen(addr: Text, txs: seq<Tx>, entries: seq<Entry>) {
    forall p: Text :: HasPeer(entries, p) <==> With(addr, txs, p) != {}
  }

  lemma DescribedAreListed(addr: Text, txs: seq<Tx>, entries: seq<Entry>)
    requires Describes(entries, Peers(addr, txs))
    ensures ListsSeen(addr, txs, entries)
  {
    EntriesCount(addr, txs, entries);
    forall p: Text | With(addr, txs, p) != {} ensures HasPeer(entries, p) {
      assert Entry(p, |With(addr, txs, p)|) in entries;
    }
  }

  /** A list with the same parties in the same order, or one more that has just come up, is as seen too. */
  lemma LongerAsSeen(addr: Text, front: seq<Tx>, tx: Tx, entries: seq<Entry>, after: seq<Entry>, i: nat, j: nat)
    requires AsSeen(addr, front, entries) && ListsSeen(addr, front, entries)
    requires i < j < |after| && |entries| <= |after| <= |entries| + 1
    requires after[i].peer == entries[i].peer
    requires if j < |entries| then after[j].peer == entries[j].peer else !HasPeer(entries, after[j].peer)
    ensures Earlier(addr, front + [tx], after[i].peer, after[j].peer)
  {
    assert HasPeer(entries, entries[i].peer);
    if j < |entries| {
      assert EarlierAt(addr, front, entries, i, j);
      StaysEarlier(addr, front, tx, entries[i].peer, entries[j].peer);
    } else {
      NewIsLater(addr, front, tx, entries[i].peer, after[j].peer);
    }
  }

  lemma BumpAsSeen(addr: Text, front: seq<Tx>, tx: Tx, entries: seq<Entry>, peer: Text)
    requires AsSeen(addr, front, entries) && ListsSeen(addr, front, entries)
    ensures AsSeen(addr, front + [tx], Bump(entries, peer))
  {
    var after := Bump(entries, peer);
    BumpOrder(entries, peer);
    forall i, j ensures EarlierAt(addr, front + [tx], after, i, j) {
      if 0 <= i < j < |after| {
        assert j == |entries| ==> !HasPeer(entries, after[j].peer);
        LongerAsSeen(addr, front, tx, entries, after, i, j);
      }
    }
  }

  lemma KeepAsSeen(addr: Text, front: seq<Tx>, tx: Tx, entries: seq<Entry>)
    requires AsSeen(addr, front, entries)
    ensures AsSeen(addr, front + [tx], entries)
  {
    forall i, j ensures EarlierAt(addr, front + [tx], entries, i, j) {
      assert EarlierAt(addr, front, entries, i, j);
      if 0 <= i < j < |entries| {
        StaysEarlier(addr, front, tx, entries[i].peer, entries[j].peer);
      }
    }
  }

  /** The entries after one more transaction. */
  function Counted(addr: Text, entries: seq<Entry>, tx: Tx): seq<Entry> {
    var peer := PeerOf(addr)(tx);
    if peer == [] then entries else Bump(entries, peer[0])
  }

  ghost predicate Tallied(addr: Text, txs: seq<Tx>, entries: seq<Entry>) {
    Describes(entries, Peers(addr, txs)) && AsSeen(addr, txs, entries)
  }

  lemma TallyMore(addr: Text, front: seq<Tx>, tx: Tx, entries: seq<Entry>)
    requires Tallied(addr, front, entries)
    ensures Tallied(addr, front + [tx], Counted(addr, entries, tx))
  {
    var peer := PeerOf(addr)(tx);
    CollectConcat(PeerOf(addr), front, [tx]);
    CollectOne(PeerOf(addr), tx);
    if peer == [] {
      KeepAsSeen(addr, front, tx, entries);
      assert Peers(addr, front) + [] == Peers(addr, front);
    } else {
      assert peer == [peer[0]];
      BumpDescribes(entries, Peers(addr, front), peer[0]);
      DescribedAreListed(addr, front, entries);
      BumpAsSeen(addr, front, tx, entries, peer[0]);
    }
  }

  function TallyOf(addr: Text, txs: seq<Tx>): seq<Entry> {
    if txs == [] then [] else Counted(addr, TallyOf(addr, txs[..|txs| - 1]), txs[|txs| - 1])
  }

  lemma {:induction false} TallyIsTallied(addr: Text, txs: seq<Tx>)
    ensures Tallied(addr, txs, TallyOf(addr, txs))
  {
    if txs != [] {
      var front, last := txs[..|txs| - 1], txs[|txs| - 1];
      TallyIsTallied(addr, front);
      TallyMore(addr, front, last, TallyOf(addr, front));
      assert front + [last] == txs;
    }
  }

  method Histogram(addr: Text, txs: seq<Tx>) returns (entries: seq<Entry>)
    ensures Tallied(addr, txs, entries)
    ensures forall e <- entries :: e.count == |With(addr, txs, e.peer)| > 0
    ensures forall p: Text :: With(addr, txs, p) != {} ==> Entry(p, |With(addr, txs, p)|) in entries
  {
    entries := [];
    for i := 0 to |txs|
      invariant entries == TallyOf(addr, txs[..i])
    {
      assert txs[..i + 1][..i] == txs[..i];
      var peer := PeerOf(addr)(txs[i]);
      if peer != [] {
        entries := Bump(entries, peer[0]);
      }
    }
    assert txs[..|txs|] == txs;
    TallyIsTallied(addr, txs);
    EntriesCount(addr, txs, entries);
  }

  lemma EntriesCount(addr: Text, txs: seq<Tx>, entries: seq<Entry>)
    requires Describes(entries, Peers(addr, txs))
    ensures forall e <- entries :: e.count == |With(addr, txs, e.peer)| > 0
    ensures forall p: Text :: With(addr, txs, p) != {} ==> Entry(p, |With(addr, txs, p)|) in entries
  {
    forall e | e in entries ensures e.count == |With(addr, txs, e.peer)| > 0 {
      TimesWith(addr, txs, e.peer);
      CountOfEntry(entries, e.peer);
    }
    forall p: Text | With(addr, txs, p) != {} ensures Entry(p, |With(addr, txs, p)|) in entries {
      TimesWith(addr, txs, p);
      CountOfEntry(entries, p);
    }
  }

  /** The first of the entries with the greatest count. */
  function Top(entries: seq<Entry>): Entry
    requires entries != []
  {
    var last := |entries| - 1;
    if last == 0 then entries[0]
    else
      var a := Top(entries[..last]);
      if entries[last].count > a.count then entries[last] else a
  }

  lemma {:induction false} TopIsMaximal(entries: seq<Entry>)
    requires entries != []
    ensures Top(entries) in entries && forall e <- entries :: e.count <= Top(entries).count
  {
    var last := |entries| - 1;
    if last > 0 {
      TopIsMaximal(entries[..last]);
      assert entries == entries[..last] + [entries[last]];
    }
  }

  /** The entry at this place is the top one, and all before it have smaller counts. */
  predicate FirstTop(entries: seq<Entry>, i: int)
    requires entries != []
  {
    0 <= i < |entries| && entries[i] == Top(entries) && forall j :: 0 <= j < i ==> entries[j].count < Top(entries).count
  }

  /** Of several such entries it is the first. */
  lemma {:induction false} TopIsFirst(entries: seq<Entry>)
    requires entries != []
    ensures exists i :: FirstTop(entries, i)
  {
    var last := |entries| - 1;
    if last == 0 {
      assert FirstTop(entries, 0);
    } else {
      TopIsFirst(entries[..last]);
      TopIsMaximal(entries[..last]);
      var i :| FirstTop(entries[..last], i);
      if entries[last].count > entries[i].count {
        forall j | 0 <= j < last ensures entries[j].count < entries[last].count {
          assert entries[..last][j] in entries[..last];
        }
        assert FirstTop(entries, last);
      } else {
        assert FirstTop(entries, i);
      }
    }
  }

  datatype Concentration = NotHigh | High(topCounterparty: Text, topCount: nat, txCount: nat, uniqueCounterparties: nat)

  /** `p` has more than the threshold share of all `total` transactions. */
  ghost predicate IsHeavy(peers: seq<Text>, total: nat, threshold: real, p: Text) {
    Times(peers, p) > 0 && Times(peers, p) as real > threshold * (total as real)
  }

  ghost predicate IsConcentrated(peers: seq<Text>, total: nat, threshold: real) {
    exists p: Text :: IsHeavy(peers, total, threshold, p)
  }

  /** The signal names a most frequent peer that is over the threshold, its count and the number of peers. */
  ghost predicate Names(peers: seq<Text>, total: nat, threshold: real, c: Concentration)
    requires c.High?
  {
    && IsHeavy(peers, total, threshold, c.topCounterparty)
    && c.txCount == total
    && c.topCount == Times(peers, c.topCounterparty)
    && (forall p: Text :: Times(peers, p) <= c.topCount)
    && c.uniqueCounterparties == |Distinct(peers)|
  }

  // ---- The share of one party ----

  /** More than the threshold share of all transactions are with `p`. */
  ghost predicate Dominates(addr: Text, txs: seq<Tx>, threshold: real, p: Text) {
    With(addr, txs, p) != {} && |With(addr, txs, p)| as real > threshold * (|txs| as real)
  }

  ghost predicate Dominated(addr: Text, txs: seq<Tx>, threshold: real) {
    exists p: Text :: Dominates(addr, txs, threshold, p)
  }

  /** It names a party that dominates, with which there are the most transactions, their number and the number of parties. */
  ghost predicate Reports(addr: Text, txs: seq<Tx>, threshold: real, c: Concentration)
    requires c.High?
  {
    && Dominates(addr, txs, threshold, c.topCounterparty)
    && c.txCount == |txs|
    && c.topCount == |With(addr, txs, c.topCounterparty)|
    && (forall p: Text :: |With(addr, txs, p)| <= c.topCount)
    && c.uniqueCounterparties == |OtherSides(addr, txs)|
  }

  lemma InTermsOfPeers(addr: Text, txs: seq<Tx>, threshold: real)
    ensures Dominated(addr, txs, threshold) <==> IsConcentrated(Peers(addr, txs), |txs|, threshold)
    ensures forall c: Concentration | c.High? :: Reports(addr, txs, threshold, c) <==> Names(Peers(addr, txs), |txs|, threshold, c)
  {
    PeersAreSides(addr, txs);
    forall p: Text ensures Times(Peers(addr, txs), p) == |With(addr, txs, p)| {
      TimesWith(addr, txs, p);
    }
    forall p: Text ensures Dominates(addr, txs, threshold, p) <==> IsHeavy(Peers(addr, txs), |txs|, threshold, p) {
    }
  }

  method CounterpartyConcentration(addr: Text, txs: seq<Tx>, minTx: int, threshold: real) returns (c: Concentration)
    ensures c.High? <==> |txs| >= minTx && Dominated(addr, txs, threshold)
    ensures c.High? ==> Reports(addr, txs, threshold, c) && NamesFirst(addr, txs, c.topCounterparty)
  {
    InTermsOfPeers(addr, txs, threshold);
    if |txs| < minTx {
      return NotHigh;
    }
    PeersAtMostTxs(addr, txs);
    var entries := Histogram(addr, txs);
    c := Concentrated(entries, Peers(addr, txs), |txs|, threshold);
    if c.High? {
      TopComesUpFirst(addr, txs, entries);
    }
  }

  /** Of the parties with the most transactions it is the one that comes up first. */
  ghost predicate NamesFirst(addr: Text, txs: seq<Tx>, top: Text) {
    forall p: Text :: p != top && With(addr, txs, p) != {} && |With(addr, txs, p)| >= |With(addr, txs, top)| ==> Earlier(addr, txs, top, p)
  }

  lemma TopComesUpFirst(addr: Text, txs: seq<Tx>, entries: seq<Entry>)
    requires entries != [] && Describes(entries, Peers(addr, txs)) && AsSeen(addr, txs, entries)
    ensures NamesFirst(addr, txs, Top(entries).peer)
  {
    EntriesCount(addr, txs, entries);
    TopIsFirst(entries);
    var i :| FirstTop(entries, i);
    assert entries[i] in entries;
    forall p: Text | p != Top(entries).peer && With(addr, txs, p) != {} && |With(addr, txs, p)| >= |With(addr, txs, Top(entries).peer)|
      ensures Earlier(addr, txs, Top(entries).peer, p)
    {
      var j :| 0 <= j < |entries| && entries[j] == Entry(p, |With(addr, txs, p)|);
      assert j > i;
      assert EarlierAt(addr, txs, entries, i, j);
    }
  }

  /** An agent is named as its own counterparty only if it sent something to itself. */
  lemma NamesAnother(addr: Text, txs: seq<Tx>, threshold: real, c: Concentration)
    requires c.High? && Reports(addr, txs, threshold, c) && c.topCounterparty == addr
    ensures exists tx <- txs :: Lower(tx.from) == addr && tx.recipient.Some? && Lower(tx.recipient.value) == addr
  {
    var i :| i in With(addr, txs, addr);
    assert txs[i] in txs;
  }

  method Concentrated(entries: seq<Entry>, ghost peers: seq<Text>, total: nat, threshold: real) returns (c: Concentration)
    requires Describes(entries, peers) && |peers| <= total
    ensures c.High? <==> IsConcentrated(peers, total, threshold)
    ensures c.High? ==> Names(peers, total, threshold, c) && entries != [] && c.topCounterparty == Top(entries).peer
  {
    EntriesArePeers(entries, peers);
    if entries == [] {
      return NotHigh;
    }
    var top := Top(entries);
    TopIsMostFrequent(entries, peers);
    var topShare := top.count as real / total as real;
    ShareOverThreshold(top.count, total, threshold);
    OnlyTopMatters(peers, total, threshold, top.peer);
    if topShare > threshold {
      c := High(top.peer, top.count, total, |entries|);
    } else {
      c := NotHigh;
    }
  }

  lemma OnlyTopMatters(peers: seq<Text>, total: nat, threshold: real, top: Text)
    requires Times(peers, top) > 0 && forall p: Text :: Times(peers, p) <= Times(peers, top)
    ensures IsConcentrated(peers, total, threshold) <==> IsHeavy(peers, total, threshold, top)
  {
    if p: Text :| IsHeavy(peers, total, threshold, p) {
      assert Times(peers, p) <= Times(peers, top);
    }
  }

  lemma ShareOverThreshold(count: nat, total: nat, threshold: real)
    requires total > 0
    ensures count as real / total as real > threshold <==> count as real > threshold * (total as real)
  {
    var share := count as real / total as real;
    assert share * (total as real) == count as real;
  }

  lemma {:induction false} CountOfEntry(entries: seq<Entry>, p: Text)
    requires DistinctPeers(entries)
    ensures forall e <- entries :: e.peer == p ==> CountOf(entries, p) == e.count
    ensures CountOf(entries, p) > 0 ==> Entry(p, CountOf(entries, p)) in entries
  {
    if entries != [] {
      CountOfEntry(entries[1..], p);
      assert entries == [entries[0]] + entries[1..];
    }
  }

  function KeysOf(entries: seq<Entry>): set<Text> { set e <- entries :: e.peer }

  lemma {:induction false} DistinctCount(entries: seq<Entry>)
    requires DistinctPeers(entries)
    ensures |KeysOf(entries)| == |entries|
  {
    if entries == [] {
      assert KeysOf(entries) == {};
    } else {
      DistinctCount(entries[1..]);
      assert entries == [entries[0]] + entries[1..];
      assert KeysOf(entries) == {entries[0].peer} + KeysOf(entries[1..]);
    }
  }

  lemma EntriesArePeers(entries: seq<Entry>, peers: seq<Text>)
    requires Describes(entries, peers)
    ensures |entries| == |Distinct(peers)|
    ensures entries == [] <==> peers == []
  {
    DistinctCount(entries);
    forall p: Text ensures p in KeysOf(entries) <==> p in peers {
      CountOfEntry(entries, p);
      assert p in multiset(peers) <==> p in peers;
    }
    assert KeysOf(entries) == Distinct(peers);
    if peers != [] {
      assert peers[0] in KeysOf(entries);
    }
  }

  lemma TopIsMostFrequent(entries: seq<Entry>, peers: seq<Text>)
    requires Describes(entries, peers) && entries != []
    ensures Top(entries).count == Times(peers, Top(entries).peer) > 0
    ensures forall p: Text :: Times(peers, p) <= Top(entries).count
  {
    TopIsMaximal(entries);
    CountOfEntry(entries, Top(entries).peer);
    forall p: Text ensures Times(peers, p) <= Top(entries).count {
      CountOfEntry(entries, p);
    }
  }

  // ---- Order of the transactions ----

  lemma {:induction false} TwoPeers(peers: seq<Text>, p: Text, q: Text)
    requires p != q
    ensures Times(peers, p) + Times(peers, q) <= |peers|
  {
    if peers != [] {
      TwoPeers(peers[1..], p, q);
      assert peers == [peers[0]] + peers[1..];
    }
  }

  lemma {:induction false} PeersAtMostTxs(addr: Text, txs: seq<Tx>)
    ensures |Peers(addr, txs)| <= |txs|
  {
    if txs != [] {
      PeersAtMostTxs(addr, txs[1..]);
    }
  }

  /** Whether the signal fires does not depend on the order of the transactions. */
  lemma ConcentratedOrderFree(addr: Text, xs: seq<Tx>, ys: seq<Tx>, threshold: real)
    requires multiset(xs) == multiset(ys)
    ensures Dominated(addr, xs, threshold) <==> Dominated(addr, ys, threshold)
  {
    InTermsOfPeers(addr, xs, threshold);
    InTermsOfPeers(addr, ys, threshold);
    CollectPermutation(PeerOf(addr), xs, ys);
    SameHeavy(Peers(addr, xs), Peers(addr, ys), |xs|, threshold);
  }

  lemma SameHeavy(peers: seq<Text>, peers': seq<Text>, total: nat, threshold: real)
    requires multiset(peers) == multiset(peers')
    ensures IsConcentrated(peers, total, threshold) <==> IsConcentrated(peers', total, threshold)
  {
    forall p: Text ensures IsHeavy(peers, total, threshold, p) <==> IsHeavy(peers', total, threshold, p) {
      assert Times(peers, p) == Times(peers', p);
    }
  }

  /** Nor do the counts it reports; with a threshold of at least one half neither does the counterparty it names. */
  lemma ReportedOrderFree(addr: Text, xs: seq<Tx>, ys: seq<Tx>, threshold: real, c: Concentration, d: Concentration)
    requires multiset(xs) == multiset(ys) && c.High? && d.High?
    requires Reports(addr, xs, threshold, c) && Reports(addr, ys, threshold, d)
    ensures c.(topCounterparty := []) == d.(topCounterparty := [])
    ensures threshold >= 0.5 ==> c == d
  {
    InTermsOfPeers(addr, xs, threshold);
    InTermsOfPeers(addr, ys, threshold);
    CollectPermutation(PeerOf(addr), xs, ys);
    PeersAtMostTxs(addr, xs);
    SameReport(Peers(addr, xs), Peers(addr, ys), |xs|, threshold, c, d);
  }

  lemma SameReport(peers: seq<Text>, peers': seq<Text>, total: nat, threshold: real, c: Concentration, d: Concentration)
    requires multiset(peers) == multiset(peers') && |peers| <= total && c.High? && d.High?
    requires Names(peers, total, threshold, c) && Names(peers', total, threshold, d)
    ensures c.(topCounterparty := []) == d.(topCounterparty := [])
    ensures threshold >= 0.5 ==> c == d
  {
    var p, q := c.topCounterparty, d.topCounterparty;
    SamePeers(peers, peers');
    assert Times(peers, p) == Times(peers', p) && Times(peers, q) == Times(peers', q);
    if threshold >= 0.5 && p != q {
      HalfIsMore(c.topCount, total, threshold);
      TwoPeers(peers, p, q);
    }
  }

  lemma SamePeers(xs: seq<Text>, ys: seq<Text>)
    requires multiset(xs) == multiset(ys)
    ensures Distinct(xs) == Distinct(ys)
  {
    forall p: Text ensures p in xs <==> p in ys {
      assert p in multiset(xs) <==> p in multiset(ys);
    }
  }

  lemma HalfIsMore(count: nat, total: nat, threshold: real)
    requires threshold >= 0.5 && count as real > threshold * (total as real)
    ensures count + count > total
  {
    assert threshold * (total as real) >= 0.5 * (total as real);
  }
}
