/**
 The identity-event poller, its block ranges and its store
 (packages/watchtower-core/src/identity/identityPoller.ts, identityStore.ts).
 */
module Identity {
  import opened Texts

  datatype Event = Event(txHash: Text, logIndex: nat, owner: Text, payload: Text)

  /** A row of `identity_events`: its primary key and the normalised event. */
  datatype Row = Row(id: Text, event: Event)

  datatype Config = Config(
    chainId: nat,
    startBlock: nat,
    batchSize: nat,
    confirmations: nat,
    overlapBlocks: nat,
    hash: Text -> Text)

  datatype PollResult = PollResult(fromBlock: int, toBlock: int, eventsFound: nat, skipped: bool)

  // ---- Rows ----

  function Key(chainId: nat, e: Event): Text {
    Decimal(chainId) + [COLON] + Lower(e.txHash) + [COLON] + Decimal(e.logIndex)
  }

  function IdOf(cfg: Config, e: Event): Text { cfg.hash(Key(cfg.chainId, e)) }

  function RowOf(cfg: Config, e: Event): Row {
    Row(IdOf(cfg, e), e.(txHash := Lower(e.txHash), owner := Lower(e.owner)))
  }

  /** The columns of the row are those of the event, hexadecimal text in lower case, under the hash of its chain coordinates. */
  predicate RowHolds(cfg: Config, row: Row, e: Event) {
    && row.id == cfg.hash(Decimal(cfg.chainId) + [COLON] + Lower(e.txHash) + [COLON] + Decimal(e.logIndex))
    && row.event.owner == Lower(e.owner)
    && row.event.txHash == Lower(e.txHash)
    && row.event.logIndex == e.logIndex
    && row.event.payload == e.payload
  }

  predicate HasId(rows: seq<Row>, id: Text) {
    exists r <- rows :: r.id == id
  }

  /** `INSERT OR IGNORE`. */
  function Insert(cfg: Config, rows: seq<Row>, e: Event): seq<Row> {
    if HasId(rows, IdOf(cfg, e)) then rows else rows + [RowOf(cfg, e)]
  }

  function InsertAll(cfg: Config, rows: seq<Row>, events: seq<Event>): seq<Row>
    decreases |events|
  {
    if events == [] then rows else InsertAll(cfg, Insert(cfg, rows, events[0]), events[1..])
  }

  /** The part of the key after the chain. */
  function LogKey(e: Event): Text { Lower(e.txHash) + [COLON] + Decimal(e.logIndex) }

  lemma LogKeyInjective(e: Event, f: Event)
    requires COLON !in e.txHash && COLON !in f.txHash && LogKey(e) == LogKey(f)
    ensures Lower(e.txHash) == Lower(f.txHash) && e.logIndex == f.logIndex
  {
    SplitConcat(Lower(e.txHash), Decimal(e.logIndex), COLON);
    SplitConcat(Lower(f.txHash), Decimal(f.logIndex), COLON);
    assert Split(LogKey(e), COLON)[0] == Lower(e.txHash) && Split(LogKey(f), COLON)[0] == Lower(f.txHash);
    assert Split(LogKey(e), COLON)[1] == Decimal(e.logIndex) && Split(LogKey(f), COLON)[1] == Decimal(f.logIndex);
    DecimalUnique(e.logIndex, f.logIndex);
  }

  lemma KeyParts(c: nat, e: Event)
    ensures Key(c, e) == Decimal(c) + ([COLON] + LogKey(e)) && ([COLON] + LogKey(e))[1..] == LogKey(e)
  {
  }

  /** Without colons in transaction hashes the text under the hash identifies chain, transaction, whatever its case, and log index. */
  lemma KeyInjective(c: nat, d: nat, e: Event, f: Event)
    requires COLON !in e.txHash && COLON !in f.txHash
    ensures Key(c, e) == Key(d, f) <==> c == d && Lower(e.txHash) == Lower(f.txHash) && e.logIndex == f.logIndex
  {
    if Key(c, e) == Key(d, f) {
      KeyParts(c, e);
      KeyParts(d, f);
      DecimalInjective(c, d, [COLON] + LogKey(e), [COLON] + LogKey(f));
      LogKeyInjective(e, f);
    }
  }

  // ---- Block ranges ----

  function FromBlock(cfg: Config, cursor: int): (from: int)
    requires cursor >= 0
    ensures from >= cfg.startBlock
  {
    var back := if cursor > cfg.overlapBlocks then cursor - cfg.overlapBlocks else 0;
    if cursor == 0 then cfg.startBlock
    else if back > cfg.startBlock then back else cfg.startBlock
  }

  function ToBlock(cfg: Config, from: int, latest: int): int {
    var safeHead := latest - cfg.confirmations;
    var batchEnd := from + cfg.batchSize - 1;
    if batchEnd < safeHead then batchEnd else safeHead
  }

  /** The cursor after a poll that reads `cursor` and sees `latest`. */
  function NextCursor(cfg: Config, cursor: int, latest: int): int
    requires cursor >= 0
  {
    var from := FromBlock(cfg, cursor);
    var to := ToBlock(cfg, from, latest);
    if from > to then cursor else to
  }

  // ---- The store and the poll, as the source runs them ----

  class IdentityStore {
    var rows: seq<Row>
    var cursor: nat

    constructor ()
      ensures rows == [] && cursor == 0
    {
      rows := [];
      cursor := 0;
    }

    method InsertIdentityEvent(cfg: Config, e: Event)
      modifies this`rows
      ensures rows == Insert(cfg, old(rows), e)
      ensures HasId(old(rows), IdOf(cfg, e)) ==> rows == old(rows)
      ensures !HasId(old(rows), IdOf(cfg, e)) ==>
                |rows| == |old(rows)| + 1 && old(rows) <= rows && RowHolds(cfg, rows[|rows| - 1], e)
    {
      if !HasId(rows, IdOf(cfg, e)) {
        rows := rows + [RowOf(cfg, e)];
      }
    }

    method SetCursor(lastBlock: nat)
      modifies this`cursor
      ensures cursor == lastBlock
    {
      cursor := lastBlock;
    }
  }

  method PollIdentityEvents(db: IdentityStore, latest: int, source: (int, int) -> seq<Event>, cfg: Config)
      returns (r: PollResult)
    modifies db
    ensures r.fromBlock == FromBlock(cfg, old(db.cursor)) && r.toBlock == ToBlock(cfg, r.fromBlock, latest)
    ensures r.skipped <==> r.fromBlock > r.toBlock
    ensures r.eventsFound == if r.skipped then 0 else |source(r.fromBlock, r.toBlock)|
    ensures db.rows == if r.skipped then old(db.rows) else InsertAll(cfg, old(db.rows), source(r.fromBlock, r.toBlock))
    ensures db.cursor == NextCursor(cfg, old(db.cursor), latest)
  {
    var fromBlock := FromBlock(cfg, db.cursor);
    var toBlock := ToBlock(cfg, fromBlock, latest);
    if fromBlock > toBlock {
      return PollResult(fromBlock, toBlock, 0, true);
    }
    var events := source(fromBlock, toBlock);
    for i := 0 to |events|
      invariant db.cursor == old(db.cursor)
      invariant InsertAll(cfg, db.rows, events[i..]) == InsertAll(cfg, old(db.rows), events)
    {
      db.InsertIdentityEvent(cfg, events[i]);
      assert events[i..][1..] == events[i + 1..];
    }
    db.SetCursor(toBlock);
    r := PollResult(fromBlock, toBlock, |events|, false);
  }

  // ---- Progress ----

  /** The cursor after `n` polls in a row against a resting chain. */
  function Polls(cfg: Config, cursor: nat, latest: int, n: nat): nat
    decreases n
  {
    if n == 0 then cursor else Polls(cfg, NextCursor(cfg, cursor, latest), latest, n - 1)
  }

  /** With a fixed head, each poll closes in on `head - confirmations`, and so many polls reach it. */
  lemma {:induction false} PollsReachSafeHead(cfg: Config, cursor: nat, latest: int, n: nat)
    requires cfg.batchSize >= cfg.overlapBlocks + 2
    requires cfg.startBlock <= latest - cfg.confirmations
    requires cursor <= latest - cfg.confirmations && n >= latest - cfg.confirmations - cursor
    ensures Polls(cfg, cursor, latest, n) == latest - cfg.confirmations
    ensures cursor < latest - cfg.confirmations ==> cursor < NextCursor(cfg, cursor, latest)
    decreases n
  {
    if n > 0 {
      PollsReachSafeHead(cfg, NextCursor(cfg, cursor, latest), latest, n - 1);
    }
  }

  /** A batch of `overlapBlocks + 2` is exactly what progress from every cursor behind the safe head takes. */
  lemma ProgressNeedsTwoMore(cfg: Config)
    ensures
      (forall cursor: nat, latest: int ::
         cfg.startBlock <= latest - cfg.confirmations && cursor < latest - cfg.confirmations ==> NextCursor(cfg, cursor, latest) > cursor)
      <==> cfg.batchSize >= cfg.overlapBlocks + 2
  {
    if cfg.batchSize < cfg.overlapBlocks + 2 {
      var cursor := cfg.startBlock + cfg.overlapBlocks + 1;
      assert NextCursor(cfg, cursor, cursor + 1 + cfg.confirmations) <= cursor;
    }
  }

  /** A batch of `overlapBlocks + 1` is exactly what keeps the cursor from going back. */
  lemma MonotonicityNeedsOneMore(cfg: Config)
    requires cfg.batchSize > 0
    ensures
      (forall cursor: nat, latest: int :: cursor <= latest - cfg.confirmations ==> NextCursor(cfg, cursor, latest) >= cursor)
      <==> cfg.batchSize >= cfg.overlapBlocks + 1
  {
    if cfg.batchSize < cfg.overlapBlocks + 1 {
      var cursor := cfg.startBlock + cfg.overlapBlocks + 1;
      assert NextCursor(cfg, cursor, cursor + cfg.confirmations) < cursor;
    }
  }
}
