/** The poll loop of the indexer with its ledger-hash chain (indexer/src/index.ts,
    indexer/src/reorg.ts): store a page, compare the page's tip with the chain recorded so far,
    and either record the tip or roll back and rewind.

    Horizon is an abstract feed of records.  A record's paging token is its position in the
    feed; a fetch from a ledger starts at the first record of that ledger or later, a fetch
    from a token starts just after it. */
module Reorg {
  import opened Collections
  import opened EventStore

  const ALERT_THRESHOLD := 10

  datatype LedgerMeta = LedgerMeta(sequence: int, hash: string, prevHash: string)

  datatype HashRow = HashRow(hash: string, prevHash: string)

  datatype ReorgEntry = ReorgEntry(fromLedger: int, eventsRemoved: nat)

  datatype Tables = Tables(events: Table, hashes: map<int, HashRow>, reorgLog: seq<ReorgEntry>)

  datatype Cursor = Latest | AtLedger(ledger: int) | AfterRecord(token: nat)

  /** What one iteration meets.  The fetch or the transaction that stores the page can fail, and
      later, with the page stored, so can the check of its tip. */
  datatype Reply = FetchFailed | Page(records: seq<Record>, meta: Option<LedgerMeta>, checkFails: bool)

  datatype Poller = Poller(
    db: Tables,
    cursor: Cursor,
    lastProcessed: Cursor,
    consecutiveFailures: nat,
    indexerActive: bool
  )

  /** The highest ledger of a batch. */
  function Tip(events: seq<Event>): int
    requires events != []
  {
    if |events| == 1 then events[0].ledger
    else
      var rest := Tip(events[..|events| - 1]);
      if events[|events| - 1].ledger > rest then events[|events| - 1].ledger else rest
  }

  /** The tip is the ledger of an event of the batch, and no event's ledger is higher. */
  lemma {:induction false} TipIsHighest(events: seq<Event>)
    requires events != []
    ensures exists e :: e in events && e.ledger == Tip(events)
    ensures forall e :: e in events ==> e.ledger <= Tip(events)
  {
    var init, last := events[..|events| - 1], events[|events| - 1];
    assert events == init + [last] && last in events;
    if init != [] {
      TipIsHighest(init);
      var e :| e in init && e.ledger == Tip(init);
      assert e in events;
    }
  }

  predicate DetectReorg(hashes: map<int, HashRow>, meta: LedgerMeta) {
    meta.sequence - 1 in hashes && hashes[meta.sequence - 1].hash != meta.prevHash
  }

  function EventsBelow(t: Table, ledger: int): Table {
    map id | id in t && t[id].ledger < ledger :: t[id]
  }

  function HashesBelow(h: map<int, HashRow>, ledger: int): map<int, HashRow> {
    map n | n in h && n < ledger :: h[n]
  }

  function RolledBack(db: Tables, from: int): Tables {
    var kept := EventsBelow(db.events, from);
    Tables(kept, HashesBelow(db.hashes, from),
           db.reorgLog + [ReorgEntry(from, |db.events.Keys - kept.Keys|)])
  }

  function Recorded(db: Tables, meta: LedgerMeta): Tables {
    db.(hashes := db.hashes[meta.sequence := HashRow(meta.hash, meta.prevHash)])
  }

  predicate ReorgSeen(p: Poller, meta: Option<LedgerMeta>) {
    meta.Some? && DetectReorg(p.db.hashes, meta.value)
  }

  /** Storing a non-empty batch. */
  function WithBatch(p: Poller, events: seq<Event>): Poller
    requires events != []
  {
    var here := AtLedger(events[|events| - 1].ledger);
    p.(db := p.db.(events := Ingest(p.db.events, events)), cursor := here, lastProcessed := here)
  }

  /** Comparing the tip with the recorded chain: rolling back and rewinding, or recording it. */
  function Checked(p: Poller, tip: int, meta: Option<LedgerMeta>): Poller {
    if ReorgSeen(p, meta) then
      p.(db := RolledBack(p.db, tip - 1), cursor := AtLedger(tip - 1), lastProcessed := AtLedger(tip - 1))
    else p.(db := if meta.Some? then Recorded(p.db, meta.value) else p.db)
  }

  /** Storing a non-empty batch and checking its tip. */
  function Stored(p: Poller, events: seq<Event>, meta: Option<LedgerMeta>): Poller
    requires events != []
  {
    Checked(WithBatch(p, events), Tip(events), meta)
  }

  /** Moving the cursor past the last record of a page. */
  function Advanced(p: Poller, records: seq<Record>): Poller {
    if records == [] then p else p.(cursor := AfterRecord(records[|records| - 1].token))
  }

  /** The catch block of the loop. */
  function Failing(p: Poller): Poller {
    var n := p.consecutiveFailures + 1;
    p.(consecutiveFailures := n, indexerActive := p.indexerActive && n < ALERT_THRESHOLD)
  }

  /** One iteration of the loop. */
  function Poll(p: Poller, r: Reply): Poller {
    match r
    case FetchFailed => Failing(p)
    case Page(records, meta, checkFails) =>
      var events := ParseEvents(records);
      if events != [] && checkFails then Failing(WithBatch(p, events))
      else
        var q := if events == [] then p else Stored(p, events, meta);
        var moved := if events != [] && ReorgSeen(p, meta) then q else Advanced(q, records);
        moved.(consecutiveFailures := 0, indexerActive := true)
  }

  /** The iteration detects a reorg and rolls back. */
  predicate RollsBack(p: Poller, r: Reply) {
    r.Page? && ParseEvents(r.records) != [] && !r.checkFails && ReorgSeen(p, r.meta)
  }

  class Database {
    var events: Table
    var hashes: map<int, HashRow>
    var reorgLog: seq<ReorgEntry>

    ghost function State(): Tables
      reads this
    {
      Tables(events, hashes, reorgLog)
    }

    method StoreBatch(batch: seq<Event>)
      modifies this
      ensures State() == old(State()).(events := Ingest(old(events), batch))
    {
      var inserted, skipped;
      events, inserted, skipped := StoreEvents(events, batch);
    }

    method RecordLedgerHash(meta: LedgerMeta)
      modifies this
      ensures State() == Recorded(old(State()), meta)
    {
      hashes := hashes[meta.sequence := HashRow(meta.hash, meta.prevHash)];
    }

    method RollbackFrom(fromLedger: int) returns (removed: nat)
      modifies this
      ensures State() == RolledBack(old(State()), fromLedger)
      ensures removed == |set id | id in old(events) && old(events)[id].ledger >= fromLedger|
    {
      var gone := set id | id in events && events[id].ledger >= fromLedger;
      assert gone == events.Keys - EventsBelow(events, fromLedger).Keys;
      removed := |gone|;
      events := map id | id in events && events[id].ledger < fromLedger :: events[id];
      hashes := map n | n in hashes && n < fromLedger :: hashes[n];
      reorgLog := reorgLog + [ReorgEntry(fromLedger, removed)];
    }
  }

  method HighestLedger(events: seq<Event>) returns (tip: int)
    requires events != []
    ensures tip == Tip(events)
    ensures exists e :: e in events && e.ledger == tip
    ensures forall e :: e in events ==> e.ledger <= tip
  {
    tip := events[0].ledger;
    for i := 1 to |events|
      invariant tip == Tip(events[..i])
    {
      assert events[..i + 1][..i] == events[..i];
      if events[i].ledger > tip {
        tip := events[i].ledger;
      }
    }
    assert events[..|events|] == events;
    TipIsHighest(events);
  }

  class Loop {
    const db: Database
    var cursor: Cursor
    var lastProcessed: Cursor
    var consecutiveFailures: nat
    var indexerActive: bool

    ghost function State(): Poller
      reads this, db
    {
      Poller(db.State(), cursor, lastProcessed, consecutiveFailures, indexerActive)
    }

    constructor (db: Database, cursor: Cursor)
      ensures this.db == db && State() == Poller(db.State(), cursor, cursor, 0, true)
    {
      this.db := db;
      this.cursor, lastProcessed, consecutiveFailures, indexerActive := cursor, cursor, 0, true;
    }

    /** Compares a tip with the recorded chain, and rolls back or records it. */
    method CheckTip(tipLedger: int, meta: Option<LedgerMeta>) returns (reorgDetected: bool)
      modifies this, db
      ensures reorgDetected == ReorgSeen(old(State()), meta)
      ensures State() == Checked(old(State()), tipLedger, meta)
    {
      if meta.None? {
        return false;
      }
      reorgDetected := DetectReorg(db.hashes, meta.value);
      if reorgDetected {
        var rollbackPoint := tipLedger - 1;
        var removed := db.RollbackFrom(rollbackPoint);
        cursor := AtLedger(rollbackPoint);
        lastProcessed := cursor;
      } else {
        db.RecordLedgerHash(meta.value);
      }
    }

    /** Stores a batch and points the cursor at its last ledger. */
    method StoreBatch(events: seq<Event>)
      requires events != []
      modifies this, db
      ensures State() == WithBatch(old(State()), events)
    {
      db.StoreBatch(events);
      cursor := AtLedger(events[|events| - 1].ledger);
      lastProcessed := cursor;
    }

    method Fail()
      modifies this
      ensures State() == Failing(old(State()))
    {
      consecutiveFailures := consecutiveFailures + 1;
      if consecutiveFailures >= ALERT_THRESHOLD {
        indexerActive := false;
      }
    }

    method PollOnce(reply: Reply)
      modifies this, db
      ensures State() == Poll(old(State()), reply)
    {
      if reply.FetchFailed? {
        Fail();
        return;
      }
      var events := FilterEvents(reply.records);
      var reorgDetected := false;
      if |events| > 0 {
        StoreBatch(events);
        var tipLedger := HighestLedger(events);
        if reply.checkFails {
          Fail();
          return;
        }
        reorgDetected := CheckTip(tipLedger, reply.meta);
      }
      if !reorgDetected && |reply.records| > 0 {
        cursor := AfterRecord(reply.records[|reply.records| - 1].token);
      }
      consecutiveFailures := 0;
      indexerActive := true;
    }
  }
}
