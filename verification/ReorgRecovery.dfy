/** What a detected reorg leaves behind, how polling recovers from it, and when the recorded
    hash chain links. */
module ReorgRecovery {
  import opened Arithmetic
  import opened Collections
  import opened EventStore
  import opened Reorg

  // ----- One iteration that detects a reorg -----

  /** After the iteration nothing at or above the ledger below the tip is left, the cursor points
      there and not past the page, and every older row and hash is untouched. */
  lemma DetectionRewinds(p: Poller, r: Reply)
    requires RollsBack(p, r)
    ensures var back, q := Tip(ParseEvents(r.records)) - 1, Poll(p, r);
            && q.cursor == AtLedger(back) == q.lastProcessed
            && (forall id :: id in q.db.events ==> q.db.events[id].ledger < back)
            && (forall n :: n in q.db.hashes ==> n < back)
            && (forall id :: id in p.db.events && p.db.events[id].ledger < back ==>
                  id in q.db.events && q.db.events[id] == p.db.events[id])
            && (forall n :: n in p.db.hashes && n < back ==> n in q.db.hashes && q.db.hashes[n] == p.db.hashes[n])
            && |q.db.reorgLog| == |p.db.reorgLog| + 1
            && q.db.reorgLog[|p.db.reorgLog|].fromLedger == back
  {
    IngestRows(p.db.events, ParseEvents(r.records));
  }

  /** The rollback is logged with the number of events it removed, those of the page among them. */
  lemma RollbackIsLogged(p: Poller, r: Reply)
    requires RollsBack(p, r)
    ensures var back, stored := Tip(ParseEvents(r.records)) - 1, Ingest(p.db.events, ParseEvents(r.records));
            Poll(p, r).db.reorgLog ==
            p.db.reorgLog + [ReorgEntry(back, |set id | id in stored && stored[id].ledger >= back|)]
  {
    var back, stored := Tip(ParseEvents(r.records)) - 1, Ingest(p.db.events, ParseEvents(r.records));
    assert stored.Keys - EventsBelow(stored, back).Keys == set id | id in stored && stored[id].ledger >= back;
  }

  // ----- Recovery -----

  /** The canonical feed and, per ledger, the canonical hash and parent hash. */
  datatype Canon = Canon(feed: seq<Record>, chain: map<int, HashRow>)

  ghost predicate LinkedChain(h: map<int, HashRow>) {
    forall n, next :: n in h && next in h && next == n + 1 ==> h[next].prevHash == h[n].hash
  }

  ghost predicate WellFormed(c: Canon) {
    && (forall i :: 0 <= i < |c.feed| ==>
          && c.feed[i].token == i + 1
          && (c.feed[i].event.Some? ==> c.feed[i].event.value.ledger == c.feed[i].ledger))
    && (forall i, j :: 0 <= i < j < |c.feed| ==> c.feed[i].ledger <= c.feed[j].ledger)
    && (forall i, j :: 0 <= i < j < |c.feed| && c.feed[i].event.Some? && c.feed[j].event.Some? ==>
          c.feed[i].event.value.id != c.feed[j].event.value.id)
    && LinkedChain(c.chain)
  }

  /** The first position from which every record is at `ledger` or later. */
  function FirstAt(feed: seq<Record>, ledger: int): (k: nat)
    ensures k <= |feed|
  {
    if feed == [] || feed[|feed| - 1].ledger < ledger then |feed|
    else FirstAt(feed[..|feed| - 1], ledger)
  }

  function Position(c: Canon, cursor: Cursor): nat {
    match cursor
    case Latest => 0
    case AtLedger(n) => FirstAt(c.feed, n)
    case AfterRecord(k) => k
  }

  /** The rows of a stretch of the feed. */
  function Rows(records: seq<Record>): Table {
    Ingest(map[], ParseEvents(records))
  }

  /** A page of the canonical feed from the cursor on, with the canonical hash of its tip. */
  ghost predicate CanonicalPage(c: Canon, cursor: Cursor, r: Reply) {
    && r.Page?
    && var k := Position(c, cursor);
    && k + |r.records| <= |c.feed| && r.records == c.feed[k..k + |r.records|]
    && (r.meta.Some? && ParseEvents(r.records) != [] ==> TrueTip(c, r))
  }

  ghost predicate TrueTip(c: Canon, r: Reply)
    requires r.Page? && r.meta.Some? && ParseEvents(r.records) != []
  {
    var m := r.meta.value;
    m.sequence == Tip(ParseEvents(r.records)) && m.sequence in c.chain
    && c.chain[m.sequence] == HashRow(m.hash, m.prevHash)
  }

  ghost predicate HashesCanonical(c: Canon, h: map<int, HashRow>) {
    forall n :: n in h ==> n in c.chain && h[n] == c.chain[n]
  }

  /** The table holds exactly the canonical events before position `h`, which the cursor has not
      passed. */
  ghost predicate TableInSync(c: Canon, p: Poller, h: nat) {
    Position(c, p.cursor) <= h <= |c.feed| && p.db.events == Rows(c.feed[..h])
  }

  ghost predicate InSync(c: Canon, p: Poller, h: nat) {
    TableInSync(c, p, h) && HashesCanonical(c, p.db.hashes)
  }

  lemma {:induction false} ParseAppend(a: seq<Record>, b: seq<Record>)
    ensures ParseEvents(a + b) == ParseEvents(a) + ParseEvents(b)
  {
    if b == [] {
      assert a + b == a;
    } else {
      assert (a + b)[..|a + b| - 1] == a + b[..|b| - 1];
      ParseAppend(a, b[..|b| - 1]);
    }
  }

  lemma RowsAppend(a: seq<Record>, b: seq<Record>)
    ensures Ingest(Rows(a), ParseEvents(b)) == Rows(a + b)
  {
    ParseAppend(a, b);
    IngestAppend(map[], ParseEvents(a), ParseEvents(b));
  }

  lemma {:induction false} FirstAtSplits(feed: seq<Record>, ledger: int)
    requires forall i, j :: 0 <= i < j < |feed| ==> feed[i].ledger <= feed[j].ledger
    ensures forall i :: 0 <= i < |feed| ==> (feed[i].ledger >= ledger <==> i >= FirstAt(feed, ledger))
  {
    if feed != [] && feed[|feed| - 1].ledger >= ledger {
      FirstAtSplits(feed[..|feed| - 1], ledger);
    }
  }

  lemma {:induction false} EventsComeFromRecords(records: seq<Record>)
    ensures forall e :: e in ParseEvents(records) <==>
              exists i :: 0 <= i < |records| && records[i].event == Some(e)
  {
    if records != [] {
      var init := records[..|records| - 1];
      EventsComeFromRecords(init);
      forall e
        ensures e in ParseEvents(records) <==> exists i :: 0 <= i < |records| && records[i].event == Some(e)
      {
        if e in ParseEvents(init) {
          var i :| 0 <= i < |init| && init[i].event == Some(e);
          assert records[i].event == Some(e);
        }
        if i :| 0 <= i < |records| && records[i].event == Some(e) {
          assert i < |init| ==> init[i].event == Some(e);
        }
      }
    }
  }

  /** `t` has one row per event of the feed, under its id, and no other. */
  ghost predicate HoldsExactly(t: Table, feed: seq<Record>) {
    && (forall i :: 0 <= i < |feed| && feed[i].event.Some? ==>
          feed[i].event.value.id in t && t[feed[i].event.value.id] == feed[i].event.value)
    && (forall id :: id in t ==> OnFeed(feed, t[id]))
  }

  ghost predicate OnFeed(feed: seq<Record>, e: Event) {
    exists i :: 0 <= i < |feed| && feed[i].event == Some(e)
  }

  /** The rows of any stretch of a well-formed feed are exactly its events. */
  lemma RowsAreTheEvents(c: Canon, k: nat)
    requires WellFormed(c) && k <= |c.feed|
    ensures HoldsExactly(Rows(c.feed[..k]), c.feed[..k])
  {
    var feed := c.feed[..k];
    var rows, batch := Rows(feed), ParseEvents(feed);
    IngestRows(map[], batch);
    EventsComeFromRecords(feed);
    forall i | 0 <= i < k && feed[i].event.Some?
      ensures feed[i].event.value.id in rows && rows[feed[i].event.value.id] == feed[i].event.value
    {
      var e := feed[i].event.value;
      assert e in batch && e.id in Ids(batch);
      var j :| 0 <= j < k && feed[j].event == Some(rows[e.id]);
      assert rows[e.id].id == e.id;
    }
  }

  /** Events of the feed that are stored already change nothing when they are stored again. */
  lemma StoringAgainChangesNothing(c: Canon, k: nat, m: nat, h: nat)
    requires WellFormed(c) && k <= m <= h <= |c.feed|
    ensures Ingest(Rows(c.feed[..h]), ParseEvents(c.feed[k..m])) == Rows(c.feed[..h])
  {
    var rows, batch := Rows(c.feed[..h]), ParseEvents(c.feed[k..m]);
    IngestRows(rows, batch);
    RowsAreTheEvents(c, h);
    EventsComeFromRecords(c.feed[k..m]);
    forall e | e in batch
      ensures e.id in rows
    {
      var i :| 0 <= i < m - k && c.feed[k..m][i].event == Some(e);
      assert c.feed[..h][k + i] == c.feed[k..m][i];
    }
  }

  /** Storing a page that begins no later than the table ends takes the table to the page's end. */
  lemma PageExtendsTheTable(c: Canon, k: nat, n: nat, h: nat)
    requires WellFormed(c) && k <= h <= |c.feed| && k + n <= |c.feed|
    ensures Ingest(Rows(c.feed[..h]), ParseEvents(c.feed[k..k + n])) == Rows(c.feed[..Max(h, k + n)])
  {
    if k + n <= h {
      StoringAgainChangesNothing(c, k, k + n, h);
    } else {
      var known, unseen := c.feed[k..h], c.feed[h..k + n];
      assert c.feed[k..k + n] == known + unseen && c.feed[..h] + unseen == c.feed[..k + n];
      ParseAppend(known, unseen);
      IngestAppend(Rows(c.feed[..h]), ParseEvents(known), ParseEvents(unseen));
      StoringAgainChangesNothing(c, k, h, h);
      RowsAppend(c.feed[..h], unseen);
    }
  }

  lemma {:induction false} LastEventOf(records: seq<Record>) returns (i: nat)
    requires ParseEvents(records) != []
    ensures i < |records| && records[i].event == Some(ParseEvents(records)[|ParseEvents(records)| - 1])
  {
    i := |records| - 1;
    if records[i].event.None? {
      i := LastEventOf(records[..i]);
    }
  }

  /** Where a poll of the canonical feed leaves the cursor: not before the ledger it started from,
      and not after the page. */
  lemma CursorMoves(c: Canon, p: Poller, r: Reply, back: int)
    requires WellFormed(c) && CanonicalPage(c, p.cursor, r) && !RollsBack(p, r)
    ensures Position(c, Poll(p, r).cursor) <= Position(c, p.cursor) + |r.records|
    ensures FirstAt(c.feed, back) <= Position(c, p.cursor) ==> FirstAt(c.feed, back) <= Position(c, Poll(p, r).cursor)
    ensures !r.checkFails || ParseEvents(r.records) == [] ==>
              Position(c, Poll(p, r).cursor) == Position(c, p.cursor) + |r.records|
  {
    var k, n := Position(c, p.cursor), |r.records|;
    if ParseEvents(r.records) != [] && r.checkFails {
      var i := LastEventOf(r.records);
      var ledger := ParseEvents(r.records)[|ParseEvents(r.records)| - 1].ledger;
      assert r.records[i] == c.feed[k + i] && c.feed[k + i].ledger == ledger;
      FirstAtSplits(c.feed, ledger);
      FirstAtSplits(c.feed, back);
      if FirstAt(c.feed, back) <= k {
        var first := FirstAt(c.feed, ledger);
        assert c.feed[first].ledger >= ledger >= back;
      }
    } else if n > 0 {
      assert r.records[n - 1] == c.feed[k + n - 1];
    }
  }

  /** The table after a poll that rolls nothing back. */
  lemma PollKeepsTableInSync(c: Canon, p: Poller, h: nat, r: Reply)
    requires WellFormed(c) && TableInSync(c, p, h) && CanonicalPage(c, p.cursor, r) && !RollsBack(p, r)
    ensures TableInSync(c, Poll(p, r), Max(h, Position(c, p.cursor) + |r.records|))
    ensures Poll(p, r).db.reorgLog == p.db.reorgLog
  {
    CursorMoves(c, p, r, 0);
    PageExtendsTheTable(c, Position(c, p.cursor), |r.records|, h);
  }

  lemma CanonicalBelowIsStored(c: Canon, e: Event, ledger: int)
    requires WellFormed(c) && OnFeed(c.feed, e) && e.ledger < ledger
    ensures e.id in Rows(c.feed[..FirstAt(c.feed, ledger)])
  {
    var i :| 0 <= i < |c.feed| && c.feed[i].event == Some(e);
    FirstAtSplits(c.feed, ledger);
    RowsAreTheEvents(c, FirstAt(c.feed, ledger));
    assert c.feed[..FirstAt(c.feed, ledger)][i] == c.feed[i];
  }

  /** A stored page of canonical events adds no row below a ledger up to which the table was
      already canonical, even when orphaned rows share its ids. */
  lemma CanonicalBatchAddsNothingBelow(c: Canon, t: Table, batch: seq<Event>, ledger: int)
    requires WellFormed(c)
    requires EventsBelow(t, ledger) == Rows(c.feed[..FirstAt(c.feed, ledger)])
    requires forall e :: e in batch ==> OnFeed(c.feed, e)
    ensures EventsBelow(Ingest(t, batch), ledger) == EventsBelow(t, ledger)
  {
    IngestRows(t, batch);
    var u := Ingest(t, batch);
    forall id | id in u && u[id].ledger < ledger
      ensures id in t
    {
      if id !in t {
        CanonicalBelowIsStored(c, u[id], ledger);
      }
    }
  }

  /** Everything stored below `ledger` is canonical, and nothing canonical below it is missing. */
  ghost predicate CanonicalBelow(c: Canon, db: Tables, ledger: int) {
    && EventsBelow(db.events, ledger) == Rows(c.feed[..FirstAt(c.feed, ledger)])
    && HashesCanonical(c, HashesBelow(db.hashes, ledger))
  }

  function RollbackPoint(r: Reply): int
    requires r.Page? && ParseEvents(r.records) != []
  {
    Tip(ParseEvents(r.records)) - 1
  }

  /** With the page stored, the rows below the rollback point are exactly the canonical ones. */
  ghost predicate Restorable(c: Canon, p: Poller, r: Reply)
    requires r.Page? && ParseEvents(r.records) != []
  {
    EventsBelow(Ingest(p.db.events, ParseEvents(r.records)), RollbackPoint(r))
    == Rows(c.feed[..FirstAt(c.feed, RollbackPoint(r))])
  }

  /** So it is when they were before, even with orphaned rows above that share their ids. */
  lemma CanonicalBelowIsRestorable(c: Canon, p: Poller, r: Reply)
    requires WellFormed(c) && r.Page? && ParseEvents(r.records) != []
    requires forall e :: e in ParseEvents(r.records) ==> OnFeed(c.feed, e)
    requires CanonicalBelow(c, p.db, RollbackPoint(r))
    ensures Restorable(c, p, r)
  {
    CanonicalBatchAddsNothingBelow(c, p.db.events, ParseEvents(r.records), RollbackPoint(r));
  }

  /** The tables and the cursor after a rollback. */
  lemma AfterRollback(p: Poller, r: Reply)
    requires RollsBack(p, r)
    ensures var back, q := RollbackPoint(r), Poll(p, r);
            && q.cursor == AtLedger(back)
            && q.db.events == EventsBelow(Ingest(p.db.events, ParseEvents(r.records)), back)
            && q.db.hashes == HashesBelow(p.db.hashes, back)
            && EventsBelow(q.db.events, back) == q.db.events
  {
  }

  /** The rollback that a detected reorg triggers restores the canonical state if and only if
      everything stored below the rollback point is canonical and nothing is missing there. */
  lemma RollbackRestoresSync(c: Canon, p: Poller, r: Reply)
    requires RollsBack(p, r)
    ensures var back := RollbackPoint(r);
            && Position(c, Poll(p, r).cursor) == FirstAt(c.feed, back)
            && (InSync(c, Poll(p, r), FirstAt(c.feed, back)) <==>
                  Restorable(c, p, r) && HashesCanonical(c, HashesBelow(p.db.hashes, back)))
  {
    AfterRollback(p, r);
  }

  // ----- Runs on the canonical chain -----

  ghost predicate CanonicalRun(c: Canon, p: Poller, rs: seq<Reply>)
    decreases |rs|
  {
    rs == [] || ((rs[0].FetchFailed? || CanonicalPage(c, p.cursor, rs[0])) && CanonicalRun(c, Poll(p, rs[0]), rs[1..]))
  }

  function PollAll(p: Poller, rs: seq<Reply>): Poller
    decreases |rs|
  {
    if rs == [] then p else PollAll(Poll(p, rs[0]), rs[1..])
  }

  ghost predicate Quiet(p: Poller, rs: seq<Reply>)
    decreases |rs|
  {
    rs == [] || (!RollsBack(p, rs[0]) && Quiet(Poll(p, rs[0]), rs[1..]))
  }

  /** How far the pages of a run have come, from `h` on. */
  function Reached(c: Canon, p: Poller, h: nat, rs: seq<Reply>): nat
    decreases |rs|
  {
    if rs == [] then h
    else Reached(c, Poll(p, rs[0]), if rs[0].Page? then Max(h, Position(c, p.cursor) + |rs[0].records|) else h, rs[1..])
  }

  lemma {:induction false} QuietRunKeepsTableInSync(c: Canon, p: Poller, h: nat, rs: seq<Reply>)
    requires WellFormed(c) && TableInSync(c, p, h) && CanonicalRun(c, p, rs) && Quiet(p, rs)
    ensures TableInSync(c, PollAll(p, rs), Reached(c, p, h, rs))
    ensures PollAll(p, rs).db.reorgLog == p.db.reorgLog
    decreases |rs|
  {
    if rs != [] {
      var h' := if rs[0].Page? then Max(h, Position(c, p.cursor) + |rs[0].records|) else h;
      if rs[0].Page? {
        PollKeepsTableInSync(c, p, h, rs[0]);
      }
      QuietRunKeepsTableInSync(c, Poll(p, rs[0]), h', rs[1..]);
    }
  }

  ghost predicate HashesCanonicalFrom(c: Canon, h: map<int, HashRow>, back: int) {
    forall n :: n in h && n >= back ==> n in c.chain && h[n] == c.chain[n]
  }

  /** The parent on file for a tip at the rollback point is not the canonical one. */
  predicate StaleParent(p: Poller, back: int, meta: LedgerMeta) {
    back - 1 in p.db.hashes && p.db.hashes[back - 1].hash != meta.prevHash
  }

  lemma PageTipIsNotBelow(c: Canon, p: Poller, r: Reply, back: int)
    requires WellFormed(c) && CanonicalPage(c, p.cursor, r) && ParseEvents(r.records) != []
    requires FirstAt(c.feed, back) <= Position(c, p.cursor)
    ensures Tip(ParseEvents(r.records)) >= back
  {
    var i := LastEventOf(r.records);
    var events := ParseEvents(r.records);
    TipIsHighest(events);
    FirstAtSplits(c.feed, back);
    assert r.records[i] == c.feed[Position(c, p.cursor) + i];
    assert events[|events| - 1] in events;
  }

  /** From the rollback point on, the canonical chain triggers a further rollback exactly at a page
      whose tip is the rollback point itself and whose parent on file is stale.  A reorg that is
      deeper than one ledger is therefore dug up one ledger at a time, as long as every next page
      ends exactly where the last rollback began. */
  lemma NextRollback(c: Canon, p: Poller, r: Reply, back: int)
    requires WellFormed(c) && CanonicalPage(c, p.cursor, r) && FirstAt(c.feed, back) <= Position(c, p.cursor)
    requires HashesCanonicalFrom(c, p.db.hashes, back)
    ensures RollsBack(p, r) <==>
              && ParseEvents(r.records) != [] && !r.checkFails && r.meta.Some?
              && Tip(ParseEvents(r.records)) == back && StaleParent(p, back, r.meta.value)
    ensures !RollsBack(p, r) ==> HashesCanonicalFrom(c, Poll(p, r).db.hashes, back)
  {
    if ParseEvents(r.records) != [] {
      PageTipIsNotBelow(c, p, r, back);
    }
  }

  /** When the parent on file is the canonical one, no page triggers another rollback. */
  lemma {:induction false} FreshParentKeepsQuiet(c: Canon, p: Poller, rs: seq<Reply>, back: int)
    requires WellFormed(c) && CanonicalRun(c, p, rs) && FirstAt(c.feed, back) <= Position(c, p.cursor)
    requires HashesCanonicalFrom(c, p.db.hashes, back)
    requires back in c.chain && back - 1 in p.db.hashes ==> p.db.hashes[back - 1].hash == c.chain[back].prevHash
    ensures Quiet(p, rs)
    decreases |rs|
  {
    if rs != [] {
      if rs[0].Page? {
        NextRollback(c, p, rs[0], back);
        CursorMoves(c, p, rs[0], back);
        ParentStays(c, p, rs[0], back);
      }
      FreshParentKeepsQuiet(c, Poll(p, rs[0]), rs[1..], back);
    }
  }

  lemma ParentStays(c: Canon, p: Poller, r: Reply, back: int)
    requires WellFormed(c) && CanonicalPage(c, p.cursor, r) && FirstAt(c.feed, back) <= Position(c, p.cursor)
    requires !RollsBack(p, r)
    ensures var h, h' := p.db.hashes, Poll(p, r).db.hashes;
            (back - 1 in h' <==> back - 1 in h) && (back - 1 in h ==> h'[back - 1] == h[back - 1])
  {
    if ParseEvents(r.records) != [] {
      PageTipIsNotBelow(c, p, r, back);
    }
  }

  lemma PollKeepsHashes(c: Canon, p: Poller, r: Reply)
    requires WellFormed(c) && HashesCanonical(c, p.db.hashes) && CanonicalPage(c, p.cursor, r)
    ensures !RollsBack(p, r) && HashesCanonical(c, Poll(p, r).db.hashes)
  {
  }

  /** On canonical hashes there is no false alarm. */
  lemma {:induction false} CanonicalHashesKeepQuiet(c: Canon, p: Poller, rs: seq<Reply>)
    requires WellFormed(c) && HashesCanonical(c, p.db.hashes) && CanonicalRun(c, p, rs)
    ensures Quiet(p, rs) && HashesCanonical(c, PollAll(p, rs).db.hashes)
    decreases |rs|
  {
    if rs != [] {
      if rs[0].Page? {
        PollKeepsHashes(c, p, rs[0]);
      }
      CanonicalHashesKeepQuiet(c, Poll(p, rs[0]), rs[1..]);
    }
  }

  /** Polling the canonical feed from a synchronized state, in any pages and with any failures in
      between, keeps the table canonical and raises no false alarm. */
  lemma CanonicalRunStaysInSync(c: Canon, p: Poller, h: nat, rs: seq<Reply>)
    requires WellFormed(c) && InSync(c, p, h) && CanonicalRun(c, p, rs)
    ensures Quiet(p, rs) && InSync(c, PollAll(p, rs), Reached(c, p, h, rs))
    ensures PollAll(p, rs).db.reorgLog == p.db.reorgLog
  {
    CanonicalHashesKeepQuiet(c, p, rs);
    QuietRunKeepsTableInSync(c, p, h, rs);
  }

  // ----- Recovery, exactly -----

  /** Rows of later ledgers change nothing below. */
  lemma LaterBatchesStayAbove(t: Table, batch: seq<Event>, back: int)
    requires forall e :: e in batch ==> e.ledger >= back
    ensures EventsBelow(Ingest(t, batch), back) == EventsBelow(t, back)
  {
    IngestRows(t, batch);
  }

  lemma StretchIsAbove(c: Canon, k: nat, m: nat, back: int)
    requires WellFormed(c) && FirstAt(c.feed, back) <= k <= m <= |c.feed|
    ensures forall e :: e in ParseEvents(c.feed[k..m]) ==> e.ledger >= back
  {
    EventsComeFromRecords(c.feed[k..m]);
    FirstAtSplits(c.feed, back);
    forall e | e in ParseEvents(c.feed[k..m])
      ensures e.ledger >= back
    {
      var i :| 0 <= i < m - k && c.feed[k..m][i].event == Some(e);
      assert c.feed[k..m][i] == c.feed[k + i];
    }
  }

  lemma RowsBeforeAreBelow(c: Canon, back: int)
    requires WellFormed(c)
    ensures EventsBelow(Rows(c.feed[..FirstAt(c.feed, back)]), back) == Rows(c.feed[..FirstAt(c.feed, back)])
  {
    var feed := c.feed[..FirstAt(c.feed, back)];
    var rows := Rows(feed);
    RowsAreTheEvents(c, |feed|);
    FirstAtSplits(c.feed, back);
    forall id | id in rows
      ensures rows[id].ledger < back
    {
      var i :| 0 <= i < |feed| && feed[i].event == Some(rows[id]);
      assert feed[i] == c.feed[i];
    }
  }

  /** Cutting the canonical rows at a ledger leaves the canonical rows below it. */
  lemma CanonicalRowsBelow(c: Canon, h: nat, back: int)
    requires WellFormed(c) && FirstAt(c.feed, back) <= h <= |c.feed|
    ensures EventsBelow(Rows(c.feed[..h]), back) == Rows(c.feed[..FirstAt(c.feed, back)])
  {
    var k := FirstAt(c.feed, back);
    assert c.feed[..k] + c.feed[k..h] == c.feed[..h];
    RowsAppend(c.feed[..k], c.feed[k..h]);
    StretchIsAbove(c, k, h, back);
    LaterBatchesStayAbove(Rows(c.feed[..k]), ParseEvents(c.feed[k..h]), back);
    RowsBeforeAreBelow(c, back);
  }

  /** Once the cursor is at the rollback point or later, no run that sees no further rollback
      touches a row below it. */
  lemma {:induction false} RowsBelowAreFrozen(c: Canon, p: Poller, rs: seq<Reply>, back: int)
    requires WellFormed(c) && CanonicalRun(c, p, rs) && Quiet(p, rs) && FirstAt(c.feed, back) <= Position(c, p.cursor)
    ensures EventsBelow(PollAll(p, rs).db.events, back) == EventsBelow(p.db.events, back)
    decreases |rs|
  {
    if rs != [] {
      if rs[0].Page? {
        var k := Position(c, p.cursor);
        CursorMoves(c, p, rs[0], back);
        StretchIsAbove(c, k, k + |rs[0].records|, back);
        LaterBatchesStayAbove(p.db.events, ParseEvents(rs[0].records), back);
      }
      RowsBelowAreFrozen(c, Poll(p, rs[0]), rs[1..], back);
    }
  }

  lemma {:induction false} ReachedIsLater(c: Canon, p: Poller, h: nat, rs: seq<Reply>)
    requires CanonicalRun(c, p, rs) && h <= |c.feed|
    ensures h <= Reached(c, p, h, rs) <= |c.feed|
    decreases |rs|
  {
    if rs != [] {
      ReachedIsLater(c, Poll(p, rs[0]),
                     if rs[0].Page? then Max(h, Position(c, p.cursor) + |rs[0].records|) else h, rs[1..]);
    }
  }

  /** Recovery, exactly: after a rollback and any further polls of the canonical feed that see no
      other, the table equals the canonical events fetched so far if and only if the rows below the
      rollback point were already the canonical ones when the reorg was detected. */
  lemma RecoveryIsExact(c: Canon, p: Poller, r: Reply, rs: seq<Reply>)
    requires WellFormed(c) && RollsBack(p, r) && CanonicalRun(c, Poll(p, r), rs) && Quiet(Poll(p, r), rs)
    ensures var start, back := Poll(p, r), RollbackPoint(r);
            var reached := Reached(c, start, FirstAt(c.feed, back), rs);
            && FirstAt(c.feed, back) <= reached <= |c.feed|
            && (PollAll(start, rs).db.events == Rows(c.feed[..reached]) <==> Restorable(c, p, r))
  {
    var start, back := Poll(p, r), RollbackPoint(r);
    AfterRollback(p, r);
    QuietRunConvergesExactly(c, start, rs, back);
  }

  lemma QuietRunConvergesExactly(c: Canon, start: Poller, rs: seq<Reply>, back: int)
    requires WellFormed(c) && CanonicalRun(c, start, rs) && Quiet(start, rs)
    requires start.cursor == AtLedger(back) && EventsBelow(start.db.events, back) == start.db.events
    ensures var first := FirstAt(c.feed, back);
            var reached := Reached(c, start, first, rs);
            && first <= reached <= |c.feed|
            && (PollAll(start, rs).db.events == Rows(c.feed[..reached]) <==> start.db.events == Rows(c.feed[..first]))
  {
    var first := FirstAt(c.feed, back);
    ReachedIsLater(c, start, first, rs);
    if start.db.events == Rows(c.feed[..first]) {
      QuietRunKeepsTableInSync(c, start, first, rs);
    }
    RowsBelowAreFrozen(c, start, rs, back);
    CanonicalRowsBelow(c, Reached(c, start, first, rs), back);
  }

  /** For a page that starts at the rollback point or later the condition is on the table before. */
  lemma RestorableFromBefore(c: Canon, p: Poller, r: Reply)
    requires WellFormed(c) && RollsBack(p, r) && CanonicalPage(c, p.cursor, r)
    requires FirstAt(c.feed, RollbackPoint(r)) <= Position(c, p.cursor)
    ensures var back := RollbackPoint(r);
            Restorable(c, p, r) <==> EventsBelow(p.db.events, back) == Rows(c.feed[..FirstAt(c.feed, back)])
  {
    var k := Position(c, p.cursor);
    StretchIsAbove(c, k, k + |r.records|, RollbackPoint(r));
    LaterBatchesStayAbove(p.db.events, ParseEvents(r.records), RollbackPoint(r));
  }

  /** Recovery: when the hashes below the rollback point are canonical as well, no further rollback
      happens, so the table always converges. */
  lemma RecoveryConverges(c: Canon, p: Poller, r: Reply, rs: seq<Reply>)
    requires WellFormed(c) && RollsBack(p, r) && CanonicalRun(c, Poll(p, r), rs)
    requires Restorable(c, p, r) && HashesCanonical(c, HashesBelow(p.db.hashes, RollbackPoint(r)))
    ensures var start := Poll(p, r);
            var reached := Reached(c, start, FirstAt(c.feed, RollbackPoint(r)), rs);
            && reached <= |c.feed| && PollAll(start, rs).db.events == Rows(c.feed[..reached])
            && PollAll(start, rs).db.reorgLog == start.db.reorgLog
  {
    RollbackRestoresSync(c, p, r);
    CanonicalRunStaysInSync(c, Poll(p, r), FirstAt(c.feed, RollbackPoint(r)), rs);
  }

  /** Rollback reaches one ledger below the tip: an older row, orphaned or not, stays through the
      rollback and every later poll of the canonical feed until another rollback. */
  lemma OlderRowsSurvive(c: Canon, p: Poller, r: Reply, rs: seq<Reply>, id: string)
    requires WellFormed(c) && RollsBack(p, r) && CanonicalRun(c, Poll(p, r), rs) && Quiet(Poll(p, r), rs)
    requires id in p.db.events && p.db.events[id].ledger < RollbackPoint(r)
    ensures var last := PollAll(Poll(p, r), rs).db.events;
            id in last && last[id] == p.db.events[id]
  {
    var start, back := Poll(p, r), RollbackPoint(r);
    AfterRollback(p, r);
    IngestRows(p.db.events, ParseEvents(r.records));
    assert id in start.db.events && start.db.events[id] == p.db.events[id];
    RowsBelowAreFrozen(c, start, rs, back);
    SameBelow(start.db.events, PollAll(start, rs).db.events, back, id);
  }

  lemma SameBelow(t: Table, u: Table, back: int, id: string)
    requires EventsBelow(u, back) == EventsBelow(t, back) && id in t && t[id].ledger < back
    ensures id in u && u[id] == t[id]
  {
    assert id in EventsBelow(t, back);
    assert id in EventsBelow(u, back);
  }

  // ----- The recorded chain -----

  /** The iteration records the hash of its tip. */
  predicate Records(p: Poller, r: Reply) {
    r.Page? && ParseEvents(r.records) != [] && !r.checkFails && r.meta.Some? && !ReorgSeen(p, r.meta)
  }

  predicate NamedByNext(h: map<int, HashRow>, m: LedgerMeta) {
    m.sequence + 1 in h ==> h[m.sequence + 1].prevHash == m.hash
  }

  /** Recording a tip keeps adjacent hashes linked exactly when the ledger above it is absent or
      names the new hash as its parent. */
  lemma RecordingLinks(p: Poller, r: Reply)
    requires LinkedChain(p.db.hashes)
    requires Records(p, r)
    ensures var m, h := r.meta.value, p.db.hashes;
            LinkedChain(Poll(p, r).db.hashes) <==> NamedByNext(h, m)
  {
    var m, h, h' := r.meta.value, p.db.hashes, Poll(p, r).db.hashes;
    assert h' == h[m.sequence := HashRow(m.hash, m.prevHash)];
    var n := m.sequence;
    assert n + 1 in h ==> n in h' && n + 1 in h' && h'[n + 1] == h[n + 1];
  }

  lemma OnlyRecordingUnlinks(p: Poller, r: Reply)
    requires LinkedChain(p.db.hashes) && !Records(p, r)
    ensures LinkedChain(Poll(p, r).db.hashes)
  {
  }

  ghost predicate LinkedThroughout(p: Poller, rs: seq<Reply>)
    decreases |rs|
  {
    LinkedChain(p.db.hashes) && (rs == [] || LinkedThroughout(Poll(p, rs[0]), rs[1..]))
  }

  /** Every tip that the run records is the parent that the ledger above names, if that is on file. */
  ghost predicate EveryTipIsNamed(p: Poller, rs: seq<Reply>)
    decreases |rs|
  {
    rs == [] ||
    ((Records(p, rs[0]) ==> NamedByNext(p.db.hashes, rs[0].meta.value)) && EveryTipIsNamed(Poll(p, rs[0]), rs[1..]))
  }

  /** Over a whole run, through every reorg and rollback, the chain stays linked if and only if no
      recorded tip contradicts the ledger above it. */
  lemma {:induction false} ChainStaysLinkedExactly(p: Poller, rs: seq<Reply>)
    requires LinkedChain(p.db.hashes)
    ensures LinkedThroughout(p, rs) <==> EveryTipIsNamed(p, rs)
    decreases |rs|
  {
    if rs != [] {
      if Records(p, rs[0]) {
        RecordingLinks(p, rs[0]);
      } else {
        OnlyRecordingUnlinks(p, rs[0]);
      }
      if LinkedChain(Poll(p, rs[0]).db.hashes) {
        ChainStaysLinkedExactly(Poll(p, rs[0]), rs[1..]);
      }
    }
  }

  /** No tip of the run is below a ledger recorded when it is polled. */
  ghost predicate TipsRise(p: Poller, rs: seq<Reply>)
    decreases |rs|
  {
    rs == [] ||
    (TipNotBelow(p, rs[0]) && TipsRise(Poll(p, rs[0]), rs[1..]))
  }

  ghost predicate TipNotBelow(p: Poller, r: Reply) {
    r.Page? && r.meta.Some? ==> forall n :: n in p.db.hashes ==> n <= r.meta.value.sequence
  }

  /** In runs whose tips never go below a recorded ledger, adjacent recorded hashes always link,
      through every reorg and rollback. */
  lemma {:induction false} RisingTipsStayLinked(p: Poller, rs: seq<Reply>)
    requires LinkedChain(p.db.hashes) && TipsRise(p, rs)
    ensures LinkedChain(PollAll(p, rs).db.hashes)
    decreases |rs|
  {
    if rs != [] {
      var r := rs[0];
      if Records(p, r) {
        RecordingLinks(p, r);
      }
      RisingTipsStayLinked(Poll(p, r), rs[1..]);
    }
  }

  /** Without that condition they need not: a page whose tip lies below a recorded ledger replaces
      the parent of that ledger unnoticed. */
  lemma LowerTipBreaksTheChain(e: Event)
    ensures var p := Poller(Tables(map[], map[6 := HashRow("b", "a")], []), Latest, Latest, 0, true);
            var r := Page([Record(1, 5, Some(e.(ledger := 5)))], Some(LedgerMeta(5, "z", "y")), false);
            LinkedChain(p.db.hashes) && !LinkedChain(Poll(p, r).db.hashes)
  {
    var p := Poller(Tables(map[], map[6 := HashRow("b", "a")], []), Latest, Latest, 0, true);
    var r := Page([Record(1, 5, Some(e.(ledger := 5)))], Some(LedgerMeta(5, "z", "y")), false);
    assert r.records[..0] == [];
    assert ParseEvents(r.records) == [e.(ledger := 5)];
    RecordingLinks(p, r);
  }

  // ----- The bookkeeping of the loop -----

  /** The iteration ends in the catch block. */
  predicate Fails(r: Reply) {
    r.FetchFailed? || (r.checkFails && ParseEvents(r.records) != [])
  }

  /** What an iteration that does not roll back leaves: the events of its page, the hash of its tip,
      and the cursor after its last record, or at its last event if it failed after storing. */
  lemma QuietPollIsExact(p: Poller, r: Reply)
    requires !RollsBack(p, r)
    ensures var q, events := Poll(p, r), if r.FetchFailed? then [] else ParseEvents(r.records);
            && q.db.events == Ingest(p.db.events, events) && q.db.reorgLog == p.db.reorgLog
            && q.db.hashes == (if r.FetchFailed? || r.checkFails || events == [] || r.meta.None? then p.db.hashes
                               else p.db.hashes[r.meta.value.sequence := HashRow(r.meta.value.hash, r.meta.value.prevHash)])
            && q.lastProcessed == (if events == [] then p.lastProcessed else AtLedger(events[|events| - 1].ledger))
            && q.cursor == (if r.FetchFailed? || r.records == [] then p.cursor
                            else if Fails(r) then AtLedger(events[|events| - 1].ledger)
                            else AfterRecord(r.records[|r.records| - 1].token))
  {
    if r.Page? && r.records == [] {
      assert ParseEvents(r.records) == [];
    }
  }

  /** A reorg is seen exactly when the recorded hash below the tip is not the one the tip names. */
  lemma RollsBackExactly(p: Poller, r: Reply)
    ensures RollsBack(p, r) <==>
            && !Fails(r) && ParseEvents(r.records) != [] && r.meta.Some?
            && r.meta.value.sequence - 1 in p.db.hashes
            && p.db.hashes[r.meta.value.sequence - 1].hash != r.meta.value.prevHash
  {
  }

  /** Over every run: the count is more than n exactly after n + 1 failures in a row, and the
      indexer is shown as active while it is below ten. */
  lemma {:induction false} FailuresAreCounted(p: Poller, rs: seq<Reply>, n: nat)
    requires p.consecutiveFailures == 0 && p.indexerActive
    ensures var q := PollAll(p, rs);
            && (q.consecutiveFailures > n <==> n < |rs| && forall j :: |rs| - 1 - n <= j < |rs| ==> Fails(rs[j]))
            && (q.indexerActive <==> q.consecutiveFailures < 10)
  {
    if rs != [] {
      var init, last := rs[..|rs| - 1], rs[|rs| - 1];
      PollOneMore(p, init, last);
      assert init + [last] == rs;
      FailuresAreCounted(p, init, if n > 0 then n - 1 else 0);
    }
  }

  lemma {:induction false} PollOneMore(p: Poller, rs: seq<Reply>, r: Reply)
    ensures PollAll(p, rs + [r]) == Poll(PollAll(p, rs), r)
    decreases |rs|
  {
    if rs == [] {
      assert [r][1..] == [];
    } else {
      assert (rs + [r])[1..] == rs[1..] + [r];
      PollOneMore(Poll(p, rs[0]), rs[1..], r);
    }
  }
}
