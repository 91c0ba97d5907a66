/** The indexer's event table (indexer/src/db.ts) and the records it is filled from.  Rows are keyed
    by event id and an insert never overwrites. */
module EventStore {
  import opened Collections

  /** `content` stands for the columns copied from the chain; `createdAt` is the indexer's own
      clock, which differs between two ingests of the same event. */
  datatype Event = Event(id: string, ledger: int, content: string, createdAt: string)

  /** A fetched record: its paging token, its ledger, and the event that the parser (and in a
      backfill the contract filter) makes of it, if any. */
  datatype Record = Record(token: nat, ledger: int, event: Option<Event>)

  function ParseEvents(records: seq<Record>): seq<Event> {
    if records == [] then []
    else
      var init := ParseEvents(records[..|records| - 1]);
      var last := records[|records| - 1].event;
      if last.Some? then init + [last.value] else init
  }

  method FilterEvents(records: seq<Record>) returns (events: seq<Event>)
    ensures events == ParseEvents(records)
  {
    events := [];
    for i := 0 to |records|
      invariant events == ParseEvents(records[..i])
    {
      assert records[..i + 1][..i] == records[..i];
      if records[i].event.Some? {
        events := events + [records[i].event.value];
      }
    }
    assert records[..|records|] == records;
  }

  /** The places of the first `n` records that hold an event. */
  ghost function Holding(records: seq<Record>, n: nat): set<nat>
    requires n <= |records|
  {
    set j: nat | j < n && records[j].event.Some?
  }

  lemma HoldingOneMore(records: seq<Record>, n: nat)
    requires n < |records|
    ensures Holding(records, n + 1) == Holding(records, n) + if records[n].event.Some? then {n} else {}
  {
  }

  lemma {:induction false} EventsAreCounted(records: seq<Record>, n: nat)
    requires n <= |records|
    ensures |ParseEvents(records[..n])| == |Holding(records, n)|
  {
    if n > 0 {
      assert records[..n][..n - 1] == records[..n - 1];
      EventsAreCounted(records, n - 1);
      HoldingOneMore(records, n - 1);
    }
  }

  /** There is one event per record that holds one, each in its place among the others. */
  lemma {:induction false} EventsKeepTheirPlace(records: seq<Record>, i: nat, n: nat)
    requires i < n <= |records| && records[i].event.Some?
    ensures |Holding(records, i)| < |ParseEvents(records[..n])| == |Holding(records, n)|
    ensures ParseEvents(records[..n])[|Holding(records, i)|] == records[i].event.value
  {
    EventsAreCounted(records, n);
    EventsAreCounted(records, i);
    assert records[..n][..n - 1] == records[..n - 1];
    if i < n - 1 {
      EventsKeepTheirPlace(records, i, n - 1);
      HoldingOneMore(records, n - 1);
    } else {
      HoldingOneMore(records, i);
    }
  }

  type Table = map<string, Event>

  function Insert(t: Table, e: Event): Table {
    if e.id in t then t else t[e.id := e]
  }

  /** INSERT ... ON CONFLICT (id) DO NOTHING for a whole batch. */
  function Ingest(t: Table, batch: seq<Event>): Table {
    if batch == [] then t else Insert(Ingest(t, batch[..|batch| - 1]), batch[|batch| - 1])
  }

  method StoreEvents(table: Table, batch: seq<Event>) returns (next: Table, inserted: nat, skipped: nat)
    ensures next == Ingest(table, batch)
    ensures inserted + skipped == |batch|
    ensures |next| == |table| + inserted
  {
    next, inserted := table, 0;
    for i := 0 to |batch|
      invariant next == Ingest(table, batch[..i])
      invariant inserted <= i && |next| == |table| + inserted
    {
      assert batch[..i + 1][..i] == batch[..i];
      if batch[i].id !in next {
        assert (next[batch[i].id := batch[i]]).Keys == next.Keys + {batch[i].id};
        next := next[batch[i].id := batch[i]];
        inserted := inserted + 1;
      }
    }
    assert batch[..|batch|] == batch;
    skipped := |batch| - inserted;
  }

  function Ids(batch: seq<Event>): set<string> {
    set e | e in batch :: e.id
  }

  /** Old rows stay, the new rows are those of the batch, and each new id gets a row of its own. */
  lemma {:induction false} IngestRows(t: Table, batch: seq<Event>)
    ensures Ingest(t, batch).Keys == t.Keys + Ids(batch)
    ensures forall id :: id in t ==> Ingest(t, batch)[id] == t[id]
    ensures forall id :: id in Ingest(t, batch) && id !in t ==>
              Ingest(t, batch)[id] in batch && Ingest(t, batch)[id].id == id
  {
    if batch != [] {
      var init, last := batch[..|batch| - 1], batch[|batch| - 1];
      IngestRows(t, init);
      assert batch == init + [last];
      assert Ids(batch) == Ids(init) + {last.id};
    }
  }

  lemma {:induction false} IngestAppend(t: Table, a: seq<Event>, b: seq<Event>)
    ensures Ingest(t, a + b) == Ingest(Ingest(t, a), b)
  {
    if b == [] {
      assert a + b == a;
    } else {
      assert (a + b)[..|a + b| - 1] == a + b[..|b| - 1];
      IngestAppend(t, a, b[..|b| - 1]);
    }
  }

  // ----- Two writers -----

  /** One batch after another, as the poller and the backfill write them. */
  function IngestAll(t: Table, batches: seq<seq<Event>>): Table {
    if batches == [] then t else Ingest(IngestAll(t, batches[..|batches| - 1]), batches[|batches| - 1])
  }

  function Flatten(batches: seq<seq<Event>>): seq<Event> {
    if batches == [] then [] else Flatten(batches[..|batches| - 1]) + batches[|batches| - 1]
  }

  lemma {:induction false} BatchingIsIrrelevant(t: Table, batches: seq<seq<Event>>)
    ensures IngestAll(t, batches) == Ingest(t, Flatten(batches))
  {
    if batches != [] {
      var init := batches[..|batches| - 1];
      BatchingIsIrrelevant(t, init);
      IngestAppend(t, Flatten(init), batches[|batches| - 1]);
    }
  }

  predicate SameUpToCreatedAt(a: Event, b: Event) {
    a.(createdAt := "") == b.(createdAt := "")
  }

  /** Every event of `a` occurs in `b`, up to its creation time. */
  ghost predicate Covered(a: seq<Event>, b: seq<Event>) {
    forall e :: e in a ==> exists f :: f in b && SameUpToCreatedAt(e, f)
  }

  /** One id always names one event, up to its creation time. */
  ghost predicate IdsNameEvents(a: seq<Event>) {
    forall e, f :: e in a && f in a && e.id == f.id ==> SameUpToCreatedAt(e, f)
  }

  ghost predicate SameRows(t: Table, u: Table) {
    t.Keys == u.Keys && forall id :: id in t ==> SameUpToCreatedAt(t[id], u[id])
  }

  lemma RowsAgree(t: Table, a: seq<Event>, b: seq<Event>, id: string)
    requires IdsNameEvents(a) && Covered(b, a)
    requires id in Ingest(t, a) && id in Ingest(t, b)
    ensures SameUpToCreatedAt(Ingest(t, a)[id], Ingest(t, b)[id])
  {
    IngestRows(t, a);
    IngestRows(t, b);
    if id !in t {
      var f := Ingest(t, b)[id];
      var e :| e in a && SameUpToCreatedAt(f, e);
      assert e.id == id;
      assert SameUpToCreatedAt(e, Ingest(t, a)[id]);
    }
  }

  lemma SameKeys(t: Table, a: seq<Event>, b: seq<Event>)
    requires Ids(a) == Ids(b)
    ensures Ingest(t, a).Keys == Ingest(t, b).Keys
  {
    IngestRows(t, a);
    IngestRows(t, b);
  }

  /** Ingest is confluent and idempotent: two histories of batches that carry the same events,
      however batched, interleaved or repeated, leave the same rows up to creation times. */
  lemma IngestIsConfluent(t: Table, one: seq<seq<Event>>, two: seq<seq<Event>>)
    requires IdsNameEvents(Flatten(one)) && Covered(Flatten(one), Flatten(two)) && Covered(Flatten(two), Flatten(one))
    ensures SameRows(IngestAll(t, one), IngestAll(t, two))
  {
    var a, b := Flatten(one), Flatten(two);
    BatchingIsIrrelevant(t, one);
    BatchingIsIrrelevant(t, two);
    CoveredIds(a, b);
    CoveredIds(b, a);
    SameKeys(t, a, b);
    forall id | id in Ingest(t, a)
      ensures SameUpToCreatedAt(Ingest(t, a)[id], Ingest(t, b)[id])
    {
      RowsAgree(t, a, b, id);
    }
  }

  lemma CoveredIds(a: seq<Event>, b: seq<Event>)
    requires Covered(a, b)
    ensures Ids(a) <= Ids(b)
  {
  }

  /** The inserts that the batches of a history report, one after another. */
  function ReportedInserts(t: Table, batches: seq<seq<Event>>): int {
    if batches == [] then 0
    else
      var init := batches[..|batches| - 1];
      ReportedInserts(t, init) + |IngestAll(t, batches)| - |IngestAll(t, init)|
  }

  lemma NewRowsAreNewIds(t: Table, batch: seq<Event>)
    ensures |Ingest(t, batch)| - |t| == |Ids(batch) - t.Keys|
  {
    IngestRows(t, batch);
    assert Ingest(t, batch).Keys == t.Keys + (Ids(batch) - t.Keys);
    assert |t.Keys + (Ids(batch) - t.Keys)| == |t.Keys| + |Ids(batch) - t.Keys|;
    assert |Ingest(t, batch)| == |Ingest(t, batch).Keys| && |t| == |t.Keys|;
  }

  lemma {:induction false} InsertsAddUp(t: Table, batches: seq<seq<Event>>)
    ensures ReportedInserts(t, batches) == |IngestAll(t, batches)| - |t|
  {
    if batches != [] {
      InsertsAddUp(t, batches[..|batches| - 1]);
    }
  }

  /** The inserts reported over a whole history of batches, from either writer and with any
      repetitions, add up to the number of distinct new ids. */
  lemma InsertsCountDistinctIds(t: Table, batches: seq<seq<Event>>)
    ensures ReportedInserts(t, batches) == |Ids(Flatten(batches)) - t.Keys|
  {
    InsertsAddUp(t, batches);
    BatchingIsIrrelevant(t, batches);
    NewRowsAreNewIds(t, Flatten(batches));
  }

  /** Of events with one id the first of a batch wins, unless the id has a row already. */
  lemma {:induction false} FirstOfABatchWins(t: Table, batch: seq<Event>, i: nat)
    requires i < |batch| && batch[i].id !in t && forall j :: 0 <= j < i ==> batch[j].id != batch[i].id
    ensures batch[i].id in Ingest(t, batch) && Ingest(t, batch)[batch[i].id] == batch[i]
  {
    var init := batch[..|batch| - 1];
    if i < |init| {
      FirstOfABatchWins(t, init, i);
    } else {
      IngestRows(t, init);
    }
  }
}
