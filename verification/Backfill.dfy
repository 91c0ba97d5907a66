/** The backfill loop of the indexer (indexer/src/backfill.ts): fetch from the current ledger,
    store, move on, and give up after too many failures in a row. */
module Backfill {
  import opened Collections
  import opened EventStore

  const MAX_RETRIES := 8

  /** What one iteration meets: the fetch fails, or it answers a page whose events can be stored
      or not. */
  datatype Reply = FetchFails | Fetched(records: seq<Record>, storable: bool)

  datatype Status = Running | Complete | Aborted

  datatype Progress = Progress(
    table: Table,
    currentLedger: int,
    totalEvents: nat,
    retryCount: nat,
    status: Status
  )

  /** The catch block counts every failure twice. */
  function Failed(p: Progress): Progress {
    var n := p.retryCount + 2;
    p.(retryCount := n, status := if n > MAX_RETRIES then Aborted else p.status)
  }

  function StoredPage(p: Progress, events: seq<Event>): Progress {
    if events == [] then p
    else p.(table := Ingest(p.table, events), totalEvents := p.totalEvents + |events|,
            currentLedger := events[|events| - 1].ledger)
  }

  function NextLedger(current: int, last: Record): int {
    var next := if last.ledger != 0 then last.ledger else current + 1;
    if next == current then current + 1 else next
  }

  function Iterate(p: Progress, end: Option<int>, r: Reply): Progress {
    match r
    case FetchFails => Failed(p)
    case Fetched(records, storable) =>
      var q := p.(retryCount := 0);
      if records == [] then q.(status := Complete)
      else
        var events := ParseEvents(records);
        if events != [] && !storable then Failed(q)
        else
          var stored := StoredPage(q, events);
          if end.Some? && stored.currentLedger >= end.value then stored.(status := Complete)
          else stored.(currentLedger := NextLedger(stored.currentLedger, records[|records| - 1]))
  }

  function Drive(p: Progress, end: Option<int>, replies: seq<Reply>): Progress
    decreases |replies|
  {
    if replies == [] || p.status != Running then p
    else Drive(Iterate(p, end, replies[0]), end, replies[1..])
  }

  function Begin(table: Table, start: int): Progress { Progress(table, start, 0, 0, Running) }

  /** The loop, over the replies it meets; it is still running when they are used up. */
  method RunBackfill(table: Table, start: int, end: Option<int>, replies: seq<Reply>) returns (p: Progress)
    ensures p == Drive(Begin(table, start), end, replies)
  {
    var t, currentLedger := table, start;
    var totalEvents: nat, retryCount: nat := 0, 0;
    var i := 0;
    while i < |replies|
      invariant 0 <= i <= |replies|
      invariant Drive(Begin(table, start), end, replies) ==
                Drive(Progress(t, currentLedger, totalEvents, retryCount, Running), end, replies[i..])
    {
      ghost var before := Progress(t, currentLedger, totalEvents, retryCount, Running);
      var reply := replies[i];
      assert replies[i..][1..] == replies[i + 1..];
      i := i + 1;
      var failed := true;
      if reply.Fetched? {
        retryCount := 0;
        if |reply.records| == 0 {
          return Progress(t, currentLedger, totalEvents, retryCount, Complete);
        }
        var events := FilterEvents(reply.records);
        failed := |events| > 0 && !reply.storable;
        if !failed {
          if |events| > 0 {
            var inserted, skipped;
            t, inserted, skipped := StoreEvents(t, events);
            totalEvents := totalEvents + |events|;
            currentLedger := events[|events| - 1].ledger;
          }
          if end.Some? && currentLedger >= end.value {
            return Progress(t, currentLedger, totalEvents, retryCount, Complete);
          }
          currentLedger := NextLedger(currentLedger, reply.records[|reply.records| - 1]);
        }
      }
      if failed {
        retryCount := retryCount + 2;
        if retryCount > MAX_RETRIES {
          return Progress(t, currentLedger, totalEvents, retryCount, Aborted);
        }
      }
      assert Progress(t, currentLedger, totalEvents, retryCount, Running) == Iterate(before, end, reply);
    }
    return Progress(t, currentLedger, totalEvents, retryCount, Running);
  }

  // ----- Progress and termination -----

  /** What the loop expects of Horizon: a page is in ledger order, starts no earlier than asked, and
      its events carry their record's ledger. */
  ghost predicate InOrder(current: int, records: seq<Record>) {
    && (forall i :: 0 <= i < |records| ==>
          && records[i].ledger >= current && records[i].ledger > 0
          && (records[i].event.Some? ==> records[i].event.value.ledger == records[i].ledger))
    && (forall i, j :: 0 <= i < j < |records| ==> records[i].ledger <= records[j].ledger)
  }

  lemma {:induction false} KeptLedgers(current: int, records: seq<Record>)
    requires InOrder(current, records) && ParseEvents(records) != []
    ensures var events := ParseEvents(records);
            current <= events[|events| - 1].ledger <= records[|records| - 1].ledger
  {
    var n := |records| - 1;
    if records[n].event.None? {
      KeptLedgers(current, records[..n]);
    }
  }

  /** The page takes the run forward: the last event kept lies no earlier than asked, and the last
      record names no ledger, that event's, or one that is later than asked. */
  predicate Forward(current: int, records: seq<Record>) {
    records == [] ||
    var events, last := ParseEvents(records), records[|records| - 1].ledger;
    var at := if events == [] then current else events[|events| - 1].ledger;
    at >= current && (last == 0 || last == at || last > current)
  }

  lemma OrderedPagesGoForward(current: int, records: seq<Record>)
    requires InOrder(current, records)
    ensures Forward(current, records)
  {
    if ParseEvents(records) != [] {
      KeptLedgers(current, records);
    }
  }

  ghost predicate Honest(p: Progress, end: Option<int>, replies: seq<Reply>)
    decreases |replies|
  {
    replies == [] || p.status != Running ||
    ((replies[0].Fetched? ==> Forward(p.currentLedger, replies[0].records))
     && Honest(Iterate(p, end, replies[0]), end, replies[1..]))
  }

  /** A page that does not finish the run takes it to a strictly higher ledger, never past an end
      it had not reached. */
  lemma PagesAdvance(p: Progress, end: Option<int>, r: Reply)
    requires p.status == Running && r.Fetched? && Forward(p.currentLedger, r.records)
    requires ParseEvents(r.records) == [] || r.storable
    ensures var q := Iterate(p, end, r);
            q.status == Running ==>
              && q.currentLedger > p.currentLedger && q.retryCount == 0
              && (end.Some? ==> p.currentLedger < end.value)
  {
  }

  /** Without that a run need not end: a page whose last event and last record name no ledger sends
      it back to ledger one, however often it is fetched. */
  lemma {:induction false} UnnamedLedgersLoop(p: Progress, end: Option<int>, r: Reply, n: nat)
    requires p.status == Running && r.Fetched? && r.storable && ParseEvents(r.records) != []
    requires var events := ParseEvents(r.records);
             events[|events| - 1].ledger == 0 && r.records != [] && r.records[|r.records| - 1].ledger == 0
    requires end.Some? ==> end.value > 0
    ensures var q := Drive(p, end, seq(n, _ => r));
            q.status == Running && (n > 0 ==> q.currentLedger == 1)
    decreases n
  {
    if n > 0 {
      assert seq(n, _ => r)[1..] == seq((n - 1) as nat, _ => r);
      UnnamedLedgersLoop(Iterate(p, end, r), end, r, n - 1);
    }
  }

  predicate StoreFails(r: Reply) {
    r.Fetched? && r.records != [] && ParseEvents(r.records) != [] && !r.storable
  }

  function StoreFailures(replies: seq<Reply>): nat {
    if replies == [] then 0 else (if StoreFails(replies[0]) then 1 else 0) + StoreFailures(replies[1..])
  }

  /** How many more iterations a run may take. */
  function Budget(p: Progress, end: int, storeFailures: nat): int {
    5 * (if end > p.currentLedger then end - p.currentLedger else 0) + 5 * storeFailures
    + (MAX_RETRIES - p.retryCount) / 2
  }

  lemma IterationSpendsBudget(p: Progress, end: int, r: Reply, later: nat)
    requires p.status == Running && p.retryCount <= MAX_RETRIES && p.retryCount % 2 == 0
    requires r.Fetched? ==> Forward(p.currentLedger, r.records)
    ensures var q := Iterate(p, Some(end), r);
            q.status == Running ==>
              && q.retryCount <= MAX_RETRIES && q.retryCount % 2 == 0
              && Budget(q, end, later) < Budget(p, end, later + if StoreFails(r) then 1 else 0)
  {
    if r.Fetched? && !StoreFails(r) {
      PagesAdvance(p, Some(end), r);
    }
  }

  lemma {:induction false} RunsWithinBudget(p: Progress, end: int, replies: seq<Reply>)
    requires p.status == Running && p.retryCount <= MAX_RETRIES && p.retryCount % 2 == 0
    requires Honest(p, Some(end), replies)
    requires Drive(p, Some(end), replies).status == Running
    ensures |replies| <= Budget(p, end, StoreFailures(replies))
    decreases |replies|
  {
    if replies != [] {
      var q := Iterate(p, Some(end), replies[0]);
      IterationSpendsBudget(p, end, replies[0], StoreFailures(replies[1..]));
      RunsWithinBudget(q, end, replies[1..]);
    }
  }

  /** Termination: with an end ledger, a run is over after five iterations per ledger of the range
      and per page that could not be stored, and four more. */
  lemma BoundedBackfillEnds(table: Table, start: int, end: int, replies: seq<Reply>)
    requires Honest(Begin(table, start), Some(end), replies)
    requires |replies| > 5 * (if end > start then end - start else 0) + 5 * StoreFailures(replies) + 4
    ensures Drive(Begin(table, start), Some(end), replies).status != Running
  {
    if Drive(Begin(table, start), Some(end), replies).status == Running {
      RunsWithinBudget(Begin(table, start), end, replies);
    }
  }

  // ----- When a run gives up -----

  /** A failure that does not reset the count, or leaves it started. */
  predicate Fails(r: Reply) { r.FetchFails? || StoreFails(r) }

  /** The failures on the count after these replies: the failed fetches at the end, and the failed
      store before them. */
  function FailuresInARow(replies: seq<Reply>): nat {
    if replies == [] then 0
    else
      var last := replies[|replies| - 1];
      if last.FetchFails? then FailuresInARow(replies[..|replies| - 1]) + 1
      else if StoreFails(last) then 1
      else 0
  }

  /** The k-th reply is the last of four failed fetches, directly after a fifth or a failed store. */
  ghost predicate GivesUpAt(replies: seq<Reply>, k: nat) {
    && 5 <= k <= |replies| && Fails(replies[k - 5])
    && forall j :: k - 4 <= j < k ==> replies[j].FetchFails?
  }

  lemma {:induction false} CountIsTheStreak(replies: seq<Reply>, n: nat)
    ensures FailuresInARow(replies) > n <==>
              && n < |replies| && Fails(replies[|replies| - 1 - n])
              && forall j :: |replies| - n <= j < |replies| ==> replies[j].FetchFails?
  {
    if replies != [] {
      var init, last := replies[..|replies| - 1], replies[|replies| - 1];
      if n > 0 {
        CountIsTheStreak(init, n - 1);
        assert n < |replies| ==> init[|init| - 1 - (n - 1)] == replies[|replies| - 1 - n];
        if last.FetchFails? && FailuresInARow(init) > n - 1 {
          forall j | |replies| - n <= j < |replies|
            ensures replies[j].FetchFails?
          {
            assert j < |init| ==> init[j].FetchFails?;
          }
        }
        if n < |replies| && forall j :: |replies| - n <= j < |replies| ==> replies[j].FetchFails? {
          assert last.FetchFails?;
        }
      }
    }
  }

  lemma {:induction false} DriveOneMore(p: Progress, end: Option<int>, replies: seq<Reply>, r: Reply)
    ensures var q := Drive(p, end, replies);
            Drive(p, end, replies + [r]) == if q.status == Running then Iterate(q, end, r) else q
    decreases |replies|
  {
    if replies != [] && p.status == Running {
      assert (replies + [r])[1..] == replies[1..] + [r];
      DriveOneMore(Iterate(p, end, replies[0]), end, replies[1..], r);
    } else if replies == [] {
      assert [r][1..] == [];
    }
  }

  /** While a run goes on its count is twice the failures in a row, and it has not given up before. */
  lemma {:induction false} RunningCount(p: Progress, end: Option<int>, replies: seq<Reply>)
    requires p.status == Running && p.retryCount == 0
    ensures var q := Drive(p, end, replies);
            && (q.status == Running ==>
                  q.retryCount == 2 * FailuresInARow(replies) <= MAX_RETRIES && forall k :: !GivesUpAt(replies, k))
            && (q.status == Aborted ==> exists k :: GivesUpAt(replies, k))
  {
    if replies != [] {
      var n := |replies| - 1;
      var init, last := replies[..n], replies[n];
      RunningCount(p, end, init);
      DriveOneMore(p, end, init, last);
      assert init + [last] == replies;
      CountIsTheStreak(replies, 4);
      forall k: nat | k <= n
        ensures GivesUpAt(init, k) <==> GivesUpAt(replies, k)
      {
      }
      var q := Drive(p, end, init);
      if q.status == Aborted {
        var k: nat :| GivesUpAt(init, k);
        assert GivesUpAt(replies, k);
      } else if q.status == Running && FailuresInARow(replies) > 4 {
        assert GivesUpAt(replies, n + 1);
      }
    }
  }

  /** A run that has not completed has given up exactly if it met four failed fetches in a row
      directly after a fifth or after a page that could not be stored. */
  lemma FetchFailuresAbort(p: Progress, end: Option<int>, replies: seq<Reply>)
    requires p.status == Running && p.retryCount == 0
    ensures var q := Drive(p, end, replies);
            q.status == Aborted <==> q.status != Complete && exists k :: GivesUpAt(replies, k)
  {
    RunningCount(p, end, replies);
  }

  lemma {:induction false} FailuresNeverComplete(p: Progress, end: Option<int>, replies: seq<Reply>)
    requires p.status != Complete && forall i :: 0 <= i < |replies| ==> Fails(replies[i])
    ensures var q := Drive(p, end, replies);
            q.status != Complete && q.currentLedger == p.currentLedger && q.table == p.table
    decreases |replies|
  {
    if replies != [] && p.status == Running {
      FailuresNeverComplete(Iterate(p, end, replies[0]), end, replies[1..]);
    }
  }

  /** A streak of failures from the start, whatever fails in it. */
  lemma FailureStreakAborts(table: Table, start: int, end: Option<int>, replies: seq<Reply>)
    requires forall i :: 0 <= i < |replies| ==> Fails(replies[i])
    ensures Drive(Begin(table, start), end, replies).status == Aborted <==> exists k :: GivesUpAt(replies, k)
  {
    FailuresNeverComplete(Begin(table, start), end, replies);
    FetchFailuresAbort(Begin(table, start), end, replies);
  }

  /** The retry bound does not cover storing: the successful fetch resets the count first, so pages
      that cannot be stored are retried for ever. */
  lemma {:induction false} StoreFailuresNeverAbort(p: Progress, end: Option<int>, replies: seq<Reply>)
    requires p.status == Running && forall i :: 0 <= i < |replies| ==> StoreFails(replies[i])
    ensures var q := Drive(p, end, replies);
            q.status == Running && q.currentLedger == p.currentLedger && q.table == p.table
    decreases |replies|
  {
    if replies != [] {
      StoreFailuresNeverAbort(Iterate(p, end, replies[0]), end, replies[1..]);
    }
  }

  // ----- What a run stores -----

  function StoredEvents(p: Progress, end: Option<int>, replies: seq<Reply>): seq<Event>
    decreases |replies|
  {
    if replies == [] || p.status != Running then []
    else
      var r := replies[0];
      (if r.Fetched? && r.storable then ParseEvents(r.records) else []) + StoredEvents(Iterate(p, end, r), end, replies[1..])
  }

  /** Across retries and early exits, a run stores exactly the events of the pages that could be
      stored, once each, and counts them. */
  lemma {:induction false} RunStoresItsPages(p: Progress, end: Option<int>, replies: seq<Reply>)
    ensures var q := Drive(p, end, replies);
            && q.table == Ingest(p.table, StoredEvents(p, end, replies))
            && q.totalEvents == p.totalEvents + |StoredEvents(p, end, replies)|
    decreases |replies|
  {
    if replies != [] && p.status == Running {
      var r := replies[0];
      var now := if r.Fetched? && r.storable then ParseEvents(r.records) else [];
      var q := Iterate(p, end, r);
      RunStoresItsPages(q, end, replies[1..]);
      IngestAppend(p.table, now, StoredEvents(q, end, replies[1..]));
    }
  }

  /** From the start: the table holds the events of the stored pages on top of what it held, and
      the count is theirs. */
  lemma BackfillStoresItsPages(table: Table, start: int, end: Option<int>, replies: seq<Reply>)
    ensures var q, stored := Drive(Begin(table, start), end, replies), StoredEvents(Begin(table, start), end, replies);
            q.table == Ingest(table, stored) && q.totalEvents == |stored|
  {
    RunStoresItsPages(Begin(table, start), end, replies);
  }

  // ----- Where a run ends, by the replies -----

  /** The ledger of the last record of these that holds an event. */
  function LastKept(records: seq<Record>, otherwise: int): int {
    if records == [] then otherwise
    else
      var last := records[|records| - 1];
      if last.event.Some? then last.event.value.ledger else LastKept(records[..|records| - 1], otherwise)
  }

  lemma {:induction false} LastKeptIsTheLastEvent(records: seq<Record>, otherwise: int)
    ensures var events := ParseEvents(records);
            LastKept(records, otherwise) == if events == [] then otherwise else events[|events| - 1].ledger
  {
    if records != [] {
      LastKeptIsTheLastEvent(records[..|records| - 1], otherwise);
    }
  }

  /** The ledger a run asks for after these replies: the one that the last stored page's last record
      names, or the one after its last event if that record names no other. */
  function Asked(start: int, replies: seq<Reply>): int {
    if replies == [] then start
    else
      var before, r := Asked(start, replies[..|replies| - 1]), replies[|replies| - 1];
      if Fails(r) || r.records == [] then before
      else
        var at, named := LastKept(r.records, before), r.records[|r.records| - 1].ledger;
        if named != 0 && named != at then named else at + 1
  }

  /** The k-th reply is an empty page, or a stored page that reaches the end. */
  predicate FinishesAt(start: int, end: Option<int>, replies: seq<Reply>, k: nat) {
    && k < |replies| && !Fails(replies[k])
    && (replies[k].records == []
        || (end.Some? && LastKept(replies[k].records, Asked(start, replies[..k])) >= end.value))
  }

  ghost predicate OverAfter(start: int, end: Option<int>, replies: seq<Reply>, k: nat) {
    (k > 0 && FinishesAt(start, end, replies, k - 1)) || GivesUpAt(replies, k)
  }

  /** The first reply after which a run is over is the k-th. */
  ghost predicate EndsAfter(start: int, end: Option<int>, replies: seq<Reply>, k: nat) {
    OverAfter(start, end, replies, k) && forall j: nat :: j < k ==> !OverAfter(start, end, replies, j)
  }

  lemma IterationIsExact(p: Progress, end: Option<int>, r: Reply)
    requires p.status == Running
    ensures var q := Iterate(p, end, r);
            if Fails(r) then
              q.currentLedger == p.currentLedger
              && q.status == (if (if r.FetchFails? then p.retryCount else 0) >= MAX_RETRIES - 1 then Aborted else Running)
            else
              var at := LastKept(r.records, p.currentLedger);
              && q.status == (if r.records == [] || (end.Some? && at >= end.value) then Complete else Running)
              && (q.status == Running ==>
                    var named := r.records[|r.records| - 1].ledger;
                    q.currentLedger == if named != 0 && named != at then named else at + 1)
  {
    if r.Fetched? {
      LastKeptIsTheLastEvent(r.records, p.currentLedger);
    }
  }

  ghost predicate CompletesAfter(start: int, end: Option<int>, replies: seq<Reply>, k: nat) {
    EndsAfter(start, end, replies, k) && k > 0 && FinishesAt(start, end, replies, k - 1)
  }

  ghost predicate AbortsAfter(start: int, end: Option<int>, replies: seq<Reply>, k: nat) {
    EndsAfter(start, end, replies, k) && GivesUpAt(replies, k)
  }

  lemma OverBefore(start: int, end: Option<int>, replies: seq<Reply>, k: nat)
    requires k < |replies|
    ensures var init := replies[..|replies| - 1];
            && (GivesUpAt(replies, k) <==> GivesUpAt(init, k))
            && (k > 0 ==> (FinishesAt(start, end, replies, k - 1) <==> FinishesAt(start, end, init, k - 1)))
            && (OverAfter(start, end, replies, k) <==> OverAfter(start, end, init, k))
  {
    if k > 0 {
      assert replies[..|replies| - 1][..k - 1] == replies[..k - 1];
    }
  }

  lemma EndedStays(start: int, end: Option<int>, replies: seq<Reply>, k: nat)
    requires k < |replies|
    ensures var init := replies[..|replies| - 1];
            && (CompletesAfter(start, end, replies, k) <==> CompletesAfter(start, end, init, k))
            && (AbortsAfter(start, end, replies, k) <==> AbortsAfter(start, end, init, k))
  {
    var init := replies[..|replies| - 1];
    OverBefore(start, end, replies, k);
    if EndsAfter(start, end, init, k) {
      forall j: nat | j < k
        ensures !OverAfter(start, end, replies, j)
      {
        OverBefore(start, end, replies, j);
      }
    }
    if EndsAfter(start, end, replies, k) {
      forall j: nat | j < k
        ensures !OverAfter(start, end, init, j)
      {
        OverBefore(start, end, replies, j);
      }
    }
  }

  lemma OneEnd(start: int, end: Option<int>, replies: seq<Reply>, j: nat, k: nat)
    requires EndsAfter(start, end, replies, j) && EndsAfter(start, end, replies, k)
    ensures j == k
    ensures !(CompletesAfter(start, end, replies, j) && AbortsAfter(start, end, replies, k))
  {
  }

  /** What the replies say about a state of the run. */
  ghost predicate Matches(q: Progress, start: int, end: Option<int>, replies: seq<Reply>) {
    match q.status
    case Running => q.currentLedger == Asked(start, replies) && forall k: nat :: !OverAfter(start, end, replies, k)
    case Complete => exists k: nat :: CompletesAfter(start, end, replies, k)
    case Aborted => exists k: nat :: AbortsAfter(start, end, replies, k)
  }

  lemma EndedRunsStay(q: Progress, start: int, end: Option<int>, replies: seq<Reply>)
    requires replies != [] && q.status != Running && Matches(q, start, end, replies[..|replies| - 1])
    ensures Matches(q, start, end, replies)
  {
    var init := replies[..|replies| - 1];
    var k: nat :| if q.status == Complete then CompletesAfter(start, end, init, k) else AbortsAfter(start, end, init, k);
    EndedStays(start, end, replies, k);
  }

  lemma RunningStep(q: Progress, start: int, end: Option<int>, replies: seq<Reply>)
    requires replies != [] && q.status == Running && Matches(q, start, end, replies[..|replies| - 1])
    requires q.retryCount == 2 * FailuresInARow(replies[..|replies| - 1])
    ensures Matches(Iterate(q, end, replies[|replies| - 1]), start, end, replies)
  {
    var n := |replies| - 1;
    forall k: nat | k <= n
      ensures !OverAfter(start, end, replies, k)
    {
      OverBefore(start, end, replies, k);
    }
    CountIsTheStreak(replies, 4);
    IterationIsExact(q, end, replies[n]);
    if OverAfter(start, end, replies, n + 1) {
      assert EndsAfter(start, end, replies, n + 1);
      assert CompletesAfter(start, end, replies, n + 1) || AbortsAfter(start, end, replies, n + 1);
    }
  }

  lemma {:induction false} RunMatches(table: Table, start: int, end: Option<int>, replies: seq<Reply>)
    ensures Matches(Drive(Begin(table, start), end, replies), start, end, replies)
  {
    if replies != [] {
      var n, p := |replies| - 1, Begin(table, start);
      var q := Drive(p, end, replies[..n]);
      RunMatches(table, start, end, replies[..n]);
      DriveOneMore(p, end, replies[..n], replies[n]);
      assert replies[..n] + [replies[n]] == replies;
      if q.status == Running {
        RunningCount(p, end, replies[..n]);
        RunningStep(q, start, end, replies);
      } else {
        EndedRunsStay(q, start, end, replies);
      }
    }
  }

  /** Over every run, from the replies alone: it goes on exactly while no reply ended it, it is
      complete exactly if the first that did is an empty page or reached the end, and it has given
      up exactly if that was the last of too many failures.  While it goes on it asks for the ledger
      that follows the last stored page. */
  lemma RunEndsExactly(table: Table, start: int, end: Option<int>, replies: seq<Reply>)
    ensures var q := Drive(Begin(table, start), end, replies);
            && (q.status == Running <==> forall k: nat :: !OverAfter(start, end, replies, k))
            && (q.status == Complete <==> exists k: nat :: CompletesAfter(start, end, replies, k))
            && (q.status == Aborted <==> exists k: nat :: AbortsAfter(start, end, replies, k))
            && (q.status == Running ==> q.currentLedger == Asked(start, replies))
  {
    RunMatches(table, start, end, replies);
    forall j: nat, k: nat | CompletesAfter(start, end, replies, j) && AbortsAfter(start, end, replies, k)
      ensures false
    {
      OneEnd(start, end, replies, j, k);
    }
  }
}
