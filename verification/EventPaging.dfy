/** Reading a whole query result page by page (indexer/src/api.ts, indexer/src/db.ts).  The query
    orders rows by ledger alone, so each page may see the rows of one ledger in another order. */
module EventPaging {
  import opened Arithmetic
  import opened Collections
  import opened EventStore

  const PAGE_SIZE := 500

  datatype Replay = Events(events: seq<Event>) | LimitExceeded

  /** The rows of one query, LIMIT `limit` OFFSET `offset`. */
  function Page(rows: seq<Event>, limit: nat, offset: nat): seq<Event> {
    if offset >= |rows| then []
    else if offset + limit > |rows| then rows[offset..]
    else rows[offset..offset + limit]
  }

  /** A page holds the rows from the offset on, as many as there are and not more than the limit. */
  lemma PageIsASlice(rows: seq<Event>, limit: nat, offset: nat, i: nat)
    ensures |Page(rows, limit, offset)| == Max(0, Min(limit, |rows| - offset))
    ensures i < |Page(rows, limit, offset)| ==> Page(rows, limit, offset)[i] == rows[offset + i]
  {
  }

  /** One order of the rows per page that is read. */
  predicate EnoughOrders(orders: seq<seq<Event>>, total: nat) {
    |orders| > total / PAGE_SIZE && forall i :: 0 <= i < |orders| ==> |orders[i]| == total
  }

  /** The first `n` rows, each as the page it falls on shows it. */
  function Assembled(orders: seq<seq<Event>>, total: nat, n: nat): (r: seq<Event>)
    requires EnoughOrders(orders, total) && n <= total
    ensures |r| == n
  {
    if n == 0 then []
    else (assert (n - 1) / PAGE_SIZE <= total / PAGE_SIZE; Assembled(orders, total, n - 1) + [orders[(n - 1) / PAGE_SIZE][n - 1]])
  }

  lemma {:induction false} AssembledPage(orders: seq<seq<Event>>, total: nat, p: nat, n: nat)
    requires EnoughOrders(orders, total) && p < |orders| && p * PAGE_SIZE <= n <= total && n <= p * PAGE_SIZE + PAGE_SIZE
    ensures Assembled(orders, total, n) == Assembled(orders, total, p * PAGE_SIZE) + orders[p][p * PAGE_SIZE..n]
  {
    if n > p * PAGE_SIZE {
      AssembledPage(orders, total, p, n - 1);
      assert (n - 1) / PAGE_SIZE == p;
      assert orders[p][p * PAGE_SIZE..n] == orders[p][p * PAGE_SIZE..n - 1] + [orders[p][n - 1]];
    }
  }

  /** Reading page by page gives every row from the page it falls on, or refuses exactly when the
      result is over the limit. */
  method GetAllEvents(orders: seq<seq<Event>>, total: nat, maxReplay: nat) returns (r: Replay)
    requires EnoughOrders(orders, total)
    ensures r == if total > maxReplay then LimitExceeded else Events(Assembled(orders, total, total))
  {
    var events: seq<Event> := [];
    var offset, p := 0, 0;
    while true
      invariant offset == |events| == p * PAGE_SIZE <= total && offset <= maxReplay
      invariant events == Assembled(orders, total, offset)
      decreases total - offset
    {
      assert p == offset / PAGE_SIZE <= total / PAGE_SIZE;
      var page := Page(orders[p], PAGE_SIZE, offset);
      AssembledPage(orders, total, p, offset + |page|);
      events := events + page;
      if |events| > maxReplay {
        return LimitExceeded;
      }
      if |page| < PAGE_SIZE {
        return Events(events);
      }
      offset, p := offset + |page|, p + 1;
    }
  }

  // ----- Ties -----

  ghost predicate FallingLedgers(s: seq<Event>) {
    forall i, j :: 0 <= i < j < |s| ==> s[i].ledger >= s[j].ledger
  }

  /** An order of the rows that the query may return. */
  ghost predicate Returned(order: seq<Event>, rows: seq<Event>) {
    multiset(order) == multiset(rows) && |order| == |rows| && FallingLedgers(order)
  }

  ghost predicate AllReturned(orders: seq<seq<Event>>, rows: seq<Event>) {
    |orders| > |rows| / PAGE_SIZE && forall i :: 0 <= i < |orders| ==> Returned(orders[i], rows)
  }

  lemma Parts(s: seq<Event>, k: nat)
    requires k <= |s|
    ensures multiset(s) == multiset(s[..k]) + multiset(s[k..])
  {
    assert s == s[..k] + s[k..];
  }

  lemma SmallerMultiset(m: multiset<Event>, n: multiset<Event>)
    requires m <= n
    ensures |m| <= |n|
  {
    assert n == m + (n - m);
  }

  /** Rows above a ledger all lie in front. */
  lemma CountInFront(s: seq<Event>, k: nat, e: Event)
    requires FallingLedgers(s) && k < |s| && e.ledger > s[k].ledger
    ensures multiset(s[..k])[e] == multiset(s)[e]
  {
    Parts(s, k);
    assert e !in s[k..];
  }

  lemma LedgersDoNotDiffer(a: seq<Event>, b: seq<Event>, k: nat)
    requires FallingLedgers(a) && FallingLedgers(b) && multiset(a) == multiset(b) && k < |a| && k < |b|
    ensures a[k].ledger <= b[k].ledger
  {
    if a[k].ledger > b[k].ledger {
      var front := a[..k + 1];
      forall e
        ensures multiset(front)[e] <= multiset(b[..k])[e]
      {
        if e in front {
          CountInFront(b, k, e);
          Parts(a, k + 1);
        }
      }
      SmallerMultiset(multiset(front), multiset(b[..k]));
      assert false;
    }
  }

  /** Whatever the order of ties, each position shows a row of the right ledger. */
  lemma SameLedgers(a: seq<Event>, b: seq<Event>, k: nat)
    requires FallingLedgers(a) && FallingLedgers(b) && multiset(a) == multiset(b) && k < |a| && k < |b|
    ensures a[k].ledger == b[k].ledger
  {
    LedgersDoNotDiffer(a, b, k);
    LedgersDoNotDiffer(b, a, k);
  }

  /** No ledger has rows on both sides of position `k`. */
  predicate Clean(rows: seq<Event>, k: nat) {
    k == 0 || k >= |rows| || rows[k - 1].ledger != rows[k].ledger
  }

  lemma FrontIsTheSame(a: seq<Event>, rows: seq<Event>, k: nat)
    requires Returned(a, rows) && FallingLedgers(rows) && k <= |rows| && Clean(rows, k)
    ensures multiset(a[..k]) == multiset(rows[..k])
  {
    if k == |rows| {
      assert a[..k] == a && rows[..k] == rows;
    } else if k > 0 {
      SameLedgers(a, rows, k);
      SameLedgers(a, rows, k - 1);
      forall e
        ensures multiset(a[..k])[e] == multiset(rows[..k])[e]
      {
        if e.ledger > rows[k].ledger {
          CountInFront(a, k, e);
          CountInFront(rows, k, e);
        } else {
          assert e !in a[..k] && e !in rows[..k];
        }
      }
    }
  }

  lemma SliceOfFront(s: seq<Event>, lo: nat, hi: nat)
    requires lo <= hi <= |s|
    ensures multiset(s[..hi]) == multiset(s[..lo]) + multiset(s[lo..hi])
  {
    assert s[..hi] == s[..lo] + s[lo..hi];
  }

  lemma PageIsTheSame(a: seq<Event>, rows: seq<Event>, lo: nat, hi: nat)
    requires Returned(a, rows) && FallingLedgers(rows) && lo <= hi <= |rows| && Clean(rows, lo) && Clean(rows, hi)
    ensures multiset(a[lo..hi]) == multiset(rows[lo..hi])
  {
    FrontIsTheSame(a, rows, lo);
    FrontIsTheSame(a, rows, hi);
    SliceOfFront(a, lo, hi);
    SliceOfFront(rows, lo, hi);
    var front := multiset(rows[..lo]);
    assert front + multiset(a[lo..hi]) - front == multiset(a[lo..hi]);
    assert front + multiset(rows[lo..hi]) - front == multiset(rows[lo..hi]);
  }

  /** No ledger has rows on two pages. */
  ghost predicate NoLedgerIsSplit(rows: seq<Event>) {
    forall p: nat :: Clean(rows, p * PAGE_SIZE)
  }

  function EndOfPage(total: nat, p: nat): nat { Min(p * PAGE_SIZE, total) }

  lemma OneMorePage(orders: seq<seq<Event>>, rows: seq<Event>, p: nat, lo: nat, hi: nat)
    requires AllReturned(orders, rows) && FallingLedgers(rows) && Clean(rows, lo) && Clean(rows, hi)
    requires p < |orders| && lo == p * PAGE_SIZE <= hi <= |rows| && hi <= lo + PAGE_SIZE
    requires multiset(Assembled(orders, |rows|, lo)) == multiset(rows[..lo])
    ensures multiset(Assembled(orders, |rows|, hi)) == multiset(rows[..hi])
  {
    AssembledPage(orders, |rows|, p, hi);
    PageIsTheSame(orders[p], rows, lo, hi);
    SliceOfFront(rows, lo, hi);
  }

  lemma PageEnd(rows: seq<Event>, p: nat)
    requires NoLedgerIsSplit(rows)
    ensures Clean(rows, EndOfPage(|rows|, p))
  {
    assert Clean(rows, p * PAGE_SIZE);
  }

  lemma {:induction false} PagesAreTheSame(orders: seq<seq<Event>>, rows: seq<Event>, p: nat)
    requires AllReturned(orders, rows) && FallingLedgers(rows) && NoLedgerIsSplit(rows) && p <= |orders|
    ensures multiset(Assembled(orders, |rows|, EndOfPage(|rows|, p))) == multiset(rows[..EndOfPage(|rows|, p)])
  {
    if p > 0 {
      var lo, hi := EndOfPage(|rows|, p - 1), EndOfPage(|rows|, p);
      PagesAreTheSame(orders, rows, p - 1);
      if lo < hi {
        PageEnd(rows, p - 1);
        PageEnd(rows, p);
        OneMorePage(orders, rows, p - 1, lo, hi);
      }
    }
  }

  /** The rows with the two around position `k` swapped. */
  function SwappedAt(rows: seq<Event>, k: nat): seq<Event>
    requires 0 < k < |rows|
  {
    rows[k - 1 := rows[k]][k := rows[k - 1]]
  }

  lemma SwapIsReturned(rows: seq<Event>, k: nat)
    requires FallingLedgers(rows) && 0 < k < |rows| && rows[k - 1].ledger == rows[k].ledger
    ensures Returned(SwappedAt(rows, k), rows)
  {
    var s := SwappedAt(rows, k);
    assert rows == rows[..k - 1] + [rows[k - 1], rows[k]] + rows[k + 1..];
    assert s == rows[..k - 1] + [rows[k], rows[k - 1]] + rows[k + 1..];
    assert multiset([rows[k], rows[k - 1]]) == multiset([rows[k - 1], rows[k]]);
  }

  lemma {:induction false} AssembledAt(orders: seq<seq<Event>>, total: nat, n: nat, k: nat)
    requires EnoughOrders(orders, total) && k < n <= total
    ensures k / PAGE_SIZE < |orders| && Assembled(orders, total, n)[k] == orders[k / PAGE_SIZE][k]
  {
    assert k / PAGE_SIZE <= total / PAGE_SIZE;
    if k < n - 1 {
      AssembledAt(orders, total, n - 1, k);
    }
  }

  /** Page `p` sees the two rows around its start swapped. */
  function SwappedForPage(rows: seq<Event>, p: nat): (orders: seq<seq<Event>>)
    requires 0 < p * PAGE_SIZE < |rows|
    ensures |orders| == |rows| / PAGE_SIZE + 1
    ensures forall i :: 0 <= i < |orders| ==> orders[i] == if i == p then SwappedAt(rows, p * PAGE_SIZE) else rows
  {
    seq(|rows| / PAGE_SIZE + 1, i => if i == p then SwappedAt(rows, p * PAGE_SIZE) else rows)
  }

  lemma SwappedIsReturned(rows: seq<Event>, p: nat)
    requires FallingLedgers(rows) && !Clean(rows, p * PAGE_SIZE)
    ensures AllReturned(SwappedForPage(rows, p), rows)
  {
    var orders := SwappedForPage(rows, p);
    SwapIsReturned(rows, p * PAGE_SIZE);
    forall i | 0 <= i < |orders|
      ensures Returned(orders[i], rows)
    {
    }
  }

  lemma SwappedShowsARowTwice(orders: seq<seq<Event>>, rows: seq<Event>, p: nat, k: nat)
    requires k == p * PAGE_SIZE && 0 < k < |rows| && orders == SwappedForPage(rows, p) && EnoughOrders(orders, |rows|)
    ensures var r := Assembled(orders, |rows|, |rows|);
            r[k - 1] == r[k]
  {
    AssembledAt(orders, |rows|, |rows|, k - 1);
    AssembledAt(orders, |rows|, |rows|, k);
    assert (k - 1) / PAGE_SIZE == p - 1 && k / PAGE_SIZE == p;
  }

  /** A ledger with rows on two pages can show one of them twice. */
  lemma SplitLedgerRepeatsARow(rows: seq<Event>, p: nat) returns (orders: seq<seq<Event>>)
    requires FallingLedgers(rows) && NoDup(rows) && !Clean(rows, p * PAGE_SIZE)
    ensures AllReturned(orders, rows) && multiset(Assembled(orders, |rows|, |rows|)) != multiset(rows)
  {
    orders := SwappedForPage(rows, p);
    SwappedIsReturned(rows, p);
    SwappedShowsARowTwice(orders, rows, p, p * PAGE_SIZE);
    TwiceIsNotOnce(Assembled(orders, |rows|, |rows|), rows, p * PAGE_SIZE - 1, p * PAGE_SIZE);
  }

  lemma TwiceIsNotOnce(r: seq<Event>, rows: seq<Event>, i: nat, j: nat)
    requires i < j < |r| && r[i] == r[j] && NoDup(rows)
    ensures multiset(r) != multiset(rows)
  {
    Parts(r, j);
    assert r[i] in r[..j] && r[j] in r[j..];
    assert multiset(r)[r[i]] >= 2;
    OncePerRow(rows, r[i]);
  }

  lemma {:induction false} OncePerRow(rows: seq<Event>, e: Event)
    requires NoDup(rows)
    ensures multiset(rows)[e] <= 1
  {
    if rows != [] {
      var init, last := rows[..|rows| - 1], rows[|rows| - 1];
      OncePerRow(init, e);
      assert rows == init + [last];
      assert last !in init;
    }
  }

  /** The pages hold every row once, whatever order each of them sees, if and only if no ledger has
      rows on two pages. */
  lemma PagesAreCompleteExactly(rows: seq<Event>)
    requires FallingLedgers(rows) && NoDup(rows)
    ensures (forall orders :: AllReturned(orders, rows) ==> multiset(Assembled(orders, |rows|, |rows|)) == multiset(rows))
            <==> NoLedgerIsSplit(rows)
  {
    if NoLedgerIsSplit(rows) {
      forall orders | AllReturned(orders, rows)
        ensures multiset(Assembled(orders, |rows|, |rows|)) == multiset(rows)
      {
        PagesAreTheSame(orders, rows, |orders|);
        assert rows[..|rows|] == rows;
      }
    } else {
      var p: nat :| !Clean(rows, p * PAGE_SIZE);
      var orders := SplitLedgerRepeatsARow(rows, p);
    }
  }

  /** When every page sees one order the pages reassemble it. */
  lemma {:induction false} OneOrderIsReassembled(orders: seq<seq<Event>>, rows: seq<Event>, n: nat)
    requires EnoughOrders(orders, |rows|) && n <= |rows| && forall i :: 0 <= i < |orders| ==> orders[i] == rows
    ensures Assembled(orders, |rows|, n) == rows[..n]
  {
    if n > 0 {
      OneOrderIsReassembled(orders, rows, n - 1);
    }
  }

  /** Every position shows a row of the right ledger all the same. */
  lemma LedgersAreRight(orders: seq<seq<Event>>, rows: seq<Event>, k: nat)
    requires AllReturned(orders, rows) && FallingLedgers(rows) && k < |rows|
    ensures var e := Assembled(orders, |rows|, |rows|)[k];
            e in rows && e.ledger == rows[k].ledger
  {
    AssembledAt(orders, |rows|, |rows|, k);
    var order := orders[k / PAGE_SIZE];
    SameLedgers(order, rows, k);
    assert order[k] in multiset(order);
  }
}
