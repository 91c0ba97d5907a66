/** The from-scratch replay that rebuilds realized tranche yields from indexed events
    (indexer/src/db.ts, recomputeTrancheApy). */
module TrancheReplay {
  import opened Arithmetic
  import opened Collections

  const ROW_LIMIT := 100_000

  datatype Class = Senior | Junior

  datatype Kind = Fund | Repay | Default | Other

  /** The first four entries of an event's value: invoice, token and two amounts. */
  datatype Fields = Fields(invoice: string, token: string, first: int, second: int)

  /** `fields` is None when the value is not an array of at least four entries. */
  datatype TrancheEvent = TrancheEvent(kind: Kind, fields: Option<Fields>)

  datatype Acc = Acc(principal: int, ret: int, closed: nat)

  datatype Bucket = Bucket(senior: Acc, junior: Acc)

  datatype Deployment = Deployment(token: string, senior: int, junior: int)

  datatype Replay = Replay(agg: map<string, Bucket>, deployed: map<string, Deployment>)

  const Empty: Replay := Replay(map[], map[])

  function BucketOf(agg: map<string, Bucket>, token: string): Bucket {
    if token in agg then agg[token] else Bucket(Acc(0, 0, 0), Acc(0, 0, 0))
  }

  function Closed(a: Acc, principal: int, ret: int): Acc {
    Acc(a.principal + principal, a.ret + ret, a.closed + 1)
  }

  /** A default event carries the junior loss first. */
  function Step(r: Replay, e: TrancheEvent): Replay {
    if e.fields.None? then r
    else
      var Fields(invoice, token, first, second) := e.fields.value;
      var b := BucketOf(r.agg, token);
      match e.kind
      case Fund => r.(deployed := r.deployed[invoice := Deployment(token, first, second)])
      case Repay =>
        if invoice !in r.deployed then r
        else
          var d := r.deployed[invoice];
          Replay(r.agg[token := Bucket(Closed(b.senior, d.senior, first - d.senior),
                                       Closed(b.junior, d.junior, second - d.junior))],
                 r.deployed - {invoice})
      case Default =>
        var d := if invoice in r.deployed then r.deployed[invoice] else Deployment(token, second, first);
        Replay(r.agg[token := Bucket(Closed(b.senior, d.senior, -second),
                                     Closed(b.junior, d.junior, -first))],
               r.deployed - {invoice})
      case Other => r
  }

  function Replayed(events: seq<TrancheEvent>): Replay {
    if events == [] then Empty else Step(Replayed(events[..|events| - 1]), events[|events| - 1])
  }

  function Limited(rows: seq<TrancheEvent>): seq<TrancheEvent> {
    if |rows| <= ROW_LIMIT then rows else rows[..ROW_LIMIT]
  }

  method ReplayEvents(rows: seq<TrancheEvent>) returns (agg: map<string, Bucket>, deployed: map<string, Deployment>)
    ensures Replay(agg, deployed) == Replayed(Limited(rows))
  {
    agg, deployed := map[], map[];
    var ordered := Limited(rows);
    for i := 0 to |ordered|
      invariant Replay(agg, deployed) == Replayed(ordered[..i])
    {
      assert ordered[..i + 1][..i] == ordered[..i];
      var e := ordered[i];
      if e.fields.None? {
        continue;
      }
      var Fields(invoice, token, first, second) := e.fields.value;
      match e.kind
      case Fund =>
        deployed := deployed[invoice := Deployment(token, first, second)];
      case Repay =>
        if invoice in deployed {
          var dep, b := deployed[invoice], BucketOf(agg, token);
          agg := agg[token := Bucket(Closed(b.senior, dep.senior, first - dep.senior),
                                     Closed(b.junior, dep.junior, second - dep.junior))];
          deployed := deployed - {invoice};
        }
      case Default =>
        var juniorLoss, seniorLoss := first, second;
        var b := BucketOf(agg, token);
        var seniorPrincipal, juniorPrincipal := seniorLoss, juniorLoss;
        if invoice in deployed {
          seniorPrincipal, juniorPrincipal := deployed[invoice].senior, deployed[invoice].junior;
        }
        agg := agg[token := Bucket(Closed(b.senior, seniorPrincipal, -seniorLoss),
                                   Closed(b.junior, juniorPrincipal, -juniorLoss))];
        deployed := deployed - {invoice};
      case Other =>
    }
    assert ordered[..|ordered|] == ordered;
  }

  // ----- The derived table -----

  // BigInt division truncates toward zero.
  function ApyBps(a: Acc): int {
    if a.principal > 0 then TruncDiv(a.ret * BPS, a.principal) else 0
  }

  datatype Row = Row(principal: int, ret: int, closed: nat, apyBps: int, updatedAt: string)

  type ApyTable = map<(string, Class), Row>

  function AccOf(b: Bucket, c: Class): Acc {
    match c case Senior => b.senior case Junior => b.junior
  }

  function RowOf(a: Acc, updatedAt: string): Row {
    Row(a.principal, a.ret, a.closed, ApyBps(a), updatedAt)
  }

  /** Both rows of a token are the ones its bucket gives. */
  predicate Rebuilt(t: ApyTable, token: string, b: Bucket, updatedAt: string) {
    && (token, Senior) in t && t[(token, Senior)] == RowOf(b.senior, updatedAt)
    && (token, Junior) in t && t[(token, Junior)] == RowOf(b.junior, updatedAt)
  }

  predicate SameEntry(t: ApyTable, u: ApyTable, key: (string, Class)) {
    (key in t <==> key in u) && (key in t ==> t[key] == u[key])
  }

  predicate Kept(t: ApyTable, u: ApyTable, token: string) {
    SameEntry(t, u, (token, Senior)) && SameEntry(t, u, (token, Junior))
  }

  /** The rows of the replayed tokens are rebuilt; all other rows stay as they were, also those
      of tokens that a rollback removed from the events. */
  method RecomputeTrancheApy(rows: seq<TrancheEvent>, table: ApyTable, updatedAt: string) returns (next: ApyTable)
    ensures var agg := Replayed(Limited(rows)).agg;
            forall token :: if token in agg then Rebuilt(next, token, agg[token], updatedAt) else Kept(next, table, token)
  {
    var agg, deployed := ReplayEvents(rows);
    next := table;
    var todo := agg.Keys;
    while todo != {}
      invariant todo <= agg.Keys
      invariant forall token :: if token in agg && token !in todo then Rebuilt(next, token, agg[token], updatedAt)
                                else Kept(next, table, token)
      decreases |todo|
    {
      var token :| token in todo;
      next := next[(token, Senior) := RowOf(agg[token].senior, updatedAt)];
      next := next[(token, Junior) := RowOf(agg[token].junior, updatedAt)];
      todo := todo - {token};
    }
  }

  // ----- Conservation -----

  function DeployedTo(d: Deployment, token: string, c: Class): int {
    if d.token != token then 0 else if c == Senior then d.senior else d.junior
  }

  ghost function OpenAmounts(deployed: map<string, Deployment>, token: string, c: Class): map<string, int> {
    map i | i in deployed :: DeployedTo(deployed[i], token, c)
  }

  /** Capital of a token and class still deployed in open invoices. */
  ghost function OpenCapital(r: Replay, token: string, c: Class): int {
    Total(OpenAmounts(r.deployed, token, c))
  }

  function AccFor(r: Replay, token: string, c: Class): Acc {
    AccOf(BucketOf(r.agg, token), c)
  }

  /** The amount an event names for a class: funds and repayments carry the senior amount first,
      defaults the junior loss. */
  function Named(e: TrancheEvent, c: Class): int
    requires e.fields.Some?
  {
    if (c == Senior) == (e.kind != Default) then e.fields.value.first else e.fields.value.second
  }

  function FundedBy(e: TrancheEvent, token: string, c: Class): int {
    if e.kind == Fund && e.fields.Some? && e.fields.value.token == token then Named(e, c) else 0
  }

  function TotalFunded(events: seq<TrancheEvent>, token: string, c: Class): int {
    if events == [] then 0
    else TotalFunded(events[..|events| - 1], token, c) + FundedBy(events[|events| - 1], token, c)
  }

  /** What came back when an event closed an invoice: the payout, or what the loss left. */
  function RecoveredBy(r: Replay, e: TrancheEvent, token: string, c: Class): int {
    if e.fields.None? || e.fields.value.token != token || e.fields.value.invoice !in r.deployed then 0
    else
      match e.kind
      case Repay => Named(e, c)
      case Default => (if c == Senior then r.deployed[e.fields.value.invoice].senior
                       else r.deployed[e.fields.value.invoice].junior) - Named(e, c)
      case _ => 0
  }

  function TotalRecovered(events: seq<TrancheEvent>, token: string, c: Class): int {
    if events == [] then 0
    else
      var init := events[..|events| - 1];
      TotalRecovered(init, token, c) + RecoveredBy(Replayed(init), events[|events| - 1], token, c)
  }

  /** Capital that an event makes appear or vanish, read off the event and the invoice it names:
      funding an open invoice forgets the deployment it overwrites, closing under another token
      moves a deployment, and a default of an unknown invoice realizes a principal never funded. */
  function MovedBy(r: Replay, e: TrancheEvent, token: string, c: Class): int {
    if e.fields.None? || e.kind == Other then 0
    else
      var f := e.fields.value;
      if f.invoice in r.deployed then
        var d := r.deployed[f.invoice];
        (if e.kind != Fund && f.token == token then DeployedTo(d, d.token, c) else 0) - DeployedTo(d, token, c)
      else if e.kind == Default && f.token == token then Named(e, c)
      else 0
  }

  function TotalMoved(events: seq<TrancheEvent>, token: string, c: Class): int {
    if events == [] then 0
    else
      var init := events[..|events| - 1];
      TotalMoved(init, token, c) + MovedBy(Replayed(init), events[|events| - 1], token, c)
  }

  lemma FundingOpens(deployed: map<string, Deployment>, i: string, d: Deployment, token: string, c: Class)
    ensures Total(OpenAmounts(deployed[i := d], token, c)) ==
            Total(OpenAmounts(deployed, token, c)) + DeployedTo(d, token, c)
            - (if i in deployed then DeployedTo(deployed[i], token, c) else 0)
  {
    assert OpenAmounts(deployed[i := d], token, c) == OpenAmounts(deployed, token, c)[i := DeployedTo(d, token, c)];
    TotalUpdated(OpenAmounts(deployed, token, c), i, DeployedTo(d, token, c));
  }

  lemma ClosingReleases(deployed: map<string, Deployment>, i: string, token: string, c: Class)
    ensures Total(OpenAmounts(deployed - {i}, token, c)) ==
            Total(OpenAmounts(deployed, token, c)) - (if i in deployed then DeployedTo(deployed[i], token, c) else 0)
  {
    assert OpenAmounts(deployed - {i}, token, c) == OpenAmounts(deployed, token, c) - {i};
    if i in deployed {
      TotalAt(OpenAmounts(deployed, token, c), i);
    } else {
      assert OpenAmounts(deployed, token, c) - {i} == OpenAmounts(deployed, token, c);
    }
  }

  /** The books of one step, for every state and every event. */
  lemma StepBalances(r: Replay, e: TrancheEvent, token: string, c: Class)
    ensures var r' := Step(r, e);
            AccFor(r', token, c).principal + OpenCapital(r', token, c) ==
            AccFor(r, token, c).principal + OpenCapital(r, token, c) + FundedBy(e, token, c) + MovedBy(r, e, token, c)
  {
    if e.fields.Some? {
      var f := e.fields.value;
      if e.kind == Fund {
        FundingOpens(r.deployed, f.invoice, Deployment(f.token, f.first, f.second), token, c);
      } else {
        ClosingReleases(r.deployed, f.invoice, token, c);
      }
    }
  }

  /** The books of a whole stream: what is realized and what is still open add up to what was
      funded and what the events moved. */
  lemma {:induction false} ReplayBalances(events: seq<TrancheEvent>, token: string, c: Class)
    ensures var r := Replayed(events);
            AccFor(r, token, c).principal + OpenCapital(r, token, c)
            == TotalFunded(events, token, c) + TotalMoved(events, token, c)
    ensures ConservesFor(events, token, c) <==> TotalMoved(events, token, c) == 0
  {
    if events != [] {
      var init := events[..|events| - 1];
      ReplayBalances(init, token, c);
      StepBalances(Replayed(init), events[|events| - 1], token, c);
    } else {
      assert OpenAmounts(map[], token, c) == map[];
    }
  }

  /** On every stream principal and return add up to what came back. */
  lemma {:induction false} ReturnsAreWhatCameBack(events: seq<TrancheEvent>, token: string, c: Class)
    ensures var a := AccFor(Replayed(events), token, c);
            a.principal + a.ret == TotalRecovered(events, token, c)
  {
    if events != [] {
      ReturnsAreWhatCameBack(events[..|events| - 1], token, c);
    }
  }

  predicate NoAmounts(d: Deployment) { d.senior == 0 && d.junior == 0 }

  /** An event that keeps the books: it funds an invoice that is not open (or open for nothing),
      repays one under its own token or none at all, and defaults one under its own token. */
  predicate KeepsBooks(r: Replay, e: TrancheEvent) {
    e.fields.None? ||
    var f := e.fields.value;
    var known := f.invoice in r.deployed;
    match e.kind
    case Fund => known ==> NoAmounts(r.deployed[f.invoice])
    case Repay => known ==> r.deployed[f.invoice].token == f.token || NoAmounts(r.deployed[f.invoice])
    case Default =>
      if known then r.deployed[f.invoice].token == f.token || NoAmounts(r.deployed[f.invoice])
      else f.first == 0 && f.second == 0
    case Other => true
  }

  ghost predicate MovesNothing(r: Replay, e: TrancheEvent) {
    forall token, c :: MovedBy(r, e, token, c) == 0
  }

  lemma KeepingBooksMovesNothing(r: Replay, e: TrancheEvent)
    ensures KeepsBooks(r, e) <==> MovesNothing(r, e)
  {
    if MovesNothing(r, e) && e.fields.Some? {
      var f := e.fields.value;
      var token := if f.invoice in r.deployed then r.deployed[f.invoice].token else f.token;
      assert MovedBy(r, e, token, Senior) == 0 && MovedBy(r, e, token, Junior) == 0;
    }
  }

  ghost predicate ConservesFor(events: seq<TrancheEvent>, token: string, c: Class) {
    AccFor(Replayed(events), token, c).principal + OpenCapital(Replayed(events), token, c) == TotalFunded(events, token, c)
  }

  ghost predicate Conserves(events: seq<TrancheEvent>) {
    forall token, c :: ConservesFor(events, token, c)
  }

  /** An event after a stream that conserves conserves exactly what it does not move. */
  lemma OneMoreMove(events: seq<TrancheEvent>, k: nat, token: string, c: Class)
    requires k < |events| && ConservesFor(events[..k], token, c)
    ensures ConservesFor(events[..k + 1], token, c) <==> MovedBy(Replayed(events[..k]), events[k], token, c) == 0
  {
    assert events[..k + 1][..k] == events[..k];
    ReplayBalances(events[..k], token, c);
    ReplayBalances(events[..k + 1], token, c);
  }

  lemma OneMoreEvent(events: seq<TrancheEvent>, k: nat)
    requires k < |events| && Conserves(events[..k])
    ensures Conserves(events[..k + 1]) <==> KeepsBooks(Replayed(events[..k]), events[k])
  {
    var r, e, longer := Replayed(events[..k]), events[k], events[..k + 1];
    if Conserves(longer) {
      forall token, c
        ensures MovedBy(r, e, token, c) == 0
      {
        assert ConservesFor(events[..k], token, c) && ConservesFor(longer, token, c);
        OneMoreMove(events, k, token, c);
      }
    }
    if MovesNothing(r, e) {
      forall token, c
        ensures ConservesFor(longer, token, c)
      {
        assert ConservesFor(events[..k], token, c) && MovedBy(r, e, token, c) == 0;
        OneMoreMove(events, k, token, c);
      }
    }
    KeepingBooksMovesNothing(Replayed(events[..k]), events[k]);
  }

  /** Capital is conserved after each of the first `n` events. */
  ghost predicate ConservesUpTo(events: seq<TrancheEvent>, n: nat)
    requires n <= |events|
  {
    forall k: nat :: k <= n ==> Conserves(events[..k])
  }

  /** Each of the first `n` events keeps the books. */
  predicate BooksKeptUpTo(events: seq<TrancheEvent>, n: nat)
    requires n <= |events|
  {
    forall k: nat :: k < n ==> KeepsBooks(Replayed(events[..k]), events[k])
  }

  /** Conservation of capital: for every token and class the realized principal and what is still
      open add up to what was funded, at every point of a stream, if and only if every event of it
      keeps the books. */
  lemma {:induction false} ReplayConservesCapital(events: seq<TrancheEvent>, n: nat)
    requires n <= |events|
    ensures ConservesUpTo(events, n) <==> BooksKeptUpTo(events, n)
  {
    if n == 0 {
      forall token, c
        ensures ConservesFor(events[..0], token, c)
      {
        ReplayBalances(events[..0], token, c);
      }
    } else {
      ReplayConservesCapital(events, n - 1);
      assert ConservesUpTo(events, n) <==> ConservesUpTo(events, n - 1) && Conserves(events[..n]);
      assert BooksKeptUpTo(events, n) <==> BooksKeptUpTo(events, n - 1) && KeepsBooks(Replayed(events[..n - 1]), events[n - 1]);
      if ConservesUpTo(events, n - 1) {
        assert Conserves(events[..n - 1]);
        OneMoreEvent(events, n - 1);
      }
    }
  }

  /** An event that breaks the books is reachable.  The contract lets an invoice be funded again
      once it is repaid, but rows of one ledger come back in no order: with the repayment last the
      replay closes the second deployment at the first one's payout and forgets the first. */
  lemma SwappedRowsLoseCapital(x: int, y: int, payout: int)
    ensures var e := (kind: Kind, amount: int) => TrancheEvent(kind, Some(Fields("1", "T", amount, 0)));
            var chain, swapped := [e(Fund, x), e(Repay, payout), e(Fund, y)], [e(Fund, x), e(Fund, y), e(Repay, payout)];
            && TotalMoved(chain, "T", Senior) == 0 && TotalMoved(swapped, "T", Senior) == -x
            && AccFor(Replayed(swapped), "T", Senior) == Acc(y, payout - y, 1)
            && AccFor(Replayed(chain), "T", Senior) == Acc(x, payout - x, 1)
  {
    var e := (kind: Kind, amount: int) => TrancheEvent(kind, Some(Fields("1", "T", amount, 0)));
    var chain, swapped := [e(Fund, x), e(Repay, payout), e(Fund, y)], [e(Fund, x), e(Fund, y), e(Repay, payout)];
    var funded := [e(Fund, x)];
    assert funded[..0] == [] && TotalMoved(funded, "T", Senior) == 0;
    assert chain[..2][..1] == funded == swapped[..2][..1];
    assert Replayed(funded) == Replay(map[], map["1" := Deployment("T", x, 0)]);
    assert TotalMoved(chain[..2], "T", Senior) == 0 && TotalMoved(swapped[..2], "T", Senior) == -x;
    assert Replayed(swapped[..2]) == Replay(map[], map["1" := Deployment("T", y, 0)]);
  }

  /** Both classes close together, on every stream. */
  lemma {:induction false} ClassesCloseTogether(events: seq<TrancheEvent>, token: string)
    ensures AccFor(Replayed(events), token, Senior).closed == AccFor(Replayed(events), token, Junior).closed
  {
    if events != [] {
      ClassesCloseTogether(events[..|events| - 1], token);
    }
  }

  // ----- The yield figure -----

  /** No payout is negative and no loss exceeds what was deployed for its invoice. */
  predicate Covered(r: Replay, e: TrancheEvent) {
    e.fields.None? ||
    var f := e.fields.value;
    match e.kind
    case Repay => f.first >= 0 && f.second >= 0
    case Default => f.invoice in r.deployed ==>
                      f.first <= r.deployed[f.invoice].junior && f.second <= r.deployed[f.invoice].senior
    case _ => true
  }

  predicate CoveredStream(events: seq<TrancheEvent>) {
    events == [] || (CoveredStream(events[..|events| - 1]) && Covered(Replayed(events[..|events| - 1]), events[|events| - 1]))
  }

  lemma {:induction false} LossesAreCovered(events: seq<TrancheEvent>, token: string, c: Class)
    requires CoveredStream(events)
    ensures TotalRecovered(events, token, c) >= 0
  {
    if events != [] {
      LossesAreCovered(events[..|events| - 1], token, c);
    }
  }

  lemma TruncDivBound(a: int, b: int, m: nat)
    requires b > 0
    ensures TruncDiv(a, b) >= 0 - m <==> a + m * b + b > 0
  {
    if a < 0 {
      if a + m * b + b > 0 {
        DivAtMost(-a, b, m);
      } else {
        assert (m + 1) * b == m * b + b;
        DivAtLeast(-a, b, m + 1);
      }
    } else {
      DivAtLeast(a, b, 0);
      MulMonotone(0, m, b);
    }
  }

  /** On every stream the yield is at least minus 100 percent exactly when what came back is not
      more than one basis point of the principal below zero.  So it always is when losses are
      covered and payouts not negative. */
  lemma YieldIsAtLeastTotalLoss(events: seq<TrancheEvent>, token: string, c: Class)
    ensures var a := AccFor(Replayed(events), token, c);
            ApyBps(a) >= -BPS <==> a.principal <= 0 || BPS * TotalRecovered(events, token, c) + a.principal > 0
    ensures CoveredStream(events) ==> ApyBps(AccFor(Replayed(events), token, c)) >= -BPS
  {
    var a := AccFor(Replayed(events), token, c);
    ReturnsAreWhatCameBack(events, token, c);
    if a.principal > 0 {
      TruncDivBound(a.ret * BPS, a.principal, BPS);
    }
    if CoveredStream(events) {
      LossesAreCovered(events, token, c);
    }
  }

  /** A loss above the invoice's own deployment is reachable, because the contract limits it by the
      junior capital of the whole pool, and then the yield falls below minus 100 percent. */
  lemma LargeLossesFallBelow(deployed: int, loss: int)
    requires 0 < deployed && BPS * (loss - deployed) >= deployed
    ensures var events := [TrancheEvent(Fund, Some(Fields("1", "T", 0, deployed))),
                           TrancheEvent(Default, Some(Fields("1", "T", loss, 0)))];
            ApyBps(AccFor(Replayed(events), "T", Junior)) < -BPS
  {
    var events := [TrancheEvent(Fund, Some(Fields("1", "T", 0, deployed))),
                   TrancheEvent(Default, Some(Fields("1", "T", loss, 0)))];
    assert events[..1][..0] == [] && events[..1] == [events[0]];
    assert Replayed(events[..1]) == Replay(map[], map["1" := Deployment("T", 0, deployed)]);
    assert AccFor(Replayed(events), "T", Junior) == Acc(deployed, -loss, 1);
    TruncDivBound(-loss * BPS, deployed, BPS);
  }

  /** The quotient in basis points, cut off toward zero. */
  predicate IsQuotient(bps: int, gained: int, principal: int) {
    && (gained >= 0 ==> 0 <= bps && bps * principal <= 10_000 * gained < (bps + 1) * principal)
    && (gained <= 0 ==> bps <= 0 && (bps - 1) * principal < 10_000 * gained <= bps * principal)
  }

  lemma QuotientBounds(ret: int, principal: int)
    requires principal > 0
    ensures IsQuotient(TruncDiv(ret * BPS, principal), ret, principal)
  {
    var q := TruncDiv(ret * BPS, principal);
    TruncDivIsTruncation(ret * BPS, principal);
    assert (q + 1) * principal == q * principal + principal && (q - 1) * principal == q * principal - principal;
    if ret >= 0 {
      DivAtLeast(ret * BPS, principal, 0);
    } else {
      DivAtLeast(-(ret * BPS), principal, 0);
    }
  }

  /** The row of a class after a stream, without the replay's own arithmetic: the yield is the
      quotient of the return by the principal in basis points, cut off toward zero on both sides. */
  lemma YieldIsTheQuotient(events: seq<TrancheEvent>, token: string, c: Class, updatedAt: string)
    ensures var a := AccFor(Replayed(events), token, c);
            var row, gained := RowOf(a, updatedAt), TotalRecovered(events, token, c) - a.principal;
            && row.principal == a.principal && row.ret == gained && row.closed == a.closed && row.updatedAt == updatedAt
            && (a.principal <= 0 ==> row.apyBps == 0)
            && (a.principal > 0 ==> IsQuotient(row.apyBps, gained, a.principal))
  {
    var a := AccFor(Replayed(events), token, c);
    ReturnsAreWhatCameBack(events, token, c);
    if a.principal > 0 {
      QuotientBounds(a.ret, a.principal);
    }
  }

  // ----- Events by their place in the stream -----

  /** The event funds, repays or defaults the invoice. */
  predicate Concerns(e: TrancheEvent, invoice: string) {
    e.kind != Other && e.fields.Some? && e.fields.value.invoice == invoice
  }

  predicate LatestOn(events: seq<TrancheEvent>, invoice: string, j: nat) {
    j < |events| && Concerns(events[j], invoice) && forall l :: j < l < |events| ==> !Concerns(events[l], invoice)
  }

  predicate FundedAt(events: seq<TrancheEvent>, invoice: string, j: nat) {
    LatestOn(events, invoice, j) && events[j].kind == Fund
  }

  lemma LatestStays(events: seq<TrancheEvent>, invoice: string, j: nat)
    requires events != [] && !Concerns(events[|events| - 1], invoice)
    ensures LatestOn(events, invoice, j) <==> LatestOn(events[..|events| - 1], invoice, j)
  {
  }

  /** An invoice is open exactly when the latest event on it funds it, with what that event says. */
  lemma {:induction false} OpenExactly(events: seq<TrancheEvent>, invoice: string)
    ensures invoice in Replayed(events).deployed <==> exists j: nat :: FundedAt(events, invoice, j)
    ensures forall j: nat :: FundedAt(events, invoice, j) ==>
              var f := events[j].fields.value;
              Replayed(events).deployed[invoice] == Deployment(f.token, f.first, f.second)
  {
    if events != [] {
      var init, n := events[..|events| - 1], |events| - 1;
      OpenExactly(init, invoice);
      if Concerns(events[n], invoice) {
        assert LatestOn(events, invoice, n);
        assert forall j: nat :: LatestOn(events, invoice, j) ==> j == n;
        assert events[n].kind == Fund ==> FundedAt(events, invoice, n);
      } else {
        forall j: nat
          ensures FundedAt(events, invoice, j) <==> FundedAt(init, invoice, j)
        {
          LatestStays(events, invoice, j);
        }
      }
    }
  }

  /** The event at a place closes an invoice under the token: a default always does, a repayment
      when the event on the same invoice before it funded it. */
  ghost predicate ClosesAt(events: seq<TrancheEvent>, token: string, k: nat) {
    && k < |events| && events[k].fields.Some? && events[k].fields.value.token == token
    && (events[k].kind == Default
        || (events[k].kind == Repay && exists j: nat :: FundedAt(events[..k], events[k].fields.value.invoice, j)))
  }

  ghost function Closings(events: seq<TrancheEvent>, token: string): set<nat> {
    set k: nat | k < |events| && ClosesAt(events, token, k)
  }

  lemma ClosingsOfLast(events: seq<TrancheEvent>, token: string)
    requires events != []
    ensures var n := |events| - 1;
            Closings(events, token) == Closings(events[..n], token) + (if ClosesAt(events, token, n) then {n} else {})
  {
    var n := |events| - 1;
    forall k: nat | k < n
      ensures ClosesAt(events, token, k) <==> ClosesAt(events[..n], token, k)
    {
      assert events[..n][..k] == events[..k];
    }
  }

  predicate Closes(r: Replay, e: TrancheEvent, token: string) {
    && e.fields.Some? && e.fields.value.token == token
    && (e.kind == Default || (e.kind == Repay && e.fields.value.invoice in r.deployed))
  }

  lemma StepCloses(r: Replay, e: TrancheEvent, token: string, c: Class)
    ensures AccFor(Step(r, e), token, c).closed == AccFor(r, token, c).closed + (if Closes(r, e, token) then 1 else 0)
    ensures token in Step(r, e).agg <==> token in r.agg || Closes(r, e, token)
  {
  }

  /** Each class of a token counts its closings, and a token has a row once it has one. */
  lemma {:induction false} ClosedCounts(events: seq<TrancheEvent>, token: string, c: Class)
    ensures AccFor(Replayed(events), token, c).closed == |Closings(events, token)|
    ensures token in Replayed(events).agg <==> Closings(events, token) != {}
  {
    if events != [] {
      var init, e := events[..|events| - 1], events[|events| - 1];
      ClosedCounts(init, token, c);
      ClosingsOfLast(events, token);
      StepCloses(Replayed(init), e, token, c);
      if e.fields.Some? {
        OpenExactly(init, e.fields.value.invoice);
      }
    }
  }

  /** The replay reads the first hundred thousand rows. */
  lemma LaterRowsAreIgnored(rows: seq<TrancheEvent>, more: seq<TrancheEvent>)
    ensures |rows| <= 100_000 ==> Limited(rows) == rows
    ensures |rows| == 100_000 ==> Limited(rows + more) == rows
  {
  }
}
