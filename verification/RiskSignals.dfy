/** Per-SME risk signals rebuilt from invoice-creation events (indexer/src/db.ts,
    recomputeSmeRiskSignals). */
module RiskSignals {
  import opened Arithmetic
  import opened Collections

  /** A usable `created` event: its owner, amount and debtor ("unknown" when it names none). */
  datatype Created = Created(owner: string, amount: int, debtor: string)

  datatype Acc = Acc(total: int, amounts: seq<int>, byDebtor: map<string, int>)

  datatype Signals = Signals(debtorBps: int, sizeBps: int, totalVolume: int)

  const NoInvoices: Acc := Acc(0, [], map[])

  function AccOf(m: map<string, Acc>, owner: string): Acc {
    if owner in m then m[owner] else NoInvoices
  }

  function Added(a: Acc, e: Created): Acc {
    Acc(a.total + e.amount, a.amounts + [e.amount],
        a.byDebtor[e.debtor := (if e.debtor in a.byDebtor then a.byDebtor[e.debtor] else 0) + e.amount])
  }

  /** Events with an empty owner are skipped. */
  function BySme(events: seq<Created>): map<string, Acc> {
    if events == [] then map[]
    else
      var m, e := BySme(events[..|events| - 1]), events[|events| - 1];
      if e.owner == "" then m else m[e.owner := Added(AccOf(m, e.owner), e)]
  }

  function LargeVolume(amounts: seq<int>, threshold: int): int {
    if amounts == [] then 0
    else
      var last := amounts[|amounts| - 1];
      LargeVolume(amounts[..|amounts| - 1], threshold) + if last >= threshold then last else 0
  }

  /** The largest value, at least zero. */
  ghost predicate IsLargest(m: map<string, int>, max: int) {
    max >= 0 && (forall d :: d in m ==> m[d] <= max) && (max == 0 || exists d :: d in m && m[d] == max)
  }

  function MeanAmount(a: Acc): int
    requires a.amounts != []
  {
    TruncDiv(a.total, |a.amounts|)
  }

  method LargestVolume(m: map<string, int>) returns (max: int)
    ensures IsLargest(m, max)
  {
    max := 0;
    var todo := m.Keys;
    while todo != {}
      invariant todo <= m.Keys && max >= 0
      invariant forall d :: d in m && d !in todo ==> m[d] <= max
      invariant max == 0 || exists d :: d in m && m[d] == max
      decreases |todo|
    {
      var d :| d in todo;
      if m[d] > max {
        max := m[d];
      }
      todo := todo - {d};
    }
  }

  method SumLarge(amounts: seq<int>, threshold: int) returns (volume: int)
    ensures volume == LargeVolume(amounts, threshold)
  {
    volume := 0;
    for i := 0 to |amounts|
      invariant volume == LargeVolume(amounts[..i], threshold)
    {
      assert amounts[..i + 1][..i] == amounts[..i];
      if amounts[i] >= threshold {
        volume := volume + amounts[i];
      }
    }
    assert amounts[..|amounts|] == amounts;
  }

  /** What the signals of an SME must be. */
  ghost predicate AreSignalsOf(s: Option<Signals>, a: Acc) {
    if a.total == 0 then s.None?
    else
      && s.Some? && a.amounts != [] && s.value.totalVolume == a.total
      && s.value.sizeBps == TruncDiv(LargeVolume(a.amounts, 3 * MeanAmount(a)) * BPS, a.total)
      && exists max :: IsLargest(a.byDebtor, max) && s.value.debtorBps == TruncDiv(max * BPS, a.total)
  }

  method ComputeSignals(a: Acc) returns (s: Option<Signals>)
    requires a.total != 0 ==> a.amounts != []
    ensures AreSignalsOf(s, a)
  {
    if a.total == 0 {
      return None;
    }
    var max := LargestVolume(a.byDebtor);
    var mean := TruncDiv(a.total, |a.amounts|);
    var large := SumLarge(a.amounts, mean * 3);
    return Some(Signals(TruncDiv(max * BPS, a.total), TruncDiv(large * BPS, a.total), a.total));
  }

  /** Rebuilds the signals of every SME; an SME whose volume is zero keeps its old row, as does
      one that no event names any more. */
  method RecomputeSmeRiskSignals(events: seq<Created>, table: map<string, Signals>) returns (next: map<string, Signals>)
    ensures var accs := BySme(events);
            forall sme :: if sme in accs && accs[sme].total != 0
                          then sme in next && AreSignalsOf(Some(next[sme]), accs[sme])
                          else (sme in next <==> sme in table) && (sme in table ==> next[sme] == table[sme])
  {
    var accs: map<string, Acc> := map[];
    for i := 0 to |events|
      invariant accs == BySme(events[..i])
    {
      assert events[..i + 1][..i] == events[..i];
      var e := events[i];
      if e.owner != "" {
        accs := accs[e.owner := Added(AccOf(accs, e.owner), e)];
      }
    }
    assert events[..|events|] == events;
    next := table;
    var todo := accs.Keys;
    while todo != {}
      invariant todo <= accs.Keys
      invariant forall sme :: if sme in accs && accs[sme].total != 0 && sme !in todo
                              then sme in next && AreSignalsOf(Some(next[sme]), accs[sme])
                              else (sme in next <==> sme in table) && (sme in table ==> next[sme] == table[sme])
      decreases |todo|
    {
      var sme :| sme in todo;
      AccountsAddUp(events, sme);
      var s := ComputeSignals(accs[sme]);
      if s.Some? {
        next := next[sme := s.value];
      }
      todo := todo - {sme};
    }
  }

  // ----- What the accounts hold -----

  function Sum(amounts: seq<int>): int {
    if amounts == [] then 0 else Sum(amounts[..|amounts| - 1]) + amounts[|amounts| - 1]
  }

  ghost predicate AddsUp(a: Acc) {
    && a.total == Sum(a.amounts) && a.total == Total(a.byDebtor)
    && (a.amounts == [] <==> a.byDebtor == map[])
  }

  lemma AddingAddsUp(a: Acc, e: Created)
    requires AddsUp(a)
    ensures AddsUp(Added(a, e)) && Added(a, e).amounts != []
  {
    assert (a.amounts + [e.amount])[..|a.amounts|] == a.amounts;
    TotalUpdated(a.byDebtor, e.debtor, (if e.debtor in a.byDebtor then a.byDebtor[e.debtor] else 0) + e.amount);
  }

  /** Per-debtor volumes add up to the total, for every SME and every stream. */
  lemma {:induction false} AccountsAddUp(events: seq<Created>, sme: string)
    ensures AddsUp(AccOf(BySme(events), sme))
    ensures sme in BySme(events) ==> BySme(events)[sme].amounts != []
  {
    if events != [] {
      var init, e := events[..|events| - 1], events[|events| - 1];
      AccountsAddUp(init, sme);
      if e.owner == sme {
        AddingAddsUp(AccOf(BySme(init), sme), e);
      }
    }
  }

  // ----- Bounds -----

  ghost predicate NonNegative(a: Acc) {
    && (forall i :: 0 <= i < |a.amounts| ==> a.amounts[i] >= 0)
    && (forall d :: d in a.byDebtor ==> a.byDebtor[d] >= 0)
  }

  lemma {:induction false} AccountsAreNonNegative(events: seq<Created>, sme: string)
    requires forall e :: e in events ==> e.amount >= 0
    ensures NonNegative(AccOf(BySme(events), sme))
  {
    if events != [] {
      var init, e := events[..|events| - 1], events[|events| - 1];
      assert forall x :: x in init ==> x in events;
      assert e in events;
      AccountsAreNonNegative(init, sme);
    }
  }

  lemma OneMoreTime(n: int, x: int)
    ensures (n + 1) * x == n * x + x && 0 * x == 0
  {
  }

  lemma {:induction false} TotalBetween(m: map<string, int>, max: int)
    requires forall d :: d in m ==> 0 <= m[d] <= max
    ensures 0 <= Total(m) <= |m| * max
    decreases |m|
  {
    if m == map[] {
      OneMoreTime(0, max);
    } else {
      var d :| d in m;
      var n := |m - {d}|;
      TotalAt(m, d);
      RemovedSize(m, d);
      TotalBetween(m - {d}, max);
      OneMoreTime(n, max);
    }
  }

  lemma PartIsAtMostTotal(m: map<string, int>, max: int, d: string)
    requires (forall e :: e in m ==> 0 <= m[e] <= max) && d in m
    ensures m[d] <= Total(m)
  {
    TotalAt(m, d);
    TotalBetween(m - {d}, max);
  }

  function CountLarge(amounts: seq<int>, threshold: int): nat {
    if amounts == [] then 0
    else CountLarge(amounts[..|amounts| - 1], threshold) + if amounts[|amounts| - 1] >= threshold then 1 else 0
  }

  lemma {:induction false} LargeBetween(amounts: seq<int>, threshold: int)
    requires forall i :: 0 <= i < |amounts| ==> amounts[i] >= 0
    ensures CountLarge(amounts, threshold) * threshold <= LargeVolume(amounts, threshold)
    ensures 0 <= LargeVolume(amounts, threshold) <= Sum(amounts)
  {
    if amounts != [] {
      LargeBetween(amounts[..|amounts| - 1], threshold);
    }
  }

  lemma ConcentrationArithmetic(max: nat, k: nat, total: int)
    requires k > 0 && 0 < total <= k * max && max <= total
    ensures BPS / k <= max * BPS / total <= BPS
  {
    var q := BPS / k;
    DivParts(BPS, k);
    DivAtLeast(BPS, k, 0);
    MulMonotone(total, k * max, q);
    assert (k * max) * q == max * (q * k);
    MulMonotone(q * k, BPS, max);
    assert q * total <= max * BPS;
    DivAtLeast(max * BPS, total, q);
    MulMonotone(max, total, BPS);
    DivAtMost(max * BPS, total, BPS);
  }

  /** With non-negative amounts the largest debtor holds between an even share and everything, the
      large invoices hold at most everything, and there are not more of them than fit three mean
      sizes each into the total. */
  lemma SignalsAreBounded(events: seq<Created>, sme: string, s: Signals)
    requires forall e :: e in events ==> e.amount >= 0
    requires sme in BySme(events) && BySme(events)[sme].total != 0 && AreSignalsOf(Some(s), BySme(events)[sme])
    ensures var a := BySme(events)[sme];
            && |a.byDebtor| > 0 && BPS / |a.byDebtor| <= s.debtorBps <= BPS
            && 0 <= s.sizeBps <= BPS
            && CountLarge(a.amounts, 3 * MeanAmount(a)) * (3 * MeanAmount(a)) <= a.total
  {
    var a := BySme(events)[sme];
    AccountsAddUp(events, sme);
    AccountsAreNonNegative(events, sme);
    var max :| IsLargest(a.byDebtor, max) && s.debtorBps == TruncDiv(max * BPS, a.total);
    TotalBetween(a.byDebtor, max);
    assert |a.byDebtor| == |a.byDebtor.Keys|;
    if d :| d in a.byDebtor && a.byDebtor[d] == max {
      PartIsAtMostTotal(a.byDebtor, max, d);
    }
    ConcentrationArithmetic(max, |a.byDebtor|, a.total);
    MulMonotone(0, max, BPS);
    var large := LargeVolume(a.amounts, 3 * MeanAmount(a));
    LargeBetween(a.amounts, 3 * MeanAmount(a));
    MulMonotone(large, a.total, BPS);
    MulMonotone(0, large, BPS);
    DivAtMost(large * BPS, a.total, BPS);
    DivAtLeast(large * BPS, a.total, 0);
  }

  // ----- Order independence -----

  /** What the signals of an SME depend on. */
  ghost predicate SameAccount(a: Acc, b: Acc) {
    a.total == b.total && multiset(a.amounts) == multiset(b.amounts) && a.byDebtor == b.byDebtor
  }

  lemma AddingCommutes(a: Acc, e: Created, f: Created)
    ensures SameAccount(Added(Added(a, e), f), Added(Added(a, f), e))
  {
    assert multiset(a.amounts + [e.amount] + [f.amount]) == multiset(a.amounts + [f.amount] + [e.amount]);
  }

  lemma AddingRespects(a: Acc, b: Acc, e: Created)
    requires SameAccount(a, b)
    ensures SameAccount(Added(a, e), Added(b, e))
  {
  }

  /** The account of one SME, folded over any events. */
  function AccountOf(events: seq<Created>, sme: string): Acc {
    if events == [] then NoInvoices
    else
      var a, e := AccountOf(events[..|events| - 1], sme), events[|events| - 1];
      if e.owner == sme then Added(a, e) else a
  }

  lemma {:induction false} BySmeIsAccountOf(events: seq<Created>, sme: string)
    requires sme != ""
    ensures AccOf(BySme(events), sme) == AccountOf(events, sme)
  {
    if events != [] {
      BySmeIsAccountOf(events[..|events| - 1], sme);
    }
  }

  function Fold(a: Acc, e: Created, sme: string): Acc { if e.owner == sme then Added(a, e) else a }

  lemma FoldRespects(a: Acc, b: Acc, e: Created, sme: string)
    requires SameAccount(a, b)
    ensures SameAccount(Fold(a, e, sme), Fold(b, e, sme))
  {
    AddingRespects(a, b, e);
  }

  lemma FoldCommutes(a: Acc, e: Created, f: Created, sme: string)
    ensures SameAccount(Fold(Fold(a, e, sme), f, sme), Fold(Fold(a, f, sme), e, sme))
  {
    AddingCommutes(a, e, f);
  }

  /** An event can be moved to the end. */
  lemma {:induction false} MovedToTheEnd(pre: seq<Created>, e: Created, post: seq<Created>, sme: string)
    ensures SameAccount(AccountOf(pre + [e] + post, sme), AccountOf(pre + post + [e], sme))
    decreases |post|
  {
    if post == [] {
      assert pre + [e] + post == pre + post + [e];
    } else {
      var init, f := post[..|post| - 1], post[|post| - 1];
      MovedToTheEnd(pre, e, init, sme);
      assert (pre + [e] + post)[..|pre + [e] + post| - 1] == pre + [e] + init;
      assert (pre + post + [e])[..|pre + post + [e]| - 1] == pre + post;
      assert (pre + post)[..|pre + post| - 1] == pre + init;
      assert (pre + init + [e])[..|pre + init + [e]| - 1] == pre + init;
      FoldRespects(AccountOf(pre + [e] + init, sme), AccountOf(pre + init + [e], sme), f, sme);
      FoldCommutes(AccountOf(pre + init, sme), e, f, sme);
    }
  }

  lemma {:induction false} AccountIgnoresOrder(one: seq<Created>, two: seq<Created>, sme: string)
    requires multiset(one) == multiset(two)
    ensures SameAccount(AccountOf(one, sme), AccountOf(two, sme))
    decreases |one|
  {
    if one == [] {
      assert |multiset(two)| == |two|;
    } else {
      var init, e := one[..|one| - 1], one[|one| - 1];
      var pre, post := LastElsewhere(one, two);
      MovedToTheEnd(pre, e, post, sme);
      AccountIgnoresOrder(init, pre + post, sme);
      assert (pre + post + [e])[..|pre + post|] == pre + post;
      FoldRespects(AccountOf(init, sme), AccountOf(pre + post, sme), e, sme);
    }
  }

  lemma {:induction false} LargeVolumeIgnoresOrder(one: seq<int>, two: seq<int>, threshold: int)
    requires multiset(one) == multiset(two)
    ensures LargeVolume(one, threshold) == LargeVolume(two, threshold)
    decreases |one|
  {
    if one == [] {
      assert |multiset(two)| == |two|;
    } else {
      var init, x := one[..|one| - 1], one[|one| - 1];
      var pre, post := LastElsewhere(one, two);
      LargeVolumeIgnoresOrder(init, pre + post, threshold);
      LargeVolumeAppend(pre, [x] + post, threshold);
      LargeVolumeAppend([x], post, threshold);
      LargeVolumeAppend(pre, post, threshold);
      assert pre + [x] + post == pre + ([x] + post);
    }
  }

  lemma {:induction false} LargeVolumeAppend(a: seq<int>, b: seq<int>, threshold: int)
    ensures LargeVolume(a + b, threshold) == LargeVolume(a, threshold) + LargeVolume(b, threshold)
  {
    if b == [] {
      assert a + b == a;
    } else {
      assert (a + b)[..|a + b| - 1] == a + b[..|b| - 1];
      LargeVolumeAppend(a, b[..|b| - 1], threshold);
    }
  }

  /** The order of the events does not matter: signals right for one order are right for every
      other. */
  lemma SignalsIgnoreOrder(one: seq<Created>, two: seq<Created>, sme: string, s: Option<Signals>)
    requires multiset(one) == multiset(two) && sme != ""
    requires AreSignalsOf(s, AccOf(BySme(one), sme))
    ensures AreSignalsOf(s, AccOf(BySme(two), sme))
  {
    BySmeIsAccountOf(one, sme);
    BySmeIsAccountOf(two, sme);
    AccountIgnoresOrder(one, two, sme);
    var a, b := AccountOf(one, sme), AccountOf(two, sme);
    assert |multiset(a.amounts)| == |a.amounts| && |multiset(b.amounts)| == |b.amounts|;
    if a.amounts != [] {
      LargeVolumeIgnoresOrder(a.amounts, b.amounts, 3 * MeanAmount(a));
    }
  }

  // ----- Signals by the places of the events -----

  ghost function Amounts(events: seq<Created>, at: set<nat>): map<nat, int> {
    map k: nat | k in at && k < |events| :: events[k].amount
  }

  /** The amounts of the events at these places together. */
  ghost function Volume(events: seq<Created>, at: set<nat>): int { Total(Amounts(events, at)) }

  ghost function Of(events: seq<Created>, sme: string): set<nat> {
    set k: nat | k < |events| && events[k].owner == sme
  }

  ghost function With(events: seq<Created>, sme: string, debtor: string): set<nat> {
    set k: nat | k < |events| && events[k].owner == sme && events[k].debtor == debtor
  }

  ghost function AtLeast(events: seq<Created>, sme: string, threshold: int): set<nat> {
    set k: nat | k < |events| && events[k].owner == sme && events[k].amount >= threshold
  }

  lemma VolumeOfLast(events: seq<Created>, at: set<nat>, before: set<nat>)
    requires events != []
    requires forall k: nat :: k < |events| - 1 ==> (k in at <==> k in before)
    ensures var n := |events| - 1;
            Volume(events, at) == Volume(events[..n], before) + (if n in at then events[n].amount else 0)
  {
    var n: nat := |events| - 1;
    var all, init := Amounts(events, at), Amounts(events[..n], before);
    if n in at {
      assert all - {n} == init;
      TotalAt(all, n);
    } else {
      assert all == init;
    }
  }

  /** The account of an SME has an amount for each of its events, and their volume. */
  lemma {:induction false} AccountIsExact(events: seq<Created>, sme: string)
    ensures var a := AccountOf(events, sme);
            a.total == Volume(events, Of(events, sme)) && |a.amounts| == |Of(events, sme)|
  {
    if events == [] {
      assert Amounts(events, Of(events, sme)) == map[];
    } else {
      var n := |events| - 1;
      AccountIsExact(events[..n], sme);
      VolumeOfLast(events, Of(events, sme), Of(events[..n], sme));
      assert Of(events, sme) == Of(events[..n], sme) + (if events[n].owner == sme then {n} else {});
    }
  }

  /** A debtor has an entry if an event of the SME names it, with the volume of those events. */
  ghost predicate DebtorIsExact(events: seq<Created>, sme: string, debtor: string) {
    var m := AccountOf(events, sme).byDebtor;
    && (debtor in m <==> With(events, sme, debtor) != {})
    && (if debtor in m then m[debtor] else 0) == Volume(events, With(events, sme, debtor))
  }

  lemma WithLast(events: seq<Created>, sme: string, debtor: string)
    requires events != []
    ensures var n := |events| - 1;
            With(events, sme, debtor) ==
            With(events[..n], sme, debtor) + (if events[n].owner == sme && events[n].debtor == debtor then {n} else {})
  {
  }

  lemma {:induction false} DebtorVolumes(events: seq<Created>, sme: string, debtor: string)
    ensures DebtorIsExact(events, sme, debtor)
  {
    if events == [] {
      assert Amounts(events, With(events, sme, debtor)) == map[];
    } else {
      var n := |events| - 1;
      var init := events[..n];
      DebtorVolumes(init, sme, debtor);
      WithLast(events, sme, debtor);
      VolumeOfLast(events, With(events, sme, debtor), With(init, sme, debtor));
      var a, b := AccountOf(init, sme), AccountOf(events, sme);
      assert b == if events[n].owner == sme then Added(a, events[n]) else a;
    }
  }

  lemma {:induction false} LargeVolumeIsExact(events: seq<Created>, sme: string, threshold: int)
    ensures LargeVolume(AccountOf(events, sme).amounts, threshold) == Volume(events, AtLeast(events, sme, threshold))
  {
    if events == [] {
      assert Amounts(events, AtLeast(events, sme, threshold)) == map[];
    } else {
      var n := |events| - 1;
      var init := events[..n];
      LargeVolumeIsExact(init, sme, threshold);
      VolumeOfLast(events, AtLeast(events, sme, threshold), AtLeast(init, sme, threshold));
      if events[n].owner == sme {
        var amounts := AccountOf(init, sme).amounts;
        assert (amounts + [events[n].amount])[..|amounts|] == amounts;
      }
    }
  }

  /** The volume of the largest debtor, zero if no volume is positive. */
  ghost predicate IsLargestDebtor(events: seq<Created>, sme: string, max: int) {
    && max >= 0 && (forall debtor :: Volume(events, With(events, sme, debtor)) <= max)
    && (max == 0 || exists debtor :: Volume(events, With(events, sme, debtor)) == max)
  }

  lemma LargestIsExact(events: seq<Created>, sme: string, max: int)
    ensures IsLargest(AccountOf(events, sme).byDebtor, max) <==> IsLargestDebtor(events, sme, max)
  {
    var m := AccountOf(events, sme).byDebtor;
    forall debtor
      ensures Volume(events, With(events, sme, debtor)) == if debtor in m then m[debtor] else 0
    {
      DebtorVolumes(events, sme, debtor);
    }
    if max > 0 && IsLargest(m, max) {
      var d :| d in m && m[d] == max;
      assert Volume(events, With(events, sme, d)) == max;
    }
  }

  /** The signals of an SME in terms of its events: the part of its largest debtor, the part of the
      invoices of at least three times the mean amount, and its volume.  No owner has no account. */
  lemma SignalsAreExact(events: seq<Created>, sme: string, s: Signals)
    requires sme != ""
    ensures "" !in BySme(events) && (sme in BySme(events) <==> Of(events, sme) != {})
    ensures var total := Volume(events, Of(events, sme));
            AreSignalsOf(Some(s), AccOf(BySme(events), sme)) <==>
            && total != 0 && Of(events, sme) != {} && s.totalVolume == total
            && s.sizeBps == TruncDiv(Volume(events, AtLeast(events, sme, 3 * TruncDiv(total, |Of(events, sme)|))) * 10_000, total)
            && exists max :: IsLargestDebtor(events, sme, max) && s.debtorBps == TruncDiv(max * 10_000, total)
  {
    BySmeIsAccountOf(events, sme);
    AccountIsExact(events, sme);
    HasAnAccount(events, sme);
    HasAnAccount(events, "");
    var a, n := AccountOf(events, sme), |Of(events, sme)|;
    if n != 0 {
      LargeVolumeIsExact(events, sme, 3 * TruncDiv(a.total, n));
    }
    forall max
      ensures IsLargest(a.byDebtor, max) <==> IsLargestDebtor(events, sme, max)
    {
      LargestIsExact(events, sme, max);
    }
  }

  lemma {:induction false} HasAnAccount(events: seq<Created>, sme: string)
    ensures sme in BySme(events) <==> sme != "" && Of(events, sme) != {}
  {
    if events != [] {
      var n := |events| - 1;
      HasAnAccount(events[..n], sme);
      assert Of(events, sme) == Of(events[..n], sme) + (if events[n].owner == sme then {n} else {});
    }
  }
}
