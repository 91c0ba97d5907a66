/** The unusual-activity detector of frontend/lib/monitoring.ts with its periodic pruning. */
module ActivityMonitor {
  import opened Collections
  import opened SlidingWindow

  const WINDOW_SECONDS := 600
  const THRESHOLD_COUNT := 3
  const MAX_ENTRIES := 100

  /** An address and an event type. */
  type Key = (string, string)

  datatype Alert = Alert(key: Key, count: nat, at: int)

  datatype Tracker = Tracker(history: map<Key, seq<Tick>>, alerts: seq<Alert>)

  function EntriesOf(h: map<Key, seq<Tick>>, k: Key): seq<Tick> {
    if k in h then h[k] else []
  }

  /** Filter to the window and cap. */
  function Trimmed(s: seq<Tick>, now: int): seq<Tick> {
    LastN(Since(s, now - WINDOW_SECONDS + 1), MAX_ENTRIES)
  }

  function Seen(t: Tracker, k: Key, now: int): Tracker {
    var entries := Trimmed(EntriesOf(t.history, k), now) + [Tick(now, 0)];
    if |entries| >= THRESHOLD_COUNT
    then Tracker(t.history[k := []], t.alerts + [Alert(k, |entries|, now)])
    else t.(history := t.history[k := entries])
  }

  /** Trims every entry list and drops those left empty. */
  function Pruned(t: Tracker, now: int): Tracker {
    t.(history := map k | k in t.history && Trimmed(t.history[k], now) != [] :: Trimmed(t.history[k], now))
  }

  class Monitor {
    var activityHistory: map<Key, seq<Tick>>
    var sent: seq<Alert>

    ghost function State(): Tracker
      reads this
    {
      Tracker(activityHistory, sent)
    }

    constructor ()
      ensures State() == Tracker(map[], [])
    {
      activityHistory, sent := map[], [];
    }

    method Trim(entries: seq<Tick>, now: int) returns (kept: seq<Tick>)
      ensures kept == Trimmed(entries, now)
    {
      kept := [];
      for i := 0 to |entries|
        invariant kept == Since(entries[..i], now - WINDOW_SECONDS + 1)
      {
        assert entries[..i + 1][..i] == entries[..i];
        if now - entries[i].at < WINDOW_SECONDS {
          kept := kept + [entries[i]];
        }
      }
      assert entries[..|entries|] == entries;
      kept := LastN(kept, MAX_ENTRIES);
    }

    method CheckUnusualActivity(k: Key, now: int)
      modifies this
      ensures State() == Seen(old(State()), k, now)
    {
      var entries := Trim(EntriesOf(activityHistory, k), now);
      entries := entries + [Tick(now, 0)];
      if |entries| >= THRESHOLD_COUNT {
        sent := sent + [Alert(k, |entries|, now)];
        activityHistory := activityHistory[k := []];
      } else {
        activityHistory := activityHistory[k := entries];
      }
    }

    method PruneActivityHistory(now: int)
      modifies this
      ensures State() == Pruned(old(State()), now)
    {
      var todo := activityHistory.Keys;
      while todo != {}
        invariant todo <= activityHistory.Keys && sent == old(sent)
        invariant activityHistory.Keys <= old(activityHistory).Keys
        invariant forall k :: k in todo ==> activityHistory[k] == old(activityHistory)[k]
        invariant forall k :: k in old(activityHistory) && k !in todo ==>
                    (k in activityHistory <==> Trimmed(old(activityHistory)[k], now) != [])
        invariant forall k :: k in activityHistory && k !in todo ==>
                    activityHistory[k] == Trimmed(old(activityHistory)[k], now)
        decreases |todo|
      {
        var k :| k in todo;
        var kept := Trim(activityHistory[k], now);
        if |kept| == 0 {
          activityHistory := activityHistory - {k};
        } else {
          activityHistory := activityHistory[k := kept];
        }
        todo := todo - {k};
      }
    }
  }

  // ----- The reference detector -----

  datatype Op = Activity(key: Key, at: int) | Prune(at: int)

  function Applied(t: Tracker, op: Op): Tracker {
    match op
    case Activity(k, at) => Seen(t, k, at)
    case Prune(at) => Pruned(t, at)
  }

  function After(ops: seq<Op>): Tracker {
    if ops == [] then Tracker(map[], []) else Applied(After(ops[..|ops| - 1]), ops[|ops| - 1])
  }

  /** An activity fires when, counting itself, the activities since the last alert and within the
      window reach the threshold. */
  predicate Fires(before: seq<Tick>, at: int) {
    |Since(before, at - WINDOW_SECONDS + 1)| + 1 >= THRESHOLD_COUNT
  }

  /** Every activity of `k` since its last alert; pruning does not exist here. */
  function SinceAlert(ops: seq<Op>, k: Key): seq<Tick> {
    if ops == [] then []
    else
      var before, last := SinceAlert(ops[..|ops| - 1], k), ops[|ops| - 1];
      if last.Prune? || last.key != k then before
      else if Fires(before, last.at) then []
      else before + [Tick(last.at, 0)]
  }

  /** The alerts judged on the whole history. */
  function AllAlerts(ops: seq<Op>): seq<Alert> {
    if ops == [] then []
    else
      var init, last := ops[..|ops| - 1], ops[|ops| - 1];
      if last.Activity? && Fires(SinceAlert(init, last.key), last.at)
      then AllAlerts(init) + [Alert(last.key, THRESHOLD_COUNT, last.at)]
      else AllAlerts(init)
  }

  ghost predicate Timely(ops: seq<Op>) {
    forall i, j :: 0 <= i < j < |ops| ==> ops[i].at <= ops[j].at
  }

  /** The kept entries are the reference history cut at some earlier window, and too few for the
      cap or the threshold. */
  ghost predicate Follows(kept: seq<Tick>, full: seq<Tick>, now: int) {
    && |kept| < THRESHOLD_COUNT
    && exists cut :: cut <= now - WINDOW_SECONDS + 1 && kept == Since(full, cut)
  }

  lemma TrimSeesTheSame(kept: seq<Tick>, full: seq<Tick>, was: int, now: int)
    requires Follows(kept, full, was) && was <= now
    ensures Trimmed(kept, now) == Since(full, now - WINDOW_SECONDS + 1)
    ensures |Trimmed(kept, now)| < THRESHOLD_COUNT && Follows(Trimmed(kept, now), full, now)
  {
    var cut :| cut <= was - WINDOW_SECONDS + 1 && kept == Since(full, cut);
    SinceTwice(full, cut, now - WINDOW_SECONDS + 1);
    SinceShortens(kept, now - WINDOW_SECONDS + 1);
  }

  lemma ActivityFollows(t: Tracker, k: Key, full: seq<Tick>, was: int, now: int)
    requires Follows(EntriesOf(t.history, k), full, was) && was <= now
    ensures var t' := Seen(t, k, now);
            && Follows(EntriesOf(t'.history, k), if Fires(full, now) then [] else full + [Tick(now, 0)], now)
            && t'.alerts == if Fires(full, now) then t.alerts + [Alert(k, THRESHOLD_COUNT, now)] else t.alerts
  {
    TrimSeesTheSame(EntriesOf(t.history, k), full, was, now);
    SinceAppend(full, Tick(now, 0), now - WINDOW_SECONDS + 1);
    assert Since([], now - WINDOW_SECONDS + 1) == [];
  }

  lemma LaterFollows(kept: seq<Tick>, full: seq<Tick>, was: int, now: int)
    requires Follows(kept, full, was) && was <= now
    ensures Follows(kept, full, now)
  {
    var cut :| cut <= was - WINDOW_SECONDS + 1 && kept == Since(full, cut);
    assert cut <= now - WINDOW_SECONDS + 1;
  }

  lemma OperationFollows(t: Tracker, op: Op, k: Key, full: seq<Tick>, was: int)
    requires Follows(EntriesOf(t.history, k), full, was) && was <= op.at
    ensures Follows(EntriesOf(Applied(t, op).history, k),
              if op.Prune? || op.key != k then full
              else if Fires(full, op.at) then [] else full + [Tick(op.at, 0)], op.at)
  {
    LaterFollows(EntriesOf(t.history, k), full, was, op.at);
    if op.Prune? {
      TrimSeesTheSame(EntriesOf(t.history, k), full, was, op.at);
    } else if op.key == k {
      ActivityFollows(t, k, full, was, op.at);
    }
  }

  lemma NothingFollowsNothing(now: int)
    ensures Follows([], [], now)
  {
    assert Since([], now - WINDOW_SECONDS + 1) == [];
  }

  lemma {:induction false} EntriesFollow(ops: seq<Op>, k: Key, now: int)
    requires Timely(ops) && (ops != [] ==> ops[|ops| - 1].at <= now)
    ensures Follows(EntriesOf(After(ops).history, k), SinceAlert(ops, k), now)
  {
    if ops == [] {
      NothingFollowsNothing(now);
    } else {
      var init, last := ops[..|ops| - 1], ops[|ops| - 1];
      EntriesFollow(init, k, last.at);
      OperationFollows(After(init), last, k, SinceAlert(init, k), last.at);
      LaterFollows(EntriesOf(After(ops).history, k), SinceAlert(ops, k), last.at, now);
    }
  }

  /** Refinement: whatever is pruned and whenever, the alerts of a run are those the whole history
      gives, each counts exactly the threshold, and the cap never drops an entry. */
  lemma {:induction false} AlertsAreThoseOfHistory(ops: seq<Op>)
    requires Timely(ops)
    ensures After(ops).alerts == AllAlerts(ops)
    ensures forall k :: |EntriesOf(After(ops).history, k)| < THRESHOLD_COUNT < MAX_ENTRIES
  {
    forall k
      ensures |EntriesOf(After(ops).history, k)| < THRESHOLD_COUNT
    {
      EntriesFollow(ops, k, if ops == [] then 0 else ops[|ops| - 1].at);
    }
    if ops != [] {
      var init, last := ops[..|ops| - 1], ops[|ops| - 1];
      AlertsAreThoseOfHistory(init);
      if last.Activity? {
        EntriesFollow(init, last.key, last.at);
        ActivityFollows(After(init), last.key, SinceAlert(init, last.key), last.at, last.at);
      }
    }
  }

  function WithoutPrunes(ops: seq<Op>): seq<Op> {
    if ops == [] then []
    else
      var init, last := WithoutPrunes(ops[..|ops| - 1]), ops[|ops| - 1];
      if last.Prune? then init else init + [last]
  }

  lemma {:induction false} HistoryIgnoresPrunes(ops: seq<Op>)
    ensures AllAlerts(WithoutPrunes(ops)) == AllAlerts(ops)
    ensures forall k :: SinceAlert(WithoutPrunes(ops), k) == SinceAlert(ops, k)
  {
    if ops != [] {
      var init, last := ops[..|ops| - 1], ops[|ops| - 1];
      HistoryIgnoresPrunes(init);
      if last.Activity? {
        assert (WithoutPrunes(init) + [last])[..|WithoutPrunes(init)|] == WithoutPrunes(init);
      }
    }
  }

  lemma {:induction false} WithoutPrunesIsTimely(ops: seq<Op>)
    requires Timely(ops)
    ensures Timely(WithoutPrunes(ops))
    ensures forall op :: op in WithoutPrunes(ops) ==> op in ops
  {
    if ops != [] {
      var init, last := ops[..|ops| - 1], ops[|ops| - 1];
      WithoutPrunesIsTimely(init);
      assert forall op :: op in init ==> op.at <= last.at;
      assert forall i :: 0 <= i < |WithoutPrunes(init)| ==> WithoutPrunes(init)[i] in init;
    }
  }

  /** Pruning at any points of a run never changes an alert. */
  lemma PruningChangesNoAlert(ops: seq<Op>)
    requires Timely(ops)
    ensures After(ops).alerts == After(WithoutPrunes(ops)).alerts
  {
    WithoutPrunesIsTimely(ops);
    HistoryIgnoresPrunes(ops);
    AlertsAreThoseOfHistory(ops);
    AlertsAreThoseOfHistory(WithoutPrunes(ops));
  }

  lemma {:induction false} SinceIsRecent(s: seq<Tick>, cutoff: int)
    ensures forall i :: 0 <= i < |Since(s, cutoff)| ==> Since(s, cutoff)[i].at >= cutoff
  {
    if s != [] {
      SinceIsRecent(s[..|s| - 1], cutoff);
    }
  }

  /** What pruning is for: afterwards every list on file has entries, all of them within the window,
      and a key is forgotten exactly when none of its entries is. */
  lemma PruningForgetsTheOld(t: Tracker, now: int, k: Key)
    ensures var h := Pruned(t, now).history;
            && (k in h ==> h[k] != [] && forall i :: 0 <= i < |h[k]| ==> now - h[k][i].at < 600)
            && (k in t.history && k !in h <==> k in t.history && Since(t.history[k], now - 599) == [])
            && (k !in t.history ==> k !in h)
    ensures Pruned(t, now).alerts == t.alerts
  {
    if k in t.history {
      SinceIsRecent(t.history[k], now - 599);
    }
  }

  // ----- Alerts by the places of the activities -----

  ghost predicate IsActivity(ops: seq<Op>, j: nat, k: Key) {
    j < |ops| && ops[j].Activity? && ops[j].key == k
  }

  /** The n-th operation is an activity, and two of the same key before it are less than ten minutes
      old and not cleared by an alert. */
  ghost predicate Raises(ops: seq<Op>, n: nat)
    requires n < |ops|
    decreases n, 1
  {
    ops[n].Activity? &&
    exists i: nat, j: nat :: i < j < n && IsActivity(ops, i, ops[n].key) && IsActivity(ops, j, ops[n].key)
      && ops[n].at - ops[i].at < 600 && ops[n].at - ops[j].at < 600
      && Uncleared(ops, i, n, ops[n].key) && Uncleared(ops, j, n, ops[n].key)
  }

  /** No activity of the key from the j-th operation on has raised an alert before the n-th. */
  ghost predicate Uncleared(ops: seq<Op>, j: nat, n: nat, k: Key)
    requires n <= |ops|
    decreases n, 0
  {
    forall l: nat :: j <= l < n && IsActivity(ops, l, k) ==> !Raises(ops, l)
  }

  ghost function RaisedBy(ops: seq<Op>, n: nat): seq<Alert>
    requires n <= |ops|
  {
    if n == 0 then []
    else RaisedBy(ops, n - 1) + if Raises(ops, n - 1) then [Alert(ops[n - 1].key, 3, ops[n - 1].at)] else []
  }

  /** The indices of the activities in `SinceAlert`. */
  function Held(ops: seq<Op>, n: nat, k: Key): seq<nat>
    requires n <= |ops|
  {
    if n == 0 then []
    else
      var before, last := Held(ops, n - 1, k), ops[n - 1];
      if last.Prune? || last.key != k then before
      else if Fires(SinceAlert(ops[..n - 1], k), last.at) then []
      else before + [n - 1]
  }

  ghost predicate Rising(held: seq<nat>, n: nat) {
    (forall i, j :: 0 <= i < j < |held| ==> held[i] < held[j]) && forall i :: 0 <= i < |held| ==> held[i] < n
  }

  ghost predicate Mirrors(ops: seq<Op>, held: seq<nat>, since: seq<Tick>) {
    |held| == |since| && forall i :: 0 <= i < |held| ==> held[i] < |ops| && since[i] == Tick(ops[held[i]].at, 0)
  }

  lemma MirrorsOneMore(ops: seq<Op>, held: seq<nat>, since: seq<Tick>, n: nat)
    requires Mirrors(ops, held, since) && Rising(held, n) && n < |ops|
    ensures Mirrors(ops, held + [n], since + [Tick(ops[n].at, 0)]) && Rising(held + [n], n + 1)
  {
  }

  lemma {:induction false} HeldIsSinceAlert(ops: seq<Op>, n: nat, k: Key)
    requires n <= |ops|
    ensures Mirrors(ops, Held(ops, n, k), SinceAlert(ops[..n], k)) && Rising(Held(ops, n, k), n)
  {
    if n > 0 {
      HeldIsSinceAlert(ops, n - 1, k);
      assert ops[..n][..n - 1] == ops[..n - 1];
      MirrorsOneMore(ops, Held(ops, n - 1, k), SinceAlert(ops[..n - 1], k), n - 1);
    }
  }

  lemma UnclearedStep(ops: seq<Op>, j: nat, n: nat, k: Key)
    requires j < n <= |ops|
    ensures Uncleared(ops, j, n, k) <==>
            Uncleared(ops, j, n - 1, k) && (IsActivity(ops, n - 1, k) ==> !Raises(ops, n - 1))
  {
  }

  lemma {:induction false} HeldExactly(ops: seq<Op>, n: nat, k: Key, j: nat)
    requires Timely(ops) && n <= |ops|
    ensures j in Held(ops, n, k) <==> j < n && IsActivity(ops, j, k) && Uncleared(ops, j, n, k)
    decreases n, 0
  {
    if n > 0 {
      HeldExactly(ops, n - 1, k, j);
      if IsActivity(ops, n - 1, k) {
        FiringIsRaising(ops, n - 1);
      }
      if j < n {
        UnclearedStep(ops, j, n, k);
      }
    }
  }

  /** In time order, two entries are recent exactly when the last but one is. */
  lemma TwoAreRecent(s: seq<Tick>, now: int, cutoff: int)
    requires InTime(s, now)
    ensures |Since(s, cutoff)| >= 2 <==> |s| >= 2 && s[|s| - 2].at >= cutoff
  {
    SinceShortens(s, cutoff);
    if |s| >= 2 {
      var init := s[..|s| - 1];
      NewestDecides(init, now, cutoff);
      if s[|s| - 1].at < cutoff {
        NewestDecides(s, now, cutoff);
      }
    }
  }

  ghost predicate RecentPair(ops: seq<Op>, n: nat, held: seq<nat>)
    requires n < |ops|
  {
    exists i: nat, j: nat :: i < j < n && i in held && j in held
      && ops[n].at - ops[i].at < 600 && ops[n].at - ops[j].at < 600
  }

  lemma PairsAreHeld(ops: seq<Op>, n: nat, held: seq<nat>)
    requires n < |ops| && ops[n].Activity?
    requires forall j: nat :: j in held <==> j < n && IsActivity(ops, j, ops[n].key) && Uncleared(ops, j, n, ops[n].key)
    ensures RecentPair(ops, n, held) <==> Raises(ops, n)
  {
  }

  lemma {:induction false} FiringIsRaising(ops: seq<Op>, n: nat)
    requires Timely(ops) && n < |ops| && ops[n].Activity?
    ensures Fires(SinceAlert(ops[..n], ops[n].key), ops[n].at) <==> Raises(ops, n)
    decreases n, 1
  {
    var k := ops[n].key;
    var held := Held(ops, n, k);
    forall j: nat
      ensures j in held <==> j < n && IsActivity(ops, j, k) && Uncleared(ops, j, n, k)
    {
      HeldExactly(ops, n, k, j);
    }
    PairsAreHeld(ops, n, held);
    HeldIsSinceAlert(ops, n, k);
    FiringNeedsTwo(ops, n, held, SinceAlert(ops[..n], k));
  }

  lemma FiringNeedsTwo(ops: seq<Op>, n: nat, held: seq<nat>, since: seq<Tick>)
    requires Timely(ops) && n < |ops| && Mirrors(ops, held, since) && Rising(held, n)
    ensures Fires(since, ops[n].at) <==> RecentPair(ops, n, held)
  {
    TwoAreRecent(since, ops[n].at, ops[n].at - 599);
    TwoHeld(ops, n, held);
  }

  lemma TwoHeld(ops: seq<Op>, n: nat, held: seq<nat>)
    requires Timely(ops) && n < |ops| && Rising(held, n)
    ensures |held| >= 2 && ops[n].at - ops[held[|held| - 2]].at < 600 <==> RecentPair(ops, n, held)
  {
    if |held| >= 2 && ops[n].at - ops[held[|held| - 2]].at < 600 {
      assert held[|held| - 2] in held && held[|held| - 1] in held;
      assert ops[held[|held| - 2]].at <= ops[held[|held| - 1]].at;
    }
    if i: nat, j: nat :| i < j < n && i in held && j in held && ops[n].at - ops[i].at < 600 {
      LastButOneIsLater(held, n, i, j);
    }
  }

  lemma LastButOneIsLater(held: seq<nat>, n: nat, i: nat, j: nat)
    requires Rising(held, n) && i in held && j in held && i < j
    ensures |held| >= 2 && i <= held[|held| - 2]
  {
    var x :| 0 <= x < |held| && held[x] == i;
    var y :| 0 <= y < |held| && held[y] == j;
    assert x < |held| - 1;
  }

  lemma {:induction false} HistoryAlerts(ops: seq<Op>, n: nat)
    requires Timely(ops) && n <= |ops|
    ensures AllAlerts(ops[..n]) == RaisedBy(ops, n)
  {
    if n > 0 {
      HistoryAlerts(ops, n - 1);
      assert ops[..n][..n - 1] == ops[..n - 1];
      if ops[n - 1].Activity? {
        FiringIsRaising(ops, n - 1);
      }
    }
  }

  /** Over every run with a non-decreasing clock, however it is pruned, the alerts are one per
      activity that is the third uncleared one of its key within ten minutes. */
  lemma AlertsAreExact(ops: seq<Op>)
    requires Timely(ops)
    ensures After(ops).alerts == RaisedBy(ops, |ops|)
  {
    AlertsAreThoseOfHistory(ops);
    HistoryAlerts(ops, |ops|);
    assert ops[..|ops|] == ops;
  }
}
