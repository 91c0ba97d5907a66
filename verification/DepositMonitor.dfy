/** The structuring and rapid-cycle detectors of compliance-service/src/monitor.ts with their
    pruned per-address cache, against detectors that keep everything. */
module DepositMonitor {
  import opened Collections
  import opened SlidingWindow

  const MAX_ALERTS := 1_000
  const LISTED_ALERTS := 100
  const RAPID_CYCLE_MS := 60_000

  type Address = string

  datatype Pattern = Structuring | RapidCycle

  datatype Alert = Alert(address: Address, pattern: Pattern, at: int)

  /** `window` is not negative. */
  datatype Config = Config(window: nat, threshold: int, maxCount: int)

  datatype Monitor = Monitor(deposits: map<Address, seq<Tick>>, alerts: seq<Alert>)

  function TicksOf(deposits: map<Address, seq<Tick>>, a: Address): seq<Tick> {
    if a in deposits then deposits[a] else []
  }

  function NearThreshold(s: seq<Tick>, threshold: int): nat {
    if s == [] then 0
    else NearThreshold(s[..|s| - 1], threshold) + (if 0 < s[|s| - 1].amount < threshold then 1 else 0)
  }

  function Flagged(alerts: seq<Alert>, alert: Alert): seq<Alert> { LastN(alerts + [alert], MAX_ALERTS) }

  predicate TooMany(ticks: seq<Tick>, cfg: Config) {
    NearThreshold(ticks, cfg.threshold) >= cfg.maxCount
  }

  /** The cache of an address with a new deposit, before it is judged. */
  function Grown(cache: seq<Tick>, cfg: Config, amount: int, now: int): seq<Tick> {
    Since(cache, now - cfg.window) + [Tick(now, amount)]
  }

  function Deposited(m: Monitor, cfg: Config, a: Address, amount: int, now: int): Monitor {
    var ticks := Grown(TicksOf(m.deposits, a), cfg, amount, now);
    Monitor(m.deposits[a := if TooMany(ticks, cfg) then [] else ticks],
            if TooMany(ticks, cfg) then Flagged(m.alerts, Alert(a, Structuring, now)) else m.alerts)
  }

  function Withdrawn(m: Monitor, a: Address, now: int): Monitor {
    if Since(TicksOf(m.deposits, a), now - RAPID_CYCLE_MS + 1) != []
    then m.(alerts := Flagged(m.alerts, Alert(a, RapidCycle, now))) else m
  }

  class Watcher {
    const config: Config
    var deposits: map<Address, seq<Tick>>
    var alerts: seq<Alert>

    ghost function State(): Monitor
      reads this
    {
      Monitor(deposits, alerts)
    }

    constructor (config: Config)
      ensures State() == Monitor(map[], []) && this.config == config
    {
      this.config := config;
      deposits, alerts := map[], [];
    }

    method FilterSince(ticks: seq<Tick>, cutoff: int) returns (kept: seq<Tick>)
      ensures kept == Since(ticks, cutoff)
    {
      kept := [];
      for i := 0 to |ticks|
        invariant kept == Since(ticks[..i], cutoff)
      {
        assert ticks[..i + 1][..i] == ticks[..i];
        if ticks[i].at >= cutoff {
          kept := kept + [ticks[i]];
        }
      }
      assert ticks[..|ticks|] == ticks;
    }

    method CountNearThreshold(ticks: seq<Tick>) returns (count: nat)
      ensures count == NearThreshold(ticks, config.threshold)
    {
      count := 0;
      for i := 0 to |ticks|
        invariant count == NearThreshold(ticks[..i], config.threshold)
      {
        assert ticks[..i + 1][..i] == ticks[..i];
        if 0 < ticks[i].amount < config.threshold {
          count := count + 1;
        }
      }
      assert ticks[..|ticks|] == ticks;
    }

    method Flag(a: Address, pattern: Pattern, now: int)
      requires |alerts| <= MAX_ALERTS
      modifies this
      ensures State() == old(State()).(alerts := Flagged(old(alerts), Alert(a, pattern, now)))
    {
      alerts := alerts + [Alert(a, pattern, now)];
      if |alerts| > MAX_ALERTS {
        alerts := alerts[|alerts| - MAX_ALERTS..];
      }
    }

    method RecordDeposit(a: Address, amount: int, now: int)
      requires |alerts| <= MAX_ALERTS
      modifies this
      ensures State() == Deposited(old(State()), config, a, amount, now)
      ensures |alerts| <= MAX_ALERTS
    {
      var ticks := FilterSince(TicksOf(deposits, a), now - config.window);
      ticks := ticks + [Tick(now, amount)];
      deposits := deposits[a := ticks];
      var near := CountNearThreshold(ticks);
      if near >= config.maxCount {
        Flag(a, Structuring, now);
        deposits := deposits[a := []];
      }
      assert deposits == old(deposits)[a := if TooMany(ticks, config) then [] else ticks];
    }

    method RecordWithdraw(a: Address, now: int)
      requires |alerts| <= MAX_ALERTS
      modifies this
      ensures State() == Withdrawn(old(State()), a, now)
      ensures |alerts| <= MAX_ALERTS
    {
      var recent := FilterSince(TicksOf(deposits, a), now - RAPID_CYCLE_MS + 1);
      if |recent| > 0 {
        Flag(a, RapidCycle, now);
      }
    }

    method ListAlerts() returns (listed: seq<Alert>)
      ensures listed == LastN(alerts, LISTED_ALERTS)
    {
      listed := LastN(alerts, LISTED_ALERTS);
    }
  }

  // ----- The reference detectors -----

  datatype Op = Deposit(address: Address, amount: int, at: int) | Withdraw(address: Address, at: int)

  function After(cfg: Config, ops: seq<Op>): Monitor {
    if ops == [] then Monitor(map[], []) else Applied(After(cfg, ops[..|ops| - 1]), cfg, ops[|ops| - 1])
  }

  /** Whether an operation raises an alert, judged on every deposit of its address since the last
      structuring alert: a deposit when the sub-threshold ones within the window reach the
      maximum, a withdrawal when the newest one is less than a minute old. */
  predicate Fires(cfg: Config, before: seq<Tick>, op: Op) {
    match op
    case Deposit(a, amount, at) =>
      TooMany(Since(before + [Tick(at, amount)], at - cfg.window), cfg)
    case Withdraw(a, at) =>
      before != [] && at - before[|before| - 1].at < RAPID_CYCLE_MS
  }

  /** Every deposit of `a` since its last structuring alert, never pruned. */
  function SinceAlert(cfg: Config, ops: seq<Op>, a: Address): seq<Tick> {
    if ops == [] then []
    else
      var before, last := SinceAlert(cfg, ops[..|ops| - 1], a), ops[|ops| - 1];
      if last.Withdraw? || last.address != a then before
      else if Fires(cfg, before, last) then []
      else before + [Tick(last.at, last.amount)]
  }

  function AlertOf(op: Op): Alert {
    Alert(op.address, if op.Deposit? then Structuring else RapidCycle, op.at)
  }

  /** All alerts of a run, judged on the whole history. */
  function AllAlerts(cfg: Config, ops: seq<Op>): seq<Alert> {
    if ops == [] then []
    else
      var init, last := ops[..|ops| - 1], ops[|ops| - 1];
      if Fires(cfg, SinceAlert(cfg, init, last.address), last) then AllAlerts(cfg, init) + [AlertOf(last)]
      else AllAlerts(cfg, init)
  }

  ghost predicate Timely(ops: seq<Op>) {
    forall i, j :: 0 <= i < j < |ops| ==> ops[i].at <= ops[j].at
  }

  /** The cache is the reference history, pruned at its own newest entry. */
  ghost predicate CacheMatches(cfg: Config, cache: seq<Tick>, full: seq<Tick>) {
    if full == [] then cache == [] else cache == Since(full, full[|full| - 1].at - cfg.window)
  }

  lemma {:induction false} HistoryInTime(cfg: Config, ops: seq<Op>, a: Address, now: int)
    requires Timely(ops) && (ops != [] ==> ops[|ops| - 1].at <= now)
    ensures InTime(SinceAlert(cfg, ops, a), now)
  {
    if ops != [] {
      var init, last := ops[..|ops| - 1], ops[|ops| - 1];
      HistoryInTime(cfg, init, a, last.at);
      InTimeExtended(SinceAlert(cfg, init, a), last.at, if last.Deposit? then last.amount else 0, now);
    }
  }

  lemma InTimeExtended(s: seq<Tick>, at: int, amount: int, now: int)
    requires InTime(s, at) && at <= now
    ensures InTime(s, now) && InTime(s + [Tick(at, amount)], now) && InTime([], now)
  {
  }

  lemma LaterCutAgrees(cfg: Config, cache: seq<Tick>, full: seq<Tick>, at: int)
    requires CacheMatches(cfg, cache, full) && (full != [] ==> full[|full| - 1].at <= at)
    ensures Since(cache, at - cfg.window) == Since(full, at - cfg.window)
  {
    if full != [] {
      SinceTwice(full, full[|full| - 1].at - cfg.window, at - cfg.window);
    }
  }

  lemma GrownAgrees(cfg: Config, cache: seq<Tick>, full: seq<Tick>, amount: int, at: int)
    requires Since(cache, at - cfg.window) == Since(full, at - cfg.window)
    ensures Grown(cache, cfg, amount, at) == Since(full + [Tick(at, amount)], at - cfg.window)
  {
    SinceRecentAppend(full, Tick(at, amount), at - cfg.window);
  }

  lemma DepositSeesTheSame(cfg: Config, cache: seq<Tick>, full: seq<Tick>, amount: int, at: int)
    requires CacheMatches(cfg, cache, full) && (full != [] ==> full[|full| - 1].at <= at)
    ensures Grown(cache, cfg, amount, at) == Since(full + [Tick(at, amount)], at - cfg.window)
  {
    LaterCutAgrees(cfg, cache, full, at);
    GrownAgrees(cfg, cache, full, amount, at);
  }

  lemma WithdrawalSeesTheSame(cfg: Config, cache: seq<Tick>, full: seq<Tick>, now: int)
    requires CacheMatches(cfg, cache, full) && InTime(full, now)
    ensures Since(cache, now - RAPID_CYCLE_MS + 1) != [] <==>
            full != [] && now - full[|full| - 1].at < RAPID_CYCLE_MS
  {
    if full != [] {
      var newest := full[|full| - 1];
      var cut, recent := newest.at - cfg.window, now - RAPID_CYCLE_MS + 1;
      if cut <= recent {
        SinceTwice(full, cut, recent);
        NewestDecides(full, now, recent);
      } else {
        // The cache was cut inside the last minute, and still holds the newest deposit.
        SinceTwice(full, recent, cut);
        KeptByLowerCutoff(full, cut, recent);
        NewestDecides(full, now, cut);
      }
    }
  }

  lemma {:induction false} KeptByLowerCutoff(s: seq<Tick>, cut: int, lower: int)
    requires lower <= cut
    ensures Since(Since(s, cut), lower) == Since(s, cut)
  {
    if s != [] {
      var init, last := s[..|s| - 1], s[|s| - 1];
      KeptByLowerCutoff(init, cut, lower);
      if last.at >= cut {
        SinceAppend(Since(init, cut), last, lower);
      }
    }
  }

  function Applied(m: Monitor, cfg: Config, op: Op): Monitor {
    match op
    case Deposit(a, amount, at) => Deposited(m, cfg, a, amount, at)
    case Withdraw(a, at) => Withdrawn(m, a, at)
  }

  /** One operation raises the same alert from the cache and from the whole history. */
  lemma OperationDecidesAsHistory(m: Monitor, cfg: Config, op: Op, full: seq<Tick>)
    requires CacheMatches(cfg, TicksOf(m.deposits, op.address), full) && InTime(full, op.at)
    ensures Applied(m, cfg, op).alerts == if Fires(cfg, full, op) then Flagged(m.alerts, AlertOf(op)) else m.alerts
  {
    if op.Deposit? {
      DepositSeesTheSame(cfg, TicksOf(m.deposits, op.address), full, op.amount, op.at);
    } else {
      WithdrawalSeesTheSame(cfg, TicksOf(m.deposits, op.address), full, op.at);
    }
  }

  /** The new cache of the address an operation is about. */
  function CacheAfter(cache: seq<Tick>, cfg: Config, op: Op): seq<Tick> {
    if op.Withdraw? then cache
    else if TooMany(Grown(cache, cfg, op.amount, op.at), cfg) then [] else Grown(cache, cfg, op.amount, op.at)
  }

  lemma OnlyItsCacheChanges(m: Monitor, cfg: Config, op: Op, a: Address)
    ensures TicksOf(Applied(m, cfg, op).deposits, a) ==
            if a == op.address then CacheAfter(TicksOf(m.deposits, a), cfg, op) else TicksOf(m.deposits, a)
  {
  }

  lemma CacheStillMatches(cache: seq<Tick>, cfg: Config, op: Op, full: seq<Tick>)
    requires CacheMatches(cfg, cache, full) && InTime(full, op.at)
    ensures CacheMatches(cfg, CacheAfter(cache, cfg, op),
              if op.Withdraw? then full
              else if Fires(cfg, full, op) then [] else full + [Tick(op.at, op.amount)])
  {
    if op.Deposit? {
      var grown := full + [Tick(op.at, op.amount)];
      DepositSeesTheSame(cfg, cache, full, op.amount, op.at);
      assert grown[|grown| - 1] == Tick(op.at, op.amount);
    }
  }

  ghost predicate CachesMatch(cfg: Config, ops: seq<Op>) {
    forall a :: CacheMatches(cfg, TicksOf(After(cfg, ops).deposits, a), SinceAlert(cfg, ops, a))
  }

  lemma CachesStillMatch(cfg: Config, ops: seq<Op>)
    requires ops != [] && CachesMatch(cfg, ops[..|ops| - 1])
    requires InTime(SinceAlert(cfg, ops[..|ops| - 1], ops[|ops| - 1].address), ops[|ops| - 1].at)
    ensures CachesMatch(cfg, ops)
  {
    var init, last := ops[..|ops| - 1], ops[|ops| - 1];
    var m := After(cfg, init);
    CacheStillMatches(TicksOf(m.deposits, last.address), cfg, last, SinceAlert(cfg, init, last.address));
    forall a
      ensures CacheMatches(cfg, TicksOf(After(cfg, ops).deposits, a), SinceAlert(cfg, ops, a))
    {
      OnlyItsCacheChanges(m, cfg, last, a);
    }
  }

  lemma AlertsStillMatch(cfg: Config, ops: seq<Op>)
    requires ops != [] && CachesMatch(cfg, ops[..|ops| - 1])
    requires InTime(SinceAlert(cfg, ops[..|ops| - 1], ops[|ops| - 1].address), ops[|ops| - 1].at)
    requires After(cfg, ops[..|ops| - 1]).alerts == LastN(AllAlerts(cfg, ops[..|ops| - 1]), MAX_ALERTS)
    ensures After(cfg, ops).alerts == LastN(AllAlerts(cfg, ops), MAX_ALERTS)
  {
    var init, last := ops[..|ops| - 1], ops[|ops| - 1];
    OperationDecidesAsHistory(After(cfg, init), cfg, last, SinceAlert(cfg, init, last.address));
    LastNOfAppend(AllAlerts(cfg, init), AlertOf(last), MAX_ALERTS);
  }

  /** Refinement: over every run with a non-decreasing clock the pruned cache decides exactly as
      the whole history would, and the alert list is the last MAX_ALERTS of all alerts. */
  lemma {:induction false} CacheDecidesAsHistory(cfg: Config, ops: seq<Op>)
    requires Timely(ops)
    ensures After(cfg, ops).alerts == LastN(AllAlerts(cfg, ops), MAX_ALERTS)
    ensures CachesMatch(cfg, ops)
  {
    if ops != [] {
      var init, last := ops[..|ops| - 1], ops[|ops| - 1];
      CacheDecidesAsHistory(cfg, init);
      HistoryInTime(cfg, init, last.address, last.at);
      CachesStillMatch(cfg, ops);
      AlertsStillMatch(cfg, ops);
    }
  }

  /** The list served to operators is the last LISTED_ALERTS of all alerts ever raised. */
  lemma ListedAlertsAreTheLatest(cfg: Config, ops: seq<Op>)
    requires Timely(ops)
    ensures LastN(After(cfg, ops).alerts, LISTED_ALERTS) == LastN(AllAlerts(cfg, ops), LISTED_ALERTS)
  {
    CacheDecidesAsHistory(cfg, ops);
  }

  // ----- The detectors over the operations themselves -----

  predicate IsDeposit(ops: seq<Op>, j: nat, a: Address)
    requires j < |ops|
  {
    ops[j].Deposit? && ops[j].address == a
  }

  /** The deposits that count for the i-th operation: of its address, above zero and below the
      threshold, no older than the window, and not cleared by an alert since. */
  ghost function Near(cfg: Config, ops: seq<Op>, i: nat): set<nat>
    requires i < |ops|
    decreases i, 1
  {
    set j: nat | j <= i && IsDeposit(ops, j, ops[i].address) && 0 < ops[j].amount < cfg.threshold
                 && ops[i].at - ops[j].at <= cfg.window && Uncleared(cfg, ops, j, i, ops[i].address)
  }

  /** The i-th operation is a deposit that raises a structuring alert. */
  ghost predicate Raises(cfg: Config, ops: seq<Op>, i: nat)
    requires i < |ops|
    decreases i, 2
  {
    ops[i].Deposit? && |Near(cfg, ops, i)| >= cfg.maxCount
  }

  /** No deposit of `a` from the j-th operation on has raised an alert before the n-th. */
  ghost predicate Uncleared(cfg: Config, ops: seq<Op>, j: nat, n: nat, a: Address)
    requires n <= |ops|
    decreases n, 0
  {
    forall k: nat :: j <= k < n && IsDeposit(ops, k, a) ==> !Raises(cfg, ops, k)
  }

  /** The i-th operation is a withdrawal less than a minute after an uncleared deposit. */
  ghost predicate Cycles(cfg: Config, ops: seq<Op>, i: nat)
    requires i < |ops|
  {
    ops[i].Withdraw? && exists j: nat :: j < i && IsDeposit(ops, j, ops[i].address)
                                         && ops[i].at - ops[j].at < 60_000 && Uncleared(cfg, ops, j, i, ops[i].address)
  }

  ghost function RaisedBy(cfg: Config, ops: seq<Op>, n: nat): seq<Alert>
    requires n <= |ops|
  {
    if n == 0 then []
    else
      var op := ops[n - 1];
      RaisedBy(cfg, ops, n - 1) +
      (if Raises(cfg, ops, n - 1) then [Alert(op.address, Structuring, op.at)]
       else if Cycles(cfg, ops, n - 1) then [Alert(op.address, RapidCycle, op.at)] else [])
  }

  /** The indices of the deposits in `SinceAlert`. */
  function Held(cfg: Config, ops: seq<Op>, n: nat, a: Address): seq<nat>
    requires n <= |ops|
  {
    if n == 0 then []
    else
      var before, last := Held(cfg, ops, n - 1, a), ops[n - 1];
      if last.Withdraw? || last.address != a then before
      else if Fires(cfg, SinceAlert(cfg, ops[..n - 1], a), last) then []
      else before + [n - 1]
  }

  ghost predicate HeldAre(ops: seq<Op>, held: seq<nat>, n: nat, a: Address)
    requires n <= |ops|
  {
    && NoDup(held) && (forall i :: 0 <= i < |held| ==> held[i] < n)
    && forall i :: 0 <= i < |held| ==> IsDeposit(ops, held[i], a)
  }

  function TicksAt(ops: seq<Op>, held: seq<nat>): seq<Tick>
    requires forall i :: 0 <= i < |held| ==> held[i] < |ops| && ops[held[i]].Deposit?
  {
    if held == [] then []
    else
      var op := ops[held[|held| - 1]];
      TicksAt(ops, held[..|held| - 1]) + [Tick(op.at, op.amount)]
  }

  lemma OneMoreDeposit(ops: seq<Op>, before: seq<nat>, n: nat, a: Address, more: seq<nat>)
    requires n < |ops| && HeldAre(ops, before, n, a) && IsDeposit(ops, n, a) && more == before + [n]
    ensures HeldAre(ops, more, n + 1, a) && TicksAt(ops, more) == TicksAt(ops, before) + [Tick(ops[n].at, ops[n].amount)]
  {
    assert more[..|before|] == before;
  }

  lemma {:induction false} HeldIsSinceAlert(cfg: Config, ops: seq<Op>, n: nat, a: Address)
    requires n <= |ops|
    ensures HeldAre(ops, Held(cfg, ops, n, a), n, a)
    ensures SinceAlert(cfg, ops[..n], a) == TicksAt(ops, Held(cfg, ops, n, a))
  {
    if n > 0 {
      HeldIsSinceAlert(cfg, ops, n - 1, a);
      assert ops[..n][..n - 1] == ops[..n - 1];
      if IsDeposit(ops, n - 1, a) {
        var before := Held(cfg, ops, n - 1, a);
        OneMoreDeposit(ops, before, n - 1, a, before + [n - 1]);
      }
    }
  }

  function Counted(ops: seq<Op>, held: seq<nat>, cutoff: int, threshold: int): set<nat> {
    set j | j in held && j < |ops| && ops[j].Deposit? && ops[j].at >= cutoff && 0 < ops[j].amount < threshold
  }

  lemma NearThresholdAppend(s: seq<Tick>, t: Tick, threshold: int)
    ensures NearThreshold(s + [t], threshold) == NearThreshold(s, threshold) + if 0 < t.amount < threshold then 1 else 0
  {
    assert (s + [t])[..|s|] == s;
  }

  lemma CountedAppend(ops: seq<Op>, held: seq<nat>, j: nat, cutoff: int, threshold: int)
    requires j !in held && j < |ops| && ops[j].Deposit?
    ensures |Counted(ops, held + [j], cutoff, threshold)| ==
            |Counted(ops, held, cutoff, threshold)| + if ops[j].at >= cutoff && 0 < ops[j].amount < threshold then 1 else 0
  {
    var before := Counted(ops, held, cutoff, threshold);
    assert Counted(ops, held + [j], cutoff, threshold) ==
           if ops[j].at >= cutoff && 0 < ops[j].amount < threshold then before + {j} else before;
  }

  /** The count of the detector is the size of the index set. */
  lemma {:induction false} CountIsTheSize(ops: seq<Op>, held: seq<nat>, cutoff: int, threshold: int)
    requires NoDup(held) && forall i :: 0 <= i < |held| ==> held[i] < |ops| && ops[held[i]].Deposit?
    ensures NearThreshold(Since(TicksAt(ops, held), cutoff), threshold) == |Counted(ops, held, cutoff, threshold)|
  {
    if held == [] {
      assert Counted(ops, held, cutoff, threshold) == {};
    } else {
      var init, j := held[..|held| - 1], held[|held| - 1];
      var t := Tick(ops[j].at, ops[j].amount);
      CountIsTheSize(ops, init, cutoff, threshold);
      SinceAppend(TicksAt(ops, init), t, cutoff);
      NearThresholdAppend(Since(TicksAt(ops, init), cutoff), t, threshold);
      assert held == init + [j];
      CountedAppend(ops, init, j, cutoff, threshold);
    }
  }

  lemma UnclearedStep(cfg: Config, ops: seq<Op>, j: nat, n: nat, a: Address)
    requires j < n <= |ops|
    ensures Uncleared(cfg, ops, j, n, a) <==>
              Uncleared(cfg, ops, j, n - 1, a) && (IsDeposit(ops, n - 1, a) ==> !Raises(cfg, ops, n - 1))
  {
  }

  lemma HeldStep(cfg: Config, ops: seq<Op>, n: nat, a: Address, j: nat)
    requires 0 < n <= |ops|
    ensures j in Held(cfg, ops, n, a) <==>
              if !IsDeposit(ops, n - 1, a) then j in Held(cfg, ops, n - 1, a)
              else !Fires(cfg, SinceAlert(cfg, ops[..n - 1], a), ops[n - 1]) && (j == n - 1 || j in Held(cfg, ops, n - 1, a))
  {
  }

  /** A deposit is held exactly when no alert has cleared it. */
  lemma {:induction false} HeldExactly(cfg: Config, ops: seq<Op>, n: nat, a: Address, j: nat)
    requires n <= |ops|
    ensures j in Held(cfg, ops, n, a) <==> j < n && IsDeposit(ops, j, a) && Uncleared(cfg, ops, j, n, a)
    decreases n, 0
  {
    if n > 0 {
      HeldExactly(cfg, ops, n - 1, a, j);
      HeldStep(cfg, ops, n, a, j);
      if IsDeposit(ops, n - 1, a) {
        FiringIsRaising(cfg, ops, n - 1);
      }
      if j < n {
        UnclearedStep(cfg, ops, j, n, a);
      }
    }
  }

  lemma CountedIsNear(cfg: Config, ops: seq<Op>, n: nat, held: seq<nat>, more: seq<nat>)
    requires n < |ops| && ops[n].Deposit? && more == held + [n]
    requires forall j: nat :: j in held <==>
               j < n && IsDeposit(ops, j, ops[n].address) && Uncleared(cfg, ops, j, n, ops[n].address)
    ensures Counted(ops, more, ops[n].at - cfg.window, cfg.threshold) == Near(cfg, ops, n)
  {
    var counted := Counted(ops, more, ops[n].at - cfg.window, cfg.threshold);
    assert Uncleared(cfg, ops, n, n, ops[n].address);
    forall j: nat
      ensures j in counted <==> j in Near(cfg, ops, n)
    {
      assert j in more <==> j in held || j == n;
    }
  }

  /** The detector fires on a deposit exactly when enough deposits count for it. */
  lemma {:induction false} FiringIsRaising(cfg: Config, ops: seq<Op>, n: nat)
    requires n < |ops| && ops[n].Deposit?
    ensures Fires(cfg, SinceAlert(cfg, ops[..n], ops[n].address), ops[n]) <==> Raises(cfg, ops, n)
    decreases n, 1
  {
    var a := ops[n].address;
    var held := Held(cfg, ops, n, a);
    forall j: nat
      ensures j in held <==> j < n && IsDeposit(ops, j, a) && Uncleared(cfg, ops, j, n, a)
    {
      HeldExactly(cfg, ops, n, a, j);
    }
    HeldIsSinceAlert(cfg, ops, n, a);
    FiringByHeld(cfg, ops, n, held, held + [n], SinceAlert(cfg, ops[..n], a));
  }

  lemma FiringByHeld(cfg: Config, ops: seq<Op>, n: nat, held: seq<nat>, more: seq<nat>, before: seq<Tick>)
    requires n < |ops| && ops[n].Deposit? && HeldAre(ops, held, n, ops[n].address) && before == TicksAt(ops, held)
    requires forall j: nat :: j in held <==>
               j < n && IsDeposit(ops, j, ops[n].address) && Uncleared(cfg, ops, j, n, ops[n].address)
    requires more == held + [n]
    ensures Fires(cfg, before, ops[n]) <==> Raises(cfg, ops, n)
  {
    OneMoreDeposit(ops, held, n, ops[n].address, more);
    FiringCounts(cfg, ops, ops[n], more, before);
    CountedIsNear(cfg, ops, n, held, more);
  }

  ghost predicate AreDeposits(ops: seq<Op>, held: seq<nat>) {
    NoDup(held) && forall i :: 0 <= i < |held| ==> held[i] < |ops| && ops[held[i]].Deposit?
  }

  lemma ManyBySize(cfg: Config, ops: seq<Op>, held: seq<nat>, cutoff: int)
    requires AreDeposits(ops, held)
    ensures TooMany(Since(TicksAt(ops, held), cutoff), cfg) <==> |Counted(ops, held, cutoff, cfg.threshold)| >= cfg.maxCount
  {
    CountIsTheSize(ops, held, cutoff, cfg.threshold);
  }

  lemma FiresOnThese(cfg: Config, before: seq<Tick>, op: Op, all: seq<Tick>)
    requires op.Deposit? && all == before + [Tick(op.at, op.amount)]
    ensures Fires(cfg, before, op) <==> TooMany(Since(all, op.at - cfg.window), cfg)
  {
  }

  lemma FiringCounts(cfg: Config, ops: seq<Op>, op: Op, held: seq<nat>, before: seq<Tick>)
    requires op.Deposit? && AreDeposits(ops, held)
    requires TicksAt(ops, held) == before + [Tick(op.at, op.amount)]
    ensures Fires(cfg, before, op) <==> |Counted(ops, held, op.at - cfg.window, cfg.threshold)| >= cfg.maxCount
  {
    FiresOnThese(cfg, before, op, TicksAt(ops, held));
    ManyBySize(cfg, ops, held, op.at - cfg.window);
  }

  /** The rapid-cycle detector fires exactly on an uncleared deposit less than a minute old. */
  lemma CyclingIsFiring(cfg: Config, ops: seq<Op>, n: nat)
    requires Timely(ops) && n < |ops| && ops[n].Withdraw?
    ensures Fires(cfg, SinceAlert(cfg, ops[..n], ops[n].address), ops[n]) <==> Cycles(cfg, ops, n)
  {
    var a := ops[n].address;
    var held := Held(cfg, ops, n, a);
    forall j: nat
      ensures j in held <==> j < n && IsDeposit(ops, j, a) && Uncleared(cfg, ops, j, n, a)
    {
      HeldExactly(cfg, ops, n, a, j);
    }
    HeldIsSinceAlert(cfg, ops, n, a);
    HeldRise(cfg, ops, n, a);
    if held != [] {
      assert held[|held| - 1] in held;
    }
  }

  lemma {:induction false} HeldRise(cfg: Config, ops: seq<Op>, n: nat, a: Address)
    requires n <= |ops|
    ensures forall j :: j in Held(cfg, ops, n, a) ==> j <= Held(cfg, ops, n, a)[|Held(cfg, ops, n, a)| - 1] < n
  {
    if n > 0 {
      HeldRise(cfg, ops, n - 1, a);
    }
  }

  lemma {:induction false} HistoryAlerts(cfg: Config, ops: seq<Op>, n: nat)
    requires Timely(ops) && n <= |ops|
    ensures AllAlerts(cfg, ops[..n]) == RaisedBy(cfg, ops, n)
  {
    if n > 0 {
      HistoryAlerts(cfg, ops, n - 1);
      assert ops[..n][..n - 1] == ops[..n - 1];
      if ops[n - 1].Deposit? {
        FiringIsRaising(cfg, ops, n - 1);
      } else {
        CyclingIsFiring(cfg, ops, n - 1);
      }
    }
  }

  /** Over every run with a non-decreasing clock the alert list is the last thousand of these: one
      per deposit for which at least `maxCount` uncleared deposits of its address, itself included,
      are above zero, below the threshold and no older than the window; and one per withdrawal less
      than a minute after an uncleared deposit of its address. */
  lemma AlertsAreExact(cfg: Config, ops: seq<Op>)
    requires Timely(ops)
    ensures var all := RaisedBy(cfg, ops, |ops|);
            After(cfg, ops).alerts == if |all| <= 1_000 then all else all[|all| - 1_000..]
  {
    CacheDecidesAsHistory(cfg, ops);
    HistoryAlerts(cfg, ops, |ops|);
    assert ops[..|ops|] == ops;
  }
}
