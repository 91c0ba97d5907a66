/** Deposits into and withdrawals from a tranche pool (contracts/tranche/src/deposit.rs,
    contracts/tranche/src/withdraw.rs), for one token whose pool exists.  A trapping call leaves
    pool and positions unchanged, because the host rolls it back. */
module TranchePool {
  import opened Arithmetic
  import opened Collections
  import opened TrancheMath

  type Address = nat

  datatype Class = Senior | Junior

  datatype Accounting = Accounting(
    deposited: I128,
    available: I128,
    deployed: I128,
    earned: I128,
    losses: I128,
    totalShares: I128
  )

  datatype Position = Position(deposited: I128, shares: I128, earned: I128, losses: I128)

  /** `strictShares` says whether the share token refuses to mint and burn amounts that are not
      positive, as contracts/share/src/lib.rs does.  The pool takes any token it is opened with. */
  datatype Pool = Pool(advanceRateBps: nat, strictShares: bool, senior: Accounting, junior: Accounting)

  datatype State = State(pool: Pool, positions: map<(Address, Class), Position>)

  datatype Error =
    | InvalidAmount | AdvanceRateExceeded | InsufficientBalance | Unauthorized | InvalidShareTokens | Trap

  datatype Config = Config(targetYieldBps: nat, advanceRateBps: nat, firstLossBps: nat)

  datatype Outcome = Accepted | Rejected(error: Error)

  const NoAccounting: Accounting := Accounting(0, 0, 0, 0, 0, 0)
  const NoPosition: Position := Position(0, 0, 0, 0)

  function Opened(advanceRateBps: nat, strictShares: bool): State {
    State(Pool(advanceRateBps, strictShares, NoAccounting, NoAccounting), map[])
  }

  function PositionOf(s: State, who: Address, c: Class): Position {
    if (who, c) in s.positions then s.positions[(who, c)] else NoPosition
  }

  function Of(p: Pool, c: Class): Accounting {
    match c case Senior => p.senior case Junior => p.junior
  }

  function With(p: Pool, c: Class, a: Accounting): Pool {
    match c case Senior => p.(senior := a) case Junior => p.(junior := a)
  }

  function Value(a: Accounting): int { a.deposited + a.earned - a.losses }

  /** Whether senior capital exceeds its part of the total, both given after the change. */
  predicate RateExceeded(bps: nat, senior: int, total: int) {
    senior > TruncDiv(bps * total, BPS)
  }

  predicate TokenAccepts(p: Pool, shares: int) { p.strictShares ==> shares > 0 }

  // ----- Deposit -----

  datatype Paid = Paid(accounting: Accounting, minted: I128)

  /** A class after a payment, and the shares that the payment buys; None where checked arithmetic
      traps. */
  function PaidIn(a: Accounting, amount: I128): Option<Paid> {
    if !FitsI128(a.deposited + amount) || !FitsI128(a.available + amount) || !FitsI128(a.deposited + amount + a.earned)
       || !FitsI128(Value(a) + amount) then None
    else
      var minted := SharesToMint(amount, Value(a) + amount, a.totalShares);
      if !FitsI128(a.totalShares + minted) then None
      else Some(Paid(a.(deposited := a.deposited + amount, available := a.available + amount,
                        totalShares := a.totalShares + minted), minted))
  }

  /** The state with the deposit and its shares booked; None where the call traps. */
  function Booked(s: State, who: Address, c: Class, amount: I128): Option<State> {
    var pos, paid := PositionOf(s, who, c), PaidIn(Of(s.pool, c), amount);
    if paid.None? || !FitsI128(pos.deposited + amount) || !FitsI128(pos.shares + paid.value.minted)
       || !TokenAccepts(s.pool, paid.value.minted) then None
    else
      Some(State(With(s.pool, c, paid.value.accounting),
                 s.positions[(who, c) := pos.(deposited := pos.deposited + amount, shares := pos.shares + paid.value.minted)]))
  }

  function DepositRefusal(s: State, who: Address, c: Class, amount: I128): Option<Error> {
    if amount <= 0 then Some(InvalidAmount)
    else
      var p := s.pool;
      var total := p.junior.deposited + p.senior.deposited;
      if c == Senior && (!FitsI128(total) || !FitsI128(total + amount) || !FitsI128(p.advanceRateBps * (total + amount))
                         || !FitsI128(p.senior.deposited + amount)) then Some(Trap)
      else if c == Senior && RateExceeded(p.advanceRateBps, p.senior.deposited + amount, total + amount) then
        Some(AdvanceRateExceeded)
      else if Booked(s, who, c, amount).None? then Some(Trap)
      else None
  }

  // ----- Withdrawal -----

  /** The state with the withdrawal booked; None where checked arithmetic traps. */
  function Unbooked(s: State, who: Address, c: Class, amount: I128, burned: I128): Option<State> {
    var a, pos := Of(s.pool, c), PositionOf(s, who, c);
    if pos.shares == 0 || !FitsI128(pos.deposited * burned) || !FitsI128(TruncDiv(pos.deposited * burned, pos.shares)) then None
    else
      var pnl := amount - TruncDiv(pos.deposited * burned, pos.shares);
      var earned, losses := if pnl >= 0 then pos.earned + pnl else pos.earned, if pnl >= 0 then pos.losses else pos.losses - pnl;
      if !FitsI128(a.available - amount) || !FitsI128(a.deposited - amount) || !FitsI128(a.totalShares - burned)
         || !FitsI128(pnl) || !FitsI128(earned) || !FitsI128(losses)
         || !FitsI128(pos.shares - burned) || !FitsI128(pos.deposited - amount) || !TokenAccepts(s.pool, burned) then None
      else
        Some(State(With(s.pool, c, a.(deposited := a.deposited - amount, available := a.available - amount,
                                      totalShares := a.totalShares - burned)),
                   s.positions[(who, c) := Position(pos.deposited - amount, pos.shares - burned, earned, losses)]))
  }

  function SharesToBurn(a: Accounting, amount: I128): Option<I128> {
    if !FitsI128(a.deposited + a.earned) || !FitsI128(Value(a)) then None
    else Some(SharesToMint(amount, Value(a), a.totalShares))
  }

  function WithdrawRefusal(s: State, who: Address, c: Class, amount: I128): Option<Error> {
    var a, pos := Of(s.pool, c), PositionOf(s, who, c);
    if amount <= 0 then Some(InvalidAmount)
    else if pos.deposited < amount then Some(InsufficientBalance)
    else
      var burned := SharesToBurn(a, amount);
      if burned.None? then Some(Trap)
      else if pos.shares < burned.value || a.available < amount then Some(InsufficientBalance)
      else if !FitsI128(a.deposited - amount) || !FitsI128(a.totalShares - burned.value) then Some(Trap)
      else
        var total := s.pool.junior.deposited + s.pool.senior.deposited - amount;
        if c == Junior && (!FitsI128(total)
                           || (total > 0 && !FitsI128(s.pool.advanceRateBps * total))) then Some(Trap)
        else if c == Junior && total > 0 && RateExceeded(s.pool.advanceRateBps, s.pool.senior.deposited, total) then
          Some(AdvanceRateExceeded)
        else if Unbooked(s, who, c, amount, burned.value).None? then Some(Trap)
        else None
  }

  // ----- The calls -----

  /** `SetConfig` and `Reopen` change the configuration of the live pool, and reopening its share
      tokens too, if they are distinct.  `Elsewhere` stands for funding, repayment and default,
      which change what is available, deployed, earned and lost, but neither deposits nor shares
      nor positions. */
  datatype Call =
    | Deposit(who: Address, tranche: Class, amount: I128)
    | Withdraw(who: Address, tranche: Class, amount: I128)
    | SetConfig(byAdmin: bool, config: Config)
    | Reopen(byAdmin: bool, config: Config, distinctTokens: bool, strictShares: bool)
    | Elsewhere(senior: Accounting, junior: Accounting)

  function ConfigRefusal(byAdmin: bool, config: Config): Option<Error> {
    if !byAdmin then Some(Unauthorized)
    else if config.targetYieldBps > BPS || config.advanceRateBps > BPS || config.firstLossBps > BPS then Some(InvalidAmount)
    else None
  }

  function ReopenRefusal(byAdmin: bool, config: Config, distinctTokens: bool): Option<Error> {
    if ConfigRefusal(byAdmin, config).Some? then ConfigRefusal(byAdmin, config)
    else if !distinctTokens then Some(InvalidShareTokens)
    else None
  }

  function RefusalOf(s: State, c: Call): Option<Error> {
    match c
    case Deposit(who, tranche, amount) => DepositRefusal(s, who, tranche, amount)
    case Withdraw(who, tranche, amount) => WithdrawRefusal(s, who, tranche, amount)
    case SetConfig(byAdmin, config) => ConfigRefusal(byAdmin, config)
    case Reopen(byAdmin, config, distinctTokens, _) => ReopenRefusal(byAdmin, config, distinctTokens)
    case Elsewhere(senior, junior) =>
      if senior.deposited == s.pool.senior.deposited && senior.totalShares == s.pool.senior.totalShares
         && junior.deposited == s.pool.junior.deposited && junior.totalShares == s.pool.junior.totalShares
      then None else Some(Trap)
  }

  function Apply(s: State, c: Call): State {
    if RefusalOf(s, c).Some? then s
    else
      match c
      case Deposit(who, tranche, amount) => Booked(s, who, tranche, amount).value
      case Withdraw(who, tranche, amount) =>
        Unbooked(s, who, tranche, amount, SharesToBurn(Of(s.pool, tranche), amount).value).value
      case SetConfig(_, config) => s.(pool := s.pool.(advanceRateBps := config.advanceRateBps))
      case Reopen(_, config, _, strictShares) =>
        s.(pool := s.pool.(advanceRateBps := config.advanceRateBps, strictShares := strictShares))
      case Elsewhere(senior, junior) => s.(pool := s.pool.(senior := senior, junior := junior))
  }

  function Run(s: State, calls: seq<Call>): State
    decreases |calls|
  {
    if calls == [] then s else Run(Apply(s, calls[0]), calls[1..])
  }

  // ----- What every call keeps -----

  ghost function Deposits(positions: map<(Address, Class), Position>, c: Class): map<(Address, Class), int> {
    map k | k in positions :: if k.1 == c then positions[k].deposited else 0
  }

  ghost function Shares(positions: map<(Address, Class), Position>, c: Class): map<(Address, Class), int> {
    map k | k in positions :: if k.1 == c then positions[k].shares else 0
  }

  /** Investor positions add up to the class totals. */
  ghost predicate Backed(s: State, c: Class) {
    && Total(Deposits(s.positions, c)) == Of(s.pool, c).deposited
    && Total(Shares(s.positions, c)) == Of(s.pool, c).totalShares
  }

  ghost predicate NoDebt(positions: map<(Address, Class), Position>) {
    forall k :: k in positions ==> positions[k].deposited >= 0
  }

  ghost predicate NoNegativeShares(positions: map<(Address, Class), Position>) {
    forall k :: k in positions ==> positions[k].shares >= 0
  }

  predicate WithinAdvanceRate(p: Pool) {
    BPS * p.senior.deposited <= p.advanceRateBps * (p.senior.deposited + p.junior.deposited)
  }

  /** What no call can break. */
  ghost predicate Sound(s: State) {
    Backed(s, Senior) && Backed(s, Junior) && NoDebt(s.positions) && s.pool.advanceRateBps <= BPS
  }

  ghost predicate Inv(s: State) {
    Sound(s) && WithinAdvanceRate(s.pool)
  }

  lemma PositionChanges(s: State, who: Address, c: Class, p: Position, d: Class)
    ensures var after, was := s.positions[(who, c) := p], PositionOf(s, who, c);
            && Total(Deposits(after, d)) == Total(Deposits(s.positions, d)) + (if c == d then p.deposited - was.deposited else 0)
            && Total(Shares(after, d)) == Total(Shares(s.positions, d)) + (if c == d then p.shares - was.shares else 0)
  {
    var after, k := s.positions[(who, c) := p], (who, c);
    assert Deposits(after, d) == Deposits(s.positions, d)[k := if c == d then p.deposited else 0];
    assert Shares(after, d) == Shares(s.positions, d)[k := if c == d then p.shares else 0];
    TotalUpdated(Deposits(s.positions, d), k, if c == d then p.deposited else 0);
    TotalUpdated(Shares(s.positions, d), k, if c == d then p.shares else 0);
  }

  /** A change of one position by the same amounts as the totals keeps everything backed. */
  lemma MovedTogether(s: State, s': State, who: Address, c: Class, p: Position)
    requires Backed(s, Senior) && Backed(s, Junior) && NoDebt(s.positions)
    requires s'.positions == s.positions[(who, c) := p] && p.deposited >= 0
    requires var was := PositionOf(s, who, c);
             forall d :: Of(s'.pool, d).deposited == Of(s.pool, d).deposited + (if d == c then p.deposited - was.deposited else 0)
                      && Of(s'.pool, d).totalShares == Of(s.pool, d).totalShares + (if d == c then p.shares - was.shares else 0)
    ensures Backed(s', Senior) && Backed(s', Junior) && NoDebt(s'.positions)
  {
    PositionChanges(s, who, c, p, Senior);
    PositionChanges(s, who, c, p, Junior);
  }

  lemma {:induction false} TotalIsNonNegative<K(!new)>(m: map<K, int>)
    requires forall k :: k in m ==> m[k] >= 0
    ensures Total(m) >= 0
  {
    if m != map[] {
      var k :| k in m && Total(m) == m[k] + Total(m - {k});
      TotalIsNonNegative(m - {k});
    }
  }

  lemma ClassDepositsAreNonNegative(s: State, c: Class)
    requires Backed(s, c) && NoDebt(s.positions)
    ensures Of(s.pool, c).deposited >= 0
  {
    TotalIsNonNegative(Deposits(s.positions, c));
  }

  lemma ClassSharesAreNonNegative(s: State, c: Class)
    requires Backed(s, c) && NoNegativeShares(s.positions)
    ensures Of(s.pool, c).totalShares >= 0
  {
    TotalIsNonNegative(Shares(s.positions, c));
  }

  /** An accepted deposit adds the same amounts to the position and to the totals. */
  lemma DepositMovesTotals(s: State, who: Address, c: Class, amount: I128)
    requires DepositRefusal(s, who, c, amount).None?
    ensures var s', was := Booked(s, who, c, amount).value, PositionOf(s, who, c);
            var minted := SharesToMint(amount, Value(Of(s.pool, c)) + amount, Of(s.pool, c).totalShares);
            && (who, c) in s'.positions && TokenAccepts(s.pool, minted)
            && s'.positions == s.positions[(who, c) := was.(deposited := was.deposited + amount, shares := was.shares + minted)]
            && forall d :: Of(s'.pool, d).deposited == Of(s.pool, d).deposited + (if d == c then amount else 0)
                        && Of(s'.pool, d).totalShares == Of(s.pool, d).totalShares + (if d == c then minted else 0)
  {
  }

  lemma DepositKeepsPositions(s: State, who: Address, c: Class, amount: I128)
    requires Backed(s, Senior) && Backed(s, Junior) && NoDebt(s.positions)
    requires DepositRefusal(s, who, c, amount).None?
    ensures var s' := Booked(s, who, c, amount).value;
            Backed(s', Senior) && Backed(s', Junior) && NoDebt(s'.positions)
  {
    var s' := Booked(s, who, c, amount).value;
    DepositMovesTotals(s, who, c, amount);
    MovedTogether(s, s', who, c, s'.positions[(who, c)]);
  }

  lemma WithdrawalKeepsPositions(s: State, who: Address, c: Class, amount: I128)
    requires Backed(s, Senior) && Backed(s, Junior) && NoDebt(s.positions)
    requires WithdrawRefusal(s, who, c, amount).None?
    ensures var s' := Apply(s, Withdraw(who, c, amount));
            Backed(s', Senior) && Backed(s', Junior) && NoDebt(s'.positions)
  {
    var s' := Apply(s, Withdraw(who, c, amount));
    MovedTogether(s, s', who, c, s'.positions[(who, c)]);
  }

  lemma RateCheckIsExact(bps: nat, senior: int, total: int)
    requires total >= 0
    ensures RateExceeded(bps, senior, total) <==> BPS * senior > bps * total
  {
    var x := bps * total;
    DivParts(x, BPS);
    if senior > x / BPS {
      MulMonotone(x / BPS + 1, senior, BPS);
    } else {
      MulMonotone(senior, x / BPS, BPS);
    }
  }

  lemma JuniorDepositKeepsRate(bps: nat, senior: int, junior: int, amount: nat)
    requires BPS * senior <= bps * (senior + junior)
    ensures BPS * senior <= bps * (senior + junior + amount)
  {
    MulMonotone(senior + junior, senior + junior + amount, bps);
    assert bps * (senior + junior) <= bps * (senior + junior + amount);
  }

  lemma SeniorWithdrawalKeepsRate(bps: nat, senior: int, junior: int, amount: nat)
    requires bps <= BPS && BPS * senior <= bps * (senior + junior)
    ensures BPS * (senior - amount) <= bps * (senior - amount + junior)
  {
    MulMonotone(bps, BPS, amount);
    assert bps * (senior - amount + junior) == bps * (senior + junior) - bps * amount;
  }

  /** A call that moves capital against the rate: it is checked whatever the rate was before. */
  predicate RateChecked(c: Call) {
    (c.Deposit? && c.tranche == Senior) || (c.Withdraw? && c.tranche == Junior)
  }

  lemma SeniorDepositMeetsRate(s: State, who: Address, amount: I128)
    requires s.pool.senior.deposited >= 0 && s.pool.junior.deposited >= 0
    requires DepositRefusal(s, who, Senior, amount).None?
    ensures WithinAdvanceRate(Booked(s, who, Senior, amount).value.pool)
  {
    var p := s.pool;
    DepositMovesTotals(s, who, Senior, amount);
    RateCheckIsExact(p.advanceRateBps, p.senior.deposited + amount, p.junior.deposited + p.senior.deposited + amount);
  }

  lemma JuniorWithdrawalMeetsRate(s: State, who: Address, amount: I128)
    requires s.pool.senior.deposited >= 0 && s.pool.junior.deposited >= amount
    requires WithdrawRefusal(s, who, Junior, amount).None?
    ensures WithinAdvanceRate(Apply(s, Withdraw(who, Junior, amount)).pool)
  {
    var p := s.pool;
    var p' := Apply(s, Withdraw(who, Junior, amount)).pool;
    assert p'.senior == p.senior && p'.junior.deposited == p.junior.deposited - amount;
    RateCheckIsExact(p.advanceRateBps, p.senior.deposited, p.junior.deposited + p.senior.deposited - amount);
  }

  lemma ConfigurationKeepsSound(s: State, c: Call)
    requires Sound(s) && (c.SetConfig? || c.Reopen? || c.Elsewhere?)
    ensures Sound(Apply(s, c))
  {
    var s' := Apply(s, c);
    assert s'.positions == s.positions;
    assert forall d :: Of(s'.pool, d).deposited == Of(s.pool, d).deposited && Of(s'.pool, d).totalShares == Of(s.pool, d).totalShares;
  }

  lemma CallKeepsSound(s: State, c: Call)
    requires Sound(s)
    ensures Sound(Apply(s, c))
  {
    if RefusalOf(s, c).None? {
      if c.Deposit? {
        DepositKeepsPositions(s, c.who, c.tranche, c.amount);
      } else if c.Withdraw? {
        WithdrawalKeepsPositions(s, c.who, c.tranche, c.amount);
      } else {
        ConfigurationKeepsSound(s, c);
      }
    }
  }

  /** Over every run of calls, also of those that change the configuration of the live pool: no
      deposit is negative and positions add up to the totals. */
  lemma {:induction false} RunsStaySound(s: State, calls: seq<Call>)
    requires Sound(s)
    ensures Sound(Run(s, calls))
    decreases |calls|
  {
    if calls != [] {
      CallKeepsSound(s, calls[0]);
      RunsStaySound(Apply(s, calls[0]), calls[1..]);
    }
  }

  /** From any sound pool, even one whose rate was lowered too far, an accepted senior deposit or
      junior withdrawal leaves the pool within its rate. */
  lemma CheckedCallsMeetRate(s: State, c: Call)
    requires Sound(s) && RateChecked(c) && RefusalOf(s, c).None?
    ensures WithinAdvanceRate(Apply(s, c).pool)
  {
    ClassDepositsAreNonNegative(s, Senior);
    ClassDepositsAreNonNegative(s, Junior);
    if c.Deposit? {
      SeniorDepositMeetsRate(s, c.who, c.amount);
    } else {
      CallKeepsSound(s, c);
      ClassDepositsAreNonNegative(Apply(s, c), Junior);
      JuniorWithdrawalMeetsRate(s, c.who, c.amount);
    }
  }

  /** An accepted change of the configuration lowers the rate below what senior holds already. */
  predicate LowersTooFar(s: State, c: Call) {
    (c.SetConfig? || c.Reopen?) && RefusalOf(s, c).None?
    && BPS * s.pool.senior.deposited > c.config.advanceRateBps * (s.pool.senior.deposited + s.pool.junior.deposited)
  }

  lemma UncheckedCallsKeepRate(s: State, c: Call)
    requires Inv(s) && (c.Deposit? || c.Withdraw?) && !RateChecked(c) && RefusalOf(s, c).None?
    ensures WithinAdvanceRate(Apply(s, c).pool)
  {
    var p := s.pool;
    if c.Deposit? {
      DepositMovesTotals(s, c.who, c.tranche, c.amount);
      JuniorDepositKeepsRate(p.advanceRateBps, p.senior.deposited, p.junior.deposited, c.amount);
    } else {
      var p' := Apply(s, c).pool;
      assert p'.junior == p.junior && p'.senior.deposited == p.senior.deposited - c.amount;
      SeniorWithdrawalKeepsRate(p.advanceRateBps, p.senior.deposited, p.junior.deposited, c.amount);
    }
  }

  /** One call breaks the rate exactly when it lowers it too far. */
  lemma OnlyLoweringBreaksRate(s: State, c: Call)
    requires Inv(s)
    ensures WithinAdvanceRate(Apply(s, c).pool) <==> !LowersTooFar(s, c)
  {
    if RefusalOf(s, c).None? {
      if RateChecked(c) {
        CheckedCallsMeetRate(s, c);
      } else if c.Deposit? || c.Withdraw? {
        UncheckedCallsKeepRate(s, c);
      }
    }
  }

  ghost predicate RateThroughout(s: State, calls: seq<Call>)
    decreases |calls|
  {
    WithinAdvanceRate(s.pool) && (calls == [] || RateThroughout(Apply(s, calls[0]), calls[1..]))
  }

  ghost predicate NeverLowersTooFar(s: State, calls: seq<Call>)
    decreases |calls|
  {
    calls == [] || (!LowersTooFar(s, calls[0]) && NeverLowersTooFar(Apply(s, calls[0]), calls[1..]))
  }

  /** Over every run senior capital stays within its advance rate at every point if and only if no
      change of the configuration lowers the rate below what senior holds at that moment. */
  lemma {:induction false} RateHoldsExactly(s: State, calls: seq<Call>)
    requires Inv(s)
    ensures RateThroughout(s, calls) <==> NeverLowersTooFar(s, calls)
    decreases |calls|
  {
    if calls != [] {
      OnlyLoweringBreaksRate(s, calls[0]);
      if !LowersTooFar(s, calls[0]) {
        CallKeepsSound(s, calls[0]);
        RateHoldsExactly(Apply(s, calls[0]), calls[1..]);
      }
    }
  }

  /** From a fresh pool with a valid advance rate, after every such run: senior capital is within its
      advance rate, no deposit is negative, and positions add up to the totals. */
  lemma {:induction false} RunsKeepInv(s: State, calls: seq<Call>)
    requires Inv(s) && NeverLowersTooFar(s, calls)
    ensures Inv(Run(s, calls))
    decreases |calls|
  {
    if calls != [] {
      CallKeepsSound(s, calls[0]);
      OnlyLoweringBreaksRate(s, calls[0]);
      RunsKeepInv(Apply(s, calls[0]), calls[1..]);
    }
  }

  lemma FreshPoolIsSound(bps: nat, strict: bool)
    requires bps <= BPS
    ensures Inv(Opened(bps, strict)) && NoNegativeShares(Opened(bps, strict).positions)
  {
    assert Deposits(map[], Senior) == map[] == Deposits(map[], Junior);
    assert Shares(map[], Senior) == map[] == Shares(map[], Junior);
  }

  // ----- The sign of shares -----

  /** The deposit takes its class to a value of exactly one unit, at a price outside the signed
      range, and the share token would take the wrapped amount. */
  predicate WrapsMint(s: State, c: Call) {
    c.Deposit? && !s.pool.strictShares
    && MintWraps(c.amount, Value(Of(s.pool, c.tranche)) + c.amount, Of(s.pool, c.tranche).totalShares)
  }

  ghost predicate SomeMintWraps(s: State, calls: seq<Call>)
    decreases |calls|
  {
    calls != [] && (WrapsMint(s, calls[0]) || SomeMintWraps(Apply(s, calls[0]), calls[1..]))
  }

  /** An accepted deposit takes shares away exactly when its mint wraps. */
  lemma MintIsNegativeWhenItWraps(s: State, c: Call)
    requires c.Deposit? && DepositRefusal(s, c.who, c.tranche, c.amount).None? && Of(s.pool, c.tranche).totalShares >= 0
    ensures PositionOf(Apply(s, c), c.who, c.tranche).shares < PositionOf(s, c.who, c.tranche).shares <==> WrapsMint(s, c)
  {
    var a := Of(s.pool, c.tranche);
    var v := Value(a) + c.amount;
    DepositMovesTotals(s, c.who, c.tranche, c.amount);
    if a.totalShares > 0 && v > 0 {
      MintCases(c.amount, v, a.totalShares);
    }
  }

  lemma CallKeepsShareSigns(s: State, c: Call)
    requires Sound(s) && NoNegativeShares(s.positions) && !WrapsMint(s, c)
    ensures NoNegativeShares(Apply(s, c).positions)
  {
    if c.Deposit? && RefusalOf(s, c).None? {
      ClassSharesAreNonNegative(s, c.tranche);
      MintIsNegativeWhenItWraps(s, c);
    }
  }

  /** In every run in which no mint wraps no position has negative shares.  With a share token
      that refuses such mints that is every run. */
  lemma {:induction false} SharesStayNonNegative(s: State, calls: seq<Call>)
    requires Sound(s) && NoNegativeShares(s.positions) && !SomeMintWraps(s, calls)
    ensures NoNegativeShares(Run(s, calls).positions)
    decreases |calls|
  {
    if calls != [] {
      CallKeepsSound(s, calls[0]);
      CallKeepsShareSigns(s, calls[0]);
      SharesStayNonNegative(Apply(s, calls[0]), calls[1..]);
    }
  }

  lemma {:induction false} StrictTokensNeverWrap(s: State, calls: seq<Call>)
    requires s.pool.strictShares && forall i :: 0 <= i < |calls| && calls[i].Reopen? ==> calls[i].strictShares
    ensures !SomeMintWraps(s, calls)
    decreases |calls|
  {
    if calls != [] {
      StrictTokensNeverWrap(Apply(s, calls[0]), calls[1..]);
    }
  }
}
