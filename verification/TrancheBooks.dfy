/** What deposits and withdrawals do to the books of a class and to a position, field by field, and
    which calls are accepted (contracts/tranche/src/deposit.rs, contracts/tranche/src/withdraw.rs). */
module TrancheBooks {
  import opened Arithmetic
  import opened Collections
  import opened TrancheMath
  import opened TranchePool

  function ClassOf(p: Pool, c: Class): Accounting { if c == Senior then p.senior else p.junior }

  /** Nobody else's position, the other class and the configuration stay as they were. */
  ghost predicate OnlyTouches(s: State, s': State, who: Address, c: Class) {
    && (c == Junior ==> s'.pool.senior == s.pool.senior) && (c == Senior ==> s'.pool.junior == s.pool.junior)
    && s'.pool.advanceRateBps == s.pool.advanceRateBps && s'.pool.strictShares == s.pool.strictShares
    && (forall k :: k in s.positions && k != (who, c) ==> k in s'.positions && s'.positions[k] == s.positions[k])
    && (forall k :: k in s'.positions ==> k in s.positions || k == (who, c))
  }

  /** An accepted deposit puts the amount on the deposits and on the liquid money of its class and on
      the depositor's position, and the same number of shares on the class and the position. */
  lemma DepositBooks(s: State, s': State, who: Address, c: Class, amount: I128)
    requires DepositRefusal(s, who, c, amount).None? && s' == Apply(s, Deposit(who, c, amount))
    ensures OnlyTouches(s, s', who, c)
    ensures var a, a' := ClassOf(s.pool, c), ClassOf(s'.pool, c);
            && a'.deposited == a.deposited + amount && a'.available == a.available + amount
            && a'.deployed == a.deployed && a'.earned == a.earned && a'.losses == a.losses
            && (who, c) in s'.positions
            && var before := if (who, c) in s.positions then s.positions[(who, c)] else Position(0, 0, 0, 0);
               var after := s'.positions[(who, c)];
               && after.deposited == before.deposited + amount
               && FitsI128(a.deposited + a.earned - a.losses + amount)
               && after.shares - before.shares == a'.totalShares - a.totalShares
                  == SharesToMint(amount, a.deposited + a.earned - a.losses + amount, a.totalShares)
               && after.earned == before.earned && after.losses == before.losses
  {
  }

  /** An accepted withdrawal takes the amount off the deposits and the liquid money of its class and
      off the position, and the same number of shares off both.  The difference between the amount
      and the cost of the burned shares goes on the gains of the position, or on its losses. */
  lemma WithdrawalBooks(s: State, s': State, who: Address, c: Class, amount: I128)
    requires WithdrawRefusal(s, who, c, amount).None? && s' == Apply(s, Withdraw(who, c, amount))
    ensures OnlyTouches(s, s', who, c)
    ensures (who, c) in s.positions && (who, c) in s'.positions && s.positions[(who, c)].shares != 0
    ensures var a, a' := ClassOf(s.pool, c), ClassOf(s'.pool, c);
            && a'.deposited == a.deposited - amount && a'.available == a.available - amount
            && a'.deployed == a.deployed && a'.earned == a.earned && a'.losses == a.losses
            && a.available >= amount && FitsI128(a.deposited + a.earned - a.losses)
            && a.totalShares - a'.totalShares == SharesToMint(amount, a.deposited + a.earned - a.losses, a.totalShares)
            && var before, after, burned := s.positions[(who, c)], s'.positions[(who, c)], a.totalShares - a'.totalShares;
               && after.deposited == before.deposited - amount >= 0
               && after.shares == before.shares - burned >= 0
               && var cost := TruncDiv(before.deposited * burned, before.shares);
                  && after.earned == before.earned + Max(0, amount - cost)
                  && after.losses == before.losses + Max(0, cost - amount)
  {
  }

  // ----- Which calls are accepted -----

  const ORDINARY := 0x4000_0000_0000_0000

  predicate OrdinaryClass(a: Accounting) {
    && 0 <= a.deposited <= ORDINARY && 0 <= a.earned <= ORDINARY && 0 <= a.losses <= a.deposited + a.earned
    && -ORDINARY <= a.available <= ORDINARY && 0 <= a.totalShares <= ORDINARY
  }

  /** Amounts of up to 62 bits, in a class that is not under water. */
  predicate Ordinary(s: State, who: Address, c: Class, amount: I128) {
    && s.pool.advanceRateBps <= BPS && amount <= ORDINARY
    && OrdinaryClass(s.pool.senior) && OrdinaryClass(s.pool.junior)
    && ((who, c) in s.positions ==>
          var p := s.positions[(who, c)];
          && 0 <= p.deposited <= ORDINARY && 0 <= p.shares <= ORDINARY
          && 0 <= p.earned <= ORDINARY && 0 <= p.losses <= ORDINARY)
  }

  /** The price of an ordinary amount, in plain integers. */
  lemma OrdinaryPrice(amount: I128, value: I128, shares: I128)
    requires 0 < amount <= ORDINARY && 0 <= value <= 4 * ORDINARY && 0 <= shares <= ORDINARY
    ensures 0 <= SharesToMint(amount, value, shares) <= ORDINARY * ORDINARY
    ensures SharesToMint(amount, value, shares) == if shares == 0 || value == 0 then amount else amount * shares / value
    ensures value >= amount ==> SharesToMint(amount, value, shares) <= ORDINARY
  {
    MulMonotone(0, shares, amount);
    MulMonotone(amount, ORDINARY, shares);
    MulMonotone(shares, ORDINARY, ORDINARY);
    if shares > 0 && value > 0 {
      SharesAreExact(amount, value, shares);
      DivAtMost(amount * shares, 1, ORDINARY * ORDINARY);
      MulMonotone(1, value, SharesToMint(amount, value, shares));
      if value >= amount {
        MulMonotone(amount, value, shares);
        DivAtMost(amount * shares, value, shares);
      }
    }
  }

  lemma OrdinaryPayment(a: Accounting, amount: I128)
    requires OrdinaryClass(a) && 0 < amount <= ORDINARY
    ensures PaidIn(a, amount).Some? && 0 <= PaidIn(a, amount).value.minted <= ORDINARY
    ensures PaidIn(a, amount).value.minted == 0 <==>
            a.totalShares > 0 && amount * a.totalShares < a.deposited + a.earned - a.losses + amount
  {
    var value := a.deposited + a.earned - a.losses + amount;
    OrdinaryPrice(amount, value, a.totalShares);
    MulMonotone(0, a.totalShares, amount);
    NoShareExactly(amount * a.totalShares, value);
  }

  lemma OrdinaryDepositIsBooked(s: State, who: Address, c: Class, amount: I128)
    requires Ordinary(s, who, c, amount) && amount > 0
    ensures var a := ClassOf(s.pool, c);
            Booked(s, who, c, amount).None? <==>
            s.pool.strictShares && a.totalShares > 0 && amount * a.totalShares < a.deposited + a.earned - a.losses + amount
  {
    OrdinaryPayment(ClassOf(s.pool, c), amount);
  }

  /** A senior deposit whose rate check leaves the signed range traps, whatever the amounts. */
  lemma RateOverflowsTrap(s: State, who: Address, amount: I128)
    requires amount > 0
    ensures var senior, total, bps := s.pool.senior.deposited, s.pool.junior.deposited + s.pool.senior.deposited, s.pool.advanceRateBps;
            (!FitsI128(total) || !FitsI128(total + amount) || !FitsI128(bps * (total + amount)) || !FitsI128(senior + amount)) ==>
              RefusalOf(s, Deposit(who, Senior, amount)) == Some(Trap)
  {
  }

  /** For ordinary amounts a deposit is refused for three reasons and no other: nothing is paid,
      senior capital would exceed its rate, or a strict token gets no share to mint. */
  lemma DepositsAreAcceptedExactly(s: State, who: Address, c: Class, amount: I128)
    requires Ordinary(s, who, c, amount)
    ensures var a, senior, total := ClassOf(s.pool, c), s.pool.senior.deposited, s.pool.junior.deposited + s.pool.senior.deposited;
            var value := a.deposited + a.earned - a.losses + amount;
            RefusalOf(s, Deposit(who, c, amount)) ==
              if amount <= 0 then Some(InvalidAmount)
              else if c == Senior && 10_000 * (senior + amount) > s.pool.advanceRateBps * (total + amount) then Some(AdvanceRateExceeded)
              else if s.pool.strictShares && a.totalShares > 0 && amount * a.totalShares < value then Some(Trap)
              else None
  {
    if amount > 0 {
      var total, bps := s.pool.junior.deposited + s.pool.senior.deposited, s.pool.advanceRateBps;
      RateCheckIsExact(bps, s.pool.senior.deposited + amount, total + amount);
      MulMonotone(bps, BPS, total + amount);
      MulMonotone(0, bps, total + amount);
      OrdinaryDepositIsBooked(s, who, c, amount);
    }
  }

  lemma NoShareExactly(x: int, value: int)
    requires x >= 0 && value > 0
    ensures x / value == 0 <==> x < value
  {
    DivParts(x, value);
    DivAtLeast(x, value, 0);
    if x >= value {
      DivAtLeast(x, value, 1);
    }
  }

  lemma OrdinaryWithdrawalIsBooked(s: State, who: Address, c: Class, amount: I128, burned: I128)
    requires Ordinary(s, who, c, amount) && 0 < amount <= PositionOf(s, who, c).deposited
    requires 0 <= burned <= PositionOf(s, who, c).shares
    ensures Unbooked(s, who, c, amount, burned).None? <==>
            burned == 0 && (PositionOf(s, who, c).shares == 0 || s.pool.strictShares)
  {
    var pos := PositionOf(s, who, c);
    if pos.shares > 0 {
      OrdinaryCost(pos.deposited, burned, pos.shares);
    }
  }

  lemma RefusalsAfterThePrice(s: State, who: Address, c: Class, amount: I128, burned: I128)
    requires Ordinary(s, who, c, amount) && 0 < amount <= PositionOf(s, who, c).deposited
    requires SharesToBurn(ClassOf(s.pool, c), amount) == Some(burned) && burned >= 0
    ensures var pos, available := PositionOf(s, who, c), ClassOf(s.pool, c).available;
            var senior, rest := s.pool.senior.deposited, s.pool.junior.deposited + s.pool.senior.deposited - amount;
            WithdrawRefusal(s, who, c, amount) ==
              if pos.shares < burned || available < amount then Some(InsufficientBalance)
              else if c == Junior && rest > 0 && 10_000 * senior > s.pool.advanceRateBps * rest then Some(AdvanceRateExceeded)
              else if burned == 0 && (pos.shares == 0 || s.pool.strictShares) then Some(Trap)
              else None
  {
    var bps, rest := s.pool.advanceRateBps, s.pool.junior.deposited + s.pool.senior.deposited - amount;
    if rest > 0 {
      RateCheckIsExact(bps, s.pool.senior.deposited, rest);
      MulMonotone(bps, BPS, rest);
      MulMonotone(0, bps, rest);
    }
    if burned <= PositionOf(s, who, c).shares {
      OrdinaryWithdrawalIsBooked(s, who, c, amount, burned);
    }
  }

  /** For ordinary amounts: the burned shares are the amount at the price before the withdrawal, and
      these are the reasons to refuse it, in this order. */
  lemma WithdrawalsAreAcceptedExactly(s: State, who: Address, c: Class, amount: I128)
    requires Ordinary(s, who, c, amount)
    ensures var a, pos := ClassOf(s.pool, c), if (who, c) in s.positions then s.positions[(who, c)] else Position(0, 0, 0, 0);
            var senior, rest := s.pool.senior.deposited, s.pool.junior.deposited + s.pool.senior.deposited - amount;
            var value := a.deposited + a.earned - a.losses;
            RefusalOf(s, Withdraw(who, c, amount)) ==
              if amount <= 0 then Some(InvalidAmount)
              else if pos.deposited < amount then Some(InsufficientBalance)
              else
                var burned := if a.totalShares == 0 || value == 0 then amount else amount * a.totalShares / value;
                if pos.shares < burned || a.available < amount then Some(InsufficientBalance)
                else if c == Junior && rest > 0 && 10_000 * senior > s.pool.advanceRateBps * rest then Some(AdvanceRateExceeded)
                else if burned == 0 && (pos.shares == 0 || s.pool.strictShares) then Some(Trap)
                else None
  {
    var pos, a := PositionOf(s, who, c), ClassOf(s.pool, c);
    if 0 < amount <= pos.deposited {
      OrdinaryPrice(amount, a.deposited + a.earned - a.losses, a.totalShares);
      RefusalsAfterThePrice(s, who, c, amount, SharesToBurn(a, amount).value);
    }
  }

  lemma OrdinaryCost(deposited: int, burned: int, shares: int)
    requires 0 <= deposited <= ORDINARY && 0 <= burned <= shares <= ORDINARY && shares > 0
    ensures 0 <= deposited * burned <= ORDINARY * ORDINARY && 0 <= TruncDiv(deposited * burned, shares) <= deposited
  {
    MulMonotone(0, deposited, burned);
    MulMonotone(burned, shares, deposited);
    MulMonotone(deposited, ORDINARY, shares);
    MulMonotone(shares, ORDINARY, ORDINARY);
    DivAtMost(deposited * burned, shares, deposited);
    DivAtLeast(deposited * burned, shares, 0);
  }

  /** The admin alone configures, within full parts, and reopens with two tokens that differ.
      The pool then has the new rate, and after reopening the new tokens; all else stays. */
  lemma ConfigurationIsTheAdmins(s: State, byAdmin: bool, config: Config, distinct: bool, strict: bool)
    ensures var valid := config.targetYieldBps <= 10_000 && config.advanceRateBps <= 10_000 && config.firstLossBps <= 10_000;
            && RefusalOf(s, SetConfig(byAdmin, config)) ==
                 (if !byAdmin then Some(Unauthorized) else if !valid then Some(InvalidAmount) else None)
            && RefusalOf(s, Reopen(byAdmin, config, distinct, strict)) ==
                 (if !byAdmin then Some(Unauthorized) else if !valid then Some(InvalidAmount)
                  else if !distinct then Some(InvalidShareTokens) else None)
            && (byAdmin && valid ==>
                  Apply(s, SetConfig(byAdmin, config)) ==
                  State(Pool(config.advanceRateBps, s.pool.strictShares, s.pool.senior, s.pool.junior), s.positions))
            && (byAdmin && valid && distinct ==>
                  Apply(s, Reopen(byAdmin, config, distinct, strict)) ==
                  State(Pool(config.advanceRateBps, strict, s.pool.senior, s.pool.junior), s.positions))
  {
  }

  /** Funding, repayment and default may leave any liquid, deployed, earned and lost amounts of both
      classes, but neither other deposits nor other shares nor other positions. */
  lemma ElsewhereIsAnything(s: State, senior: Accounting, junior: Accounting)
    ensures var kept := senior.deposited == s.pool.senior.deposited && senior.totalShares == s.pool.senior.totalShares
                        && junior.deposited == s.pool.junior.deposited && junior.totalShares == s.pool.junior.totalShares;
            Apply(s, Elsewhere(senior, junior)) ==
              if kept then State(Pool(s.pool.advanceRateBps, s.pool.strictShares, senior, junior), s.positions) else s
  {
  }

  // ----- Over runs -----

  /** What an accepted call pays into a class for an investor: in by a deposit, out by a withdrawal. */
  function PaidBy(s: State, call: Call, who: Address, c: Class): int {
    if RefusalOf(s, call).Some? then 0
    else
      match call
      case Deposit(w, tranche, amount) => if w == who && tranche == c then amount else 0
      case Withdraw(w, tranche, amount) => if w == who && tranche == c then -amount else 0
      case _ => 0
  }

  /** What an accepted call pays into a class, whoever calls. */
  function PaidInto(s: State, call: Call, c: Class): int {
    if call.Deposit? || call.Withdraw? then PaidBy(s, call, call.who, c) else 0
  }

  function TotalPaidBy(s: State, calls: seq<Call>, who: Address, c: Class): int
    decreases |calls|
  {
    if calls == [] then 0 else PaidBy(s, calls[0], who, c) + TotalPaidBy(Apply(s, calls[0]), calls[1..], who, c)
  }

  function TotalPaidInto(s: State, calls: seq<Call>, c: Class): int
    decreases |calls|
  {
    if calls == [] then 0 else PaidInto(s, calls[0], c) + TotalPaidInto(Apply(s, calls[0]), calls[1..], c)
  }

  function PrincipalOf(s: State, who: Address, c: Class): int {
    if (who, c) in s.positions then s.positions[(who, c)].deposited else 0
  }

  ghost predicate MovesMoney(s: State, s': State, call: Call, who: Address, c: Class) {
    && PrincipalOf(s', who, c) == PrincipalOf(s, who, c) + PaidBy(s, call, who, c)
    && ClassOf(s'.pool, c).deposited == ClassOf(s.pool, c).deposited + PaidInto(s, call, c)
    && (!call.Elsewhere? ==> ClassOf(s'.pool, c).available == ClassOf(s.pool, c).available + PaidInto(s, call, c))
  }

  lemma DepositMovesMoney(s: State, call: Call, who: Address, c: Class)
    requires call.Deposit? && RefusalOf(s, call).None?
    ensures MovesMoney(s, Apply(s, call), call, who, c)
  {
    DepositBooks(s, Apply(s, call), call.who, call.tranche, call.amount);
  }

  lemma WithdrawalMovesMoney(s: State, call: Call, who: Address, c: Class)
    requires call.Withdraw? && RefusalOf(s, call).None?
    ensures MovesMoney(s, Apply(s, call), call, who, c)
  {
    WithdrawalBooks(s, Apply(s, call), call.who, call.tranche, call.amount);
  }

  lemma CallMovesMoney(s: State, call: Call, who: Address, c: Class)
    ensures MovesMoney(s, Apply(s, call), call, who, c)
  {
    if RefusalOf(s, call).None? && call.Deposit? {
      DepositMovesMoney(s, call, who, c);
    } else if RefusalOf(s, call).None? && call.Withdraw? {
      WithdrawalMovesMoney(s, call, who, c);
    }
  }

  /** Over every run: what an investor and a class have deposited is what they had and what accepted
      calls paid in and out since. */
  lemma {:induction false} DepositsAreWhatWasPaid(s: State, calls: seq<Call>, who: Address, c: Class)
    ensures PrincipalOf(Run(s, calls), who, c) == PrincipalOf(s, who, c) + TotalPaidBy(s, calls, who, c)
    ensures ClassOf(Run(s, calls).pool, c).deposited == ClassOf(s.pool, c).deposited + TotalPaidInto(s, calls, c)
    decreases |calls|
  {
    if calls != [] {
      CallMovesMoney(s, calls[0], who, c);
      DepositsAreWhatWasPaid(Apply(s, calls[0]), calls[1..], who, c);
    }
  }

  /** The liquid money moves with the deposits; only funding, repayment and default set them apart. */
  lemma {:induction false} LiquidMoneyIsWhatWasPaid(s: State, calls: seq<Call>, c: Class)
    requires forall i :: 0 <= i < |calls| ==> !calls[i].Elsewhere?
    ensures ClassOf(Run(s, calls).pool, c).available == ClassOf(s.pool, c).available + TotalPaidInto(s, calls, c)
    ensures ClassOf(Run(s, calls).pool, c).available - ClassOf(Run(s, calls).pool, c).deposited ==
            ClassOf(s.pool, c).available - ClassOf(s.pool, c).deposited
    decreases |calls|
  {
    DepositsAreWhatWasPaid(s, calls, 0, c);
    if calls != [] {
      CallMovesMoney(s, calls[0], 0, c);
      LiquidMoneyIsWhatWasPaid(Apply(s, calls[0]), calls[1..], c);
    }
  }
}
