/** The tranche pool as an object whose fields are its storage entries
    (contracts/tranche/src/deposit.rs, contracts/tranche/src/withdraw.rs). */
module TrancheContract {
  import opened Arithmetic
  import opened Collections
  import opened TrancheMath
  import opened TranchePool

  class Contract {
    var strictShares: bool
    var advanceRateBps: nat
    var senior: Accounting
    var junior: Accounting
    var positions: map<(Address, Class), Position>

    ghost function Storage(): State
      reads this
    {
      State(Pool(advanceRateBps, strictShares, senior, junior), positions)
    }

    constructor (bps: nat, strict: bool)
      ensures Storage() == Opened(bps, strict)
    {
      strictShares := strict;
      advanceRateBps, senior, junior, positions := bps, NoAccounting, NoAccounting, map[];
    }

    method CheckAdvanceRate(amount: I128) returns (refusal: Option<Error>)
      requires amount > 0
      ensures var total := junior.deposited + senior.deposited;
              refusal ==
                if !FitsI128(total) || !FitsI128(total + amount) || !FitsI128(advanceRateBps * (total + amount))
                   || !FitsI128(senior.deposited + amount) then Some(Trap)
                else if RateExceeded(advanceRateBps, senior.deposited + amount, total + amount) then Some(AdvanceRateExceeded)
                else None
    {
      var total := junior.deposited + senior.deposited;
      if !FitsI128(total) || !FitsI128(total + amount) || !FitsI128(advanceRateBps * (total + amount)) {
        return Some(Trap);
      }
      var seniorTarget := TruncDiv(advanceRateBps * (total + amount), BPS);
      if !FitsI128(senior.deposited + amount) {
        return Some(Trap);
      }
      return if senior.deposited + amount > seniorTarget then Some(AdvanceRateExceeded) else None;
    }

    /** The accounting of a class after a payment, with the shares it buys. */
    static method PayIn(accounting: Accounting, amount: I128) returns (paid: Option<Paid>)
      ensures paid == PaidIn(accounting, amount)
    {
      var a := accounting;
      if !FitsI128(a.deposited + amount) || !FitsI128(a.available + amount) {
        return None;
      }
      a := a.(deposited := a.deposited + amount, available := a.available + amount);
      if !FitsI128(a.deposited + a.earned) || !FitsI128(Value(a)) {
        return None;
      }
      var sharesToMint := SharesToMint(amount, Value(a), a.totalShares);
      if !FitsI128(a.totalShares + sharesToMint) {
        return None;
      }
      return Some(Paid(a.(totalShares := a.totalShares + sharesToMint), sharesToMint));
    }

    /** Stores a class and a position. */
    method Save(who: Address, c: Class, accounting: Accounting, position: Position)
      modifies this
      ensures var s := old(Storage());
              Storage() == State(With(s.pool, c, accounting), s.positions[(who, c) := position])
    {
      if c == Senior {
        senior := accounting;
      } else {
        junior := accounting;
      }
      positions := positions[(who, c) := position];
    }

    /** Books the deposit and its shares. */
    method Book(who: Address, c: Class, amount: I128) returns (booked: bool)
      modifies this
      ensures var after := Booked(old(Storage()), who, c, amount);
              booked == after.Some? && Storage() == if booked then after.value else old(Storage())
    {
      var position := if (who, c) in positions then positions[(who, c)] else NoPosition;
      var paid := PayIn(if c == Senior then senior else junior, amount);
      if paid.None? || !FitsI128(position.deposited + amount) || !FitsI128(position.shares + paid.value.minted) {
        return false;
      }
      if strictShares && paid.value.minted <= 0 {
        return false;
      }
      position := position.(deposited := position.deposited + amount, shares := position.shares + paid.value.minted);
      Save(who, c, paid.value.accounting, position);
      return true;
    }

    method Deposit(who: Address, c: Class, amount: I128) returns (r: Outcome)
      modifies this
      ensures Storage() == Apply(old(Storage()), Call.Deposit(who, c, amount))
      ensures var refusal := DepositRefusal(old(Storage()), who, c, amount);
              r == if refusal.Some? then Rejected(refusal.value) else Accepted
    {
      if amount <= 0 {
        return Rejected(InvalidAmount);
      }
      if c == Senior {
        var refusal := CheckAdvanceRate(amount);
        if refusal.Some? {
          return Rejected(refusal.value);
        }
      }
      var booked := Book(who, c, amount);
      return if booked then Accepted else Rejected(Trap);
    }

    /** Realizes the cost basis of the burned shares and books the withdrawal. */
    method Unbook(who: Address, c: Class, amount: I128, sharesToBurn: I128) returns (booked: bool)
      modifies this
      ensures var after := Unbooked(old(Storage()), who, c, amount, sharesToBurn);
              booked == after.Some? && Storage() == if booked then after.value else old(Storage())
    {
      var position := if (who, c) in positions then positions[(who, c)] else NoPosition;
      var a := if c == Senior then senior else junior;
      if !FitsI128(a.available - amount) || !FitsI128(a.deposited - amount) || !FitsI128(a.totalShares - sharesToBurn) {
        return false;
      }
      a := a.(available := a.available - amount, deposited := a.deposited - amount,
              totalShares := a.totalShares - sharesToBurn);
      if position.shares == 0 || !FitsI128(position.deposited * sharesToBurn)
         || !FitsI128(TruncDiv(position.deposited * sharesToBurn, position.shares)) {
        return false;
      }
      var costBasis := TruncDiv(position.deposited * sharesToBurn, position.shares);
      var pnl := amount - costBasis;
      if !FitsI128(pnl) {
        return false;
      }
      if pnl >= 0 {
        if !FitsI128(position.earned + pnl) {
          return false;
        }
        position := position.(earned := position.earned + pnl);
      } else {
        if !FitsI128(position.losses - pnl) {
          return false;
        }
        position := position.(losses := position.losses - pnl);
      }
      if !FitsI128(position.shares - sharesToBurn) || !FitsI128(position.deposited - amount) {
        return false;
      }
      if strictShares && sharesToBurn <= 0 {
        return false;
      }
      position := position.(shares := position.shares - sharesToBurn, deposited := position.deposited - amount);
      Save(who, c, a, position);
      return true;
    }

    method Withdraw(who: Address, c: Class, amount: I128) returns (r: Outcome)
      modifies this
      ensures Storage() == Apply(old(Storage()), Call.Withdraw(who, c, amount))
      ensures var refusal := WithdrawRefusal(old(Storage()), who, c, amount);
              r == if refusal.Some? then Rejected(refusal.value) else Accepted
    {
      if amount <= 0 {
        return Rejected(InvalidAmount);
      }
      var position := if (who, c) in positions then positions[(who, c)] else NoPosition;
      if position.deposited < amount {
        return Rejected(InsufficientBalance);
      }
      var a := if c == Senior then senior else junior;
      if !FitsI128(a.deposited + a.earned) || !FitsI128(Value(a)) {
        return Rejected(Trap);
      }
      var sharesToBurn := SharesToMint(amount, Value(a), a.totalShares);
      if position.shares < sharesToBurn || a.available < amount {
        return Rejected(InsufficientBalance);
      }
      if !FitsI128(a.deposited - amount) || !FitsI128(a.totalShares - sharesToBurn) {
        return Rejected(Trap);
      }
      if c == Junior {
        var total := junior.deposited + senior.deposited - amount;
        if !FitsI128(total) || (total > 0 && !FitsI128(advanceRateBps * total)) {
          return Rejected(Trap);
        }
        if total > 0 && senior.deposited > TruncDiv(advanceRateBps * total, BPS) {
          return Rejected(AdvanceRateExceeded);
        }
      }
      var booked := Unbook(who, c, amount, sharesToBurn);
      return if booked then Accepted else Rejected(Trap);
    }

    method ValidateConfig(config: Config) returns (valid: bool)
      ensures valid <==> ConfigRefusal(true, config).None?
    {
      return !(config.targetYieldBps > BPS || config.advanceRateBps > BPS || config.firstLossBps > BPS);
    }

    method SetTrancheConfig(byAdmin: bool, config: Config) returns (r: Outcome)
      modifies this
      ensures Storage() == Apply(old(Storage()), SetConfig(byAdmin, config))
      ensures var refusal := ConfigRefusal(byAdmin, config);
              r == if refusal.Some? then Rejected(refusal.value) else Accepted
    {
      if !byAdmin {
        return Rejected(Unauthorized);
      }
      var valid := ValidateConfig(config);
      if !valid {
        return Rejected(InvalidAmount);
      }
      advanceRateBps := config.advanceRateBps;
      return Accepted;
    }

    /** Opening a tranche for a token that has a pool already. */
    method OpenTrancheAgain(byAdmin: bool, config: Config, distinctTokens: bool, strict: bool) returns (r: Outcome)
      modifies this
      ensures Storage() == Apply(old(Storage()), Reopen(byAdmin, config, distinctTokens, strict))
      ensures var refusal := ReopenRefusal(byAdmin, config, distinctTokens);
              r == if refusal.Some? then Rejected(refusal.value) else Accepted
    {
      if !byAdmin {
        return Rejected(Unauthorized);
      }
      var valid := ValidateConfig(config);
      if !valid {
        return Rejected(InvalidAmount);
      }
      if !distinctTokens {
        return Rejected(InvalidShareTokens);
      }
      strictShares := strict;
      advanceRateBps := config.advanceRateBps;
      return Accepted;
    }
  }
}
