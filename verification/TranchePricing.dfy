/** What the price of a share means for those who pay in and those who leave
    (contracts/tranche/src/deposit.rs, contracts/tranche/src/withdraw.rs). */
module TranchePricing {
  import opened Arithmetic
  import opened Collections
  import opened TrancheMath
  import opened TranchePool

  // ----- One deposit, one withdrawal -----

  /** Shares are priced against the pool value after the deposit.  A deposit therefore never
      lowers the value behind an existing share, but when shares exist the depositor's claim is
      always worth strictly less than what was paid in. */
  lemma DepositsPriceAgainstTheDepositor(s: State, who: Address, c: Class, amount: I128)
    requires DepositRefusal(s, who, c, amount).None?
    requires Value(Of(s.pool, c)) >= 0 && Of(s.pool, c).totalShares > 0
    ensures var a, a' := Of(s.pool, c), Of(Booked(s, who, c, amount).value.pool, c);
            var minted := a'.totalShares - a.totalShares;
            && 0 <= minted <= a.totalShares && Value(a') == Value(a) + amount
            && Value(a') * a.totalShares >= Value(a) * a'.totalShares
            && minted * Value(a') < amount * a'.totalShares
  {
    var a := Of(s.pool, c);
    var v, n := Value(a), a.totalShares;
    DepositMovesTotals(s, who, c, amount);
    MintBounds(v, n, amount);
    DilutionArithmetic(v, n, amount, SharesToMint(amount, v + amount, n));
  }

  /** From a value that is not negative, a deposit never mints more than doubles the shares, so
      the cast cannot wrap, and saturation only lowers the price. */
  lemma MintBounds(v: nat, n: I128, amount: I128)
    requires amount > 0 && n > 0 && FitsI128(v + amount)
    ensures !MintWraps(amount, v + amount, n)
    ensures var m := SharesToMint(amount, v + amount, n);
            0 <= m <= n && m * (v + amount) <= amount * n
  {
    var p := Min(amount * n, U128_MAX);
    MulMonotone(0, n, amount);
    MulMonotone(amount, v + amount, n);
    assert amount * n <= n * (v + amount) < n * (v + amount) + (v + amount);
    DivAtMost(p, v + amount, n);
    DivAtLeast(p, v + amount, 0);
    DivParts(p, v + amount);
    MintCases(amount, v + amount, n);
  }

  lemma DilutionArithmetic(v: nat, n: int, amount: int, minted: nat)
    requires amount > 0 && n > 0 && minted * (v + amount) <= amount * n
    ensures (v + amount) * n >= v * (n + minted)
    ensures minted * (v + amount) < amount * (n + minted)
  {
    MulMonotone(0, minted, amount);
    assert minted * (v + amount) == minted * v + minted * amount;
    assert v * (n + minted) == v * n + minted * v;
    assert (v + amount) * n == v * n + amount * n;
    assert amount * (n + minted) == amount * n + amount * minted;
    if minted > 0 {
      MulStrict(0, minted, amount);
    } else {
      MulStrict(0, n, amount);
    }
  }

  /** The price of a withdrawal is the exact floor: neither saturation nor the cast changes it. */
  predicate PricedExactly(amount: int, value: int, shares: int)
    requires value > 0
  {
    amount * shares / value <= I128_MAX && amount * shares / value == Min(amount * shares, U128_MAX) / value
  }

  /** A withdrawal is priced in favour of the investor who leaves: it never raises the value per
      remaining share.  What it takes too much is less than the value of one share exactly when
      the price is the exact floor. */
  lemma WithdrawalsPriceForTheLeaver(s: State, who: Address, c: Class, amount: I128)
    requires WithdrawRefusal(s, who, c, amount).None?
    requires Value(Of(s.pool, c)) > 0 && Of(s.pool, c).totalShares > 0
    ensures var a, a' := Of(s.pool, c), Of(Apply(s, Withdraw(who, c, amount)).pool, c);
            var excess := Value(a) * a'.totalShares - Value(a') * a.totalShares;
            && Value(a') == Value(a) - amount
            && excess >= 0
            && (excess < Value(a) <==> PricedExactly(amount, Value(a), a.totalShares))
  {
    var a := Of(s.pool, c);
    WithdrawalMovesTotals(s, who, c, amount);
    BurnIsTheFloor(amount, Value(a), a.totalShares);
    ExcessArithmetic(Value(a), a.totalShares, amount, SharesToMint(amount, Value(a), a.totalShares));
  }

  lemma WithdrawalMovesTotals(s: State, who: Address, c: Class, amount: I128)
    requires WithdrawRefusal(s, who, c, amount).None?
    ensures var a, a' := Of(s.pool, c), Of(Apply(s, Withdraw(who, c, amount)).pool, c);
            && Value(a') == Value(a) - amount
            && FitsI128(Value(a)) && a'.totalShares == a.totalShares - SharesToMint(amount, Value(a), a.totalShares)
  {
  }

  lemma ExcessArithmetic(v: int, n: int, amount: int, burned: int)
    ensures v * (n - burned) - (v - amount) * n == amount * n - burned * v
  {
    assert v * (n - burned) == v * n - burned * v;
    assert (v - amount) * n == v * n - amount * n;
  }

  lemma BurnIsTheFloor(amount: I128, v: I128, n: I128)
    requires amount > 0 && v > 0 && n > 0
    ensures var excess := amount * n - SharesToMint(amount, v, n) * v;
            excess >= 0 && (excess < v <==> PricedExactly(amount, v, n))
  {
    var burned := SharesToMint(amount, v, n);
    var p := Min(amount * n, U128_MAX);
    MulMonotone(0, amount, n);
    MintCases(amount, v, n);
    DivParts(p, v);
    if MintWraps(amount, v, n) {
      MulMonotone(burned, 0, v);
    } else if 0 <= amount * n - burned * v < v {
      DivUnique(amount * n, v, burned);
    } else if PricedExactly(amount, v, n) {
      DivParts(amount * n, v);
    }
  }

  // ----- Leaving whole -----

  /** Read before the deposit: paying `amount` into a class with `n` shares that is then worth
      `value` buys fewer shares than taking `amount` out again burns. */
  predicate BuysTooLittle(value: int, n: int, amount: int) {
    value > 0 &&
    if n == 0 then Min(amount * amount, U128_MAX) >= (amount + 1) * value
    else
      var p := Min(amount * n, U128_MAX);
      p % value + Min(amount * (p / value), U128_MAX - p) >= value
  }

  /** No price of the deposit or of taking it out again wraps; at any other value than one none can. */
  predicate PricesFit(value: int, n: int, amount: int) {
    value == 1 ==> amount * (n + SharesMinted(value, n, amount)) <= I128_MAX
  }

  /** The shares that a deposit buys, in plain integers. */
  function SharesMinted(value: int, n: int, amount: int): int {
    if n == 0 || value <= 0 then amount else Min(amount * n, U128_MAX) / value
  }

  function SharesBurned(value: int, n: int, amount: int): int {
    SharesMinted(value, n + SharesMinted(value, n, amount), amount)
  }

  lemma MintIsThePlan(value: I128, n: I128, amount: I128)
    requires n >= 0 && amount > 0 && !MintWraps(amount, value, n)
    ensures SharesToMint(amount, value, n) == SharesMinted(value, n, amount) >= 0
  {
    if n > 0 && value > 0 {
      MintCases(amount, value, n);
    }
  }

  lemma PlansAreNonNegative(value: int, n: nat, amount: int)
    requires amount > 0
    ensures SharesMinted(value, n, amount) >= 0
  {
    if n > 0 && value > 0 {
      MulMonotone(0, n, amount);
      DivAtLeast(Min(amount * n, U128_MAX), value, 0);
    }
  }

  lemma NeitherWraps(value: int, n: nat, m: nat, amount: int)
    requires amount > 0 && (value == 1 ==> amount * (n + m) <= I128_MAX)
    ensures !MintWraps(amount, value, n) && !MintWraps(amount, value, n + m)
  {
    MulMonotone(n, n + m, amount);
    assert amount * n == n * amount && amount * (n + m) == (n + m) * amount;
  }

  /** Both prices are what plain integers make them. */
  lemma MintedAsPlanned(value: I128, n: I128, amount: I128, m: int)
    requires n >= 0 && amount > 0 && m == SharesMinted(value, n, amount) && PricesFit(value, n, amount)
    ensures m >= 0 && SharesToMint(amount, value, n) == m
    ensures FitsI128(n + m) ==> SharesToMint(amount, value, n + m) == SharesMinted(value, n + m, amount) >= 0
  {
    PlansAreNonNegative(value, n, amount);
    NeitherWraps(value, n, m, amount);
    MintIsThePlan(value, n, amount);
    if FitsI128(n + m) {
      MintIsThePlan(value, n + m, amount);
    }
  }

  /** The guard says exactly that leaving burns more shares than the deposit bought. */
  lemma BuysTooLittleIsExact(value: int, n: nat, amount: int)
    requires amount > 0
    ensures BuysTooLittle(value, n, amount) <==> SharesBurned(value, n, amount) > SharesMinted(value, n, amount)
    ensures n > 0 && value > 0 ==> SharesBurned(value, n, amount) >= SharesMinted(value, n, amount)
  {
    var m := SharesMinted(value, n, amount);
    if value > 0 {
      var p := if n == 0 then 0 else Min(amount * n, U128_MAX);
      MulMonotone(0, n, amount);
      if n > 0 {
        DivParts(p, value);
        DivAtLeast(p, value, 0);
      }
      MulMonotone(0, m, amount);
      assert amount * (n + m) == amount * n + amount * m;
      var q := Min(amount * (n + m), U128_MAX);
      assert n > 0 ==> q == p + Min(amount * m, U128_MAX - p);
      assert (m + 1) * value == m * value + value;
      Exceeds(q, value, m);
      if n > 0 {
        DivMonotone(p, q, value);
      }
    }
  }

  lemma Exceeds(x: int, b: int, m: int)
    requires b > 0
    ensures x / b > m <==> x >= (m + 1) * b
  {
    if x >= (m + 1) * b {
      DivAtLeast(x, b, m + 1);
    } else {
      assert (m + 1) * b == m * b + b;
      DivAtMost(x, b, m);
    }
  }

  /** Below saturation, with shares in existence, the guard needs nothing but the remainder and the
      quotient of the price. */
  lemma BuysTooLittleBelowSaturation(value: int, n: int, amount: int)
    requires value > 0 && n > 0 && amount > 0 && amount * n + amount * (amount * n / value) <= U128_MAX
    ensures BuysTooLittle(value, n, amount) <==> amount * n % value + amount * (amount * n / value) >= value
  {
    MulMonotone(0, n, amount);
    DivAtLeast(amount * n, value, 0);
    MulMonotone(0, amount * n / value, amount);
  }

  /** Booking an exit with `minted` shares that burns `burned` traps. */
  predicate ExitTraps(p: Pool, amount: int, minted: int, burned: int) {
    minted == 0 || !FitsI128(amount * burned) || !TokenAccepts(p, burned) || !FitsI128(minted - burned) ||
    var costBasis := TruncDiv(amount * burned, minted);
    !FitsI128(costBasis) || !FitsI128(amount - costBasis) || !FitsI128(if costBasis > amount then costBasis - amount else 0)
  }

  /** The answer to a new depositor who takes the deposit out again at once, told from the pool
      before the deposit, the shares it buys and the shares that leaving burns.  None means that the
      depositor leaves whole. */
  function LeavingAnswer(p: Pool, c: Class, amount: int, tooLittle: bool, traps: bool): Option<Error> {
    var total := p.junior.deposited + p.senior.deposited;
    if tooLittle || Of(p, c).available < 0 then Some(InsufficientBalance)
    else if c == Junior && (!FitsI128(total) || (total > 0 && !FitsI128(p.advanceRateBps * total))) then Some(Trap)
    else if c == Junior && total > 0 && RateExceeded(p.advanceRateBps, p.senior.deposited, total) then
      Some(AdvanceRateExceeded)
    else if traps then Some(Trap)
    else None
  }

  /** The state that a new depositor's deposit leaves, and what leaving then burns. */
  lemma NewDepositor(s: State, who: Address, c: Class, amount: I128, m: int)
    requires DepositRefusal(s, who, c, amount).None? && PositionOf(s, who, c) == NoPosition
    requires FitsI128(Value(Of(s.pool, c)) + amount) ==>
               m == SharesToMint(amount, Value(Of(s.pool, c)) + amount, Of(s.pool, c).totalShares)
    ensures var a, s' := Of(s.pool, c), Booked(s, who, c, amount).value;
            && FitsI128(Value(a) + amount) && FitsI128(a.totalShares + m) && FitsI128(m)
            && FitsI128(a.deposited + amount) && FitsI128(a.available + amount)
            && PositionOf(s', who, c) == Position(amount, m, 0, 0)
            && s'.pool == With(s.pool, c, a.(deposited := a.deposited + amount, available := a.available + amount,
                                             totalShares := a.totalShares + m))
            && SharesToBurn(Of(s'.pool, c), amount) == Some(SharesToMint(amount, Value(a) + amount, a.totalShares + m))
  {
  }

  lemma ExitBooked(s: State, who: Address, c: Class, amount: I128, m: I128, burned: I128)
    requires amount > 0 && PositionOf(s, who, c) == Position(amount, m, 0, 0)
    requires var a := Of(s.pool, c);
             a.available >= amount && FitsI128(a.deposited - amount) && FitsI128(a.totalShares - burned)
    ensures Unbooked(s, who, c, amount, burned).None? <==> ExitTraps(s.pool, amount, m, burned)
  {
  }

  lemma ExitRefusal(s: State, who: Address, c: Class, amount: I128, m: I128, burned: I128)
    requires amount > 0 && PositionOf(s, who, c) == Position(amount, m, 0, 0)
    requires SharesToBurn(Of(s.pool, c), amount) == Some(burned) && FitsI128(Of(s.pool, c).deposited - amount)
    ensures var total := s.pool.junior.deposited + s.pool.senior.deposited - amount;
            WithdrawRefusal(s, who, c, amount) ==
              if burned > m || Of(s.pool, c).available < amount then Some(InsufficientBalance)
              else if !FitsI128(Of(s.pool, c).totalShares - burned) then Some(Trap)
              else if c == Junior && (!FitsI128(total) || (total > 0 && !FitsI128(s.pool.advanceRateBps * total))) then Some(Trap)
              else if c == Junior && total > 0 && RateExceeded(s.pool.advanceRateBps, s.pool.senior.deposited, total) then
                Some(AdvanceRateExceeded)
              else if ExitTraps(s.pool, amount, m, burned) then Some(Trap)
              else None
  {
    if burned <= m && Of(s.pool, c).available >= amount && FitsI128(Of(s.pool, c).totalShares - burned) {
      ExitBooked(s, who, c, amount, m, burned);
    }
  }

  /** From the state that the deposit leaves to the answer of the exit. */
  lemma ExitFromDeposit(p: Pool, s': State, who: Address, c: Class, amount: I128, m: I128, burned: I128)
    requires amount > 0
    requires PositionOf(s', who, c) == Position(amount, m, 0, 0) && SharesToBurn(Of(s'.pool, c), amount) == Some(burned)
    requires var a := Of(p, c);
             && FitsI128(a.deposited + amount) && FitsI128(a.available + amount) && FitsI128(a.totalShares + m)
             && s'.pool == With(p, c, a.(deposited := a.deposited + amount, available := a.available + amount,
                                         totalShares := a.totalShares + m))
    ensures WithdrawRefusal(s', who, c, amount) ==
              if burned <= m && Of(p, c).available >= 0 && !FitsI128(Of(p, c).totalShares + m - burned) then Some(Trap)
              else LeavingAnswer(p, c, amount, burned > m, ExitTraps(p, amount, m, burned))
  {
    ExitRefusal(s', who, c, amount, m, burned);
    assert s'.pool.junior.deposited + s'.pool.senior.deposited - amount == p.junior.deposited + p.senior.deposited;
    assert ExitTraps(s'.pool, amount, m, burned) == ExitTraps(p, amount, m, burned);
  }

  /** For every pool, within its rate or not, and every price, wrapped or not: what the contract
      answers a new depositor who takes the deposit out again follows from the pool before the
      deposit and the two prices, which are prices of that pool. */
  lemma LeavingIsToldBefore(s: State, who: Address, c: Class, amount: I128, minted: I128, burned: I128)
    requires DepositRefusal(s, who, c, amount).None? && PositionOf(s, who, c) == NoPosition
    requires var a := Of(s.pool, c);
             && FitsI128(Value(a) + amount) && minted == SharesToMint(amount, Value(a) + amount, a.totalShares)
             && FitsI128(a.totalShares + minted) && burned == SharesToMint(amount, Value(a) + amount, a.totalShares + minted)
    ensures WithdrawRefusal(Apply(s, Deposit(who, c, amount)), who, c, amount) ==
              if burned <= minted && Of(s.pool, c).available >= 0 && !FitsI128(Of(s.pool, c).totalShares + minted - burned) then
                Some(Trap)
              else LeavingAnswer(s.pool, c, amount, burned > minted, ExitTraps(s.pool, amount, minted, burned))
  {
    NewDepositor(s, who, c, amount, minted);
    ExitFromDeposit(s.pool, Booked(s, who, c, amount).value, who, c, amount, minted, burned);
  }

  /** An exit that burns no more than was minted traps only without shares, on an overflowing cost
      basis or when the token refuses the burn. */
  lemma OrdinaryExitTraps(p: Pool, amount: I128, m: I128, burned: I128)
    requires amount > 0 && 0 <= burned <= m
    ensures ExitTraps(p, amount, m, burned) <==> m == 0 || amount * burned > I128_MAX || !TokenAccepts(p, burned)
  {
    MulMonotone(0, burned, amount);
    if m > 0 {
      MulMonotone(burned, m, amount);
      DivAtMost(amount * burned, m, amount);
      DivAtLeast(amount * burned, m, 0);
    }
  }

  /** Whether a new depositor can take the whole deposit out again at once, where no price wraps:
      by remainder and quotient of the price.  None means yes. */
  function LeavingRefusal(p: Pool, c: Class, amount: int): Option<Error> {
    var value, n := Value(Of(p, c)) + amount, Of(p, c).totalShares;
    var minted, burned := SharesMinted(value, n, amount), SharesBurned(value, n, amount);
    LeavingAnswer(p, c, amount, BuysTooLittle(value, n, amount),
                  minted == 0 || amount * burned > I128_MAX || !TokenAccepts(p, burned))
  }

  /** Who can leave whole: what the contract answers a new depositor who takes the deposit out again
      is told exactly by the pool before the deposit, where the guard and the shares are plain
      integer arithmetic as long as no price wraps.  A deposit that buys no share is its own case: it
      does not buy too little, it is trapped. */
  lemma LeavingWholeIsDecidedBefore(s: State, who: Address, c: Class, amount: I128)
    requires DepositRefusal(s, who, c, amount).None? && PositionOf(s, who, c) == NoPosition
    requires Of(s.pool, c).totalShares >= 0 && PricesFit(Value(Of(s.pool, c)) + amount, Of(s.pool, c).totalShares, amount)
    ensures WithdrawRefusal(Apply(s, Deposit(who, c, amount)), who, c, amount) == LeavingRefusal(s.pool, c, amount)
  {
    var a := Of(s.pool, c);
    DepositedValueFits(s, who, c, amount);
    var value, n := Value(a) + amount, a.totalShares;
    var m, burned := SharesMinted(value, n, amount), SharesBurned(value, n, amount);
    MintedAsPlanned(value, n, amount, m);
    NewDepositor(s, who, c, amount, m);
    BuysTooLittleIsExact(value, n, amount);
    LeavingIsToldBefore(s, who, c, amount, m, burned);
    AnswersAgree(s.pool, c, amount, m, burned, BuysTooLittle(value, n, amount));
  }

  lemma DepositedValueFits(s: State, who: Address, c: Class, amount: I128)
    requires DepositRefusal(s, who, c, amount).None?
    ensures FitsI128(Value(Of(s.pool, c)) + amount)
  {
  }

  lemma AnswersAgree(p: Pool, c: Class, amount: I128, m: I128, burned: I128, tooLittle: bool)
    requires amount > 0 && m >= 0 && burned >= 0 && (tooLittle <==> burned > m)
    ensures LeavingAnswer(p, c, amount, burned > m, ExitTraps(p, amount, m, burned)) ==
            LeavingAnswer(p, c, amount, tooLittle, m == 0 || amount * burned > I128_MAX || !TokenAccepts(p, burned))
  {
    if burned <= m {
      OrdinaryExitTraps(p, amount, m, burned);
    }
  }

  /** Into a class whose value is not negative no price wraps. */
  lemma OrdinaryPricesFit(v: nat, n: nat, amount: int)
    requires amount > 0 && FitsI128(n + SharesMinted(v + amount, n, amount))
    ensures PricesFit(v + amount, n, amount)
  {
  }

  /** So it is in every class whose value is not negative. */
  lemma LeavingFromOrdinaryClass(s: State, who: Address, c: Class, amount: I128)
    requires DepositRefusal(s, who, c, amount).None? && PositionOf(s, who, c) == NoPosition
    requires Of(s.pool, c).totalShares >= 0 && Value(Of(s.pool, c)) >= 0
    ensures WithdrawRefusal(Apply(s, Deposit(who, c, amount)), who, c, amount) == LeavingRefusal(s.pool, c, amount)
  {
    var a := Of(s.pool, c);
    DepositedValueFits(s, who, c, amount);
    MintedFits(s, who, c, amount);
    if a.totalShares > 0 {
      MintBounds(Value(a), a.totalShares, amount);
    }
    MintIsThePlan(Value(a) + amount, a.totalShares, amount);
    OrdinaryPricesFit(Value(a), a.totalShares, amount);
    LeavingWholeIsDecidedBefore(s, who, c, amount);
  }

  lemma MintedFits(s: State, who: Address, c: Class, amount: I128)
    requires DepositRefusal(s, who, c, amount).None? && FitsI128(Value(Of(s.pool, c)) + amount)
    ensures FitsI128(Of(s.pool, c).totalShares + SharesToMint(amount, Value(Of(s.pool, c)) + amount, Of(s.pool, c).totalShares))
  {
  }

  lemma NoShareIsBought(value: int, n: int, amount: int)
    requires n > 0 && amount > 0 && amount * n < value <= I128_MAX
    ensures SharesMinted(value, n, amount) == 0 && !BuysTooLittle(value, n, amount) && PricesFit(value, n, amount)
  {
    MulMonotone(1, n, amount);
    DivUnique(amount * n, value, 0);
    DivParts(amount * n, value);
  }

  /** A deposit worth less than one share buys none and cannot be taken out again: the withdrawal
      divides by the shares of the position. */
  lemma ZeroSharesAreTrapped(s: State, who: Address, c: Class, amount: I128)
    requires DepositRefusal(s, who, c, amount).None? && PositionOf(s, who, c) == NoPosition
    requires Of(s.pool, c).totalShares > 0 && amount * Of(s.pool, c).totalShares < Value(Of(s.pool, c)) + amount
    ensures var s' := Apply(s, Deposit(who, c, amount));
            && PositionOf(s', who, c) == Position(amount, 0, 0, 0)
            && WithdrawRefusal(s', who, c, amount) == LeavingAnswer(s.pool, c, amount, false, true)
            && (Of(s.pool, c).available >= 0 && (c == Senior || Inv(s)) ==>
                  WithdrawRefusal(s', who, c, amount) == Some(Trap))
  {
    var value, n := Value(Of(s.pool, c)) + amount, Of(s.pool, c).totalShares;
    DepositedValueFits(s, who, c, amount);
    NoShareIsBought(value, n, amount);
    MintedAsPlanned(value, n, amount, 0);
    NewDepositor(s, who, c, amount, 0);
    LeavingWholeIsDecidedBefore(s, who, c, amount);
    if Inv(s) {
      ClassDepositsAreNonNegative(s, Senior);
      ClassDepositsAreNonNegative(s, Junior);
      RateCheckIsExact(s.pool.advanceRateBps, s.pool.senior.deposited, s.pool.junior.deposited + s.pool.senior.deposited);
    }
  }

  // ----- Two equal deposits -----

  lemma FirstPayment(a: Accounting, x: I128)
    requires a == NoAccounting && x > 0
    ensures PaidIn(a, x) == Some(Paid(Accounting(x, x, 0, 0, 0, x), x))
  {
    assert Value(a) + x == x;
    assert SharesToMint(x, Value(a) + x, 0) == x;
  }

  /** A junior deposit is booked as it is paid in. */
  lemma JuniorDeposit(s: State, who: Address, x: I128, paid: Paid)
    requires x > 0 && PaidIn(s.pool.junior, x) == Some(paid) && TokenAccepts(s.pool, paid.minted)
    requires (who, Junior) !in s.positions
    ensures DepositRefusal(s, who, Junior, x).None?
    ensures Apply(s, Deposit(who, Junior, x)) ==
            State(s.pool.(junior := paid.accounting), s.positions[(who, Junior) := Position(x, paid.minted, 0, 0)])
  {
    assert Booked(s, who, Junior, x).Some?;
    assert DepositRefusal(s, who, Junior, x).None?;
  }

  lemma FirstDeposit(s: State, bps: nat, strict: bool, who: Address, x: I128)
    requires s == Opened(bps, strict) && x > 0
    ensures var one := Apply(s, Deposit(who, Junior, x));
            && one.positions == map[(who, Junior) := Position(x, x, 0, 0)]
            && one.pool == Pool(bps, strict, NoAccounting, Accounting(x, x, 0, 0, 0, x))
  {
    FirstPayment(s.pool.junior, x);
    JuniorDeposit(s, who, x, Paid(Accounting(x, x, 0, 0, 0, x), x));
  }

  const TWO_64 := 0x1_0000_0000_0000_0000

  lemma HalfOfSquare(x: int)
    requires x > 0
    ensures x * x / (2 * x) == x / 2
    ensures x * x % (2 * x) == if x % 2 == 0 then 0 else x
  {
    var h := x / 2;
    assert h * (2 * x) == (2 * h) * x;
    assert (2 * h + 1) * x == h * (2 * x) + x;
    DivUnique(x * x, 2 * x, h);
    DivParts(x * x, 2 * x);
  }

  lemma SquareFits(x: int)
    requires 0 < x < TWO_64
    ensures x * x + 2 * x <= U128_MAX
  {
    MulMonotone(x + 1, TWO_64, x + 1);
    MulMonotone(x + 1, TWO_64, TWO_64);
    assert (x + 1) * (x + 1) == x * x + 2 * x + 1;
  }

  /** Quotient and remainder of the price decide. */
  lemma BuysTooLittleByParts(value: int, n: int, amount: int, p: int, h: int, r: int)
    requires value > 0 && n > 0 && p == Min(amount * n, U128_MAX) && p / value == h && p % value == r
    ensures SharesMinted(value, n, amount) == h
    ensures BuysTooLittle(value, n, amount) <==> r + Min(amount * h, U128_MAX - p) >= value
  {
  }

  lemma TimesHalf(x: int, h: int, k: int)
    requires x > 0
    ensures x * h >= k * x <==> h >= k
  {
    if h >= k {
      MulMonotone(k, h, x);
    } else {
      MulStrict(h, k, x);
    }
  }

  /** What the two parities leave of the condition. */
  lemma ParityDecides(x: int, h: int, q: int, room: int)
    requires x > 0 && h == x / 2 && room >= 2 * x
    requires (q >= 2 * x <==> h >= 2) && (q >= x <==> h >= 1)
    ensures (if x % 2 == 0 then 0 else x) + Min(q, room) >= 2 * x <==> x >= 3
  {
  }

  lemma SmallEqualDeposits(x: int)
    requires 0 < x < TWO_64
    ensures BuysTooLittle(2 * x, x, x) <==> x >= 3
    ensures SharesMinted(2 * x, x, x) == x / 2
  {
    var p, h := x * x, x / 2;
    SquareFits(x);
    HalfOfSquare(x);
    TimesHalf(x, h, 2);
    TimesHalf(x, h, 1);
    BuysTooLittleByParts(2 * x, x, x, p, h, if x % 2 == 0 then 0 else x);
    ParityDecides(x, h, x * h, U128_MAX - p);
  }

  lemma HugeEqualDeposits(x: int)
    requires TWO_64 <= x && 2 * x <= I128_MAX
    ensures !BuysTooLittle(2 * x, x, x)
    ensures SharesMinted(2 * x, x, x) == SharesBurned(2 * x, x, x) > 0
    ensures x * SharesBurned(2 * x, x, x) <= I128_MAX
  {
    MulMonotone(TWO_64, x, TWO_64);
    MulMonotone(TWO_64, x, x);
    var m := U128_MAX / (2 * x);
    DivAtLeast(U128_MAX, 2 * x, 1);
    DivParts(U128_MAX, 2 * x);
    MulMonotone(0, m, x);
    assert x * (x + m) == x * x + x * m;
    assert m * (2 * x) == 2 * (x * m);
  }

  /** What decides the answer to the second of two equal investors, for every amount. */
  lemma EqualDeposits(x: int)
    requires 0 < x && 2 * x <= I128_MAX
    ensures BuysTooLittle(2 * x, x, x) <==> 3 <= x < TWO_64
    ensures x == 1 <==> SharesMinted(2 * x, x, x) == 0
    ensures x == 2 || x >= TWO_64 ==> SharesBurned(2 * x, x, x) > 0 && x * SharesBurned(2 * x, x, x) <= I128_MAX
  {
    if x < TWO_64 {
      SmallEqualDeposits(x);
      assert SharesMinted(4, 2, 2) == SharesBurned(4, 2, 2) == 1;
    } else {
      HugeEqualDeposits(x);
    }
  }

  /** What the second of two equal investors is told, for every amount. */
  function EqualRefusal(bps: nat, x: int): Option<Error> {
    if 3 <= x < TWO_64 then Some(InsufficientBalance)
    else if x == 1 || bps * x > I128_MAX then Some(Trap)
    else None
  }

  lemma SecondOfTwoEquals(p: Pool, x: I128)
    requires 0 < x && 2 * x <= I128_MAX
    requires p.senior == NoAccounting && p.junior == Accounting(x, x, 0, 0, 0, x)
    ensures LeavingRefusal(p, Junior, x) == EqualRefusal(p.advanceRateBps, x)
  {
    EqualDeposits(x);
    AnswerToEqual(p, x, BuysTooLittle(2 * x, x, x), SharesMinted(2 * x, x, x), SharesBurned(2 * x, x, x));
  }

  lemma AnswerToEqual(p: Pool, x: I128, tooLittle: bool, minted: int, burned: int)
    requires 0 < x && p.senior == NoAccounting && p.junior == Accounting(x, x, 0, 0, 0, x)
    requires tooLittle <==> 3 <= x < TWO_64
    requires x == 1 <==> minted == 0
    requires x == 2 || x >= TWO_64 ==> burned > 0 && x * burned <= I128_MAX
    ensures LeavingAnswer(p, Junior, x, tooLittle, minted == 0 || x * burned > I128_MAX || !TokenAccepts(p, burned)) ==
            EqualRefusal(p.advanceRateBps, x)
  {
    MulMonotone(0, p.advanceRateBps, x);
    DivAtLeast(p.advanceRateBps * x, BPS, 0);
  }

  lemma EqualMint(x: I128)
    requires 0 < x && 2 * x <= I128_MAX
    ensures 0 <= SharesToMint(x, 2 * x, x) <= x && (x > 1 ==> SharesToMint(x, 2 * x, x) > 0)
    ensures x < TWO_64 ==> SharesToMint(x, 2 * x, x) == x / 2
  {
    MintBounds(x, x, x);
    MintIsThePlan(2 * x, x, x);
    EqualDeposits(x);
    if x < TWO_64 {
      SmallEqualDeposits(x);
    }
  }

  /** The second of two equal deposits is accepted, unless it buys no share and the token minds. */
  lemma SecondIsAccepted(one: State, second: Address, x: I128)
    requires one.pool.junior == Accounting(x, x, 0, 0, 0, x) && 0 < x && 2 * x <= I128_MAX
    requires (second, Junior) !in one.positions && (one.pool.strictShares ==> x > 1)
    ensures DepositRefusal(one, second, Junior, x).None?
    ensures x < TWO_64 ==> PositionOf(Apply(one, Deposit(second, Junior, x)), second, Junior) == Position(x, x / 2, 0, 0)
  {
    var minted := SharesToMint(x, 2 * x, x);
    EqualMint(x);
    EqualPayment(one.pool.junior, x, minted);
    JuniorDeposit(one, second, x, Paid(Accounting(2 * x, 2 * x, 0, 0, 0, x + minted), minted));
  }

  lemma EqualPayment(a: Accounting, x: I128, minted: I128)
    requires a == Accounting(x, x, 0, 0, 0, x) && 0 < x && 2 * x <= I128_MAX
    requires minted == SharesToMint(x, 2 * x, x) && 0 <= minted <= x
    ensures PaidIn(a, x) == Some(Paid(Accounting(2 * x, 2 * x, 0, 0, 0, x + minted), minted))
  {
    assert Value(a) + x == 2 * x;
  }

  lemma SecondLeaves(one: State, second: Address, x: I128)
    requires one.pool.senior == NoAccounting && one.pool.junior == Accounting(x, x, 0, 0, 0, x)
    requires 0 < x && 2 * x <= I128_MAX && PositionOf(one, second, Junior) == NoPosition
    requires DepositRefusal(one, second, Junior, x).None?
    ensures WithdrawRefusal(Apply(one, Deposit(second, Junior, x)), second, Junior, x) == EqualRefusal(one.pool.advanceRateBps, x)
  {
    SecondOfTwoEquals(one.pool, x);
    OtherPricesFit(Value(one.pool.junior) + x, x, x);
    LeavingWholeIsDecidedBefore(one, second, Junior, x);
  }

  lemma OtherPricesFit(value: int, n: int, amount: int)
    requires value != 1
    ensures PricesFit(value, n, amount)
  {
  }

  /** Two equal deposits do not buy equal claims.  Into a fresh pool the second of two equal
      investors gets half the shares of the first as long as the square of the amount fits, and
      can take the deposit out again exactly when it is two units or its square no longer fits. */
  lemma SecondDepositorCannotLeaveWhole(start: State, bps: nat, strict: bool, first: Address, second: Address, x: I128)
    requires start == Opened(bps, strict) && first != second && 0 < x && 2 * x <= I128_MAX
    requires strict ==> x > 1
    ensures DepositRefusal(Apply(start, Deposit(first, Junior, x)), second, Junior, x).None?
    ensures var two := Apply(Apply(start, Deposit(first, Junior, x)), Deposit(second, Junior, x));
            && (x < TWO_64 ==> PositionOf(two, second, Junior) == Position(x, x / 2, 0, 0))
            && WithdrawRefusal(two, second, Junior, x) == EqualRefusal(bps, x)
  {
    FirstDeposit(start, bps, strict, first, x);
    SecondIsAccepted(Apply(start, Deposit(first, Junior, x)), second, x);
    SecondLeaves(Apply(start, Deposit(first, Junior, x)), second, x);
  }

  // ----- The wrapped mint -----

  /** At a price of one unit a product that saturates buys minus one share. */
  lemma WrappedDeposit(s: State, who: Address, n: I128, x: I128)
    requires n > 0 && x > 0 && x * n > U128_MAX && FitsI128(n + x)
    requires s.pool == Pool(BPS, false, NoAccounting, Accounting(n, n, 0, 0, n + x - 1, n))
    requires (who, Junior) !in s.positions
    ensures WrapsMint(s, Deposit(who, Junior, x))
    ensures PositionOf(Apply(s, Deposit(who, Junior, x)), who, Junior) == Position(x, -1, 0, 0)
  {
    assert Value(s.pool.junior) + x == 1;
    assert SharesToMint(x, 1, n) == -1;
  }

  /** The pool of the first depositor after losses. */
  lemma LossesElsewhere(s: State, first: Address, n: I128, junior: Accounting)
    requires s.positions == map[(first, Junior) := Position(n, n, 0, 0)]
    requires s.pool == Pool(BPS, false, NoAccounting, Accounting(n, n, 0, 0, 0, n))
    requires junior.deposited == n == junior.totalShares
    ensures Apply(s, Elsewhere(NoAccounting, junior)) == State(Pool(BPS, false, NoAccounting, junior), s.positions)
  {
  }

  /** A mint can wrap: when losses leave a class one unit short of a deposit whose product with the
      shares saturates, as 2^28 does with 2^100 shares, a token that takes any amount books minus
      one share for that deposit. */
  lemma WrappedMintTakesAShare(start: State, first: Address, second: Address, n: I128, x: I128)
    requires start == Opened(BPS, false) && first != second
    requires n > 0 && x > 0 && x * n > U128_MAX && FitsI128(n + x)
    ensures var one := Apply(start, Deposit(first, Junior, n));
            var hit := Apply(one, Elsewhere(NoAccounting, Accounting(n, n, 0, 0, n + x - 1, n)));
            && WrapsMint(hit, Deposit(second, Junior, x))
            && PositionOf(Apply(hit, Deposit(second, Junior, x)), second, Junior) == Position(x, -1, 0, 0)
  {
    var one := Apply(start, Deposit(first, Junior, n));
    FirstDeposit(start, BPS, false, first, n);
    LossesElsewhere(one, first, n, Accounting(n, n, 0, 0, n + x - 1, n));
    WrappedDeposit(State(Pool(BPS, false, NoAccounting, Accounting(n, n, 0, 0, n + x - 1, n)), one.positions), second, n, x);
  }
}
