/** Waterfall, loss and share arithmetic of the tranche contract (contracts/tranche/src/math.rs)
    with its 128-bit casts and saturation, and the interest projection of frontend/lib/apy.ts. */
module TrancheMath {
  import opened Arithmetic
  import opened Collections

  const TWO_127 := 0x8000_0000_0000_0000_0000_0000_0000_0000
  const TWO_128 := 0x1_0000_0000_0000_0000_0000_0000_0000_0000
  const I128_MAX := TWO_127 - 1
  const U128_MAX := TWO_128 - 1
  const SECS_PER_DAY := 86_400
  const SECS_PER_YEAR := 365 * 24 * 60 * 60

  type I128 = x: int | -TWO_127 <= x < TWO_127
  type U128 = x: int | 0 <= x < TWO_128

  predicate FitsI128(x: int) { -TWO_127 <= x < TWO_127 }

  /** The `as` casts between the two types wrap. */
  function AsU128(x: I128): U128 { if x >= 0 then x else x + TWO_128 }
  function AsI128(x: U128): I128 { if x < TWO_127 then x else x - TWO_128 }

  function SaturatingMul(a: U128, b: U128): U128 {
    var p := a * b;
    if p <= U128_MAX then (assert a * b >= 0 by { MulMonotone(0, a, b); } p) else U128_MAX
  }

  // ----- Waterfall -----

  type Amounts = (int, int)

  function Interest(principal: I128, yieldBps: U128, elapsedSecs: U128): I128 {
    var scaled: U128 := SaturatingMul(SaturatingMul(AsU128(principal), yieldBps), elapsedSecs);
    AsI128(scaled / BPS / SECS_PER_YEAR)
  }

  /** Senior and junior shares of a repayment; None where the checked arithmetic traps. */
  function WaterfallSplit(totalDue: I128, principal: I128, yieldBps: U128, elapsedSecs: U128): Option<Amounts> {
    var cap := principal + Interest(principal, yieldBps, elapsedSecs);
    if !FitsI128(cap) then None
    else
      var senior := if totalDue >= cap then cap else totalDue;
      if !FitsI128(totalDue - senior) then None else Some((senior, totalDue - senior))
  }

  lemma SaturatingMulExact(a: U128, b: U128, c: U128)
    requires a * b * c <= U128_MAX && c > 0
    ensures SaturatingMul(SaturatingMul(a, b), c) == a * b * c
  {
    MulMonotone(0, a, b);
    assert a * b <= a * b * c by { MulMonotone(1, c, a * b); assert c * (a * b) == a * b * c; }
  }

  /** Below saturation the two floors of the contract are one floor of the exact interest. */
  lemma InterestIsExact(principal: I128, yieldBps: U128, elapsedSecs: U128)
    requires principal >= 0 && principal * yieldBps * elapsedSecs <= U128_MAX
    ensures Interest(principal, yieldBps, elapsedSecs) == principal * yieldBps * elapsedSecs / (BPS * SECS_PER_YEAR)
    ensures Interest(principal, yieldBps, elapsedSecs) >= 0
  {
    var x := principal * yieldBps * elapsedSecs;
    MulMonotone(0, principal, yieldBps);
    MulMonotone(0, principal * yieldBps, elapsedSecs);
    if elapsedSecs > 0 {
      SaturatingMulExact(principal, yieldBps, elapsedSecs);
    } else {
      assert x == 0;
      assert SaturatingMul(SaturatingMul(principal, yieldBps), 0) == 0;
    }
    DivOfDiv(x, BPS, SECS_PER_YEAR);
    DivAtMost(x, BPS * SECS_PER_YEAR, I128_MAX);
    DivAtLeast(x, BPS * SECS_PER_YEAR, 0);
  }

  /** The shares add up to the payment, junior is paid only once senior has its cap, both shares
      are monotone in the payment, and below saturation the cap is principal plus exact interest. */
  lemma WaterfallIsFair(due: I128, more: I128, principal: I128, yieldBps: U128, elapsedSecs: U128)
    requires due <= more
    requires WaterfallSplit(due, principal, yieldBps, elapsedSecs).Some?
    requires WaterfallSplit(more, principal, yieldBps, elapsedSecs).Some?
    ensures var cap := principal + Interest(principal, yieldBps, elapsedSecs);
            var (s, j), (s', j') := WaterfallSplit(due, principal, yieldBps, elapsedSecs).value,
                                    WaterfallSplit(more, principal, yieldBps, elapsedSecs).value;
            && s + j == due && s <= cap && j >= 0 && (j > 0 ==> s == cap)
            && s <= s' && j <= j'
    ensures principal >= 0 && principal * yieldBps * elapsedSecs <= U128_MAX ==>
              WaterfallSplit(due, principal, yieldBps, elapsedSecs).value.0
              == Min(due, principal + principal * yieldBps * elapsedSecs / (BPS * SECS_PER_YEAR))
  {
    if principal >= 0 && principal * yieldBps * elapsedSecs <= U128_MAX {
      InterestIsExact(principal, yieldBps, elapsedSecs);
    }
  }

  /** Saturating twice is saturating once. */
  lemma SaturatingTwice(a: U128, b: U128, c: U128)
    ensures SaturatingMul(SaturatingMul(a, b), c) == Min(a * b * c, U128_MAX)
  {
    var p := a * b;
    MulMonotone(0, a, b);
    if p > U128_MAX && c > 0 {
      MulMonotone(U128_MAX, p, c);
      MulMonotone(1, c, U128_MAX);
    } else if c == 0 {
      assert p * c == 0 && SaturatingMul(a, b) * c == 0;
    }
  }

  /** The interest over the whole range: one floor of the saturated product, where a negative
      principal is read as the unsigned amount it wraps to.  It never wraps itself. */
  lemma InterestOverTheWholeRange(principal: I128, yieldBps: U128, elapsedSecs: U128)
    ensures var p := if principal < 0 then principal + TWO_128 else principal;
            Interest(principal, yieldBps, elapsedSecs) == Min(p * yieldBps * elapsedSecs, U128_MAX) / (10_000 * 31_536_000)
  {
    SaturatingTwice(AsU128(principal), yieldBps, elapsedSecs);
    var x := SaturatingMul(SaturatingMul(AsU128(principal), yieldBps), elapsedSecs);
    DivOfDiv(x, BPS, SECS_PER_YEAR);
    DivAtMost(x, BPS * SECS_PER_YEAR, I128_MAX);
    DivAtLeast(x, BPS * SECS_PER_YEAR, 0);
  }

  /** The waterfall over the whole range: senior gets the payment up to its cap, junior the rest, and
      the answer is missing exactly where the cap or the rest leaves the signed range. */
  lemma WaterfallOverTheWholeRange(due: I128, principal: I128, yieldBps: U128, elapsedSecs: U128)
    ensures var p := if principal < 0 then principal + TWO_128 else principal;
            var cap := principal + Min(p * yieldBps * elapsedSecs, U128_MAX) / (10_000 * 31_536_000);
            WaterfallSplit(due, principal, yieldBps, elapsedSecs) ==
              if cap >= TWO_127 || due - cap >= TWO_127 then None else Some((Min(due, cap), Max(0, due - cap)))
  {
    InterestOverTheWholeRange(principal, yieldBps, elapsedSecs);
    InterestIsNotNegative(principal, yieldBps, elapsedSecs);
  }

  lemma InterestIsNotNegative(principal: I128, yieldBps: U128, elapsedSecs: U128)
    ensures Interest(principal, yieldBps, elapsedSecs) >= 0
  {
    var x := SaturatingMul(SaturatingMul(AsU128(principal), yieldBps), elapsedSecs);
    DivOfDiv(x, BPS, SECS_PER_YEAR);
    DivAtMost(x, BPS * SECS_PER_YEAR, I128_MAX);
  }

  /** For amounts below saturation: the two shares in plain integers.  The answer is missing exactly
      when principal and interest leave the signed range. */
  lemma WaterfallIsExact(due: I128, principal: I128, yieldBps: U128, elapsedSecs: U128)
    requires due >= 0 && principal >= 0 && principal * yieldBps * elapsedSecs <= U128_MAX
    ensures var cap := principal + principal * yieldBps * elapsedSecs / (BPS * SECS_PER_YEAR);
            WaterfallSplit(due, principal, yieldBps, elapsedSecs) ==
              if cap > I128_MAX then None else Some((Min(due, cap), Max(0, due - cap)))
  {
    InterestIsExact(principal, yieldBps, elapsedSecs);
  }

  // ----- Projection -----

  /** Interest on a principal over whole days, in one floor. */
  function ProjectedInterest(principal: int, yieldBps: int, lockDays: int): int {
    if principal <= 0 || lockDays <= 0 || yieldBps <= 0 then 0
    else principal * yieldBps * (lockDays * SECS_PER_DAY) / (BPS * SECS_PER_YEAR)
  }

  /** Nothing is projected without a principal, a yield and a period; otherwise the floor of the
      exact interest. */
  lemma ProjectionIsOneFloor(principal: int, yieldBps: int, days: int)
    ensures var q := ProjectedInterest(principal, yieldBps, days);
            if principal <= 0 || yieldBps <= 0 || days <= 0 then q == 0
            else
              var scaled := principal * yieldBps * (days * 86_400);
              0 <= q && q * (10_000 * 31_536_000) <= scaled < (q + 1) * (10_000 * 31_536_000)
  {
    if principal > 0 && yieldBps > 0 && days > 0 {
      var x := principal * yieldBps * (days * SECS_PER_DAY);
      MulMonotone(0, principal, yieldBps);
      MulMonotone(0, principal * yieldBps, days * SECS_PER_DAY);
      DivParts(x, BPS * SECS_PER_YEAR);
      DivAtLeast(x, BPS * SECS_PER_YEAR, 0);
    }
  }

  /** The frontend projects what the contract accrues. */
  lemma ProjectionMatchesAccrual(principal: I128, yieldBps: U128, days: nat)
    requires principal >= 0 && days * SECS_PER_DAY <= U128_MAX
    requires principal * yieldBps * (days * SECS_PER_DAY) <= U128_MAX
    ensures ProjectedInterest(principal, yieldBps, days) == Interest(principal, yieldBps, days * SECS_PER_DAY)
  {
    InterestIsExact(principal, yieldBps, days * SECS_PER_DAY);
    if principal == 0 || yieldBps == 0 || days == 0 {
      assert principal * yieldBps * (days * SECS_PER_DAY) == 0;
    }
  }

  /** Splitting a period never projects more, and loses at most one unit. */
  lemma ProjectionIsSuperadditive(principal: int, yieldBps: int, d1: nat, d2: nat)
    ensures var split := ProjectedInterest(principal, yieldBps, d1) + ProjectedInterest(principal, yieldBps, d2);
            split <= ProjectedInterest(principal, yieldBps, d1 + d2) <= split + 1
  {
    if principal > 0 && yieldBps > 0 {
      var r := principal * yieldBps;
      MulMonotone(0, principal, yieldBps);
      var x, y := r * (d1 * SECS_PER_DAY), r * (d2 * SECS_PER_DAY);
      assert r * ((d1 + d2) * SECS_PER_DAY) == x + y;
      DivOfSum(x, y, BPS * SECS_PER_YEAR);
    }
  }

  // ----- Losses -----

  function JuniorLimit(juniorRemaining: I128, firstLossBps: U128): I128 {
    AsI128(SaturatingMul(AsU128(juniorRemaining), firstLossBps) / BPS)
  }

  /** Junior and senior shares of a shortfall; None where the checked subtraction traps. */
  function LossAllocation(shortfall: I128, juniorRemaining: I128, firstLossBps: U128): Option<Amounts> {
    var limit := JuniorLimit(juniorRemaining, firstLossBps);
    if shortfall <= limit then Some((shortfall, 0))
    else if !FitsI128(shortfall - limit) then None
    else Some((limit, shortfall - limit))
  }

  /** For every input there is an answer: junior bears the shortfall up to its limit and senior
      exactly what exceeds it.  The limit is the configured part of what junior has left, saturated
      and never negative, and not more than junior has below saturation. */
  lemma LossesHitJuniorFirst(shortfall: I128, juniorRemaining: I128, firstLossBps: U128)
    ensures var remaining := if juniorRemaining < 0 then juniorRemaining + TWO_128 else juniorRemaining;
            var limit := Min(remaining * firstLossBps, U128_MAX) / 10_000;
            && limit >= 0 && JuniorLimit(juniorRemaining, firstLossBps) == limit
            && LossAllocation(shortfall, juniorRemaining, firstLossBps) ==
                 Some((Min(shortfall, limit), Max(0, shortfall - limit)))
    ensures juniorRemaining >= 0 && firstLossBps <= BPS && juniorRemaining * firstLossBps <= U128_MAX ==>
              && JuniorLimit(juniorRemaining, firstLossBps) == juniorRemaining * firstLossBps / BPS
              && 0 <= juniorRemaining * firstLossBps / BPS <= juniorRemaining
  {
    var x := SaturatingMul(AsU128(juniorRemaining), firstLossBps);
    DivAtMost(x, BPS, I128_MAX);
    DivAtLeast(x, BPS, 0);
    if juniorRemaining >= 0 && firstLossBps <= BPS && juniorRemaining * firstLossBps <= U128_MAX {
      MulMonotone(0, juniorRemaining, firstLossBps);
      assert x <= juniorRemaining * BPS by { MulMonotone(firstLossBps, BPS, juniorRemaining); }
      DivAtMost(x, BPS, juniorRemaining);
    }
  }

  /** For amounts below saturation: the two shares of a loss in plain integers, and neither falls
      when the loss grows. */
  lemma LossSharesRise(less: I128, more: I128, juniorRemaining: I128, firstLossBps: U128)
    requires 0 <= less <= more && juniorRemaining >= 0 && firstLossBps <= BPS
    requires juniorRemaining * firstLossBps <= U128_MAX
    ensures var limit := juniorRemaining * firstLossBps / BPS;
            && LossAllocation(less, juniorRemaining, firstLossBps) == Some((Min(less, limit), Max(0, less - limit)))
            && LossAllocation(more, juniorRemaining, firstLossBps) == Some((Min(more, limit), Max(0, more - limit)))
            && Min(less, limit) <= Min(more, limit) && Max(0, less - limit) <= Max(0, more - limit)
            && Min(less, limit) + Max(0, less - limit) == less
  {
    LossesHitJuniorFirst(less, juniorRemaining, firstLossBps);
    LossesHitJuniorFirst(more, juniorRemaining, firstLossBps);
  }

  // ----- Shares -----

  function SharesToMint(amount: I128, poolValue: I128, totalShares: I128): I128 {
    if totalShares == 0 || poolValue <= 0 then amount
    else AsI128(SaturatingMul(AsU128(amount), AsU128(totalShares)) / poolValue)
  }

  /** The quotient does not fit the signed type that the final cast goes to. */
  predicate MintWraps(amount: int, poolValue: int, totalShares: int) {
    poolValue == 1 && amount * totalShares > I128_MAX
  }

  /** The price over the whole range: the floor of the saturated product, except that the cast
      wraps into a negative amount exactly when the pool is worth one unit and the product leaves
      the signed range. */
  lemma MintCases(amount: I128, poolValue: I128, totalShares: I128)
    requires amount > 0 && poolValue > 0 && totalShares > 0
    ensures SharesToMint(amount, poolValue, totalShares) < 0 <==> MintWraps(amount, poolValue, totalShares)
    ensures !MintWraps(amount, poolValue, totalShares) ==>
              SharesToMint(amount, poolValue, totalShares) == Min(amount * totalShares, U128_MAX) / poolValue
  {
    var p := Min(amount * totalShares, U128_MAX);
    MulMonotone(0, amount, totalShares);
    DivAtLeast(p, poolValue, 0);
    if poolValue >= 2 {
      MulMonotone(2, poolValue, TWO_127);
      DivAtMost(p, poolValue, I128_MAX);
    }
  }

  /** The price for any number of shares, also one that a wrapped mint made negative: that is read as
      the unsigned number it wraps to, and the quotient wraps when it leaves the signed range. */
  lemma MintOverTheWholeRange(amount: I128, poolValue: I128, totalShares: I128)
    requires amount > 0 && poolValue > 0 && totalShares != 0
    ensures var shares := if totalShares < 0 then totalShares + TWO_128 else totalShares;
            var q := Min(amount * shares, U128_MAX) / poolValue;
            && SharesToMint(amount, poolValue, totalShares) == (if q < TWO_127 then q else q - TWO_128)
            && (poolValue >= 2 ==> 0 <= q < TWO_127)
  {
    var p := Min(amount * AsU128(totalShares), U128_MAX);
    MulMonotone(0, amount, AsU128(totalShares));
    DivAtLeast(p, poolValue, 0);
    if poolValue >= 2 {
      MulMonotone(2, poolValue, TWO_127);
      DivAtMost(p, poolValue, I128_MAX);
    }
  }

  /** While the product fits, shares are priced by one exact floor. */
  lemma SharesAreExact(amount: I128, poolValue: I128, totalShares: I128)
    requires amount > 0 && poolValue > 0 && totalShares > 0
    requires amount * totalShares <= U128_MAX && !MintWraps(amount, poolValue, totalShares)
    ensures SharesToMint(amount, poolValue, totalShares) == amount * totalShares / poolValue
    ensures var m := SharesToMint(amount, poolValue, totalShares);
            0 <= m && m * poolValue <= amount * totalShares < m * poolValue + poolValue
  {
    MintCases(amount, poolValue, totalShares);
    DivParts(amount * totalShares, poolValue);
  }

  /** Without shares, or for a pool that is worth nothing, a unit buys one share. */
  lemma MintWithoutPrice(amount: I128, poolValue: I128, totalShares: I128)
    requires totalShares == 0 || poolValue <= 0
    ensures SharesToMint(amount, poolValue, totalShares) == amount
  {
  }
}
