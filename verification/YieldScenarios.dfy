/** Scenario modelling and the breakeven search of frontend/lib/apy.ts.  Fractions are exact
    reals; amounts are integers, floored where the source floors. */
module YieldScenarios {
  import opened Arithmetic
  import opened Collections
  import opened TrancheMath

  const PRECISION := 1_000_000
  const SEARCH_STEPS := 1_000

  /** The factor at six decimals, rounded half up. */
  function Scaled(factor: real): int { (factor * PRECISION as real + 0.5).Floor }

  function MultiplyByFactor(value: int, factor: real): int {
    if factor <= 0.0 then 0
    else if factor >= 1.0 then value
    else TruncDiv(value * Scaled(factor), PRECISION)
  }

  function Unit(x: real): real { if x < 0.0 then 0.0 else if x > 1.0 then 1.0 else x }

  datatype Inputs = Inputs(principal: int, yieldBps: int, lockDays: int, recovery: real)

  function GrossYield(i: Inputs, utilization: real): int {
    MultiplyByFactor(ProjectedInterest(i.principal, i.yieldBps, i.lockDays), Unit(utilization))
  }

  function DefaultLoss(i: Inputs, utilization: real, defaultRate: real): int {
    var deployed := MultiplyByFactor(i.principal, Unit(utilization));
    var rawLoss := MultiplyByFactor(deployed, Unit(defaultRate));
    if rawLoss > 0 then MultiplyByFactor(rawLoss, 1.0 - Unit(i.recovery)) else 0
  }

  function NetReturn(i: Inputs, utilization: real, defaultRate: real): int {
    GrossYield(i, utilization) - DefaultLoss(i, utilization, defaultRate)
  }

  lemma ScaledInRange(f: real, g: real)
    requires 0.0 < f <= g < 1.0
    ensures 0 <= Scaled(f) <= Scaled(g) <= PRECISION
  {
  }

  /** A part of an amount is at most the amount, and grows with the factor. */
  lemma PartsGrow(value: nat, f: real, g: real)
    requires f <= g
    ensures 0 <= MultiplyByFactor(value, f) <= MultiplyByFactor(value, g) <= value
  {
    if 0.0 < f < 1.0 {
      ScaledInRange(f, f);
      ScaledPart(value, Scaled(f), Scaled(f));
    }
    if 0.0 < g < 1.0 {
      ScaledInRange(g, g);
      ScaledPart(value, Scaled(g), Scaled(g));
    }
    if 0.0 < f && g < 1.0 {
      ScaledInRange(f, g);
      ScaledPart(value, Scaled(f), Scaled(g));
    }
  }

  lemma ScaledPart(value: nat, a: nat, b: nat)
    requires a <= b <= PRECISION
    ensures 0 <= TruncDiv(value * a, PRECISION) <= TruncDiv(value * b, PRECISION) <= value
  {
    MulMonotone(0, a, value);
    MulMonotone(a, b, value);
    MulMonotone(b, PRECISION, value);
    DivAtLeast(value * a, PRECISION, 0);
    DivMonotone(value * a, value * b, PRECISION);
    DivAtMost(value * b, PRECISION, value);
  }

  lemma ProjectedInterestIsNonNegative(i: Inputs)
    ensures ProjectedInterest(i.principal, i.yieldBps, i.lockDays) >= 0
  {
    if i.principal > 0 && i.yieldBps > 0 && i.lockDays > 0 {
      MulMonotone(0, i.principal, i.yieldBps);
      MulMonotone(0, i.principal * i.yieldBps, i.lockDays * SECS_PER_DAY);
      DivAtLeast(i.principal * i.yieldBps * (i.lockDays * SECS_PER_DAY), Arithmetic.BPS * SECS_PER_YEAR, 0);
    }
  }

  lemma LossIsBounded(i: Inputs, utilization: real, defaultRate: real)
    requires i.principal >= 0
    ensures 0 <= DefaultLoss(i, utilization, defaultRate) <= i.principal
  {
    var deployed := MultiplyByFactor(i.principal, Unit(utilization));
    PartsGrow(i.principal, Unit(utilization), Unit(utilization));
    var rawLoss := MultiplyByFactor(deployed, Unit(defaultRate));
    PartsGrow(deployed, Unit(defaultRate), Unit(defaultRate));
    PartsGrow(rawLoss, 1.0 - Unit(i.recovery), 1.0 - Unit(i.recovery));
  }

  /** The best case, with more utilization and no defaults, is never below any other case, and no
      case loses more than the principal or earns more than the full interest. */
  lemma BestCaseIsBest(i: Inputs, utilization: real, lower: real, defaultRate: real)
    requires i.principal >= 0 && lower <= utilization
    ensures NetReturn(i, lower, defaultRate) <= NetReturn(i, utilization, 0.0)
    ensures -i.principal <= NetReturn(i, lower, defaultRate) <= ProjectedInterest(i.principal, i.yieldBps, i.lockDays)
  {
    ProjectedInterestIsNonNegative(i);
    PartsGrow(ProjectedInterest(i.principal, i.yieldBps, i.lockDays), Unit(lower), Unit(utilization));
    LossIsBounded(i, lower, defaultRate);
    assert DefaultLoss(i, utilization, 0.0) == 0;
  }

  // ----- How far the figures are from the exact ones -----

  /** Within `e` of the exact figure. */
  predicate Near(x: int, exact: real, e: real) { exact - e <= x as real <= exact + e }

  /** One multiplication loses at most one unit and half a millionth of the amount. */
  function Slack(value: int): real { 1.0 + value as real / 2_000_000.0 }

  lemma ScaledIsNear(f: real)
    requires 0.0 < f < 1.0
    ensures 0 <= Scaled(f) <= PRECISION
    ensures 1_000_000.0 * f - 0.5 <= Scaled(f) as real <= 1_000_000.0 * f + 0.5
  {
  }

  lemma ProductIsNear(value: nat, f: real, n: int)
    requires 1_000_000.0 * f - 0.5 <= n as real <= 1_000_000.0 * f + 0.5
    ensures value as real * (1_000_000.0 * f - 0.5) <= (value * n) as real <= value as real * (1_000_000.0 * f + 0.5)
  {
    var v := value as real;
    assert (value * n) as real == v * n as real;
    RealMulMonotone(1_000_000.0 * f - 0.5, n as real, v);
    RealMulMonotone(n as real, 1_000_000.0 * f + 0.5, v);
  }

  lemma RealMulMonotone(a: real, b: real, c: real)
    requires a <= b && c >= 0.0
    ensures c * a <= c * b
  {
    assert 0.0 <= c * (b - a);
  }

  lemma QuotientIsNear(x: nat)
    ensures x as real / 1_000_000.0 - 1.0 < TruncDiv(x, PRECISION) as real <= x as real / 1_000_000.0
  {
    DivParts(x, PRECISION);
  }

  /** A part of an amount is the product, up to the slack; factors outside the unit range give
      nothing or all of it, and the sign of the amount carries over. */
  lemma PartIsNear(value: nat, f: real)
    ensures f <= 0.0 ==> MultiplyByFactor(value, f) == 0
    ensures f >= 1.0 ==> MultiplyByFactor(value, f) == value
    ensures 0.0 <= f <= 1.0 ==> Near(MultiplyByFactor(value, f), value as real * f, Slack(value))
    ensures MultiplyByFactor(0 - value, f) == -MultiplyByFactor(value, f)
  {
    if 0.0 < f < 1.0 {
      ScaledIsNear(f);
      ProductIsNear(value, f, Scaled(f));
      MulMonotone(0, Scaled(f), value);
      QuotientIsNear(value * Scaled(f));
      var x := value as real * f;
      assert value as real * (1_000_000.0 * f - 0.5) == 1_000_000.0 * x - 0.5 * value as real;
      assert value as real * (1_000_000.0 * f + 0.5) == 1_000_000.0 * x + 0.5 * value as real;
    }
  }

  lemma NonNegativeProduct(a: real, b: real)
    requires a >= 0.0 && b >= 0.0
    ensures a * b >= 0.0
  {
  }

  lemma SumTimes(a: real, b: real, f: real)
    ensures (a + b) * f == a * f + b * f && (a - b) * f == a * f - b * f
  {
  }

  /** A part of a gap is no wider than the gap. */
  lemma PartOfGap(gap: real, e: real, f: real)
    requires -e <= gap <= e && 0.0 <= f <= 1.0
    ensures -e <= gap * f <= e
  {
    NonNegativeProduct(e - gap, f);
    NonNegativeProduct(e + gap, f);
    NonNegativeProduct(e, 1.0 - f);
    SumTimes(e, gap, f);
    SumTimes(1.0, f, e);
  }

  lemma NearPart(x: real, exact: real, e: real, f: real)
    requires exact - e <= x <= exact + e && 0.0 <= f <= 1.0 && e >= 0.0
    ensures exact * f - e <= x * f <= exact * f + e
  {
    PartOfGap(x - exact, e, f);
    SumTimes(x, exact, f);
  }

  /** A figure near a part of one that is near an exact one is near the part of the exact one. */
  lemma PartsStayNear(m: int, x: int, exact: real, e: real, f: real, part: real, slack: real)
    requires Near(x, exact, e) && 0.0 <= f <= 1.0 && e >= 0.0 && part == exact * f
    requires Near(m, x as real * f, slack)
    ensures Near(m, part, e + slack)
  {
    NearPart(x as real, exact, e, f);
  }

  /** The amounts that a loss goes through, each a part of the one before. */
  lemma LossSteps(i: Inputs, u: real, d: real) returns (deployed: nat, defaulted: nat, loss: nat)
    requires i.principal >= 0 && 0.0 <= u <= 1.0 && 0.0 <= d <= 1.0 && 0.0 <= i.recovery <= 1.0
    ensures deployed == MultiplyByFactor(i.principal, u) && defaulted == MultiplyByFactor(deployed, d)
    ensures defaulted <= deployed <= i.principal
    ensures loss == MultiplyByFactor(defaulted, 1.0 - i.recovery) == DefaultLoss(i, u, d)
  {
    assert Unit(u) == u && Unit(d) == d && Unit(i.recovery) == i.recovery;
    PartsGrow(i.principal, u, u);
    deployed := MultiplyByFactor(i.principal, u);
    PartsGrow(deployed, d, d);
    defaulted := MultiplyByFactor(deployed, d);
    PartsGrow(defaulted, 1.0 - i.recovery, 1.0 - i.recovery);
    loss := MultiplyByFactor(defaulted, 1.0 - i.recovery);
  }

  lemma StepIsNear(m: int, value: nat, f: real, most: nat)
    requires 0.0 <= f <= 1.0 && value <= most && m == MultiplyByFactor(value, f)
    ensures Near(m, value as real * f, Slack(most))
  {
    PartIsNear(value, f);
  }

  lemma ThreeSteps(p: int, x: int, y: int, z: int, u: real, d: real, k: real, e: real,
                   deployed: real, defaulted: real, loss: real)
    requires e >= 0.0 && 0.0 <= d <= 1.0 && 0.0 <= k <= 1.0
    requires Near(x, p as real * u, e) && Near(y, x as real * d, e) && Near(z, y as real * k, e)
    requires deployed == p as real * u && defaulted == deployed * d && loss == defaulted * k
    ensures Near(z, loss, 3.0 * e)
  {
    PartsStayNear(y, x, deployed, e, d, defaulted, e);
    PartsStayNear(z, y, defaulted, e + e, k, loss, e);
  }

  lemma PartOfPart(p: nat, x: nat, y: nat, z: nat, u: real, d: real, k: real, deployed: real, defaulted: real, loss: real)
    requires 0.0 <= u <= 1.0 && 0.0 <= d <= 1.0 && 0.0 <= k <= 1.0 && y <= x <= p
    requires x == MultiplyByFactor(p, u) && y == MultiplyByFactor(x, d) && z == MultiplyByFactor(y, k)
    requires deployed == p as real * u && defaulted == deployed * d && loss == defaulted * k
    ensures Near(z, loss, 3.0 * Slack(p))
  {
    StepIsNear(x, p, u, p);
    StepIsNear(y, x, d, p);
    StepIsNear(z, y, k, p);
    ThreeSteps(p, x, y, z, u, d, k, Slack(p), deployed, defaulted, loss);
  }

  /** The loss of a scenario is principal times utilization times default rate times what is not
      recovered, up to the slack of the three multiplications. */
  lemma LossIsNear(i: Inputs, u: real, d: real, deployed: real, defaulted: real, loss: real)
    requires i.principal >= 0 && 0.0 <= u <= 1.0 && 0.0 <= d <= 1.0 && 0.0 <= i.recovery <= 1.0
    requires deployed == i.principal as real * u && defaulted == deployed * d && loss == defaulted * (1.0 - i.recovery)
    ensures Near(DefaultLoss(i, u, d), loss, 3.0 * Slack(i.principal))
  {
    var x, y, z := LossSteps(i, u, d);
    PartOfPart(i.principal, x, y, z, u, d, 1.0 - i.recovery, deployed, defaulted, loss);
  }

  /** The gross yield is the interest times the utilization, up to the slack of one multiplication,
      and the net return is what the loss leaves of it. */
  lemma GrossYieldIsNear(i: Inputs, utilization: real, defaultRate: real, interest: nat)
    requires 0.0 <= utilization <= 1.0 && interest == ProjectedInterest(i.principal, i.yieldBps, i.lockDays)
    ensures Near(GrossYield(i, utilization), interest as real * utilization, Slack(interest))
    ensures NetReturn(i, utilization, defaultRate) + DefaultLoss(i, utilization, defaultRate) == GrossYield(i, utilization)
  {
    assert Unit(utilization) == utilization;
    StepIsNear(GrossYield(i, utilization), interest, utilization, interest);
  }

  /** Rates below zero count as zero and rates above one as one. */
  lemma RatesAreClamped(i: Inputs, utilization: real, defaultRate: real)
    ensures utilization <= 0.0 ==> NetReturn(i, utilization, defaultRate) == 0
    ensures utilization >= 1.0 ==> NetReturn(i, utilization, defaultRate) == NetReturn(i, 1.0, defaultRate)
    ensures defaultRate <= 0.0 ==> NetReturn(i, utilization, defaultRate) == GrossYield(i, utilization)
    ensures defaultRate >= 1.0 ==> NetReturn(i, utilization, defaultRate) == NetReturn(i, utilization, 1.0)
    ensures i.recovery >= 1.0 ==> NetReturn(i, utilization, defaultRate) == GrossYield(i, utilization)
    ensures i.recovery <= 0.0 ==>
              NetReturn(i, utilization, defaultRate) == NetReturn(i.(recovery := 0.0), utilization, defaultRate)
  {
  }

  function HalfPower(n: nat): real {
    if n == 0 then 1.0 else HalfPower(n - 1) / 2.0
  }

  /** `lo` and `hi` enclose a utilization at which the return reaches the bar. */
  ghost predicate Brackets(i: Inputs, defaultRate: real, bar: real, lo: real, hi: real) {
    && 0.0 <= lo <= hi <= 1.0
    && NetReturn(i, hi, defaultRate) as real >= bar
    && (lo == 0.0 || (NetReturn(i, lo, defaultRate) as real) < bar)
  }

  /** The search answers nothing exactly when full utilization misses the bar.  Otherwise its
      answer is the middle of an interval of width 2^-SEARCH_STEPS whose upper end reaches the bar
      and whose lower end misses it or is zero, although the return need not rise in between.
      The width is that of exact reals: doubles stop narrowing after about fifty steps. */
  method BreakevenUtilization(i: Inputs, defaultRate: real, bar: real) returns (r: Option<real>)
    ensures r.None? <==> (NetReturn(i, 1.0, defaultRate) as real) < bar
    ensures r.Some? ==>
              exists lo, hi :: Brackets(i, defaultRate, bar, lo, hi)
                && hi - lo == HalfPower(SEARCH_STEPS) && r.value == (lo + hi) / 2.0
  {
    if (NetReturn(i, 1.0, defaultRate) as real) < bar {
      return None;
    }
    var lo, hi := 0.0, 1.0;
    for n := 0 to SEARCH_STEPS
      invariant Brackets(i, defaultRate, bar, lo, hi) && hi - lo == HalfPower(n)
    {
      var mid := (lo + hi) / 2.0;
      if NetReturn(i, mid, defaultRate) as real >= bar {
        hi := mid;
      } else {
        lo := mid;
      }
    }
    return Some((lo + hi) / 2.0);
  }
}
