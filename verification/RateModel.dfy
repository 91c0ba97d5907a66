/** The kinked interest-rate curve of frontend/lib/rate-model.ts, in integer basis points. */
module RateModel {
  import opened Arithmetic

  const MAX_RATE_CAP := 5_000

  datatype Config = Config(optimal: int, baseRate: int, slope1: int, slope2: int, maxRate: int)

  datatype Complaint = Fine | OptimalRange | MaxRateRange | BaseNegative | BaseAboveMax | Slope1Range | Slope2Range

  function Validate(c: Config): Complaint {
    if c.optimal <= 0 || c.optimal > BPS then OptimalRange
    else if c.maxRate <= 0 || c.maxRate > MAX_RATE_CAP then MaxRateRange
    else if c.baseRate < 0 then BaseNegative
    else if c.baseRate > c.maxRate then BaseAboveMax
    else if c.slope1 < 0 || c.slope1 > MAX_RATE_CAP then Slope1Range
    else if c.slope2 < 0 || c.slope2 > MAX_RATE_CAP then Slope2Range
    else Fine
  }

  function Clamped(utilization: int): int { Min(Max(0, utilization), BPS) }

  /** The rate before the cap, for a utilization in range and an optimum in range. */
  function Uncapped(util: int, c: Config): int
    requires 0 < c.optimal <= BPS && 0 <= util <= BPS
  {
    c.baseRate + Min(util, c.optimal) * c.slope1 / c.optimal
    + if util > c.optimal then (util - c.optimal) * c.slope2 / (BPS - c.optimal) else 0
  }

  function Rate(utilization: int, c: Config): int {
    if c.optimal <= 0 || c.optimal > BPS then c.maxRate
    else Min(Uncapped(Clamped(utilization), c), c.maxRate)
  }

  lemma ScaledMonotone(x: int, y: int, slope: nat, span: int)
    requires x <= y && span > 0
    ensures x * slope / span <= y * slope / span
  {
    MulMonotone(x, y, slope);
    DivMonotone(x * slope, y * slope, span);
  }

  lemma FullSpan(slope: nat, span: int)
    requires span > 0
    ensures span * slope / span == slope && 0 * slope / span == 0
  {
    DivUnique(span * slope, span, slope);
  }

  lemma UncappedMonotone(u: int, v: int, c: Config)
    requires Validate(c) == Fine && 0 <= u <= v <= BPS
    ensures Uncapped(u, c) <= Uncapped(v, c)
  {
    ScaledMonotone(Min(u, c.optimal), Min(v, c.optimal), c.slope1, c.optimal);
    if v > c.optimal {
      FullSpan(c.slope2, BPS - c.optimal);
      ScaledMonotone(Max(0, u - c.optimal), v - c.optimal, c.slope2, BPS - c.optimal);
    }
  }

  lemma UncappedEnds(c: Config)
    requires Validate(c) == Fine
    ensures Uncapped(0, c) == c.baseRate
    ensures Uncapped(BPS, c) == c.baseRate + c.slope1 + (if c.optimal < BPS then c.slope2 else 0)
  {
    FullSpan(c.slope1, c.optimal);
    if c.optimal < BPS {
      FullSpan(c.slope2, BPS - c.optimal);
    }
  }

  /** For every accepted configuration the floored curve never falls, across the kink and for any
      utilizations whatever, stays between base and maximum, and meets both at the ends. */
  lemma CurveRises(u: int, v: int, c: Config)
    requires Validate(c) == Fine && u <= v
    ensures c.baseRate <= Rate(u, c) <= Rate(v, c) <= c.maxRate
    ensures u <= 0 ==> Rate(u, c) == c.baseRate
    ensures v >= BPS ==> Rate(v, c) == Min(c.maxRate, c.baseRate + c.slope1 + if c.optimal < BPS then c.slope2 else 0)
  {
    UncappedMonotone(0, Clamped(u), c);
    UncappedMonotone(Clamped(u), Clamped(v), c);
    UncappedEnds(c);
  }

  /** Math.round of i * BPS / (points - 1), over exact rationals. */
  function SamplePoint(i: int, points: int): int
    requires points > 1
  {
    (2 * i * BPS + (points - 1)) / (2 * (points - 1))
  }

  lemma SamplePointsRise(i: int, j: int, points: int)
    requires points > 1 && 0 <= i <= j < points
    ensures 0 <= SamplePoint(i, points) <= SamplePoint(j, points) <= BPS
    ensures SamplePoint(0, points) == 0 && SamplePoint(points - 1, points) == BPS
  {
    var n := 2 * (points - 1);
    DivMonotone(points - 1, 2 * i * BPS + (points - 1), n);
    DivMonotone(2 * i * BPS + (points - 1), 2 * j * BPS + (points - 1), n);
    DivMonotone(2 * j * BPS + (points - 1), n * BPS + (points - 1), n);
    DivUnique(points - 1, n, 0);
    DivUnique(n * BPS + (points - 1), n, BPS);
    assert 2 * (points - 1) * BPS == n * BPS;
  }

  /** Every sampled curve of an accepted configuration runs from zero to full utilization, never
      falls, and starts at the base rate and ends at the capped sum. */
  method SampleRateCurve(c: Config, points: nat) returns (samples: seq<(int, int)>)
    requires points != 1
    ensures |samples| == points
    ensures forall i :: 0 <= i < points ==> samples[i].1 == Rate(samples[i].0, c)
    ensures points > 1 ==> samples[0].0 == 0 && samples[points - 1].0 == BPS
    ensures forall i, j :: 0 <= i <= j < points ==> samples[i].0 <= samples[j].0
    ensures points > 1 && Validate(c) == Fine ==>
              && (forall i, j :: 0 <= i <= j < points ==> samples[i].1 <= samples[j].1)
              && samples[0].1 == c.baseRate
              && samples[points - 1].1 == Min(c.maxRate, c.baseRate + c.slope1 + if c.optimal < BPS then c.slope2 else 0)
  {
    samples := [];
    if points == 0 {
      return;
    }
    for i := 0 to points
      invariant |samples| == i
      invariant forall k :: 0 <= k < i ==> samples[k] == (SamplePoint(k, points), Rate(SamplePoint(k, points), c))
    {
      var utilization := SamplePoint(i, points);
      samples := samples + [(utilization, Rate(utilization, c))];
    }
    SamplePointsRise(0, points - 1, points);
    forall i, j | 0 <= i <= j < points
      ensures samples[i].0 <= samples[j].0 && (Validate(c) == Fine ==> samples[i].1 <= samples[j].1)
    {
      SamplePointsRise(i, j, points);
      if Validate(c) == Fine {
        CurveRises(samples[i].0, samples[j].0, c);
      }
    }
    if Validate(c) == Fine {
      CurveRises(0, BPS, c);
    }
  }

  /** A configuration is accepted exactly when every value is in its range, and a complaint names a
      value that is not. */
  lemma AcceptedExactly(c: Config)
    ensures Validate(c) == Fine <==>
              && 0 < c.optimal <= 10_000 && 0 < c.maxRate <= 5_000 && 0 <= c.baseRate <= c.maxRate
              && 0 <= c.slope1 <= 5_000 && 0 <= c.slope2 <= 5_000
    ensures Validate(c) == OptimalRange ==> !(0 < c.optimal <= 10_000)
    ensures Validate(c) == MaxRateRange ==> !(0 < c.maxRate <= 5_000)
    ensures Validate(c) == BaseNegative ==> c.baseRate < 0
    ensures Validate(c) == BaseAboveMax ==> c.baseRate > c.maxRate
    ensures Validate(c) == Slope1Range ==> !(0 <= c.slope1 <= 5_000)
    ensures Validate(c) == Slope2Range ==> !(0 <= c.slope2 <= 5_000)
  {
  }

  /** The curve at and on both sides of the kink: a line through base and base plus first slope up to
      the optimum, and from there one that gains the second slope until full utilization, each floored;
      the cap applies last.  Without a usable optimum the rate is the maximum. */
  lemma CurveIsExact(u: int, c: Config)
    ensures Validate(c) == Fine && 0 <= u <= c.optimal ==>
              Rate(u, c) == Min(c.maxRate, c.baseRate + u * c.slope1 / c.optimal)
    ensures Validate(c) == Fine && c.optimal < u <= BPS ==>
              Rate(u, c) == Min(c.maxRate, c.baseRate + c.slope1 + (u - c.optimal) * c.slope2 / (BPS - c.optimal))
    ensures !(0 < c.optimal <= BPS) ==> Rate(u, c) == c.maxRate
  {
    if Validate(c) == Fine {
      FullSpan(c.slope1, c.optimal);
    }
  }
}
