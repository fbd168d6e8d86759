/** The scenarios of pkg/trade/farm_test.go: two assets priced daily from a common instant, a
    farm opened with 10,000 on the first day and harvested on the second. */
module FarmScenarios {
  import opened Timeseries
  import opened Outcomes
  import opened Coin
  import opened Farm

  /** A series with one point per day from the instant `t0`. */
  function DailySeries(t0: int, values: seq<real>): (ts: Series)
    ensures |ts| == |values| && Daily(ts, t0)
    ensures forall i :: 0 <= i < |ts| ==> ts[i].V == values[i]
  {
    seq(|values|, i requires 0 <= i < |values| => ValueAt(t0 + i * MsPerDay, values[i]))
  }

  function AssetA(t0: int): Market {
    Market(USD, DailySeries(t0, [10.0, 20.0, 30.0, 40.0, 50.0]), "", "AAA", "Asset A")
  }

  /** B moving in step with A. */
  function AssetB(t0: int): Market {
    Market(USD, DailySeries(t0, [1.0, 2.0, 3.0, 4.0, 5.0]), "", "BBB", "Asset B")
  }

  /** B as a stable coin. */
  function StableB(t0: int): Market {
    Market(USD, DailySeries(t0, [1.0, 1.0, 1.0, 1.0, 1.0]), "", "BBB", "Asset B")
  }

  /** `math.Round`: to the nearest integer, halves away from zero. */
  function Round(x: real): int {
    if x >= 0.0 then (x + 0.5).Floor else -((-x + 0.5).Floor)
  }

  lemma SquareMono(a: real, b: real)
    requires 0.0 <= a <= b
    ensures a * a <= b * b
  {
    if a < b { SquareLess(a, b); }
  }

  /** A non-negative root of `x` lies between bounds whose squares enclose `x`. */
  lemma RootBetween(u: real, x: real, lo: real, hi: real)
    requires u >= 0.0 && u * u == x && 0.0 <= lo < hi && lo * lo <= x < hi * hi
    ensures lo <= u < hi
  {
    RootOrder(lo, u);
    if hi <= u { SquareMono(hi, u); }
  }

  /** Both markets have the prices of day `k` at the date `k` days after the first. */
  lemma PricesOnDay(a: Market, b: Market, t0: int, k: nat)
    requires Daily(a.Prices, t0) && Daily(b.Prices, t0) && k < |a.Prices| && k < |b.Prices|
    ensures PricesAt(a, b, DateOf(t0) + k) == Ok((a.Prices[k], b.Prices[k]))
  {
    DailyLookup(a.Prices, t0, k);
    DailyLookup(b.Prices, t0, k);
  }

  /** The farm of 10,000 opened at prices 10 and 1: 500 units of A and 5,000 of B. */
  lemma OpenedAtTenAndOne(sqrt: real -> real, a: Market, b: Market, t0: int, apr: real)
    requires IsSqrt(sqrt) && PositivePrices(a) && PositivePrices(b)
    requires Daily(a.Prices, t0) && Daily(b.Prices, t0) && |a.Prices| > 0 && |b.Prices| > 0
    requires a.Prices[0].V == 10.0 && b.Prices[0].V == 1.0
    ensures var r := Launched(sqrt, a, b, 10_000.0, DateOf(t0), apr);
            r.Ok? && r.value.UnitsA == 500.0 && r.value.UnitsB == 5_000.0 &&
            r.value.InitialUnitsA == 500.0 && r.value.InitialUnitsB == 5_000.0 &&
            r.value.TotalValue == 10_000.0 && r.value.LastHarvestDate == DateOf(t0) &&
            r.value.APR == apr && r.value.APRChangeRateAtHarvest == 0.0 && Sound(r.value)
  {
    PricesOnDay(a, b, t0, 0);
    OpenedFarm(sqrt, 10_000.0, DateOf(t0), apr, 10.0, 1.0);
    OpenedSound(sqrt, 10_000.0, DateOf(t0), apr, 10.0, 1.0);
  }

  /** A harvest on the day after opening, with no APR change rate: one day of yield on the
      rebalanced pool, which is then logged with the date recorded. */
  lemma HarvestOnDayTwo(sqrt: real -> real, a: Market, b: Market, t0: int, f: Position)
    requires IsSqrt(sqrt) && PositivePrices(a) && PositivePrices(b) && Sound(f)
    requires Daily(a.Prices, t0) && Daily(b.Prices, t0) && |a.Prices| > 1 && |b.Prices| > 1
    requires f.LastHarvestDate == DateOf(t0) && f.APRChangeRateAtHarvest == 0.0
    ensures var r := Rebalanced(sqrt, f, a.Prices[1].V, b.Prices[1].V);
            Harvested(sqrt, a, b, DateOf(t0), f, DateOf(t0) + 1) ==
              (Logged(r.(LastHarvestDate := DateOf(t0) + 1), DateOf(t0) + 1, a.Prices[1].V, b.Prices[1].V),
               Ok(Yield(r.TotalValue, r.APR, 1)))
    ensures var r := Rebalanced(sqrt, f, a.Prices[1].V, b.Prices[1].V);
            var h := Harvested(sqrt, a, b, DateOf(t0), f, DateOf(t0) + 1).0;
            h.UnitsA == r.UnitsA && h.UnitsB == r.UnitsB && h.TotalValue == r.TotalValue &&
            h.TotalValueHODL == r.TotalValueHODL && h.InitialUnitsA == f.InitialUnitsA &&
            h.InitialUnitsB == f.InitialUnitsB && h.APR == f.APR
  {
    HarvestOnDayTwoValue(sqrt, a, b, t0, f);
  }

  lemma HarvestOnDayTwoValue(sqrt: real -> real, a: Market, b: Market, t0: int, f: Position)
    requires IsSqrt(sqrt) && PositivePrices(a) && PositivePrices(b) && Sound(f)
    requires Daily(a.Prices, t0) && Daily(b.Prices, t0) && |a.Prices| > 1 && |b.Prices| > 1
    requires f.LastHarvestDate == DateOf(t0) && f.APRChangeRateAtHarvest == 0.0
    ensures var r := Rebalanced(sqrt, f, a.Prices[1].V, b.Prices[1].V);
            Harvested(sqrt, a, b, DateOf(t0), f, DateOf(t0) + 1) ==
              (Logged(r.(LastHarvestDate := DateOf(t0) + 1), DateOf(t0) + 1, a.Prices[1].V, b.Prices[1].V),
               Ok(Yield(r.TotalValue, r.APR, 1)))
  {
    assert a.Prices[1].V > 0.0 && b.Prices[1].V > 0.0;
    ProductNonNegative(f.UnitsA, f.UnitsB);
    CollectedOnce(sqrt, f, DateOf(t0) + 1, 1, a.Prices[1].V, b.Prices[1].V);
    HarvestOnDayTwoCollects(sqrt, a, b, t0, f);
  }

  /** The harvest on the second day collects one day's yield at that day's prices. */
  lemma HarvestOnDayTwoCollects(sqrt: real -> real, a: Market, b: Market, t0: int, f: Position)
    requires PositivePrices(a) && PositivePrices(b)
    requires Daily(a.Prices, t0) && Daily(b.Prices, t0) && |a.Prices| > 1 && |b.Prices| > 1
    requires f.LastHarvestDate == DateOf(t0) && f.APRChangeRateAtHarvest == 0.0
    ensures a.Prices[1].V > 0.0 && b.Prices[1].V > 0.0
    ensures var c := Collected(sqrt, f, DateOf(t0) + 1, 1, a.Prices[1].V, b.Prices[1].V);
            Harvested(sqrt, a, b, DateOf(t0), f, DateOf(t0) + 1) == (c.0, Ok(c.1))
  {
    var date := DateOf(t0) + 1;
    PricesOnDay(a, b, t0, 1);
    HarvestWithPrices(sqrt, a, b, DateOf(t0), f, date);
    assert AprDecay(f) == f;
    HarvestDaysPositive(DateOf(t0), date);
  }

  /** Prices of A and B rising together (farm_test.go, first case): after the harvest the units
      are still the initial ones and the farm is worth 20,000; at 0% APR nothing is paid. */
  lemma ProportionalPricesNoLoss(sqrt: real -> real, t0: int)
    requires IsSqrt(sqrt)
    ensures var f := Launched(sqrt, AssetA(t0), AssetB(t0), 10_000.0, DateOf(t0), 0.0);
            f.Ok? &&
            var h := Harvested(sqrt, AssetA(t0), AssetB(t0), DateOf(t0), f.value, DateOf(t0) + 1);
            h.1 == Ok(0.0) && h.0.UnitsA == h.0.InitialUnitsA && h.0.UnitsB == h.0.InitialUnitsB &&
            h.0.TotalValue == 20_000.0
  {
    ProportionalCase(sqrt, AssetA(t0), AssetB(t0), t0);
  }

  lemma ProportionalCase(sqrt: real -> real, a: Market, b: Market, t0: int)
    requires IsSqrt(sqrt) && PositivePrices(a) && PositivePrices(b)
    requires Daily(a.Prices, t0) && Daily(b.Prices, t0) && |a.Prices| > 1 && |b.Prices| > 1
    requires a.Prices[0].V == 10.0 && b.Prices[0].V == 1.0 && a.Prices[1].V == 20.0 && b.Prices[1].V == 2.0
    ensures var f := Launched(sqrt, a, b, 10_000.0, DateOf(t0), 0.0);
            f.Ok? &&
            var h := Harvested(sqrt, a, b, DateOf(t0), f.value, DateOf(t0) + 1);
            h.1 == Ok(0.0) && h.0.UnitsA == h.0.InitialUnitsA && h.0.UnitsB == h.0.InitialUnitsB &&
            h.0.TotalValue == 20_000.0
  {
    OpenedAtTenAndOne(sqrt, a, b, t0, 0.0);
    var f := Launched(sqrt, a, b, 10_000.0, DateOf(t0), 0.0).value;
    HarvestOnDayTwo(sqrt, a, b, t0, f);
    RebalanceBalanced(sqrt, f, 20.0, 2.0);
  }

  /** A rising against a stable coin (farm_test.go, third case): the pool ends with about 354
      units of A and 7,071 of B, worth about 14,142, while holding would be worth 15,000. */
  lemma StablePairLoss(sqrt: real -> real, t0: int)
    requires IsSqrt(sqrt)
    ensures var f := Launched(sqrt, AssetA(t0), StableB(t0), 10_000.0, DateOf(t0), 0.0);
            f.Ok? &&
            var h := Harvested(sqrt, AssetA(t0), StableB(t0), DateOf(t0), f.value, DateOf(t0) + 1);
            h.1 == Ok(0.0) && Round(h.0.UnitsA) == 354 && Round(h.0.UnitsB) == 7_071 &&
            Round(h.0.TotalValue) == 14_142 && h.0.TotalValueHODL == 15_000.0
  {
    StableCase(sqrt, AssetA(t0), StableB(t0), t0);
  }

  lemma StableCase(sqrt: real -> real, a: Market, b: Market, t0: int)
    requires IsSqrt(sqrt) && PositivePrices(a) && PositivePrices(b)
    requires Daily(a.Prices, t0) && Daily(b.Prices, t0) && |a.Prices| > 1 && |b.Prices| > 1
    requires a.Prices[0].V == 10.0 && b.Prices[0].V == 1.0 && a.Prices[1].V == 20.0 && b.Prices[1].V == 1.0
    ensures var f := Launched(sqrt, a, b, 10_000.0, DateOf(t0), 0.0);
            f.Ok? &&
            var h := Harvested(sqrt, a, b, DateOf(t0), f.value, DateOf(t0) + 1);
            h.1 == Ok(0.0) && Round(h.0.UnitsA) == 354 && Round(h.0.UnitsB) == 7_071 &&
            Round(h.0.TotalValue) == 14_142 && h.0.TotalValueHODL == 15_000.0
  {
    OpenedAtTenAndOne(sqrt, a, b, t0, 0.0);
    var f := Launched(sqrt, a, b, 10_000.0, DateOf(t0), 0.0).value;
    HarvestOnDayTwo(sqrt, a, b, t0, f);
    StableRebalance(sqrt, f);
    var h := Harvested(sqrt, a, b, DateOf(t0), f, DateOf(t0) + 1).0;
    RoundBetween(h.UnitsA, 354);
    RoundBetween(h.UnitsB, 7_071);
    RoundBetween(h.TotalValue, 14_142);
  }

  /** At 365% APR (farm_test.go, second case) a harvest pays 200, one day at 1% of the 20,000 the
      pool is worth, and leaves the pool as it was: units at the initial units, value 20,000, not
      the 20,200 and 1% more units the test expects. */
  lemma AprHarvestPaysOut(sqrt: real -> real, t0: int)
    requires IsSqrt(sqrt)
    ensures var f := Launched(sqrt, AssetA(t0), AssetB(t0), 10_000.0, DateOf(t0), 365.0);
            f.Ok? &&
            var h := Harvested(sqrt, AssetA(t0), AssetB(t0), DateOf(t0), f.value, DateOf(t0) + 1);
            h.1 == Ok(200.0) && h.0.UnitsA == h.0.InitialUnitsA && h.0.UnitsB == h.0.InitialUnitsB &&
            h.0.TotalValue == 20_000.0 && h.0.TotalValue != 20_000.0 + 200.0
  {
    AprCase(sqrt, AssetA(t0), AssetB(t0), t0);
  }

  lemma AprCase(sqrt: real -> real, a: Market, b: Market, t0: int)
    requires IsSqrt(sqrt) && PositivePrices(a) && PositivePrices(b)
    requires Daily(a.Prices, t0) && Daily(b.Prices, t0) && |a.Prices| > 1 && |b.Prices| > 1
    requires a.Prices[0].V == 10.0 && b.Prices[0].V == 1.0 && a.Prices[1].V == 20.0 && b.Prices[1].V == 2.0
    ensures var f := Launched(sqrt, a, b, 10_000.0, DateOf(t0), 365.0);
            f.Ok? &&
            var h := Harvested(sqrt, a, b, DateOf(t0), f.value, DateOf(t0) + 1);
            h.1 == Ok(200.0) && h.0.UnitsA == h.0.InitialUnitsA && h.0.UnitsB == h.0.InitialUnitsB &&
            h.0.TotalValue == 20_000.0
  {
    OpenedAtTenAndOne(sqrt, a, b, t0, 365.0);
    var f := Launched(sqrt, a, b, 10_000.0, DateOf(t0), 365.0).value;
    HarvestOnDayTwo(sqrt, a, b, t0, f);
    RebalanceBalanced(sqrt, f, 20.0, 2.0);
    assert Yield(20_000.0, 365.0, 1) == 200.0;
  }

  lemma RoundBetween(x: real, n: int)
    requires n > 0 && n as real - 0.5 <= x < n as real + 0.5
    ensures Round(x) == n
  {
  }

  /** Rebalancing 500 A and 5,000 B at prices 20 and 1. */
  lemma StableRebalance(sqrt: real -> real, f: Position)
    requires IsSqrt(sqrt) && f.UnitsA == 500.0 && f.UnitsB == 5_000.0
    requires f.InitialUnitsA == 500.0 && f.InitialUnitsB == 5_000.0
    ensures var r := Rebalanced(sqrt, f, 20.0, 1.0);
            353.5 <= r.UnitsA < 354.5 && 7_070.75 <= r.UnitsB < 7_071.25 &&
            14_141.5 <= r.TotalValue < 14_142.5 && r.TotalValueHODL == 15_000.0
  {
    var r := Rebalanced(sqrt, f, 20.0, 1.0);
    assert PoolConstant(f) == 2_500_000.0;
    assert PriceRatio(20.0, 1.0) == 20.0;
    assert SquareA(2_500_000.0, 20.0) == 125_000.0;
    assert SquareB(2_500_000.0, 20.0) == 50_000_000.0;
    assert IsRoot(sqrt, SquareA(2_500_000.0, 20.0)) && IsRoot(sqrt, SquareB(2_500_000.0, 20.0));
    RootBetween(r.UnitsA, 125_000.0, 353.5, 354.5);
    RootBetween(r.UnitsB, 50_000_000.0, 7_070.75, 7_071.25);
    RebalanceKeepsProduct(sqrt, f, 20.0, 1.0);
  }
}
