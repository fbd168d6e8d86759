/** The scenarios of pkg/trade/forecast_test.go (synthetic price paths) and the compounding step of
    the forecast on the 365% APR farm of pkg/trade/farm_test.go. */
module ForecastScenarios {
  import opened Timeseries
  import opened Outcomes
  import opened Coin
  import opened Farm
  import opened Forecast
  import opened FarmScenarios

  /** Asset A of the test: a rise of 20% over 5 days, then a fall of 20% over 5 days. */
  const RiseThenFallA: seq<PriceChange> := [PriceChange(20.0, 5, 0.0, 0), PriceChange(0.0, 0, 20.0, 5)]

  /** Asset B of the test: a rise of 25% over 5 days, then a fall of 20% over 5 days. */
  const RiseThenFallB: seq<PriceChange> := [PriceChange(25.0, 5, 0.0, 0), PriceChange(0.0, 0, 20.0, 5)]

  /** The prices of days 0 to `n`. */
  function PathPrices(changes: seq<PriceChange>, startingPrice: real, n: nat): (ps: seq<real>)
    ensures |ps| == n + 1
    ensures forall d :: 0 <= d <= n ==> ps[d] == PriceOn(changes, startingPrice, d)
  {
    if n == 0 then [PriceOn(changes, startingPrice, 0)]
    else PathPrices(changes, startingPrice, n - 1) + [PriceOn(changes, startingPrice, n)]
  }

  /** From 100, asset A climbs by 4 a day to 120 and then falls by 4.80 a day (a fifth of 20% of
      120) to 96: the eleven prices the test expects. */
  lemma RiseThenFallPricesA()
    ensures PathPrices(RiseThenFallA, 100.0, 10) ==
              [100.0, 104.0, 108.0, 112.0, 116.0, 120.0, 115.2, 110.4, 105.6, 100.8, 96.0]
  {
    var c := RiseThenFallA;
    assert StateOn(c, 100.0, 0) == PathState(100.0, 0, 0.0, 0);
    assert SegmentDelta(100.0, 1.0 + 20.0 / 100.0, 5) == 4.0;
    assert StateOn(c, 100.0, 1) == PathState(104.0, 1, 4.0, 4);
    assert StateOn(c, 100.0, 2) == PathState(108.0, 1, 4.0, 3);
    assert StateOn(c, 100.0, 3) == PathState(112.0, 1, 4.0, 2);
    assert StateOn(c, 100.0, 4) == PathState(116.0, 1, 4.0, 1);
    assert StateOn(c, 100.0, 5) == PathState(120.0, 1, 4.0, 0);
    assert SegmentDelta(120.0, 1.0 - 20.0 / 100.0, 5) == -4.8;
    assert StateOn(c, 100.0, 6) == PathState(115.2, 0, -4.8, 4);
    assert StateOn(c, 100.0, 7) == PathState(110.4, 0, -4.8, 3);
    assert StateOn(c, 100.0, 8) == PathState(105.6, 0, -4.8, 2);
    assert StateOn(c, 100.0, 9) == PathState(100.8, 0, -4.8, 1);
    assert StateOn(c, 100.0, 10) == PathState(96.0, 0, -4.8, 0);
  }

  /** From 100, asset B climbs by 5 a day to 125 and falls by 5 a day back to 100. */
  lemma RiseThenFallPricesB()
    ensures PathPrices(RiseThenFallB, 100.0, 10) ==
              [100.0, 105.0, 110.0, 115.0, 120.0, 125.0, 120.0, 115.0, 110.0, 105.0, 100.0]
  {
    var c := RiseThenFallB;
    assert StateOn(c, 100.0, 0) == PathState(100.0, 0, 0.0, 0);
    assert SegmentDelta(100.0, 1.0 + 25.0 / 100.0, 5) == 5.0;
    assert StateOn(c, 100.0, 1) == PathState(105.0, 1, 5.0, 4);
    assert StateOn(c, 100.0, 2) == PathState(110.0, 1, 5.0, 3);
    assert StateOn(c, 100.0, 3) == PathState(115.0, 1, 5.0, 2);
    assert StateOn(c, 100.0, 4) == PathState(120.0, 1, 5.0, 1);
    assert StateOn(c, 100.0, 5) == PathState(125.0, 1, 5.0, 0);
    assert SegmentDelta(125.0, 1.0 - 20.0 / 100.0, 5) == -5.0;
    assert StateOn(c, 100.0, 6) == PathState(120.0, 0, -5.0, 4);
    assert StateOn(c, 100.0, 7) == PathState(115.0, 0, -5.0, 3);
    assert StateOn(c, 100.0, 8) == PathState(110.0, 0, -5.0, 2);
    assert StateOn(c, 100.0, 9) == PathState(105.0, 0, -5.0, 1);
    assert StateOn(c, 100.0, 10) == PathState(100.0, 0, -5.0, 0);
  }

  /** The 365% APR farm of farm_test.go, harvested on the second day the way the forecast does
      it (the yield of 200 added back as liquidity): both unit counts grow by 1% and the farm is
      worth 20,200, the figures that test expects. */
  lemma AprReinvestCompounds(sqrt: real -> real, t0: int)
    requires IsSqrt(sqrt)
    ensures var f := Launched(sqrt, AssetA(t0), AssetB(t0), 10_000.0, DateOf(t0), 365.0);
            f.Ok? &&
            var r := Reinvested(sqrt, AssetA(t0), AssetB(t0), DateOf(t0), f.value, DateOf(t0) + 1);
            r.Ok? && r.value.UnitsA == f.value.InitialUnitsA + f.value.InitialUnitsA * 0.01 &&
            r.value.UnitsB == f.value.InitialUnitsB + f.value.InitialUnitsB * 0.01 &&
            r.value.TotalValue == 20_000.0 + 200.0
  {
    AprCompoundCase(sqrt, AssetA(t0), AssetB(t0), t0);
  }

  lemma AprCompoundCase(sqrt: real -> real, a: Market, b: Market, t0: int)
    requires IsSqrt(sqrt) && PositivePrices(a) && PositivePrices(b)
    requires Daily(a.Prices, t0) && Daily(b.Prices, t0) && |a.Prices| > 1 && |b.Prices| > 1
    requires a.Prices[0].V == 10.0 && b.Prices[0].V == 1.0 && a.Prices[1].V == 20.0 && b.Prices[1].V == 2.0
    ensures var f := Launched(sqrt, a, b, 10_000.0, DateOf(t0), 365.0);
            f.Ok? &&
            var r := Reinvested(sqrt, a, b, DateOf(t0), f.value, DateOf(t0) + 1);
            r.Ok? && r.value.UnitsA == f.value.InitialUnitsA + f.value.InitialUnitsA * 0.01 &&
            r.value.UnitsB == f.value.InitialUnitsB + f.value.InitialUnitsB * 0.01 &&
            r.value.TotalValue == 20_000.0 + 200.0
  {
    AprCase(sqrt, a, b, t0);
    OpenedAtTenAndOne(sqrt, a, b, t0, 365.0);
    var f := Launched(sqrt, a, b, 10_000.0, DateOf(t0), 365.0).value;
    HarvestOnDayTwo(sqrt, a, b, t0, f);
    var q := Harvested(sqrt, a, b, DateOf(t0), f, DateOf(t0) + 1).0;
    PricesOnDay(a, b, t0, 1);
    assert Reinvested(sqrt, a, b, DateOf(t0), f, DateOf(t0) + 1) ==
             Ok(Deposited(sqrt, q, DateOf(t0) + 1, 200.0, 20.0, 2.0));
    assert q.UnitsA == 500.0 && q.UnitsB == 5_000.0 && q.InitialUnitsA == 500.0 && q.InitialUnitsB == 5_000.0;
    assert q.TotalValue == 20_000.0 && q.TotalValueHODL == 20_000.0;
    assert Balanced(q, 20.0, 2.0);
    DepositAtBalance(sqrt, q, DateOf(t0) + 1, 200.0, 20.0, 2.0);
  }
}
