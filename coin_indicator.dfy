/** The older exponential moving average of pkg/coingecko/indicator.go: it starts from the newest
    price, seeds with the simple average of the newest `days` prices and walks back in time. */
module CoinIndicator {
  import opened Timeseries
  import opened Outcomes
  import TradeIndicator

  datatype Indicator = Indicator(Name: string, V: map<int, real>) {
    /** A stored timestamp reads its EMA; a missing one reads as Go's map zero value. */
    function ForTimestamp(milli: int): (v: real)
      ensures milli in V ==> v == V[milli]
      ensures milli !in V ==> v == 0.0
    {
      if milli in V then V[milli] else 0.0
    }
  }

  /** The simple average of the `days` prices ending at index `i`. */
  function WindowSma(prices: Series, days: nat, i: int): real
    requires 0 < days && days - 1 <= i < |prices|
  {
    SumValues(prices[i - (days - 1)..i + 1]) / days as real
  }

  /** The EMA stored for point `i`: its "previous day" is the point after it, whose EMA is
      carried over; whenever that carried value is 0 (at the newest point above all) the average of
      the window ending at `i` is used instead. */
  function BackEma(prices: Series, days: nat, i: int): real
    requires 0 < days && days - 1 <= i < |prices|
    decreases |prices| - i
  {
    var carried := if i == |prices| - 1 then 0.0 else BackEma(prices, days, i + 1);
    var prev := if carried == 0.0 then WindowSma(prices, days, i) else carried;
    TradeIndicator.EmaStep(prices[i].V, prev, days)
  }

  /** The map after the points from the newest down to index `i` have been written. */
  function BackMap(prices: Series, days: nat, i: int): map<int, real>
    requires 0 < days && days - 1 <= i <= |prices|
    decreases |prices| - i
  {
    if i == |prices| then map[]
    else BackMap(prices, days, i + 1)[prices[i].TS := BackEma(prices, days, i)]
  }

  /** `NewEMAIndicator` of the coingecko package: rejects a period of 0 or one longer than the
      prices; stores an EMA for every index from `days - 1` up to the newest. */
  method NewEMAIndicator(days: nat, prices: Series) returns (r: Result<Indicator>)
    ensures r.Err? <==> days == 0 || |prices| < days
    ensures r.Err? ==> r.error == InsufficientData(|prices|, days)
    ensures r.Ok? ==> r.value.Name == TradeIndicator.EmaName(days) && r.value.V == BackMap(prices, days, days - 1)
  {
    if days == 0 || |prices| < days {
      return Err(InsufficientData(|prices|, days));
    }
    var v: map<int, real> := map[];
    var prevDayEMA := 0.0;
    var multiplier := 2.0 / (days as real + 1.0);

    var i := |prices| - 1;
    while i >= 0
      invariant days - 2 <= i <= |prices| - 1
      invariant v == BackMap(prices, days, i + 1)
      invariant prevDayEMA == if i == |prices| - 1 then 0.0 else BackEma(prices, days, i + 1)
    {
      var priceEndIndex := i - (days - 1);
      if priceEndIndex < 0 {
        break;
      }
      var start := prices[i];
      ghost var carried := prevDayEMA;
      if prevDayEMA == 0.0 {
        var total := WindowTotal(prices, priceEndIndex, i);
        prevDayEMA := total / days as real;
        WindowSmaIs(prices, days, i, total, prevDayEMA);
      }
      var ema := (start.V * multiplier) + (prevDayEMA * (1.0 - multiplier));
      TradeIndicator.EmaStepIs(start.V, prevDayEMA, days, multiplier, ema);
      BackEmaStep(prices, days, i, carried, prevDayEMA, ema);
      v := v[start.TS := ema];
      prevDayEMA := ema;
      i := i - 1;
    }
    r := Ok(Indicator(TradeIndicator.EmaName(days), v));
  }

  /** The inner loop of `NewEMAIndicator`: the sum of the prices from index `i` back to
      `priceEndIndex`. */
  method WindowTotal(prices: Series, priceEndIndex: int, i: int) returns (total: real)
    requires 0 <= priceEndIndex <= i < |prices|
    ensures total == SumValues(prices[priceEndIndex..i + 1])
  {
    total := 0.0;
    var j := i;
    while j >= priceEndIndex
      invariant priceEndIndex - 1 <= j <= i
      invariant total == SumValues(prices[j + 1..i + 1])
    {
      assert prices[j..i + 1][1..] == prices[j + 1..i + 1];
      total := total + prices[j].V;
      j := j - 1;
    }
  }

  /** One step of the walk back: the EMA computed from the carried value (or the window average
      in its place when it is 0) is the one `BackEma` specifies. */
  lemma BackEmaStep(prices: Series, days: nat, i: int, carried: real, prev: real, ema: real)
    requires 0 < days && days - 1 <= i < |prices|
    requires carried == if i == |prices| - 1 then 0.0 else BackEma(prices, days, i + 1)
    requires prev == if carried == 0.0 then WindowSma(prices, days, i) else carried
    requires ema == TradeIndicator.EmaStep(prices[i].V, prev, days)
    ensures ema == BackEma(prices, days, i)
  {
  }

  lemma WindowSmaIs(prices: Series, days: nat, i: int, total: real, avg: real)
    requires 0 < days && days - 1 <= i < |prices|
    requires total == SumValues(prices[i - (days - 1)..i + 1]) && avg == total / days as real
    ensures avg == WindowSma(prices, days, i)
  {
  }

  /** Exactly the timestamps of the points from index `days - 1` on are stored. */
  lemma {:induction false} BackMapKeys(prices: Series, days: nat, i: int, ts: int)
    requires 0 < days && days - 1 <= i <= |prices|
    decreases |prices| - i
    ensures ts in BackMap(prices, days, i) <==> exists k :: i <= k < |prices| && prices[k].TS == ts
  {
    if i < |prices| {
      BackMapKeys(prices, days, i + 1, ts);
    }
  }

  /** With distinct timestamps the map holds `len - days + 1` entries. */
  lemma {:induction false} BackMapSize(prices: Series, days: nat, i: int)
    requires 0 < days && days - 1 <= i <= |prices|
    requires Chronological(prices)
    decreases |prices| - i
    ensures |BackMap(prices, days, i)| == |prices| - i
  {
    if i < |prices| {
      BackMapSize(prices, days, i + 1);
      BackMapKeys(prices, days, i + 1, prices[i].TS);
    }
  }

  /** With distinct timestamps every stored point reads as its own EMA. */
  lemma {:induction false} BackMapAt(prices: Series, days: nat, i: int, k: int)
    requires 0 < days && days - 1 <= i <= k < |prices|
    requires Chronological(prices)
    decreases k - i
    ensures prices[k].TS in BackMap(prices, days, i)
    ensures BackMap(prices, days, i)[prices[k].TS] == BackEma(prices, days, k)
  {
    if i < k {
      BackMapAt(prices, days, i + 1, k);
    } else {
      BackMapKeys(prices, days, i + 1, prices[k].TS);
    }
  }

  /** The newest entry is seeded by the average of the window ending at it (see `NewestWindow`). */
  lemma NewestEntry(prices: Series, days: nat)
    requires 0 < days <= |prices| && Chronological(prices)
    ensures var n := |prices|;
            prices[n - 1].TS in BackMap(prices, days, days - 1) &&
            BackMap(prices, days, days - 1)[prices[n - 1].TS] ==
              TradeIndicator.EmaStep(prices[n - 1].V, WindowSma(prices, days, n - 1), days)
  {
    BackMapAt(prices, days, days - 1, |prices| - 1);
    NewestEma(prices, days);
  }

  lemma NewestEma(prices: Series, days: nat)
    requires 0 < days <= |prices|
    ensures BackEma(prices, days, |prices| - 1) ==
              TradeIndicator.EmaStep(prices[|prices| - 1].V, WindowSma(prices, days, |prices| - 1), days)
  {
  }

  /** The window ending at the newest point is the newest `days` prices. */
  lemma NewestWindow(prices: Series, days: nat)
    requires 0 < days <= |prices|
    ensures WindowSma(prices, days, |prices| - 1) == SumValues(prices[|prices| - days..]) / days as real
  {
    assert prices[|prices| - 1 - (days - 1)..|prices| - 1 + 1] == prices[|prices| - days..];
  }

  /** Each older entry is carried from the stored value of the next point, unless that value is 0,
      in which case its own window average seeds it again. */
  lemma OlderEntry(prices: Series, days: nat, i: int)
    requires 0 < days && days - 1 <= i < |prices| - 1 && Chronological(prices)
    ensures var v := BackMap(prices, days, days - 1);
            prices[i].TS in v && prices[i + 1].TS in v &&
            var next := v[prices[i + 1].TS];
            v[prices[i].TS] == TradeIndicator.EmaStep(prices[i].V, if next == 0.0 then WindowSma(prices, days, i) else next, days)
  {
    BackMapAt(prices, days, days - 1, i);
    BackMapAt(prices, days, days - 1, i + 1);
  }

  /** On a chronological series the points before index `days - 1` read as 0. */
  lemma OldestReadZero(prices: Series, days: nat, k: nat)
    requires 0 < days <= |prices| && k < days - 1 && Chronological(prices)
    ensures Indicator(TradeIndicator.EmaName(days), BackMap(prices, days, days - 1)).ForTimestamp(prices[k].TS) == 0.0
  {
    BackMapKeys(prices, days, days - 1, prices[k].TS);
  }

  /** Prices 1..5 with period 3 give 4.5, 4.25 and 3.625 for days 5, 4 and 3, nothing before. */
  method TestVector(now: int) returns (values: seq<real>)
    ensures values == [0.0, 0.0, 3.625, 4.25, 4.5]
  {
    var prices := TradeIndicator.TestPrices(now);
    var r := NewEMAIndicator(3, prices);
    assert WindowSma(prices, 3, 4) == 4.0 by {
      var w := prices[2..5];
      assert w == [prices[2], prices[3], prices[4]];
      assert w[1..][1..][1..] == [];
      assert SumValues(w[1..][1..]) == 5.0;
      assert SumValues(w[1..]) == 9.0;
      assert SumValues(w) == 12.0;
    }
    assert BackEma(prices, 3, 4) == 4.5;
    assert BackEma(prices, 3, 3) == 4.25;
    assert BackEma(prices, 3, 2) == 3.625;
    var ind := r.value;
    values := [];
    for k := 0 to 5
      invariant |values| == k
      invariant forall q :: 0 <= q < k ==> values[q] == [0.0, 0.0, 3.625, 4.25, 4.5][q]
    {
      if k < 2 {
        OldestReadZero(prices, 3, k);
      } else {
        BackMapAt(prices, 3, 2, k);
      }
      values := values + [ind.ForTimestamp(prices[k].TS)];
    }
  }
}
