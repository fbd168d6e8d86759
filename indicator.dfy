/** The exponential moving average indicator of pkg/trade/indicator.go: seeded with the simple
    average of the first `days` prices and carried forward in time. */
module TradeIndicator {
  import opened Timeseries
  import opened Outcomes
  import Text

  datatype Indicator = Indicator(Name: string, ByTimestamp: map<int, real>, ByDateString: map<DateText, real>) {
    /** A stored timestamp reads its EMA; a missing one reads as Go's map zero value. */
    function ForTimestamp(milli: int): (v: real)
      ensures milli in ByTimestamp ==> v == ByTimestamp[milli]
      ensures milli !in ByTimestamp ==> v == 0.0
    {
      if milli in ByTimestamp then ByTimestamp[milli] else 0.0
    }

    /** The same lookup by date string. */
    function ForDate(date: DateText): (v: real)
      ensures date in ByDateString ==> v == ByDateString[date]
      ensures date !in ByDateString ==> v == 0.0
    {
      if date in ByDateString then ByDateString[date] else 0.0
    }
  }

  function EmaName(days: nat): string {
    Text.DecimalString(days) + "-Day EMA"
  }

  /** The smoothing factor `2 / (days + 1)`. */
  function Multiplier(days: nat): (m: real)
    requires days > 0
    ensures 0.0 < m <= 1.0
  {
    2.0 / (days as real + 1.0)
  }

  /** One smoothing step: the price weighted by the multiplier, the previous EMA by the rest. */
  function EmaStep(price: real, prev: real, days: nat): real
    requires days > 0
  {
    price * Multiplier(days) + prev * (1.0 - Multiplier(days))
  }

  /** The loops' arithmetic, with the multiplier computed once, is `EmaStep`. */
  lemma EmaStepIs(price: real, prev: real, days: nat, multiplier: real, ema: real)
    requires days > 0 && multiplier == 2.0 / (days as real + 1.0)
    requires ema == (price * multiplier) + (prev * (1.0 - multiplier))
    ensures ema == EmaStep(price, prev, days)
  {
  }

  /** The simple average of the first `days` prices. */
  function Sma(prices: Series, days: nat): real
    requires 0 < days <= |prices|
  {
    SumValues(prices[..days]) / days as real
  }

  /** The EMA stored for point `i`: the previous day's EMA is the SMA seed at `i == days`, the
      EMA of point `i - 1` after that. */
  function Ema(prices: Series, days: nat, i: nat): real
    requires 0 < days <= i < |prices|
    decreases i
  {
    var prev := if i == days then Sma(prices, days) else Ema(prices, days, i - 1);
    EmaStep(prices[i].V, prev, days)
  }

  /** The timestamp map after the points before index `n` have been written, later points
      overwriting earlier ones. */
  function TimestampMap(prices: Series, days: nat, n: nat): map<int, real>
    requires 0 < days <= |prices| && n <= |prices|
  {
    if n <= days then map[]
    else TimestampMap(prices, days, n - 1)[prices[n - 1].TS := Ema(prices, days, n - 1)]
  }

  function DateMap(prices: Series, days: nat, n: nat): map<DateText, real>
    requires 0 < days <= |prices| && n <= |prices|
  {
    if n <= days then map[]
    else DateMap(prices, days, n - 1)[prices[n - 1].Date() := Ema(prices, days, n - 1)]
  }

  /** `NewEMAIndicator`: the period must be positive and covered by the prices (the source stops
      the process otherwise); every point from index `days` on is stored under its timestamp and
      under its date. */
  method NewEMAIndicator(days: nat, prices: Series) returns (r: Result<Indicator>)
    ensures r.Err? <==> days == 0 || |prices| < days
    ensures r.Err? ==> r.error == InsufficientData(|prices|, days)
    ensures r.Ok? ==> r.value.Name == EmaName(days) &&
                      r.value.ByTimestamp == TimestampMap(prices, days, |prices|) &&
                      r.value.ByDateString == DateMap(prices, days, |prices|)
    ensures r.Ok? && |prices| == days ==> r.value.ByTimestamp == map[] && r.value.ByDateString == map[]
  {
    if days == 0 || |prices| < days {
      return Err(InsufficientData(|prices|, days));
    }
    var byTimestamp: map<int, real> := map[];
    var byDateString: map<DateText, real> := map[];
    var multiplier := 2.0 / (days as real + 1.0);

    var i := 0;
    var total := 0.0;
    while i < days
      invariant 0 <= i <= days
      invariant total == SumValues(prices[..i])
    {
      SumValuesAppend(prices[..i], prices[i]);
      assert prices[..i + 1] == prices[..i] + [prices[i]];
      total := total + prices[i].V;
      i := i + 1;
    }
    var sma := total / days as real;
    var prevDayEMA := sma;

    while i < |prices|
      invariant days <= i <= |prices|
      invariant prevDayEMA == if i == days then Sma(prices, days) else Ema(prices, days, i - 1)
      invariant byTimestamp == TimestampMap(prices, days, i)
      invariant byDateString == DateMap(prices, days, i)
    {
      var cur := prices[i];
      var ema := (cur.V * multiplier) + (prevDayEMA * (1.0 - multiplier));
      EmaStepIs(cur.V, prevDayEMA, days, multiplier, ema);
      byTimestamp := byTimestamp[cur.TS := ema];
      byDateString := byDateString[cur.Date() := ema];
      prevDayEMA := ema;
      i := i + 1;
    }
    r := Ok(Indicator(EmaName(days), byTimestamp, byDateString));
  }

  /** Exactly the timestamps of the points from index `days` on are stored. */
  lemma {:induction false} TimestampMapKeys(prices: Series, days: nat, n: nat, ts: int)
    requires 0 < days <= |prices| && n <= |prices|
    ensures ts in TimestampMap(prices, days, n) <==> exists i :: days <= i < n && prices[i].TS == ts
  {
    if n > days {
      TimestampMapKeys(prices, days, n - 1, ts);
    }
  }

  /** A point no later point shares its timestamp with keeps its own EMA in the map. */
  lemma {:induction false} TimestampMapAt(prices: Series, days: nat, n: nat, i: nat)
    requires 0 < days <= i < n <= |prices|
    requires forall j :: i < j < n ==> prices[j].TS != prices[i].TS
    ensures prices[i].TS in TimestampMap(prices, days, n)
    ensures TimestampMap(prices, days, n)[prices[i].TS] == Ema(prices, days, i)
  {
    if i < n - 1 {
      TimestampMapAt(prices, days, n - 1, i);
    }
  }

  /** Exactly the dates of the points from index `days` on are stored. */
  lemma {:induction false} DateMapKeys(prices: Series, days: nat, n: nat, d: DateText)
    requires 0 < days <= |prices| && n <= |prices|
    ensures d in DateMap(prices, days, n) <==> exists i :: days <= i < n && prices[i].Date() == d
  {
    if n > days {
      DateMapKeys(prices, days, n - 1, d);
    }
  }

  /** A point no later point shares its date with keeps its own EMA in the date map. */
  lemma {:induction false} DateMapAt(prices: Series, days: nat, n: nat, i: nat)
    requires 0 < days <= i < n <= |prices|
    requires forall j :: i < j < n ==> prices[j].Date() != prices[i].Date()
    ensures prices[i].Date() in DateMap(prices, days, n)
    ensures DateMap(prices, days, n)[prices[i].Date()] == Ema(prices, days, i)
  {
    if i < n - 1 {
      DateMapAt(prices, days, n - 1, i);
    }
  }

  /** On a chronological series the first `days` points read as 0 and every later point reads
      as its EMA. */
  lemma ForTimestampOfPoint(prices: Series, days: nat, i: nat)
    requires 0 < days <= |prices| && i < |prices| && Chronological(prices)
    ensures var ind := Indicator(EmaName(days), TimestampMap(prices, days, |prices|), DateMap(prices, days, |prices|));
            ind.ForTimestamp(prices[i].TS) == if i < days then 0.0 else Ema(prices, days, i)
  {
    if i < days {
      TimestampMapKeys(prices, days, |prices|, prices[i].TS);
    } else {
      TimestampMapAt(prices, days, |prices|, i);
    }
  }

  /** One of the first `days` points whose date no later point repeats reads as 0 by date. */
  lemma ForDateEarly(prices: Series, days: nat, i: nat)
    requires 0 < days <= |prices| && i < days
    requires forall j :: i < j < |prices| ==> prices[j].Date() != prices[i].Date()
    ensures var ind := Indicator(EmaName(days), TimestampMap(prices, days, |prices|), DateMap(prices, days, |prices|));
            ind.ForDate(prices[i].Date()) == 0.0
  {
    DateMapKeys(prices, days, |prices|, prices[i].Date());
  }

  /** The date map agrees with the timestamp map at every stored point whose date (and hence
      timestamp) no later point repeats. */
  lemma DateAgreesWithTimestamp(prices: Series, days: nat, i: nat)
    requires 0 < days <= i < |prices|
    requires forall j :: i < j < |prices| ==> prices[j].Date() != prices[i].Date()
    ensures prices[i].Date() in DateMap(prices, days, |prices|)
    ensures prices[i].TS in TimestampMap(prices, days, |prices|)
    ensures DateMap(prices, days, |prices|)[prices[i].Date()] == TimestampMap(prices, days, |prices|)[prices[i].TS]
  {
    DateMapAt(prices, days, |prices|, i);
    TimestampMapAt(prices, days, |prices|, i);
  }

  /** Each EMA is a convex combination of a price and an earlier average, so it stays within
      the range of the prices. */
  lemma {:induction false} EmaWithinRange(prices: Series, days: nat, i: nat, lo: real, hi: real)
    requires 0 < days <= i < |prices|
    requires forall k :: 0 <= k < |prices| ==> lo <= prices[k].V <= hi
    ensures lo <= Ema(prices, days, i) <= hi
  {
    if i == days {
      SmaWithinRange(prices, days, lo, hi);
    } else {
      EmaWithinRange(prices, days, i - 1, lo, hi);
    }
    var prev := if i == days then Sma(prices, days) else Ema(prices, days, i - 1);
    ConvexBounds(prices[i].V, prev, Multiplier(days), lo, hi);
  }

  lemma SmaWithinRange(prices: Series, days: nat, lo: real, hi: real)
    requires 0 < days <= |prices|
    requires forall k :: 0 <= k < |prices| ==> lo <= prices[k].V <= hi
    ensures lo <= Sma(prices, days) <= hi
  {
    var first := prices[..days];
    assert forall k :: 0 <= k < |first| ==> lo <= first[k].V <= hi;
    SumValuesBounds(first, lo, hi);
    DivBounds(SumValues(first), days as real, lo, hi);
  }

  lemma DivBounds(s: real, n: real, lo: real, hi: real)
    requires n > 0.0 && n * lo <= s <= n * hi
    ensures lo <= s / n <= hi
  {
  }

  lemma ConvexBounds(x: real, y: real, m: real, lo: real, hi: real)
    requires lo <= x <= hi && lo <= y <= hi && 0.0 < m <= 1.0
    ensures lo <= x * m + y * (1.0 - m) <= hi
  {
    ProductNonNegative(x - lo, m);
    ProductNonNegative(y - lo, 1.0 - m);
    ProductNonNegative(hi - x, m);
    ProductNonNegative(hi - y, 1.0 - m);
    assert x * m + y * (1.0 - m) - lo == (x - lo) * m + (y - lo) * (1.0 - m);
    assert hi - (x * m + y * (1.0 - m)) == (hi - x) * m + (hi - y) * (1.0 - m);
  }

  lemma ProductNonNegative(a: real, b: real)
    requires 0.0 <= a && 0.0 <= b
    ensures 0.0 <= a * b
  {
  }

  /** Every stored EMA lies within the range of the prices. */
  lemma StoredWithinRange(prices: Series, days: nat, lo: real, hi: real, ts: int)
    requires 0 < days <= |prices|
    requires forall k :: 0 <= k < |prices| ==> lo <= prices[k].V <= hi
    requires ts in TimestampMap(prices, days, |prices|)
    ensures lo <= TimestampMap(prices, days, |prices|)[ts] <= hi
  {
    StoredWithinRangeUpTo(prices, days, |prices|, lo, hi, ts);
  }

  lemma {:induction false} StoredWithinRangeUpTo(prices: Series, days: nat, n: nat, lo: real, hi: real, ts: int)
    requires 0 < days <= |prices| && n <= |prices|
    requires forall k :: 0 <= k < |prices| ==> lo <= prices[k].V <= hi
    requires ts in TimestampMap(prices, days, n)
    ensures lo <= TimestampMap(prices, days, n)[ts] <= hi
  {
    if n > days {
      if ts == prices[n - 1].TS {
        EmaWithinRange(prices, days, n - 1, lo, hi);
      } else {
        StoredWithinRangeUpTo(prices, days, n - 1, lo, hi, ts);
      }
    }
  }

  /** The series of the source's test: prices 1 to 5 on five consecutive days from `now`. */
  function TestPrices(now: int): Series {
    [ValueAt(now, 1.0), ValueAt(now + MsPerDay, 2.0), ValueAt(now + 2 * MsPerDay, 3.0),
     ValueAt(now + 3 * MsPerDay, 4.0), ValueAt(now + 4 * MsPerDay, 5.0)]
  }

  /** Prices 1..5 with period 3: no value for the first three days, then 3.0 and 4.0. */
  method TestVector(now: int) returns (values: seq<real>)
    ensures values == [0.0, 0.0, 0.0, 3.0, 4.0]
  {
    var prices := TestPrices(now);
    var r := NewEMAIndicator(3, prices);
    assert Sma(prices, 3) == 2.0 by {
      var first := prices[..3];
      assert first == [prices[0], prices[1], prices[2]];
      assert first[1..][1..][1..] == [];
      assert SumValues(first[1..][1..]) == 3.0;
      assert SumValues(first[1..]) == 5.0;
      assert SumValues(first) == 6.0;
    }
    assert Ema(prices, 3, 3) == 3.0;
    assert Ema(prices, 3, 4) == 4.0;
    var ind := r.value;
    values := [];
    for i := 0 to 5
      invariant |values| == i
      invariant forall k :: 0 <= k < i ==> values[k] == [0.0, 0.0, 0.0, 3.0, 4.0][k]
    {
      ForTimestampOfPoint(prices, 3, i);
      values := values + [ind.ForTimestamp(prices[i].TS)];
    }
  }
}
