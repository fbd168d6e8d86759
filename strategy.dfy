/** The EMA crossover strategy of pkg/trade/strategy.go: a scan over the prices that compares a
    short and a long EMA at each point with the pair seen at the previous point where both were
    defined, and signals a buy when the short EMA crosses above the long one and a sell when it
    crosses below. */
module Strategy {
  import opened Timeseries
  import opened Outcomes
  import opened TradeIndicator
  import opened Trade

  datatype EMACrossOverStrategy = EMACrossOverStrategy(ShortEMA: Indicator, LongEMA: Indicator, Prices: Series)

  /** A signal the scan reports, with the point it was reported at. */
  datatype Signal = Signal(Side: Side, Point: ValueAt)

  /** The decision at one point from the previous pair and the current pair: nothing unless both
      previous values are positive; a sell when the short EMA was above and is now below; a buy
      when it was below and is now above. */
  function Classify(lastShort: real, lastLong: real, short: real, long: real): (r: Option<Side>)
    ensures r == Some(Sell) <==> lastShort > 0.0 && lastLong > 0.0 && lastShort > lastLong && short < long
    ensures r == Some(Buy) <==> lastShort > 0.0 && lastLong > 0.0 && lastShort < lastLong && short > long
    ensures lastShort == lastLong || short == long ==> r == None
  {
    if lastShort > 0.0 && lastLong > 0.0 then
      var fromBelow := lastShort < lastLong && short > long;
      var fromAbove := lastShort > lastLong && short < long;
      if fromAbove then Some(Sell)
      else if fromBelow then Some(Buy)
      else None
    else None
  }

  function Emit(o: Option<Side>, p: ValueAt): (s: seq<Signal>)
    ensures |s| <= 1
  {
    if o.Some? then [Signal(o.value, p)] else []
  }

  /** Both EMAs have a (non-zero) value at the point. */
  predicate Defined(short: Indicator, long: Indicator, p: ValueAt) {
    short.ForTimestamp(p.TS) != 0.0 && long.ForTimestamp(p.TS) != 0.0
  }

  /** What the loop reports from index `i` on, carrying the pair of the last point where both EMAs
      were defined; other points are skipped without touching that pair. */
  function Scan(short: Indicator, long: Indicator, prices: Series, i: nat, lastShort: real, lastLong: real): seq<Signal>
    requires i <= |prices|
    decreases |prices| - i
  {
    if i == |prices| then []
    else
      var s := short.ForTimestamp(prices[i].TS);
      var l := long.ForTimestamp(prices[i].TS);
      if s == 0.0 || l == 0.0 then Scan(short, long, prices, i + 1, lastShort, lastLong)
      else Emit(Classify(lastShort, lastLong, s, l), prices[i]) + Scan(short, long, prices, i + 1, s, l)
  }

  /** `NewEMACrossOverStrategy`: keeps the indicators and prices it is given, and reports (the
      source prints) the signals of the scan. */
  method NewEMACrossOverStrategy(shortEMA: Indicator, longEMA: Indicator, prices: Series)
    returns (strat: EMACrossOverStrategy, signals: seq<Signal>)
    ensures strat == EMACrossOverStrategy(shortEMA, longEMA, prices)
    ensures signals == Signals(shortEMA, longEMA, prices)
  {
    strat := EMACrossOverStrategy(shortEMA, longEMA, prices);
    signals := [];
    var lastShort := 0.0;
    var lastLong := 0.0;
    for i := 0 to |prices|
      invariant signals + Scan(shortEMA, longEMA, prices, i, lastShort, lastLong) == Scan(shortEMA, longEMA, prices, 0, 0.0, 0.0)
    {
      var p := prices[i];
      var short := shortEMA.ForTimestamp(p.TS);
      var long := longEMA.ForTimestamp(p.TS);
      if short == 0.0 || long == 0.0 {
        continue;
      }
      ghost var before := signals;
      if lastShort > 0.0 && lastLong > 0.0 {
        var shortCrossedOverLongFromBelow := lastShort < lastLong && short > long;
        var shortCrossedOverLongFromAbove := lastShort > lastLong && short < long;
        if shortCrossedOverLongFromAbove {
          signals := signals + [Signal(Sell, p)];
        } else if shortCrossedOverLongFromBelow {
          signals := signals + [Signal(Buy, p)];
        }
      }
      assert signals == before + Emit(Classify(lastShort, lastLong, short, long), p);
      assert Scan(shortEMA, longEMA, prices, i, lastShort, lastLong) ==
               Emit(Classify(lastShort, lastLong, short, long), p) + Scan(shortEMA, longEMA, prices, i + 1, short, long);
      assert signals + Scan(shortEMA, longEMA, prices, i + 1, short, long) ==
               before + Scan(shortEMA, longEMA, prices, i, lastShort, lastLong);
      lastShort := short;
      lastLong := long;
    }
    ScanIsPointwise(shortEMA, longEMA, prices, 0);
  }

  // A reference definition that decides every point on its own.

  /** The pair the scan carries into point `q` when it starts at `i` with the given pair: the pair
      at the last point before `q` where both EMAs are defined. */
  function CarriedInto(short: Indicator, long: Indicator, prices: Series, i: nat, q: nat, lastShort: real, lastLong: real): (real, real)
    requires i <= q <= |prices|
    decreases q - i
  {
    if i == q then (lastShort, lastLong)
    else if Defined(short, long, prices[i]) then
      CarriedInto(short, long, prices, i + 1, q, short.ForTimestamp(prices[i].TS), long.ForTimestamp(prices[i].TS))
    else CarriedInto(short, long, prices, i + 1, q, lastShort, lastLong)
  }

  /** The signal at point `q`: none where an EMA is undefined, otherwise the classification
      against the pair carried in from the start (where the pair is 0, 0). */
  function SignalAt(short: Indicator, long: Indicator, prices: Series, q: nat): Option<Side>
    requires q < |prices|
  {
    if !Defined(short, long, prices[q]) then None
    else
      var c := CarriedInto(short, long, prices, 0, q, 0.0, 0.0);
      Classify(c.0, c.1, short.ForTimestamp(prices[q].TS), long.ForTimestamp(prices[q].TS))
  }

  /** The signals of the points from `q` on, in the order of the series. */
  function SignalsFrom(short: Indicator, long: Indicator, prices: Series, q: nat): seq<Signal>
    requires q <= |prices|
    decreases |prices| - q
  {
    if q == |prices| then [] else Emit(SignalAt(short, long, prices, q), prices[q]) + SignalsFrom(short, long, prices, q + 1)
  }

  function Signals(short: Indicator, long: Indicator, prices: Series): seq<Signal> {
    SignalsFrom(short, long, prices, 0)
  }

  /** Carrying the pair one point further. */
  lemma {:induction false} CarriedStep(short: Indicator, long: Indicator, prices: Series, i: nat, q: nat, a: real, b: real)
    requires i <= q < |prices|
    decreases q - i
    ensures var c := CarriedInto(short, long, prices, i, q, a, b);
            CarriedInto(short, long, prices, i, q + 1, a, b) ==
              if Defined(short, long, prices[q]) then (short.ForTimestamp(prices[q].TS), long.ForTimestamp(prices[q].TS)) else c
  {
    if i < q {
      if Defined(short, long, prices[i]) {
        CarriedStep(short, long, prices, i + 1, q, short.ForTimestamp(prices[i].TS), long.ForTimestamp(prices[i].TS));
      } else {
        CarriedStep(short, long, prices, i + 1, q, a, b);
      }
    }
  }

  /** The scan from `i`, started with the pair carried into `i`, reports the pointwise signals. */
  lemma {:induction false} ScanIsPointwise(short: Indicator, long: Indicator, prices: Series, i: nat)
    requires i <= |prices|
    decreases |prices| - i
    ensures var c := CarriedInto(short, long, prices, 0, i, 0.0, 0.0);
            Scan(short, long, prices, i, c.0, c.1) == SignalsFrom(short, long, prices, i)
  {
    if i < |prices| {
      CarriedStep(short, long, prices, 0, i, 0.0, 0.0);
      ScanIsPointwise(short, long, prices, i + 1);
    }
  }

  // Properties of the signals.

  /** A buy is reported only where the short EMA is above the long one and a sell only where it
      is below; both EMAs are defined there, and the previous pair they crossed was positive and
      ordered the other way. */
  lemma SignalMeaning(short: Indicator, long: Indicator, prices: Series, q: nat)
    requires q < |prices|
    ensures var c := CarriedInto(short, long, prices, 0, q, 0.0, 0.0);
            var s := short.ForTimestamp(prices[q].TS);
            var l := long.ForTimestamp(prices[q].TS);
            (SignalAt(short, long, prices, q) == Some(Buy) <==>
               Defined(short, long, prices[q]) && c.0 > 0.0 && c.1 > 0.0 && c.0 < c.1 && s > l) &&
            (SignalAt(short, long, prices, q) == Some(Sell) <==>
               Defined(short, long, prices[q]) && c.0 > 0.0 && c.1 > 0.0 && c.0 > c.1 && s < l)
  {
  }

  /** Before the first point where both EMAs are defined the carried pair is still the initial
      0, 0 (or whatever pair the scan started with). */
  lemma {:induction false} CarriedThroughUndefined(short: Indicator, long: Indicator, prices: Series, i: nat, q: nat, a: real, b: real)
    requires i <= q <= |prices|
    requires forall k :: i <= k < q ==> !Defined(short, long, prices[k])
    decreases q - i
    ensures CarriedInto(short, long, prices, i, q, a, b) == (a, b)
  {
    if i < q {
      CarriedThroughUndefined(short, long, prices, i + 1, q, a, b);
    }
  }

  /** The first point where both EMAs are defined never signals. */
  lemma FirstDefinedPointIsSilent(short: Indicator, long: Indicator, prices: Series, e: nat)
    requires e < |prices| && forall k :: 0 <= k < e ==> !Defined(short, long, prices[k])
    ensures SignalAt(short, long, prices, e) == None
  {
    CarriedThroughUndefined(short, long, prices, 0, e, 0.0, 0.0);
  }

  /** The indices from `q` on of the points that carry a signal, in ascending order. */
  function SignalPoints(short: Indicator, long: Indicator, prices: Series, q: nat): (js: seq<nat>)
    requires q <= |prices|
    decreases |prices| - q
    ensures |js| <= |prices| - q
    ensures forall k :: 0 <= k < |js| ==> q <= js[k] < |prices| && SignalAt(short, long, prices, js[k]).Some?
    ensures forall k1, k2 :: 0 <= k1 < k2 < |js| ==> js[k1] < js[k2]
    ensures forall j :: q <= j < |prices| && SignalAt(short, long, prices, j).Some? ==> j in js
  {
    if q == |prices| then []
    else if SignalAt(short, long, prices, q).Some? then [q] + SignalPoints(short, long, prices, q + 1)
    else SignalPoints(short, long, prices, q + 1)
  }

  /** The reported signals are exactly the points that carry a signal, one signal each, in the
      order of the series: the k-th signal is at the k-th such point and has that point's side. */
  lemma {:induction false} SignalsFromOrder(short: Indicator, long: Indicator, prices: Series, q: nat)
    requires q <= |prices|
    decreases |prices| - q
    ensures var signals := SignalsFrom(short, long, prices, q);
            var js := SignalPoints(short, long, prices, q);
            |signals| == |js| &&
            forall k :: 0 <= k < |signals| ==>
              signals[k].Point == prices[js[k]] && SignalAt(short, long, prices, js[k]) == Some(signals[k].Side)
  {
    if q < |prices| {
      SignalsFromOrder(short, long, prices, q + 1);
      var rest := SignalsFrom(short, long, prices, q + 1);
      var restPoints := SignalPoints(short, long, prices, q + 1);
      var o := SignalAt(short, long, prices, q);
      if o.Some? {
        var signals := [Signal(o.value, prices[q])] + rest;
        var js := [q] + restPoints;
        assert SignalsFrom(short, long, prices, q) == signals;
        assert SignalPoints(short, long, prices, q) == js;
        forall k | 0 <= k < |signals|
          ensures signals[k].Point == prices[js[k]] && SignalAt(short, long, prices, js[k]) == Some(signals[k].Side)
        {
          if k > 0 {
            assert signals[k] == rest[k - 1] && js[k] == restPoints[k - 1];
          }
        }
      } else {
        assert SignalsFrom(short, long, prices, q) == rest;
        assert SignalPoints(short, long, prices, q) == restPoints;
      }
    }
  }
}
