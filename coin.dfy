/** Coins and markets of the price provider (pkg/coingecko/coin.go, and the fields of
    pkg/coingecko/market.go that the core reads). */
module Coin {
  import opened Timeseries
  import Text

  type Fiat = string

  const USD: Fiat := "usd"
  const EUR: Fiat := "eur"

  /** `TimeSeriesValue` and `TimeSeries` have the same shape and the same `Date` as the
      `timeseries` package's `ValueAt` and `Series`. */
  type TimeSeriesValue = ValueAt
  type TimeSeries = Series

  datatype Coin = Coin(ID: string, Currency: Fiat, Prices: TimeSeries, MarketCaps: TimeSeries,
                       TotalVolumes: TimeSeries)

  /** A market as the price provider returns it; only the fields the core reads. */
  datatype Market = Market(Currency: Fiat, Prices: Series, ID: string, Symbol: string, Name: string)

  /** `NewCoin`: the id lower-cased, the currency kept, no price data yet. */
  function NewCoin(id: string, currency: Fiat): (c: Coin)
    ensures |c.ID| == |id| && forall i :: 0 <= i < |c.ID| ==> c.ID[i] == Text.LowerRune(id[i])
    ensures forall i :: 0 <= i < |c.ID| ==> !Text.IsAsciiUpper(c.ID[i])
    ensures c.Currency == currency
    ensures c.Prices == [] && c.MarketCaps == [] && c.TotalVolumes == []
  {
    Coin(Text.ToLower(id), currency, [], [], [])
  }

  /** `Coin.PriceAtDate`: the same first-match scan as `Series.AtDate`, over the coin's prices. */
  method PriceAtDate(c: Coin, date: DateText) returns (price: TimeSeriesValue, found: bool)
    ensures found <==> HasDate(c.Prices, date)
    ensures found ==> exists i :: 0 <= i < |c.Prices| && c.Prices[i] == price && c.Prices[i].Date() == date &&
                                  forall j :: 0 <= j < i ==> c.Prices[j].Date() != date
    ensures !found ==> price == NoValue
  {
    price, found := AtDate(c.Prices, date);
  }

  /** `NewTimeSeries`: one value per tuple, in order. */
  method NewTimeSeries(tuples: seq<Tuple>) returns (ts: TimeSeries)
    ensures |ts| == |tuples|
    ensures forall i :: 0 <= i < |ts| ==> ts[i].TS == Truncate(tuples[i].0) && ts[i].V == tuples[i].1
  {
    ts := FromTuples(tuples);
  }

  /** `TimeSeriesValue.Date` reads the timestamp only. */
  lemma DateDependsOnlyOnTimestamp(v: TimeSeriesValue, w: TimeSeriesValue)
    requires v.TS == w.TS
    ensures v.Date() == w.Date()
  {
  }
}
