/** Trades and the replay of a list of trades against a fiat balance (pkg/trade/trade.go). */
module Trade {
  import opened Timeseries
  import opened Outcomes
  import opened Coin

  datatype Side = Buy | Sell

  /** A trade: `Size` is a percentage in (0, 100] of the fiat balance (a buy) or of the units
      held (a sell); `Price` is the market's price at `Date`. */
  datatype Trade = Trade(Currency: Fiat, Side: Side, Date: DateText, Market: Market, Size: real, Price: real)

  predicate ValidSize(size: real) {
    0.0 < size <= 100.0
  }

  /** A percentage as a fraction. */
  function Fraction(size: real): real {
    size / 100.0
  }

  /** `NewTrade`: the size is checked first, then the market must have a price at the date; the
      trade takes the value of the first point on that date. */
  function NewTrade(side: Side, date: DateText, size: real, m: Market): (r: Result<Trade>)
    ensures r.Err? <==> !ValidSize(size) || !HasDate(m.Prices, date)
    ensures !ValidSize(size) ==> r == Err(InvalidTradeSize(size))
    ensures ValidSize(size) && !HasDate(m.Prices, date) ==> r == Err(PriceNotFound(m.ID))
    ensures r.Ok? ==> r.value.Currency == m.Currency && r.value.Side == side && r.value.Date == date &&
                      r.value.Market == m && r.value.Size == size
    ensures r.Ok? ==> exists i :: 0 <= i < |m.Prices| && m.Prices[i].Date() == date && r.value.Price == m.Prices[i].V &&
                                  forall j :: 0 <= j < i ==> m.Prices[j].Date() != date
  {
    if !ValidSize(size) then Err(InvalidTradeSize(size))
    else
      var lookup := FirstAtDate(m.Prices, date);
      if !lookup.found then Err(PriceNotFound(m.ID))
      else Ok(Trade(m.Currency, side, date, m, size, lookup.price.V))
  }

  function NewBuyAtDate(date: DateText, size: real, m: Market): (r: Result<Trade>)
    ensures r == NewTrade(Buy, date, size, m)
    ensures r.Ok? ==> r.value.Side == Buy
  {
    NewTrade(Buy, date, size, m)
  }

  function NewSellAtDate(date: DateText, size: real, m: Market): (r: Result<Trade>)
    ensures r == NewTrade(Sell, date, size, m)
    ensures r.Ok? ==> r.value.Side == Sell
  {
    NewTrade(Sell, date, size, m)
  }

  /** The empty string the date variables start as; it never parses. */
  const NoDate: DateText := Unparseable("")

  /** The running state of the replay. */
  datatype Ledger = Ledger(Fiat: real, Units: real, FoundFirstBuy: bool, Buys: nat, Sells: nat,
                           FirstBuyDate: DateText, LastSellDate: DateText)

  function Start(initialInvestment: real): Ledger {
    Ledger(initialInvestment, 0.0, false, 0, 0, NoDate, NoDate)
  }

  predicate PricedBuys(ts: seq<Trade>) {
    forall i :: 0 <= i < |ts| ==> ts[i].Side == Buy ==> ts[i].Price != 0.0
  }

  /** One trade of the replay: a buy spends `Size`% of the fiat on units; a sell before the first
      buy is skipped, any other sells `Size`% of the units for fiat. */
  function Step(l: Ledger, t: Trade): Ledger
    requires t.Side == Buy ==> t.Price != 0.0
  {
    match t.Side
    case Buy =>
      var amount := l.Fiat * Fraction(t.Size);
      Ledger(l.Fiat - amount, l.Units + amount / t.Price, true, l.Buys + 1, l.Sells,
             if l.FirstBuyDate == NoDate then t.Date else l.FirstBuyDate, l.LastSellDate)
    case Sell =>
      if !l.FoundFirstBuy then l
      else
        var units := l.Units * Fraction(t.Size);
        Ledger(l.Fiat + units * t.Price, l.Units - units, true, l.Buys, l.Sells + 1, l.FirstBuyDate, t.Date)
  }

  /** The ledger after the trades of `ts`, in order, starting from `l`. */
  function Run(l: Ledger, ts: seq<Trade>): Ledger
    requires PricedBuys(ts)
  {
    if ts == [] then l else Step(Run(l, ts[..|ts| - 1]), ts[|ts| - 1])
  }

  /** The printed summary of `ExecuteTradesAndPrint`. */
  datatype Summary = Summary(NumTxns: nat, FirstBuy: DateText, LastSell: DateText, DaysAfterFirstBuy: real,
                             InitialInvestment: real, PortfolioValue: real, PLPercent: real)

  const NsPerMs: int := 1_000_000
  const NsPerDay: int := 86_400_000_000_000
  const MaxDurationNs: int := 0x7FFF_FFFF_FFFF_FFFF
  const MinDurationNs: int := -0x8000_0000_0000_0000

  /** `b.Sub(a).Hours() / 24` for instants in milliseconds: the signed number of days from `a`
      to `b`, saturated at the range of a `time.Duration`. */
  function DaysBetween(a: int, b: int): (d: real)
    ensures MinDurationNs as real / NsPerDay as real <= d <= MaxDurationNs as real / NsPerDay as real
    ensures MinDurationNs <= (b - a) * NsPerMs <= MaxDurationNs ==> d == (b - a) as real / MsPerDay as real
  {
    var ns := (b - a) * NsPerMs;
    if ns > MaxDurationNs then MaxDurationNs as real / NsPerDay as real
    else if ns < MinDurationNs then MinDurationNs as real / NsPerDay as real
    else ns as real / NsPerDay as real
  }

  /** Mark-to-market is only applied when the replay ended holding a position from more buys than
      sells; it prices the units at the newest price of the first trade's market. */
  predicate EndsOnBuy(l: Ledger) {
    l.Buys > l.Sells && l.Units > 0.0
  }

  /** What the source needs of its input: every buy has a price to divide by, the initial
      investment is something to divide by, and a mark-to-market has a newest price to read. */
  predicate Executable(initialInvestment: real, ts: seq<Trade>) {
    PricedBuys(ts) && initialInvestment != 0.0 &&
    (ts != [] && EndsOnBuy(Run(Start(initialInvestment), ts)) ==> |ts[0].Market.Prices| > 0)
  }

  /** The value of the units still held, priced at the newest point of `prices`; 0 unless the
      replay ended on a buy. */
  function MarkToMarket(l: Ledger, prices: Series): (r: real)
    requires EndsOnBuy(l) ==> |prices| > 0
    ensures r != 0.0 ==> EndsOnBuy(l)
    ensures (forall i :: 0 <= i < |prices| ==> prices[i].V >= 0.0) ==> r >= 0.0
  {
    if EndsOnBuy(l) then l.Units * prices[|prices| - 1].V else 0.0
  }

  /** The printed P/L: the portfolio value over the investment, less one, as a percentage. */
  function PLPercent(value: real, initialInvestment: real): real
    requires initialInvestment != 0.0
  {
    (value / initialInvestment - 1.0) * 100.0
  }

  function Summarise(initialInvestment: real, ts: seq<Trade>): Summary
    requires ts != [] && Executable(initialInvestment, ts)
  {
    var l := Run(Start(initialInvestment), ts);
    var value := l.Fiat + MarkToMarket(l, ts[0].Market.Prices);
    Summary(l.Buys + l.Sells, l.FirstBuyDate, l.LastSellDate,
            DaysBetween(ToTime(l.FirstBuyDate), ToTime(l.LastSellDate)),
            initialInvestment, value, PLPercent(value, initialInvestment))
  }

  /** `ExecuteTradesAndPrint`, its printing modelled as the summary it prints; an empty list
      prints nothing. */
  method ExecuteTradesAndPrint(title: string, initialInvestment: real, ts: seq<Trade>) returns (s: Option<Summary>)
    requires Executable(initialInvestment, ts)
    ensures s.None? <==> ts == []
    ensures s.Some? ==> s.value == Summarise(initialInvestment, ts)
  {
    if |ts| == 0 {
      return None;
    }
    var totalFiat := initialInvestment;
    var totalUnits := 0.0;
    var foundFirstBuy := false;
    var buys: nat := 0;
    var sells: nat := 0;
    var firstBuyDate := NoDate;
    var lastSellDate := NoDate;

    ghost var l := Start(initialInvestment);
    for i := 0 to |ts|
      invariant PricedBuys(ts[..i])
      invariant l == Run(Start(initialInvestment), ts[..i])
      invariant l == Ledger(totalFiat, totalUnits, foundFirstBuy, buys, sells, firstBuyDate, lastSellDate)
    {
      var t := ts[i];
      RunPrefix(Start(initialInvestment), ts, i);
      ghost var next := Step(l, t);
      if t.Side == Buy {
        foundFirstBuy := true;
        var pct := Fraction(t.Size);
        var amount := totalFiat * pct;
        var units := amount / t.Price;
        BuyStep(totalFiat, totalUnits, l.FoundFirstBuy, buys, sells, firstBuyDate, lastSellDate, t, pct, amount, units);
        totalFiat := totalFiat - amount;
        totalUnits := totalUnits + units;
        buys := buys + 1;
        if firstBuyDate == NoDate {
          firstBuyDate := t.Date;
        }
      } else if t.Side == Sell {
        if !foundFirstBuy {
          SkippedSell(l, t);
          l := next;
          continue;
        }
        var pct := Fraction(t.Size);
        var units := totalUnits * pct;
        var amount := units * t.Price;
        SellStep(totalFiat, totalUnits, buys, sells, firstBuyDate, lastSellDate, t, pct, units, amount);
        totalFiat := totalFiat + amount;
        totalUnits := totalUnits - units;
        sells := sells + 1;
        lastSellDate := t.Date;
      }
      l := next;
    }
    assert ts[..|ts|] == ts;

    var numTxns := buys + sells;
    var daysDiff := DaysBetween(ToTime(firstBuyDate), ToTime(lastSellDate));
    var totalFiatOfExistingPosition := 0.0;
    if buys > sells && totalUnits > 0.0 {
      var prices := ts[0].Market.Prices;
      var latestPrice := prices[|prices| - 1].V;
      totalFiatOfExistingPosition := totalUnits * latestPrice;
      OpenPosition(totalFiat, totalUnits, foundFirstBuy, buys, sells, firstBuyDate, lastSellDate, prices, latestPrice,
                   totalFiatOfExistingPosition);
    }
    var pl := (totalFiat + totalFiatOfExistingPosition) / initialInvestment;
    assert (pl - 1.0) * 100.0 == PLPercent(totalFiat + totalFiatOfExistingPosition, initialInvestment);
    SummariseReplay(initialInvestment, ts, l);
    s := Some(Summary(numTxns, firstBuyDate, lastSellDate, daysDiff, initialInvestment,
                      totalFiat + totalFiatOfExistingPosition, (pl - 1.0) * 100.0));
  }

  lemma OpenPosition(fiat: real, units: real, found: bool, buys: nat, sells: nat, first: DateText, last: DateText,
                     prices: Series, latest: real, value: real)
    requires buys > sells && units > 0.0 && |prices| > 0
    requires latest == prices[|prices| - 1].V && value == units * latest
    ensures MarkToMarket(Ledger(fiat, units, found, buys, sells, first, last), prices) == value
  {
  }

  lemma SummariseReplay(initialInvestment: real, ts: seq<Trade>, l: Ledger)
    requires ts != [] && Executable(initialInvestment, ts) && l == Run(Start(initialInvestment), ts)
    ensures Summarise(initialInvestment, ts) ==
            Summary(l.Buys + l.Sells, l.FirstBuyDate, l.LastSellDate, DaysBetween(ToTime(l.FirstBuyDate), ToTime(l.LastSellDate)),
                    initialInvestment, l.Fiat + MarkToMarket(l, ts[0].Market.Prices),
                    PLPercent(l.Fiat + MarkToMarket(l, ts[0].Market.Prices), initialInvestment))
  {
  }

  lemma RunPrefix(l: Ledger, ts: seq<Trade>, i: nat)
    requires PricedBuys(ts) && i < |ts|
    ensures PricedBuys(ts[..i]) && PricedBuys(ts[..i + 1])
    ensures Run(l, ts[..i + 1]) == Step(Run(l, ts[..i]), ts[i])
  {
    assert ts[..i + 1][..i] == ts[..i];
  }

  lemma BuyStep(fiat: real, units: real, found: bool, buys: nat, sells: nat, first: DateText, last: DateText,
                t: Trade, pct: real, amount: real, bought: real)
    requires t.Side == Buy && t.Price != 0.0
    requires pct == Fraction(t.Size) && amount == fiat * pct && bought == amount / t.Price
    ensures Step(Ledger(fiat, units, found, buys, sells, first, last), t) ==
            Ledger(fiat - amount, units + bought, true, buys + 1, sells, if first == NoDate then t.Date else first, last)
  {
    assert amount == fiat * Fraction(t.Size);
  }

  lemma SkippedSell(l: Ledger, t: Trade)
    requires t.Side == Sell && !l.FoundFirstBuy
    ensures Step(l, t) == l
  {
  }

  lemma SellStep(fiat: real, units: real, buys: nat, sells: nat, first: DateText, last: DateText,
                 t: Trade, pct: real, sold: real, amount: real)
    requires t.Side == Sell
    requires pct == Fraction(t.Size) && sold == units * pct && amount == sold * t.Price
    ensures Step(Ledger(fiat, units, true, buys, sells, first, last), t) ==
            Ledger(fiat + amount, units - sold, true, buys, sells + 1, first, t.Date)
  {
    assert sold == units * Fraction(t.Size);
  }

  lemma StepPreservesValue(l: Ledger, t: Trade)
    requires t.Side == Buy ==> t.Price != 0.0
    ensures Step(l, t).Fiat + Step(l, t).Units * t.Price == l.Fiat + l.Units * t.Price
  {
    if t.Side == Buy {
      var amount := l.Fiat * Fraction(t.Size);
      assert amount / t.Price * t.Price == amount;
      assert (l.Units + amount / t.Price) * t.Price == l.Units * t.Price + amount / t.Price * t.Price;
    } else if l.FoundFirstBuy {
      var units := l.Units * Fraction(t.Size);
      assert (l.Units - units) * t.Price == l.Units * t.Price - units * t.Price;
    }
  }

  predicate Solvent(l: Ledger) {
    l.Fiat >= 0.0 && l.Units >= 0.0
  }

  predicate WellFormed(ts: seq<Trade>) {
    forall i :: 0 <= i < |ts| ==> ValidSize(ts[i].Size) && ts[i].Price > 0.0
  }

  /** With sizes in (0, 100] and positive prices neither balance goes negative. */
  lemma StepSolvent(l: Ledger, t: Trade)
    requires Solvent(l) && ValidSize(t.Size) && t.Price > 0.0
    ensures Solvent(Step(l, t))
  {
    if t.Side == Buy {
      BuySolvent(l, t);
    } else if l.FoundFirstBuy {
      SellSolvent(l, t);
    }
  }

  lemma BuySolvent(l: Ledger, t: Trade)
    requires Solvent(l) && ValidSize(t.Size) && t.Price > 0.0 && t.Side == Buy
    ensures Solvent(Step(l, t))
  {
    var amount := l.Fiat * Fraction(t.Size);
    Scale(l.Fiat, Fraction(t.Size));
    Quotient(amount, t.Price);
    BuyStep(l.Fiat, l.Units, l.FoundFirstBuy, l.Buys, l.Sells, l.FirstBuyDate, l.LastSellDate, t, Fraction(t.Size), amount, amount / t.Price);
  }

  lemma SellSolvent(l: Ledger, t: Trade)
    requires Solvent(l) && ValidSize(t.Size) && t.Price > 0.0 && t.Side == Sell && l.FoundFirstBuy
    ensures Solvent(Step(l, t))
  {
    var units := l.Units * Fraction(t.Size);
    Scale(l.Units, Fraction(t.Size));
    Product(units, t.Price);
    SellStep(l.Fiat, l.Units, l.Buys, l.Sells, l.FirstBuyDate, l.LastSellDate, t, Fraction(t.Size), units, units * t.Price);
  }

  lemma Quotient(a: real, p: real)
    requires 0.0 <= a && 0.0 < p
    ensures 0.0 <= a / p
  {
  }

  lemma Product(a: real, p: real)
    requires 0.0 <= a && 0.0 < p
    ensures 0.0 <= a * p
  {
  }

  lemma Scale(x: real, p: real)
    requires 0.0 <= x && 0.0 < p <= 1.0
    ensures 0.0 <= x * p <= x
  {
  }

  lemma {:induction false} RunSolvent(l: Ledger, ts: seq<Trade>)
    requires Solvent(l) && WellFormed(ts)
    ensures Solvent(Run(l, ts))
  {
    if ts != [] {
      RunSolvent(l, ts[..|ts| - 1]);
      StepSolvent(Run(l, ts[..|ts| - 1]), ts[|ts| - 1]);
    }
  }

  /** From a non-negative investment the replay never holds negative fiat or units. */
  lemma ReplaySolvent(initialInvestment: real, ts: seq<Trade>)
    requires initialInvestment >= 0.0 && WellFormed(ts)
    ensures Solvent(Run(Start(initialInvestment), ts))
  {
    RunSolvent(Start(initialInvestment), ts);
  }

  /** Replaying two lists one after the other is replaying their concatenation. */
  lemma {:induction false} RunAppend(l: Ledger, a: seq<Trade>, b: seq<Trade>)
    requires PricedBuys(a) && PricedBuys(b)
    ensures PricedBuys(a + b)
    ensures Run(l, a + b) == Run(Run(l, a), b)
  {
    assert PricedBuys(a + b) by {
      forall i | 0 <= i < |a + b| && (a + b)[i].Side == Buy ensures (a + b)[i].Price != 0.0 {
        if i < |a| { assert (a + b)[i] == a[i]; } else { assert (a + b)[i] == b[i - |a|]; }
      }
    }
    if b == [] {
      assert a + b == a;
    } else {
      assert (a + b)[..|a + b| - 1] == a + b[..|b| - 1];
      RunAppend(l, a, b[..|b| - 1]);
    }
  }

  predicate NoSide(ts: seq<Trade>, side: Side) {
    forall i :: 0 <= i < |ts| ==> ts[i].Side != side
  }

  /** Sells before the first buy change neither the balances nor the counters. */
  lemma {:induction false} SellsBeforeFirstBuy(l: Ledger, ts: seq<Trade>)
    requires !l.FoundFirstBuy && NoSide(ts, Buy)
    ensures Run(l, ts) == l
  {
    if ts != [] {
      SellsBeforeFirstBuy(l, ts[..|ts| - 1]);
    }
  }

  /** The number of trades of one side. */
  function Count(ts: seq<Trade>, side: Side): nat {
    if ts == [] then 0 else Count(ts[..|ts| - 1], side) + (if ts[|ts| - 1].Side == side then 1 else 0)
  }

  /** Once a buy has been seen every trade executes and is counted; the first-buy date, once set,
      stays. */
  lemma {:induction false} RunAfterFirstBuy(l: Ledger, ts: seq<Trade>)
    requires l.FoundFirstBuy && PricedBuys(ts)
    ensures Run(l, ts).FoundFirstBuy
    ensures Run(l, ts).Buys == l.Buys + Count(ts, Buy)
    ensures Run(l, ts).Sells == l.Sells + Count(ts, Sell)
    ensures l.FirstBuyDate != NoDate ==> Run(l, ts).FirstBuyDate == l.FirstBuyDate
  {
    if ts != [] {
      RunAfterFirstBuy(l, ts[..|ts| - 1]);
    }
  }

  /** A stretch without sells keeps the last sell date. */
  lemma {:induction false} RunWithoutSells(l: Ledger, ts: seq<Trade>)
    requires PricedBuys(ts) && NoSide(ts, Sell)
    ensures Run(l, ts).LastSellDate == l.LastSellDate
  {
    if ts != [] {
      RunWithoutSells(l, ts[..|ts| - 1]);
    }
  }

  /** With the first buy at index `k`: every buy is counted, only the sells after `k` are, and the
      first-buy date is that buy's date (when it is not the empty string). */
  lemma ReplayCounts(initialInvestment: real, ts: seq<Trade>, k: nat)
    requires PricedBuys(ts) && k < |ts| && ts[k].Side == Buy && NoSide(ts[..k], Buy)
    ensures var l := Run(Start(initialInvestment), ts);
            l.FoundFirstBuy && l.Buys == Count(ts, Buy) && l.Sells == Count(ts[k + 1..], Sell) &&
            (ts[k].Date != NoDate ==> l.FirstBuyDate == ts[k].Date)
  {
    var s := Start(initialInvestment);
    assert ts == ts[..k] + [ts[k]] + ts[k + 1..];
    assert PricedBuys(ts[..k]) && PricedBuys([ts[k]]) && PricedBuys(ts[k + 1..]);
    RunAppend(s, ts[..k] + [ts[k]], ts[k + 1..]);
    RunAppend(s, ts[..k], [ts[k]]);
    SellsBeforeFirstBuy(s, ts[..k]);
    assert [ts[k]][..0] == [];
    var l1 := Run(s, ts[..k] + [ts[k]]);
    assert l1 == Step(s, ts[k]);
    RunAfterFirstBuy(l1, ts[k + 1..]);
    CountAppend(ts[..k] + [ts[k]], ts[k + 1..], Buy);
    CountAppend(ts[..k], [ts[k]], Buy);
    NoSideCount(ts[..k], Buy);
  }

  /** The last sell date is the date of the last sell after the first buy. */
  lemma ReplayLastSell(initialInvestment: real, ts: seq<Trade>, k: nat, j: nat)
    requires PricedBuys(ts) && k < j < |ts| && ts[k].Side == Buy && ts[j].Side == Sell
    requires forall q :: j < q < |ts| ==> ts[q].Side != Sell
    ensures Run(Start(initialInvestment), ts).LastSellDate == ts[j].Date
  {
    var a, b := ts[..k + 1], ts[k + 1..];
    SplitPriced(ts, k + 1);
    assert a[k] == ts[k] && b[j - (k + 1)] == ts[j];
    NoSellInSuffix(ts, k + 1, j);
    ReplaySplit(Start(initialInvestment), a, b, k, j - (k + 1));
  }

  /** A buy at `k` of the first part, then a last sell at `j` of the second part. */
  lemma ReplaySplit(l: Ledger, a: seq<Trade>, b: seq<Trade>, k: nat, j: nat)
    requires PricedBuys(a) && PricedBuys(b) && k < |a| && a[k].Side == Buy
    requires j < |b| && b[j].Side == Sell && forall q :: j < q < |b| ==> b[q].Side != Sell
    ensures PricedBuys(a + b) && Run(l, a + b).LastSellDate == b[j].Date
  {
    RunAppend(l, a, b);
    RunFindsBuy(l, a, k);
    RunLastSell(Run(l, a), b, j);
  }

  lemma SplitPriced(ts: seq<Trade>, m: nat)
    requires PricedBuys(ts) && m <= |ts|
    ensures ts == ts[..m] + ts[m..] && PricedBuys(ts[..m]) && PricedBuys(ts[m..])
  {
    assert forall i :: 0 <= i < |ts| - m ==> ts[m..][i] == ts[i + m];
  }

  /** No sell after `j` in `ts` is no sell after the matching index in a suffix of it. */
  lemma NoSellInSuffix(ts: seq<Trade>, m: nat, j: nat)
    requires m <= j < |ts| && forall q :: j < q < |ts| ==> ts[q].Side != Sell
    ensures forall q :: j - m < q < |ts[m..]| ==> ts[m..][q].Side != Sell
  {
    forall q | j - m < q < |ts[m..]| ensures ts[m..][q].Side != Sell {
      assert ts[m..][q] == ts[q + m];
    }
  }

  /** A buy anywhere in the list marks the first buy as found. */
  lemma {:induction false} RunFindsBuy(l: Ledger, ts: seq<Trade>, k: nat)
    requires PricedBuys(ts) && k < |ts| && ts[k].Side == Buy
    ensures Run(l, ts).FoundFirstBuy
  {
    if k < |ts| - 1 {
      RunFindsBuy(l, ts[..|ts| - 1], k);
    }
  }

  /** After the first buy, a sell at `j` with none after it sets the last sell date. */
  lemma {:induction false} RunLastSell(l: Ledger, ts: seq<Trade>, j: nat)
    requires l.FoundFirstBuy && PricedBuys(ts) && j < |ts| && ts[j].Side == Sell
    requires forall q :: j < q < |ts| ==> ts[q].Side != Sell
    ensures Run(l, ts).LastSellDate == ts[j].Date
  {
    if j == |ts| - 1 {
      RunAfterFirstBuy(l, ts[..j]);
    } else {
      RunLastSell(l, ts[..|ts| - 1], j);
    }
  }

  lemma {:induction false} CountAppend(a: seq<Trade>, b: seq<Trade>, side: Side)
    ensures Count(a + b, side) == Count(a, side) + Count(b, side)
  {
    if b == [] {
      assert a + b == a;
    } else {
      assert (a + b)[..|a + b| - 1] == a + b[..|b| - 1];
      CountAppend(a, b[..|b| - 1], side);
    }
  }

  lemma {:induction false} NoSideCount(ts: seq<Trade>, side: Side)
    requires NoSide(ts, side)
    ensures Count(ts, side) == 0
  {
    if ts != [] {
      NoSideCount(ts[..|ts| - 1], side);
    }
  }

  /** A replay that ends without an open position is worth its fiat alone. */
  lemma FlatReplayIsFiat(initialInvestment: real, ts: seq<Trade>)
    requires ts != [] && Executable(initialInvestment, ts)
    ensures var l := Run(Start(initialInvestment), ts);
            !EndsOnBuy(l) ==> Summarise(initialInvestment, ts).PortfolioValue == l.Fiat
  {
  }

  /** The P/L is positive exactly when the portfolio is worth more than a positive initial
      investment. */
  lemma ProfitIffGain(value: real, initialInvestment: real)
    requires initialInvestment > 0.0
    ensures PLPercent(value, initialInvestment) > 0.0 <==> value > initialInvestment
  {
    assert value / initialInvestment > 1.0 <==> value > initialInvestment;
  }

  /** An empty trade list prints nothing. */
  method EmptyListIsNoop(initialInvestment: real) returns (s: Option<Summary>)
    requires initialInvestment != 0.0
    ensures s == None
  {
    s := ExecuteTradesAndPrint("", initialInvestment, []);
  }
}
