/** The constant-product liquidity-pool farm of pkg/trade/farm.go.

    A farm holds units of two assets A and B in a pool that keeps the product of the two unit
    counts fixed (`k = a * b`) and rebalances them so that both sides are worth the same at the
    current prices. Harvesting pays the APR on the pool's value for the days since the last
    harvest; adding liquidity splits an amount 50/50 between the assets.

    The value-level functions (`Rebalanced`, `Logged`, `Added`, `Harvested`, ...) specify the
    operations; the class `LPFarm` performs them in place and is proved against them. */
module Farm {
  import opened Timeseries
  import opened Outcomes
  import opened Coin

  /** `math.Sqrt` on the non-negative reals: a non-negative root. What it returns for a negative
      argument (NaN) is left unconstrained. */
  ghost predicate IsSqrt(sqrt: real -> real) {
    forall x: real :: x >= 0.0 ==> IsRoot(sqrt, x)
  }

  /** `Root(sqrt, x)` is a non-negative square root of `x`. */
  ghost predicate IsRoot(sqrt: real -> real, x: real) {
    Root(sqrt, x) >= 0.0 && Root(sqrt, x) * Root(sqrt, x) == x
  }

  /** The root the farm computes, as `math.Sqrt(x)`. */
  function Root(sqrt: real -> real, x: real): real {
    sqrt(x)
  }

  /** Every price of the market is positive (the source divides by prices). */
  predicate PositivePrices(m: Market) {
    forall i :: 0 <= i < |m.Prices| ==> m.Prices[i].V > 0.0
  }

  datatype HistoryItem = HistoryItem(Date: Day, PriceA: real, PriceB: real, UnitsA: real, UnitsB: real,
                                     TotalValue: real, TotalValueHODL: real,
                                     TotalValueHODLOnlyA: real, TotalValueHODLOnlyB: real, APR: real)

  /** The fields of a farm that its operations change. */
  datatype Position = Position(APR: real, APRChangeRateAtHarvest: real, LastHarvestDate: Day,
                               UnitsA: real, UnitsB: real, InitialUnitsA: real, InitialUnitsB: real,
                               TotalValue: real, TotalValueHODL: real,
                               ChangeHistory: map<Day, HistoryItem>)

  /** Every history entry is filed under its own date. */
  predicate Keyed(h: map<Day, HistoryItem>) {
    forall d :: d in h ==> h[d].Date == d
  }

  // Arithmetic on square roots.

  lemma SquareLess(a: real, b: real)
    requires 0.0 <= a < b
    ensures a * a < b * b
  {
    assert (b - a) * b > 0.0;
    assert (b - a) * a >= 0.0;
    assert b * b - a * a == (b - a) * b + (b - a) * a;
  }

  /** Non-negative numbers with equal squares are equal. */
  lemma RootUnique(a: real, b: real)
    requires a >= 0.0 && b >= 0.0 && a * a == b * b
    ensures a == b
  {
    if a < b { SquareLess(a, b); }
    if b < a { SquareLess(b, a); }
  }

  /** Non-negative numbers are ordered as their squares. */
  lemma RootOrder(a: real, b: real)
    requires a >= 0.0 && b >= 0.0 && a * a <= b * b
    ensures a <= b
  {
    if b < a { SquareLess(b, a); }
  }

  lemma SquareOfProduct(u: real, v: real, x: real, y: real)
    requires u * u == x && v * v == y
    ensures (u * v) * (u * v) == x * y
  {
  }

  lemma QuotientTimesProduct(k: real, rt: real)
    requires rt != 0.0
    ensures (k / rt) * (k * rt) == k * k
  {
    var q := k / rt;
    assert q * rt == k;
    assert q * (k * rt) == (q * rt) * k;
  }

  /** `(k / (pa / pb)) * pa * pa == k * pa * pb` */
  lemma ValueSquareA(k: real, pa: real, pb: real)
    requires pa > 0.0 && pb > 0.0
    ensures (k / (pa / pb)) * (pa * pa) == k * (pa * pb)
  {
    var rt := pa / pb;
    var q := k / rt;
    assert q * rt == k;
    assert rt * pb == pa;
    assert q * pa == q * (rt * pb);
    assert q * pa == k * pb;
    assert q * (pa * pa) == (q * pa) * pa;
  }

  /** `(k * (pa / pb)) * pb * pb == k * pa * pb` */
  lemma ValueSquareB(k: real, pa: real, pb: real)
    requires pa > 0.0 && pb > 0.0
    ensures (k * (pa / pb)) * (pb * pb) == k * (pa * pb)
  {
    var rt := pa / pb;
    assert rt * pb == pa;
    assert (k * rt) * (pb * pb) == k * (rt * pb) * pb;
  }

  // The operations on values.

  /** `RebalanceLP`: units that keep `k = a * b` and make both sides equally valuable at
      `priceA`/`priceB`; the pool's value and the value of the initial units at those prices. */
  function Rebalanced(sqrt: real -> real, p: Position, priceA: real, priceB: real): Position
    requires priceA > 0.0 && priceB > 0.0
  {
    var k := PoolConstant(p);
    var rt := PriceRatio(priceA, priceB);
    var unitsA := Root(sqrt, SquareA(k, rt));
    var unitsB := Root(sqrt, SquareB(k, rt));
    p.(UnitsA := unitsA, UnitsB := unitsB,
       TotalValue := Worth(unitsA, unitsB, priceA, priceB),
       TotalValueHODL := Worth(p.InitialUnitsA, p.InitialUnitsB, priceA, priceB))
  }

  /** The value of holding `unitsA` of A and `unitsB` of B at the prices. */
  function Worth(unitsA: real, unitsB: real, priceA: real, priceB: real): real {
    unitsA * priceA + unitsB * priceB
  }

  /** `k`: the product of the units, which rebalancing keeps. */
  function PoolConstant(p: Position): real {
    p.UnitsA * p.UnitsB
  }

  /** `rt`: the price of A in units of B. */
  function PriceRatio(priceA: real, priceB: real): real
    requires priceB != 0.0
  {
    priceA / priceB
  }

  /** The squares of the rebalanced units: `k / rt` for A and `k * rt` for B. */
  function SquareA(k: real, rt: real): real
    requires rt != 0.0
  {
    k / rt
  }

  function SquareB(k: real, rt: real): real {
    k * rt
  }

  /** Both sides of the pool are worth the same at these prices. */
  predicate Balanced(p: Position, priceA: real, priceB: real) {
    p.UnitsA * priceA == p.UnitsB * priceB
  }

  /** The two roots rebalancing takes multiply back to `k`. */
  lemma RootsKeepProduct(sqrt: real -> real, k: real, rt: real)
    requires IsSqrt(sqrt) && k >= 0.0 && rt > 0.0
    ensures Root(sqrt, SquareA(k, rt)) >= 0.0 && Root(sqrt, SquareB(k, rt)) >= 0.0
    ensures Root(sqrt, SquareA(k, rt)) * Root(sqrt, SquareB(k, rt)) == k
  {
    assert IsRoot(sqrt, SquareA(k, rt)) && IsRoot(sqrt, SquareB(k, rt));
    SquareOfProduct(Root(sqrt, SquareA(k, rt)), Root(sqrt, SquareB(k, rt)), k / rt, k * rt);
    QuotientTimesProduct(k, rt);
    RootUnique(Root(sqrt, SquareA(k, rt)) * Root(sqrt, SquareB(k, rt)), k);
  }

  /** ... and are worth the same at the prices whose ratio they were taken for. */
  lemma RootsBalance(sqrt: real -> real, k: real, rt: real, priceA: real, priceB: real)
    requires IsSqrt(sqrt) && k >= 0.0 && priceA > 0.0 && priceB > 0.0 && rt == PriceRatio(priceA, priceB)
    ensures Root(sqrt, SquareA(k, rt)) * priceA == Root(sqrt, SquareB(k, rt)) * priceB
  {
    assert k / rt >= 0.0 && k * rt >= 0.0;
    assert IsRoot(sqrt, SquareA(k, rt)) && IsRoot(sqrt, SquareB(k, rt));
    SquareOfProduct(Root(sqrt, SquareA(k, rt)), priceA, k / rt, priceA * priceA);
    SquareOfProduct(Root(sqrt, SquareB(k, rt)), priceB, k * rt, priceB * priceB);
    ValueSquareA(k, priceA, priceB);
    ValueSquareB(k, priceA, priceB);
    RootUnique(Root(sqrt, SquareA(k, rt)) * priceA, Root(sqrt, SquareB(k, rt)) * priceB);
  }

  /** Balanced non-negative units are their own roots. */
  lemma RootsOfBalanced(sqrt: real -> real, a: real, b: real, k: real, rt: real, priceA: real, priceB: real)
    requires IsSqrt(sqrt) && priceA > 0.0 && priceB > 0.0 && rt == PriceRatio(priceA, priceB)
    requires a >= 0.0 && b >= 0.0 && a * priceA == b * priceB && k == a * b
    ensures Root(sqrt, SquareA(k, rt)) == a && Root(sqrt, SquareB(k, rt)) == b
  {
    assert rt * priceB == priceA;
    assert b == a * rt by {
      assert b * priceB == (a * rt) * priceB;
    }
    assert k / rt == a * a by {
      assert k == (a * a) * rt;
    }
    assert k * rt == b * b;
    assert IsRoot(sqrt, SquareA(k, rt)) && IsRoot(sqrt, SquareB(k, rt));
    RootUnique(Root(sqrt, SquareA(k, rt)), a);
    RootUnique(Root(sqrt, SquareB(k, rt)), b);
  }

  /** Rebalancing keeps the product of the units, leaves non-negative units worth the same on
      both sides, and values the pool at twice one side; nothing but units and values changes. */
  lemma RebalanceKeepsProduct(sqrt: real -> real, p: Position, priceA: real, priceB: real)
    requires IsSqrt(sqrt) && priceA > 0.0 && priceB > 0.0 && PoolConstant(p) >= 0.0
    ensures var q := Rebalanced(sqrt, p, priceA, priceB);
            q.UnitsA >= 0.0 && q.UnitsB >= 0.0 &&
            PoolConstant(q) == PoolConstant(p) &&
            Balanced(q, priceA, priceB) &&
            q.TotalValue == 2.0 * (q.UnitsA * priceA) &&
            q.TotalValueHODL == p.InitialUnitsA * priceA + p.InitialUnitsB * priceB &&
            q.(UnitsA := p.UnitsA, UnitsB := p.UnitsB, TotalValue := p.TotalValue, TotalValueHODL := p.TotalValueHODL) == p
  {
    RootsKeepProduct(sqrt, PoolConstant(p), PriceRatio(priceA, priceB));
    RootsBalance(sqrt, PoolConstant(p), PriceRatio(priceA, priceB), priceA, priceB);
  }

  /** A pool that is already balanced, with non-negative units, is left as it is. */
  lemma RebalanceBalanced(sqrt: real -> real, p: Position, priceA: real, priceB: real)
    requires IsSqrt(sqrt) && priceA > 0.0 && priceB > 0.0
    requires p.UnitsA >= 0.0 && p.UnitsB >= 0.0 && Balanced(p, priceA, priceB)
    ensures var q := Rebalanced(sqrt, p, priceA, priceB);
            q.UnitsA == p.UnitsA && q.UnitsB == p.UnitsB
  {
    RootsOfBalanced(sqrt, p.UnitsA, p.UnitsB, PoolConstant(p), PriceRatio(priceA, priceB), priceA, priceB);
  }

  /** `RebalanceLP` is idempotent at fixed prices, so the second call in `Harvest` changes
      nothing. */
  lemma RebalanceIdempotent(sqrt: real -> real, p: Position, priceA: real, priceB: real)
    requires IsSqrt(sqrt) && priceA > 0.0 && priceB > 0.0 && PoolConstant(p) >= 0.0
    ensures var q := Rebalanced(sqrt, p, priceA, priceB);
            Rebalanced(sqrt, q, priceA, priceB) == q
  {
    RebalanceKeepsProduct(sqrt, p, priceA, priceB);
    RebalanceBalanced(sqrt, Rebalanced(sqrt, p, priceA, priceB), priceA, priceB);
  }

  /** Impermanent loss: while the product of the units is still that of the initial units, the
      rebalanced pool is worth no more than holding the initial units. */
  lemma PoolBelowHodl(sqrt: real -> real, p: Position, priceA: real, priceB: real)
    requires IsSqrt(sqrt) && priceA > 0.0 && priceB > 0.0
    requires p.InitialUnitsA >= 0.0 && p.InitialUnitsB >= 0.0
    requires p.UnitsA * p.UnitsB == p.InitialUnitsA * p.InitialUnitsB
    ensures var q := Rebalanced(sqrt, p, priceA, priceB);
            q.TotalValue <= q.TotalValueHODL
  {
    RebalanceKeepsProduct(sqrt, p, priceA, priceB);
    var q := Rebalanced(sqrt, p, priceA, priceB);
    var x := p.InitialUnitsA * priceA;
    var y := p.InitialUnitsB * priceB;
    var v := q.UnitsA * priceA;
    assert v >= 0.0 && x >= 0.0 && y >= 0.0;
    assert v * v == x * y by {
      assert v * v == (q.UnitsA * priceA) * (q.UnitsB * priceB);
      assert (q.UnitsA * priceA) * (q.UnitsB * priceB) == (q.UnitsA * q.UnitsB) * (priceA * priceB);
      assert (p.InitialUnitsA * p.InitialUnitsB) * (priceA * priceB) == x * y;
    }
    AmGm(x, y, v);
  }

  /** `2v <= x + y` when `v * v == x * y`. */
  lemma AmGm(x: real, y: real, v: real)
    requires x >= 0.0 && y >= 0.0 && v >= 0.0 && v * v == x * y
    ensures 2.0 * v <= x + y
  {
    assert (x + y) * (x + y) - (2.0 * v) * (2.0 * v) == (x - y) * (x - y);
    RootOrder(2.0 * v, x + y);
  }

  /** Prices moving by a common factor leave a balanced pool's units alone and scale its value. */
  lemma ProportionalMove(sqrt: real -> real, p: Position, priceA: real, priceB: real, c: real)
    requires IsSqrt(sqrt) && priceA > 0.0 && priceB > 0.0 && c > 0.0
    requires p.UnitsA >= 0.0 && p.UnitsB >= 0.0 && Balanced(p, priceA, priceB)
    requires p.TotalValue == p.UnitsA * priceA + p.UnitsB * priceB
    ensures var q := Rebalanced(sqrt, p, c * priceA, c * priceB);
            q.UnitsA == p.UnitsA && q.UnitsB == p.UnitsB && q.TotalValue == c * p.TotalValue
  {
    assert p.UnitsA * (c * priceA) == c * (p.UnitsA * priceA);
    assert p.UnitsB * (c * priceB) == c * (p.UnitsB * priceB);
    RebalanceBalanced(sqrt, p, c * priceA, c * priceB);
  }

  /** `LogChange`: files (or overwrites) the entry for `date`, recording the prices, the units,
      the values, the APR and the value of twice the initial units of each asset alone. */
  function Logged(p: Position, date: Day, priceA: real, priceB: real): (q: Position)
    ensures q.(ChangeHistory := p.ChangeHistory) == p
    ensures q.ChangeHistory.Keys == p.ChangeHistory.Keys + {date}
    ensures forall d :: d in p.ChangeHistory && d != date ==> q.ChangeHistory[d] == p.ChangeHistory[d]
    ensures Keyed(p.ChangeHistory) ==> Keyed(q.ChangeHistory)
  {
    p.(ChangeHistory := p.ChangeHistory[date := Record(p, date, priceA, priceB)])
  }

  /** The history entry of a position at a date and prices. */
  function Record(p: Position, date: Day, priceA: real, priceB: real): HistoryItem {
    HistoryItem(date, priceA, priceB, p.UnitsA, p.UnitsB, p.TotalValue, p.TotalValueHODL,
                DoubledWorth(p.InitialUnitsA, priceA), DoubledWorth(p.InitialUnitsB, priceB), p.APR)
  }

  /** The value of twice some units at a price: what holding only that asset would be worth. */
  function DoubledWorth(units: real, price: real): real {
    units * 2.0 * price
  }

  /** The entry `LogChange` files describes the position at that date. */
  lemma LoggedEntry(p: Position, date: Day, priceA: real, priceB: real)
    ensures var h := Logged(p, date, priceA, priceB).ChangeHistory[date];
            h.Date == date && h.PriceA == priceA && h.PriceB == priceB &&
            h.UnitsA == p.UnitsA && h.UnitsB == p.UnitsB && h.APR == p.APR &&
            h.TotalValue == p.TotalValue && h.TotalValueHODL == p.TotalValueHODL &&
            h.TotalValueHODLOnlyA == 2.0 * (p.InitialUnitsA * priceA) &&
            h.TotalValueHODLOnlyB == 2.0 * (p.InitialUnitsB * priceB)
  {
  }

  /** `GetPrices`: the first price of each asset at the date; the asset without one is named in
      the error, A first. */
  function PricesAt(a: Market, b: Market, date: Day): (r: Result<(ValueAt, ValueAt)>)
    ensures r.Err? <==> !HasDate(a.Prices, Formatted(date)) || !HasDate(b.Prices, Formatted(date))
    ensures r.Err? ==> r.error == PriceNotFound(if HasDate(a.Prices, Formatted(date)) then b.Symbol else a.Symbol)
    ensures r.Ok? ==> r.value.0 in a.Prices && r.value.0.Date() == Formatted(date) &&
                      r.value.1 in b.Prices && r.value.1.Date() == Formatted(date)
    ensures r.Ok? ==> r.value == (FirstAtDate(a.Prices, Formatted(date)).price, FirstAtDate(b.Prices, Formatted(date)).price)
  {
    var la := FirstAtDate(a.Prices, Formatted(date));
    if !la.found then Err(PriceNotFound(a.Symbol))
    else
      var lb := FirstAtDate(b.Prices, Formatted(date));
      if !lb.found then Err(PriceNotFound(b.Symbol))
      else Ok((la.price, lb.price))
  }

  lemma PricesPositive(a: Market, b: Market, date: Day)
    requires PositivePrices(a) && PositivePrices(b) && PricesAt(a, b, date).Ok?
    ensures PricesAt(a, b, date).value.0.V > 0.0 && PricesAt(a, b, date).value.1.V > 0.0
  {
  }

  /** `NewLPFarm` after the price lookup: half the investment in each asset, rebalanced and logged
      at the start date. */
  function Opened(sqrt: real -> real, initialInvestment: real, startDate: Day, apr: real,
                  priceA: real, priceB: real): Position
    requires priceA > 0.0 && priceB > 0.0
  {
    var unitsA := HalfUnits(initialInvestment, priceA);
    var unitsB := HalfUnits(initialInvestment, priceB);
    var p := Position(apr, 0.0, startDate, unitsA, unitsB, unitsA, unitsB, 0.0, 0.0, map[]);
    Logged(Rebalanced(sqrt, p, priceA, priceB), startDate, priceA, priceB)
  }

  /** The units half an amount buys at a price. */
  function HalfUnits(amount: real, price: real): real
    requires price > 0.0
  {
    amount / 2.0 / price
  }

  /** `NewLPFarm`: fails when a price is missing at the start date, otherwise opens the farm at
      those prices. */
  function Launched(sqrt: real -> real, a: Market, b: Market, initialInvestment: real, startDate: Day, apr: real): (r: Result<Position>)
    requires PositivePrices(a) && PositivePrices(b)
    ensures r.Err? <==> PricesAt(a, b, startDate).Err?
    ensures r.Err? ==> r.error == PricesAt(a, b, startDate).error
  {
    match PricesAt(a, b, startDate)
    case Err(e) => Err(e)
    case Ok((pa, pb)) =>
      PricesPositive(a, b, startDate);
      Ok(Opened(sqrt, initialInvestment, startDate, apr, pa.V, pb.V))
  }

  /** A new farm holds half the investment's worth of each asset, its initial units are its
      units, it is worth the investment both as a pool and held, it was last harvested at the
      start, and its history is the single entry of the start date. */
  lemma OpenedFarm(sqrt: real -> real, initialInvestment: real, startDate: Day, apr: real,
                   priceA: real, priceB: real)
    requires IsSqrt(sqrt) && priceA > 0.0 && priceB > 0.0 && initialInvestment >= 0.0
    ensures var p := Opened(sqrt, initialInvestment, startDate, apr, priceA, priceB);
            p.UnitsA * priceA == initialInvestment / 2.0 && p.UnitsB * priceB == initialInvestment / 2.0 &&
            p.InitialUnitsA == p.UnitsA && p.InitialUnitsB == p.UnitsB &&
            p.TotalValue == initialInvestment && p.TotalValueHODL == initialInvestment &&
            p.LastHarvestDate == startDate && p.APR == apr && p.APRChangeRateAtHarvest == 0.0 &&
            p.ChangeHistory.Keys == {startDate} && Keyed(p.ChangeHistory)
  {
    var p := Position(apr, 0.0, startDate, HalfUnits(initialInvestment, priceA), HalfUnits(initialInvestment, priceB),
                      HalfUnits(initialInvestment, priceA), HalfUnits(initialInvestment, priceB), 0.0, 0.0, map[]);
    HalfUnitsWorth(initialInvestment, priceA);
    HalfUnitsWorth(initialInvestment, priceB);
    RebalanceBalanced(sqrt, p, priceA, priceB);
  }

  /** Half an amount in units is worth half the amount, and is not negative for a non-negative
      amount. */
  lemma HalfUnitsWorth(amount: real, price: real)
    requires price > 0.0
    ensures HalfUnits(amount, price) * price == amount / 2.0
    ensures amount >= 0.0 ==> HalfUnits(amount, price) >= 0.0
  {
  }

  /** `AddLP` after the price lookup: the amount split 50/50 into units, rebalanced and logged. */
  function Deposited(sqrt: real -> real, p: Position, date: Day, amount: real, priceA: real, priceB: real): Position
    requires priceA > 0.0 && priceB > 0.0
  {
    var q := p.(UnitsA := p.UnitsA + HalfUnits(amount, priceA), UnitsB := p.UnitsB + HalfUnits(amount, priceB));
    Logged(Rebalanced(sqrt, q, priceA, priceB), date, priceA, priceB)
  }

  lemma DepositedSteps(sqrt: real -> real, p: Position, date: Day, amount: real, priceA: real, priceB: real)
    requires priceA > 0.0 && priceB > 0.0
    ensures var q := p.(UnitsA := p.UnitsA + HalfUnits(amount, priceA), UnitsB := p.UnitsB + HalfUnits(amount, priceB));
            Deposited(sqrt, p, date, amount, priceA, priceB) == Logged(Rebalanced(sqrt, q, priceA, priceB), date, priceA, priceB)
  {
  }

  /** `AddLP`: fails without a change when a price is missing. */
  function Added(sqrt: real -> real, a: Market, b: Market, p: Position, date: Day, amount: real): (r: Result<Position>)
    requires PositivePrices(a) && PositivePrices(b)
    ensures r.Err? <==> PricesAt(a, b, date).Err?
    ensures r.Err? ==> r.error == PricesAt(a, b, date).error
  {
    match PricesAt(a, b, date)
    case Err(e) => Err(e)
    case Ok((pa, pb)) =>
      PricesPositive(a, b, date);
      Ok(Deposited(sqrt, p, date, amount, pa.V, pb.V))
  }

  /** Adding liquidity to a pool balanced at the prices of the deposit raises its value by exactly
      the amount, keeps the held value and leaves it balanced. */
  lemma DepositAtBalance(sqrt: real -> real, p: Position, date: Day, amount: real, priceA: real, priceB: real)
    requires IsSqrt(sqrt) && priceA > 0.0 && priceB > 0.0 && amount >= 0.0
    requires p.UnitsA >= 0.0 && p.UnitsB >= 0.0 && Balanced(p, priceA, priceB)
    requires p.TotalValue == p.UnitsA * priceA + p.UnitsB * priceB
    requires p.TotalValueHODL == p.InitialUnitsA * priceA + p.InitialUnitsB * priceB
    ensures var q := Deposited(sqrt, p, date, amount, priceA, priceB);
            q.TotalValue == p.TotalValue + amount && q.TotalValueHODL == p.TotalValueHODL &&
            q.UnitsA == p.UnitsA + HalfUnits(amount, priceA) && q.UnitsB == p.UnitsB + HalfUnits(amount, priceB) &&
            Balanced(q, priceA, priceB)
  {
    HalfUnitsWorth(amount, priceA);
    HalfUnitsWorth(amount, priceB);
    AddHalf(p.UnitsA, amount, priceA);
    AddHalf(p.UnitsB, amount, priceB);
    RebalanceBalanced(sqrt, p.(UnitsA := p.UnitsA + HalfUnits(amount, priceA), UnitsB := p.UnitsB + HalfUnits(amount, priceB)), priceA, priceB);
  }

  /** Units topped up with half an amount are worth half the amount more. */
  lemma AddHalf(units: real, amount: real, price: real)
    requires price > 0.0
    ensures (units + HalfUnits(amount, price)) * price == units * price + amount / 2.0
  {
    HalfUnitsWorth(amount, price);
  }

  /** The APR after one decay step: lowered by the rate and floored at 0. */
  function Decayed(apr: real, rate: real): (r: real)
    ensures r >= 0.0 && r >= apr - rate
    ensures apr - rate >= 0.0 ==> r == apr - rate
  {
    if apr - rate < 0.0 then 0.0 else apr - rate
  }

  /** The share of the value one harvest pays: the APR per day, times the days. */
  function PeriodRate(apr: real, days: nat): real {
    (apr / 100.0 / 365.0) * days as real
  }

  /** The yield of a value at an APR over some days. */
  function Yield(value: real, apr: real, days: nat): real {
    value * PeriodRate(apr, days)
  }

  /** The APR decay a harvest applies first, only when the rate is positive. */
  function AprDecay(p: Position): (q: Position)
    ensures q.(APR := p.APR) == p
    ensures q.APR >= 0.0 || q.APR == p.APR
  {
    if p.APRChangeRateAtHarvest > 0.0 then p.(APR := Decayed(p.APR, p.APRChangeRateAtHarvest)) else p
  }

  /** The days a harvest pays for: `DiffDays` from the last harvest. */
  function HarvestDays(lastHarvestDate: Day, date: Day): nat {
    DiffDays(Formatted(date), Formatted(lastHarvestDate))
  }

  /** A harvest with both prices: rebalance, take the yield on the pool's value, record the date,
      rebalance again and log. */
  function Collected(sqrt: real -> real, p: Position, date: Day, days: nat, priceA: real, priceB: real): (Position, real)
    requires priceA > 0.0 && priceB > 0.0
  {
    var rebalanced := Rebalanced(sqrt, p, priceA, priceB);
    var paid := Yield(rebalanced.TotalValue, rebalanced.APR, days);
    var harvested := Rebalanced(sqrt, rebalanced.(LastHarvestDate := date), priceA, priceB);
    (Logged(harvested, date, priceA, priceB), paid)
  }

  /** `Harvest`: the new position and the yield or error.
      - A date not after the start date, or else not after the last harvest, is refused with
        nothing changed.
      - Otherwise, for a positive number of days, the APR decays first; a missing price then
        fails with only that decay done; with both prices the harvest is `Collected`. */
  function Harvested(sqrt: real -> real, a: Market, b: Market, startDate: Day, p: Position, date: Day): (Position, Result<real>)
    requires PositivePrices(a) && PositivePrices(b)
  {
    if startDate >= date then (p, Err(HarvestBeforeStart))
    else if p.LastHarvestDate >= date then (p, Err(HarvestBeforeLastHarvest))
    else
      var days := HarvestDays(p.LastHarvestDate, date);
      if days > 0 then
        var decayed := AprDecay(p);
        match PricesAt(a, b, date)
        case Err(e) => (decayed, Err(e))
        case Ok((pa, pb)) =>
          PricesPositive(a, b, date);
          var c := Collected(sqrt, decayed, date, days, pa.V, pb.V);
          (c.0, Ok(c.1))
      else (p, Ok(0.0))
  }

  // Properties of a harvest.

  /** A date not after the start, or not after the last harvest, is refused in that order and
      changes nothing. */
  lemma HarvestRefusesEarlyDates(sqrt: real -> real, a: Market, b: Market, startDate: Day, p: Position, date: Day)
    requires PositivePrices(a) && PositivePrices(b)
    ensures startDate >= date ==> Harvested(sqrt, a, b, startDate, p, date) == (p, Err(HarvestBeforeStart))
    ensures startDate < date <= p.LastHarvestDate ==>
              Harvested(sqrt, a, b, startDate, p, date) == (p, Err(HarvestBeforeLastHarvest))
    ensures startDate < date && p.LastHarvestDate < date ==>
              (Harvested(sqrt, a, b, startDate, p, date).1.Err? <==> PricesAt(a, b, date).Err?)
  {
  }

  /** After the date checks the day count is positive (the source's `days == 0` branch cannot be
      taken) and is the distance from the last harvest, capped where a duration saturates. */
  lemma HarvestDaysPositive(lastHarvestDate: Day, date: Day)
    requires lastHarvestDate < date
    ensures HarvestDays(lastHarvestDate, date) > 0
    ensures HarvestDays(lastHarvestDate, date) ==
              if date - lastHarvestDate <= MaxDurationDays then date - lastHarvestDate else MaxDurationDays
  {
  }

  /** Without a price at the date the APR has still decayed, and nothing else changed. */
  lemma HarvestWithoutPrice(sqrt: real -> real, a: Market, b: Market, startDate: Day, p: Position, date: Day)
    requires PositivePrices(a) && PositivePrices(b)
    requires startDate < date && p.LastHarvestDate < date && PricesAt(a, b, date).Err?
    ensures var h := Harvested(sqrt, a, b, startDate, p, date);
            h.1 == Err(PricesAt(a, b, date).error) && h.0.(APR := p.APR) == p &&
            h.0.APR == if p.APRChangeRateAtHarvest > 0.0 then Decayed(p.APR, p.APRChangeRateAtHarvest) else p.APR
  {
    HarvestDaysPositive(p.LastHarvestDate, date);
  }

  /** The second rebalance of a harvest changes nothing: a harvest with both prices is the first
      rebalance with the date recorded, then logged. */
  lemma CollectedOnce(sqrt: real -> real, p: Position, date: Day, days: nat, priceA: real, priceB: real)
    requires IsSqrt(sqrt) && priceA > 0.0 && priceB > 0.0 && PoolConstant(p) >= 0.0
    ensures var r := Rebalanced(sqrt, p, priceA, priceB);
            Collected(sqrt, p, date, days, priceA, priceB) ==
              (Logged(r.(LastHarvestDate := date), date, priceA, priceB), Yield(r.TotalValue, r.APR, days))
  {
    var r := Rebalanced(sqrt, p, priceA, priceB);
    RebalanceKeepsProduct(sqrt, p, priceA, priceB);
    RebalanceBalanced(sqrt, r.(LastHarvestDate := date), priceA, priceB);
  }

  /** What a harvest with both prices leaves: the APR, rate and initial units kept; the date
      recorded; the product of the units kept (the yield is not added to the pool); the pool
      balanced at the prices and valued at them; the yield the pool's value times the period
      rate; the history entry for the date describing the result. */
  lemma CollectedPosition(sqrt: real -> real, p: Position, date: Day, days: nat, priceA: real, priceB: real)
    requires IsSqrt(sqrt) && priceA > 0.0 && priceB > 0.0 && PoolConstant(p) >= 0.0
    ensures var (q, paid) := Collected(sqrt, p, date, days, priceA, priceB);
            q.APR == p.APR && q.APRChangeRateAtHarvest == p.APRChangeRateAtHarvest &&
            q.InitialUnitsA == p.InitialUnitsA && q.InitialUnitsB == p.InitialUnitsB &&
            q.LastHarvestDate == date &&
            PoolConstant(q) == PoolConstant(p) && q.UnitsA >= 0.0 && q.UnitsB >= 0.0 &&
            Balanced(q, priceA, priceB) &&
            q.TotalValue == Worth(q.UnitsA, q.UnitsB, priceA, priceB) &&
            q.TotalValueHODL == Worth(p.InitialUnitsA, p.InitialUnitsB, priceA, priceB) &&
            paid == Yield(q.TotalValue, q.APR, days) &&
            q.ChangeHistory == p.ChangeHistory[date := Record(q, date, priceA, priceB)]
  {
    CollectedOnce(sqrt, p, date, days, priceA, priceB);
    RebalanceKeepsProduct(sqrt, p, priceA, priceB);
  }

  /** A successful harvest is `Collected` after the APR decay. */
  lemma HarvestWithPrices(sqrt: real -> real, a: Market, b: Market, startDate: Day, p: Position, date: Day)
    requires PositivePrices(a) && PositivePrices(b)
    requires startDate < date && p.LastHarvestDate < date && PricesAt(a, b, date).Ok?
    ensures PricesAt(a, b, date).value.0.V > 0.0 && PricesAt(a, b, date).value.1.V > 0.0
    ensures var prices := PricesAt(a, b, date).value;
            var c := Collected(sqrt, AprDecay(p), date, HarvestDays(p.LastHarvestDate, date), prices.0.V, prices.1.V);
            Harvested(sqrt, a, b, startDate, p, date) == (c.0, Ok(c.1))
  {
    HarvestDaysPositive(p.LastHarvestDate, date);
    PricesPositive(a, b, date);
  }

  // Invariants of a farm's position.

  /** What every farm keeps: non-negative units, now and initially, and its history filed under
      the entries' own dates. */
  predicate Sound(p: Position) {
    p.UnitsA >= 0.0 && p.UnitsB >= 0.0 && p.InitialUnitsA >= 0.0 && p.InitialUnitsB >= 0.0 && Keyed(p.ChangeHistory)
  }

  /** The product of the units is still that of the initial units: no liquidity was added. */
  predicate NoLiquidityAdded(p: Position) {
    PoolConstant(p) == p.InitialUnitsA * p.InitialUnitsB
  }

  lemma ProductNonNegative(a: real, b: real)
    requires a >= 0.0 && b >= 0.0
    ensures a * b >= 0.0
  {
  }

  /** A farm opened with a non-negative investment is sound and has had no liquidity added. */
  lemma OpenedSound(sqrt: real -> real, initialInvestment: real, startDate: Day, apr: real, priceA: real, priceB: real)
    requires IsSqrt(sqrt) && priceA > 0.0 && priceB > 0.0 && initialInvestment >= 0.0
    ensures Sound(Opened(sqrt, initialInvestment, startDate, apr, priceA, priceB))
    ensures NoLiquidityAdded(Opened(sqrt, initialInvestment, startDate, apr, priceA, priceB))
  {
    OpenedFarm(sqrt, initialInvestment, startDate, apr, priceA, priceB);
    var p := Opened(sqrt, initialInvestment, startDate, apr, priceA, priceB);
    HalfUnitsWorth(initialInvestment, priceA);
    HalfUnitsWorth(initialInvestment, priceB);
    RebalanceBalanced(sqrt, Position(apr, 0.0, startDate, HalfUnits(initialInvestment, priceA), HalfUnits(initialInvestment, priceB),
                                     HalfUnits(initialInvestment, priceA), HalfUnits(initialInvestment, priceB), 0.0, 0.0, map[]), priceA, priceB);
  }

  /** A harvest keeps a farm sound and, when no liquidity was added, still none. */
  lemma HarvestSound(sqrt: real -> real, a: Market, b: Market, startDate: Day, p: Position, date: Day)
    requires IsSqrt(sqrt) && PositivePrices(a) && PositivePrices(b) && Sound(p)
    ensures Sound(Harvested(sqrt, a, b, startDate, p, date).0)
    ensures NoLiquidityAdded(p) ==> NoLiquidityAdded(Harvested(sqrt, a, b, startDate, p, date).0)
  {
    if startDate < date && p.LastHarvestDate < date && PricesAt(a, b, date).Ok? {
      HarvestWithPrices(sqrt, a, b, startDate, p, date);
      var prices := PricesAt(a, b, date).value;
      CollectedSound(sqrt, AprDecay(p), date, HarvestDays(p.LastHarvestDate, date), prices.0.V, prices.1.V);
    } else if startDate < date && p.LastHarvestDate < date {
      HarvestWithoutPrice(sqrt, a, b, startDate, p, date);
    }
  }

  lemma CollectedSound(sqrt: real -> real, p: Position, date: Day, days: nat, priceA: real, priceB: real)
    requires IsSqrt(sqrt) && priceA > 0.0 && priceB > 0.0 && Sound(p)
    ensures Sound(Collected(sqrt, p, date, days, priceA, priceB).0)
    ensures NoLiquidityAdded(p) ==> NoLiquidityAdded(Collected(sqrt, p, date, days, priceA, priceB).0)
  {
    ProductNonNegative(p.UnitsA, p.UnitsB);
    CollectedPosition(sqrt, p, date, days, priceA, priceB);
  }

  /** Impermanent loss after a harvest: with no liquidity added, a farm that harvested with both
      prices is worth no more than the initial units held. */
  lemma HarvestBelowHodl(sqrt: real -> real, a: Market, b: Market, startDate: Day, p: Position, date: Day)
    requires IsSqrt(sqrt) && PositivePrices(a) && PositivePrices(b) && Sound(p) && NoLiquidityAdded(p)
    requires startDate < date && p.LastHarvestDate < date && PricesAt(a, b, date).Ok?
    ensures var q := Harvested(sqrt, a, b, startDate, p, date).0;
            q.TotalValue <= q.TotalValueHODL
  {
    HarvestWithPrices(sqrt, a, b, startDate, p, date);
    var prices := PricesAt(a, b, date).value;
    CollectedBelowHodl(sqrt, AprDecay(p), date, HarvestDays(p.LastHarvestDate, date), prices.0.V, prices.1.V);
  }

  lemma CollectedBelowHodl(sqrt: real -> real, p: Position, date: Day, days: nat, priceA: real, priceB: real)
    requires IsSqrt(sqrt) && priceA > 0.0 && priceB > 0.0 && Sound(p) && NoLiquidityAdded(p)
    ensures var q := Collected(sqrt, p, date, days, priceA, priceB).0;
            q.TotalValue <= q.TotalValueHODL
  {
    ProductNonNegative(p.UnitsA, p.UnitsB);
    CollectedOnce(sqrt, p, date, days, priceA, priceB);
    PoolBelowHodl(sqrt, p, priceA, priceB);
  }

  /** Adding a non-negative amount keeps a farm sound; a missing price changes nothing. */
  lemma AddedSound(sqrt: real -> real, a: Market, b: Market, p: Position, date: Day, amount: real)
    requires IsSqrt(sqrt) && PositivePrices(a) && PositivePrices(b) && Sound(p) && amount >= 0.0
    ensures Added(sqrt, a, b, p, date, amount).Ok? ==> Sound(Added(sqrt, a, b, p, date, amount).value)
  {
    if PricesAt(a, b, date).Ok? {
      PricesPositive(a, b, date);
      var prices := PricesAt(a, b, date).value;
      DepositedSound(sqrt, p, date, amount, prices.0.V, prices.1.V);
    }
  }

  lemma DepositedSound(sqrt: real -> real, p: Position, date: Day, amount: real, priceA: real, priceB: real)
    requires IsSqrt(sqrt) && priceA > 0.0 && priceB > 0.0 && Sound(p) && amount >= 0.0
    ensures Sound(Deposited(sqrt, p, date, amount, priceA, priceB))
  {
    var q := p.(UnitsA := p.UnitsA + HalfUnits(amount, priceA), UnitsB := p.UnitsB + HalfUnits(amount, priceB));
    HalfUnitsWorth(amount, priceA);
    HalfUnitsWorth(amount, priceB);
    ProductNonNegative(q.UnitsA, q.UnitsB);
    RebalanceKeepsProduct(sqrt, q, priceA, priceB);
  }

  /** A harvest pays a non-negative yield when the APR is non-negative. */
  lemma HarvestYieldNonNegative(sqrt: real -> real, a: Market, b: Market, startDate: Day, p: Position, date: Day)
    requires IsSqrt(sqrt) && PositivePrices(a) && PositivePrices(b) && Sound(p) && p.APR >= 0.0
    ensures var h := Harvested(sqrt, a, b, startDate, p, date);
            h.1.Ok? ==> h.1.value >= 0.0
  {
    if startDate < date && p.LastHarvestDate < date && PricesAt(a, b, date).Ok? {
      HarvestWithPrices(sqrt, a, b, startDate, p, date);
      var prices := PricesAt(a, b, date).value;
      CollectedYieldNonNegative(sqrt, AprDecay(p), date, HarvestDays(p.LastHarvestDate, date), prices.0.V, prices.1.V);
    }
  }

  lemma CollectedYieldNonNegative(sqrt: real -> real, p: Position, date: Day, days: nat, priceA: real, priceB: real)
    requires IsSqrt(sqrt) && priceA > 0.0 && priceB > 0.0 && Sound(p) && p.APR >= 0.0
    ensures Collected(sqrt, p, date, days, priceA, priceB).1 >= 0.0
  {
    ProductNonNegative(p.UnitsA, p.UnitsB);
    RebalanceKeepsProduct(sqrt, p, priceA, priceB);
    var r := Rebalanced(sqrt, p, priceA, priceB);
    ProductNonNegative(r.UnitsA, priceA);
    ProductNonNegative(r.UnitsB, priceB);
    ProductNonNegative(r.APR / 100.0 / 365.0, days as real);
    ProductNonNegative(r.TotalValue, PeriodRate(r.APR, days));
  }

  /** Reinvesting after a harvest: adding an amount on the harvest date succeeds and raises the
      pool's value by exactly that amount, keeping the held value (how compounding works). */
  lemma AddAfterHarvest(sqrt: real -> real, a: Market, b: Market, startDate: Day, p: Position, date: Day, amount: real)
    requires IsSqrt(sqrt) && PositivePrices(a) && PositivePrices(b) && Sound(p) && amount >= 0.0
    requires startDate < date && p.LastHarvestDate < date && PricesAt(a, b, date).Ok?
    ensures var q := Harvested(sqrt, a, b, startDate, p, date).0;
            var r := Added(sqrt, a, b, q, date, amount);
            r.Ok? && r.value.TotalValue == q.TotalValue + amount && r.value.TotalValueHODL == q.TotalValueHODL
  {
    HarvestWithPrices(sqrt, a, b, startDate, p, date);
    var prices := PricesAt(a, b, date).value;
    DepositAfterCollect(sqrt, AprDecay(p), date, HarvestDays(p.LastHarvestDate, date), amount, prices.0.V, prices.1.V);
  }

  lemma DepositAfterCollect(sqrt: real -> real, p: Position, date: Day, days: nat, amount: real, priceA: real, priceB: real)
    requires IsSqrt(sqrt) && priceA > 0.0 && priceB > 0.0 && Sound(p) && amount >= 0.0
    ensures var q := Collected(sqrt, p, date, days, priceA, priceB).0;
            var r := Deposited(sqrt, q, date, amount, priceA, priceB);
            r.TotalValue == q.TotalValue + amount && r.TotalValueHODL == q.TotalValueHODL
  {
    ProductNonNegative(p.UnitsA, p.UnitsB);
    CollectedPosition(sqrt, p, date, days, priceA, priceB);
    DepositAtBalance(sqrt, Collected(sqrt, p, date, days, priceA, priceB).0, date, amount, priceA, priceB);
  }

  // Sorting the history.

  predicate Ascending(s: seq<HistoryItem>) {
    forall i, j :: 0 <= i < j < |s| ==> s[i].Date <= s[j].Date
  }

  /** One step of `sort.SliceStable` by date: the item goes after every item not later than it. */
  function InsertByDate(s: seq<HistoryItem>, x: HistoryItem): (r: seq<HistoryItem>)
    ensures multiset(r) == multiset(s) + multiset{x}
  {
    if s == [] then [x]
    else if x.Date < s[0].Date then [x] + s
    else
      assert s == [s[0]] + s[1..];
      [s[0]] + InsertByDate(s[1..], x)
  }

  /** Inserting keeps a lower bound on the dates. */
  lemma {:induction false} InsertKeepsBound(s: seq<HistoryItem>, x: HistoryItem, lo: Day)
    requires forall k :: 0 <= k < |s| ==> lo <= s[k].Date
    requires lo <= x.Date
    ensures forall k :: 0 <= k < |InsertByDate(s, x)| ==> lo <= InsertByDate(s, x)[k].Date
  {
    if s != [] && x.Date >= s[0].Date {
      InsertKeepsBound(s[1..], x, lo);
    }
  }

  /** Inserting into an ascending history keeps it ascending. */
  lemma {:induction false} InsertKeepsAscending(s: seq<HistoryItem>, x: HistoryItem)
    requires Ascending(s)
    ensures Ascending(InsertByDate(s, x))
  {
    if s != [] && x.Date >= s[0].Date {
      InsertKeepsAscending(s[1..], x);
      InsertKeepsBound(s[1..], x, s[0].Date);
      var rest := InsertByDate(s[1..], x);
      var r := [s[0]] + rest;
      assert InsertByDate(s, x) == r;
      forall i, j | 0 <= i < j < |r| ensures r[i].Date <= r[j].Date {
        if i > 0 {
          assert r[i] == rest[i - 1] && r[j] == rest[j - 1];
        } else {
          assert r[j] == rest[j - 1];
        }
      }
    }
  }

  /** `sort.SliceStable` by date, as repeated insertion. */
  function SortByDate(s: seq<HistoryItem>): (r: seq<HistoryItem>)
    ensures multiset(r) == multiset(s) && Ascending(r)
  {
    if s == [] then []
    else
      assert s == s[..|s| - 1] + [s[|s| - 1]];
      InsertKeepsAscending(SortByDate(s[..|s| - 1]), s[|s| - 1]);
      InsertByDate(SortByDate(s[..|s| - 1]), s[|s| - 1])
  }

  // The farm object.

  /** An `LPFarm`: the markets, currency, investment, start date and initial APR it was opened
      with, and the position its methods update. `sqrt` stands for `math.Sqrt`. */
  class LPFarm {
    const sqrt: real -> real
    const A: Market
    const B: Market
    const Currency: Fiat
    const InitialInvestment: real
    const StartDate: Day
    const InitialAPR: real
    var APR: real
    var APRChangeRateAtHarvest: real
    var LastHarvestDate: Day
    var UnitsA: real
    var UnitsB: real
    var InitialUnitsA: real
    var InitialUnitsB: real
    var TotalValue: real
    var TotalValueHODL: real
    var ChangeHistory: map<Day, HistoryItem>

    /** The fields the operations change, as a value. */
    function State(): Position
      reads this
    {
      Position(APR, APRChangeRateAtHarvest, LastHarvestDate, UnitsA, UnitsB, InitialUnitsA, InitialUnitsB,
               TotalValue, TotalValueHODL, ChangeHistory)
    }

    /** A correct square root, positive prices, and the history filed by date. */
    ghost predicate Valid()
      reads this
    {
      IsSqrt(sqrt) && PositivePrices(A) && PositivePrices(B) && Keyed(ChangeHistory)
    }

    /** The struct literal of `NewLPFarm`: last harvested at the start, no units yet, an empty
        history. */
    constructor (sqrt: real -> real, a: Market, b: Market, c: Fiat, initialInvestment: real, startDate: Day, apr: real)
      requires IsSqrt(sqrt) && PositivePrices(a) && PositivePrices(b)
      ensures Valid()
      ensures this.sqrt == sqrt && A == a && B == b && Currency == c && InitialInvestment == initialInvestment
      ensures StartDate == startDate && InitialAPR == apr
      ensures State() == Position(apr, 0.0, startDate, 0.0, 0.0, 0.0, 0.0, 0.0, 0.0, map[])
    {
      this.sqrt := sqrt;
      A := a;
      B := b;
      Currency := c;
      InitialInvestment := initialInvestment;
      StartDate := startDate;
      LastHarvestDate := startDate;
      APR := apr;
      InitialAPR := apr;
      APRChangeRateAtHarvest := 0.0;
      UnitsA, UnitsB := 0.0, 0.0;
      InitialUnitsA, InitialUnitsB := 0.0, 0.0;
      TotalValue, TotalValueHODL := 0.0, 0.0;
      ChangeHistory := map[];
    }

    /** `LogChange`. */
    method LogChange(date: Day, priceA: ValueAt, priceB: ValueAt)
      requires Valid()
      modifies this
      ensures Valid()
      ensures State() == Logged(old(State()), date, priceA.V, priceB.V)
    {
      ChangeHistory := ChangeHistory[date := HistoryItem(date, priceA.V, priceB.V, UnitsA, UnitsB, TotalValue, TotalValueHODL,
                                                        DoubledWorth(InitialUnitsA, priceA.V), DoubledWorth(InitialUnitsB, priceB.V),
                                                        APR)];
    }

    /** `GetChangeHistoryAsc`: every entry of the history once, in ascending date order. */
    method GetChangeHistoryAsc() returns (items: seq<HistoryItem>)
      requires Valid()
      ensures forall i, j :: 0 <= i < j < |items| ==> items[i].Date < items[j].Date
      ensures forall i :: 0 <= i < |items| ==> items[i].Date in ChangeHistory && ChangeHistory[items[i].Date] == items[i]
      ensures forall d :: d in ChangeHistory ==> exists i :: 0 <= i < |items| && items[i].Date == d
    {
      var history := ChangeHistory;
      items := [];
      var rest := history.Keys;
      while exists d :: d in rest
        invariant rest <= history.Keys
        invariant forall i :: 0 <= i < |items| ==> items[i].Date in history && items[i] == history[items[i].Date] && items[i].Date !in rest
        invariant forall d :: d in history && d !in rest ==> exists i :: 0 <= i < |items| && items[i].Date == d
        invariant forall i, j :: 0 <= i < j < |items| ==> items[i].Date != items[j].Date
        decreases rest
      {
        var d :| d in rest;
        assert history[d].Date == d;
        ghost var before := items;
        items := items + [history[d]];
        rest := rest - {d};
        forall e | e in history && e !in rest ensures exists i :: 0 <= i < |items| && items[i].Date == e {
          if e == d {
            assert items[|before|].Date == e;
          } else {
            var i :| 0 <= i < |before| && before[i].Date == e;
            assert items[i].Date == e;
          }
        }
      }
      var sorted := SortByDate(items);
      SortedHistory(items, sorted, history);
      items := sorted;
    }

    /** `SetAPRChangeRateAtHarvest`. */
    method SetAPRChangeRateAtHarvest(dailyChange: real)
      requires Valid()
      modifies this
      ensures Valid()
      ensures State() == old(State()).(APRChangeRateAtHarvest := dailyChange)
    {
      APRChangeRateAtHarvest := dailyChange;
    }

    /** `GetPrices`. */
    method GetPrices(date: Day) returns (r: Result<(ValueAt, ValueAt)>)
      ensures r == PricesAt(A, B, date)
    {
      var priceA, found := AtDate(A.Prices, Formatted(date));
      if !found {
        return Err(PriceNotFound(A.Symbol));
      }
      var priceB, foundB := AtDate(B.Prices, Formatted(date));
      if !foundB {
        return Err(PriceNotFound(B.Symbol));
      }
      return Ok((priceA, priceB));
    }

    /** `RebalanceLP`. */
    method RebalanceLP(priceA: ValueAt, priceB: ValueAt)
      requires Valid() && priceA.V > 0.0 && priceB.V > 0.0
      modifies this
      ensures Valid()
      ensures State() == Rebalanced(sqrt, old(State()), priceA.V, priceB.V)
    {
      var k := UnitsA * UnitsB;
      var rt := priceA.V / priceB.V;
      assert k == PoolConstant(State()) && rt == PriceRatio(priceA.V, priceB.V);
      UnitsA := Root(sqrt, SquareA(k, rt));
      UnitsB := Root(sqrt, SquareB(k, rt));
      TotalValue := Worth(UnitsA, UnitsB, priceA.V, priceB.V);
      TotalValueHODL := Worth(InitialUnitsA, InitialUnitsB, priceA.V, priceB.V);
    }

    /** `AddLP`: a missing price is reported with nothing changed. */
    method AddLP(date: Day, amount: real) returns (err: Option<Error>)
      requires Valid()
      modifies this
      ensures Valid()
      ensures var r := Added(sqrt, A, B, old(State()), date, amount);
              (r.Err? ==> err == Some(r.error) && State() == old(State())) &&
              (r.Ok? ==> err == None && State() == r.value)
    {
      ghost var p0 := State();
      var prices := GetPrices(date);
      if prices.Err? {
        return Some(prices.error);
      }
      PricesPositive(A, B, date);
      var pa, pb := prices.value.0, prices.value.1;
      assert Added(sqrt, A, B, p0, date, amount) == Ok(Deposited(sqrt, p0, date, amount, pa.V, pb.V));
      UnitsA := UnitsA + HalfUnits(amount, pa.V);
      UnitsB := UnitsB + HalfUnits(amount, pb.V);
      ghost var q := p0.(UnitsA := p0.UnitsA + HalfUnits(amount, pa.V), UnitsB := p0.UnitsB + HalfUnits(amount, pb.V));
      assert State() == q;
      RebalanceLP(pa, pb);
      ghost var r := Rebalanced(sqrt, q, pa.V, pb.V);
      assert State() == r;
      LogChange(date, pa, pb);
      assert State() == Logged(r, date, pa.V, pb.V);
      DepositedSteps(sqrt, p0, date, amount, pa.V, pb.V);
      return None;
    }

    /** `Harvest`: the yield, or the error with the changes made before it. */
    method Harvest(date: Day) returns (paid: real, err: Option<Error>)
      requires Valid()
      modifies this
      ensures Valid()
      ensures var h := Harvested(sqrt, A, B, StartDate, old(State()), date);
              State() == h.0 &&
              (h.1.Ok? ==> err == None && paid == h.1.value) &&
              (h.1.Err? ==> err == Some(h.1.error) && paid == 0.0)
    {
      if StartDate >= date {
        return 0.0, Some(HarvestBeforeStart);
      }
      if LastHarvestDate >= date {
        return 0.0, Some(HarvestBeforeLastHarvest);
      }
      paid, err := 0.0, None;
      var days := DiffDays(Formatted(date), Formatted(LastHarvestDate));
      if days > 0 {
        if APRChangeRateAtHarvest > 0.0 {
          APR := APR - APRChangeRateAtHarvest;
          if APR < 0.0 {
            APR := 0.0;
          }
        }
        var prices := GetPrices(date);
        if prices.Err? {
          return 0.0, Some(prices.error);
        }
        PricesPositive(A, B, date);
        var pa, pb := prices.value.0, prices.value.1;
        RebalanceLP(pa, pb);
        paid := Yield(TotalValue, APR, days);
        LastHarvestDate := date;
        RebalanceLP(pa, pb);
        LogChange(date, pa, pb);
      }
    }
  }

  /** A history sorted from its entries, one per date, in any order, lists each entry once in
      strictly ascending date order. */
  lemma SortedHistory(items: seq<HistoryItem>, sorted: seq<HistoryItem>, h: map<Day, HistoryItem>)
    requires multiset(sorted) == multiset(items) && Ascending(sorted)
    requires forall i :: 0 <= i < |items| ==> items[i].Date in h && items[i] == h[items[i].Date]
    requires forall d :: d in h ==> exists i :: 0 <= i < |items| && items[i].Date == d
    requires forall i, j :: 0 <= i < j < |items| ==> items[i].Date != items[j].Date
    ensures forall i, j :: 0 <= i < j < |sorted| ==> sorted[i].Date < sorted[j].Date
    ensures forall i :: 0 <= i < |sorted| ==> sorted[i].Date in h && h[sorted[i].Date] == sorted[i]
    ensures forall d :: d in h ==> exists i :: 0 <= i < |sorted| && sorted[i].Date == d
  {
    forall i | 0 <= i < |sorted| ensures sorted[i].Date in h && h[sorted[i].Date] == sorted[i] {
      assert sorted[i] in multiset(items);
    }
    DistinctItems(items);
    forall i, j | 0 <= i < j < |sorted| ensures sorted[i].Date < sorted[j].Date {
      if sorted[i].Date == sorted[j].Date {
        assert sorted[i] == sorted[j];
        TwiceInSequence(sorted, i, j);
      }
    }
    forall d | d in h ensures exists i :: 0 <= i < |sorted| && sorted[i].Date == d {
      var k :| 0 <= k < |items| && items[k].Date == d;
      assert items[k] in multiset(sorted);
    }
  }

  /** Items with distinct dates occur once each. */
  lemma {:induction false} DistinctItems(items: seq<HistoryItem>)
    requires forall i, j :: 0 <= i < j < |items| ==> items[i].Date != items[j].Date
    ensures forall x :: multiset(items)[x] <= 1
  {
    if items != [] {
      var init := items[..|items| - 1];
      var last := items[|items| - 1];
      assert items == init + [last];
      DistinctItems(init);
      forall k | 0 <= k < |init| ensures init[k] != last {
        assert items[k].Date != items[|items| - 1].Date;
      }
    }
  }

  /** An element at two positions occurs at least twice. */
  lemma TwiceInSequence(s: seq<HistoryItem>, i: nat, j: nat)
    requires i < j < |s| && s[i] == s[j]
    ensures multiset(s)[s[i]] >= 2
  {
    assert s == s[..i] + [s[i]] + s[i + 1..j] + [s[j]] + s[j + 1..];
  }

  /** `NewLPFarm`: opens the farm, or reports a price missing at the start date. */
  method NewLPFarm(sqrt: real -> real, a: Market, b: Market, c: Fiat, initialInvestment: real, startDate: Day, apr: real)
    returns (r: Result<LPFarm>)
    requires IsSqrt(sqrt) && PositivePrices(a) && PositivePrices(b)
    ensures var launch := Launched(sqrt, a, b, initialInvestment, startDate, apr);
            (r.Err? <==> launch.Err?) && (r.Err? ==> r.error == launch.error) &&
            (r.Ok? ==> fresh(r.value) && r.value.Valid() && r.value.State() == launch.value &&
                       r.value.sqrt == sqrt && r.value.A == a && r.value.B == b && r.value.Currency == c &&
                       r.value.InitialInvestment == initialInvestment && r.value.StartDate == startDate &&
                       r.value.InitialAPR == apr)
  {
    var f := new LPFarm(sqrt, a, b, c, initialInvestment, startDate, apr);
    var prices := f.GetPrices(startDate);
    if prices.Err? {
      return Err(prices.error);
    }
    PricesPositive(a, b, startDate);
    var pa, pb := prices.value.0, prices.value.1;
    f.UnitsA := HalfUnits(initialInvestment, pa.V);
    f.UnitsB := HalfUnits(initialInvestment, pb.V);
    f.InitialUnitsA := f.UnitsA;
    f.InitialUnitsB := f.UnitsB;
    f.RebalanceLP(pa, pb);
    f.LogChange(startDate, pa, pb);
    return Ok(f);
  }
}
