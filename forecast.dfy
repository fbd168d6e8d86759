/** The forecast of pkg/trade/forecast.go: synthetic markets whose prices follow a cycle of
    percentage moves, LP farms driven over them by daily harvests whose yield is compounded back
    into the pool (with an optional monthly top-up), and the table of the farms' histories.

    The value-level functions (`StateOn`, `Drive`, `Rows`, ...) specify the operations; the class
    `Forecast` performs them and is proved against them. */
module Forecast {
  import opened Timeseries
  import opened Outcomes
  import opened Coin
  import opened Farm
  import opened Calendar

  // The synthetic price path.

  /** `PriceChange`: a rise of `IncPct` percent spread over `IncDays` days, or else a fall of
      `DecPct` percent over `DecDays` days. */
  datatype PriceChange = PriceChange(IncPct: real, IncDays: int, DecPct: real, DecDays: int)

  /** `math.Floor(x*100)/100`: down to whole cents. */
  function Cents(x: real): (r: real)
    ensures r <= x < r + 0.01
    ensures (r * 100.0).Floor as real == r * 100.0
  {
    (x * 100.0).Floor as real / 100.0
  }

  /** A price scaled by a factor. */
  function Scaled(price: real, factor: real): real {
    price * factor
  }

  /** The daily step of a segment: the move to the scaled price spread over the days, floored to
      cents. */
  function SegmentDelta(price: real, factor: real, days: int): real
    requires days > 0
  {
    Cents((Scaled(price, factor) - price) / days as real)
  }

  /** The loop's variables between two days: `price`, `priceChangeIndex`, `priceChangeDelta` and
      `priceChangeDaysRemaining`. */
  datatype PathState = PathState(price: real, index: nat, delta: real, remaining: nat)

  function Initial(startingPrice: real): PathState {
    PathState(startingPrice, 0, 0.0, 0)
  }

  /** Choosing the next segment once the current one is used up: a rise if one is set, else a
      fall if one is set, else nothing; the index moves on cyclically either way. */
  function Pick(changes: seq<PriceChange>, s: PathState): (t: PathState)
    requires s.index < |changes|
    ensures t.index == (s.index + 1) % |changes|
    ensures t.price == s.price
  {
    var c := changes[s.index];
    var next := if s.index + 1 >= |changes| then 0 else s.index + 1;
    if c.IncPct > 0.0 && c.IncDays > 0 then
      PathState(s.price, next, SegmentDelta(s.price, 1.0 + c.IncPct / 100.0, c.IncDays), c.IncDays)
    else if c.DecPct > 0.0 && c.DecDays > 0 then
      PathState(s.price, next, SegmentDelta(s.price, 1.0 - c.DecPct / 100.0, c.DecDays), c.DecDays)
    else s.(index := next)
  }

  /** One day after the first: pick a segment if none is running, then apply one step of the
      running segment, flooring the price to cents. */
  function Step(changes: seq<PriceChange>, s: PathState): (t: PathState)
    requires s.index < |changes|
    ensures t.index < |changes|
  {
    var s1 := if s.remaining == 0 then Pick(changes, s) else s;
    if s1.remaining > 0 then s1.(price := Cents(s1.price + s1.delta), remaining := s1.remaining - 1)
    else s1
  }

  /** The loop's variables after the given day has been priced; changes apply from day 1 on. */
  function StateOn(changes: seq<PriceChange>, startingPrice: real, day: nat): (s: PathState)
    ensures |changes| > 0 ==> s.index < |changes|
  {
    if day == 0 then Initial(startingPrice)
    else
      var prev := StateOn(changes, startingPrice, day - 1);
      if |changes| > 0 then Step(changes, prev) else prev
  }

  /** The price of the given day. */
  function PriceOn(changes: seq<PriceChange>, startingPrice: real, day: nat): real {
    StateOn(changes, startingPrice, day).price
  }

  // Properties of the price path.

  /** Without changes the price never moves. */
  lemma {:induction false} NoChangesConstant(startingPrice: real, day: nat)
    ensures StateOn([], startingPrice, day) == Initial(startingPrice)
    ensures PriceOn([], startingPrice, day) == startingPrice
  {
    if day > 0 {
      NoChangesConstant(startingPrice, day - 1);
    }
  }

  /** The segment index cycles: it stays below the number of segments, moves on by one each time a
      segment is picked and comes back to 0 after the last. */
  lemma IndexCycles(changes: seq<PriceChange>, s: PathState)
    requires s.index < |changes|
    ensures Pick(changes, s).index < |changes|
    ensures s.index < |changes| - 1 ==> Pick(changes, s).index == s.index + 1
    ensures s.index == |changes| - 1 ==> Pick(changes, s).index == 0
  {
  }

  /** A segment with a rise is a rise even when it also sets a fall: it runs for `IncDays` days
      with the rise's step. */
  lemma IncreaseBeatsDecrease(changes: seq<PriceChange>, s: PathState)
    requires s.index < |changes| && s.remaining == 0
    requires changes[s.index].IncPct > 0.0 && changes[s.index].IncDays > 0
    ensures var c := changes[s.index];
            var d := SegmentDelta(s.price, 1.0 + c.IncPct / 100.0, c.IncDays);
            Step(changes, s) == PathState(Cents(s.price + d), (s.index + 1) % |changes|, d, c.IncDays - 1)
  {
  }

  /** A fall is taken when no rise is set: it runs for `DecDays` days with the fall's step. */
  lemma DecreaseWithoutIncrease(changes: seq<PriceChange>, s: PathState)
    requires s.index < |changes| && s.remaining == 0
    requires !(changes[s.index].IncPct > 0.0 && changes[s.index].IncDays > 0)
    requires changes[s.index].DecPct > 0.0 && changes[s.index].DecDays > 0
    ensures var c := changes[s.index];
            var d := SegmentDelta(s.price, 1.0 - c.DecPct / 100.0, c.DecDays);
            Step(changes, s) == PathState(Cents(s.price + d), (s.index + 1) % |changes|, d, c.DecDays - 1)
  {
  }

  /** A segment that sets neither a rise nor a fall leaves the price of that day unchanged; the
      next segment is picked on the following day. */
  lemma IdleSegment(changes: seq<PriceChange>, s: PathState)
    requires s.index < |changes| && s.remaining == 0
    requires !(changes[s.index].IncPct > 0.0 && changes[s.index].IncDays > 0)
    requires !(changes[s.index].DecPct > 0.0 && changes[s.index].DecDays > 0)
    ensures Step(changes, s) == s.(index := (s.index + 1) % |changes|)
  {
  }

  /** While a segment runs, each day adds its step and floors to cents, without picking. */
  lemma SegmentRuns(changes: seq<PriceChange>, s: PathState)
    requires s.index < |changes| && s.remaining > 0
    ensures Step(changes, s) == s.(price := Cents(s.price + s.delta), remaining := s.remaining - 1)
  {
  }

  /** Steps of a running segment, `n` days on. */
  function Steps(changes: seq<PriceChange>, s: PathState, n: nat): (t: PathState)
    requires s.index < |changes|
    ensures t.index < |changes|
    decreases n
  {
    if n == 0 then s else Steps(changes, Step(changes, s), n - 1)
  }

  /** A segment picked with `k` days applies its step on exactly those `k` days: it has `k - 1`
      days left after the first, keeps its index and step while it runs, and is used up after
      the `k`-th, so the day after picks again. */
  lemma {:induction false} SegmentLength(changes: seq<PriceChange>, s: PathState, n: nat)
    requires s.index < |changes| && n <= s.remaining
    ensures Steps(changes, s, n).remaining == s.remaining - n
    ensures Steps(changes, s, n).index == s.index && Steps(changes, s, n).delta == s.delta
    decreases n
  {
    if n > 0 {
      SegmentRuns(changes, s);
      SegmentLength(changes, Step(changes, s), n - 1);
    }
  }

  /** A whole number of cents. */
  predicate WholeCents(x: real) {
    (x * 100.0).Floor as real == x * 100.0
  }

  /** A day on which the price moves by a step: a segment is still running, or the segment due
      next sets a rise or a fall. */
  predicate Stepped(changes: seq<PriceChange>, s: PathState)
    requires s.index < |changes|
  {
    var c := changes[s.index];
    s.remaining > 0 || (c.IncPct > 0.0 && c.IncDays > 0) || (c.DecPct > 0.0 && c.DecDays > 0)
  }

  /** On a stepped day the price is floored to whole cents; on any other day it is the price of
      the day before. */
  lemma PricesInCents(changes: seq<PriceChange>, startingPrice: real, day: nat)
    requires |changes| > 0 && day > 0
    ensures var s := StateOn(changes, startingPrice, day - 1);
            var p := PriceOn(changes, startingPrice, day);
            (Stepped(changes, s) ==> WholeCents(p)) && (!Stepped(changes, s) ==> p == s.price)
  {
  }

  /** From a starting price in whole cents, every price of the path is in whole cents. */
  lemma {:induction false} AllPricesInCents(changes: seq<PriceChange>, startingPrice: real, day: nat)
    requires WholeCents(startingPrice)
    ensures WholeCents(PriceOn(changes, startingPrice, day))
  {
    if day > 0 {
      AllPricesInCents(changes, startingPrice, day - 1);
      if |changes| > 0 {
        PricesInCents(changes, startingPrice, day);
      }
    }
  }

  // Harvest dates and months.

  /** The harvest dates of `AddLPFarm`: each of the `days` days after the start, in order. */
  function HarvestSchedule(startDate: Day, days: nat): (dates: seq<Day>)
    ensures |dates| == days
    ensures forall i :: 0 <= i < days ==> dates[i] == startDate + i + 1
  {
    seq(days, i => startDate + i + 1)
  }

  /** A harvest date on which the monthly top-up is due: a date after the first whose month
      differs from that of the harvest date before it. */
  predicate DepositDue(dates: seq<Day>, i: nat)
    requires i < |dates|
  {
    i > 0 && MonthOf(dates[i]) != MonthOf(dates[i - 1])
  }

  /** The monthly top-up of the harvest schedule: never on the first harvest date, and on a later
      one exactly when that date is the first of a month. */
  lemma TopUpOnFirstOfMonth(startDate: Day, days: nat, i: nat, c: CivilDate)
    requires i < days && ValidDate(c) && DaysFromCivil(c) == startDate + i + 1
    ensures DepositDue(HarvestSchedule(startDate, days), i) <==> i > 0 && c.day == 1
  {
    MonthChangesOnFirst(c);
  }

  // The farm driver.

  /** `AddLP` with its error ignored: a missing price leaves the position as it was. */
  function AddedOrKept(sqrt: real -> real, a: Market, b: Market, p: Position, date: Day, amount: real): (q: Position)
    requires PositivePrices(a) && PositivePrices(b)
    ensures PricesAt(a, b, date).Err? ==> q == p
    ensures PricesAt(a, b, date).Ok? ==> Added(sqrt, a, b, p, date, amount) == Ok(q)
  {
    var r := Added(sqrt, a, b, p, date, amount);
    if r.Ok? then r.value else p
  }

  /** The first half of an `AddLPFarm` date: harvest, then add the yield back as liquidity. A
      failed harvest is fatal. */
  function Reinvested(sqrt: real -> real, a: Market, b: Market, startDate: Day, p: Position, date: Day): (r: Result<Position>)
    requires PositivePrices(a) && PositivePrices(b)
    ensures r.Err? <==> Harvested(sqrt, a, b, startDate, p, date).1.Err?
    ensures r.Err? ==> r.error == Harvested(sqrt, a, b, startDate, p, date).1.error
  {
    var h := Harvested(sqrt, a, b, startDate, p, date);
    if h.1.Err? then Err(h.1.error) else Ok(AddedOrKept(sqrt, a, b, h.0, date, h.1.value))
  }

  /** One harvest date of `AddLPFarm`: reinvest the yield, then add the monthly amount when it is
      due and positive. */
  function Compounded(sqrt: real -> real, a: Market, b: Market, startDate: Day, p: Position, date: Day,
                      monthly: real, due: bool): (r: Result<Position>)
    requires PositivePrices(a) && PositivePrices(b)
    ensures r.Err? <==> Harvested(sqrt, a, b, startDate, p, date).1.Err?
    ensures r.Err? ==> r.error == Harvested(sqrt, a, b, startDate, p, date).1.error
  {
    var r := Reinvested(sqrt, a, b, startDate, p, date);
    if r.Err? then r
    else Ok(if due && monthly > 0.0 then AddedOrKept(sqrt, a, b, r.value, date, monthly) else r.value)
  }

  /** A run of a step over the indices `i` to `n`: the first failed step ends it with its error. */
  function Run(step: (Position, nat) -> Result<Position>, p: Position, n: nat, i: nat): Result<Position>
    requires i <= n
    decreases n - i
  {
    if i == n then Ok(p)
    else
      match step(p, i)
      case Err(e) => Err(e)
      case Ok(q) => Run(step, q, n, i + 1)
  }

  /** The body of the harvest loop of `AddLPFarm` at the `k`-th date. */
  function DateStep(sqrt: real -> real, a: Market, b: Market, startDate: Day, dates: seq<Day>, monthly: real):
    (Position, nat) -> Result<Position>
    requires PositivePrices(a) && PositivePrices(b)
  {
    (p: Position, k: nat) =>
      if k < |dates| then Compounded(sqrt, a, b, startDate, p, dates[k], monthly, DepositDue(dates, k)) else Ok(p)
  }

  /** The harvest loop of `AddLPFarm` from the `i`-th date on: the first failed harvest ends it
      with its error. */
  function Drive(sqrt: real -> real, a: Market, b: Market, startDate: Day, p: Position, dates: seq<Day>,
                 i: nat, monthly: real): Result<Position>
    requires PositivePrices(a) && PositivePrices(b) && i <= |dates|
  {
    Run(DateStep(sqrt, a, b, startDate, dates, monthly), p, |dates|, i)
  }

  /** The APR change rate of `AddLPFarm`: the fall from `apr` to a positive `finalAPR` spread
      evenly over the harvests; none without a positive target. */
  function WithAprTarget(p: Position, apr: real, finalAPR: real, harvests: nat): (q: Position)
    requires harvests > 0
    ensures finalAPR > 0.0 ==> q == p.(APRChangeRateAtHarvest := (apr - finalAPR) / harvests as real)
    ensures finalAPR <= 0.0 ==> q == p
  {
    if finalAPR > 0.0 then p.(APRChangeRateAtHarvest := (apr - finalAPR) / harvests as real) else p
  }

  /** `AddLPFarm`: open the farm (or fail as `NewLPFarm` does), set the APR change rate and drive
      it over the `days` harvest dates. */
  function Planted(sqrt: real -> real, a: Market, b: Market, initialInvestment: real, startDate: Day, days: nat,
                   apr: real, finalAPR: real, monthly: real): (r: Result<Position>)
    requires PositivePrices(a) && PositivePrices(b) && days > 0
    ensures Launched(sqrt, a, b, initialInvestment, startDate, apr).Err? ==>
              r == Err(Launched(sqrt, a, b, initialInvestment, startDate, apr).error)
  {
    match Launched(sqrt, a, b, initialInvestment, startDate, apr)
    case Err(e) => Err(e)
    case Ok(p) =>
      Drive(sqrt, a, b, startDate, WithAprTarget(p, apr, finalAPR, days), HarvestSchedule(startDate, days), 0, monthly)
  }

  // Properties of the driver.

  /** A new farm starts at the given APR, with no change rate, last harvested at the start. */
  lemma LaunchedApr(sqrt: real -> real, a: Market, b: Market, initialInvestment: real, startDate: Day, apr: real)
    requires PositivePrices(a) && PositivePrices(b)
    requires Launched(sqrt, a, b, initialInvestment, startDate, apr).Ok?
    ensures var p := Launched(sqrt, a, b, initialInvestment, startDate, apr).value;
            p.APR == apr && p.APRChangeRateAtHarvest == 0.0 && p.LastHarvestDate == startDate
  {
  }

  /** A successful harvest decays the APR once, keeps the change rate and records the date. */
  lemma HarvestedApr(sqrt: real -> real, a: Market, b: Market, startDate: Day, p: Position, date: Day)
    requires PositivePrices(a) && PositivePrices(b)
    requires Harvested(sqrt, a, b, startDate, p, date).1.Ok?
    ensures var q := Harvested(sqrt, a, b, startDate, p, date).0;
            q.APR == AprDecay(p).APR && q.APRChangeRateAtHarvest == p.APRChangeRateAtHarvest &&
            q.LastHarvestDate == date
  {
    HarvestRefusesEarlyDates(sqrt, a, b, startDate, p, date);
    HarvestDaysPositive(p.LastHarvestDate, date);
  }

  /** Adding liquidity leaves the APR, its change rate and the last harvest date alone. */
  lemma AddedKeepsApr(sqrt: real -> real, a: Market, b: Market, p: Position, date: Day, amount: real)
    requires PositivePrices(a) && PositivePrices(b)
    ensures var q := AddedOrKept(sqrt, a, b, p, date, amount);
            q.APR == p.APR && q.APRChangeRateAtHarvest == p.APRChangeRateAtHarvest &&
            q.LastHarvestDate == p.LastHarvestDate
  {
  }

  /** A harvest date that succeeds decays the APR exactly once, whatever is added after. */
  lemma CompoundedApr(sqrt: real -> real, a: Market, b: Market, startDate: Day, p: Position, date: Day,
                      monthly: real, due: bool)
    requires PositivePrices(a) && PositivePrices(b)
    requires Compounded(sqrt, a, b, startDate, p, date, monthly, due).Ok?
    ensures var q := Compounded(sqrt, a, b, startDate, p, date, monthly, due).value;
            q.APR == AprDecay(p).APR && q.APRChangeRateAtHarvest == p.APRChangeRateAtHarvest &&
            q.LastHarvestDate == date
  {
    var h := Harvested(sqrt, a, b, startDate, p, date);
    HarvestedApr(sqrt, a, b, startDate, p, date);
    var q := AddedOrKept(sqrt, a, b, h.0, date, h.1.value);
    AddedKeepsApr(sqrt, a, b, h.0, date, h.1.value);
    AddedKeepsApr(sqrt, a, b, q, date, monthly);
  }

  /** The loop from the `i`-th date on is the date's step followed by the loop from the next
      date; a failed date ends it with that date's error. */
  lemma DriveNext(sqrt: real -> real, a: Market, b: Market, startDate: Day, p: Position,
                  dates: seq<Day>, i: nat, monthly: real)
    requires PositivePrices(a) && PositivePrices(b) && i < |dates|
    ensures var c := Compounded(sqrt, a, b, startDate, p, dates[i], monthly, DepositDue(dates, i));
            (c.Err? ==> Drive(sqrt, a, b, startDate, p, dates, i, monthly) == Err(c.error)) &&
            (c.Ok? ==> Drive(sqrt, a, b, startDate, p, dates, i, monthly) ==
                         Drive(sqrt, a, b, startDate, c.value, dates, i + 1, monthly))
  {
  }

  /** The APR after `n` decays of a rate, none of them floored at 0. */
  function AfterDecays(apr: real, rate: real, n: nat): real {
    if n == 0 then apr else AfterDecays(apr, rate, n - 1) - rate
  }

  /** `n` decays lower the APR by `n` times the rate. */
  lemma {:induction false} DecaysClosed(apr: real, rate: real, n: nat)
    ensures AfterDecays(apr, rate, n) == apr - n as real * rate
  {
    if n > 0 {
      DecaysClosed(apr, rate, n - 1);
    }
  }

  /** Decaying once first and `n - 1` times after is decaying `n` times. */
  lemma {:induction false} DecayFirst(apr: real, rate: real, n: nat)
    requires n > 0
    ensures AfterDecays(apr - rate, rate, n - 1) == AfterDecays(apr, rate, n)
  {
    if n > 1 {
      DecayFirst(apr, rate, n - 1);
    }
  }

  /** With a positive rate, the APR after `n > 0` decays is at most the APR after the first. */
  lemma {:induction false} DecaysBelowFirst(apr: real, rate: real, n: nat)
    requires rate > 0.0 && n > 0
    ensures AfterDecays(apr, rate, n) <= apr - rate
  {
    if n > 1 {
      DecaysBelowFirst(apr, rate, n - 1);
    }
  }

  /** An APR that affords `n > 0` decays of a positive rate affords the first, and `n - 1` more
      after it. */
  lemma AprSteps(apr: real, rate: real, n: nat)
    requires rate > 0.0 && n > 0 && AfterDecays(apr, rate, n) >= 0.0
    ensures apr - rate >= 0.0
    ensures AfterDecays(apr - rate, rate, n - 1) == AfterDecays(apr, rate, n)
  {
    DecaysBelowFirst(apr, rate, n);
    DecayFirst(apr, rate, n);
  }

  /** Every successful step decays the APR once and keeps the change rate. */
  ghost predicate StepsDecay(step: (Position, nat) -> Result<Position>, n: nat) {
    forall q: Position, k: nat :: k < n && step(q, k).Ok? ==>
      step(q, k).value.APR == AprDecay(q).APR &&
      step(q, k).value.APRChangeRateAtHarvest == q.APRChangeRateAtHarvest
  }

  /** With a positive rate that the APR can afford on every remaining step, a run that succeeds
      lowers the APR by exactly the rate at each step. */
  lemma {:induction false} RunApr(step: (Position, nat) -> Result<Position>, p: Position, n: nat, i: nat)
    requires i <= n && StepsDecay(step, n)
    requires p.APRChangeRateAtHarvest > 0.0 && AfterDecays(p.APR, p.APRChangeRateAtHarvest, n - i) >= 0.0
    decreases n - i
    ensures Run(step, p, n, i).Ok? ==>
              Run(step, p, n, i).value.APR == AfterDecays(p.APR, p.APRChangeRateAtHarvest, n - i)
  {
    if i < n && step(p, i).Ok? {
      AprSteps(p.APR, p.APRChangeRateAtHarvest, n - i);
      RunApr(step, step(p, i).value, n, i + 1);
    }
  }

  /** Without a positive rate no step changes the APR. */
  lemma {:induction false} RunKeepsApr(step: (Position, nat) -> Result<Position>, p: Position, n: nat, i: nat)
    requires i <= n && StepsDecay(step, n)
    requires p.APRChangeRateAtHarvest <= 0.0
    decreases n - i
    ensures Run(step, p, n, i).Ok? ==> Run(step, p, n, i).value.APR == p.APR
  {
    if i < n && step(p, i).Ok? {
      RunKeepsApr(step, step(p, i).value, n, i + 1);
    }
  }

  /** Every date of `AddLPFarm` decays the APR once and keeps the change rate. */
  lemma DateStepsDecay(sqrt: real -> real, a: Market, b: Market, startDate: Day, dates: seq<Day>, monthly: real)
    requires PositivePrices(a) && PositivePrices(b)
    ensures StepsDecay(DateStep(sqrt, a, b, startDate, dates, monthly), |dates|)
  {
    var step := DateStep(sqrt, a, b, startDate, dates, monthly);
    forall q: Position, k: nat | k < |dates| && step(q, k).Ok?
      ensures step(q, k).value.APR == AprDecay(q).APR
      ensures step(q, k).value.APRChangeRateAtHarvest == q.APRChangeRateAtHarvest
    {
      CompoundedApr(sqrt, a, b, startDate, q, dates[k], monthly, DepositDue(dates, k));
    }
  }

  /** With a positive rate that the APR can afford on every remaining date, a loop whose
      harvests all succeed lowers the APR by exactly the rate on each date. */
  lemma DriveApr(sqrt: real -> real, a: Market, b: Market, startDate: Day, p: Position,
                 dates: seq<Day>, i: nat, monthly: real)
    requires PositivePrices(a) && PositivePrices(b) && i <= |dates|
    requires p.APRChangeRateAtHarvest > 0.0
    requires AfterDecays(p.APR, p.APRChangeRateAtHarvest, |dates| - i) >= 0.0
    ensures var r := Drive(sqrt, a, b, startDate, p, dates, i, monthly);
            r.Ok? ==> r.value.APR == AfterDecays(p.APR, p.APRChangeRateAtHarvest, |dates| - i)
  {
    DateStepsDecay(sqrt, a, b, startDate, dates, monthly);
    RunApr(DateStep(sqrt, a, b, startDate, dates, monthly), p, |dates|, i);
  }

  /** Without a positive rate the APR never changes. */
  lemma DriveKeepsApr(sqrt: real -> real, a: Market, b: Market, startDate: Day, p: Position,
                      dates: seq<Day>, i: nat, monthly: real)
    requires PositivePrices(a) && PositivePrices(b) && i <= |dates|
    requires p.APRChangeRateAtHarvest <= 0.0
    ensures var r := Drive(sqrt, a, b, startDate, p, dates, i, monthly);
            r.Ok? ==> r.value.APR == p.APR
  {
    DateStepsDecay(sqrt, a, b, startDate, dates, monthly);
    RunKeepsApr(DateStep(sqrt, a, b, startDate, dates, monthly), p, |dates|, i);
  }

  /** The rate that spreads the fall from `apr` to `finalAPR` over `days` harvests is positive
      exactly when the target is lower, and `days` decays of it end at the target. */
  lemma TargetRate(apr: real, finalAPR: real, days: nat)
    requires days > 0
    ensures (apr - finalAPR) / days as real > 0.0 <==> finalAPR < apr
    ensures AfterDecays(apr, (apr - finalAPR) / days as real, days) == finalAPR
  {
    DecaysClosed(apr, (apr - finalAPR) / days as real, days);
  }

  /** A positive target below the APR of a new farm gives it a positive change rate whose
      `days` decays end at the target. */
  lemma TargetSchedule(p: Position, finalAPR: real, days: nat)
    requires days > 0 && 0.0 < finalAPR < p.APR
    ensures var q := WithAprTarget(p, p.APR, finalAPR, days);
            q.APR == p.APR && q.APRChangeRateAtHarvest > 0.0 &&
            AfterDecays(q.APR, q.APRChangeRateAtHarvest, days) == finalAPR
  {
    TargetRate(p.APR, finalAPR, days);
  }

  /** With `0 < finalAPR < apr`, a forecast whose harvests all succeed ends at `finalAPR`. */
  lemma AprReachesTarget(sqrt: real -> real, a: Market, b: Market, initialInvestment: real, startDate: Day,
                         days: nat, apr: real, finalAPR: real, monthly: real)
    requires PositivePrices(a) && PositivePrices(b) && days > 0 && 0.0 < finalAPR < apr
    ensures var r := Planted(sqrt, a, b, initialInvestment, startDate, days, apr, finalAPR, monthly);
            r.Ok? ==> r.value.APR == finalAPR
  {
    var launched := Launched(sqrt, a, b, initialInvestment, startDate, apr);
    if launched.Ok? {
      LaunchedApr(sqrt, a, b, initialInvestment, startDate, apr);
      TargetSchedule(launched.value, finalAPR, days);
      DriveApr(sqrt, a, b, startDate, WithAprTarget(launched.value, apr, finalAPR, days),
               HarvestSchedule(startDate, days), 0, monthly);
    }
  }

  /** Without a positive target below the initial APR, the APR stays where it started. */
  lemma AprWithoutTarget(sqrt: real -> real, a: Market, b: Market, initialInvestment: real, startDate: Day,
                         days: nat, apr: real, finalAPR: real, monthly: real)
    requires PositivePrices(a) && PositivePrices(b) && days > 0 && (finalAPR <= 0.0 || apr <= finalAPR)
    ensures var r := Planted(sqrt, a, b, initialInvestment, startDate, days, apr, finalAPR, monthly);
            r.Ok? ==> r.value.APR == apr
  {
    var launched := Launched(sqrt, a, b, initialInvestment, startDate, apr);
    if launched.Ok? {
      LaunchedApr(sqrt, a, b, initialInvestment, startDate, apr);
      TargetRate(apr, finalAPR, days);
      DriveKeepsApr(sqrt, a, b, startDate, WithAprTarget(launched.value, apr, finalAPR, days),
                    HarvestSchedule(startDate, days), 0, monthly);
    }
  }

  /** A date of the forecast keeps a farm sound, with a non-negative APR, when the monthly amount
      is not negative: the yield it reinvests is never negative. */
  lemma CompoundedSound(sqrt: real -> real, a: Market, b: Market, startDate: Day, p: Position, date: Day,
                        monthly: real, due: bool)
    requires IsSqrt(sqrt) && PositivePrices(a) && PositivePrices(b) && Sound(p) && p.APR >= 0.0 && monthly >= 0.0
    requires Compounded(sqrt, a, b, startDate, p, date, monthly, due).Ok?
    ensures Sound(Compounded(sqrt, a, b, startDate, p, date, monthly, due).value)
    ensures Compounded(sqrt, a, b, startDate, p, date, monthly, due).value.APR >= 0.0
  {
    var h := Harvested(sqrt, a, b, startDate, p, date);
    HarvestSound(sqrt, a, b, startDate, p, date);
    HarvestYieldNonNegative(sqrt, a, b, startDate, p, date);
    AddedSound(sqrt, a, b, h.0, date, h.1.value);
    var q := AddedOrKept(sqrt, a, b, h.0, date, h.1.value);
    AddedSound(sqrt, a, b, q, date, monthly);
    CompoundedApr(sqrt, a, b, startDate, p, date, monthly, due);
  }

  /** Every successful step keeps a sound position with a non-negative APR so. */
  ghost predicate StepsSound(step: (Position, nat) -> Result<Position>, n: nat) {
    forall q: Position, k: nat :: k < n && Sound(q) && q.APR >= 0.0 && step(q, k).Ok? ==>
      Sound(step(q, k).value) && step(q, k).value.APR >= 0.0
  }

  lemma {:induction false} RunSound(step: (Position, nat) -> Result<Position>, p: Position, n: nat, i: nat)
    requires i <= n && StepsSound(step, n)
    requires Sound(p) && p.APR >= 0.0
    decreases n - i
    ensures Run(step, p, n, i).Ok? ==> Sound(Run(step, p, n, i).value)
  {
    if i < n && step(p, i).Ok? {
      RunSound(step, step(p, i).value, n, i + 1);
    }
  }

  /** Every date of the forecast keeps the farm sound. */
  lemma DriveSound(sqrt: real -> real, a: Market, b: Market, startDate: Day, p: Position,
                   dates: seq<Day>, i: nat, monthly: real)
    requires IsSqrt(sqrt) && PositivePrices(a) && PositivePrices(b) && i <= |dates|
    requires Sound(p) && p.APR >= 0.0 && monthly >= 0.0
    ensures var r := Drive(sqrt, a, b, startDate, p, dates, i, monthly);
            r.Ok? ==> Sound(r.value)
  {
    var step := DateStep(sqrt, a, b, startDate, dates, monthly);
    forall q: Position, k: nat | k < |dates| && Sound(q) && q.APR >= 0.0 && step(q, k).Ok?
      ensures Sound(step(q, k).value) && step(q, k).value.APR >= 0.0
    {
      CompoundedSound(sqrt, a, b, startDate, q, dates[k], monthly, DepositDue(dates, k));
    }
    RunSound(step, p, |dates|, i);
  }

  /** A forecast farm planted with a non-negative investment, APR and monthly amount ends sound:
      no negative units, and every history entry filed under its own date. */
  lemma PlantedSound(sqrt: real -> real, a: Market, b: Market, initialInvestment: real, startDate: Day,
                     days: nat, apr: real, finalAPR: real, monthly: real)
    requires IsSqrt(sqrt) && PositivePrices(a) && PositivePrices(b) && days > 0
    requires initialInvestment >= 0.0 && apr >= 0.0 && monthly >= 0.0
    ensures var r := Planted(sqrt, a, b, initialInvestment, startDate, days, apr, finalAPR, monthly);
            r.Ok? ==> Sound(r.value)
  {
    var launched := Launched(sqrt, a, b, initialInvestment, startDate, apr);
    if launched.Ok? {
      var prices := PricesAt(a, b, startDate).value;
      PricesPositive(a, b, startDate);
      OpenedSound(sqrt, initialInvestment, startDate, apr, prices.0.V, prices.1.V);
      LaunchedApr(sqrt, a, b, initialInvestment, startDate, apr);
      DriveSound(sqrt, a, b, startDate, WithAprTarget(launched.value, apr, finalAPR, days),
                 HarvestSchedule(startDate, days), 0, monthly);
    }
  }

  // The exported table.

  /** A row of the table `ToJSON` encodes: the field names, or a farm's name with one entry of
      its history (its date, prices, units, values and APR, in the order of the field names). */
  datatype ExportRow = Header | Entry(Name: string, Item: HistoryItem)

  /** The field names of the header row. */
  const ExportFields: seq<string> :=
    ["Name", "Date", "Price A", "Price B", "Units A", "Units B", "Value", "HODL", "Only A", "Only B", "APR"]

  /** A farm as the table sees it: its name and its history. */
  type Named = (string, map<Day, HistoryItem>)

  /** The dates present in any of the histories. */
  function AllDates(hs: seq<Named>): (s: set<Day>)
    ensures forall d :: d in s <==> exists j :: 0 <= j < |hs| && d in hs[j].1
  {
    if hs == [] then {}
    else
      var init := hs[..|hs| - 1];
      assert forall j :: 0 <= j < |init| ==> init[j] == hs[j];
      AllDates(init) + hs[|hs| - 1].1.Keys
  }

  /** Some element of a non-empty set of dates is the earliest. */
  lemma MinimumExists(s: set<Day>)
    requires exists d :: d in s
    ensures exists m :: m in s && forall d :: d in s ==> m <= d
    decreases s
  {
    var x :| x in s;
    var rest := s - {x};
    if exists d :: d in rest {
      MinimumExists(rest);
      var m :| m in rest && forall d :: d in rest ==> m <= d;
      var least := if x < m then x else m;
      forall d | d in s ensures least <= d {
        if d != x {
          assert d in rest;
        }
      }
      assert least in s;
    } else {
      forall d | d in s ensures x <= d {
        assert d != x ==> d in rest;
      }
      assert x in s;
    }
  }

  /** A set of dates listed in strictly ascending order. */
  ghost function SortedDays(s: set<Day>): (r: seq<Day>)
    ensures Ascending(r)
    ensures forall d :: d in r <==> d in s
    decreases s
  {
    if exists d :: d in s then
      MinimumExists(s);
      var m :| m in s && forall d :: d in s ==> m <= d;
      [m] + SortedDays(s - {m})
    else []
  }

  /** Two strictly ascending listings of the same dates are equal. */
  lemma {:induction false} SortedUnique(a: seq<Day>, b: seq<Day>)
    requires Ascending(a) && Ascending(b)
    requires forall d :: d in a <==> d in b
    ensures a == b
  {
    assert a != [] ==> a[0] in a && a[0] in b;
    assert b != [] ==> b[0] in b && b[0] in a;
    if a != [] {
      assert a[0] in a;
      assert b != [];
      assert b[0] in b;
      assert a[0] == b[0] by {
        var i :| 0 <= i < |b| && b[i] == a[0];
        var j :| 0 <= j < |a| && a[j] == b[0];
        assert a[0] <= a[j] && b[0] <= b[i];
      }
      forall d ensures d in a[1..] <==> d in b[1..] {
        if d in a[1..] {
          var i :| 1 <= i < |a| && a[i] == d;
          assert d in b && d != b[0];
        }
        if d in b[1..] {
          var i :| 1 <= i < |b| && b[i] == d;
          assert d in a && d != a[0];
        }
      }
      SortedUnique(a[1..], b[1..]);
      assert a == [a[0]] + a[1..] && b == [b[0]] + b[1..];
    }
  }

  /** Dates in strictly ascending order. */
  predicate Ascending(s: seq<Day>) {
    forall i, j :: 0 <= i < j < |s| ==> s[i] < s[j]
  }

  /** Dates listed without repetition. */
  predicate Distinct(s: seq<Day>) {
    forall i, j :: 0 <= i < j < |s| ==> s[i] != s[j]
  }

  /** A date below the first of an ascending listing can go in front of it. */
  lemma AscendingCons(h: Day, s: seq<Day>)
    requires Ascending(s) && (s != [] ==> h < s[0])
    ensures Ascending([h] + s)
  {
    var r := [h] + s;
    forall i, j | 0 <= i < j < |r| ensures r[i] < r[j] {
      assert r[j] == s[j - 1];
      if i > 0 {
        assert r[i] == s[i - 1];
      } else if j > 1 {
        assert s[0] < s[j - 1];
      }
    }
  }

  /** The rest of an ascending listing is ascending and lies above its first date. */
  lemma AscendingTail(s: seq<Day>)
    requires Ascending(s) && s != []
    ensures Ascending(s[1..])
    ensures forall y :: y in s[1..] ==> s[0] < y
    ensures forall y :: y in s <==> y == s[0] || y in s[1..]
  {
    forall y | y in s[1..] ensures s[0] < y {
      var k :| 0 <= k < |s[1..]| && s[1..][k] == y;
      assert s[k + 1] == y;
    }
    assert s == [s[0]] + s[1..];
  }

  /** Inserting a new date before the first later one keeps the listing ascending. */
  function InsertDay(s: seq<Day>, x: Day): (r: seq<Day>)
    requires Ascending(s) && x !in s
    ensures Ascending(r)
    ensures forall y :: y in r <==> y in s || y == x
  {
    if s == [] || x < s[0] then
      AscendingCons(x, s);
      [x] + s
    else
      AscendingTail(s);
      var rest := InsertDay(s[1..], x);
      assert rest != [] ==> rest[0] in rest;
      AscendingCons(s[0], rest);
      [s[0]] + rest
  }

  /** `sort.SliceStable` on distinct dates: insertion sort. */
  function SortDays(s: seq<Day>): (r: seq<Day>)
    requires Distinct(s)
    ensures Ascending(r)
    ensures forall y :: y in r <==> y in s
  {
    if s == [] then []
    else
      assert s == [s[0]] + s[1..];
      assert s[0] !in s[1..] by {
        forall k | 0 <= k < |s[1..]| ensures s[1..][k] != s[0] {
          assert s[1..][k] == s[k + 1];
        }
      }
      InsertDay(SortDays(s[1..]), s[0])
  }

  /** The rows of one date: one per farm whose history has the date, in the order of the farms. */
  function RowsOn(d: Day, hs: seq<Named>): seq<ExportRow> {
    if hs == [] then []
    else
      var last := hs[|hs| - 1];
      RowsOn(d, hs[..|hs| - 1]) + if d in last.1 then [Entry(last.0, last.1[d])] else []
  }

  /** Taking one more farm into account adds that farm's row for the date, if it has one. */
  lemma RowsOnStep(d: Day, hs: seq<Named>, j: nat)
    requires j < |hs|
    ensures RowsOn(d, hs[..j + 1]) == RowsOn(d, hs[..j]) + if d in hs[j].1 then [Entry(hs[j].0, hs[j].1[d])] else []
  {
    assert hs[..j + 1][..j] == hs[..j];
  }

  /** The rows of the dates in order. */
  function Rows(dates: seq<Day>, hs: seq<Named>): seq<ExportRow> {
    if dates == [] then [] else Rows(dates[..|dates| - 1], hs) + RowsOn(dates[|dates| - 1], hs)
  }

  // A reference definition by (date, farm index) pairs.

  /** A date and a farm whose history has it. */
  predicate Present(p: (Day, nat), hs: seq<Named>) {
    p.1 < |hs| && p.0 in hs[p.1].1
  }

  /** The pair of a date and a farm index comes first by date, then by farm. */
  predicate Before(p: (Day, nat), q: (Day, nat)) {
    p.0 < q.0 || (p.0 == q.0 && p.1 < q.1)
  }

  /** Pairs listed by date, then by farm. */
  predicate InOrder(ps: seq<(Day, nat)>) {
    forall k, l :: 0 <= k < l < |ps| ==> Before(ps[k], ps[l])
  }

  /** The farms that have the date, in order. */
  function PairsOn(d: Day, hs: seq<Named>): (ps: seq<(Day, nat)>)
    ensures forall k :: 0 <= k < |ps| ==> ps[k].0 == d && Present(ps[k], hs)
    ensures forall k, l :: 0 <= k < l < |ps| ==> ps[k].1 < ps[l].1
  {
    if hs == [] then []
    else
      var init := hs[..|hs| - 1];
      assert forall j :: 0 <= j < |init| ==> init[j] == hs[j];
      PairsOn(d, init) + if d in hs[|hs| - 1].1 then [(d, |hs| - 1)] else []
  }

  /** The pairs of the dates in order: for ascending dates, every present pair once, ordered by
      date and then by farm. */
  function Pairs(dates: seq<Day>, hs: seq<Named>): (ps: seq<(Day, nat)>)
    ensures forall k :: 0 <= k < |ps| ==> ps[k].0 in dates && Present(ps[k], hs)
  {
    if dates == [] then []
    else
      var init := dates[..|dates| - 1];
      assert dates == init + [dates[|dates| - 1]];
      Pairs(init, hs) + PairsOn(dates[|dates| - 1], hs)
  }

  /** Every farm that has the date is paired with it. */
  lemma {:induction false} PairsOnComplete(d: Day, hs: seq<Named>)
    ensures forall j :: 0 <= j < |hs| && d in hs[j].1 ==> (d, j) in PairsOn(d, hs)
    decreases |hs|
  {
    if hs != [] {
      var init := hs[..|hs| - 1];
      PairsOnComplete(d, init);
      assert forall j :: 0 <= j < |init| ==> init[j] == hs[j];
    }
  }

  /** Every date of the listing is paired with every farm that has it. */
  lemma {:induction false} PairsComplete(dates: seq<Day>, hs: seq<Named>)
    ensures forall d, j :: d in dates && 0 <= j < |hs| && d in hs[j].1 ==> (d, j) in Pairs(dates, hs)
    decreases |dates|
  {
    if dates != [] {
      var init := dates[..|dates| - 1];
      var last := dates[|dates| - 1];
      PairsComplete(init, hs);
      PairsOnComplete(last, hs);
      assert dates == init + [last];
      assert Pairs(dates, hs) == Pairs(init, hs) + PairsOn(last, hs);
    }
  }

  /** For ascending dates the pairs are ordered by date, then by farm. */
  lemma {:induction false} PairsOrdered(dates: seq<Day>, hs: seq<Named>)
    requires Ascending(dates)
    ensures InOrder(Pairs(dates, hs))
    decreases |dates|
  {
    if dates != [] {
      var init := dates[..|dates| - 1];
      var d := dates[|dates| - 1];
      PairsOrdered(init, hs);
      var earlier := Pairs(init, hs);
      var later := PairsOn(d, hs);
      var ps := earlier + later;
      assert Pairs(dates, hs) == ps;
      forall k | 0 <= k < |earlier| ensures earlier[k].0 < d {
        var i :| 0 <= i < |init| && init[i] == earlier[k].0;
        assert dates[i] == init[i];
      }
      forall k, l | 0 <= k < l < |ps| ensures Before(ps[k], ps[l]) {
        if l < |earlier| {
          assert ps[k] == earlier[k] && ps[l] == earlier[l];
          assert Before(earlier[k], earlier[l]);
        } else if k >= |earlier| {
          assert ps[k] == later[k - |earlier|] && ps[l] == later[l - |earlier|];
          assert ps[k].0 == d == ps[l].0;
          assert later[k - |earlier|].1 < later[l - |earlier|].1;
        } else {
          assert ps[k] == earlier[k] && ps[l] == later[l - |earlier|];
          assert ps[k].0 < d == ps[l].0;
        }
      }
    }
  }

  /** The row of a present pair. */
  function RowOf(p: (Day, nat), hs: seq<Named>): ExportRow
    requires Present(p, hs)
  {
    Entry(hs[p.1].0, hs[p.1].1[p.0])
  }

  /** The rows of the dates are the rows of their pairs. */
  lemma {:induction false} RowsArePairs(dates: seq<Day>, hs: seq<Named>)
    ensures |Rows(dates, hs)| == |Pairs(dates, hs)|
    ensures forall k :: 0 <= k < |Pairs(dates, hs)| ==> Rows(dates, hs)[k] == RowOf(Pairs(dates, hs)[k], hs)
    decreases |dates|
  {
    if dates != [] {
      var init := dates[..|dates| - 1];
      var d := dates[|dates| - 1];
      RowsArePairs(init, hs);
      RowsOnArePairs(d, hs);
    }
  }

  lemma {:induction false} RowsOnArePairs(d: Day, hs: seq<Named>)
    ensures |RowsOn(d, hs)| == |PairsOn(d, hs)|
    ensures forall k :: 0 <= k < |PairsOn(d, hs)| ==> RowsOn(d, hs)[k] == RowOf(PairsOn(d, hs)[k], hs)
    decreases |hs|
  {
    if hs != [] {
      var init := hs[..|hs| - 1];
      RowsOnArePairs(d, init);
      forall k | 0 <= k < |PairsOn(d, init)| ensures RowOf(PairsOn(d, init)[k], init) == RowOf(PairsOn(d, init)[k], hs) {
        assert init[PairsOn(d, init)[k].1] == hs[PairsOn(d, init)[k].1];
      }
    }
  }

  /** The exported table: the header, then exactly one row for each date of each farm's history,
      ordered by date and, within a date, by the order of the farms. */
  lemma ExportTable(hs: seq<Named>)
    ensures var rows := Rows(SortedDays(AllDates(hs)), hs);
            var ps := Pairs(SortedDays(AllDates(hs)), hs);
            |rows| == |ps| &&
            (forall k :: 0 <= k < |ps| ==> Present(ps[k], hs) && rows[k] == RowOf(ps[k], hs)) &&
            (forall d, j :: 0 <= j < |hs| && d in hs[j].1 ==> (d, j) in ps) &&
            InOrder(ps)
  {
    RowsArePairs(SortedDays(AllDates(hs)), hs);
    PairsOrdered(SortedDays(AllDates(hs)), hs);
    PairsComplete(SortedDays(AllDates(hs)), hs);
  }

  /** The `uniqueDates` slice of `ToJSON`: the keys of the dates map listed in some order (a map's
      iteration order is unspecified) and then sorted, which determines the result. */
  method SortedDates(dates: set<Day>) returns (uniqueDates: seq<Day>)
    ensures uniqueDates == SortedDays(dates)
  {
    uniqueDates := [];
    var rest := dates;
    while exists d :: d in rest
      invariant rest <= dates
      invariant forall d :: d in dates <==> d in rest || d in uniqueDates
      invariant forall d :: d in uniqueDates ==> d !in rest
      invariant Distinct(uniqueDates)
      decreases rest
    {
      var d :| d in rest;
      uniqueDates := uniqueDates + [d];
      rest := rest - {d};
    }
    var sorted := SortDays(uniqueDates);
    SortedUnique(sorted, SortedDays(dates));
    uniqueDates := sorted;
  }

  /** The dates map of `ToJSON`: every date of every farm's history. */
  method CollectDates(hs: seq<Named>) returns (dates: set<Day>)
    ensures dates == AllDates(hs)
  {
    dates := {};
    for j := 0 to |hs|
      invariant dates == AllDates(hs[..j])
    {
      assert hs[..j + 1][..j] == hs[..j];
      dates := dates + hs[j].1.Keys;
    }
    assert hs[..|hs|] == hs;
  }

  /** The rows loop of `ToJSON`: the header, then for each date the entries of the farms that
      have it. */
  method TableRows(uniqueDates: seq<Day>, hs: seq<Named>) returns (rows: seq<ExportRow>)
    ensures rows == [Header] + Rows(uniqueDates, hs)
  {
    rows := [Header];
    for i := 0 to |uniqueDates|
      invariant rows == [Header] + Rows(uniqueDates[..i], hs)
    {
      var d := uniqueDates[i];
      ghost var before := rows;
      for j := 0 to |hs|
        invariant rows == before + RowsOn(d, hs[..j])
      {
        RowsOnStep(d, hs, j);
        var (name, history) := hs[j];
        if d in history {
          rows := rows + [Entry(name, history[d])];
        }
      }
      assert hs[..|hs|] == hs;
      assert uniqueDates[..i + 1][..i] == uniqueDates[..i];
      assert Rows(uniqueDates[..i + 1], hs) == Rows(uniqueDates[..i], hs) + RowsOn(d, hs);
    }
    assert uniqueDates[..|uniqueDates|] == uniqueDates;
  }

  /** The first half of a date of `AddLPFarm`: harvest the farm and add what it paid back. */
  method Reinvest(farm: LPFarm, date: Day) returns (err: Option<Error>)
    requires farm.Valid()
    modifies farm
    ensures farm.Valid()
    ensures var r := Reinvested(farm.sqrt, farm.A, farm.B, farm.StartDate, old(farm.State()), date);
            (r.Err? ==> err == Some(r.error)) && (r.Ok? ==> err == None && farm.State() == r.value)
  {
    var paid, harvestErr := farm.Harvest(date);
    if harvestErr.Some? {
      return harvestErr;
    }
    var _ := farm.AddLP(date, paid);
    return None;
  }

  /** A date's step is the reinvestment followed by the top-up when it is due. */
  lemma ReinvestedThenTopUp(sqrt: real -> real, a: Market, b: Market, startDate: Day, p: Position, date: Day,
                            monthly: real, due: bool)
    requires PositivePrices(a) && PositivePrices(b)
    requires Reinvested(sqrt, a, b, startDate, p, date).Ok?
    ensures var mid := Reinvested(sqrt, a, b, startDate, p, date).value;
            Compounded(sqrt, a, b, startDate, p, date, monthly, due) ==
              Ok(if due && monthly > 0.0 then AddedOrKept(sqrt, a, b, mid, date, monthly) else mid)
  {
  }

  /** The month the harvest loop compares the `i`-th date with: that of the date before it, or
      that of the first date on the first. */
  function PreviousMonth(dates: seq<Day>, i: nat): int
    requires i < |dates|
  {
    if i == 0 then MonthOf(dates[0]) else MonthOf(dates[i - 1])
  }

  /** One date of the harvest loop of `AddLPFarm`: reinvest the harvest and, when the date's
      month differs from `currentMonth`, add the monthly amount if it is positive; the month of
      the date is carried to the next date. */
  method HarvestDate(farm: LPFarm, dates: seq<Day>, i: nat, monthly: real, currentMonth: int)
    returns (err: Option<Error>, month: int)
    requires farm.Valid() && i < |dates| && currentMonth == PreviousMonth(dates, i)
    modifies farm
    ensures farm.Valid()
    ensures var c := Compounded(farm.sqrt, farm.A, farm.B, farm.StartDate, old(farm.State()), dates[i], monthly,
                                DepositDue(dates, i));
            (c.Err? ==> err == Some(c.error)) &&
            (c.Ok? ==> err == None && farm.State() == c.value && month == MonthOf(dates[i]))
  {
    var d := dates[i];
    ghost var before := farm.State();
    month := currentMonth;
    err := Reinvest(farm, d);
    if err.Some? {
      return;
    }
    ReinvestedThenTopUp(farm.sqrt, farm.A, farm.B, farm.StartDate, before, d, monthly, DepositDue(dates, i));
    month := MonthOf(d);
    if currentMonth != month && monthly > 0.0 {
      var _ := farm.AddLP(d, monthly);
    }
  }

  /** The harvest loop of `AddLPFarm`: on each date, reinvest the harvest and, on the first date
      of a new month, add the monthly amount when it is positive. A failed harvest ends the loop
      with its error (the source stops the process there). */
  method DriveFarm(farm: LPFarm, dates: seq<Day>, monthly: real) returns (err: Option<Error>)
    requires farm.Valid() && |dates| > 0
    modifies farm
    ensures farm.Valid()
    ensures var r := Drive(farm.sqrt, farm.A, farm.B, farm.StartDate, old(farm.State()), dates, 0, monthly);
            (r.Err? ==> err == Some(r.error)) && (r.Ok? ==> err == None && farm.State() == r.value)
  {
    var currentMonth := MonthOf(dates[0]);
    for i := 0 to |dates|
      invariant farm.Valid()
      invariant i < |dates| ==> currentMonth == PreviousMonth(dates, i)
      invariant Drive(farm.sqrt, farm.A, farm.B, farm.StartDate, farm.State(), dates, i, monthly) ==
                  Drive(farm.sqrt, farm.A, farm.B, farm.StartDate, old(farm.State()), dates, 0, monthly)
    {
      DriveNext(farm.sqrt, farm.A, farm.B, farm.StartDate, farm.State(), dates, i, monthly);
      var harvestErr, month := HarvestDate(farm, dates, i, monthly, currentMonth);
      if harvestErr.Some? {
        return harvestErr;
      }
      currentMonth := month;
    }
    return None;
  }

  // The forecast object.

  /** A `Forecast`: the farms added so far and the currency, investment, start date and number of
      days every farm shares. `sqrt` stands for `math.Sqrt`. */
  class Forecast {
    const sqrt: real -> real
    var Farms: seq<LPFarm>
    const Currency: Fiat
    const InitialInvestment: real
    const Balance: real
    const StartDate: Day
    const Days: int

    /** A correct square root, and a horizon a `time.Duration` can hold. */
    ghost predicate Valid()
      reads this
    {
      IsSqrt(sqrt) && Days <= MaxDurationDays
    }

    /** `NewForecast`: no farms yet, the balance is the investment, and the start date is the date
        of `now`, the instant the source reads from the clock. */
    constructor NewForecast(sqrt: real -> real, currency: Fiat, initialInvestment: real, days: int, now: int)
      requires IsSqrt(sqrt) && days <= MaxDurationDays
      ensures Valid() && this.sqrt == sqrt && Farms == []
      ensures Currency == currency && InitialInvestment == initialInvestment && Balance == initialInvestment
      ensures Formatted(StartDate) == ToDate(now) && Days == days
    {
      this.sqrt := sqrt;
      Farms := [];
      Currency := currency;
      InitialInvestment := initialInvestment;
      Balance := initialInvestment;
      StartDate := ToDate(now).day;
      Days := days;
    }

    /** `CreateMarket`: one price per day from the start date through `Days` days after it, each
        at midnight of its day, following the price path of `changes`. */
    method CreateMarket(name: string, symbol: string, startingPrice: real, changes: seq<PriceChange>) returns (m: Market)
      requires Valid()
      ensures m.Currency == Currency && m.ID == symbol && m.Symbol == symbol && m.Name == name
      ensures |m.Prices| == if Days >= 0 then Days + 1 else 0
      ensures forall i :: 0 <= i < |m.Prices| ==>
                m.Prices[i] == ValueAt((StartDate + i) * MsPerDay, PriceOn(changes, startingPrice, i))
    {
      m := Market(Currency, [], symbol, symbol, name);
      var start := ToTime(Formatted(StartDate));
      var price := startingPrice;
      var priceChangeIndex: nat := 0;
      var priceChangeDelta := 0.0;
      var priceChangeDaysRemaining: nat := 0;
      var day := 0;
      while day <= Days
        invariant 0 <= day && (Days >= 0 ==> day <= Days + 1) && (Days < 0 ==> day == 0)
        invariant m.Currency == Currency && m.ID == symbol && m.Symbol == symbol && m.Name == name
        invariant |m.Prices| == day
        invariant forall i :: 0 <= i < day ==>
                    m.Prices[i] == ValueAt((StartDate + i) * MsPerDay, PriceOn(changes, startingPrice, i))
        invariant PathState(price, priceChangeIndex, priceChangeDelta, priceChangeDaysRemaining) ==
                    StateOn(changes, startingPrice, if day == 0 then 0 else day - 1)
      {
        var date := start + day * MsPerDay;
        if |changes| > 0 && day > 0 {
          if priceChangeDaysRemaining == 0 {
            var c := changes[priceChangeIndex];
            if c.IncPct > 0.0 && c.IncDays > 0 {
              priceChangeDaysRemaining := c.IncDays;
              priceChangeDelta := SegmentDelta(price, 1.0 + c.IncPct / 100.0, c.IncDays);
            } else if c.DecPct > 0.0 && c.DecDays > 0 {
              priceChangeDaysRemaining := c.DecDays;
              priceChangeDelta := SegmentDelta(price, 1.0 - c.DecPct / 100.0, c.DecDays);
            }
            priceChangeIndex := priceChangeIndex + 1;
            if priceChangeIndex >= |changes| {
              priceChangeIndex := 0;
            }
          }
          if priceChangeDaysRemaining > 0 {
            priceChangeDaysRemaining := priceChangeDaysRemaining - 1;
            price := price + priceChangeDelta;
            price := Cents(price);
          }
        }
        assert PathState(price, priceChangeIndex, priceChangeDelta, priceChangeDaysRemaining) ==
                 StateOn(changes, startingPrice, day);
        m := m.(Prices := m.Prices + [ValueAt(date, price)]);
        day := day + 1;
      }
    }

    /** The harvest dates of `AddLPFarm`: the days from the start date plus one to the start date
        plus `Days`, each the date of an instant `i` days after the start. */
    method HarvestDates() returns (dates: seq<Day>)
      requires Valid()
      ensures dates == HarvestSchedule(StartDate, if Days > 0 then Days else 0)
    {
      dates := [];
      var from := ToTime(Formatted(StartDate));
      var to := from + Days * MsPerDay;
      var i := 1;
      while i <= Days
        invariant 1 <= i && (Days >= 1 ==> i <= Days + 1) && (Days < 1 ==> i == 1)
        invariant dates == HarvestSchedule(StartDate, i - 1)
      {
        var cur := from + i * MsPerDay;
        if cur > to {
          break;
        }
        ToDateOfToTime(StartDate);
        DateOfShift(from, i);
        dates := dates + [ToDate(cur).day];
        i := i + 1;
      }
    }

    /** `AddLPFarm`: opens a farm over `a` and `b`, sets its APR change rate and harvests it on
        every harvest date, adding each yield back and the monthly amount when due; the farm is
        appended to `Farms`. The error of `NewLPFarm` is returned, and so is the error of a
        failed harvest, on which the source stops the process; either way no farm is added. */
    method AddLPFarm(a: Market, b: Market, apr: real, finalAPR: real, additionalInvestmentMonthly: real)
      returns (err: Option<Error>)
      requires Valid() && Days > 0 && PositivePrices(a) && PositivePrices(b)
      modifies this
      ensures Valid()
      ensures var r := Planted(sqrt, a, b, InitialInvestment, StartDate, Days, apr, finalAPR, additionalInvestmentMonthly);
              (r.Err? ==> err == Some(r.error) && Farms == old(Farms)) &&
              (r.Ok? ==> err == None && |Farms| == |old(Farms)| + 1 && Farms[..|old(Farms)|] == old(Farms) &&
                         var farm := Farms[|old(Farms)|];
                         fresh(farm) && farm.Valid() && farm.State() == r.value &&
                         farm.A == a && farm.B == b && farm.StartDate == StartDate)
    {
      var created := NewLPFarm(sqrt, a, b, Currency, InitialInvestment, StartDate, apr);
      if created.Err? {
        return Some(created.error);
      }
      var farm := created.value;
      var dates := HarvestDates();
      ghost var launched := farm.State();
      if finalAPR > 0.0 {
        var change := (apr - finalAPR) / |dates| as real;
        farm.SetAPRChangeRateAtHarvest(change);
      }
      assert farm.State() == WithAprTarget(launched, apr, finalAPR, Days);
      var harvestErr := DriveFarm(farm, dates, additionalInvestmentMonthly);
      if harvestErr.Some? {
        return harvestErr;
      }
      Farms := Farms + [farm];
      return None;
    }

    /** The farms with the names the table shows them under. */
    function Histories(names: seq<string>): (hs: seq<Named>)
      requires |names| == |Farms|
      reads this, Farms
      ensures |hs| == |Farms|
      ensures forall j :: 0 <= j < |Farms| ==> hs[j] == (names[j], Farms[j].ChangeHistory)
    {
      var farms := Farms;
      seq(|farms|, j requires 0 <= j < |farms| reads farms => (names[j], farms[j].ChangeHistory))
    }

    /** The rows `ToJSON` encodes: the header, then for each date present in any history, in
        ascending order, the entry of each farm that has that date, in the order of `Farms`;
        farm `j` is shown as `names[j]`. */
    method ToJSON(names: seq<string>) returns (rows: seq<ExportRow>)
      requires |names| == |Farms|
      ensures rows == [Header] + Rows(SortedDays(AllDates(Histories(names))), Histories(names))
    {
      var hs := Histories(names);
      var dates := CollectDates(hs);
      var uniqueDates := SortedDates(dates);
      rows := TableRows(uniqueDates, hs);
      assert hs == Histories(names);
    }
  }
}
