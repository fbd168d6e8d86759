/** Price series and day arithmetic (pkg/timeseries).

    A timestamp is a count of Unix milliseconds. A calendar date is a day ordinal: the number of
    whole days since 1970-01-01, taken in UTC. A date string in the `YYYY-MM-DD` layout (the
    `full-date` production of section 5.6 of RFC 3339) is either the formatting of such an ordinal
    or a text that does not parse. */
module Timeseries {

  const MsPerDay: int := 86_400_000

  /** `time.Time{}.UnixMilli()`: the zero time, 0001-01-01 00:00:00 UTC. */
  const ZeroTimeMs: int := -62_135_596_800_000

  /** The largest whole number of days a Go `time.Duration` (int64 nanoseconds) can hold;
      `Time.Sub` saturates there. */
  const MaxDurationDays: nat := 106_751

  type Day = int

  /** A date string as the source passes it around. `Formatted(d)` is the `YYYY-MM-DD` text of day
      `d`; `Unparseable(text)` stands only for a text that `time.Parse` rejects in that layout (the
      empty string, say), never for the text of a real date, so the two forms never denote the
      same string. The model does not check `text` against the layout. */
  datatype DateText = Formatted(day: Day) | Unparseable(text: string)

  /** The calendar day of a timestamp. Dafny's `/` on `int` rounds towards minus infinity for a
      positive divisor, as a calendar does for instants before 1970. */
  function DateOf(ms: int): (d: Day)
    ensures d * MsPerDay <= ms < (d + 1) * MsPerDay
  {
    ms / MsPerDay
  }

  datatype ValueAt = ValueAt(TS: int, V: real) {
    /** `ValueAt.Date`: the formatted date of the point's timestamp. */
    function Date(): DateText {
      Formatted(DateOf(TS))
    }
  }

  type Series = seq<ValueAt>

  /** The zero `ValueAt` a failed lookup returns. */
  const NoValue: ValueAt := ValueAt(0, 0.0)

  datatype PriceLookup = PriceLookup(price: ValueAt, found: bool)

  predicate HasDate(ts: Series, date: DateText) {
    exists i :: 0 <= i < |ts| && ts[i].Date() == date
  }

  /** The result `AtDate` computes: the first point whose date matches, or the zero value. */
  function FirstAtDate(ts: Series, date: DateText): (r: PriceLookup)
    ensures r.found <==> HasDate(ts, date)
    ensures r.found ==> exists i :: 0 <= i < |ts| && ts[i] == r.price && ts[i].Date() == date &&
                                    forall j :: 0 <= j < i ==> ts[j].Date() != date
    ensures !r.found ==> r.price == NoValue
  {
    if ts == [] then PriceLookup(NoValue, false)
    else if ts[0].Date() == date then PriceLookup(ts[0], true)
    else
      var r := FirstAtDate(ts[1..], date);
      assert HasDate(ts, date) ==> HasDate(ts[1..], date) by {
        if HasDate(ts, date) {
          var i :| 0 <= i < |ts| && ts[i].Date() == date;
          assert ts[1..][i - 1].Date() == date;
        }
      }
      assert r.found ==> HasDate(ts, date) by {
        if r.found {
          var i :| 0 <= i < |ts[1..]| && ts[1..][i] == r.price && ts[1..][i].Date() == date &&
                   forall j :: 0 <= j < i ==> ts[1..][j].Date() != date;
          assert ts[i + 1].Date() == date;
          assert forall j :: 0 <= j < i + 1 ==> ts[j].Date() != date by {
            forall j | 0 <= j < i + 1 ensures ts[j].Date() != date {
              if j > 0 { assert ts[j] == ts[1..][j - 1]; }
            }
          }
        }
      }
      r
  }

  /** `Series.AtDate`: a linear scan that stops at the first point whose date matches. */
  method AtDate(ts: Series, date: DateText) returns (price: ValueAt, found: bool)
    ensures PriceLookup(price, found) == FirstAtDate(ts, date)
  {
    price, found := NoValue, false;
    var i := 0;
    while i < |ts|
      invariant 0 <= i <= |ts|
      invariant FirstAtDate(ts[i..], date) == FirstAtDate(ts, date)
      invariant price == NoValue && !found
    {
      if ts[i].Date() == date {
        price, found := ts[i], true;
        break;
      }
      assert ts[i..][1..] == ts[i + 1..];
      i := i + 1;
    }
  }

  /** `Time.Format` with the date layout: the calendar day of an instant. */
  function ToDate(t: int): DateText {
    Formatted(DateOf(t))
  }

  /** `Series.At`: the lookup at the formatted date of an instant. */
  method At(ts: Series, t: int) returns (price: ValueAt, found: bool)
    ensures PriceLookup(price, found) == FirstAtDate(ts, ToDate(t))
  {
    price, found := AtDate(ts, ToDate(t));
  }

  /** `ToTime`: midnight UTC of a parsed date, the zero time when the text does not parse. */
  function ToTime(date: DateText): (t: int)
    ensures date.Formatted? ==> t == date.day * MsPerDay
    ensures date.Unparseable? ==> t == ZeroTimeMs
  {
    match date
    case Formatted(d) => d * MsPerDay
    case Unparseable(_) => ZeroTimeMs
  }

  lemma ToDateOfToTime(d: Day)
    ensures ToDate(ToTime(Formatted(d))) == Formatted(d)
  {
    assert DateOf(d * MsPerDay) == d by {
      var q := DateOf(d * MsPerDay);
      assert q * MsPerDay <= d * MsPerDay < (q + 1) * MsPerDay;
      ProductOrder(q, d, MsPerDay);
      ProductOrder(d, q + 1, MsPerDay);
    }
  }

  lemma ProductOrder(a: int, b: int, k: int)
    requires k > 0 && a * k <= b * k
    ensures a <= b
  {
  }

  function Abs(x: int): nat { if x < 0 then -x else x }

  /** `DiffDays`: the absolute number of days between two dates, 0 when either does not parse;
      a distance beyond what a `time.Duration` holds saturates. */
  function DiffDays(dateA: DateText, dateB: DateText): (days: nat)
    ensures !(dateA.Formatted? && dateB.Formatted?) ==> days == 0
    ensures days <= MaxDurationDays
    ensures dateA.Formatted? && dateB.Formatted? && Abs(dateB.day - dateA.day) <= MaxDurationDays ==>
              days == Abs(dateB.day - dateA.day)
  {
    if dateA.Formatted? && dateB.Formatted? then
      var d := Abs(dateB.day - dateA.day);
      if d <= MaxDurationDays then d else MaxDurationDays
    else 0
  }

  lemma DiffDaysSymmetric(a: DateText, b: DateText)
    ensures DiffDays(a, b) == DiffDays(b, a)
    ensures DiffDays(a, a) == 0
  {
  }

  /** A JSON tuple `[float64, float64]` as the price providers deliver it. */
  type Tuple = (real, real)

  /** Go's `int64(x)` for a `float64` that fits: truncation towards zero. */
  function Truncate(x: real): (n: int)
    ensures 0.0 <= x ==> n as real <= x < n as real + 1.0
    ensures x < 0.0 ==> n as real - 1.0 < x <= n as real
  {
    if x >= 0.0 then x.Floor else -((-x).Floor)
  }

  function PointOf(t: Tuple): ValueAt {
    ValueAt(Truncate(t.0), t.1)
  }

  /** `FromTuples`: one point per tuple, in order. */
  method FromTuples(tuples: seq<Tuple>) returns (ts: Series)
    ensures |ts| == |tuples|
    ensures forall i :: 0 <= i < |ts| ==> ts[i] == PointOf(tuples[i])
  {
    ts := [];
    for i := 0 to |tuples|
      invariant |ts| == i
      invariant forall k :: 0 <= k < i ==> ts[k] == PointOf(tuples[k])
    {
      ts := ts + [PointOf(tuples[i])];
    }
  }

  /** A series with one point per day: point `i` is `i` whole days after the first. */
  predicate Daily(ts: Series, t0: int) {
    forall i :: 0 <= i < |ts| ==> ts[i].TS == t0 + i * MsPerDay
  }

  /** Moving an instant by whole days moves its calendar day by as many. */
  lemma DateOfShift(t: int, i: int)
    ensures DateOf(t + i * MsPerDay) == DateOf(t) + i
  {
    var d := DateOf(t + i * MsPerDay);
    var d0 := DateOf(t);
    assert (d - i) * MsPerDay <= t < (d - i + 1) * MsPerDay;
    ProductOrder(d0, d - i, MsPerDay);
    ProductOrder(d - i, d0, MsPerDay) by {
      assert (d - i) * MsPerDay <= t < (d0 + 1) * MsPerDay;
      ProductStrict(d - i, d0 + 1, MsPerDay);
    }
  }

  lemma ProductStrict(a: int, b: int, k: int)
    requires k > 0 && a * k < b * k
    ensures a < b
  {
  }

  /** In a daily series the lookup at the `k`-th day after the first point finds point `k`. */
  lemma DailyLookup(ts: Series, t0: int, k: nat)
    requires Daily(ts, t0) && k < |ts|
    ensures FirstAtDate(ts, Formatted(DateOf(t0) + k)) == PriceLookup(ts[k], true)
  {
    var date := Formatted(DateOf(t0) + k);
    assert ts[k].TS == t0 + k * MsPerDay;
    DateOfShift(t0, k);
    assert ts[k].Date() == date;
    assert HasDate(ts, date);
    var r := FirstAtDate(ts, date);
    var i :| 0 <= i < |ts| && ts[i] == r.price && ts[i].Date() == date &&
             forall j :: 0 <= j < i ==> ts[j].Date() != date;
    assert ts[i].TS == t0 + i * MsPerDay;
    DateOfShift(t0, i);
    assert DateOf(t0) + i == DateOf(t0) + k;
  }

  /** Timestamps strictly increase along the series. */
  predicate Chronological(prices: Series) {
    forall i, j :: 0 <= i < j < |prices| ==> prices[i].TS < prices[j].TS
  }

  /** Sum of the values of a series, from the first point on. */
  function SumValues(s: Series): real {
    if s == [] then 0.0 else s[0].V + SumValues(s[1..])
  }

  lemma {:induction false} SumValuesAppend(s: Series, x: ValueAt)
    ensures SumValues(s + [x]) == SumValues(s) + x.V
  {
    if s == [] {
      assert [x][1..] == [];
    } else {
      assert (s + [x])[1..] == s[1..] + [x];
      SumValuesAppend(s[1..], x);
    }
  }

  /** If every value lies in [lo, hi], so does the mean of the series. */
  lemma {:induction false} SumValuesBounds(s: Series, lo: real, hi: real)
    requires forall i :: 0 <= i < |s| ==> lo <= s[i].V <= hi
    ensures |s| as real * lo <= SumValues(s) <= |s| as real * hi
  {
    if s != [] {
      SumValuesBounds(s[1..], lo, hi);
    }
  }
}
