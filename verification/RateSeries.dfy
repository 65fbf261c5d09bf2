/**
 * The Attribution Rate series (apps/staff/lib/affiliate-trends.ts): per link
 * and day, attributed sales over clicks, cumulative from the first counted day
 * or day by day.
 */
module RateSeries {
  import opened Numbers
  import opened Wrappers
  import opened CivilTime

  /** A stored hour of page views; None where the hour cannot be read, None where the bucket is the whole page's. */
  datatype ViewBucket = ViewBucket(hour: Option<int>, link: Option<string>, views: nat)

  /** A civil hour of attributed sales for one link. */
  datatype SalesBucket = SalesBucket(at: CivilHour, link: string, sales: nat, tickets: nat, netProceedsCents: int)

  datatype RateView = Cumulative | Daily

  datatype RateFigures = RateFigures(sales: nat, denominator: nat)

  datatype RateDatum = RateDatum(key: int, values: map<string, Option<real>>, details: map<string, RateFigures>)

  const ALL_PAGE_VIEWS_ID: string := "all-page-views"

  function SeriesOf(bucket: ViewBucket): string {
    bucket.link.GetOr(ALL_PAGE_VIEWS_ID)
  }

  // ---------------------------------------------------------------- plain sums

  /** Page views of a series on the days `lo..hi`. */
  function ClicksBetween(zone: Zone, views: seq<ViewBucket>, lo: int, hi: int, id: string): nat {
    if views == [] then 0
    else
      var init, bucket := views[..|views| - 1], views[|views| - 1];
      ClicksBetween(zone, init, lo, hi, id)
      + if bucket.hour.Some? && SeriesOf(bucket) == id && lo <= DayOf(zone, bucket.hour.value) <= hi
        then bucket.views else 0
  }

  /** A sale counts under its link, and under the whole page. */
  function Credit(bucket: SalesBucket, id: string): nat {
    (if bucket.link == id then bucket.sales else 0) + (if id == ALL_PAGE_VIEWS_ID then bucket.sales else 0)
  }

  /** Attributed sales of a series on the days `lo..hi`. */
  function SalesBetween(sales: seq<SalesBucket>, lo: int, hi: int, id: string): nat {
    if sales == [] then 0
    else
      var init, bucket := sales[..|sales| - 1], sales[|sales| - 1];
      SalesBetween(init, lo, hi, id) + if lo <= bucket.at.day <= hi then Credit(bucket, id) else 0
  }

  /** The days with a readable bucket no later than `lastDay`. */
  function CountedDays(zone: Zone, views: seq<ViewBucket>, lastDay: int): set<int> {
    if views == [] then {}
    else
      var init, bucket := views[..|views| - 1], views[|views| - 1];
      CountedDays(zone, init, lastDay)
      + if bucket.hour.Some? && DayOf(zone, bucket.hour.value) <= lastDay then {DayOf(zone, bucket.hour.value)} else {}
  }

  /** The first counted day, or the day after the last when nothing was counted: then no day counts. */
  function FloorDay(zone: Zone, views: seq<ViewBucket>, lastDay: int): int {
    if views == [] then lastDay + 1
    else
      var init, bucket := views[..|views| - 1], views[|views| - 1];
      var floor := FloorDay(zone, init, lastDay);
      if bucket.hour.Some? && DayOf(zone, bucket.hour.value) <= lastDay then Min(floor, DayOf(zone, bucket.hour.value))
      else floor
  }

  lemma {:induction false} FloorIsFirstCounted(zone: Zone, views: seq<ViewBucket>, lastDay: int)
    ensures var floor, days := FloorDay(zone, views, lastDay), CountedDays(zone, views, lastDay);
            && (forall d | d in days :: floor <= d <= lastDay)
            && (if days == {} then floor == lastDay + 1 else floor in days)
  {
    if views != [] { FloorIsFirstCounted(zone, views[..|views| - 1], lastDay); }
  }

  /** What a rate point must divide: a plain sum over days, with no window in sight. */
  function Figures(zone: Zone, views: seq<ViewBucket>, sales: seq<SalesBucket>, floor: int, view: RateView, day: int,
                   id: string)
    : RateFigures
  {
    var lo := if view == Cumulative then floor else Max(floor, day);
    RateFigures(SalesBetween(sales, lo, day, id), ClicksBetween(zone, views, lo, day, id))
  }

  function Quotient(figures: RateFigures): Option<real> {
    if figures.denominator > 0 then Some(figures.sales as real / figures.denominator as real) else None
  }

  // ---------------------------------------------------------------- the day stores

  type DayStore = map<int, map<string, nat>>

  function At(store: DayStore, day: int, id: string): nat {
    if day in store && id in store[day] then store[day][id] else 0
  }

  function Tally(store: DayStore, day: int, id: string, n: nat): (tallied: DayStore)
    ensures tallied.Keys == store.Keys + {day}
  {
    var forDay := if day in store then store[day] else map[];
    store[day := forDay[id := (if id in forDay then forDay[id] else 0) + n]]
  }

  lemma TallyAt(store: DayStore, day: int, id: string, n: nat)
    ensures forall d, i :: At(Tally(store, day, id, n), d, i) == At(store, d, i) + if d == day && i == id then n else 0
  {
  }

  /** The stored counts of the days `lo..hi`. */
  function Stored(store: DayStore, lo: int, hi: int, id: string): nat
    decreases hi - lo
  {
    if lo > hi then 0 else Stored(store, lo, hi - 1, id) + At(store, hi, id)
  }

  /** The clicks loop: buckets of later days than the reader's wait. */
  method TallyClicks(zone: Zone, views: seq<ViewBucket>, lastDay: int) returns (clicksByDay: DayStore)
    ensures clicksByDay.Keys == CountedDays(zone, views, lastDay)
    ensures forall d, id :: d <= lastDay ==> At(clicksByDay, d, id) == ClicksBetween(zone, views, d, d, id)
  {
    clicksByDay := map[];
    for n := 0 to |views|
      invariant clicksByDay.Keys == CountedDays(zone, views[..n], lastDay)
      invariant forall d, id :: d <= lastDay ==> At(clicksByDay, d, id) == ClicksBetween(zone, views[..n], d, d, id)
    {
      var bucket := views[n];
      assert views[..n + 1][..n] == views[..n];
      if bucket.hour == None {
        continue;
      }
      var day := DayOf(zone, bucket.hour.value);
      if day > lastDay {
        continue;
      }
      TallyAt(clicksByDay, day, SeriesOf(bucket), bucket.views);
      clicksByDay := Tally(clicksByDay, day, SeriesOf(bucket), bucket.views);
    }
    assert views[..|views|] == views;
  }

  method PickAny<T>(s: set<T>) returns (x: T)
    requires s != {}
    ensures x in s
  {
    x :| x in s;
  }

  method FirstDay(days: set<int>) returns (first: Option<int>)
    ensures days == {} <==> first.None?
    ensures first.Some? ==> first.value in days && forall d | d in days :: first.value <= d
  {
    first := None;
    var rest := days;
    while rest != {}
      invariant rest <= days
      invariant first.None? <==> rest == days
      invariant first.Some? ==> first.value in days && forall d | d in days && d !in rest :: first.value <= d
      decreases |rest|
    {
      var day := PickAny(rest);
      if first.None? || day < first.value { first := Some(day); }
      rest := rest - {day};
    }
  }

  /** The sales loop: nothing before the first counted day, nothing after the reader's. */
  method TallySales(sales: seq<SalesBucket>, floor: int, lastDay: int) returns (salesByDay: DayStore)
    ensures forall d | d in salesByDay :: floor <= d <= lastDay
    ensures forall d, id :: floor <= d <= lastDay ==> At(salesByDay, d, id) == SalesBetween(sales, d, d, id)
  {
    salesByDay := map[];
    for n := 0 to |sales|
      invariant forall d | d in salesByDay :: floor <= d <= lastDay
      invariant forall d, id :: floor <= d <= lastDay ==> At(salesByDay, d, id) == SalesBetween(sales[..n], d, d, id)
    {
      var bucket := sales[n];
      assert sales[..n + 1][..n] == sales[..n];
      if bucket.at.day > lastDay || bucket.at.day < floor {
        continue;
      }
      TallyAt(salesByDay, bucket.at.day, bucket.link, bucket.sales);
      var once := Tally(salesByDay, bucket.at.day, bucket.link, bucket.sales);
      TallyAt(once, bucket.at.day, ALL_PAGE_VIEWS_ID, bucket.sales);
      salesByDay := Tally(once, bucket.at.day, ALL_PAGE_VIEWS_ID, bucket.sales);
    }
    assert sales[..|sales|] == sales;
  }

  // ---------------------------------------------------------------- running sums

  function Get(running: map<string, nat>, id: string): nat {
    if id in running then running[id] else 0
  }

  /** One of the two loops of `accumulateDay`. */
  method AddDay(running: map<string, nat>, store: DayStore, day: int) returns (sum: map<string, nat>)
    ensures forall id :: Get(sum, id) == Get(running, id) + At(store, day, id)
  {
    sum := running;
    if day !in store { return; }
    var forDay := store[day];
    var rest := forDay.Keys;
    while rest != {}
      invariant rest <= forDay.Keys
      invariant forall id :: Get(sum, id) == Get(running, id) + if id in forDay.Keys - rest then forDay[id] else 0
      decreases |rest|
    {
      var id :| id in rest;
      sum := sum[id := Get(sum, id) + forDay[id]];
      rest := rest - {id};
    }
  }

  lemma {:induction false} StoredNothing(store: DayStore, lo: int, hi: int, id: string)
    requires forall d | lo <= d <= hi :: d !in store
    ensures Stored(store, lo, hi, id) == 0
    decreases hi - lo
  {
    if lo <= hi { StoredNothing(store, lo, hi - 1, id); }
  }

  lemma {:induction false} StoredSplit(store: DayStore, lo: int, mid: int, hi: int, id: string)
    requires lo <= mid + 1 && mid <= hi
    ensures Stored(store, lo, hi, id) == Stored(store, lo, mid, id) + Stored(store, mid + 1, hi, id)
    decreases hi - mid
  {
    if mid < hi { StoredSplit(store, lo, mid, hi - 1, id); }
  }

  /** The days in order: `[...set].sort()`. */
  method SortedDays(days: set<int>) returns (sorted: seq<int>)
    ensures forall d :: d in sorted <==> d in days
    ensures forall i, j :: 0 <= i < j < |sorted| ==> sorted[i] < sorted[j]
  {
    sorted := [];
    var rest := days;
    while rest != {}
      invariant rest <= days
      invariant forall d :: d in sorted <==> d in days - rest
      invariant forall i, j :: 0 <= i < j < |sorted| ==> sorted[i] < sorted[j]
      invariant forall i, d :: 0 <= i < |sorted| && d in rest ==> sorted[i] < d
      decreases |rest|
    {
      var first := FirstDay(rest);
      sorted := sorted + [first.value];
      rest := rest - {first.value};
    }
  }

  // ---------------------------------------------------------------- stores against plain sums

  lemma {:induction false} ClicksSplit(zone: Zone, views: seq<ViewBucket>, lo: int, hi: int, id: string)
    requires lo <= hi
    ensures ClicksBetween(zone, views, lo, hi, id)
         == ClicksBetween(zone, views, lo, hi - 1, id) + ClicksBetween(zone, views, hi, hi, id)
  {
    if views != [] { ClicksSplit(zone, views[..|views| - 1], lo, hi, id); }
  }

  lemma {:induction false} SalesSplit(sales: seq<SalesBucket>, lo: int, hi: int, id: string)
    requires lo <= hi
    ensures SalesBetween(sales, lo, hi, id) == SalesBetween(sales, lo, hi - 1, id) + SalesBetween(sales, hi, hi, id)
  {
    if sales != [] { SalesSplit(sales[..|sales| - 1], lo, hi, id); }
  }

  lemma {:induction false} NoDaysNoCounts(zone: Zone, views: seq<ViewBucket>, sales: seq<SalesBucket>, lo: int,
                                          hi: int, id: string)
    requires lo > hi
    ensures ClicksBetween(zone, views, lo, hi, id) == 0 && SalesBetween(sales, lo, hi, id) == 0
    decreases |views| + |sales|
  {
    if views != [] { NoDaysNoCounts(zone, views[..|views| - 1], [], lo, hi, id); }
    if sales != [] { NoDaysNoCounts(zone, [], sales[..|sales| - 1], lo, hi, id); }
  }

  lemma {:induction false} StoredIsPlainSum(zone: Zone, views: seq<ViewBucket>, sales: seq<SalesBucket>, floor: int,
                                            lastDay: int, clicks: DayStore, sold: DayStore, lo: int, hi: int,
                                            id: string)
    requires floor <= lo && hi <= lastDay
    requires forall d, i :: d <= lastDay ==> At(clicks, d, i) == ClicksBetween(zone, views, d, d, i)
    requires forall d, i :: floor <= d <= lastDay ==> At(sold, d, i) == SalesBetween(sales, d, d, i)
    ensures Stored(clicks, lo, hi, id) == ClicksBetween(zone, views, lo, hi, id)
    ensures Stored(sold, lo, hi, id) == SalesBetween(sales, lo, hi, id)
    decreases hi - lo
  {
    if lo > hi {
      NoDaysNoCounts(zone, views, sales, lo, hi, id);
    } else {
      StoredIsPlainSum(zone, views, sales, floor, lastDay, clicks, sold, lo, hi - 1, id);
      ClicksSplit(zone, views, lo, hi, id);
      SalesSplit(sales, lo, hi, id);
    }
  }

  /** The running maps hold the stored counts of the days from `floor` to `upTo`. */
  ghost predicate Accumulated(running: map<string, nat>, store: DayStore, floor: int, upTo: int) {
    forall id :: Get(running, id) == Stored(store, floor, upTo, id)
  }

  lemma SkipDays(running: map<string, nat>, store: DayStore, floor: int, from: int, upTo: int)
    requires Accumulated(running, store, floor, from) && from <= upTo
    requires forall d | d in store && floor <= d :: d <= from || d > upTo
    ensures Accumulated(running, store, floor, upTo)
  {
    forall id ensures Get(running, id) == Stored(store, floor, upTo, id) {
      assert Get(running, id) == Stored(store, floor, from, id);
      if floor <= from + 1 {
        StoredSplit(store, floor, from, upTo, id);
        StoredNothing(store, from + 1, upTo, id);
      } else {
        StoredNothing(store, floor, upTo, id);
      }
    }
  }

  /** One step of `accumulateDay`, onto one running map. */
  method Accumulate(running: map<string, nat>, store: DayStore, day: int, ghost floor: int, ghost upTo: int)
    returns (sum: map<string, nat>)
    requires upTo < day && Accumulated(running, store, floor, upTo)
    requires forall d | d in store :: floor <= d && (d <= upTo || d >= day)
    ensures Accumulated(sum, store, floor, day)
  {
    SkipDays(running, store, floor, upTo, day - 1);
    sum := AddDay(running, store, day);
    forall id ensures Get(sum, id) == Stored(store, floor, day, id) {
      assert Get(running, id) == Stored(store, floor, day - 1, id);
      if floor > day {
        assert day !in store;
        StoredNothing(store, floor, day - 1, id);
      }
    }
  }

  /** Everything before the first shown day, walked in order. */
  method AccumulateBefore(clicks: DayStore, sold: DayStore, firstShown: int, ghost floor: int)
    returns (runClicks: map<string, nat>, runSales: map<string, nat>)
    requires forall d | d in clicks :: floor <= d
    requires forall d | d in sold :: floor <= d
    ensures Accumulated(runClicks, clicks, floor, firstShown - 1)
    ensures Accumulated(runSales, sold, floor, firstShown - 1)
  {
    runClicks, runSales := map[], map[];
    var days := SortedDays(set d | d in clicks.Keys + sold.Keys && d < firstShown);
    ghost var upTo := Min(floor, firstShown) - 1;
    assert Accumulated(runClicks, clicks, floor, upTo) && Accumulated(runSales, sold, floor, upTo);
    for n := 0 to |days|
      invariant upTo == if n == 0 then Min(floor, firstShown) - 1 else days[n - 1]
      invariant upTo < firstShown
      invariant Accumulated(runClicks, clicks, floor, upTo)
      invariant Accumulated(runSales, sold, floor, upTo)
    {
      assert days[n] in days;
      forall d | d in clicks.Keys + sold.Keys && d < days[n] ensures d <= upTo {
        assert d in days;
        var k :| 0 <= k < |days| && days[k] == d;
      }
      runClicks := Accumulate(runClicks, clicks, days[n], floor, upTo);
      runSales := Accumulate(runSales, sold, days[n], floor, upTo);
      upTo := days[n];
    }
    forall d | d in clicks.Keys + sold.Keys && d < firstShown ensures d <= upTo {
      assert d in days;
      var k :| 0 <= k < |days| && days[k] == d;
    }
    SkipDays(runClicks, clicks, floor, upTo, firstShown - 1);
    SkipDays(runSales, sold, floor, upTo, firstShown - 1);
  }

  // ---------------------------------------------------------------- the series

  function DatumAt(zone: Zone, views: seq<ViewBucket>, sales: seq<SalesBucket>, floor: int, view: RateView,
                   selected: set<string>, day: int): RateDatum
  {
    RateDatum(day,
              map id | id in selected :: Quotient(Figures(zone, views, sales, floor, view, day, id)),
              map id | id in selected :: Figures(zone, views, sales, floor, view, day, id))
  }

  function FirstShown(zone: Zone, floor: int, range: TrendsRange, end: int): int {
    match range
    case All => floor
    case Last30d => DayOf(zone, end - (RangeHours(Last30d) - 1))
    case _ => DayOf(zone, end - (RangeHours(Last7d) - 1))
  }

  /** The axis: on "all" every day from the first counted one, otherwise every day of the window. */
  function RateAxis(zone: Zone, floor: int, range: TrendsRange, end: int): seq<int> {
    Span(FirstShown(zone, floor, range, end), DayOf(zone, end))
  }

  function DataOf(zone: Zone, views: seq<ViewBucket>, sales: seq<SalesBucket>, floor: int, view: RateView,
                  selected: set<string>, days: seq<int>, n: nat): seq<RateDatum>
    requires n <= |days|
  {
    if n == 0 then []
    else
      DataOf(zone, views, sales, floor, view, selected, days, n - 1)
      + [DatumAt(zone, views, sales, floor, view, selected, days[n - 1])]
  }

  /** The daily view reads one stored day. */
  function DayFigures(clicks: DayStore, sold: DayStore, day: int, id: string): RateFigures {
    RateFigures(At(sold, day, id), At(clicks, day, id))
  }

  function RunningFigures(runClicks: map<string, nat>, runSales: map<string, nat>, id: string): RateFigures {
    RateFigures(Get(runSales, id), Get(runClicks, id))
  }

  /** The stores are the plain day sums. */
  ghost predicate StoresHold(zone: Zone, views: seq<ViewBucket>, sales: seq<SalesBucket>, floor: int, lastDay: int,
                             clicks: DayStore, sold: DayStore)
  {
    && (forall d, i :: d <= lastDay ==> At(clicks, d, i) == ClicksBetween(zone, views, d, d, i))
    && (forall d, i :: floor <= d <= lastDay ==> At(sold, d, i) == SalesBetween(sales, d, d, i))
    && (forall d | d in clicks :: floor <= d)
    && (forall d | d in sold :: floor <= d)
  }

  lemma DailyFigures(zone: Zone, views: seq<ViewBucket>, sales: seq<SalesBucket>, floor: int, lastDay: int,
                     clicks: DayStore, sold: DayStore, day: int, id: string)
    requires StoresHold(zone, views, sales, floor, lastDay, clicks, sold) && day <= lastDay
    ensures DayFigures(clicks, sold, day, id) == Figures(zone, views, sales, floor, Daily, day, id)
  {
    if day < floor {
      NoDaysNoCounts(zone, views, sales, floor, day, id);
      assert day !in clicks && day !in sold;
    }
  }

  lemma CumulativeFigures(zone: Zone, views: seq<ViewBucket>, sales: seq<SalesBucket>, floor: int, lastDay: int,
                          clicks: DayStore, sold: DayStore, runClicks: map<string, nat>, runSales: map<string, nat>,
                          day: int, id: string)
    requires StoresHold(zone, views, sales, floor, lastDay, clicks, sold) && day <= lastDay
    requires Accumulated(runClicks, clicks, floor, day) && Accumulated(runSales, sold, floor, day)
    ensures RunningFigures(runClicks, runSales, id) == Figures(zone, views, sales, floor, Cumulative, day, id)
  {
    StoredIsPlainSum(zone, views, sales, floor, lastDay, clicks, sold, floor, day, id);
  }

  /** The emitting loop, over consecutive days. */
  method EmitRates(zone: Zone, views: seq<ViewBucket>, sales: seq<SalesBucket>, ghost floor: int, lastDay: int,
                   clicks: DayStore, sold: DayStore, view: RateView, selected: set<string>, first: int, days: seq<int>)
    returns (data: seq<RateDatum>)
    requires StoresHold(zone, views, sales, floor, lastDay, clicks, sold)
    requires days == Span(first, lastDay)
    ensures data == DataOf(zone, views, sales, floor, view, selected, days, |days|)
  {
    hide Figures, Quotient, StoresHold, Accumulated, RunningFigures, DayFigures, DatumAt;
    var runClicks: map<string, nat>, runSales: map<string, nat> := map[], map[];
    if view == Cumulative {
      assert (forall d | d in clicks :: floor <= d) && (forall d | d in sold :: floor <= d)
        by { KeysFromFloor(zone, views, sales, floor, lastDay, clicks, sold); }
      runClicks, runSales := AccumulateBefore(clicks, sold, first, floor);
    }
    data := [];
    for n := 0 to |days|
      invariant data == DataOf(zone, views, sales, floor, view, selected, days, n)
      invariant view == Cumulative ==> Accumulated(runClicks, clicks, floor, first + n - 1)
                                       && Accumulated(runSales, sold, floor, first + n - 1)
    {
      var day := days[n];
      if view == Cumulative {
        KeysFromFloor(zone, views, sales, floor, lastDay, clicks, sold);
        runClicks := Accumulate(runClicks, clicks, day, floor, day - 1);
        runSales := Accumulate(runSales, sold, day, floor, day - 1);
      }
      var datum := EmitDay(zone, views, sales, floor, lastDay, clicks, sold, view, selected, day, runClicks, runSales);
      data := data + [datum];
    }
  }

  /** One day's datum: the division of each series. */
  method EmitDay(ghost zone: Zone, ghost views: seq<ViewBucket>, ghost sales: seq<SalesBucket>, ghost floor: int,
                 ghost lastDay: int, clicks: DayStore, sold: DayStore, view: RateView, selected: set<string>, day: int,
                 runClicks: map<string, nat>, runSales: map<string, nat>)
    returns (datum: RateDatum)
    requires StoresHold(zone, views, sales, floor, lastDay, clicks, sold) && day <= lastDay
    requires view == Cumulative ==>
               Accumulated(runClicks, clicks, floor, day) && Accumulated(runSales, sold, floor, day)
    ensures datum == DatumAt(zone, views, sales, floor, view, selected, day)
  {
    hide Figures, Quotient, StoresHold, Accumulated, RunningFigures, DayFigures, DatumAt;
    var details := map id | id in selected ::
      if view == Cumulative then RunningFigures(runClicks, runSales, id) else DayFigures(clicks, sold, day, id);
    forall id | id in selected ensures details[id] == Figures(zone, views, sales, floor, view, day, id) {
      if view == Cumulative {
        CumulativeFigures(zone, views, sales, floor, lastDay, clicks, sold, runClicks, runSales, day, id);
      } else {
        DailyFigures(zone, views, sales, floor, lastDay, clicks, sold, day, id);
      }
    }
    var values := map id | id in selected :: Quotient(details[id]);
    DatumIs(zone, views, sales, floor, view, selected, day, values, details);
    datum := RateDatum(day, values, details);
  }

  lemma DatumIs(zone: Zone, views: seq<ViewBucket>, sales: seq<SalesBucket>, floor: int, view: RateView,
                selected: set<string>, day: int, values: map<string, Option<real>>, details: map<string, RateFigures>)
    requires details.Keys == selected && values.Keys == selected
    requires forall id | id in selected ::
      details[id] == Figures(zone, views, sales, floor, view, day, id) && values[id] == Quotient(details[id])
    ensures RateDatum(day, values, details) == DatumAt(zone, views, sales, floor, view, selected, day)
  {
    hide Figures, Quotient;
  }

  lemma KeysFromFloor(zone: Zone, views: seq<ViewBucket>, sales: seq<SalesBucket>, floor: int, lastDay: int,
                      clicks: DayStore, sold: DayStore)
    requires StoresHold(zone, views, sales, floor, lastDay, clicks, sold)
    ensures (forall d | d in clicks :: floor <= d) && (forall d | d in sold :: floor <= d)
  {
  }

  function SetOf(ids: seq<string>): set<string> {
    set id | id in ids
  }

  function RateData(zone: Zone, views: seq<ViewBucket>, salesBuckets: Option<seq<SalesBucket>>,
                    selected: seq<string>, range: TrendsRange, end: int, view: RateView): seq<RateDatum>
  {
    match salesBuckets
    case None => []
    case Some(sales) =>
      var floor := FloorDay(zone, views, DayOf(zone, end));
      var days := RateAxis(zone, floor, range, end);
      DataOf(zone, views, sales, floor, view, SetOf(selected), days, |days|)
  }

  /** The days shown, hour by hour through the zone. */
  method RateDays(zone: Zone, floor: int, range: TrendsRange, end: int) returns (days: seq<int>)
    requires ValidZone(zone) && floor <= DayOf(zone, end)
    ensures days == RateAxis(zone, floor, range, end)
  {
    var effective := if range == Last24h then Last7d else range;
    if effective != All {
      var start := end - (RangeHours(effective) - 1);
      days := WalkDays(zone, start, end, DayOf(zone, start));
    } else {
      var start := Min(24 * floor - 14, end);
      PadReachesDay(zone, floor);
      assert DayOf(zone, start) <= DayOf(zone, 24 * floor - 14);
      days := WalkDays(zone, start, end, floor);
    }
  }

  /** The same, and with nothing counted: the days of the window, or none on "all". */
  method ShownDays(zone: Zone, firstViewDay: Option<int>, range: TrendsRange, end: int) returns (days: seq<int>)
    requires ValidZone(zone) && firstViewDay.GetOr(DayOf(zone, end)) <= DayOf(zone, end)
    ensures days == RateAxis(zone, firstViewDay.GetOr(DayOf(zone, end) + 1), range, end)
  {
    if firstViewDay.None? {
      if range == All { return []; }
      var start := end - (RangeHours(if range == Last24h then Last7d else range) - 1);
      days := WalkDays(zone, start, end, DayOf(zone, start));
    } else {
      days := RateDays(zone, firstViewDay.value, range, end);
    }
  }

  /**
   * `rateSeries`. Whatever the window, each point divides the same two plain
   * sums; the window only chooses the days shown.
   */
  method ComputeRateSeries(zone: Zone, views: seq<ViewBucket>, salesBuckets: Option<seq<SalesBucket>>,
                           selected: seq<string>, range: TrendsRange, nowMs: int, view: RateView)
    returns (data: seq<RateDatum>)
    requires ValidZone(zone)
    ensures data == RateData(zone, views, salesBuckets, selected, range, HourOf(nowMs), view)
  {
    if salesBuckets.None? { return []; }
    var sales := salesBuckets.value;
    var end := HourOf(nowMs);
    var lastDay := DayOf(zone, end);
    var clicks := TallyClicks(zone, views, lastDay);
    var firstViewDay := FirstDay(clicks.Keys);
    FloorIsFirstCounted(zone, views, lastDay);
    var floor := firstViewDay.GetOr(lastDay + 1);
    assert floor == FloorDay(zone, views, lastDay);
    var sold := TallySales(sales, floor, lastDay);
    var days := ShownDays(zone, firstViewDay, range, end);
    data := EmitRates(zone, views, sales, floor, lastDay, clicks, sold, view, SetOf(selected),
                      FirstShown(zone, floor, range, end), days);
  }

  // ---------------------------------------------------------------- what the series promises

  lemma {:induction false} DataAt(zone: Zone, views: seq<ViewBucket>, sales: seq<SalesBucket>, floor: int,
                                  view: RateView, selected: set<string>, days: seq<int>, n: nat, k: nat)
    requires n <= |days|
    ensures |DataOf(zone, views, sales, floor, view, selected, days, n)| == n
    ensures k < n ==> DataOf(zone, views, sales, floor, view, selected, days, n)[k]
                      == DatumAt(zone, views, sales, floor, view, selected, days[k])
  {
    hide DatumAt;
    if n > 0 { DataAt(zone, views, sales, floor, view, selected, days, n - 1, k); }
  }

  /** The window never moves a cumulative or a daily point: same day, same link, same division. */
  lemma WindowChoosesDaysOnly(zone: Zone, views: seq<ViewBucket>, sales: seq<SalesBucket>, view: RateView, end: int,
                              sel1: seq<string>, range1: TrendsRange, k1: nat, sel2: seq<string>,
                              range2: TrendsRange, k2: nat, id: string)
    requires id in sel1 && id in sel2
    requires k1 < |RateData(zone, views, Some(sales), sel1, range1, end, view)|
    requires k2 < |RateData(zone, views, Some(sales), sel2, range2, end, view)|
    ensures var d1 := RateData(zone, views, Some(sales), sel1, range1, end, view)[k1];
            var d2 := RateData(zone, views, Some(sales), sel2, range2, end, view)[k2];
            && id in d1.details && id in d2.details && id in d1.values && id in d2.values
            && (d1.key == d2.key ==> d1.details[id] == d2.details[id] && d1.values[id] == d2.values[id])
  {
    var floor := FloorDay(zone, views, DayOf(zone, end));
    var a1, a2 := RateAxis(zone, floor, range1, end), RateAxis(zone, floor, range2, end);
    RateDataAt(zone, views, sales, sel1, range1, end, view, k1);
    RateDataAt(zone, views, sales, sel2, range2, end, view, k2);
  }

  lemma RateDataAt(zone: Zone, views: seq<ViewBucket>, sales: seq<SalesBucket>, selected: seq<string>,
                   range: TrendsRange, end: int, view: RateView, k: nat)
    requires k < |RateData(zone, views, Some(sales), selected, range, end, view)|
    ensures var floor := FloorDay(zone, views, DayOf(zone, end));
            && k < |RateAxis(zone, floor, range, end)|
            && RateData(zone, views, Some(sales), selected, range, end, view)[k]
               == DatumAt(zone, views, sales, floor, view, SetOf(selected), RateAxis(zone, floor, range, end)[k])
  {
    var floor := FloorDay(zone, views, DayOf(zone, end));
    var axis := RateAxis(zone, floor, range, end);
    DataAt(zone, views, sales, floor, view, SetOf(selected), axis, |axis|, k);
  }

  lemma {:induction false} WiderSumsAreLarger(zone: Zone, views: seq<ViewBucket>, sales: seq<SalesBucket>, lo: int,
                                              hi: int, hi': int, id: string)
    requires hi <= hi'
    ensures ClicksBetween(zone, views, lo, hi, id) <= ClicksBetween(zone, views, lo, hi', id)
    ensures SalesBetween(sales, lo, hi, id) <= SalesBetween(sales, lo, hi', id)
    decreases |views| + |sales|
  {
    if views != [] { WiderSumsAreLarger(zone, views[..|views| - 1], [], lo, hi, hi', id); }
    if sales != [] { WiderSumsAreLarger(zone, [], sales[..|sales| - 1], lo, hi, hi', id); }
  }

  /** Along the axis the cumulative counts never fall. */
  lemma CumulativeNeverFalls(zone: Zone, views: seq<ViewBucket>, sales: seq<SalesBucket>, selected: seq<string>,
                             range: TrendsRange, end: int, i: nat, j: nat, id: string)
    requires i <= j < |RateData(zone, views, Some(sales), selected, range, end, Cumulative)| && id in selected
    ensures var data := RateData(zone, views, Some(sales), selected, range, end, Cumulative);
            && id in data[i].details && id in data[j].details
            && data[i].details[id].sales <= data[j].details[id].sales
            && data[i].details[id].denominator <= data[j].details[id].denominator
  {
    RateDataAt(zone, views, sales, selected, range, end, Cumulative, i);
    RateDataAt(zone, views, sales, selected, range, end, Cumulative, j);
    var floor := FloorDay(zone, views, DayOf(zone, end));
    var axis := RateAxis(zone, floor, range, end);
    WiderSumsAreLarger(zone, views, sales, floor, axis[i], axis[j], id);
  }

  /** Up to the reader's day, the whole page's denominator is every readable view there is. */
  lemma {:induction false} ClicksFromFloorAreAll(zone: Zone, views: seq<ViewBucket>, floor: int, lo: int, day: int,
                                                 lastDay: int, id: string)
    requires day <= lastDay && lo <= floor <= FloorDay(zone, views, lastDay)
    ensures ClicksBetween(zone, views, floor, day, id) == ClicksBetween(zone, views, lo, day, id)
  {
    if views != [] { ClicksFromFloorAreAll(zone, views[..|views| - 1], floor, lo, day, lastDay, id); }
  }

  // ---------------------------------------------------------------- what a point counts

  /** A day is divided over: the day shown, or on the running view any day up to it. */
  predicate InSpan(view: RateView, day: int, shown: int) {
    if view == Cumulative then day <= shown else day == shown
  }

  /** Page views were being counted by this day. */
  ghost predicate CountedBy(zone: Zone, views: seq<ViewBucket>, day: int) {
    exists n :: 0 <= n < |views| && views[n].hour.Some? && DayOf(zone, views[n].hour.value) <= day
  }

  lemma {:induction false} FloorReached(zone: Zone, views: seq<ViewBucket>, lastDay: int, day: int)
    requires day <= lastDay
    ensures FloorDay(zone, views, lastDay) <= day <==> CountedBy(zone, views, day)
  {
    if views != [] {
      var init := views[..|views| - 1];
      FloorReached(zone, init, lastDay, day);
      if CountedBy(zone, init, day) {
        var n :| 0 <= n < |init| && init[n].hour.Some? && DayOf(zone, init[n].hour.value) <= day;
        assert views[n] == init[n];
      }
      if CountedBy(zone, views, day) {
        var n :| 0 <= n < |views| && views[n].hour.Some? && DayOf(zone, views[n].hour.value) <= day;
        if n < |init| { assert init[n] == views[n]; }
      }
    }
  }

  /** No point is drawn for a day after the reader's. */
  lemma KeysUpToLastDay(zone: Zone, views: seq<ViewBucket>, sales: seq<SalesBucket>, selected: seq<string>,
                        range: TrendsRange, end: int, view: RateView, k: nat)
    requires k < |RateData(zone, views, Some(sales), selected, range, end, view)|
    ensures RateData(zone, views, Some(sales), selected, range, end, view)[k].key <= DayOf(zone, end)
  {
    RateDataAt(zone, views, sales, selected, range, end, view, k);
  }

  /**
   * One more bucket of sales on a day that is divided over, once page views are
   * being counted, adds its sales to its link's numerator and to the whole
   * page's; it adds nothing anywhere else, whatever its tickets and proceeds.
   */
  lemma OneMoreSale(zone: Zone, views: seq<ViewBucket>, sales: seq<SalesBucket>, bucket: SalesBucket,
                    selected: seq<string>, range: TrendsRange, end: int, view: RateView, k: nat, id: string)
    requires id in selected && k < |RateData(zone, views, Some(sales), selected, range, end, view)|
    ensures var d := RateData(zone, views, Some(sales), selected, range, end, view);
            var d' := RateData(zone, views, Some(sales + [bucket]), selected, range, end, view);
            && |d'| == |d| && d'[k].key == d[k].key && id in d[k].details && id in d'[k].details
            && d'[k].details[id].denominator == d[k].details[id].denominator
            && d'[k].details[id].sales == d[k].details[id].sales
               + (if !InSpan(view, bucket.at.day, d[k].key) || !CountedBy(zone, views, bucket.at.day) then 0
                  else (if id == bucket.link then bucket.sales else 0)
                       + (if id == ALL_PAGE_VIEWS_ID then bucket.sales else 0))
  {
    var floor := FloorDay(zone, views, DayOf(zone, end));
    SameLength(zone, views, sales, sales + [bucket], selected, range, end, view);
    RateDataAt(zone, views, sales, selected, range, end, view, k);
    RateDataAt(zone, views, sales + [bucket], selected, range, end, view, k);
    KeysUpToLastDay(zone, views, sales, selected, range, end, view, k);
    assert (sales + [bucket])[..|sales|] == sales;
    if bucket.at.day <= DayOf(zone, end) { FloorReached(zone, views, DayOf(zone, end), bucket.at.day); }
  }

  lemma SameLength(zone: Zone, views: seq<ViewBucket>, sales: seq<SalesBucket>, sales': seq<SalesBucket>,
                   selected: seq<string>, range: TrendsRange, end: int, view: RateView)
    ensures |RateData(zone, views, Some(sales), selected, range, end, view)|
         == |RateData(zone, views, Some(sales'), selected, range, end, view)|
  {
    hide DataOf;
    var floor := FloorDay(zone, views, DayOf(zone, end));
    var axis := RateAxis(zone, floor, range, end);
    DataAt(zone, views, sales, floor, view, SetOf(selected), axis, |axis|, 0);
    DataAt(zone, views, sales', floor, view, SetOf(selected), axis, |axis|, 0);
  }

  /** A denominator is every counted view of the span, wherever counting began. */
  lemma DenominatorIs(zone: Zone, views: seq<ViewBucket>, sales: seq<SalesBucket>, selected: seq<string>,
                      range: TrendsRange, end: int, view: RateView, k: nat, id: string, lo: int)
    requires id in selected && k < |RateData(zone, views, Some(sales), selected, range, end, view)|
    requires lo <= FloorDay(zone, views, DayOf(zone, end))
    ensures var d := RateData(zone, views, Some(sales), selected, range, end, view);
            && id in d[k].details
            && d[k].details[id].denominator
               == ClicksBetween(zone, views, if view == Cumulative then lo else d[k].key, d[k].key, id)
  {
    var lastDay := DayOf(zone, end);
    var floor := FloorDay(zone, views, lastDay);
    RateDataAt(zone, views, sales, selected, range, end, view, k);
    var day := RateAxis(zone, floor, range, end)[k];
    if view == Cumulative {
      ClicksFromFloorAreAll(zone, views, floor, lo, day, lastDay, id);
    } else if day < floor {
      ClicksFromFloorAreAll(zone, views, floor, day, day, lastDay, id);
    }
  }

  /**
   * One more hour of page views on a day that is divided over adds them to the
   * denominator of its link, or of the whole page when it has none, even when
   * it is the first ever counted; it adds nothing anywhere else.
   */
  lemma OneMoreView(zone: Zone, views: seq<ViewBucket>, bucket: ViewBucket, sales: seq<SalesBucket>,
                    selected: seq<string>, range: TrendsRange, end: int, view: RateView, k: nat, k': nat, id: string)
    requires id in selected
    requires k < |RateData(zone, views, Some(sales), selected, range, end, view)|
    requires k' < |RateData(zone, views + [bucket], Some(sales), selected, range, end, view)|
    requires RateData(zone, views, Some(sales), selected, range, end, view)[k].key
          == RateData(zone, views + [bucket], Some(sales), selected, range, end, view)[k'].key
    ensures var d := RateData(zone, views, Some(sales), selected, range, end, view)[k];
            var d' := RateData(zone, views + [bucket], Some(sales), selected, range, end, view)[k'];
            && id in d.details && id in d'.details
            && d'.details[id].denominator == d.details[id].denominator
               + (if bucket.hour.Some? && InSpan(view, zone(bucket.hour.value).day, d.key)
                     && (bucket.link == Some(id) || (bucket.link == None && id == ALL_PAGE_VIEWS_ID))
                  then bucket.views else 0)
  {
    hide RateData, ClicksBetween;
    var lastDay := DayOf(zone, end);
    assert (views + [bucket])[..|views|] == views;
    FloorOneMore(zone, views, bucket, lastDay);
    var day := RateData(zone, views, Some(sales), selected, range, end, view)[k].key;
    var lo := Min(FloorDay(zone, views + [bucket], lastDay), if bucket.hour.Some? then DayOf(zone, bucket.hour.value)
                  else day);
    DenominatorIs(zone, views, sales, selected, range, end, view, k, id, lo);
    DenominatorIs(zone, views + [bucket], sales, selected, range, end, view, k', id, lo);
    ClicksOneMore(zone, views, bucket, if view == Cumulative then lo else day, day, id);
  }

  lemma FloorOneMore(zone: Zone, views: seq<ViewBucket>, bucket: ViewBucket, lastDay: int)
    ensures FloorDay(zone, views + [bucket], lastDay) <= FloorDay(zone, views, lastDay)
  {
    assert (views + [bucket])[..|views|] == views;
  }

  lemma ClicksOneMore(zone: Zone, views: seq<ViewBucket>, bucket: ViewBucket, lo: int, hi: int, id: string)
    ensures ClicksBetween(zone, views + [bucket], lo, hi, id)
         == ClicksBetween(zone, views, lo, hi, id)
            + if bucket.hour.Some? && lo <= zone(bucket.hour.value).day <= hi
                 && (bucket.link == Some(id) || (bucket.link == None && id == ALL_PAGE_VIEWS_ID))
              then bucket.views else 0
  {
    assert (views + [bucket])[..|views|] == views;
  }

  /** With no views every denominator is zero, and with no sales every numerator. */
  lemma NothingCountsNothing(zone: Zone, views: seq<ViewBucket>, sales: seq<SalesBucket>, selected: seq<string>,
                             range: TrendsRange, end: int, view: RateView, k: nat, id: string)
    requires id in selected && k < |RateData(zone, views, Some(sales), selected, range, end, view)|
    ensures var d := RateData(zone, views, Some(sales), selected, range, end, view)[k];
            && id in d.details
            && (views == [] ==> d.details[id].denominator == 0)
            && (sales == [] ==> d.details[id].sales == 0)
  {
    RateDataAt(zone, views, sales, selected, range, end, view, k);
  }

  /** What is drawn is the division of the two counts beside it, and nothing where there is nothing to divide by. */
  lemma RatesDivide(zone: Zone, views: seq<ViewBucket>, sales: seq<SalesBucket>, selected: seq<string>,
                    range: TrendsRange, end: int, view: RateView, k: nat, id: string)
    requires id in selected && k < |RateData(zone, views, Some(sales), selected, range, end, view)|
    ensures var d := RateData(zone, views, Some(sales), selected, range, end, view)[k];
            && id in d.details && id in d.values
            && (d.values[id] == None <==> d.details[id].denominator == 0)
            && (d.values[id].Some? ==>
                  d.values[id].value * (d.details[id].denominator as real) == d.details[id].sales as real)
  {
    hide RateData, Figures;
    RateDataAt(zone, views, sales, selected, range, end, view, k);
  }

  /**
   * The days shown: on "24h" and "7d" the week, on "30d" the month, on "all" from the first counted
   * day; none left out.
   */
  lemma DaysShown(zone: Zone, views: seq<ViewBucket>, sales: seq<SalesBucket>, selected: seq<string>,
                  range: TrendsRange, end: int, view: RateView)
    ensures var d := RateData(zone, views, Some(sales), selected, range, end, view);
            var first := match range
              case Last24h => zone(end - 167).day
              case Last7d => zone(end - 167).day
              case Last30d => zone(end - 719).day
              case All => FloorDay(zone, views, zone(end).day);
            && |d| == (if first <= zone(end).day then zone(end).day - first + 1 else 0)
            && forall k :: 0 <= k < |d| ==>
                 && d[k].key == first + k
                 && (forall id :: id in d[k].details <==> id in selected)
                 && (forall id :: id in d[k].values <==> id in selected)
    ensures RateData(zone, views, None, selected, range, end, view) == []
  {
    hide DataOf, Figures, Quotient;
    var floor := FloorDay(zone, views, DayOf(zone, end));
    var axis := RateAxis(zone, floor, range, end);
    DataAt(zone, views, sales, floor, view, SetOf(selected), axis, |axis|, 0);
    forall k: nat | k < |axis|
      ensures var datum := RateData(zone, views, Some(sales), selected, range, end, view)[k];
              datum.key == axis[k] && datum.details.Keys == SetOf(selected) && datum.values.Keys == SetOf(selected)
    {
      RateDataAt(zone, views, sales, selected, range, end, view, k);
    }
  }
}
