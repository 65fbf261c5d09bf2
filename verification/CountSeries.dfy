/**
 * The page-view series (apps/staff/lib/affiliate-trends.ts): sparse stored
 * hours re-bucketed into contiguous hourly or daily slots.
 */
module CountSeries {
  import opened Numbers
  import opened Wrappers
  import opened CivilTime
  import opened RateSeries

  datatype Granularity = ByHour | ByDay

  datatype Datum = Datum(key: int, values: map<string, nat>)

  /** The slot a UTC hour is drawn in. */
  function KeyOf(zone: Zone, granularity: Granularity, hour: int): int {
    if granularity == ByHour then hour else DayOf(zone, hour)
  }

  // ---------------------------------------------------------------- page views

  function Earliest(views: seq<ViewBucket>): Option<int> {
    if views == [] then None
    else
      var init, bucket := Earliest(views[..|views| - 1]), views[|views| - 1];
      if bucket.hour.Some? && (init.None? || bucket.hour.value < init.value) then bucket.hour else init
  }

  function WindowStart(views: seq<ViewBucket>, range: TrendsRange, end: int): Option<int> {
    if range != All then Some(end - (RangeHours(range) - 1))
    else
      match Earliest(views)
      case None => None
      case Some(first) => Some(Min(first, end))
  }

  /** A readable view of the series, not before the window. */
  predicate Drawn(bucket: ViewBucket, start: int, id: string) {
    bucket.hour.Some? && bucket.hour.value >= start && SeriesOf(bucket) == id
  }

  /** What one slot of one series must show. */
  function SlotViews(zone: Zone, granularity: Granularity, views: seq<ViewBucket>, start: int, key: int,
                     id: string): nat {
    if views == [] then 0
    else
      var init, bucket := views[..|views| - 1], views[|views| - 1];
      SlotViews(zone, granularity, init, start, key, id)
      + if Drawn(bucket, start, id) && KeyOf(zone, granularity, bucket.hour.value) == key then bucket.views else 0
  }

  ghost predicate IsViewsData(data: seq<Datum>, zone: Zone, granularity: Granularity, views: seq<ViewBucket>,
                              selected: set<string>, start: int, end: int)
  {
    var axis := Span(KeyOf(zone, granularity, start), KeyOf(zone, granularity, end));
    && |data| == |axis|
    && forall k :: 0 <= k < |data| ==>
         && data[k].key == axis[k]
         && data[k].values.Keys == selected
         && forall id | id in selected :: data[k].values[id] == SlotViews(zone, granularity, views, start, axis[k], id)
  }

  method ComputeWindowStart(views: seq<ViewBucket>, range: TrendsRange, end: int) returns (start: Option<int>)
    ensures start == WindowStart(views, range, end)
  {
    if range != All {
      return Some(end - (RangeHours(range) - 1));
    }
    var earliest: Option<int> := None;
    for n := 0 to |views|
      invariant earliest == Earliest(views[..n])
    {
      assert views[..n + 1][..n] == views[..n];
      var at := views[n].hour;
      if at.Some? && (earliest.None? || at.value < earliest.value) {
        earliest := at;
      }
    }
    assert views[..|views|] == views;
    if earliest.None? { return None; }
    start := if earliest.value > end then Some(end) else Some(earliest.value);
  }

  /** The slots built by walking the window's hours, each key once, each from zero. */
  method ZeroSlots(zone: Zone, granularity: Granularity, selected: set<string>, start: int, end: int)
    returns (data: seq<Datum>, slots: map<int, nat>)
    requires ValidZone(zone) && start <= end
    ensures IsViewsData(data, zone, granularity, [], selected, start, end)
    ensures forall key :: key in slots <==> KeyOf(zone, granularity, start) <= key <= KeyOf(zone, granularity, end)
    ensures forall key | key in slots :: slots[key] == key - KeyOf(zone, granularity, start)
  {
    data, slots := [], map[];
    ghost var first := KeyOf(zone, granularity, start);
    ghost var last := first - 1;
    var at := start;
    while at <= end
      invariant start <= at <= end + 1
      invariant last == if at == start then first - 1 else KeyOf(zone, granularity, at - 1)
      invariant |data| == last - first + 1
      invariant forall k :: 0 <= k < |data| ==> data[k].key == first + k
      invariant forall k :: 0 <= k < |data| ==> data[k].values == map id | id in selected :: 0
      invariant forall key :: key in slots <==> first <= key <= last
      invariant forall key | key in slots :: slots[key] == key - first
    {
      var key := KeyOf(zone, granularity, at);
      assert last <= key <= last + 1;
      if key !in slots {
        slots := slots[key := |data|];
        data := data + [Datum(key, map id | id in selected :: 0)];
      }
      last := key;
      at := at + 1;
    }
  }

  lemma SlotViewsStep(zone: Zone, granularity: Granularity, views: seq<ViewBucket>, n: nat, start: int, key: int,
                      id: string)
    requires n < |views|
    ensures SlotViews(zone, granularity, views[..n + 1], start, key, id)
         == SlotViews(zone, granularity, views[..n], start, key, id)
            + if Drawn(views[n], start, id) && KeyOf(zone, granularity, views[n].hour.value) == key
              then views[n].views else 0
  {
    assert views[..n + 1][..n] == views[..n];
  }

  /** One bucket added to the slot it belongs to, if there is one. */
  lemma AddedBucket(data: seq<Datum>, data': seq<Datum>, zone: Zone, granularity: Granularity, views: seq<ViewBucket>,
                    n: nat, selected: set<string>, start: int, end: int)
    requires n < |views| && IsViewsData(data, zone, granularity, views[..n], selected, start, end)
    requires |data'| == |data|
    requires forall k :: 0 <= k < |data| ==> data'[k].key == data[k].key && data'[k].values.Keys == selected
    requires forall k, id :: 0 <= k < |data| && id in selected ==>
      data'[k].values[id] == data[k].values[id]
        + if Drawn(views[n], start, id) && KeyOf(zone, granularity, views[n].hour.value) == data[k].key
          then views[n].views else 0
    ensures IsViewsData(data', zone, granularity, views[..n + 1], selected, start, end)
  {
    hide Drawn, KeyOf, SlotViews;
    forall k, id | 0 <= k < |data| && id in selected
      ensures data'[k].values[id] == SlotViews(zone, granularity, views[..n + 1], start, data'[k].key, id)
    {
      SlotViewsStep(zone, granularity, views, n, start, data[k].key, id);
    }
  }

  /** `viewsSeries`: contiguous slots, each holding exactly its stored views. */
  method ComputeViewsSeries(zone: Zone, views: seq<ViewBucket>, selected: seq<string>, range: TrendsRange, nowMs: int,
                            granularity: Granularity)
    returns (data: seq<Datum>)
    requires ValidZone(zone)
    ensures match WindowStart(views, range, HourOf(nowMs))
            case None => data == []
            case Some(start) => IsViewsData(data, zone, granularity, views, SetOf(selected), start, HourOf(nowMs))
  {
    var end := HourOf(nowMs);
    var window := ComputeWindowStart(views, range, end);
    if window.None? { return []; }
    var start := window.value;
    var slots;
    data, slots := ZeroSlots(zone, granularity, SetOf(selected), start, end);
    for n := 0 to |views|
      invariant IsViewsData(data, zone, granularity, views[..n], SetOf(selected), start, end)
    {
      ghost var before := data;
      var bucket := views[n];
      if bucket.hour.Some? && bucket.hour.value >= start && SeriesOf(bucket) in SetOf(selected) {
        var key := KeyOf(zone, granularity, bucket.hour.value);
        if key in slots {
          var datum := data[slots[key]];
          var id := SeriesOf(bucket);
          data := data[slots[key] := datum.(values := datum.values[id := datum.values[id] + bucket.views])];
        }
      }
      AddedBucket(before, data, zone, granularity, views, n, SetOf(selected), start, end);
    }
    assert views[..|views|] == views;
  }

  // ---------------------------------------------------------------- what re-bucketing preserves

  /** The hourly slots of one civil day, from `lo` to `hi`. */
  function HoursOfDay(zone: Zone, views: seq<ViewBucket>, start: int, lo: int, hi: int, day: int, id: string): nat
    decreases hi - lo
  {
    if lo > hi then 0
    else
      HoursOfDay(zone, views, start, lo, hi - 1, day, id)
      + if DayOf(zone, hi) == day then SlotViews(zone, ByHour, views, start, hi, id) else 0
  }

  /** Views after the reader's hour on a civil day. */
  function LateViews(zone: Zone, views: seq<ViewBucket>, start: int, end: int, day: int, id: string): nat {
    if views == [] then 0
    else
      var init, bucket := views[..|views| - 1], views[|views| - 1];
      LateViews(zone, init, start, end, day, id)
      + if Drawn(bucket, start, id) && bucket.hour.value > end && DayOf(zone, bucket.hour.value) == day
        then bucket.views else 0
  }

  lemma {:induction false} HoursOfNoBuckets(zone: Zone, start: int, lo: int, hi: int, day: int, id: string)
    ensures HoursOfDay(zone, [], start, lo, hi, day, id) == 0
    decreases hi - lo
  {
    if lo <= hi { HoursOfNoBuckets(zone, start, lo, hi - 1, day, id); }
  }

  lemma {:induction false} HoursOfOneMore(zone: Zone, views: seq<ViewBucket>, start: int, lo: int, hi: int, day: int,
                                          id: string)
    requires views != []
    ensures HoursOfDay(zone, views, start, lo, hi, day, id)
         == HoursOfDay(zone, views[..|views| - 1], start, lo, hi, day, id)
            + var bucket := views[|views| - 1];
              if Drawn(bucket, start, id) && lo <= bucket.hour.value <= hi && DayOf(zone, bucket.hour.value) == day
              then bucket.views else 0
    decreases hi - lo
  {
    if lo <= hi { HoursOfOneMore(zone, views, start, lo, hi - 1, day, id); }
  }

  /**
   * A daily slot is the sum of that civil day's hourly slots, plus whatever was
   * stored for the day after the reader's hour: the hourly axis ends there, the
   * daily one at the end of the day.
   */
  lemma {:induction false} SlotIsSumOfHours(zone: Zone, views: seq<ViewBucket>, start: int, end: int, day: int,
                                            id: string)
    ensures SlotViews(zone, ByDay, views, start, day, id)
         == HoursOfDay(zone, views, start, start, end, day, id) + LateViews(zone, views, start, end, day, id)
  {
    if views == [] {
      HoursOfNoBuckets(zone, start, start, end, day, id);
    } else {
      SlotIsSumOfHours(zone, views[..|views| - 1], start, end, day, id);
      HoursOfOneMore(zone, views, start, start, end, day, id);
    }
  }

  /** None of a series' views on a day was stored for an hour after the reader's, exactly when there is nothing late. */
  lemma {:induction false} NothingLate(zone: Zone, views: seq<ViewBucket>, start: int, end: int, day: int, id: string)
    ensures LateViews(zone, views, start, end, day, id) == 0
       <==> forall n | 0 <= n < |views| && Drawn(views[n], start, id) && DayOf(zone, views[n].hour.value) == day ::
              views[n].views > 0 ==> views[n].hour.value <= end
  {
    if views != [] {
      var init := views[..|views| - 1];
      NothingLate(zone, init, start, end, day, id);
      forall n | 0 <= n < |init| ensures init[n] == views[n] {}
    }
  }

  /** The values of one series in the slots of an hourly axis that fall on a civil day. */
  function SumOnDay(hourly: seq<Datum>, zone: Zone, day: int, id: string): nat
    requires forall k :: 0 <= k < |hourly| ==> id in hourly[k].values
  {
    if hourly == [] then 0
    else
      var last := hourly[|hourly| - 1];
      SumOnDay(hourly[..|hourly| - 1], zone, day, id) + if DayOf(zone, last.key) == day then last.values[id] else 0
  }

  lemma {:induction false} SumOnDayIsHours(hourly: seq<Datum>, n: nat, zone: Zone, views: seq<ViewBucket>,
                                           selected: set<string>, start: int, end: int, day: int, id: string)
    requires IsViewsData(hourly, zone, ByHour, views, selected, start, end) && id in selected && n <= |hourly|
    ensures forall k :: 0 <= k < n ==> id in hourly[k].values
    ensures SumOnDay(hourly[..n], zone, day, id) == HoursOfDay(zone, views, start, start, start + n - 1, day, id)
  {
    hide SlotViews;
    if n > 0 {
      SumOnDayIsHours(hourly, n - 1, zone, views, selected, start, end, day, id);
      assert hourly[..n][..n - 1] == hourly[..n - 1];
      assert hourly[n - 1].key == start + n - 1;
    }
  }

  /**
   * Drawn by day, a series shows on each day the sum of what it shows by hour
   * in the hours of that day, plus its views of the day that were stored after
   * the reader's hour; whatever else is selected on either chart.
   */
  lemma DailyIsSumOfHours(daily: seq<Datum>, hourly: seq<Datum>, zone: Zone, views: seq<ViewBucket>,
                          forDays: set<string>, forHours: set<string>, start: int, end: int, k: nat, id: string)
    requires ValidZone(zone) && start <= end && k < |daily| && id in forDays && id in forHours
    requires IsViewsData(daily, zone, ByDay, views, forDays, start, end)
    requires IsViewsData(hourly, zone, ByHour, views, forHours, start, end)
    ensures id in daily[k].values && forall m :: 0 <= m < |hourly| ==> id in hourly[m].values
    ensures daily[k].values[id]
         == SumOnDay(hourly, zone, daily[k].key, id) + LateViews(zone, views, start, end, daily[k].key, id)
  {
    hide SlotViews, HoursOfDay, LateViews, SumOnDay, ValidZone;
    SlotIsSumOfHours(zone, views, start, end, daily[k].key, id);
    SumOnDayIsHours(hourly, |hourly|, zone, views, forHours, start, end, daily[k].key, id);
    assert hourly[..|hourly|] == hourly;
  }

  /** So a day is the sum of its hours exactly when none of its views came late. */
  lemma DayIsItsHoursIff(daily: seq<Datum>, hourly: seq<Datum>, zone: Zone, views: seq<ViewBucket>,
                         forDays: set<string>, forHours: set<string>, start: int, end: int, k: nat, id: string)
    requires ValidZone(zone) && start <= end && k < |daily| && id in forDays && id in forHours
    requires IsViewsData(daily, zone, ByDay, views, forDays, start, end)
    requires IsViewsData(hourly, zone, ByHour, views, forHours, start, end)
    ensures id in daily[k].values && forall m :: 0 <= m < |hourly| ==> id in hourly[m].values
    ensures daily[k].values[id] == SumOnDay(hourly, zone, daily[k].key, id)
       <==> forall n | 0 <= n < |views| && Drawn(views[n], start, id)
                       && DayOf(zone, views[n].hour.value) == daily[k].key ::
              views[n].views > 0 ==> views[n].hour.value <= end
  {
    hide SlotViews, LateViews, SumOnDay, ValidZone, IsViewsData, Drawn;
    DailyIsSumOfHours(daily, hourly, zone, views, forDays, forHours, start, end, k, id);
    NothingLate(zone, views, start, end, daily[k].key, id);
  }

  function UtcHour(hour: int): CivilHour {
    CivilHour(hour / 24, hour % 24)
  }

  /**
   * A day that is not: in UTC, with the reader at hour 3 and one view stored
   * for hour 5, on "all", whose window is then the reader's hour alone.
   */
  lemma LateViewShowsByDayAlone(daily: seq<Datum>, hourly: seq<Datum>)
    requires IsViewsData(daily, UtcHour, ByDay, [ViewBucket(Some(5), None, 1)], {ALL_PAGE_VIEWS_ID}, 3, 3)
    requires IsViewsData(hourly, UtcHour, ByHour, [ViewBucket(Some(5), None, 1)], {ALL_PAGE_VIEWS_ID}, 3, 3)
    ensures ValidZone(UtcHour) && WindowStart([ViewBucket(Some(5), None, 1)], All, 3) == Some(3)
    ensures |daily| == 1 && ALL_PAGE_VIEWS_ID in daily[0].values && daily[0].values[ALL_PAGE_VIEWS_ID] == 1
    ensures forall k :: 0 <= k < |hourly| ==>
              ALL_PAGE_VIEWS_ID in hourly[k].values && hourly[k].values[ALL_PAGE_VIEWS_ID] == 0
  {
    var views := [ViewBucket(Some(5), None, 1)];
    assert views[..0] == [];
    assert SlotViews(UtcHour, ByDay, views, 3, 0, ALL_PAGE_VIEWS_ID) == 1;
  }

  /** Adding or dropping another series moves no slot and changes no value. */
  lemma SelectionChangesNoValue(d1: seq<Datum>, d2: seq<Datum>, zone: Zone, granularity: Granularity,
                                views: seq<ViewBucket>, sel1: set<string>, sel2: set<string>, start: int, end: int,
                                k: nat, id: string)
    requires IsViewsData(d1, zone, granularity, views, sel1, start, end)
    requires IsViewsData(d2, zone, granularity, views, sel2, start, end)
    ensures |d1| == |d2|
    ensures k < |d1| ==> d1[k].key == d2[k].key
    ensures k < |d1| && id in sel1 && id in sel2 ==>
              id in d1[k].values && id in d2[k].values && d1[k].values[id] == d2[k].values[id]
  {
  }

  /** The drawn values of one series, added up along the axis. */
  function Total(data: seq<Datum>, id: string): nat
    requires forall k :: 0 <= k < |data| ==> id in data[k].values
  {
    if data == [] then 0 else Total(data[..|data| - 1], id) + data[|data| - 1].values[id]
  }

  /** The stored views of one series whose slot is at most `last`. */
  function StoredViews(zone: Zone, granularity: Granularity, views: seq<ViewBucket>, start: int, last: int,
                       id: string): nat {
    if views == [] then 0
    else
      var init, bucket := views[..|views| - 1], views[|views| - 1];
      StoredViews(zone, granularity, init, start, last, id)
      + if Drawn(bucket, start, id) && KeyOf(zone, granularity, bucket.hour.value) <= last then bucket.views else 0
  }

  lemma {:induction false} StoredSplitsOff(zone: Zone, granularity: Granularity, views: seq<ViewBucket>, start: int,
                                           last: int, id: string)
    ensures StoredViews(zone, granularity, views, start, last, id)
         == StoredViews(zone, granularity, views, start, last - 1, id)
           + SlotViews(zone, granularity, views, start, last, id)
  {
    if views != [] { StoredSplitsOff(zone, granularity, views[..|views| - 1], start, last, id); }
  }

  lemma {:induction false} NothingBefore(zone: Zone, granularity: Granularity, views: seq<ViewBucket>, start: int,
                                         last: int, id: string)
    requires ValidZone(zone) && last < KeyOf(zone, granularity, start)
    ensures StoredViews(zone, granularity, views, start, last, id) == 0
  {
    if views != [] {
      NothingBefore(zone, granularity, views[..|views| - 1], start, last, id);
    }
  }

  lemma {:induction false} PrefixTotal(data: seq<Datum>, n: nat, zone: Zone, granularity: Granularity,
                                       views: seq<ViewBucket>, selected: set<string>, start: int, end: int,
                                       id: string)
    requires ValidZone(zone) && id in selected && n <= |data|
    requires IsViewsData(data, zone, granularity, views, selected, start, end)
    ensures forall k :: 0 <= k < n ==> id in data[k].values
    ensures Total(data[..n], id) == StoredViews(zone, granularity, views, start,
                                                KeyOf(zone, granularity, start) + n - 1, id)
  {
    hide Drawn, SlotViews, StoredViews, KeyOf, ValidZone;
    if n == 0 {
      NothingBefore(zone, granularity, views, start, KeyOf(zone, granularity, start) - 1, id);
    } else {
      PrefixTotal(data, n - 1, zone, granularity, views, selected, start, end, id);
      StoredSplitsOff(zone, granularity, views, start, KeyOf(zone, granularity, start) + n - 1, id);
      assert data[..n][..n - 1] == data[..n - 1];
    }
  }

  lemma KeysMonotone(zone: Zone, granularity: Granularity, h: int, k: int)
    requires ValidZone(zone) && h <= k
    ensures KeyOf(zone, granularity, h) <= KeyOf(zone, granularity, k)
  {
  }

  /** Nothing stored inside the window is lost or counted twice: a series' drawn total is its stored views there. */
  lemma TotalIsStored(data: seq<Datum>, zone: Zone, granularity: Granularity, views: seq<ViewBucket>,
                      selected: set<string>, start: int, end: int, id: string)
    requires ValidZone(zone) && start <= end && id in selected
    requires IsViewsData(data, zone, granularity, views, selected, start, end)
    ensures forall k :: 0 <= k < |data| ==> id in data[k].values
    ensures Total(data, id) == StoredViews(zone, granularity, views, start, KeyOf(zone, granularity, end), id)
  {
    hide Drawn, SlotViews, StoredViews, KeyOf, ValidZone, Total;
    PrefixTotal(data, |data|, zone, granularity, views, selected, start, end, id);
    assert data[..|data|] == data;
    KeysMonotone(zone, granularity, start, end);
  }

  // ---------------------------------------------------------------- what a slot counts

  /**
   * One more stored hour is added to the slot it falls in, of its link or, with
   * none, of the whole page, when it is not before the window, the window's own
   * first hour included; it is added nowhere else.
   */
  lemma OneMoreViewDrawn(d: seq<Datum>, d': seq<Datum>, zone: Zone, granularity: Granularity, views: seq<ViewBucket>,
                         bucket: ViewBucket, selected: set<string>, start: int, end: int, k: nat, id: string)
    requires IsViewsData(d, zone, granularity, views, selected, start, end)
    requires IsViewsData(d', zone, granularity, views + [bucket], selected, start, end)
    requires id in selected && k < |d|
    ensures |d'| == |d| && d'[k].key == d[k].key && id in d[k].values && id in d'[k].values
    ensures d'[k].values[id] == d[k].values[id]
      + if bucket.hour.Some? && start <= bucket.hour.value
           && (bucket.link == Some(id) || (bucket.link == None && id == ALL_PAGE_VIEWS_ID))
           && (granularity == ByHour ==> bucket.hour.value == d[k].key)
           && (granularity == ByDay ==> zone(bucket.hour.value).day == d[k].key)
        then bucket.views else 0
  {
    assert (views + [bucket])[..|views|] == views;
  }

  /** With nothing stored every slot shows zero. */
  lemma NothingDrawn(d: seq<Datum>, zone: Zone, granularity: Granularity, selected: set<string>, start: int, end: int,
                     k: nat, id: string)
    requires IsViewsData(d, zone, granularity, [], selected, start, end) && id in selected && k < |d|
    ensures id in d[k].values && d[k].values[id] == 0
  {
  }

  /** The fixed windows: 24, 168 and 720 hourly slots, the reader's hour the last of them. */
  lemma FixedWindows(d: seq<Datum>, zone: Zone, views: seq<ViewBucket>, selected: set<string>, range: TrendsRange,
                     end: int)
    requires range != All
    requires IsViewsData(d, zone, ByHour, views, selected, WindowStart(views, range, end).value, end)
    ensures |d| == match range case Last24h => 24 case Last7d => 168 case Last30d => 720
    ensures d[|d| - 1].key == end
  {
  }

  /** "All" opens at the earliest readable hour there is, or at the reader's when that is earlier; never without one. */
  lemma {:induction false} WindowOfAll(views: seq<ViewBucket>, end: int)
    ensures match WindowStart(views, All, end)
            case None => forall n :: 0 <= n < |views| ==> views[n].hour.None?
            case Some(start) =>
              && start <= end
              && (forall n :: 0 <= n < |views| && views[n].hour.Some? ==> start <= views[n].hour.value)
              && (exists n :: 0 <= n < |views| && views[n].hour.Some? && (views[n].hour.value == start || start == end))
  {
    EarliestIsMin(views);
  }

  lemma {:induction false} EarliestIsMin(views: seq<ViewBucket>)
    ensures match Earliest(views)
            case None => forall n :: 0 <= n < |views| ==> views[n].hour.None?
            case Some(first) =>
              && (forall n :: 0 <= n < |views| && views[n].hour.Some? ==> first <= views[n].hour.value)
              && (exists n :: 0 <= n < |views| && views[n].hour == Some(first))
  {
    if views != [] {
      var init := views[..|views| - 1];
      EarliestIsMin(init);
      assert forall n :: 0 <= n < |init| ==> views[n] == init[n];
    }
  }
}
