/**
 * The Attributed Sales series (apps/staff/lib/affiliate-trends.ts): stored by
 * civil hour, drawn on the same axes as the page views.
 */
module SalesSeries {
  import opened Numbers
  import opened Wrappers
  import opened CivilTime
  import opened RateSeries
  import opened CountSeries

  /** What a slot adds up for a link. */
  datatype Amounts = Amounts(sales: nat, tickets: nat, netProceedsCents: int)

  datatype SalesDatum = SalesDatum(key: int, amounts: map<string, Amounts>)

  const NOTHING: Amounts := Amounts(0, 0, 0)

  function Plus(a: Amounts, b: Amounts): Amounts {
    Amounts(a.sales + b.sales, a.tickets + b.tickets, a.netProceedsCents + b.netProceedsCents)
  }

  function AmountsOf(bucket: SalesBucket): Amounts {
    Amounts(bucket.sales, bucket.tickets, bucket.netProceedsCents)
  }

  // ---------------------------------------------------------------- which slot

  /** The first hour from `lo` to `hi` that shows a civil hour, if any does. */
  function FirstShowing(zone: Zone, lo: int, hi: int, civil: CivilHour): (first: Option<int>)
    ensures first.Some? ==> lo <= first.value <= hi && zone(first.value) == civil
    ensures first.Some? ==> forall h :: lo <= h < first.value ==> zone(h) != civil
    ensures first.None? ==> forall h :: lo <= h <= hi ==> zone(h) != civil
    decreases hi - lo
  {
    if lo > hi then None
    else
      var earlier := FirstShowing(zone, lo, hi - 1, civil);
      if earlier.Some? then earlier else if zone(hi) == civil then Some(hi) else None
  }

  datatype Axis = Axis(granularity: Granularity, start: int, end: int, floor: int)

  function FirstKey(zone: Zone, axis: Axis): int {
    if axis.granularity == ByHour then axis.start else Max(DayOf(zone, axis.start), axis.floor)
  }

  function LastKey(zone: Zone, axis: Axis): int {
    if axis.granularity == ByHour then axis.end else DayOf(zone, axis.end)
  }

  /** The slot a sale is counted in, or none when it is outside the window. */
  function SlotOf(zone: Zone, axis: Axis, bucket: SalesBucket): Option<int> {
    if axis.granularity == ByHour then FirstShowing(zone, axis.start, axis.end, bucket.at)
    else if FirstKey(zone, axis) <= bucket.at.day <= LastKey(zone, axis) then Some(bucket.at.day)
    else None
  }

  function SlotAmounts(zone: Zone, axis: Axis, sales: seq<SalesBucket>, key: int, id: string): Amounts {
    if sales == [] then NOTHING
    else
      var init, bucket := sales[..|sales| - 1], sales[|sales| - 1];
      var sum := SlotAmounts(zone, axis, init, key, id);
      if bucket.link == id && SlotOf(zone, axis, bucket) == Some(key) then Plus(sum, AmountsOf(bucket)) else sum
  }

  /** The earliest day either store knows. */
  function EarliestDay(zone: Zone, views: seq<ViewBucket>, sales: seq<SalesBucket>): Option<int>
    decreases |views| + |sales|
  {
    if sales != [] then
      var init, day := EarliestDay(zone, views, sales[..|sales| - 1]), sales[|sales| - 1].at.day;
      if init.None? || day < init.value then Some(day) else init
    else if views != [] then
      var init, hour := EarliestDay(zone, views[..|views| - 1], []), views[|views| - 1].hour;
      if hour.Some? && (init.None? || DayOf(zone, hour.value) < init.value) then Some(DayOf(zone, hour.value)) else init
    else None
  }

  /** The window; "all" reaches a rotation west of the earliest day either store knows. */
  function SalesAxis(zone: Zone, views: seq<ViewBucket>, sales: seq<SalesBucket>, range: TrendsRange, end: int,
                     granularity: Granularity): Option<Axis>
  {
    if range != All then
      var start := end - (RangeHours(range) - 1);
      Some(Axis(granularity, start, end, DayOf(zone, start)))
    else
      match EarliestDay(zone, views, sales)
      case None => None
      case Some(day) => Some(Axis(granularity, Min(24 * day - 14, end), end, day))
  }

  ghost predicate IsSalesData(data: seq<SalesDatum>, zone: Zone, axis: Axis, sales: seq<SalesBucket>,
                              drawn: set<string>) {
    var keys := Span(FirstKey(zone, axis), LastKey(zone, axis));
    && |data| == |keys|
    && forall k :: 0 <= k < |data| ==>
         && data[k].key == keys[k]
         && data[k].amounts.Keys == drawn
         && forall id | id in drawn :: data[k].amounts[id] == SlotAmounts(zone, axis, sales, keys[k], id)
  }

  // ---------------------------------------------------------------- the loops

  method ComputeEarliestDay(zone: Zone, views: seq<ViewBucket>, sales: seq<SalesBucket>) returns (day: Option<int>)
    ensures day == EarliestDay(zone, views, sales)
  {
    day := None;
    for n := 0 to |views|
      invariant day == EarliestDay(zone, views[..n], [])
    {
      assert views[..n + 1][..n] == views[..n];
      if views[n].hour.Some? {
        var at := DayOf(zone, views[n].hour.value);
        if day.None? || at < day.value { day := Some(at); }
      }
    }
    assert views[..|views|] == views;
    for n := 0 to |sales|
      invariant day == EarliestDay(zone, views, sales[..n])
    {
      assert sales[..n + 1][..n] == sales[..n];
      if day.None? || sales[n].at.day < day.value { day := Some(sales[n].at.day); }
    }
    assert sales[..|sales|] == sales;
  }

  /** What the slot walk leaves: empty slots in key order, and the index of each. */
  ghost predicate Opened(data: seq<SalesDatum>, slots: map<int, nat>, first: int, last: int, drawn: set<string>) {
    && |data| == (if last < first then 0 else last - first + 1)
    && (forall k :: 0 <= k < |data| ==> data[k].key == first + k && data[k].amounts == map id | id in drawn :: NOTHING)
    && (forall key :: key in slots <==> first <= key <= last)
    && (forall key | key in slots :: slots[key] == key - first)
  }

  /** Every civil hour shown from `start` to `hi` is claimed by the first hour showing it, and no other is claimed. */
  ghost predicate Claimed(slotOfCivilHour: map<CivilHour, int>, zone: Zone, start: int, hi: int) {
    forall civil ::
      FirstShowing(zone, start, hi, civil) == if civil in slotOfCivilHour then Some(slotOfCivilHour[civil]) else None
  }

  lemma NothingClaimed(zone: Zone, start: int)
    ensures Claimed(map[], zone, start, start - 1)
  {
  }

  lemma ClaimStep(claimed: map<CivilHour, int>, zone: Zone, start: int, at: int)
    requires start <= at && Claimed(claimed, zone, start, at - 1)
    ensures Claimed(if zone(at) in claimed then claimed else claimed[zone(at) := at], zone, start, at)
  {
    var after := if zone(at) in claimed then claimed else claimed[zone(at) := at];
    forall civil
      ensures FirstShowing(zone, start, at, civil) == if civil in after then Some(after[civil]) else None
    {
      assert FirstShowing(zone, start, at - 1, civil) == if civil in claimed then Some(claimed[civil]) else None;
    }
  }

  /** The hourly walk: one slot an hour, and the first slot of each civil hour claims it. */
  method OpenHours(zone: Zone, start: int, end: int, drawn: set<string>)
    returns (data: seq<SalesDatum>, slots: map<int, nat>, slotOfCivilHour: map<CivilHour, int>)
    requires start <= end
    ensures Opened(data, slots, start, end, drawn)
    ensures Claimed(slotOfCivilHour, zone, start, end)
  {
    hide Claimed;
    data, slots, slotOfCivilHour := [], map[], map[];
    NothingClaimed(zone, start);
    for at := start to end + 1
      invariant Opened(data, slots, start, at - 1, drawn)
      invariant Claimed(slotOfCivilHour, zone, start, at - 1)
    {
      slots := slots[at := |data|];
      data := data + [SalesDatum(at, map id | id in drawn :: NOTHING)];
      ClaimStep(slotOfCivilHour, zone, start, at);
      if zone(at) !in slotOfCivilHour {
        slotOfCivilHour := slotOfCivilHour[zone(at) := at];
      }
    }
  }

  /** The daily walk: one slot a civil day, none before the floor. */
  method OpenDays(zone: Zone, start: int, end: int, floor: int, drawn: set<string>)
    returns (data: seq<SalesDatum>, slots: map<int, nat>)
    requires ValidZone(zone) && start <= end
    ensures Opened(data, slots, Max(DayOf(zone, start), floor), DayOf(zone, end), drawn)
  {
    data, slots := [], map[];
    ghost var first := Max(DayOf(zone, start), floor);
    ghost var last := DayOf(zone, start) - 1;
    for at := start to end + 1
      invariant last == if at == start then DayOf(zone, start) - 1 else DayOf(zone, at - 1)
      invariant Opened(data, slots, first, last, drawn)
    {
      var day := DayOf(zone, at);
      assert last <= day <= last + 1;
      if day >= floor && day !in slots {
        slots := slots[day := |data|];
        data := data + [SalesDatum(day, map id | id in drawn :: NOTHING)];
      }
      last := day;
    }
  }

  lemma SlotAmountsStep(zone: Zone, axis: Axis, sales: seq<SalesBucket>, n: nat, key: int, id: string)
    requires n < |sales|
    ensures SlotAmounts(zone, axis, sales[..n + 1], key, id)
         == (var sum := SlotAmounts(zone, axis, sales[..n], key, id);
             if sales[n].link == id && SlotOf(zone, axis, sales[n]) == Some(key)
             then Plus(sum, AmountsOf(sales[n])) else sum)
  {
    assert sales[..n + 1][..n] == sales[..n];
  }

  lemma AddedSale(data: seq<SalesDatum>, data': seq<SalesDatum>, zone: Zone, axis: Axis, sales: seq<SalesBucket>,
                  n: nat, drawn: set<string>)
    requires n < |sales| && IsSalesData(data, zone, axis, sales[..n], drawn)
    requires |data'| == |data|
    requires forall k :: 0 <= k < |data| ==> data'[k].key == data[k].key && data'[k].amounts.Keys == drawn
    requires forall k, id :: 0 <= k < |data| && id in drawn ==>
      data'[k].amounts[id] == if sales[n].link == id && SlotOf(zone, axis, sales[n]) == Some(data[k].key)
                              then Plus(data[k].amounts[id], AmountsOf(sales[n])) else data[k].amounts[id]
    ensures IsSalesData(data', zone, axis, sales[..n + 1], drawn)
  {
    hide SlotOf, SlotAmounts, FirstKey, LastKey;
    forall k, id | 0 <= k < |data| && id in drawn
      ensures data'[k].amounts[id] == SlotAmounts(zone, axis, sales[..n + 1], data'[k].key, id)
    {
      SlotAmountsStep(zone, axis, sales, n, data[k].key, id);
    }
  }

  /** One stored bucket, added to its slot when it has one. */
  method AddSale(data: seq<SalesDatum>, slots: map<int, nat>, key: Option<int>, zone: Zone, ghost axis: Axis,
                 ghost sales: seq<SalesBucket>, ghost n: nat, bucket: SalesBucket, drawn: set<string>)
    returns (added: seq<SalesDatum>)
    requires n < |sales| && bucket == sales[n] && IsSalesData(data, zone, axis, sales[..n], drawn)
    requires forall k :: k in slots <==> FirstKey(zone, axis) <= k <= LastKey(zone, axis)
    requires forall k | k in slots :: slots[k] == k - FirstKey(zone, axis)
    requires SlotOf(zone, axis, bucket) == if key.Some? && key.value in slots then key else None
    ensures IsSalesData(added, zone, axis, sales[..n + 1], drawn)
  {
    hide SlotOf, SlotAmounts, FirstKey, LastKey;
    added := data;
    if bucket.link in drawn && key.Some? && key.value in slots {
      assert FirstKey(zone, axis) <= key.value <= LastKey(zone, axis);
      var datum := data[slots[key.value]];
      var sum := Plus(datum.amounts[bucket.link], AmountsOf(bucket));
      added := data[slots[key.value] := datum.(amounts := datum.amounts[bucket.link := sum])];
    }
    AddedSale(data, added, zone, axis, sales, n, drawn);
  }

  lemma OpenedIsEmpty(data: seq<SalesDatum>, slots: map<int, nat>, zone: Zone, axis: Axis, drawn: set<string>)
    requires Opened(data, slots, FirstKey(zone, axis), LastKey(zone, axis), drawn)
    ensures IsSalesData(data, zone, axis, [], drawn)
  {
  }

  /** The window of the axis. */
  method OpenAxis(zone: Zone, views: seq<ViewBucket>, sales: seq<SalesBucket>, range: TrendsRange, end: int,
                  granularity: Granularity)
    returns (axis: Option<Axis>)
    ensures axis == SalesAxis(zone, views, sales, range, end, granularity)
    ensures axis.Some? ==> axis.value.start <= axis.value.end && axis.value.granularity == granularity
  {
    if range != All {
      var start := end - (RangeHours(range) - 1);
      return Some(Axis(granularity, start, end, DayOf(zone, start)));
    }
    var earliest := ComputeEarliestDay(zone, views, sales);
    if earliest.None? { return None; }
    axis := Some(Axis(granularity, Min(24 * earliest.value - 14, end), end, earliest.value));
  }

  /** `salesSeries`: contiguous slots, each holding the sales whose first slot it is. */
  method ComputeSalesSeries(zone: Zone, views: seq<ViewBucket>, salesBuckets: Option<seq<SalesBucket>>,
                            selected: seq<string>, range: TrendsRange, nowMs: int, granularity: Granularity)
    returns (data: seq<SalesDatum>)
    requires ValidZone(zone)
    ensures match salesBuckets
            case None => data == []
            case Some(sales) =>
              match SalesAxis(zone, views, sales, range, HourOf(nowMs), granularity)
              case None => data == []
              case Some(axis) => IsSalesData(data, zone, axis, sales, SetOf(selected) - {ALL_PAGE_VIEWS_ID})
  {
    hide IsSalesData;
    if salesBuckets.None? { return []; }
    var sales := salesBuckets.value;
    var window := OpenAxis(zone, views, sales, range, HourOf(nowMs), granularity);
    if window.None? { return []; }
    var axis := window.value;
    var drawn := SetOf(selected) - {ALL_PAGE_VIEWS_ID};
    if granularity == ByHour {
      var slots, slotOfCivilHour;
      data, slots, slotOfCivilHour := OpenHours(zone, axis.start, axis.end, drawn);
      OpenedIsEmpty(data, slots, zone, axis, drawn);
      for n := 0 to |sales|
        invariant IsSalesData(data, zone, axis, sales[..n], drawn)
      {
        var civil := sales[n].at;
        var key := if civil in slotOfCivilHour then Some(slotOfCivilHour[civil]) else None;
        data := AddSale(data, slots, key, zone, axis, sales, n, sales[n], drawn);
      }
    } else {
      var slots;
      data, slots := OpenDays(zone, axis.start, axis.end, axis.floor, drawn);
      OpenedIsEmpty(data, slots, zone, axis, drawn);
      for n := 0 to |sales|
        invariant IsSalesData(data, zone, axis, sales[..n], drawn)
      {
        data := AddSale(data, slots, Some(sales[n].at.day), zone, axis, sales, n, sales[n], drawn);
      }
    }
    assert sales[..|sales|] == sales;
  }

  // ---------------------------------------------------------------- conservation

  /** The sales of a link that have a slot at most `last`. */
  function DrawnAmounts(zone: Zone, axis: Axis, sales: seq<SalesBucket>, last: int, id: string): Amounts {
    if sales == [] then NOTHING
    else
      var init, bucket := sales[..|sales| - 1], sales[|sales| - 1];
      var sum := DrawnAmounts(zone, axis, init, last, id);
      if bucket.link == id && SlotOf(zone, axis, bucket).Some? && SlotOf(zone, axis, bucket).value <= last
      then Plus(sum, AmountsOf(bucket)) else sum
  }

  /** The sales of a link that fall in the window at all. */
  function WindowAmounts(zone: Zone, axis: Axis, sales: seq<SalesBucket>, id: string): Amounts {
    if sales == [] then NOTHING
    else
      var init, bucket := sales[..|sales| - 1], sales[|sales| - 1];
      var sum := WindowAmounts(zone, axis, init, id);
      if bucket.link == id && SlotOf(zone, axis, bucket).Some? then Plus(sum, AmountsOf(bucket)) else sum
  }

  function Total(data: seq<SalesDatum>, id: string): Amounts
    requires forall k :: 0 <= k < |data| ==> id in data[k].amounts
  {
    if data == [] then NOTHING else Plus(Total(data[..|data| - 1], id), data[|data| - 1].amounts[id])
  }

  lemma SlotsInRange(zone: Zone, axis: Axis, bucket: SalesBucket)
    ensures SlotOf(zone, axis, bucket).Some? ==>
      FirstKey(zone, axis) <= SlotOf(zone, axis, bucket).value <= LastKey(zone, axis)
  {
  }

  lemma {:induction false} DrawnSplitsOff(zone: Zone, axis: Axis, sales: seq<SalesBucket>, last: int, id: string)
    ensures DrawnAmounts(zone, axis, sales, last, id)
         == Plus(DrawnAmounts(zone, axis, sales, last - 1, id), SlotAmounts(zone, axis, sales, last, id))
  {
    hide SlotOf, Plus, AmountsOf;
    PlusNothing(NOTHING);
    if sales != [] {
      var init, bucket := sales[..|sales| - 1], sales[|sales| - 1];
      DrawnSplitsOff(zone, axis, init, last, id);
      PlusSwaps(DrawnAmounts(zone, axis, init, last - 1, id), SlotAmounts(zone, axis, init, last, id),
                AmountsOf(bucket));
    }
  }

  lemma PlusNothing(a: Amounts)
    ensures Plus(a, NOTHING) == a
  {
  }

  lemma PlusSwaps(a: Amounts, b: Amounts, c: Amounts)
    ensures Plus(Plus(a, b), c) == Plus(Plus(a, c), b) == Plus(a, Plus(b, c))
  {
  }

  lemma {:induction false} DrawnAtEnds(zone: Zone, axis: Axis, sales: seq<SalesBucket>, id: string)
    ensures DrawnAmounts(zone, axis, sales, FirstKey(zone, axis) - 1, id) == NOTHING
    ensures DrawnAmounts(zone, axis, sales, LastKey(zone, axis), id) == WindowAmounts(zone, axis, sales, id)
  {
    hide SlotOf, FirstKey, LastKey;
    if sales != [] {
      DrawnAtEnds(zone, axis, sales[..|sales| - 1], id);
      SlotsInRange(zone, axis, sales[|sales| - 1]);
    }
  }

  lemma {:induction false} PrefixTotal(data: seq<SalesDatum>, n: nat, zone: Zone, axis: Axis, sales: seq<SalesBucket>,
                                       drawn: set<string>, id: string)
    requires id in drawn && n <= |data| && IsSalesData(data, zone, axis, sales, drawn)
    ensures forall k :: 0 <= k < n ==> id in data[k].amounts
    ensures Total(data[..n], id) == DrawnAmounts(zone, axis, sales, FirstKey(zone, axis) + n - 1, id)
  {
    hide SlotOf, FirstKey, LastKey, SlotAmounts, DrawnAmounts;
    if n == 0 {
      DrawnAtEnds(zone, axis, sales, id);
    } else {
      PrefixTotal(data, n - 1, zone, axis, sales, drawn, id);
      DrawnSplitsOff(zone, axis, sales, FirstKey(zone, axis) + n - 1, id);
      assert data[..n][..n - 1] == data[..n - 1];
    }
  }

  /** Every sale in the window is drawn, and drawn once, whatever hours the clock repeats. */
  lemma EverySaleDrawnOnce(data: seq<SalesDatum>, zone: Zone, axis: Axis, sales: seq<SalesBucket>, drawn: set<string>,
                           id: string)
    requires id in drawn && IsSalesData(data, zone, axis, sales, drawn)
    ensures forall k :: 0 <= k < |data| ==> id in data[k].amounts
    ensures Total(data, id) == WindowAmounts(zone, axis, sales, id)
  {
    hide SlotOf, SlotAmounts, DrawnAmounts, FirstShowing;
    PrefixTotal(data, |data|, zone, axis, sales, drawn, id);
    assert data[..|data|] == data;
    DrawnAtEnds(zone, axis, sales, id);
    if data == [] {
      EmptyAxis(zone, axis, sales, id);
    }
  }

  lemma {:induction false} EarliestIsFirst(zone: Zone, views: seq<ViewBucket>, sales: seq<SalesBucket>, k: nat)
    requires k < |sales|
    ensures EarliestDay(zone, views, sales).Some? && EarliestDay(zone, views, sales).value <= sales[k].at.day
  {
    if k < |sales| - 1 { EarliestIsFirst(zone, views, sales[..|sales| - 1], k); }
  }

  /**
   * The "all" window reaches back to every sale: one whose civil hour has come by the reader's hour
   * has a slot, on either axis.
   */
  lemma AllReachesEverySale(zone: Zone, views: seq<ViewBucket>, sales: seq<SalesBucket>, end: int,
                            granularity: Granularity, k: nat, hour: int)
    requires ValidZone(zone) && k < |sales| && hour <= end && zone(hour) == sales[k].at
    ensures var axis := SalesAxis(zone, views, sales, All, end, granularity);
            axis.Some? && SlotOf(zone, axis.value, sales[k]).Some?
  {
    EarliestIsFirst(zone, views, sales, k);
    var day := EarliestDay(zone, views, sales).value;
    var start := Min(24 * day - 14, end);
    PadReachesDay(zone, day);
    assert DayOf(zone, start) <= DayOf(zone, 24 * day - 14) <= day <= sales[k].at.day == DayOf(zone, hour);
    assert 24 * DayOf(zone, hour) - 14 <= hour;
    assert DayOf(zone, hour) <= DayOf(zone, end);
  }

  lemma {:induction false} EmptyAxis(zone: Zone, axis: Axis, sales: seq<SalesBucket>, id: string)
    requires FirstKey(zone, axis) > LastKey(zone, axis)
    ensures WindowAmounts(zone, axis, sales, id) == NOTHING
  {
    if sales != [] {
      EmptyAxis(zone, axis, sales[..|sales| - 1], id);
      SlotsInRange(zone, axis, sales[|sales| - 1]);
    }
  }

  // ---------------------------------------------------------------- what a slot counts

  /**
   * A sale is counted at this key: by hour, the earliest hour of the window showing its civil hour;
   * by day, its day.
   */
  ghost predicate CountedAt(zone: Zone, axis: Axis, at: CivilHour, key: int) {
    if axis.granularity == ByHour then
      axis.start <= key <= axis.end && zone(key) == at && forall h :: axis.start <= h < key ==> zone(h) != at
    else key == at.day
  }

  /**
   * One more bucket is added, sales to sales, tickets to tickets and proceeds to
   * proceeds, to its link's slot where it is counted, and nowhere else.
   */
  lemma OneMoreSaleDrawn(d: seq<SalesDatum>, d': seq<SalesDatum>, zone: Zone, axis: Axis, sales: seq<SalesBucket>,
                         bucket: SalesBucket, drawn: set<string>, k: nat, id: string)
    requires IsSalesData(d, zone, axis, sales, drawn) && IsSalesData(d', zone, axis, sales + [bucket], drawn)
    requires id in drawn && k < |d|
    ensures |d'| == |d| && d'[k].key == d[k].key && id in d[k].amounts && id in d'[k].amounts
    ensures var counts := bucket.link == id && CountedAt(zone, axis, bucket.at, d[k].key);
            var (was, now) := (d[k].amounts[id], d'[k].amounts[id]);
            && now.sales == was.sales + (if counts then bucket.sales else 0)
            && now.tickets == was.tickets + (if counts then bucket.tickets else 0)
            && now.netProceedsCents == was.netProceedsCents + (if counts then bucket.netProceedsCents else 0)
  {
    assert (sales + [bucket])[..|sales|] == sales;
    SlotIsCounted(zone, axis, bucket, d[k].key);
  }

  lemma SlotIsCounted(zone: Zone, axis: Axis, bucket: SalesBucket, key: int)
    requires FirstKey(zone, axis) <= key <= LastKey(zone, axis)
    ensures SlotOf(zone, axis, bucket) == Some(key) <==> CountedAt(zone, axis, bucket.at, key)
  {
  }

  /** With nothing sold every slot shows nothing. */
  lemma NothingSold(d: seq<SalesDatum>, zone: Zone, axis: Axis, drawn: set<string>, k: nat, id: string)
    requires IsSalesData(d, zone, axis, [], drawn) && id in drawn && k < |d|
    ensures id in d[k].amounts && d[k].amounts[id] == Amounts(0, 0, 0)
  {
  }

  /** By day, "all" opens on a day either store knows, and neither knows an earlier one. */
  lemma AllOpensOnFirstDay(zone: Zone, views: seq<ViewBucket>, sales: seq<SalesBucket>, end: int)
    requires ValidZone(zone)
    ensures match SalesAxis(zone, views, sales, All, end, ByDay)
            case None => sales == [] && forall n :: 0 <= n < |views| ==> views[n].hour.None?
            case Some(axis) =>
              var first := axis.floor;
              && (first <= DayOf(zone, end) ==>
                    FirstKey(zone, axis) == first && LastKey(zone, axis) == DayOf(zone, end))
              && Known(zone, views, sales, first)
              && forall day :: Known(zone, views, sales, day) ==> first <= day
  {
    KnownDays(zone, views, sales);
    var axis := SalesAxis(zone, views, sales, All, end, ByDay);
    if axis.Some? {
      PadReachesDay(zone, axis.value.floor);
    }
  }

  /** A page view or a sale of this day is stored. */
  ghost predicate Known(zone: Zone, views: seq<ViewBucket>, sales: seq<SalesBucket>, day: int) {
    || (exists n :: 0 <= n < |sales| && sales[n].at.day == day)
    || (exists n :: 0 <= n < |views| && views[n].hour.Some? && DayOf(zone, views[n].hour.value) == day)
  }

  lemma {:induction false} KnownDays(zone: Zone, views: seq<ViewBucket>, sales: seq<SalesBucket>)
    ensures match EarliestDay(zone, views, sales)
            case None => sales == [] && forall n :: 0 <= n < |views| ==> views[n].hour.None?
            case Some(first) =>
              Known(zone, views, sales, first) && forall day :: Known(zone, views, sales, day) ==> first <= day
    decreases |views| + |sales|
  {
    if sales != [] {
      var init := sales[..|sales| - 1];
      KnownDays(zone, views, init);
      forall day ensures Known(zone, views, sales, day)
        <==> Known(zone, views, init, day) || day == sales[|init|].at.day {
        KnownOneMoreSale(zone, views, sales, day);
      }
    } else if views != [] {
      var init := views[..|views| - 1];
      KnownDays(zone, init, []);
      forall day ensures Known(zone, views, [], day)
                    <==> Known(zone, init, [], day)
                         || (views[|init|].hour.Some? && day == DayOf(zone, views[|init|].hour.value)) {
        KnownOneMoreView(zone, views, day);
      }
      assert forall n :: 0 <= n < |init| ==> views[n] == init[n];
    }
  }

  lemma KnownOneMoreSale(zone: Zone, views: seq<ViewBucket>, sales: seq<SalesBucket>, day: int)
    requires sales != []
    ensures Known(zone, views, sales, day)
       <==> Known(zone, views, sales[..|sales| - 1], day) || day == sales[|sales| - 1].at.day
  {
    var init := sales[..|sales| - 1];
    assert forall n :: 0 <= n < |init| ==> sales[n] == init[n];
    if exists n :: 0 <= n < |init| && init[n].at.day == day {
      var n :| 0 <= n < |init| && init[n].at.day == day;
      assert sales[n].at.day == day;
    }
    if exists n :: 0 <= n < |sales| && sales[n].at.day == day {
      var n :| 0 <= n < |sales| && sales[n].at.day == day;
      if n < |init| { assert init[n].at.day == day; }
    }
  }

  lemma KnownOneMoreView(zone: Zone, views: seq<ViewBucket>, day: int)
    requires views != []
    ensures Known(zone, views, [], day)
       <==> Known(zone, views[..|views| - 1], [], day)
            || (views[|views| - 1].hour.Some? && day == DayOf(zone, views[|views| - 1].hour.value))
  {
    var init := views[..|views| - 1];
    assert forall n :: 0 <= n < |init| ==> views[n] == init[n];
    if exists n :: 0 <= n < |init| && init[n].hour.Some? && DayOf(zone, init[n].hour.value) == day {
      var n :| 0 <= n < |init| && init[n].hour.Some? && DayOf(zone, init[n].hour.value) == day;
      assert views[n] == init[n];
    }
    if exists n :: 0 <= n < |views| && views[n].hour.Some? && DayOf(zone, views[n].hour.value) == day {
      var n :| 0 <= n < |views| && views[n].hour.Some? && DayOf(zone, views[n].hour.value) == day;
      if n < |init| { assert init[n] == views[n]; }
    }
  }

  /** The fixed windows: 24, 168 and 720 hours with the reader's, or the days those fall in. */
  lemma FixedWindows(zone: Zone, views: seq<ViewBucket>, sales: seq<SalesBucket>, range: TrendsRange, end: int,
                     granularity: Granularity)
    requires range != All
    ensures var start := end - match range case Last24h => 23 case Last7d => 167 case Last30d => 719;
            var axis := SalesAxis(zone, views, sales, range, end, granularity);
            && axis.Some?
            && FirstKey(zone, axis.value) == (if granularity == ByHour then start else zone(start).day)
            && LastKey(zone, axis.value) == (if granularity == ByHour then end else zone(end).day)
  {
  }
}
