/**
 * The Event's clock as the trends engine uses it (apps/staff/lib/affiliate-trends.ts):
 * UTC hours counted from the epoch, and the civil day and hour each one falls in.
 *
 * A timezone is any function on UTC hours that is monotone in days, never skips
 * a day, and stays between UTC-12 and UTC+14. Civil days are counted, so that
 * their order is the order of their "YYYY-MM-DD" keys.
 */
module CivilTime {
  import opened Numbers

  datatype CivilHour = CivilHour(day: int, hour: int)

  type Zone = int -> CivilHour

  const HOUR_MS: int := 60 * 60 * 1000

  /** The day key of a UTC hour in the Event's zone. */
  function DayOf(zone: Zone, hour: int): int {
    zone(hour).day
  }

  ghost predicate ValidZone(zone: Zone) {
    && (forall h, k :: h <= k ==> DayOf(zone, h) <= DayOf(zone, k) <= DayOf(zone, h) + (k - h))
    && (forall h :: 24 * DayOf(zone, h) - 14 <= h < 24 * (DayOf(zone, h) + 1) + 12)
  }

  /** `truncateToUTCHour`, on milliseconds since the epoch. */
  function HourOf(nowMs: int): int {
    nowMs / HOUR_MS
  }

  /** The hour an instant falls in is the whole one it is at or after, before 1970 too. */
  lemma HourHoldsInstant(nowMs: int)
    ensures HourOf(nowMs) * 3_600_000 <= nowMs < (HourOf(nowMs) + 1) * 3_600_000
  {
  }

  datatype TrendsRange = Last24h | Last7d | Last30d | All

  function RangeHours(range: TrendsRange): (hours: nat)
    requires range != All
    ensures hours >= 24
  {
    match range
    case Last24h => 24
    case Last7d => 7 * 24
    case Last30d => 30 * 24
  }

  /** All whole numbers from `lo` to `hi`. */
  function Span(lo: int, hi: int): (days: seq<int>)
    ensures |days| == if lo > hi then 0 else hi - lo + 1
    ensures forall k :: 0 <= k < |days| ==> days[k] == lo + k
    decreases hi - lo
  {
    if lo > hi then [] else Span(lo, hi - 1) + [hi]
  }

  /**
   * The axis walk: hour by hour through the day mapping, each new day once,
   * days before `floor` left out. Whatever the zone, it yields consecutive days.
   */
  method WalkDays(zone: Zone, start: int, end: int, floor: int) returns (days: seq<int>)
    requires ValidZone(zone) && start <= end
    ensures days == Span(Max(DayOf(zone, start), floor), DayOf(zone, end))
  {
    hide ValidZone;
    days := [];
    var seen: set<int> := {};
    ghost var lo := Max(DayOf(zone, start), floor);
    ghost var last := DayOf(zone, start) - 1;
    var at := start;
    while at <= end
      invariant start <= at <= end + 1 && (at > start ==> last >= DayOf(zone, start))
      invariant last == if at == start then DayOf(zone, start) - 1 else DayOf(zone, at - 1)
      invariant days == Span(lo, last)
      invariant forall d :: d in seen <==> lo <= d <= last
    {
      var day := DayOf(zone, at);
      NextDay(zone, at - 1);
      assert last <= day <= last + 1;
      if day !in seen && day >= floor {
        seen := seen + {day};
        days := days + [day];
      }
      last := day;
      at := at + 1;
    }
  }

  /** An hour on, the day is the same or the next. */
  lemma NextDay(zone: Zone, hour: int)
    requires ValidZone(zone)
    ensures DayOf(zone, hour) <= DayOf(zone, hour + 1) <= DayOf(zone, hour) + 1
  {
  }

  /** Fourteen hours before a day begins in UTC, no zone has passed that day. */
  lemma PadReachesDay(zone: Zone, day: int)
    requires ValidZone(zone)
    ensures DayOf(zone, 24 * day - 14) <= day
  {
    assert 24 * DayOf(zone, 24 * day - 14) - 14 <= 24 * day - 14;
  }
}
