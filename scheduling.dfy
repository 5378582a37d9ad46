/** The scheduling engine of Main.schedule: the whole hours of a window of days in
    the first employee's zone that are working hours there and, read in the second
    employee's zone, working hours there too, grouped by the second zone's date. */
module Scheduling {
  import opened Time
  import opened Streams
  import opened TreeMaps

  /** The Employee record reduced to the field the schedule reads. */
  datatype Employee = Employee(zone: Zone)

  /** The one exception the engine raises: LocalDate.datesUntil given an end before its start. */
  datatype Error = EndBeforeStart

  datatype Result<T> = Ok(value: T) | Err(error: Error)

  /** Java's int. */
  type Int32 = x: int | -0x8000_0000 <= x < 0x8000_0000

  const MaxInt32: Int32 := 0x7fff_ffff

  /** Java's int addition, which wraps around modulo 2^32. */
  function AddInt32(a: Int32, b: Int32): (r: Int32)
    ensures (r - (a + b)) % 0x1_0000_0000 == 0
    ensures -0x8000_0000 <= a + b <= MaxInt32 ==> r == a + b
  {
    var sum := a + b;
    if sum > MaxInt32 then sum - 0x1_0000_0000
    else if sum < -0x8000_0000 then sum + 0x1_0000_0000
    else sum
  }

  /** The `rules` predicate: the value's own local date is not a Saturday or a
      Sunday and its own local hour is at least 7 and below 21. */
  predicate Rules(z: ZonedDateTime)
    ensures Rules(z) <==> IsWeekday(z.dateTime.date) && 25200 <= z.dateTime.secondOfDay < 75600
  {
    IsWeekday(LocalDateOf(z)) && Hour(z) >= 7 && Hour(z) < 21
  }

  /** Neither a Saturday nor a Sunday. */
  predicate IsWeekday(date: int)
    ensures IsWeekday(date) <==> date % 7 != 2 && date % 7 != 3
  {
    DayOfWeekOf(date) != Saturday && DayOfWeekOf(date) != Sunday
  }

  /** LocalDate.datesUntil: the dates from `start` up to and excluding `endExclusive`,
      or the IllegalArgumentException it throws when the end lies before the start. */
  function DatesUntil(start: int, endExclusive: int): (r: Result<seq<int>>)
    ensures r.Err? <==> endExclusive < start
    ensures r.Ok? ==> |r.value| == endExclusive - start
    ensures r.Ok? ==> forall i :: 0 <= i < |r.value| ==> r.value[i] == start + i
  {
    if endExclusive < start then Err(EndBeforeStart)
    else Ok(seq(endExclusive - start, i => start + i))
  }

  /** IntStream.range(0, 24).mapToObj(day::withHour): hours 0 through 23 of the
      date of `day`, in `day`'s zone, one hour apart in ascending order. */
  function HoursOfDay(day: ZonedDateTime): (r: seq<ZonedDateTime>)
    ensures |r| == 24
    ensures forall h :: 0 <= h < 24 ==>
      && r[h].zone == day.zone && LocalDateOf(r[h]) == LocalDateOf(day) && Hour(r[h]) == h
      && r[h].dateTime.secondOfDay % 3600 == day.dateTime.secondOfDay % 3600
      && ToEpochSecond(r[h]) == ToEpochSecond(day) + (h - Hour(day)) * 3600
  {
    seq(24, h requires 0 <= h < 24 => WithHour(day, h))
  }

  /** `.map(dt -> dt.atStartOfDay(zone)).flatMap(...)`: every whole hour of every date, in `zone`. */
  function Candidates(dates: seq<int>, zone: Zone): (r: seq<ZonedDateTime>)
    ensures |r| == 24 * |dates|
  {
    var midnights := Map(d => AtStartOfDay(d, zone), dates);
    FlatMapUniform(HoursOfDay, midnights, 24);
    FlatMap(HoursOfDay, midnights)
  }

  /** The stream stages after datesUntil and before collect: the candidates that pass
      `rules` in the first zone, re-read in the second zone, that pass `rules` there. */
  function Pipeline(dates: seq<int>, first: Employee, second: Employee): (r: seq<ZonedDateTime>)
    ensures forall i :: 0 <= i < |r| ==> r[i].zone == second.zone && Rules(r[i])
  {
    var firstOk := Filter(Rules, Candidates(dates, first.zone));
    var converted := Map(z => WithZoneSameInstant(z, second.zone), firstOk);
    var r := Filter(Rules, converted);
    assert forall i :: 0 <= i < |r| ==> r[i].zone == second.zone by {
      forall i | 0 <= i < |r|
        ensures r[i].zone == second.zone
      {
        var j :| 0 <= j < |converted| && converted[j] == r[i];
      }
    }
    r
  }

  /** Main.schedule, with LocalDate.now() passed in as `today`: the window starts two
      days after today and its end is computed with Java's wrapping `days + 1`. */
  function Schedule(today: int, first: Employee, second: Employee, days: Int32): (r: Result<TreeMap<ZonedDateTime>>)
    ensures r.Err? <==> days < -1 || days == MaxInt32
    ensures days == -1 ==> r == Ok(TreeMap([], map[]))
  {
    var startingDate := today + 2;
    match DatesUntil(startingDate, startingDate + AddInt32(days, 1))
    case Err(e) => Err(e)
    case Ok(dates) => Ok(GroupingBy(Pipeline(dates, first, second), LocalDateOf))
  }
}
