/** The slice of java.time the scheduler relies on, for zones that are fixed UTC
    offsets. A local date is an epoch day (day 0 is 1970-01-01, a Thursday), a
    local time of day is a whole second of the day, and an instant is a count of
    seconds since 1970-01-01T00:00Z. Sub-second parts are always zero in the
    scheduler and are not represented. */
module Time {

  /** A second of the day, 00:00:00 through 23:59:59. */
  type SecondOfDay = s: int | 0 <= s < 86400

  /** A ZoneOffset's total seconds, bounded by -18:00 and +18:00 as in java.time. */
  type OffsetSeconds = s: int | -64800 <= s <= 64800

  datatype DayOfWeek = Monday | Tuesday | Wednesday | Thursday | Friday | Saturday | Sunday

  /** LocalDate.getDayOfWeek: the ISO weekday of an epoch day, from floorMod(epochDay + 3, 7). */
  function DayOfWeekOf(epochDay: int): (d: DayOfWeek)
    ensures d == Thursday <==> epochDay % 7 == 0
    ensures d == Saturday <==> epochDay % 7 == 2
    ensures d == Sunday <==> epochDay % 7 == 3
  {
    var dow0 := (epochDay + 3) % 7;
    if dow0 == 0 then Monday
    else if dow0 == 1 then Tuesday
    else if dow0 == 2 then Wednesday
    else if dow0 == 3 then Thursday
    else if dow0 == 4 then Friday
    else if dow0 == 5 then Saturday
    else Sunday
  }

  /** DayOfWeek.plus(1): the weekday that follows `d`. */
  function Next(d: DayOfWeek): DayOfWeek
  {
    match d
    case Monday => Tuesday
    case Tuesday => Wednesday
    case Wednesday => Thursday
    case Thursday => Friday
    case Friday => Saturday
    case Saturday => Sunday
    case Sunday => Monday
  }

  /** Epoch day 0 is a Thursday, and every following day is the next weekday. */
  lemma DayOfWeekSuccession(epochDay: int)
    ensures DayOfWeekOf(0) == Thursday
    ensures DayOfWeekOf(epochDay + 1) == Next(DayOfWeekOf(epochDay))
    ensures DayOfWeekOf(epochDay + 7) == DayOfWeekOf(epochDay)
  {
  }

  /** A zone is a fixed offset from UTC (java.time.ZoneOffset). */
  datatype Zone = ZoneOffset(totalSeconds: OffsetSeconds)

  /** A LocalDateTime: an epoch day and a second of that day. */
  datatype LocalDateTime = LocalDateTime(date: int, secondOfDay: SecondOfDay)

  /** A ZonedDateTime: a local date-time together with the zone it is read in. */
  datatype ZonedDateTime = ZonedDateTime(dateTime: LocalDateTime, zone: Zone)

  /** ZonedDateTime.getHour. */
  function Hour(z: ZonedDateTime): (h: int)
    ensures 0 <= h < 24
  {
    z.dateTime.secondOfDay / 3600
  }

  /** ZonedDateTime.toLocalDate. */
  function LocalDateOf(z: ZonedDateTime): (date: int)
    ensures date * 86400 <= ToEpochSecond(z) + z.zone.totalSeconds < date * 86400 + 86400
  {
    z.dateTime.date
  }

  /** ZonedDateTime.toEpochSecond: the instant a zoned date-time denotes. */
  function ToEpochSecond(z: ZonedDateTime): (epochSecond: int)
    ensures (epochSecond + z.zone.totalSeconds) / 86400 == z.dateTime.date
    ensures (epochSecond + z.zone.totalSeconds) % 86400 == z.dateTime.secondOfDay
  {
    z.dateTime.date * 86400 + z.dateTime.secondOfDay - z.zone.totalSeconds
  }

  /** LocalDateTime.ofEpochSecond paired with its zone: the civil reading of an
      instant in `zone`, with floor division and floor modulus by the day length. */
  function OfEpochSecond(epochSecond: int, zone: Zone): (r: ZonedDateTime)
    ensures r.zone == zone && ToEpochSecond(r) == epochSecond
  {
    var localSecond := epochSecond + zone.totalSeconds;
    ZonedDateTime(LocalDateTime(localSecond / 86400, localSecond % 86400), zone)
  }

  /** In one zone an instant has exactly one civil reading. */
  lemma SameInstantSameZone(a: ZonedDateTime, b: ZonedDateTime)
    requires a.zone == b.zone && ToEpochSecond(a) == ToEpochSecond(b)
    ensures a == b
  {
  }

  /** Reading an instant back in its own zone gives the zoned date-time it came from. */
  lemma OfEpochSecondRoundTrip(z: ZonedDateTime)
    ensures OfEpochSecond(ToEpochSecond(z), z.zone) == z
  {
    SameInstantSameZone(OfEpochSecond(ToEpochSecond(z), z.zone), z);
  }

  /** Within one zone the local date never decreases as the instant advances. */
  lemma LocalDateMonotone(a: ZonedDateTime, b: ZonedDateTime)
    requires a.zone == b.zone && ToEpochSecond(a) <= ToEpochSecond(b)
    ensures LocalDateOf(a) <= LocalDateOf(b)
  {
    var da, db := a.dateTime.date, b.dateTime.date;
    if db < da {
      assert db * 86400 + 86400 <= da * 86400;
    }
  }

  /** LocalDate.atStartOfDay(zone): midnight of `date` in `zone`. */
  function AtStartOfDay(date: int, zone: Zone): (r: ZonedDateTime)
    ensures r.zone == zone && LocalDateOf(r) == date && Hour(r) == 0
    ensures ToEpochSecond(r) == date * 86400 - zone.totalSeconds
  {
    ZonedDateTime(LocalDateTime(date, 0), zone)
  }

  /** ZonedDateTime.withHour: the same date, minutes and seconds in the same zone,
      at hour `hour`; with a fixed offset the local date-time needs no resolving. */
  function WithHour(z: ZonedDateTime, hour: int): (r: ZonedDateTime)
    requires 0 <= hour < 24
    ensures r.zone == z.zone && LocalDateOf(r) == LocalDateOf(z) && Hour(r) == hour
    ensures r.dateTime.secondOfDay % 3600 == z.dateTime.secondOfDay % 3600
    ensures ToEpochSecond(r) == ToEpochSecond(z) + (hour - Hour(z)) * 3600
  {
    ZonedDateTime(LocalDateTime(z.dateTime.date, hour * 3600 + z.dateTime.secondOfDay % 3600), z.zone)
  }

  /** ZonedDateTime.withZoneSameInstant: the same instant read in `zone`; a value
      already in `zone` is returned unchanged. */
  function WithZoneSameInstant(z: ZonedDateTime, zone: Zone): (r: ZonedDateTime)
    ensures r.zone == zone && ToEpochSecond(r) == ToEpochSecond(z)
    ensures zone == z.zone ==> r == z
  {
    if z.zone == zone then z else OfEpochSecond(ToEpochSecond(z), zone)
  }
}
