# Meeting-hours scheduler, modelled in Dafny

`Main.schedule(first, second, days)` (src/dev/lpa/Main.java) lists the hours at
which two employees in different time zones can meet. Its window starts two days
after today and runs for `days + 1` dates. It takes every whole hour of those dates
in the first employee's zone and keeps the ones that pass the `rules` predicate:

- the day is not a Saturday or a Sunday;
- the hour is at least 7 and below 21.

It then re-reads each kept hour in the second employee's zone and keeps those that
pass `rules` there as well. The survivors are grouped into a `TreeMap` keyed by
their local date in the second zone.

The model follows the stream pipeline stage by stage, as pure functions over
finite sequences:

| module | file | contents |
|---|---|---|
| `Time` | time.dfy | the part of java.time the pipeline uses, for fixed-offset zones |
| `Streams` | streams.dfy | `filter`, `map` and `flatMap` |
| `TreeMaps` | treemaps.dfy | `Collectors.groupingBy` into a `TreeMap`, as the fold of its accumulator |
| `Scheduling` | scheduling.dfy | `rules`, `datesUntil`, the hour expansion, the pipeline and `Schedule` itself |
| `CandidateProperties` | candidates.dfy | what the first half of the pipeline enumerates |
| `ScheduleProperties` | schedule_properties.dfy | what a schedule holds and how it is ordered |

Representation choices:

- A date is an epoch day; 1970-01-01, a Thursday, is day 0.
- A zone is a fixed UTC offset in seconds.
- An instant is an epoch second.
- `LocalDate.now()` becomes the parameter `today`.
- `days` is a Java `int`, so `days + 1` wraps around at `Integer.MAX_VALUE`.
- `datesUntil` throws when its end lies before its start. The model returns `Err` in that case.

Three behaviours of the code are worth stating outright:

- **The grouping key.** The map is keyed by the local date in the second zone, so a
  day's key need not be the first employee's date for the same instants.
- **`days` is not checked.** `days == -1` gives an empty map. Values below −1
  throw, and so does `Integer.MAX_VALUE`, because `days + 1` wraps around.
  `Scheduling.Schedule` states all three cases.
- **Swapping the employees can change the set of instants.** The window of dates
  and the whole-hour grid are taken in the first zone only.
  `ScheduleProperties.ScheduleContents` gives the exact, asymmetric set.

## Model

| member | source | states |
|---|---|---|
| Scheduling.Schedule | src/dev/lpa/Main.java:76-96 | the schedule is an error exactly when `days < -1` or `days == Integer.MAX_VALUE`, where `days + 1` wraps and `datesUntil` rejects an end before the start; `days == -1` gives an empty map |
| Scheduling.Rules | src/dev/lpa/Main.java:80-83 | true iff the local date is neither a Saturday nor a Sunday and the local time of day lies in [07:00, 21:00), that is, the hour is in [7, 21) |
| Scheduling.IsWeekday | src/dev/lpa/Main.java:81-82 | a date is a weekday iff it is not 2 or 3 modulo 7 from the epoch (1970-01-03 was a Saturday, 1970-01-04 a Sunday) |
| Scheduling.Candidates | src/dev/lpa/Main.java:88-89 | `map(atStartOfDay)` then `flatMap` over the 24 hours: 24 candidates per date; their exact layout is `CandidateProperties.CandidatesAt` |
| Scheduling.Pipeline | src/dev/lpa/Main.java:87-92 | every value the stages yield is in the second zone and passes `rules` there; the exact set is `ScheduleProperties.PipelineExactly` |
| Scheduling.AddInt32 | src/dev/lpa/Main.java:87 | `days + 1` as Java `int` addition: congruent to the true sum modulo 2^32, and equal to it when that sum fits in an `int` |
| Scheduling.DatesUntil | src/dev/lpa/Main.java:85-87 | fails exactly when the end lies before the start; otherwise yields `end - start` dates, `start`, `start + 1`, … (end exclusive) |
| Scheduling.HoursOfDay | src/dev/lpa/Main.java:89 | 24 values; value h is on the same date and in the same zone with hour h, lying (h − hour) hours after the day value |
| Time.WithZoneSameInstant | src/dev/lpa/Main.java:91 | the result is in the target zone and denotes the same instant; a value already in that zone comes back unchanged |
| Time.OfEpochSecond | src/dev/lpa/Main.java:91 | the civil reading of an instant in a zone denotes that instant in that zone |
| Time.OfEpochSecondRoundTrip | src/dev/lpa/Main.java:91 | reading a value's instant back in its own zone gives the value again |
| Time.SameInstantSameZone | src/dev/lpa/Main.java:91 | in one zone, two values that denote the same instant are equal |
| Time.LocalDateMonotone | src/dev/lpa/Main.java:94 | within one zone a later instant never has an earlier local date |
| Time.DayOfWeekSuccession | src/dev/lpa/Main.java:81-82 | epoch day 0 is a Thursday, each day is followed by the next weekday, and weekdays repeat every 7 days |
| Time.AtStartOfDay | src/dev/lpa/Main.java:88 | midnight of the date in the zone: hour 0 of that date, at `date·86400 − offset` |
| Time.WithHour | src/dev/lpa/Main.java:89 | same date, zone, minutes and seconds, with the requested hour; the instant moves by the change in hours |
| Time.DayOfWeekOf | src/dev/lpa/Main.java:81-82 | `getDayOfWeek` from floorMod(epochDay + 3, 7): Thursday, Saturday and Sunday are exactly the days 0, 2 and 3 modulo 7; `DayOfWeekSuccession` checks the calendar |
| Time.LocalDateOf | src/dev/lpa/Main.java:94 | `toLocalDate`: the date whose 86400 seconds contain the instant's local second |
| Time.ToEpochSecond | src/dev/lpa/Main.java:91 | the instant of a zoned value; its local second splits back, by floor division and modulus, into that value's date and second of day |
| Time.Hour | src/dev/lpa/Main.java:83 | the hour of day lies in 0..23 |
| Streams.Filter | src/dev/lpa/Main.java:90 | keeps exactly the elements the predicate accepts: every kept element is in the input and accepted, and every accepted input element is kept |
| Streams.Map | src/dev/lpa/Main.java:88 | same length, element i is the function applied to input element i |
| Streams.FlatMap | src/dev/lpa/Main.java:89 | every element of every expansion occurs in the result |
| Streams.FlatMapUniform | src/dev/lpa/Main.java:89 | when every expansion has n elements, the flattened stream has n per input element |
| Streams.FilterAppend | src/dev/lpa/Main.java:90 | filtering a concatenation filters each part |
| Streams.FilterNone | src/dev/lpa/Main.java:90 | a filter that accepts no element yields nothing |
| Streams.FilterAll | src/dev/lpa/Main.java:90 | a filter that accepts every element yields its input |
| Streams.FilterIdempotent | src/dev/lpa/Main.java:90-92 | filtering twice by the same predicate is filtering once |
| Streams.FilterKeepsOrder | src/dev/lpa/Main.java:90-92 | a filter keeps the relative order of what it keeps |
| TreeMaps.InsertKey | src/dev/lpa/Main.java:95 | putting a new key into the tree keeps the keys strictly ascending and adds exactly that key, at the end when it exceeds every key |
| TreeMaps.Accumulate | src/dev/lpa/Main.java:94-95 | `computeIfAbsent(k).add(v)`: the tree stays valid, key k is added, its list gains v at the end, and every other list is unchanged |
| TreeMaps.GroupingBy | src/dev/lpa/Main.java:93-95 | the result is a valid TreeMap whose keys are exactly the keys of the input elements |
| TreeMaps.GroupOf | src/dev/lpa/Main.java:94 | a group holds input elements with that key, and every input element with that key |
| TreeMaps.GroupingByLists | src/dev/lpa/Main.java:93-95 | the list under each key is exactly the input elements with that key, in encounter order |
| TreeMaps.GroupOfKeepsOrder | src/dev/lpa/Main.java:95 | a group keeps the input's relative order |
| TreeMaps.GroupOfAppend | src/dev/lpa/Main.java:94 | the group of a concatenation is the concatenation of the groups |
| TreeMaps.GroupOfUniform | src/dev/lpa/Main.java:94 | when every element has key k0, the group of k0 is the whole input and every other group is empty |
| TreeMaps.ValuesAgree | src/dev/lpa/Main.java:95 | iteration depends only on the lists stored under the iterated keys |
| TreeMaps.AccumulateLastKey | src/dev/lpa/Main.java:95 | adding under the greatest key present appends the value to the iteration |
| TreeMaps.AccumulateNewKey | src/dev/lpa/Main.java:95 | adding under a new key above all present keys appends the value to the iteration |
| TreeMaps.AccumulateLast | src/dev/lpa/Main.java:95 | adding under a key no smaller than any present key appends the value to the iteration |
| TreeMaps.GroupingByFlatten | src/dev/lpa/Main.java:93-95 | when keys never decrease along the input, iterating the grouping gives back the input: nothing is lost, duplicated or reordered |
| CandidateProperties.CandidatesCons | src/dev/lpa/Main.java:88-89 | the first date's 24 hours come first, then the rest |
| CandidateProperties.CandidatesAt | src/dev/lpa/Main.java:87-89 | 24 candidates per date; candidate 24·i + h is hour h of date i |
| CandidateProperties.CandidateInstants | src/dev/lpa/Main.java:87-89 | over consecutive dates, candidate k lies exactly k hours after the first midnight |
| CandidateProperties.CandidatesChronological | src/dev/lpa/Main.java:87-89 | candidates come in strictly ascending order of instant |
| CandidateProperties.CandidateIsWholeHour | src/dev/lpa/Main.java:87-89 | every candidate is a whole hour, in the first zone, of a window date |
| CandidateProperties.WholeHourIsCandidate | src/dev/lpa/Main.java:87-89 | every whole hour of a window date in the first zone is a candidate |
| CandidateProperties.CandidatesExactly | src/dev/lpa/Main.java:87-89 | a value is a candidate iff it is a whole hour, in the first zone, of a window date |
| CandidateProperties.WorkingHoursOf | src/dev/lpa/Main.java:80-83 | 14 values at hours 7..20 of a weekday, on that date and in that zone; none on a Saturday or Sunday |
| CandidateProperties.RulesKeepWeekdayHours | src/dev/lpa/Main.java:80-83 | of a weekday's 24 hours, `rules` keeps exactly hours 7..20, in order |
| CandidateProperties.WorkingHoursSlice | src/dev/lpa/Main.java:89 | hours 7..20 of a weekday's expansion are its working hours |
| CandidateProperties.RulesKeepWorkingHours | src/dev/lpa/Main.java:80-83 | for any date, `rules` keeps exactly its working hours (none at weekends) |
| CandidateProperties.FirstFilter | src/dev/lpa/Main.java:87-90 | the first `rules` filter leaves hours 7..20 of each weekday of the window, date by date |
| CandidateProperties.WorkingCandidatesBound | src/dev/lpa/Main.java:90 | at most 14 hours per date survive the first filter |
| ScheduleProperties.FilterChronological | src/dev/lpa/Main.java:90-92 | filtering keeps chronological order |
| ScheduleProperties.PipelineChronological | src/dev/lpa/Main.java:87-92 | the pipeline's output is in the second zone and strictly ascending by instant |
| ScheduleProperties.PipelineYieldsAccepted | src/dev/lpa/Main.java:87-92 | everything the pipeline yields is accepted: in the second zone, passes `rules` there, and is a whole hour of a window date that passes `rules` in the first zone |
| ScheduleProperties.AcceptedInPipeline | src/dev/lpa/Main.java:87-92 | every accepted instant is yielded |
| ScheduleProperties.PipelineExactly | src/dev/lpa/Main.java:87-92 | the pipeline yields exactly the accepted instants |
| ScheduleProperties.ScheduleUnfolds | src/dev/lpa/Main.java:85-95 | a successful schedule has `-1 <= days < Integer.MAX_VALUE` and groups the pipeline over the dates today+2 … today+2+days |
| ScheduleProperties.ChronologicalGroupingFlatten | src/dev/lpa/Main.java:93-95 | grouping a chronological one-zone sequence by local date and iterating it gives the sequence back |
| ScheduleProperties.ScheduleIteratesPipeline | src/dev/lpa/Main.java:85-95 | iterating a schedule key by key yields the pipeline's output in its own order |
| ScheduleProperties.ScheduleContents | src/dev/lpa/Main.java:80-95 | a schedule holds exactly the accepted instants of the window today+2 … today+2+days, each stored as read in the second zone |
| ScheduleProperties.GroupOfChronological | src/dev/lpa/Main.java:93-95 | a date's group of a chronological one-zone sequence is non-empty when the date occurs, chronological, and all on that date in that zone |
| ScheduleProperties.GroupedEntry | src/dev/lpa/Main.java:93-95 | each list of such a grouping is that date's group: non-empty, chronological, on that date and in that zone |
| ScheduleProperties.GroupedChronological | src/dev/lpa/Main.java:93-95 | such a grouping has strictly ascending keys, a chronological iteration, and per key a non-empty chronological list of exactly that date's values |
| ScheduleProperties.ScheduleOrdered | src/dev/lpa/Main.java:91-95 | keys strictly ascending; no empty lists; each value keyed by its own second-zone date and stored in the second zone; each list is that date's instants in strictly ascending order; the whole iteration strictly ascending |
| ScheduleProperties.ScheduleBound | src/dev/lpa/Main.java:87-95 | a schedule holds at most (days + 1)·14 instants |
| ScheduleProperties.WorkingGroups | src/dev/lpa/Main.java:93-95 | grouped by date, the working hours of consecutive dates give each window date its working hours and other dates nothing |
| ScheduleProperties.SameZonePipeline | src/dev/lpa/Main.java:87-92 | with one shared zone, the pipeline yields the working hours of the window, date by date |
| ScheduleProperties.WorkingHoursGroupedEntries | src/dev/lpa/Main.java:93-95 | grouping those working hours stores under each key that date's working hours |
| ScheduleProperties.WorkingHoursGroupedKeys | src/dev/lpa/Main.java:93-95 | grouping those working hours has exactly the window's weekdays as keys |
| ScheduleProperties.ScheduleSameZone | src/dev/lpa/Main.java:76-96 | with one shared zone, the keys are exactly the weekdays among today+2 … today+2+days, each holding hours 7..20 of its date in order |

## Left out

- `main` (src/dev/lpa/Main.java:34-74) is left out. It holds the demonstration employees, the zone-rule and daylight-saving diagnostics, the formatting and the printing, all of which are presentation and I/O.
- The `Employee` constructors that parse locale tags and zone identifiers are left out, and so is `getDateInfo` (lines 21-31). The model's `Employee` keeps only the zone, the one field `schedule` reads.
- Zones are fixed UTC offsets. IANA region rules, daylight-saving transitions and `withHour`'s resolution of gaps and overlaps are not modelled. Neither is a `ZoneId` that differs from another only in its identifier but has the same offset.
- `LocalDate.now()` reads the clock in the JVM's default zone. It is the parameter `today`.
- The `LocalDate` year range (±999,999,999) and the `DateTimeException` thrown beyond it are not modelled: dates are unbounded integers.
- Nanoseconds are left out: every value the pipeline builds has zero sub-second parts.
- Scheduling.Schedule: laziness and the stream machinery are not modelled, only the values each stage produces in encounter order.
- Streams.FlatMap: its own contract states only containment; the exact layout of its result is proved as `CandidateProperties.CandidatesAt`.
