/** What Main.schedule returns, stated without reference to how the pipeline
    computes it: which instants it holds, how they are ordered and grouped, how many
    there are, and the whole result when both employees share a zone. */
module ScheduleProperties {
  import opened Time
  import opened Streams
  import opened TreeMaps
  import opened Scheduling
  import opened CandidateProperties

  /** The instants a schedule should hold: read in the second zone, `z` passes
      `rules`; read in the first zone, it is a whole hour of a window date and passes
      `rules` there too. */
  predicate Accepted(z: ZonedDateTime, first: Employee, second: Employee, start: int, endExclusive: int)
  {
    var c := WithZoneSameInstant(z, first.zone);
    && z.zone == second.zone && Rules(z)
    && IsCandidate(c, first.zone, start, endExclusive) && Rules(c)
  }

  lemma FilterChronological(p: ZonedDateTime -> bool, s: seq<ZonedDateTime>)
    requires Chronological(s)
    ensures Chronological(Filter(p, s))
  {
    FilterKeepsOrder(p, s, (a: ZonedDateTime, b: ZonedDateTime) => ToEpochSecond(a) < ToEpochSecond(b));
  }

  /** The pipeline's output is in the second zone and strictly increasing by instant. */
  lemma PipelineChronological(dates: seq<int>, start: int, first: Employee, second: Employee)
    requires Consecutive(dates, start)
    ensures Chronological(Pipeline(dates, first, second))
    ensures forall i :: 0 <= i < |Pipeline(dates, first, second)| ==> Pipeline(dates, first, second)[i].zone == second.zone
  {
    CandidatesChronological(dates, start, first.zone);
    var firstOk := Filter(Rules, Candidates(dates, first.zone));
    FilterChronological(Rules, Candidates(dates, first.zone));
    var converted := Map(z => WithZoneSameInstant(z, second.zone), firstOk);
    FilterChronological(Rules, converted);
  }

  /** An instant the pipeline yields is accepted. */
  lemma PipelineYieldsAccepted(dates: seq<int>, start: int, first: Employee, second: Employee, z: ZonedDateTime)
    requires Consecutive(dates, start)
    requires z in Pipeline(dates, first, second)
    ensures Accepted(z, first, second, start, start + |dates|)
  {
    var cs := Candidates(dates, first.zone);
    var firstOk := Filter(Rules, cs);
    var converted := Map(x => WithZoneSameInstant(x, second.zone), firstOk);
    var i :| 0 <= i < |Pipeline(dates, first, second)| && Pipeline(dates, first, second)[i] == z;
    assert z in converted && Rules(z);
    var j :| 0 <= j < |converted| && converted[j] == z;
    var c := firstOk[j];
    assert c in cs && Rules(c);
    CandidateIsWholeHour(dates, start, first.zone, c);
    SameInstantSameZone(WithZoneSameInstant(z, first.zone), c);
  }

  /** Every accepted instant is yielded by the pipeline. */
  lemma AcceptedInPipeline(dates: seq<int>, start: int, first: Employee, second: Employee, z: ZonedDateTime)
    requires Consecutive(dates, start)
    requires Accepted(z, first, second, start, start + |dates|)
    ensures z in Pipeline(dates, first, second)
  {
    var cs := Candidates(dates, first.zone);
    var firstOk := Filter(Rules, cs);
    var converted := Map(x => WithZoneSameInstant(x, second.zone), firstOk);
    var c := WithZoneSameInstant(z, first.zone);
    WholeHourIsCandidate(dates, start, first.zone, c);
    var k :| 0 <= k < |cs| && cs[k] == c;
    assert c in firstOk;
    var j :| 0 <= j < |firstOk| && firstOk[j] == c;
    SameInstantSameZone(converted[j], z);
    assert z in converted;
    var m :| 0 <= m < |converted| && converted[m] == z;
  }

  /** The pipeline yields exactly the accepted instants. */
  lemma PipelineExactly(dates: seq<int>, start: int, first: Employee, second: Employee)
    requires Consecutive(dates, start)
    ensures forall z :: z in Pipeline(dates, first, second) <==> Accepted(z, first, second, start, start + |dates|)
  {
    forall z | z in Pipeline(dates, first, second)
      ensures Accepted(z, first, second, start, start + |dates|)
    {
      PipelineYieldsAccepted(dates, start, first, second, z);
    }
    forall z | Accepted(z, first, second, start, start + |dates|)
      ensures z in Pipeline(dates, first, second)
    {
      AcceptedInPipeline(dates, start, first, second, z);
    }
  }

  /** The window of a schedule that does not throw: `days` + 1 dates from today + 2. */
  lemma ScheduleUnfolds(today: int, first: Employee, second: Employee, days: Int32)
    requires Schedule(today, first, second, days).Ok?
    ensures -1 <= days < MaxInt32
    ensures var dates := seq(days + 1, i => today + 2 + i);
      Schedule(today, first, second, days).value == GroupingBy(Pipeline(dates, first, second), LocalDateOf)
  {
    var dates := seq(days + 1, i => today + 2 + i);
    assert DatesUntil(today + 2, today + 2 + AddInt32(days, 1)).value == dates;
  }

  /** Grouping a chronological sequence of values in one zone by local date and
      iterating the groups gives back the sequence. */
  lemma ChronologicalGroupingFlatten(p: seq<ZonedDateTime>, zone: Zone)
    requires Chronological(p)
    requires forall i :: 0 <= i < |p| ==> p[i].zone == zone
    ensures Flatten(GroupingBy(p, LocalDateOf)) == p
  {
    forall i, j | 0 <= i < j < |p|
      ensures LocalDateOf(p[i]) <= LocalDateOf(p[j])
    {
      LocalDateMonotone(p[i], p[j]);
    }
    GroupingByFlatten(p, LocalDateOf);
  }

  /** A schedule iterates exactly the pipeline's output, in the same order. */
  lemma ScheduleIteratesPipeline(today: int, first: Employee, second: Employee, days: Int32)
    requires Schedule(today, first, second, days).Ok?
    ensures -1 <= days < MaxInt32
    ensures var dates := seq(days + 1, i => today + 2 + i);
      && Consecutive(dates, today + 2)
      && Flatten(Schedule(today, first, second, days).value) == Pipeline(dates, first, second)
  {
    ScheduleUnfolds(today, first, second, days);
    var dates := seq(days + 1, i => today + 2 + i);
    PipelineChronological(dates, today + 2, first, second);
    ChronologicalGroupingFlatten(Pipeline(dates, first, second), second.zone);
  }

  /** Main.schedule holds exactly the instants that are whole hours of the dates
      today + 2 through today + 2 + days in the first zone, pass `rules` there, and,
      read in the second zone, pass `rules` there too; each is stored as read in the
      second zone. */
  lemma ScheduleContents(today: int, first: Employee, second: Employee, days: Int32)
    requires Schedule(today, first, second, days).Ok?
    ensures forall z :: z in Flatten(Schedule(today, first, second, days).value) <==>
      Accepted(z, first, second, today + 2, today + 3 + days)
  {
    ScheduleIteratesPipeline(today, first, second, days);
    PipelineExactly(seq(days + 1, i => today + 2 + i), today + 2, first, second);
  }

  /** The values of a chronological one-zone sequence that fall on date `k`, when
      there is one: a non-empty chronological list of values on `k` in that zone. */
  lemma GroupOfChronological(p: seq<ZonedDateTime>, zone: Zone, k: int, i: int)
    requires Chronological(p)
    requires forall j :: 0 <= j < |p| ==> p[j].zone == zone
    requires 0 <= i < |p| && LocalDateOf(p[i]) == k
    ensures var g := GroupOf(p, LocalDateOf, k);
      && g != []
      && Chronological(g)
      && (forall j :: 0 <= j < |g| ==> LocalDateOf(g[j]) == k && g[j].zone == zone)
  {
    var g := GroupOf(p, LocalDateOf, k);
    assert p[i] in g;
    GroupOfKeepsOrder(p, LocalDateOf, k, (a: ZonedDateTime, b: ZonedDateTime) => ToEpochSecond(a) < ToEpochSecond(b));
    forall j | 0 <= j < |g|
      ensures LocalDateOf(g[j]) == k && g[j].zone == zone
    {
      assert g[j] in p;
    }
  }

  /** One list of a grouping of a chronological one-zone sequence by local date. */
  lemma GroupedEntry(p: seq<ZonedDateTime>, zone: Zone, k: int)
    requires Chronological(p)
    requires forall i :: 0 <= i < |p| ==> p[i].zone == zone
    requires k in GroupingBy(p, LocalDateOf).entries
    ensures var t := GroupingBy(p, LocalDateOf);
      && t.entries[k] != []
      && t.entries[k] == GroupOf(p, LocalDateOf, k)
      && Chronological(t.entries[k])
      && (forall i :: 0 <= i < |t.entries[k]| ==>
            LocalDateOf(t.entries[k][i]) == k && t.entries[k][i].zone == zone)
  {
    GroupingByLists(p, LocalDateOf);
    var i :| 0 <= i < |p| && LocalDateOf(p[i]) == k;
    GroupOfChronological(p, zone, k, i);
  }

  /** Grouping a chronological sequence of values in one zone by local date: keys
      ascend, the iteration is the sequence itself, and every list is a non-empty
      chronological list of exactly that date's values. */
  lemma GroupedChronological(p: seq<ZonedDateTime>, zone: Zone)
    requires Chronological(p)
    requires forall i :: 0 <= i < |p| ==> p[i].zone == zone
    ensures var t := GroupingBy(p, LocalDateOf);
      && StrictlyAscending(t.keys)
      && (forall k :: k in t.entries <==> k in t.keys)
      && Chronological(Flatten(t))
      && (forall k :: k in t.entries ==>
            && t.entries[k] != []
            && t.entries[k] == GroupOf(Flatten(t), LocalDateOf, k)
            && Chronological(t.entries[k])
            && (forall i :: 0 <= i < |t.entries[k]| ==>
                  LocalDateOf(t.entries[k][i]) == k && t.entries[k][i].zone == zone))
  {
    var t := GroupingBy(p, LocalDateOf);
    ChronologicalGroupingFlatten(p, zone);
    assert forall i :: 0 <= i < |t.keys| ==> t.keys[i] in t.keys;
    forall k | k in t.entries
      ensures && t.entries[k] != []
              && t.entries[k] == GroupOf(Flatten(t), LocalDateOf, k)
              && Chronological(t.entries[k])
              && (forall i :: 0 <= i < |t.entries[k]| ==>
                    LocalDateOf(t.entries[k][i]) == k && t.entries[k][i].zone == zone)
    {
      GroupedEntry(p, zone, k);
    }
  }

  /** Keys iterate in strictly ascending order; every instant is stored under its own
      second-zone date; no key holds an empty list; each list is that date's instants
      in strictly increasing order; and the whole iteration is strictly increasing. */
  lemma ScheduleOrdered(today: int, first: Employee, second: Employee, days: Int32)
    requires Schedule(today, first, second, days).Ok?
    ensures var t := Schedule(today, first, second, days).value;
      && StrictlyAscending(t.keys)
      && (forall k :: k in t.entries <==> k in t.keys)
      && Chronological(Flatten(t))
      && (forall k :: k in t.entries ==>
            && t.entries[k] != []
            && t.entries[k] == GroupOf(Flatten(t), LocalDateOf, k)
            && Chronological(t.entries[k])
            && (forall i :: 0 <= i < |t.entries[k]| ==>
                  LocalDateOf(t.entries[k][i]) == k && t.entries[k][i].zone == second.zone))
  {
    ScheduleUnfolds(today, first, second, days);
    var dates := seq(days + 1, i => today + 2 + i);
    var p := Pipeline(dates, first, second);
    PipelineChronological(dates, today + 2, first, second);
    GroupedChronological(p, second.zone);
  }

  /** A schedule stores at most 14 instants per date of its window. */
  lemma ScheduleBound(today: int, first: Employee, second: Employee, days: Int32)
    requires Schedule(today, first, second, days).Ok?
    ensures |Flatten(Schedule(today, first, second, days).value)| <= (days + 1) * 14
  {
    ScheduleIteratesPipeline(today, first, second, days);
    var dates := seq(days + 1, i => today + 2 + i);
    var firstOk := Filter(Rules, Candidates(dates, first.zone));
    FirstFilter(dates, first.zone);
    WorkingCandidatesBound(dates, first.zone);
    assert |Pipeline(dates, first, second)| <= |firstOk|;
  }

  /** Grouped by date, the working hours of consecutive dates give each window date
      its own working hours and every other date nothing. */
  lemma {:induction false} WorkingGroups(dates: seq<int>, start: int, zone: Zone, k: int)
    requires Consecutive(dates, start)
    ensures GroupOf(WorkingCandidates(dates, zone), LocalDateOf, k) ==
      if start <= k < start + |dates| then WorkingHoursOf(k, zone) else []
  {
    if dates != [] {
      var head, rest := WorkingHoursOf(dates[0], zone), WorkingCandidates(dates[1..], zone);
      GroupOfAppend(head, rest, LocalDateOf, k);
      GroupOfUniform(head, LocalDateOf, k, start);
      WorkingGroups(dates[1..], start + 1, zone, k);
    }
  }

  /** With both employees in one zone, the second filter and the conversion change
      nothing: the pipeline yields the working hours of the window, date by date. */
  lemma SameZonePipeline(dates: seq<int>, start: int, first: Employee, second: Employee)
    requires Consecutive(dates, start) && first.zone == second.zone
    ensures Pipeline(dates, first, second) == WorkingCandidates(dates, first.zone)
  {
    var cs := Candidates(dates, first.zone);
    var firstOk := Filter(Rules, cs);
    FirstFilter(dates, first.zone);
    var converted := Map(z => WithZoneSameInstant(z, second.zone), firstOk);
    forall i | 0 <= i < |firstOk|
      ensures converted[i] == firstOk[i]
    {
      CandidateIsWholeHour(dates, start, first.zone, firstOk[i]);
    }
    assert converted == firstOk;
    FilterIdempotent(Rules, cs);
  }

  /** Grouping the working hours of consecutive dates by date: each key holds its
      own working hours. */
  lemma WorkingHoursGroupedEntries(dates: seq<int>, start: int, zone: Zone)
    requires Consecutive(dates, start)
    ensures var t := GroupingBy(WorkingCandidates(dates, zone), LocalDateOf);
      forall k :: k in t.entries ==> t.entries[k] == WorkingHoursOf(k, zone)
  {
    var p := WorkingCandidates(dates, zone);
    var t := GroupingBy(p, LocalDateOf);
    GroupingByLists(p, LocalDateOf);
    forall k | k in t.entries
      ensures t.entries[k] == WorkingHoursOf(k, zone)
    {
      WorkingGroups(dates, start, zone, k);
      var i :| 0 <= i < |p| && LocalDateOf(p[i]) == k;
      assert p[i] in GroupOf(p, LocalDateOf, k);
    }
  }

  /** Grouping the working hours of consecutive dates by date: the keys are the
      weekdays among the dates. */
  lemma WorkingHoursGroupedKeys(dates: seq<int>, start: int, zone: Zone)
    requires Consecutive(dates, start)
    ensures var t := GroupingBy(WorkingCandidates(dates, zone), LocalDateOf);
      forall k :: k in t.keys <==> start <= k < start + |dates| && IsWeekday(k)
  {
    var p := WorkingCandidates(dates, zone);
    var t := GroupingBy(p, LocalDateOf);
    forall k
      ensures k in t.entries <==> start <= k < start + |dates| && IsWeekday(k)
    {
      WorkingGroups(dates, start, zone, k);
      var g := GroupOf(p, LocalDateOf, k);
      if k in t.entries {
        var i :| 0 <= i < |p| && LocalDateOf(p[i]) == k;
        assert p[i] in g;
      }
      if start <= k < start + |dates| && IsWeekday(k) {
        assert g[0] in p && LocalDateOf(g[0]) == k;
      }
    }
  }

  /** When both employees share a zone, the keys are exactly the weekdays among
      today + 2 through today + 2 + days, and each holds hours 7 through 20 of its
      date, in order. */
  lemma ScheduleSameZone(today: int, first: Employee, second: Employee, days: Int32)
    requires Schedule(today, first, second, days).Ok?
    requires first.zone == second.zone
    ensures var t := Schedule(today, first, second, days).value;
      && (forall k :: k in t.keys <==> today + 2 <= k <= today + 2 + days && IsWeekday(k))
      && (forall k :: k in t.entries ==> t.entries[k] == WorkingHoursOf(k, first.zone))
  {
    ScheduleUnfolds(today, first, second, days);
    var dates := seq(days + 1, i => today + 2 + i);
    SameZonePipeline(dates, today + 2, first, second);
    WorkingHoursGroupedKeys(dates, today + 2, first.zone);
    WorkingHoursGroupedEntries(dates, today + 2, first.zone);
  }
}
