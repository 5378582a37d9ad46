/** What the first half of the pipeline enumerates: every whole hour of every
    window date in the first zone, in chronological order, and which of them
    survive the first `rules` filter. */
module CandidateProperties {
  import opened Time
  import opened Streams
  import opened Scheduling

  /** Strictly increasing by instant. */
  predicate Chronological(s: seq<ZonedDateTime>)
  {
    forall i, j :: 0 <= i < j < |s| ==> ToEpochSecond(s[i]) < ToEpochSecond(s[j])
  }

  /** A whole hour, read in `zone`, of a date from `start` up to `endExclusive`. */
  predicate IsCandidate(c: ZonedDateTime, zone: Zone, start: int, endExclusive: int)
  {
    && c.zone == zone
    && start <= LocalDateOf(c) < endExclusive
    && c.dateTime.secondOfDay % 3600 == 0
  }

  /** The consecutive dates `start`, `start` + 1, ..., as datesUntil yields them. */
  predicate Consecutive(dates: seq<int>, start: int)
  {
    forall i :: 0 <= i < |dates| ==> dates[i] == start + i
  }

  /** The candidates of the first date come first, followed by those of the rest. */
  lemma CandidatesCons(dates: seq<int>, zone: Zone)
    requires dates != []
    ensures Candidates(dates, zone) == HoursOfDay(AtStartOfDay(dates[0], zone)) + Candidates(dates[1..], zone)
  {
    var f := d => AtStartOfDay(d, zone);
    var midnights := Map(f, dates);
    assert midnights[0] == AtStartOfDay(dates[0], zone);
    assert midnights[1..] == Map(f, dates[1..]);
  }

  /** Candidate 24 * i + h is hour h of date number i. */
  lemma {:induction false} CandidatesAt(dates: seq<int>, zone: Zone)
    ensures |Candidates(dates, zone)| == 24 * |dates|
    ensures forall i, h :: 0 <= i < |dates| && 0 <= h < 24 ==>
      Candidates(dates, zone)[24 * i + h] == WithHour(AtStartOfDay(dates[i], zone), h)
  {
    if dates != [] {
      CandidatesAt(dates[1..], zone);
      CandidatesCons(dates, zone);
      forall i, h | 0 <= i < |dates| && 0 <= h < 24
        ensures Candidates(dates, zone)[24 * i + h] == WithHour(AtStartOfDay(dates[i], zone), h)
      {
        CandidateShift(dates, zone, i, h);
      }
    }
  }

  /** One step of CandidatesAt: candidate 24 * i + h, read in the first date's hours or in the rest. */
  lemma CandidateShift(dates: seq<int>, zone: Zone, i: int, h: int)
    requires 0 <= i < |dates| && 0 <= h < 24
    requires Candidates(dates, zone) == HoursOfDay(AtStartOfDay(dates[0], zone)) + Candidates(dates[1..], zone)
    requires |Candidates(dates[1..], zone)| == 24 * (|dates| - 1)
    requires forall i, h :: 0 <= i < |dates| - 1 && 0 <= h < 24 ==>
      Candidates(dates[1..], zone)[24 * i + h] == WithHour(AtStartOfDay(dates[1..][i], zone), h)
    ensures Candidates(dates, zone)[24 * i + h] == WithHour(AtStartOfDay(dates[i], zone), h)
  {
    if i > 0 {
      assert dates[i] == dates[1..][i - 1];
      assert Candidates(dates, zone)[24 * i + h] == Candidates(dates[1..], zone)[24 * (i - 1) + h];
    }
  }

  /** Every index of the candidates splits into a date number and an hour. */
  lemma CandidateIndex(k: int) returns (i: int, h: int)
    requires 0 <= k
    ensures 0 <= i && 0 <= h < 24 && k == 24 * i + h
  {
    i, h := k / 24, k % 24;
  }

  /** Over consecutive dates, candidate `k` lies exactly `k` hours after the first midnight. */
  lemma CandidateInstants(dates: seq<int>, start: int, zone: Zone)
    requires Consecutive(dates, start)
    ensures |Candidates(dates, zone)| == 24 * |dates|
    ensures forall k :: 0 <= k < |Candidates(dates, zone)| ==>
      ToEpochSecond(Candidates(dates, zone)[k]) == start * 86400 - zone.totalSeconds + k * 3600
  {
    CandidatesAt(dates, zone);
    var c := Candidates(dates, zone);
    forall k | 0 <= k < |c|
      ensures ToEpochSecond(c[k]) == start * 86400 - zone.totalSeconds + k * 3600
    {
      var i, h := CandidateIndex(k);
      assert c[k] == WithHour(AtStartOfDay(dates[i], zone), h);
    }
  }

  /** The candidates come out in strictly increasing order of instant. */
  lemma CandidatesChronological(dates: seq<int>, start: int, zone: Zone)
    requires Consecutive(dates, start)
    ensures Chronological(Candidates(dates, zone))
  {
    CandidateInstants(dates, start, zone);
  }

  /** Every candidate is a whole hour, read in `zone`, of one of the given dates. */
  lemma CandidateIsWholeHour(dates: seq<int>, start: int, zone: Zone, c: ZonedDateTime)
    requires Consecutive(dates, start)
    requires c in Candidates(dates, zone)
    ensures IsCandidate(c, zone, start, start + |dates|)
  {
    CandidatesAt(dates, zone);
    var cs := Candidates(dates, zone);
    var k :| 0 <= k < |cs| && cs[k] == c;
    var i, h := CandidateIndex(k);
    assert c == WithHour(AtStartOfDay(dates[i], zone), h);
  }

  /** Every whole hour, read in `zone`, of one of the given dates is a candidate. */
  lemma WholeHourIsCandidate(dates: seq<int>, start: int, zone: Zone, c: ZonedDateTime)
    requires Consecutive(dates, start)
    requires IsCandidate(c, zone, start, start + |dates|)
    ensures c in Candidates(dates, zone)
  {
    CandidatesAt(dates, zone);
    var cs := Candidates(dates, zone);
    var i, h := LocalDateOf(c) - start, Hour(c);
    var w := WithHour(AtStartOfDay(dates[i], zone), h);
    assert cs[24 * i + h] == w;
    assert c.dateTime.secondOfDay == h * 3600;
    assert w.dateTime == LocalDateTime(start + i, h * 3600);
    assert w == c;
    assert cs[24 * i + h] == c;
  }

  /** The candidates are exactly the whole hours, read in `zone`, of the given dates. */
  lemma CandidatesExactly(dates: seq<int>, start: int, zone: Zone, c: ZonedDateTime)
    requires Consecutive(dates, start)
    ensures c in Candidates(dates, zone) <==> IsCandidate(c, zone, start, start + |dates|)
  {
    if c in Candidates(dates, zone) {
      CandidateIsWholeHour(dates, start, zone, c);
    }
    if IsCandidate(c, zone, start, start + |dates|) {
      WholeHourIsCandidate(dates, start, zone, c);
    }
  }

  /** Hours 7 through 20 of `date` in `zone` when it is a weekday; nothing on a weekend. */
  function WorkingHoursOf(date: int, zone: Zone): (r: seq<ZonedDateTime>)
    ensures |r| == if IsWeekday(date) then 14 else 0
    ensures forall i :: 0 <= i < |r| ==>
      && r[i].zone == zone && LocalDateOf(r[i]) == date
      && Hour(r[i]) == 7 + i && r[i].dateTime.secondOfDay % 3600 == 0
  {
    if IsWeekday(date) then seq(14, i requires 0 <= i < 14 => WithHour(AtStartOfDay(date, zone), 7 + i)) else []
  }

  /** Of the 24 hours of a weekday, `rules` keeps exactly hours 7 through 20, in order. */
  lemma RulesKeepWeekdayHours(date: int, zone: Zone)
    requires IsWeekday(date)
    ensures Filter(Rules, HoursOfDay(AtStartOfDay(date, zone))) == HoursOfDay(AtStartOfDay(date, zone))[7..21]
  {
    var hs := HoursOfDay(AtStartOfDay(date, zone));
    var morning, work, evening := hs[..7], hs[7..21], hs[21..];
    assert hs == morning + work + evening;
    forall i | 0 <= i < 7
      ensures !Rules(morning[i])
    {
      assert Hour(morning[i]) == i;
    }
    forall i | 0 <= i < 14
      ensures Rules(work[i])
    {
      assert LocalDateOf(work[i]) == date && Hour(work[i]) == 7 + i;
    }
    forall i | 0 <= i < 3
      ensures !Rules(evening[i])
    {
      assert Hour(evening[i]) == 21 + i;
    }
    FilterAppend(Rules, morning + work, evening);
    FilterAppend(Rules, morning, work);
    FilterNone(Rules, morning);
    FilterAll(Rules, work);
    FilterNone(Rules, evening);
  }

  /** Hours 7 through 20 of a weekday are its working hours. */
  lemma WorkingHoursSlice(date: int, zone: Zone)
    requires IsWeekday(date)
    ensures HoursOfDay(AtStartOfDay(date, zone))[7..21] == WorkingHoursOf(date, zone)
  {
    var day := AtStartOfDay(date, zone);
    var work, wh := HoursOfDay(day)[7..21], WorkingHoursOf(date, zone);
    assert |work| == |wh| == 14;
    forall i | 0 <= i < 14
      ensures work[i] == wh[i]
    {
      assert work[i] == HoursOfDay(day)[7 + i];
      SameInstantSameZone(work[i], wh[i]);
    }
  }

  /** Of the 24 hours of a date, `rules` keeps exactly hours 7 through 20 of a weekday,
      in order, and nothing of a Saturday or a Sunday. */
  lemma RulesKeepWorkingHours(date: int, zone: Zone)
    ensures Filter(Rules, HoursOfDay(AtStartOfDay(date, zone))) == WorkingHoursOf(date, zone)
  {
    var hs := HoursOfDay(AtStartOfDay(date, zone));
    if IsWeekday(date) {
      RulesKeepWeekdayHours(date, zone);
      WorkingHoursSlice(date, zone);
    } else {
      FilterNone(Rules, hs);
    }
  }

  /** The working hours of each date in turn. */
  function WorkingCandidates(dates: seq<int>, zone: Zone): seq<ZonedDateTime>
  {
    if dates == [] then [] else WorkingHoursOf(dates[0], zone) + WorkingCandidates(dates[1..], zone)
  }

  /** The first `rules` filter leaves hours 7 through 20 of each weekday of the window, date by date. */
  lemma {:induction false} FirstFilter(dates: seq<int>, zone: Zone)
    ensures Filter(Rules, Candidates(dates, zone)) == WorkingCandidates(dates, zone)
  {
    if dates != [] {
      CandidatesCons(dates, zone);
      FilterAppend(Rules, HoursOfDay(AtStartOfDay(dates[0], zone)), Candidates(dates[1..], zone));
      RulesKeepWorkingHours(dates[0], zone);
      FirstFilter(dates[1..], zone);
    }
  }

  /** At most 14 working hours per date of the window. */
  lemma {:induction false} WorkingCandidatesBound(dates: seq<int>, zone: Zone)
    ensures |WorkingCandidates(dates, zone)| <= 14 * |dates|
  {
    if dates != [] {
      WorkingCandidatesBound(dates[1..], zone);
    }
  }
}
