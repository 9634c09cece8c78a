/**
 "When does the answer next change?" (`nextBoundary`, packages/shared/src/work-hours.ts),
 with the loops of the source proved against the functions that specify them.
 */
module Boundaries {
  import opened Options
  import opened Civil
  import opened Zones
  import opened WorkHours

  const LOOKAHEAD_DAYS := 14

  datatype Boundary = Boundary(at: int, opens: bool)

  function FirstContaining(xs: seq<Interval>, t: int): (r: Option<Interval>)
    ensures r.Some? ==> r.value in xs && r.value.Contains(t)
    ensures r.None? ==> forall i <- xs :: !i.Contains(t)
  {
    if xs == [] then None else if xs[0].Contains(t) then Some(xs[0]) else FirstContaining(xs[1..], t)
  }

  function FirstAfter(xs: seq<Interval>, t: int): (r: Option<Interval>)
    ensures r.Some? ==> r.value in xs && t < r.value.start
    ensures r.None? ==> forall i <- xs :: i.start <= t
  {
    if xs == [] then None else if t < xs[0].start then Some(xs[0]) else FirstAfter(xs[1..], t)
  }

  /** The end of the chain of intervals that carries on from `end`. */
  function ChainEnd(xs: seq<Interval>, end: int): (r: int)
    ensures end <= r
  {
    if xs == [] then end
    else ChainEnd(xs[1..], if xs[0].start <= end && xs[0].end > end then xs[0].end else end)
  }

  /** `nextBoundary`. */
  function NextBoundary(s: Schedule, now: int): Option<Boundary> {
    if IsScheduleEmpty(s) then None
    else
      var xs := ShiftIntervals(s, now, -1, LOOKAHEAD_DAYS);
      match FirstContaining(xs, now)
      case Some(current) =>
        var end := ChainEnd(xs, current.end);
        if end >= now + LOOKAHEAD_DAYS * DAY then None else Some(Boundary(end, false))
      case None =>
        match FirstAfter(xs, now)
        case Some(upcoming) => Some(Boundary(upcoming.start, true))
        case None => None
  }

  /* ---- The loops ---- */

  /** The inner loop of `shiftIntervals`: push the intervals of one day's windows. */
  method PushWindows(z: Zone, d: Date, ws: seq<TimeWindow>, before: seq<Interval>) returns (out: seq<Interval>)
    requires d.Valid()
    ensures out == before + IntervalsOf(z, d, ws)
  {
    hide ParseTimeOfDay, ZonedTimeToUtc;
    out := before;
    var i := 0;
    while i < |ws|
      invariant 0 <= i <= |ws|
      invariant out + IntervalsOf(z, d, ws[i..]) == before + IntervalsOf(z, d, ws)
    {
      var open, close := ParseTimeOfDay(ws[i].open), ParseTimeOfDay(ws[i].close);
      ghost var rest := IntervalsOf(z, d, ws[i + 1..]);
      assert ws[i..][1..] == ws[i + 1..];
      i := i + 1;
      if open.None? || close.None? {
        continue;
      }
      var start := ZonedTimeToUtc(z, d, open.value);
      var end := ZonedTimeToUtc(z, d, if close.value > open.value then close.value else close.value + 1440);
      if end > start {
        assert (out + [Interval(start, end)]) + rest == out + ([Interval(start, end)] + rest);
        out := out + [Interval(start, end)];
      }
    }
  }

  /** One round of the outer loop: the windows of the day `offset` days from the anchor. */
  method PushDay(s: Schedule, anchor: Date, offset: int, before: seq<Interval>) returns (out: seq<Interval>)
    requires anchor.Valid()
    ensures out == before + DayIntervals(s, DayFromCivil(anchor) + offset)
  {
    hide IntervalsOf, DateKey, WindowsForDay, WeekdayOf, DayFromYear;
    var d := AddDays(anchor, offset);
    assert d == CivilFromDay(DayFromCivil(anchor) + offset);
    out := PushWindows(s.zone, d, WindowsForDay(s, DateKey(d), WeekdayOf(DayFromCivil(d))), before);
  }

  lemma {:induction false} OneMoreDay(s: Schedule, d: int, last: int)
    requires d <= last
    ensures IntervalsFrom(s, d, last) == IntervalsFrom(s, d, last - 1) + DayIntervals(s, last)
    decreases last - d
  {
    hide DayIntervals;
    if d < last {
      OneMoreDay(s, d + 1, last);
    }
  }

  lemma NoDays(s: Schedule, d: int, last: int)
    requires last < d
    ensures IntervalsFrom(s, d, last) == []
  {
  }

  /** The outer loop of `shiftIntervals`. */
  method CollectIntervals(s: Schedule, anchor: Date, from: int, to: int) returns (out: seq<Interval>)
    requires anchor.Valid()
    ensures out == IntervalsFrom(s, DayFromCivil(anchor) + from, DayFromCivil(anchor) + to)
  {
    hide IntervalsFrom, DayIntervals, DayFromCivil;
    ghost var a := DayFromCivil(anchor);
    out := [];
    var offset := from;
    NoDays(s, a + from, a + from - 1);
    while offset <= to
      invariant from <= offset && (offset <= to + 1 || offset == from)
      invariant out == IntervalsFrom(s, a + from, a + offset - 1)
    {
      OneMoreDay(s, a + from, a + offset);
      out := PushDay(s, anchor, offset, out);
      offset := offset + 1;
    }
    if to < from {
      NoDays(s, a + from, a + to);
    }
  }

  method ComputeShiftIntervals(s: Schedule, anchorMs: int, from: int, to: int) returns (r: seq<Interval>)
    ensures r == ShiftIntervals(s, anchorMs, from, to)
  {
    hide IntervalsFrom, SortByStart, PartsOf, DayFromCivil, LocalDay;
    var out := CollectIntervals(s, PartsOf(s.zone, anchorMs).date, from, to);
    r := SortByStart(out);
  }

  method ComputeNextBoundary(s: Schedule, nowMs: int) returns (r: Option<Boundary>)
    ensures r == NextBoundary(s, nowMs)
  {
    hide ShiftIntervals, FirstContaining, FirstAfter;
    if IsScheduleEmpty(s) {
      return None;
    }
    var horizonMs := nowMs + LOOKAHEAD_DAYS * DAY;
    var intervals := ComputeShiftIntervals(s, nowMs, -1, LOOKAHEAD_DAYS);
    var current := FirstContaining(intervals, nowMs);
    if current.Some? {
      var end := current.value.end;
      var k := 0;
      while k < |intervals|
        invariant 0 <= k <= |intervals|
        invariant ChainEnd(intervals[k..], end) == ChainEnd(intervals, current.value.end)
      {
        var i := intervals[k];
        assert intervals[k..][1..] == intervals[k + 1..];
        if i.start <= end && i.end > end {
          end := i.end;
        }
        k := k + 1;
      }
      return if end >= horizonMs then None else Some(Boundary(end, false));
    }
    var upcoming := FirstAfter(intervals, nowMs);
    return if upcoming.Some? then Some(Boundary(upcoming.value.start, true)) else None;
  }

  /* ---- What the chain and the searches find ---- */

  /** Everything from an instant that an interval ends at or contains, up to the chain's end, is covered. */
  lemma {:induction false} ChainIsCovered(xs: seq<Interval>, end: int, t: int)
    requires end <= t < ChainEnd(xs, end)
    ensures exists i <- xs :: i.Contains(t)
  {
    if xs[0].start <= end && xs[0].end > end {
      if t < xs[0].end {
        assert xs[0].Contains(t);
      } else {
        ChainIsCovered(xs[1..], xs[0].end, t);
      }
    } else {
      ChainIsCovered(xs[1..], end, t);
    }
  }

  lemma {:induction false} ChainStops(xs: seq<Interval>, end: int)
    requires forall i <- xs :: end < i.start
    ensures ChainEnd(xs, end) == end
  {
    if xs != [] {
      ChainStops(xs[1..], end);
    }
  }

  /** In a sorted list no interval carries on from the chain's end, and the end is one it started from. */
  lemma {:induction false} ChainIsMaximal(xs: seq<Interval>, end: int)
    requires SortedByStart(xs)
    ensures forall i <- xs :: !i.Contains(ChainEnd(xs, end))
    ensures ChainEnd(xs, end) == end || exists i <- xs :: i.end == ChainEnd(xs, end)
  {
    if xs != [] {
      var end' := if xs[0].start <= end && xs[0].end > end then xs[0].end else end;
      ChainIsMaximal(xs[1..], end');
      if end < xs[0].start {
        ChainStops(xs[1..], end);
      }
    }
  }

  /** The first interval after `t` in a sorted list is the earliest. */
  lemma {:induction false} FirstAfterIsEarliest(xs: seq<Interval>, t: int)
    requires SortedByStart(xs) && FirstAfter(xs, t).Some?
    ensures forall i <- xs :: t < i.start ==> FirstAfter(xs, t).value.start <= i.start
  {
    if !(t < xs[0].start) {
      FirstAfterIsEarliest(xs[1..], t);
    }
  }

  /* ---- Exactness ---- */

  /** Midnight of the first day that the look-ahead no longer lists. */
  function ListLimit(z: Zone, now: int): int {
    Midnight(z, LocalDay(z, now) + LOOKAHEAD_DAYS + 1)
  }

  /** The look-ahead reaches its horizon before the listed days run out. */
  predicate FortnightFits(z: Zone, now: int) {
    now + LOOKAHEAD_DAYS * DAY <= ListLimit(z, now)
  }

  /** What the documentation promises of one answer. */
  ghost predicate BoundaryExact(s: Schedule, now: int) {
    match NextBoundary(s, now)
    case Some(b) =>
      && now < b.at
      && (forall t :: now <= t < b.at ==> IsWithinWorkHours(s, t) == !b.opens)
      && IsWithinWorkHours(s, b.at) == b.opens
    case None =>
      forall t :: now <= t < now + LOOKAHEAD_DAYS * DAY ==> IsWithinWorkHours(s, t) == IsWithinWorkHours(s, now)
  }

  /**
   All that an answer at `now` asks of a zone: what the scan asks, and order around two midnights,
   that of the day of `now` and that of the first day the look-ahead no longer lists.
   */
  ghost predicate OrderedHere(z: Zone, now: int) {
    Near(z) && OrderedAround(z, LocalDay(z, now)) && OrderedAround(z, LocalDay(z, now) + LOOKAHEAD_DAYS + 1)
  }

  lemma DayOrderedIsOrderedHere(z: Zone, now: int)
    requires DayOrdered(z)
    ensures OrderedHere(z, now)
  {
    hide Near;
    DayOrderedZonesAreNear(z);
  }

  /** Wall times on different sides of a midnight are converted in order. */
  lemma MidnightSeparates(z: Zone, k: int, w: int)
    requires OrderedAround(z, k)
    ensures w < k * DAY ==> ToUtc(z, w) <= Midnight(z, k)
    ensures k * DAY <= w ==> Midnight(z, k) <= ToUtc(z, w)
    ensures LocalDay(z, Midnight(z, k)) >= k
  {
    var m := Midnight(z, k);
    assert m == ToUtc(z, k * DAY);
    assert LocalDay(z, m) >= k;
  }

  lemma NowIsBeforeTheLimit(z: Zone, now: int, k: int)
    requires OrderedAround(z, k) && LocalDay(z, now) < k
    ensures now < Midnight(z, k)
  {
  }

  /** From `now` to the limit, every day that covers an instant is listed. */
  lemma ListIsComplete(s: Schedule, now: int, d: int, t: int)
    requires OrderedHere(s.zone, now) && CoveredBy(s, d, t)
    requires now <= t < ListLimit(s.zone, now)
    ensures LocalDay(s.zone, now) - 1 <= d <= LocalDay(s.zone, now) + LOOKAHEAD_DAYS
  {
    hide WindowsOn, Usable, WallOpen, WallClose, LocalDay, ToUtc, OrderedAround;
    var a := LocalDay(s.zone, now);
    var w :| w in WindowsOn(s, d) && Usable(w) && ToUtc(s.zone, WallOpen(w, d)) <= t < ToUtc(s.zone, WallClose(w, d));
    WindowSpan(w, d);
    if d < a - 1 {
      EarlierThan(s.zone, a, WallClose(w, d), now);
    }
    MidnightSeparates(s.zone, a + LOOKAHEAD_DAYS + 1, WallOpen(w, d));
  }

  lemma EarlierThan(z: Zone, k: int, w: int, t: int)
    requires OrderedAround(z, k) && w < k * DAY && LocalDay(z, t) >= k
    ensures ToUtc(z, w) <= t
  {
  }

  /** So within the limit the list answers the question at every instant. */
  lemma ListDecides(s: Schedule, now: int, t: int)
    requires OrderedHere(s.zone, now) && !IsScheduleEmpty(s)
    requires now <= t < ListLimit(s.zone, now)
    ensures IsWithinWorkHours(s, t) <==> exists i <- ShiftIntervals(s, now, -1, LOOKAHEAD_DAYS) :: i.Contains(t)
  {
    hide CoveredBy, ShiftIntervals, LocalDay, IsScheduleEmpty, IsWithinWorkHours, ListLimit;
    ScanDecidesTheUnboundedQuestion(s, t);
    ListedCoverage(s, now, -1, LOOKAHEAD_DAYS, t);
    if d :| CoveredBy(s, d, t) {
      ListIsComplete(s, now, d, t);
    }
  }

  /** Beyond the limit the list may miss days, but what it does list is open. */
  lemma ListedIsOpen(s: Schedule, now: int, t: int, i: Interval)
    requires OrderedHere(s.zone, now) && !IsScheduleEmpty(s)
    requires i in ShiftIntervals(s, now, -1, LOOKAHEAD_DAYS) && i.Contains(t)
    ensures IsWithinWorkHours(s, t)
  {
    hide CoveredBy, ShiftIntervals, LocalDay, IsScheduleEmpty, IsWithinWorkHours;
    ScanDecidesTheUnboundedQuestion(s, t);
    ListedCoverage(s, now, -1, LOOKAHEAD_DAYS, t);
  }

  /** Listed intervals begin by the limit. */
  lemma ListedStart(s: Schedule, now: int, i: Interval)
    requires OrderedHere(s.zone, now)
    requires i in ShiftIntervals(s, now, -1, LOOKAHEAD_DAYS)
    ensures i.start < i.end && i.start <= ListLimit(s.zone, now)
  {
    hide WindowsOn, Usable, WallOpen, WallClose, LocalDay, ToUtc, ShiftIntervals, OrderedAround;
    var a := LocalDay(s.zone, now);
    ListedIntervals(s, now, -1, LOOKAHEAD_DAYS, i);
    var d :| a - 1 <= d <= a + LOOKAHEAD_DAYS && Denotes(s, d, i);
    var w :| w in WindowsOn(s, d) && Usable(w) && i == WindowInterval(s, w, d);
    WindowSpan(w, d);
    MidnightSeparates(s.zone, a + LOOKAHEAD_DAYS + 1, WallOpen(w, d));
  }

  /** An opening is the start of the first listed interval to come; no listed interval contains `now`. */
  lemma OpeningIsListed(s: Schedule, now: int)
    requires NextBoundary(s, now).Some? && NextBoundary(s, now).value.opens
    ensures var xs := ShiftIntervals(s, now, -1, LOOKAHEAD_DAYS);
            && !IsScheduleEmpty(s) && FirstContaining(xs, now).None? && FirstAfter(xs, now).Some?
            && NextBoundary(s, now).value.at == FirstAfter(xs, now).value.start
  {
    hide ShiftIntervals, IsScheduleEmpty;
  }

  /** Between `now` and the first start to come, no listed interval contains an instant. */
  lemma NothingBefore(xs: seq<Interval>, now: int, t: int)
    requires SortedByStart(xs) && FirstContaining(xs, now).None? && FirstAfter(xs, now).Some?
    requires now <= t < FirstAfter(xs, now).value.start
    ensures forall i <- xs :: !i.Contains(t)
  {
    FirstAfterIsEarliest(xs, now);
    hide FirstContaining, FirstAfter;
    forall i <- xs
      ensures !i.Contains(t)
    {
      assert !i.Contains(now);
    }
  }

  /** An answer "opens at" is exact, whatever the look-ahead covers. */
  lemma OpeningIsExact(s: Schedule, now: int)
    requires OrderedHere(s.zone, now)
    requires NextBoundary(s, now).Some? && NextBoundary(s, now).value.opens
    ensures BoundaryExact(s, now)
  {
    OpeningIsListed(s, now);
    hide ShiftIntervals, IsScheduleEmpty, IsWithinWorkHours, ListLimit, OrderedHere, NextBoundary;
    hide FirstContaining, FirstAfter;
    var xs := ShiftIntervals(s, now, -1, LOOKAHEAD_DAYS);
    var u := FirstAfter(xs, now).value;
    ListedStart(s, now, u);
    ListedIntervals(s, now, -1, LOOKAHEAD_DAYS, u);
    forall t | now <= t < u.start ensures !IsWithinWorkHours(s, t) {
      NothingBefore(xs, now, t);
      ListDecides(s, now, t);
    }
    ListedIsOpen(s, now, u.start, u);
  }

  /** Whenever somebody is on shift, they stay so up to the reported end, or through the fortnight. */
  lemma ShiftIsCovered(s: Schedule, now: int, current: Interval, t: int)
    requires OrderedHere(s.zone, now) && !IsScheduleEmpty(s)
    requires current in ShiftIntervals(s, now, -1, LOOKAHEAD_DAYS) && current.Contains(now)
    requires now <= t < ChainEnd(ShiftIntervals(s, now, -1, LOOKAHEAD_DAYS), current.end)
    ensures IsWithinWorkHours(s, t)
  {
    hide ShiftIntervals, IsScheduleEmpty, IsWithinWorkHours, OrderedHere;
    var xs := ShiftIntervals(s, now, -1, LOOKAHEAD_DAYS);
    if t < current.end {
      ListedIsOpen(s, now, t, current);
    } else {
      ChainIsCovered(xs, current.end, t);
      var i :| i in xs && i.Contains(t);
      ListedIsOpen(s, now, t, i);
    }
  }

  /** The list reaches far enough for this answer: an opening, a closing before the listed days run out, or none. */
  predicate InReach(s: Schedule, now: int) {
    match NextBoundary(s, now)
    case Some(b) => b.opens || b.at < ListLimit(s.zone, now)
    case None => IsScheduleEmpty(s) || IsWithinWorkHours(s, now) || FortnightFits(s.zone, now)
  }

  lemma FittingIsInReach(s: Schedule, now: int)
    requires FortnightFits(s.zone, now)
    ensures InReach(s, now)
  {
    hide ShiftIntervals, IsWithinWorkHours, ListLimit, IsScheduleEmpty;
  }

  /** A closing reported before the listed days run out is exact, whether or not the fortnight fits. */
  lemma ClosingIsExact(s: Schedule, now: int)
    requires OrderedHere(s.zone, now)
    requires NextBoundary(s, now).Some? && !NextBoundary(s, now).value.opens
    requires NextBoundary(s, now).value.at < ListLimit(s.zone, now)
    ensures BoundaryExact(s, now)
  {
    hide ShiftIntervals, IsScheduleEmpty, IsWithinWorkHours, ListLimit, OrderedHere;
    var xs := ShiftIntervals(s, now, -1, LOOKAHEAD_DAYS);
    var current := FirstContaining(xs, now).value;
    var end := ChainEnd(xs, current.end);
    forall t | now <= t < end ensures IsWithinWorkHours(s, t) {
      ShiftIsCovered(s, now, current, t);
    }
    ListedIntervals(s, now, -1, LOOKAHEAD_DAYS, current);
    ChainIsMaximal(xs, current.end);
    ListDecides(s, now, end);
  }

  /** On shift throughout: no closing is reported when the chain reaches the horizon. */
  lemma ShiftReachesHorizon(s: Schedule, now: int, t: int)
    requires OrderedHere(s.zone, now) && NextBoundary(s, now).None? && IsWithinWorkHours(s, now)
    requires now <= t < now + LOOKAHEAD_DAYS * DAY
    ensures IsWithinWorkHours(s, t)
  {
    hide ShiftIntervals, IsWithinWorkHours, OrderedHere;
    var xs := ShiftIntervals(s, now, -1, LOOKAHEAD_DAYS);
    if IsScheduleEmpty(s) {
      EmptyIsNeverOpen(s, now);
    } else {
      LimitIsAhead(s.zone, now);
      ListDecides(s, now, now);
      ShiftIsCovered(s, now, FirstContaining(xs, now).value, t);
    }
  }

  /** Nobody on shift and nothing listed to come, in a fortnight that fits. */
  lemma NothingToCome(s: Schedule, now: int, t: int)
    requires OrderedHere(s.zone, now) && NextBoundary(s, now).None? && !IsWithinWorkHours(s, now)
    requires FortnightFits(s.zone, now) && now <= t < now + LOOKAHEAD_DAYS * DAY
    ensures !IsWithinWorkHours(s, t)
  {
    hide ShiftIntervals, IsWithinWorkHours, OrderedHere, ListLimit;
    if IsScheduleEmpty(s) {
      EmptyIsNeverOpen(s, t);
    } else {
      ListDecides(s, now, now);
      ListDecides(s, now, t);
    }
  }

  /** Every answer in reach is exact. */
  lemma BoundaryIsExact(s: Schedule, now: int)
    requires OrderedHere(s.zone, now) && InReach(s, now)
    ensures BoundaryExact(s, now)
  {
    hide NextBoundary, IsScheduleEmpty, IsWithinWorkHours, ListLimit, OrderedHere, FortnightFits;
    match NextBoundary(s, now)
    case Some(b) =>
      if b.opens {
        OpeningIsExact(s, now);
      } else {
        ClosingIsExact(s, now);
      }
    case None =>
      forall t | now <= t < now + LOOKAHEAD_DAYS * DAY ensures IsWithinWorkHours(s, t) == IsWithinWorkHours(s, now) {
        if IsScheduleEmpty(s) {
          EmptyIsNeverOpen(s, t);
          EmptyIsNeverOpen(s, now);
        } else if IsWithinWorkHours(s, now) {
          ShiftReachesHorizon(s, now, t);
        } else {
          NothingToCome(s, now, t);
        }
      }
  }

  /* ---- Constancy up to the answer ---- */

  /** The instant of the answer, or the horizon when there is none. */
  function QuietLimit(s: Schedule, now: int): int {
    var b := NextBoundary(s, now);
    if b.Some? then b.value.at else now + LOOKAHEAD_DAYS * DAY
  }

  /** All that constancy needs: only "off shift, and nothing to come" depends on the fortnight. */
  predicate Settled(s: Schedule, now: int) {
    NextBoundary(s, now).Some? || IsScheduleEmpty(s) || IsWithinWorkHours(s, now) || FortnightFits(s.zone, now)
  }

  /** Shift membership does not change before the answer. */
  lemma MembershipIsConstant(s: Schedule, now: int, t: int)
    requires OrderedHere(s.zone, now) && Settled(s, now) && now <= t < QuietLimit(s, now)
    ensures IsWithinWorkHours(s, t) == IsWithinWorkHours(s, now)
  {
    hide IsScheduleEmpty, IsWithinWorkHours, ListLimit, OrderedHere, FortnightFits, ShiftIntervals;
    var b := NextBoundary(s, now);
    if b.Some? && !b.value.opens {
      var xs := ShiftIntervals(s, now, -1, LOOKAHEAD_DAYS);
      ShiftIsCovered(s, now, FirstContaining(xs, now).value, now);
      ShiftIsCovered(s, now, FirstContaining(xs, now).value, t);
    } else {
      BoundaryIsExact(s, now);
    }
  }

  lemma EmptyIsNeverOpen(s: Schedule, t: int)
    requires IsScheduleEmpty(s)
    ensures !IsWithinWorkHours(s, t)
  {
  }

  /* ---- The round-the-clock grid, for which the look-ahead can run out ---- */

  const ALL_DAY := TimeWindow("00:00", "00:00")

  function RoundTheClock(z: Zone): Schedule {
    var ws := [ALL_DAY];
    Schedule(z, map[Mon := ws, Tue := ws, Wed := ws, Thu := ws, Fri := ws, Sat := ws, Sun := ws], [])
  }

  lemma AllDaySpansTheDay(d: int)
    ensures Usable(ALL_DAY) && WallOpen(ALL_DAY, d) == d * DAY && WallClose(ALL_DAY, d) == (d + 1) * DAY
  {
    TimeOfDayRoundTrip(0);
    assert TwoDigits(0) + ":" + TwoDigits(0) == "00:00";
  }

  lemma RoundTheClockIntervals(z: Zone, d: int, i: Interval)
    ensures Denotes(RoundTheClock(z), d, i) <==> i.start < i.end && i == Interval(Midnight(z, d), Midnight(z, d + 1))
    ensures !IsScheduleEmpty(RoundTheClock(z)) && RoundTheClock(z).zone == z
  {
    hide ToUtc, Usable, WallOpen, WallClose, CivilFromDay, DateKey;
    AllDaySpansTheDay(d);
    var s := RoundTheClock(z);
    assert WindowsOn(s, d) == [ALL_DAY];
    assert Mon in s.weekly && ALL_DAY in s.weekly[Mon];
  }

  /** The round-the-clock grid is open at every instant. */
  lemma RoundTheClockIsOpen(z: Zone, t: int)
    requires DayOrdered(z)
    ensures IsWithinWorkHours(RoundTheClock(z), t)
  {
    hide IsWithinWorkHours, LocalDay, ToUtc, Midnight, IsScheduleEmpty, CoveredBy, Denotes;
    var s := RoundTheClock(z);
    var a := LocalDay(z, t);
    DayStartsBy(z, a - 1, t);
    TodayEndsAfter(z, t);
    var d := BetweenMidnights(z, t, a - 1, a + 1);
    var i := Interval(Midnight(z, d), Midnight(z, d + 1));
    RoundTheClockIntervals(z, d, i);
    CoverageIsContainment(s, d, t);
    DayOrderedZonesAreNear(z);
    ScanDecidesTheUnboundedQuestion(s, t);
    assert OpenAt(s, t);
  }

  lemma TodayEndsAfter(z: Zone, t: int)
    requires DayOrdered(z)
    ensures t < Midnight(z, LocalDay(z, t) + 1)
  {
    hide OrderedAround;
    NowIsBeforeTheLimit(z, t, LocalDay(z, t) + 1);
  }

  lemma DayStartsBy(z: Zone, k: int, t: int)
    requires DayOrdered(z) && k < LocalDay(z, t)
    ensures Midnight(z, k) <= t
  {
    assert OrderedAround(z, k + 1);
  }

  lemma RoundTheClockEnd(z: Zone, now: int, i: Interval)
    requires DayOrdered(z) && i in ShiftIntervals(RoundTheClock(z), now, -1, LOOKAHEAD_DAYS)
    ensures i.end <= ListLimit(z, now)
  {
    hide ShiftIntervals, LocalDay, ToUtc, Midnight, Denotes, DayOrdered, RoundTheClock;
    var a := LocalDay(z, now);
    RoundTheClockIntervals(z, a, i);
    ListedIntervals(RoundTheClock(z), now, -1, LOOKAHEAD_DAYS, i);
    var d :| a - 1 <= d <= a + LOOKAHEAD_DAYS && Denotes(RoundTheClock(z), d, i);
    RoundTheClockIntervals(z, d, i);
    MidnightsInOrder(z, d + 1, a + LOOKAHEAD_DAYS + 1);
    assert ListLimit(z, now) == Midnight(z, a + LOOKAHEAD_DAYS + 1);
  }

  /** Its chain of shifts runs exactly to the end of the listed days. */
  lemma RoundTheClockChain(z: Zone, now: int, current: Interval)
    requires DayOrdered(z)
    requires var xs := ShiftIntervals(RoundTheClock(z), now, -1, LOOKAHEAD_DAYS);
             current in xs && current.Contains(now)
    ensures ChainEnd(ShiftIntervals(RoundTheClock(z), now, -1, LOOKAHEAD_DAYS), current.end) == ListLimit(z, now)
  {
    hide ShiftIntervals, LocalDay, ToUtc, Midnight, Denotes, DayOrdered;
    var s := RoundTheClock(z);
    var a := LocalDay(z, now);
    var xs := ShiftIntervals(s, now, -1, LOOKAHEAD_DAYS);
    var end := ChainEnd(xs, current.end);
    forall i <- xs ensures i.end <= ListLimit(z, now) {
      RoundTheClockEnd(z, now, i);
    }
    ListedIntervals(s, now, -1, LOOKAHEAD_DAYS, current);
    ChainIsMaximal(xs, current.end);
    if end < ListLimit(z, now) {
      var i := RoundTheClockAt(z, now, end);
      assert false;
    }
  }

  /** Up to the limit some listed interval of the round-the-clock grid contains any given instant. */
  lemma RoundTheClockAt(z: Zone, now: int, t: int) returns (i: Interval)
    requires DayOrdered(z) && now <= t < ListLimit(z, now)
    ensures i in ShiftIntervals(RoundTheClock(z), now, -1, LOOKAHEAD_DAYS) && i.Contains(t)
  {
    hide ShiftIntervals, LocalDay, ToUtc, Midnight, Denotes, DayOrdered;
    var a := LocalDay(z, now);
    DayStartsBy(z, a - 1, now);
    var d := BetweenMidnights(z, t, a - 1, a + LOOKAHEAD_DAYS + 1);
    i := Interval(Midnight(z, d), Midnight(z, d + 1));
    RoundTheClockIntervals(z, d, i);
    ListedIntervals(RoundTheClock(z), now, -1, LOOKAHEAD_DAYS, i);
  }

  lemma MidnightsInOrder(z: Zone, k: int, k': int)
    requires DayOrdered(z) && k <= k'
    ensures Midnight(z, k) <= Midnight(z, k')
  {
    hide OrderedAround;
    MidnightSeparates(z, k, k' * DAY);
  }

  /** If the fortnight does not fit, the round-the-clock grid is told of a closing that never happens. */
  lemma RunOutIsWrong(z: Zone, now: int)
    requires DayOrdered(z) && !FortnightFits(z, now)
    ensures NextBoundary(RoundTheClock(z), now) == Some(Boundary(ListLimit(z, now), false))
    ensures !BoundaryExact(RoundTheClock(z), now)
  {
    hide ShiftIntervals, LocalDay, ListLimit, IsWithinWorkHours, DayOrdered;
    var s := RoundTheClock(z);
    RoundTheClockIntervals(z, 0, Interval(0, 0));
    RoundTheClockIsOpen(z, now);
    RoundTheClockIsOpen(z, ListLimit(z, now));
    NowIsListed(z, now);
    var xs := ShiftIntervals(s, now, -1, LOOKAHEAD_DAYS);
    RoundTheClockChain(z, now, FirstContaining(xs, now).value);
  }

  lemma NowIsListed(z: Zone, now: int)
    requires DayOrdered(z)
    ensures exists i <- ShiftIntervals(RoundTheClock(z), now, -1, LOOKAHEAD_DAYS) :: i.Contains(now)
  {
    DayOrderedIsOrderedHere(z, now);
    LimitIsAhead(z, now);
    var i := RoundTheClockAt(z, now, now);
  }

  /** With one constant offset the fortnight always fits. */
  lemma ConstantZonesFit(z: Zone, c: int, now: int)
    requires forall t :: z(t) == c
    ensures DayOrdered(z) && FortnightFits(z, now)
  {
    ConstantZonesAreDayOrdered(z, c);
  }

  /**
   A failing input: UTC+2 springing forward to UTC+3 at local midnight of day 10,
   asked at 23:30 on day 0.
   */
  lemma SpringForwardRunsOut()
    ensures var z, now := OnceAt(10 * DAY - 7200000, 7200000, 10800000), 23 * 3600000 + 1800000 - 7200000;
            && DayOrdered(z) && !FortnightFits(z, now)
            && NextBoundary(RoundTheClock(z), now) == Some(Boundary(15 * DAY - 10800000, false))
            && IsWithinWorkHours(RoundTheClock(z), 15 * DAY - 10800000)
  {
    hide IsWithinWorkHours, NextBoundary, DayOrdered;
    var T, a, b := 10 * DAY - 7200000, 7200000, 10800000;
    var z, now := OnceAt(T, a, b), 23 * 3600000 + 1800000 - 7200000;
    forall k ensures KeepsClear(k * DAY, T, a, b) {
    }
    OneTransitionIsDayOrdered(T, a, b);
    assert ListLimit(z, now) == 15 * DAY - 10800000;
    RunOutIsWrong(z, now);
    RoundTheClockIsOpen(z, 15 * DAY - 10800000);
  }

  /* ---- A closed fortnight, after which the look-ahead misses an opening ---- */

  /** Exceptions that close the days from `lo` to `hi`. */
  function ClosedDays(lo: int, hi: int): seq<ScheduleException>
    decreases hi - lo
  {
    if lo > hi then [] else [ScheduleException(DateKey(CivilFromDay(lo)), true, None)] + ClosedDays(lo + 1, hi)
  }

  /** Round the clock, but for the day before day `a`, day `a` and the fortnight that follows. */
  function ClosedFortnight(z: Zone, a: int): Schedule {
    RoundTheClock(z).(exceptions := ClosedDays(a - 1, a + LOOKAHEAD_DAYS))
  }

  lemma {:induction false} ClosedDayFound(lo: int, hi: int, d: int)
    ensures var e := FindException(ClosedDays(lo, hi), DateKey(CivilFromDay(d)));
            if lo <= d <= hi then e.Some? && e.value.closed else e.None?
    decreases hi - lo
  {
    hide DateKey, CivilFromDay;
    if lo <= hi {
      ClosedDayFound(lo + 1, hi, d);
      if d != lo {
        DayKeysDiffer(d, lo);
      }
    }
  }

  lemma ClosedFortnightIntervals(z: Zone, a: int, d: int, i: Interval)
    ensures Denotes(ClosedFortnight(z, a), d, i) <==>
            !(a - 1 <= d <= a + LOOKAHEAD_DAYS) && i.start < i.end && i == Interval(Midnight(z, d), Midnight(z, d + 1))
    ensures !IsScheduleEmpty(ClosedFortnight(z, a)) && ClosedFortnight(z, a).zone == z
  {
    hide ToUtc, Usable, WallOpen, WallClose, CivilFromDay, DateKey, ClosedDays, FindException;
    AllDaySpansTheDay(d);
    var s := ClosedFortnight(z, a);
    ClosedDayFound(a - 1, a + LOOKAHEAD_DAYS, d);
    assert WindowsOn(s, d) == if a - 1 <= d <= a + LOOKAHEAD_DAYS then [] else [ALL_DAY];
    assert Mon in s.weekly && ALL_DAY in s.weekly[Mon];
  }

  /** Nothing is listed, so nothing is reported, and nobody is on shift. */
  lemma ClosedFortnightIsQuiet(z: Zone, now: int)
    ensures NextBoundary(ClosedFortnight(z, LocalDay(z, now)), now).None?
    ensures !IsWithinWorkHours(ClosedFortnight(z, LocalDay(z, now)), now)
  {
    hide ShiftIntervals, Denotes, LocalDay, Midnight, IsScheduleEmpty, ClosedFortnight;
    var a := LocalDay(z, now);
    var s := ClosedFortnight(z, a);
    ClosedFortnightIntervals(z, a, 0, Interval(0, 0));
    forall i, to | to in {1, LOOKAHEAD_DAYS}
      ensures i !in ShiftIntervals(s, now, -1, to)
    {
      ListedIntervals(s, now, -1, to, i);
      if d :| a - 1 <= d <= a + to && Denotes(s, d, i) {
        ClosedFortnightIntervals(z, a, d, i);
      }
    }
  }

  /** Some midnight lies after the limit of the list. */
  lemma LaterMidnight(z: Zone, now: int) returns (k: int)
    requires Bounded(z, DAY) || DayOrdered(z)
    ensures LocalDay(z, now) + LOOKAHEAD_DAYS + 1 < k && ListLimit(z, now) < Midnight(z, k)
  {
    var first, t := LocalDay(z, now) + LOOKAHEAD_DAYS + 1, ListLimit(z, now);
    if Bounded(z, DAY) {
      k := first + 3;
      WithinADay(z, first * DAY, t);
      WithinADay(z, k * DAY, t);
    } else {
      hide OrderedAround, Midnight;
      k := LocalDay(z, t) + 1;
      TodayEndsAfter(z, t);
      MidnightSeparates(z, first, 0);
    }
  }

  lemma ClosedFortnightCovers(z: Zone, a: int, d: int, t: int)
    requires Near(z) && a + LOOKAHEAD_DAYS < d && Midnight(z, d) <= t < Midnight(z, d + 1)
    ensures IsWithinWorkHours(ClosedFortnight(z, a), t)
  {
    hide IsWithinWorkHours, LocalDay, ToUtc, Midnight, IsScheduleEmpty, CoveredBy, Denotes, ClosedFortnight, Near;
    var s := ClosedFortnight(z, a);
    ClosedFortnightIntervals(z, a, d, Interval(Midnight(z, d), Midnight(z, d + 1)));
    CoverageIsContainment(s, d, t);
    ScanDecidesTheUnboundedQuestion(s, t);
    assert OpenAt(s, t);
  }

  /** Yet at the limit of the list it opens. */
  lemma ClosedFortnightOpens(z: Zone, now: int)
    requires OrderedHere(z, now) && (Bounded(z, DAY) || DayOrdered(z))
    ensures IsWithinWorkHours(ClosedFortnight(z, LocalDay(z, now)), ListLimit(z, now))
  {
    hide IsWithinWorkHours, LocalDay, Midnight, ClosedFortnight, DayOrdered, OrderedAround, Bounded, Near;
    var k := LaterMidnight(z, now);
    var a := LocalDay(z, now);
    var d := BetweenMidnights(z, ListLimit(z, now), a + LOOKAHEAD_DAYS + 1, k);
    ClosedFortnightCovers(z, a, d, ListLimit(z, now));
  }

  lemma LimitIsAhead(z: Zone, now: int)
    requires OrderedHere(z, now)
    ensures now < ListLimit(z, now)
  {
    hide OrderedAround;
    NowIsBeforeTheLimit(z, now, LocalDay(z, now) + LOOKAHEAD_DAYS + 1);
  }

  /**
   The exact scope of the documented promise: `nextBoundary` is right for every schedule of a
   zone at `now` if and only if midnight of the fifteenth day ahead is not before `now + 14 days`.
   */
  lemma ExactForEverySchedule(z: Zone, now: int)
    requires OrderedHere(z, now) && (Bounded(z, DAY) || DayOrdered(z))
    ensures FortnightFits(z, now) <==> forall s: Schedule :: s.zone == z ==> BoundaryExact(s, now)
  {
    if FortnightFits(z, now) {
      forall s: Schedule | s.zone == z ensures BoundaryExact(s, now) {
        FittingIsInReach(s, now);
        BoundaryIsExact(s, now);
      }
    } else {
      ClosedFortnightIsWrong(z, now);
    }
  }

  /** If the fortnight does not fit, an opening after a closed fortnight goes unreported. */
  lemma ClosedFortnightIsWrong(z: Zone, now: int)
    requires OrderedHere(z, now) && (Bounded(z, DAY) || DayOrdered(z)) && !FortnightFits(z, now)
    ensures var s := ClosedFortnight(z, LocalDay(z, now));
            && s.zone == z && !BoundaryExact(s, now)
            && now <= ListLimit(z, now) < QuietLimit(s, now)
            && !IsWithinWorkHours(s, now) && IsWithinWorkHours(s, ListLimit(z, now))
  {
    hide IsWithinWorkHours, DayOrdered, OrderedHere, NextBoundary, ListLimit, ClosedFortnight, IsScheduleEmpty, Bounded;
    ClosedFortnightIntervals(z, LocalDay(z, now), 0, Interval(0, 0));
    ClosedFortnightIsQuiet(z, now);
    ClosedFortnightOpens(z, now);
    LimitIsAhead(z, now);
  }

  /** Membership is constant up to every answer, for all schedules of a zone, exactly when the fortnight fits. */
  lemma ConstantForEverySchedule(z: Zone, now: int)
    requires OrderedHere(z, now) && (Bounded(z, DAY) || DayOrdered(z))
    ensures FortnightFits(z, now) <==>
            forall s: Schedule, t :: s.zone == z && now <= t < QuietLimit(s, now) ==>
              IsWithinWorkHours(s, t) == IsWithinWorkHours(s, now)
  {
    hide IsWithinWorkHours, DayOrdered, OrderedHere, NextBoundary, ListLimit, ClosedFortnight, IsScheduleEmpty, Bounded;
    if FortnightFits(z, now) {
      forall s: Schedule, t | s.zone == z && now <= t < QuietLimit(s, now)
        ensures IsWithinWorkHours(s, t) == IsWithinWorkHours(s, now)
      {
        MembershipIsConstant(s, now, t);
      }
    } else {
      ClosedFortnightIsWrong(z, now);
    }
  }

  /** UTC-5 springing forward at local midnight of day 10: that midnight does not exist. */
  function SkippedMidnight(): Zone {
    OnceAt(10 * DAY + 5 * 3600000, -5 * 3600000, -4 * 3600000)
  }

  lemma SkippedMidnightIsNear()
    ensures Near(SkippedMidnight())
  {
    forall d, o, len, t ensures NearWindow(SkippedMidnight(), d, o, len, t) {
    }
  }

  lemma OtherMidnightsAreOrdered(k: int)
    requires k != 10
    ensures OrderedAround(SkippedMidnight(), k)
  {
    assert KeepsClear(k * DAY, 10 * DAY + 5 * 3600000, -5 * 3600000, -4 * 3600000);
    var z, r := SkippedMidnight(), 5 * 3600000;
    var m := k * DAY;
    var T, a, b := 10 * DAY + 5 * 3600000, -5 * 3600000, -4 * 3600000;
    assert ClearTransition(z, m, r, T, a, b);
    forall w, t | w < m && LocalDay(z, t) >= k ensures ToUtc(z, w) <= t {
      EarlierWallTime(z, r, m, w, t, T, a, b);
    }
    forall w, t | m <= w && LocalDay(z, t) < k ensures t < ToUtc(z, w) {
      LaterWallTime(z, r, m, w, t, T, a, b);
    }
    forall w | m <= w ensures Midnight(z, k) <= ToUtc(z, w) {
      MidnightIsFirst(z, r, m, w, T, a, b);
    }
  }

  /** Such a zone still answers as the theorems ask, on all days but the skipped one and the one fifteen days before. */
  lemma SkippedMidnightIsOrderedElsewhere(now: int)
    requires LocalDay(SkippedMidnight(), now) != 10 && LocalDay(SkippedMidnight(), now) != 10 - LOOKAHEAD_DAYS - 1
    ensures OrderedHere(SkippedMidnight(), now) && Bounded(SkippedMidnight(), DAY)
  {
    hide OrderedAround, Near, LocalDay;
    SkippedMidnightIsNear();
    OtherMidnightsAreOrdered(LocalDay(SkippedMidnight(), now));
    OtherMidnightsAreOrdered(LocalDay(SkippedMidnight(), now) + LOOKAHEAD_DAYS + 1);
  }
}
