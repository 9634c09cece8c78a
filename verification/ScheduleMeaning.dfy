/**
 What a schedule says in its own words, and the two questions answered in those words: which
 windows are in force on a day, when somebody is on shift, and when that changes next.
 */
module ScheduleMeaning {
  import opened Options
  import opened Civil
  import opened Zones
  import opened WorkHours
  import opened Boundaries

  /** Entry `k` is the first exception for day `d`. */
  ghost predicate FirstDated(es: seq<ScheduleException>, k: nat, d: int) {
    && k < |es| && es[k].date == DateKey(CivilFromDay(d))
    && forall j :: 0 <= j < k ==> es[j].date != DateKey(CivilFromDay(d))
  }

  ghost predicate NoneDated(es: seq<ScheduleException>, d: int) {
    forall e <- es :: e.date != DateKey(CivilFromDay(d))
  }

  /** A window of the weekday that day `d` falls on. */
  predicate InWeek(s: Schedule, d: int, w: TimeWindow) {
    WeekdayOf(d) in s.weekly && w in s.weekly[WeekdayOf(d)]
  }

  /**
   The first exception dated `d` governs the day: closed, it has no window; with windows of its
   own, even with none, it has those; without, it has the weekday's. Undated days have the weekday's.
   */
  ghost predicate InForce(s: Schedule, d: int, w: TimeWindow) {
    || (NoneDated(s.exceptions, d) && InWeek(s, d, w))
    || (exists k: nat :: k < |s.exceptions| && FirstDated(s.exceptions, k, d) && ByException(s, s.exceptions[k], d, w))
  }

  predicate ByException(s: Schedule, e: ScheduleException, d: int, w: TimeWindow) {
    !e.closed && (if e.windows.Some? then w in e.windows.value else InWeek(s, d, w))
  }

  lemma {:induction false} FindsFirstDated(es: seq<ScheduleException>, d: int)
    ensures var r := FindException(es, DateKey(CivilFromDay(d)));
            && (r.None? <==> NoneDated(es, d))
            && (r.Some? ==> exists k: nat :: k < |es| && FirstDated(es, k, d) && es[k] == r.value)
  {
    hide DateKey, CivilFromDay;
    if es != [] {
      var key := DateKey(CivilFromDay(d));
      if es[0].date == key {
        assert FirstDated(es, 0, d);
      } else {
        FindsFirstDated(es[1..], d);
        assert es == [es[0]] + es[1..];
        if FindException(es[1..], key).Some? {
          var k: nat :| k < |es[1..]| && FirstDated(es[1..], k, d) && es[1..][k] == FindException(es, key).value;
          OneEntryLater(es, k, d);
        }
      }
    }
  }

  lemma OneEntryLater(es: seq<ScheduleException>, k: nat, d: int)
    requires es != [] && es[0].date != DateKey(CivilFromDay(d)) && FirstDated(es[1..], k, d)
    ensures FirstDated(es, k + 1, d) && es[k + 1] == es[1..][k]
  {
    hide DateKey, CivilFromDay;
    forall j | 0 <= j < k + 1
      ensures es[j].date != DateKey(CivilFromDay(d))
    {
      assert j > 0 ==> es[j] == es[1..][j - 1];
    }
  }

  lemma FirstDatedIsUnique(es: seq<ScheduleException>, j: nat, k: nat, d: int)
    requires FirstDated(es, j, d) && FirstDated(es, k, d)
    ensures j == k && !NoneDated(es, d)
  {
    hide DateKey, CivilFromDay;
    assert es[j] in es;
  }

  /** The windows of a day are those in force. */
  lemma WindowsAreInForce(s: Schedule, d: int, w: TimeWindow)
    ensures w in WindowsOn(s, d) <==> InForce(s, d, w)
  {
    FindsFirstDated(s.exceptions, d);
    hide FindException, DateKey, CivilFromDay, WeekdayOf, FirstDated, NoneDated;
    var r := FindException(s.exceptions, DateKey(CivilFromDay(d)));
    if r.Some? {
      var k: nat :| k < |s.exceptions| && FirstDated(s.exceptions, k, d) && s.exceptions[k] == r.value;
      if j: nat :| j < |s.exceptions| && FirstDated(s.exceptions, j, d) && ByException(s, s.exceptions[j], d, w) {
        FirstDatedIsUnique(s.exceptions, j, k, d);
      }
    } else if j: nat :| FirstDated(s.exceptions, j, d) {
      FirstDatedIsUnique(s.exceptions, j, j, d);
    }
  }

  /** Listed intervals are those of the usable windows in force, with a positive length. */
  lemma IntervalsAreInForce(s: Schedule, d: int, i: Interval)
    ensures Denotes(s, d, i) <==>
            i.start < i.end && exists w :: InForce(s, d, w) && Usable(w) && i == WindowInterval(s, w, d)
  {
    hide InForce, WindowsOn, Usable, WindowInterval;
    forall w: TimeWindow
      ensures w in WindowsOn(s, d) <==> InForce(s, d, w)
    {
      WindowsAreInForce(s, d, w);
    }
  }

  /** A window in force on some day from `lo` to `hi` covers the instant. */
  ghost predicate Spanned(s: Schedule, lo: int, hi: int, t: int) {
    exists d, w :: lo <= d <= hi && SpannedBy(s, d, w, t)
  }

  ghost predicate SpannedBy(s: Schedule, d: int, w: TimeWindow, t: int) {
    InForce(s, d, w) && Usable(w) && ToUtc(s.zone, WallOpen(w, d)) <= t < ToUtc(s.zone, WallClose(w, d))
  }

  /** Some weekday has a window both ends of which are times of day. */
  predicate HasUsableWindow(s: Schedule) {
    exists day <- s.weekly.Keys, w <- s.weekly[day] :: Usable(w)
  }

  lemma CoveredIsSpanned(s: Schedule, d: int, t: int)
    ensures CoveredBy(s, d, t) <==> exists w :: SpannedBy(s, d, w, t)
  {
    hide InForce, WindowsOn, Usable, ToUtc, WallOpen, WallClose;
    if CoveredBy(s, d, t) {
      var w :| w in WindowsOn(s, d) && Usable(w)
        && ToUtc(s.zone, WallOpen(w, d)) <= t < ToUtc(s.zone, WallClose(w, d));
      WindowsAreInForce(s, d, w);
      assert SpannedBy(s, d, w, t);
    }
    if w :| SpannedBy(s, d, w, t) {
      WindowsAreInForce(s, d, w);
    }
  }

  lemma ListedIsSpanned(s: Schedule, anchor: int, from: int, to: int, t: int)
    ensures (exists i <- ShiftIntervals(s, anchor, from, to) :: i.Contains(t)) <==>
            Spanned(s, LocalDay(s.zone, anchor) + from, LocalDay(s.zone, anchor) + to, t)
  {
    hide CoveredBy, ShiftIntervals, LocalDay, SpannedBy;
    ListedCoverage(s, anchor, from, to, t);
    var lo, hi := LocalDay(s.zone, anchor) + from, LocalDay(s.zone, anchor) + to;
    if d :| lo <= d <= hi && CoveredBy(s, d, t) {
      CoveredIsSpanned(s, d, t);
    }
    if d, w :| lo <= d <= hi && SpannedBy(s, d, w, t) {
      CoveredIsSpanned(s, d, t);
    }
  }

  /** On shift: there is a usable week, and a window in force on the day before, the day or the day after covers `t`. */
  lemma OnShiftMeans(s: Schedule, t: int)
    ensures IsWithinWorkHours(s, t) <==>
            HasUsableWindow(s) && Spanned(s, LocalDay(s.zone, t) - 1, LocalDay(s.zone, t) + 1, t)
  {
    hide ShiftIntervals, LocalDay, Spanned, Usable;
    ListedIsSpanned(s, t, -1, 1, t);
  }

  /** In near zones: a window in force on any day at all covers it. */
  lemma OnShiftMeansAnyDay(s: Schedule, t: int)
    requires Near(s.zone)
    ensures IsWithinWorkHours(s, t) <==> HasUsableWindow(s) && exists d, w :: SpannedBy(s, d, w, t)
  {
    hide IsWithinWorkHours, CoveredBy, SpannedBy, Near, Usable;
    ScanDecidesTheUnboundedQuestion(s, t);
    if d :| CoveredBy(s, d, t) {
      CoveredIsSpanned(s, d, t);
    }
    if d, w :| SpannedBy(s, d, w, t) {
      CoveredIsSpanned(s, d, t);
    }
  }

  /* ---- The next boundary is the first flip within the listed days ---- */

  ghost predicate OnList(s: Schedule, now: int, t: int) {
    Spanned(s, LocalDay(s.zone, now) - 1, LocalDay(s.zone, now) + 14, t)
  }

  /** The first instant after `now` at which the listed windows change, closings only within 14 days. */
  ghost predicate FirstFlip(s: Schedule, now: int, b: Boundary) {
    && now < b.at
    && OnList(s, now, b.at) == b.opens
    && (forall t :: now <= t < b.at ==> OnList(s, now, t) == !b.opens)
    && (b.opens || b.at < now + 14 * DAY)
  }

  lemma OnListMeans(s: Schedule, now: int, t: int)
    ensures OnList(s, now, t) <==> exists i <- ShiftIntervals(s, now, -1, LOOKAHEAD_DAYS) :: i.Contains(t)
  {
    hide ShiftIntervals, LocalDay, Spanned;
    ListedIsSpanned(s, now, -1, LOOKAHEAD_DAYS, t);
  }

  /** What is reported is such a flip. */
  lemma ReportedIsFirstFlip(s: Schedule, now: int)
    requires NextBoundary(s, now).Some?
    ensures FirstFlip(s, now, NextBoundary(s, now).value) && HasUsableWindow(s)
  {
    hide ShiftIntervals, OnList, Usable;
    var xs := ShiftIntervals(s, now, -1, LOOKAHEAD_DAYS);
    SortedList(s, now);
    var b := NextBoundary(s, now).value;
    OnListMeans(s, now, b.at);
    forall t | now <= t < b.at
      ensures OnList(s, now, t) == !b.opens
    {
      OnListMeans(s, now, t);
      if b.opens {
        NothingBefore(xs, now, t);
      } else {
        ListedUpToEnd(xs, now, t);
      }
    }
    if b.opens {
      PositiveList(s, now, FirstAfter(xs, now).value);
    } else {
      ChainIsMaximal(xs, FirstContaining(xs, now).value.end);
    }
  }

  lemma SortedList(s: Schedule, now: int)
    ensures SortedByStart(ShiftIntervals(s, now, -1, LOOKAHEAD_DAYS))
  {
    hide ShiftIntervals, Denotes;
    ListedIntervals(s, now, -1, LOOKAHEAD_DAYS, Interval(0, 0));
  }

  lemma PositiveList(s: Schedule, now: int, i: Interval)
    requires i in ShiftIntervals(s, now, -1, LOOKAHEAD_DAYS)
    ensures i.start < i.end
  {
    hide ShiftIntervals, WindowsOn;
    ListedIntervals(s, now, -1, LOOKAHEAD_DAYS, i);
  }

  lemma ListedUpToEnd(xs: seq<Interval>, now: int, t: int)
    requires FirstContaining(xs, now).Some?
    requires now <= t < ChainEnd(xs, FirstContaining(xs, now).value.end)
    ensures exists i <- xs :: i.Contains(t)
  {
    var current := FirstContaining(xs, now).value;
    if t >= current.end {
      ChainIsCovered(xs, current.end, t);
    } else {
      assert current.Contains(t);
    }
  }

  /** There is at most one first flip. */
  lemma FlipIsUnique(s: Schedule, now: int, b: Boundary, c: Boundary)
    requires FirstFlip(s, now, b) && FirstFlip(s, now, c)
    ensures b == c
  {
    hide OnList;
    assert OnList(s, now, now) == !b.opens == !c.opens;
    assert b.at < c.at ==> OnList(s, now, b.at) == !c.opens;
    assert c.at < b.at ==> OnList(s, now, c.at) == !b.opens;
  }

  /** With nothing reported there is no flip. */
  lemma NothingReported(s: Schedule, now: int, b: Boundary)
    requires NextBoundary(s, now).None? && HasUsableWindow(s)
    ensures !FirstFlip(s, now, b)
  {
    hide ShiftIntervals, OnList, Usable;
    var xs := ShiftIntervals(s, now, -1, LOOKAHEAD_DAYS);
    OnListMeans(s, now, now);
    OnListMeans(s, now, b.at);
    if FirstContaining(xs, now).Some? {
      if now <= b.at < now + LOOKAHEAD_DAYS * DAY {
        ListedUpToEnd(xs, now, b.at);
      }
    } else if i :| i in xs && i.Contains(b.at) {
      assert !i.Contains(now) && i.start <= now;
    }
  }

  /** `nextBoundary` reports exactly the first flip of the listed windows. */
  lemma NextBoundaryIsFirstFlip(s: Schedule, now: int, b: Boundary)
    ensures NextBoundary(s, now) == Some(b) <==> HasUsableWindow(s) && FirstFlip(s, now, b)
  {
    hide FirstFlip, Usable;
    if NextBoundary(s, now).Some? {
      hide NextBoundary;
      ReportedIsFirstFlip(s, now);
      if FirstFlip(s, now, b) {
        FlipIsUnique(s, now, b, NextBoundary(s, now).value);
      }
    } else if HasUsableWindow(s) {
      hide NextBoundary;
      NothingReported(s, now, b);
    }
  }

  /* ---- Closed days ---- */

  /** A day whose exception is closed, or carries an empty list of windows, has no window of its own. */
  lemma EmptyExceptionCloses(s: Schedule, k: nat, d: int, i: Interval)
    requires FirstDated(s.exceptions, k, d)
    requires s.exceptions[k].closed || s.exceptions[k].windows == Some([])
    ensures !Denotes(s, d, i)
  {
    hide FirstDated, NoneDated, InWeek, Denotes, WindowInterval;
    IntervalsAreInForce(s, d, i);
    forall w
      ensures !InForce(s, d, w)
    {
      if j: nat :| j < |s.exceptions| && FirstDated(s.exceptions, j, d) && ByException(s, s.exceptions[j], d, w) {
        FirstDatedIsUnique(s.exceptions, j, k, d);
      }
      FirstDatedIsUnique(s.exceptions, k, k, d);
    }
  }
}
