/**
 Weekly schedules with dated exceptions, and the question "open at this instant?"
 (packages/shared/src/work-hours.ts).
 */
module WorkHours {
  import opened Characters
  import opened Options
  import opened Civil
  import opened Zones

  /** A wall-clock window, as text. */
  datatype TimeWindow = TimeWindow(open: string, close: string)

  datatype ScheduleException = ScheduleException(date: string, closed: bool, windows: Option<seq<TimeWindow>>)

  datatype Schedule = Schedule(zone: Zone, weekly: map<DayKey, seq<TimeWindow>>, exceptions: seq<ScheduleException>)

  datatype Interval = Interval(start: int, end: int) {
    predicate Contains(t: int) { start <= t < end }
  }

  /* ---- Times of day ---- */

  function DigitValue(c: char): nat
    requires IsDigit(c)
  {
    c as int - '0' as int
  }

  function Trim(s: string): string {
    if s == [] then s
    else if IsSpace(s[0]) then Trim(s[1..])
    else if IsSpace(s[|s| - 1]) then Trim(s[..|s| - 1])
    else s
  }

  /** A colon and two digits. */
  predicate IsColonPair(s: string) {
    |s| == 3 && s[0] == ':' && IsDigit(s[1]) && IsDigit(s[2])
  }

  /** `HH:MM` or `HH:MM:SS` to minutes past midnight; none if the text is not a time of day. */
  function ParseTimeOfDay(value: string): (r: Option<nat>)
    ensures r.Some? ==> r.value < 1440
  {
    var s := Trim(value);
    var n := if |s| >= 2 && s[1] == ':' then 1 else 2;
    if |s| < n + 3 || !(forall i :: 0 <= i < n ==> IsDigit(s[i])) then None
    else
      var rest := s[n..];
      if !(IsColonPair(rest) || (|rest| == 6 && IsColonPair(rest[..3]) && IsColonPair(rest[3..]))) then None
      else
        var h := if n == 1 then DigitValue(s[0]) else 10 * DigitValue(s[0]) + DigitValue(s[1]);
        var min := 10 * DigitValue(rest[1]) + DigitValue(rest[2]);
        if h > 23 || min > 59 then None else Some(h * 60 + min)
  }

  /** The number of one or two digits. */
  function DigitsValue(t: string): nat
    requires t != "" && forall c <- t :: IsDigit(c)
  {
    if |t| == 1 then DigitValue(t[0]) else 10 * DigitValue(t[0]) + DigitValue(t[1])
  }

  /** A text made up of an hour, a pair of minutes and, if at all, a pair of seconds, reading as minute `m`. */
  predicate ReadsAs(t: string, hour: string, minutes: string, seconds: string, m: int) {
    && t == hour + minutes + seconds
    && 1 <= |hour| <= 2 && (forall c <- hour :: IsDigit(c)) && DigitsValue(hour) <= 23
    && IsColonPair(minutes) && DigitsValue(minutes[1..]) <= 59
    && (seconds == "" || IsColonPair(seconds))
    && m == DigitsValue(hour) * 60 + DigitsValue(minutes[1..])
  }

  /** The texts that parse are those of the form H:MM or HH:MM, with seconds or without, and only blanks around. */
  lemma ParsesExactlyTheTimes(value: string, m: nat)
    ensures ParseTimeOfDay(value) == Some(m) <==>
            exists hour, minutes, seconds :: ReadsAs(Trim(value), hour, minutes, seconds, m)
  {
    hide Trim;
    var t := Trim(value);
    if ParseTimeOfDay(value) == Some(m) {
      ParsedParts(value, m);
    }
    if hour, minutes, seconds :| ReadsAs(t, hour, minutes, seconds, m) {
      PartsParse(value, hour, minutes, seconds, m);
    }
  }

  lemma ParsedParts(value: string, m: nat)
    requires ParseTimeOfDay(value) == Some(m)
    ensures exists hour, minutes, seconds :: ReadsAs(Trim(value), hour, minutes, seconds, m)
  {
    hide Trim;
    var t := Trim(value);
    var n := if |t| >= 2 && t[1] == ':' then 1 else 2;
    CutInThree(t, n);
    DigitsInFront(t, n);
    if |t[n..]| == 3 {
      assert t[n..][..3] == t[n..];
    }
    assert ReadsAs(t, t[..n], t[n..n + 3], t[n + 3..], m);
  }

  lemma DigitsInFront(t: string, n: nat)
    requires n <= |t| && forall i :: 0 <= i < n ==> IsDigit(t[i])
    ensures forall c <- t[..n] :: IsDigit(c)
  {
    hide IsDigit;
  }

  lemma CutInThree(t: string, n: nat)
    requires n + 3 <= |t|
    ensures t == t[..n] + t[n..n + 3] + t[n + 3..]
    ensures t[n..][..3] == t[n..n + 3] && t[n..][3..] == t[n + 3..]
  {
    assert t == t[..n] + t[n..];
    assert t[n..] == t[n..n + 3] + t[n + 3..];
  }

  lemma PartsParse(value: string, hour: string, minutes: string, seconds: string, m: nat)
    requires ReadsAs(Trim(value), hour, minutes, seconds, m)
    ensures ParseTimeOfDay(value) == Some(m)
  {
    hide Trim;
    var t := Trim(value);
    var n := |hour|;
    assert forall i :: 0 <= i < n ==> t[i] == hour[i] && hour[i] in hour;
    assert t[n] == ':' && !IsDigit(':');
    assert t[n..] == minutes + seconds;
    assert (minutes + seconds)[..3] == minutes && (minutes + seconds)[3..] == seconds;
    assert seconds == "" ==> t[n..] == minutes;
  }

  function TwoDigits(n: nat): string
    requires n < 100
  {
    [(n / 10 + '0' as int) as char, (n % 10 + '0' as int) as char]
  }

  /** Every minute of the day can be written, and reads back as itself. */
  lemma TimeOfDayRoundTrip(m: nat)
    requires m < 1440
    ensures ParseTimeOfDay(TwoDigits(m / 60) + ":" + TwoDigits(m % 60)) == Some(m)
  {
    var s := TwoDigits(m / 60) + ":" + TwoDigits(m % 60);
    assert Trim(s) == s;
    assert IsColonPair(s[2..]);
  }

  /** A window that the calculus can use: both ends parse. */
  predicate Usable(w: TimeWindow) {
    ParseTimeOfDay(w.open).Some? && ParseTimeOfDay(w.close).Some?
  }

  /** `isScheduleEmpty`: no usable window on any weekday. */
  predicate IsScheduleEmpty(s: Schedule) {
    forall d <- s.weekly.Keys, w <- s.weekly[d] :: !Usable(w)
  }

  /* ---- The windows of a civil day ---- */

  /** `find`: the first exception dated `key`. */
  function FindException(es: seq<ScheduleException>, key: string): Option<ScheduleException> {
    if es == [] then None
    else if es[0].date == key then Some(es[0])
    else FindException(es[1..], key)
  }

  /** `windowsForDay`: a dated exception closes the day or replaces its windows. */
  function WindowsForDay(s: Schedule, key: string, day: DayKey): seq<TimeWindow> {
    var weekday := if day in s.weekly then s.weekly[day] else [];
    match FindException(s.exceptions, key)
    case None => weekday
    case Some(e) =>
      if e.closed then []
      else if e.windows.Some? then e.windows.value
      else weekday
  }

  /** The windows in force on day number `d`. */
  function WindowsOn(s: Schedule, d: int): seq<TimeWindow> {
    WindowsForDay(s, DateKey(CivilFromDay(d)), WeekdayOf(d))
  }

  /** The wall times at which a window of day `d` begins and ends; a close at or before the open spills over. */
  function WallOpen(w: TimeWindow, d: int): int
    requires Usable(w)
  {
    d * DAY + ParseTimeOfDay(w.open).value * MINUTE
  }

  function WallClose(w: TimeWindow, d: int): int
    requires Usable(w)
  {
    var open, close := ParseTimeOfDay(w.open).value, ParseTimeOfDay(w.close).value;
    d * DAY + (if close > open then close else close + 1440) * MINUTE
  }

  /** What the schedule means, over all civil days and with no scan range: some window covers `t`. */
  ghost predicate CoveredBy(s: Schedule, d: int, t: int) {
    exists w <- WindowsOn(s, d) :: Usable(w) && ToUtc(s.zone, WallOpen(w, d)) <= t < ToUtc(s.zone, WallClose(w, d))
  }

  ghost predicate OpenAt(s: Schedule, t: int) {
    !IsScheduleEmpty(s) && exists d :: CoveredBy(s, d, t)
  }

  /* ---- Expanding the schedule to intervals ---- */

  /** The UTC intervals of a list of windows on the date `c`, in list order. */
  function IntervalsOf(z: Zone, c: Date, ws: seq<TimeWindow>): seq<Interval>
    requires c.Valid()
  {
    if ws == [] then []
    else
      var rest := IntervalsOf(z, c, ws[1..]);
      var open, close := ParseTimeOfDay(ws[0].open), ParseTimeOfDay(ws[0].close);
      if open.None? || close.None? then rest
      else
        var start := ZonedTimeToUtc(z, c, open.value);
        var end := ZonedTimeToUtc(z, c, if close.value > open.value then close.value else close.value + 1440);
        if end > start then [Interval(start, end)] + rest else rest
  }

  function DayIntervals(s: Schedule, d: int): seq<Interval> {
    IntervalsOf(s.zone, CivilFromDay(d), WindowsOn(s, d))
  }

  /** The intervals of days `d` to `last`, day by day. */
  function IntervalsFrom(s: Schedule, d: int, last: int): seq<Interval>
    decreases last - d
  {
    if d > last then [] else DayIntervals(s, d) + IntervalsFrom(s, d + 1, last)
  }

  predicate SortedByStart(xs: seq<Interval>) {
    forall i, j :: 0 <= i < j < |xs| ==> xs[i].start <= xs[j].start
  }

  /** Stable insertion into a sorted list: the engine's `sort` by start. */
  function Insert(x: Interval, xs: seq<Interval>): seq<Interval> {
    if xs == [] || x.start <= xs[0].start then [x] + xs
    else [xs[0]] + Insert(x, xs[1..])
  }

  function SortByStart(xs: seq<Interval>): seq<Interval> {
    if xs == [] then [] else Insert(xs[0], SortByStart(xs[1..]))
  }

  lemma {:induction false} InsertKeepsElements(x: Interval, xs: seq<Interval>)
    ensures multiset(Insert(x, xs)) == multiset(xs) + multiset{x}
    ensures forall e :: e in Insert(x, xs) <==> e == x || e in xs
  {
    if xs != [] && !(x.start <= xs[0].start) {
      InsertKeepsElements(x, xs[1..]);
      assert xs == [xs[0]] + xs[1..];
    }
  }

  lemma {:induction false} InsertKeepsOrder(x: Interval, xs: seq<Interval>)
    requires SortedByStart(xs)
    ensures SortedByStart(Insert(x, xs))
  {
    if xs != [] && !(x.start <= xs[0].start) {
      InsertKeepsOrder(x, xs[1..]);
      InsertKeepsElements(x, xs[1..]);
      var rest := Insert(x, xs[1..]);
      assert forall e :: e in rest ==> xs[0].start <= e.start;
      assert forall i :: 0 <= i < |rest| ==> rest[i] in rest;
    }
  }

  /** Sorting orders the intervals and neither loses nor invents one. */
  lemma {:induction false} SortByStartSorts(xs: seq<Interval>)
    ensures SortedByStart(SortByStart(xs))
    ensures multiset(SortByStart(xs)) == multiset(xs)
  {
    if xs != [] {
      SortByStartSorts(xs[1..]);
      InsertKeepsOrder(xs[0], SortByStart(xs[1..]));
      InsertKeepsElements(xs[0], SortByStart(xs[1..]));
      assert xs == [xs[0]] + xs[1..];
    }
  }

  /** `shiftIntervals`: the intervals of the civil days around the one containing `anchor`, sorted by start. */
  function ShiftIntervals(s: Schedule, anchor: int, from: int, to: int): seq<Interval> {
    var a := LocalDay(s.zone, anchor);
    SortByStart(IntervalsFrom(s, a + from, a + to))
  }

  /** `isWithinWorkHours`. */
  predicate IsWithinWorkHours(s: Schedule, now: int) {
    !IsScheduleEmpty(s) && exists i <- ShiftIntervals(s, now, -1, 1) :: i.Contains(now)
  }

  /* ---- The scan decides the unbounded question ---- */

  /** The interval of a usable window of day `d`. */
  function WindowInterval(s: Schedule, w: TimeWindow, d: int): Interval
    requires Usable(w)
  {
    Interval(ToUtc(s.zone, WallOpen(w, d)), ToUtc(s.zone, WallClose(w, d)))
  }

  lemma {:induction false} IntervalsOfWindows(s: Schedule, d: int, ws: seq<TimeWindow>, i: Interval)
    ensures i in IntervalsOf(s.zone, CivilFromDay(d), ws) <==>
            i.start < i.end && exists w <- ws :: Usable(w) && i == WindowInterval(s, w, d)
  {
    hide CivilFromDay, ParseTimeOfDay, ZonedTimeToUtc, ToUtc;
    if ws != [] {
      IntervalsOfWindows(s, d, ws[1..], i);
      assert ws == [ws[0]] + ws[1..];
      if Usable(ws[0]) {
        var c := CivilFromDay(d);
        var open, close := ParseTimeOfDay(ws[0].open).value, ParseTimeOfDay(ws[0].close).value;
        ConversionIsTwoPass(s.zone, c, open);
        ConversionIsTwoPass(s.zone, c, if close > open then close else close + 1440);
      }
    }
  }

  /** `i` is the interval of some usable window of day `d`. */
  ghost predicate Denotes(s: Schedule, d: int, i: Interval) {
    i.start < i.end && exists w <- WindowsOn(s, d) :: Usable(w) && i == WindowInterval(s, w, d)
  }

  lemma DayIntervalsDenote(s: Schedule, d: int, i: Interval)
    ensures i in DayIntervals(s, d) <==> Denotes(s, d, i)
  {
    hide WindowsOn, IntervalsOf, Usable, WindowInterval;
    IntervalsOfWindows(s, d, WindowsOn(s, d), i);
  }

  lemma {:induction false} IntervalsFromDays(s: Schedule, d: int, last: int, i: Interval)
    ensures i in IntervalsFrom(s, d, last) <==> exists d' :: d <= d' <= last && Denotes(s, d', i)
    decreases last - d
  {
    hide DayIntervals, Denotes;
    if d <= last {
      IntervalsFromDays(s, d + 1, last, i);
      DayIntervalsDenote(s, d, i);
    }
  }

  /** An interval is listed exactly when a scanned day denotes it, and the list is sorted. */
  lemma ListedIntervals(s: Schedule, anchor: int, from: int, to: int, i: Interval)
    ensures i in ShiftIntervals(s, anchor, from, to) <==>
            exists d :: LocalDay(s.zone, anchor) + from <= d <= LocalDay(s.zone, anchor) + to && Denotes(s, d, i)
    ensures SortedByStart(ShiftIntervals(s, anchor, from, to))
  {
    hide Denotes, IntervalsFrom, SortByStart, LocalDay;
    var lo, hi := LocalDay(s.zone, anchor) + from, LocalDay(s.zone, anchor) + to;
    var xs := IntervalsFrom(s, lo, hi);
    SortByStartSorts(xs);
    assert i in SortByStart(xs) <==> i in multiset(SortByStart(xs));
    assert i in xs <==> i in multiset(xs);
    IntervalsFromDays(s, lo, hi, i);
  }

  lemma CoverageIsContainment(s: Schedule, d: int, t: int)
    ensures CoveredBy(s, d, t) <==> exists i :: Denotes(s, d, i) && i.Contains(t)
  {
    hide WindowsOn, Usable, ToUtc, WallOpen, WallClose;
    if CoveredBy(s, d, t) {
      var w :| w in WindowsOn(s, d) && Usable(w) && ToUtc(s.zone, WallOpen(w, d)) <= t < ToUtc(s.zone, WallClose(w, d));
      assert Denotes(s, d, WindowInterval(s, w, d));
      assert WindowInterval(s, w, d).Contains(t);
    }
  }

  /** A listed interval contains `t` exactly when a scanned day covers `t`. */
  lemma ListedCoverage(s: Schedule, anchor: int, from: int, to: int, t: int)
    ensures (exists i <- ShiftIntervals(s, anchor, from, to) :: i.Contains(t)) <==>
            exists d :: LocalDay(s.zone, anchor) + from <= d <= LocalDay(s.zone, anchor) + to && CoveredBy(s, d, t)
  {
    hide Denotes, CoveredBy, ShiftIntervals, LocalDay;
    var xs := ShiftIntervals(s, anchor, from, to);
    var lo, hi := LocalDay(s.zone, anchor) + from, LocalDay(s.zone, anchor) + to;
    if i :| i in xs && i.Contains(t) {
      ListedIntervals(s, anchor, from, to, i);
      var d :| lo <= d <= hi && Denotes(s, d, i);
      CoverageIsContainment(s, d, t);
    }
    if d :| lo <= d <= hi && CoveredBy(s, d, t) {
      CoverageIsContainment(s, d, t);
      var i :| Denotes(s, d, i) && i.Contains(t);
      ListedIntervals(s, anchor, from, to, i);
    }
  }

  /** Where the windows of day `d` lie on the wall clock: they open on their day and last at most 24 hours. */
  lemma WindowSpan(w: TimeWindow, d: int)
    requires Usable(w)
    ensures d * DAY <= WallOpen(w, d) < (d + 1) * DAY
    ensures WallOpen(w, d) < WallClose(w, d) <= WallOpen(w, d) + DAY
    ensures WallClose(w, d) < (d + 2) * DAY
  {
    hide ParseTimeOfDay;
    assert ParseTimeOfDay(w.open).value < 1440 && ParseTimeOfDay(w.close).value < 1440;
  }

  /**
   What the -1..1 scan needs of a zone: whatever stretch of at most 24 hours opens on
   the wall clock of day `d`, the instants it is converted to lie within a day of `d`.
   */
  ghost predicate Near(z: Zone) {
    forall d, o, len, t :: NearWindow(z, d, o, len, t)
  }

  predicate NearWindow(z: Zone, d: int, o: int, len: int, t: int) {
    0 <= o < 1440 && 0 < len <= 1440
    && ToUtc(z, d * DAY + o * MINUTE) <= t < ToUtc(z, d * DAY + (o + len) * MINUTE) ==>
      LocalDay(z, t) - 1 <= d <= LocalDay(z, t) + 1
  }

  /** A sufficient condition that speaks of midnights only; weaker than `DayOrdered` by a day on one side. */
  ghost predicate ScanSafe(z: Zone) {
    forall k :: ScanSafeAround(z, k)
  }

  ghost predicate ScanSafeAround(z: Zone, k: int) {
    && (forall w, t :: w < k * DAY && LocalDay(z, t) >= k ==> ToUtc(z, w) <= t)
    && (forall w, t :: (k + 1) * DAY <= w && LocalDay(z, t) < k ==> t < ToUtc(z, w))
  }

  lemma DayOrderedZonesAreScanSafe(z: Zone)
    requires DayOrdered(z)
    ensures ScanSafe(z)
  {
    forall k ensures ScanSafeAround(z, k) {
      assert OrderedAround(z, k);
    }
  }

  lemma ScanSafeZonesAreNear(z: Zone)
    requires ScanSafe(z)
    ensures Near(z)
  {
    forall d, o, len, t ensures NearWindow(z, d, o, len, t) {
      hide ToUtc, LocalDay;
      assert ScanSafeAround(z, d + 2);
      assert ScanSafeAround(z, d - 1);
    }
  }

  lemma DayOrderedZonesAreNear(z: Zone)
    requires DayOrdered(z)
    ensures Near(z)
  {
    hide DayOrdered, ScanSafe, Near;
    DayOrderedZonesAreScanSafe(z);
    ScanSafeZonesAreNear(z);
  }

  /** Only the day of `t`, the day before and the day after can cover `t`. */
  lemma OnlyNearDaysCover(s: Schedule, d: int, t: int)
    requires Near(s.zone) && CoveredBy(s, d, t)
    ensures LocalDay(s.zone, t) - 1 <= d <= LocalDay(s.zone, t) + 1
  {
    hide WindowsOn, ToUtc, LocalDay, ParseTimeOfDay;
    var w :| w in WindowsOn(s, d) && Usable(w) && ToUtc(s.zone, WallOpen(w, d)) <= t < ToUtc(s.zone, WallClose(w, d));
    WindowSpan(w, d);
    var open, close := ParseTimeOfDay(w.open).value, ParseTimeOfDay(w.close).value;
    assert NearWindow(s.zone, d, open, if close > open then close - open else close + 1440 - open, t);
  }

  /** The -1..1 scan answers the question over all civil days. */
  lemma ScanDecidesTheUnboundedQuestion(s: Schedule, t: int)
    requires Near(s.zone)
    ensures IsWithinWorkHours(s, t) <==> OpenAt(s, t)
  {
    hide CoveredBy, ShiftIntervals, LocalDay, IsScheduleEmpty, Near;
    ListedCoverage(s, t, -1, 1, t);
    if d :| CoveredBy(s, d, t) {
      OnlyNearDaysCover(s, d, t);
    }
  }

  /* ---- Exactly the zones in which the scan is right ---- */

  function TimeText(m: nat): string
    requires m < 1440
  {
    TwoDigits(m / 60) + ":" + TwoDigits(m % 60)
  }

  /** The window that opens at minute `o` and lasts `len` minutes. */
  function WindowOf(o: nat, len: nat): TimeWindow
    requires o < 1440 && 0 < len <= 1440
  {
    TimeWindow(TimeText(o), TimeText((o + len) % 1440))
  }

  lemma WindowOfSpans(o: nat, len: nat, d: int)
    requires o < 1440 && 0 < len <= 1440
    ensures Usable(WindowOf(o, len))
    ensures WallOpen(WindowOf(o, len), d) == d * DAY + o * MINUTE
    ensures WallClose(WindowOf(o, len), d) == d * DAY + (o + len) * MINUTE
  {
    hide ParseTimeOfDay, TwoDigits;
    TimeOfDayRoundTrip(o);
    TimeOfDayRoundTrip((o + len) % 1440);
  }

  /** One window, on one day of the week. */
  function OneWindow(z: Zone, day: DayKey, w: TimeWindow): Schedule {
    Schedule(z, map[day := [w]], [])
  }

  lemma WithoutExceptions(s: Schedule, key: string, day: DayKey)
    requires s.exceptions == []
    ensures WindowsForDay(s, key, day) == if day in s.weekly then s.weekly[day] else []
  {
  }

  lemma OneWindowDays(z: Zone, day: DayKey, w: TimeWindow, d: int)
    ensures WindowsOn(OneWindow(z, day, w), d) == if WeekdayOf(d) == day then [w] else []
  {
    hide CivilFromDay, DateKey, WindowsForDay, WeekdayOf;
    WithoutExceptions(OneWindow(z, day, w), DateKey(CivilFromDay(d)), WeekdayOf(d));
  }

  lemma OneWindowCovers(z: Zone, day: DayKey, w: TimeWindow, d: int, t: int)
    requires Usable(w)
    ensures !IsScheduleEmpty(OneWindow(z, day, w))
    ensures CoveredBy(OneWindow(z, day, w), d, t) <==>
            WeekdayOf(d) == day && ToUtc(z, WallOpen(w, d)) <= t < ToUtc(z, WallClose(w, d))
  {
    hide Usable, ToUtc, WallOpen, WallClose, WindowsOn, WeekdayOf;
    OneWindowDays(z, day, w, d);
    var s := OneWindow(z, day, w);
    assert day in s.weekly && w in s.weekly[day];
  }

  /** Weekdays repeat every seven days and no sooner. */
  lemma SameWeekday(d: int, e: int)
    ensures WeekdayOf(d) == WeekdayOf(e) <==> (d - e) % 7 == 0
  {
    WeekdayIndex(d);
    WeekdayIndex(e);
    hide WeekdayOf;
    var i, j := (d + 3) % 7, (e + 3) % 7;
    assert i == j <==> (d - e) % 7 == 0;
  }

  lemma WeekdayIndex(d: int)
    ensures WeekdayOf(d) == [Mon, Tue, Wed, Thu, Fri, Sat, Sun][(d + 3) % 7]
  {
    assert ((d + 4) % 7 + 6) % 7 == (d + 3) % 7;
  }

  /** Offsets of less than a day leave an instant within a day of where its wall time is converted to. */
  lemma WithinADay(z: Zone, w: int, t: int)
    requires Bounded(z, DAY)
    ensures w - DAY <= ToUtc(z, w) <= w + DAY
    ensures t - DAY <= Wall(z, t) <= t + DAY
  {
  }

  /** A stretch that the scan would miss, if its weekly shift were all there is. */
  lemma MissedStretch(z: Zone, d: int, o: nat, len: nat, t: int)
    requires Bounded(z, DAY) && !NearWindow(z, d, o, len, t)
    ensures exists s: Schedule :: s.zone == z && OpenAt(s, t) && !IsWithinWorkHours(s, t)
  {
    hide Usable, WallOpen, WallClose, WeekdayOf, CoveredBy, IsScheduleEmpty, ShiftIntervals, WindowOf;
    var w := WindowOf(o, len);
    var s := OneWindow(z, WeekdayOf(d), w);
    var e := LocalDay(z, t);
    WindowOfSpans(o, len, d);
    OneWindowCovers(z, WeekdayOf(d), w, d, t);
    assert CoveredBy(s, d, t);
    WithinADay(z, d * DAY + o * MINUTE, t);
    WithinADay(z, d * DAY + (o + len) * MINUTE, t);
    assert d - 2 <= e <= d + 3;
    ListedCoverage(s, t, -1, 1, t);
    forall d' | e - 1 <= d' <= e + 1
      ensures !CoveredBy(s, d', t)
    {
      OneWindowCovers(z, WeekdayOf(d), w, d', t);
      SameWeekday(d', d);
    }
    assert OpenAt(s, t) && !IsWithinWorkHours(s, t);
  }

  /** The scan is right for every schedule at every instant exactly in the zones that are near. */
  lemma ScanIsRightExactlyWhenNear(z: Zone)
    requires Bounded(z, DAY)
    ensures Near(z) <==> forall s: Schedule, t :: s.zone == z ==> (IsWithinWorkHours(s, t) <==> OpenAt(s, t))
  {
    hide IsWithinWorkHours, OpenAt, NearWindow;
    if Near(z) {
      forall s: Schedule, t | s.zone == z ensures IsWithinWorkHours(s, t) <==> OpenAt(s, t) {
        ScanDecidesTheUnboundedQuestion(s, t);
      }
    } else {
      var d, o, len, t :| !NearWindow(z, d, o, len, t);
      StretchBounds(z, d, o, len, t);
      MissedStretch(z, d, o, len, t);
    }
  }

  lemma StretchBounds(z: Zone, d: int, o: int, len: int, t: int)
    requires !NearWindow(z, d, o, len, t)
    ensures 0 <= o < 1440 && 0 < len <= 1440
  {
  }

  /* ---- A clock set back across local midnight ---- */

  /** UTC+2 set back to UTC+1 at 00:01 on day 10: that day begins, and then begins again. */
  function SetBackOverMidnight(): Zone {
    OnceAt(10 * DAY + MINUTE - 7200000, 7200000, 3600000)
  }

  /** So the condition fails of some zones: day 8's shift of 24 hours still runs on day 10, unseen by the scan. */
  lemma SetBackShiftIsMissed()
    ensures var s, t := OneWindow(SetBackOverMidnight(), WeekdayOf(8), WindowOf(1439, 1440)), 10 * DAY - 7200000;
            OpenAt(s, t) && !IsWithinWorkHours(s, t)
  {
    hide WallOpen, WallClose, Usable, ShiftIntervals, WeekdayOf, WindowOf, CoveredBy, IsScheduleEmpty;
    var z, w, t := SetBackOverMidnight(), WindowOf(1439, 1440), 10 * DAY - 7200000;
    var s := OneWindow(z, WeekdayOf(8), w);
    WindowOfSpans(1439, 1440, 8);
    OneWindowCovers(z, WeekdayOf(8), w, 8, t);
    assert CoveredBy(s, 8, t) && LocalDay(z, t) == 10;
    ListedCoverage(s, t, -1, 1, t);
    forall d | 9 <= d <= 11
      ensures !CoveredBy(s, d, t)
    {
      OneWindowCovers(z, WeekdayOf(8), w, d, t);
      SameWeekday(d, 8);
    }
  }
}
