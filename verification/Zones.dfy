/**
 Time zones as offset functions, and the conversions between instants and wall
 clocks (packages/shared/src/work-hours.ts). All times are milliseconds.
 The platform's zone database is a parameter: a zone is the function from an
 instant to the milliseconds that its wall clock is ahead of UTC, in whole seconds.
 */
module Zones {
  import opened Civil

  const SECOND := 1000
  const MINUTE := 60000
  const DAY := 86400000

  ghost predicate WholeSeconds(o: int -> int) {
    forall t :: o(t) % SECOND == 0
  }

  type Zone = o: int -> int | WholeSeconds(o) witness (t => 0)

  /** The wall clock of an instant, written as the instant at which UTC shows the same. */
  function Wall(z: Zone, t: int): int {
    t + z(t)
  }

  /** The civil day of an instant. */
  function LocalDay(z: Zone, t: int): int {
    Wall(z, t) / DAY
  }

  /** What `formatToParts` yields: whole seconds, the rest of the instant is dropped. */
  datatype ZonedParts = ZonedParts(date: Date, minutes: int, second: int)

  function PartsOf(z: Zone, t: int): (p: ZonedParts)
    ensures p.date.Valid() && DayFromCivil(p.date) == LocalDay(z, t)
    ensures 0 <= p.minutes < 1440 && 0 <= p.second < 60
  {
    var inDay := Wall(z, t) % DAY;
    ZonedParts(CivilFromDay(Wall(z, t) / DAY), inDay / MINUTE, inDay % MINUTE / SECOND)
  }

  /** `Date.UTC(year, month - 1, day, 0, minutes)`. */
  function NaiveUtc(date: Date, minutes: int): int
    requires 1 <= date.month <= 12
  {
    DayFromCivil(date) * DAY + minutes * MINUTE
  }

  /** `zoneOffsetMs`, as the source computes it from the formatted parts. */
  function ZoneOffsetMs(z: Zone, t: int): int {
    var p := PartsOf(z, t);
    NaiveUtc(p.date, p.minutes) + p.second * SECOND - t / SECOND * SECOND
  }

  lemma SecondsOf(x: int, q: int, r: int)
    requires x == SECOND * q + r && 0 <= r < SECOND
    ensures x / SECOND == q
  {
  }

  /** Minutes and seconds together are the whole seconds. */
  lemma WholeSecondsSplit(x: int)
    ensures x / MINUTE * MINUTE + x % MINUTE / SECOND * SECOND == x / SECOND * SECOND
  {
    var q, r := x / MINUTE, x % MINUTE;
    SecondsOf(x, 60 * q + r / SECOND, r % SECOND);
  }

  lemma AddWholeSeconds(x: int, d: int)
    requires d % SECOND == 0
    ensures (x + d) / SECOND * SECOND == x / SECOND * SECOND + d
  {
    SecondsOf(x + d, x / SECOND + d / SECOND, x % SECOND);
  }

  /** Dropping the milliseconds on both sides loses nothing: the parts give back the zone's offset. */
  lemma PartsRecoverOffset(z: Zone, t: int)
    ensures ZoneOffsetMs(z, t) == z(t)
  {
    hide CivilFromDay, DayFromCivil;
    var inDay := Wall(z, t) % DAY;
    WholeSecondsSplit(inDay);
    AddWholeSeconds(t, z(t));
    AddWholeSeconds(inDay, LocalDay(z, t) * DAY);
  }

  /** The two-pass conversion of a wall clock to an instant. */
  function ToUtc(z: Zone, w: int): int {
    w - z(w - z(w))
  }

  /** `zonedTimeToUtc`. */
  function ZonedTimeToUtc(z: Zone, date: Date, minutes: int): int
    requires 1 <= date.month <= 12
  {
    var naive := NaiveUtc(date, minutes);
    var first := naive - ZoneOffsetMs(z, naive);
    naive - ZoneOffsetMs(z, first)
  }

  lemma ConversionIsTwoPass(z: Zone, date: Date, minutes: int)
    requires 1 <= date.month <= 12
    ensures ZonedTimeToUtc(z, date, minutes) == ToUtc(z, NaiveUtc(date, minutes))
  {
    hide NaiveUtc, ZoneOffsetMs;
    BothPasses(z, NaiveUtc(date, minutes));
  }

  lemma BothPasses(z: Zone, naive: int)
    ensures naive - ZoneOffsetMs(z, naive - ZoneOffsetMs(z, naive)) == ToUtc(z, naive)
  {
    hide PartsOf, NaiveUtc;
    PartsRecoverOffset(z, naive);
    PartsRecoverOffset(z, naive - z(naive));
  }

  /** The instant that the conversion assigns to the start of civil day `k`. */
  function Midnight(z: Zone, k: int): int {
    ToUtc(z, k * DAY)
  }

  /** `nextLocalMidnight`. */
  function NextLocalMidnight(z: Zone, t: int): int {
    var tomorrow := AddDays(PartsOf(z, t).date, 1);
    ZonedTimeToUtc(z, tomorrow, 0)
  }

  lemma NextLocalMidnightIsMidnight(z: Zone, t: int)
    ensures NextLocalMidnight(z, t) == Midnight(z, LocalDay(z, t) + 1)
  {
    hide PartsOf, AddDays, ZonedTimeToUtc, ToUtc, DayFromCivil;
    var tomorrow := AddDays(PartsOf(z, t).date, 1);
    ConversionIsTwoPass(z, tomorrow, 0);
    StartOfDay(tomorrow);
  }

  lemma StartOfDay(date: Date)
    requires 1 <= date.month <= 12
    ensures NaiveUtc(date, 0) == DayFromCivil(date) * DAY
  {
    hide DayFromCivil;
  }

  /* ---- Zones with one transition near the instants that matter ---- */

  /** Around `w`, within `r`, the offset is `a` before instant `T` and `b` from `T` on. */
  ghost predicate OneTransition(z: Zone, w: int, r: int, T: int, a: int, b: int) {
    && -r <= a <= r && -r <= b <= r
    && forall x :: w - r <= x <= w + r ==> z(x) == if x < T then a else b
  }

  ghost predicate Bounded(z: Zone, r: int) {
    forall x :: -r <= z(x) <= r
  }

  /**
   The two-pass conversion inverts the wall clock. Near at most one transition,
   a wall time that some instant shows is converted to such an instant; one
   that the clock skips is converted to an instant whose wall time is off by
   exactly the length of the gap, later or earlier depending on whether the
   naive instant is already past the transition.
   */
  lemma TwoPassInvertsWallClock(z: Zone, w: int, r: int, T: int, a: int, b: int)
    requires Bounded(z, r) && OneTransition(z, w, r, T, a, b)
    ensures (exists t :: Wall(z, t) == w) ==> Wall(z, ToUtc(z, w)) == w
    ensures !(exists t :: Wall(z, t) == w) ==>
              a < b && Wall(z, ToUtc(z, w)) == if w < T then w - (b - a) else w + (b - a)
    ensures (exists t :: Wall(z, t) == w) <==> !(T + a <= w < T + b)
  {
    if t :| Wall(z, t) == w {
      assert w - r <= t <= w + r;
    }
    assert Wall(z, w - a) == w || w - a >= T;
    assert Wall(z, w - b) == w || w - b < T;
  }

  /* ---- Day order: all that the schedule theorems ask of a zone ---- */

  /**
   No wall time before day `k` is converted to an instant after one of day `k` or
   later, no wall time of day `k` or later to an instant up to one of an earlier
   day, and midnight is the first wall time of its day to come up.
   */
  ghost predicate OrderedAround(z: Zone, k: int) {
    && (forall w, t :: w < k * DAY && LocalDay(z, t) >= k ==> ToUtc(z, w) <= t)
    && (forall w, t :: k * DAY <= w && LocalDay(z, t) < k ==> t < ToUtc(z, w))
    && (forall w :: k * DAY <= w ==> Midnight(z, k) <= ToUtc(z, w))
  }

  ghost predicate DayOrdered(z: Zone) {
    forall k :: OrderedAround(z, k)
  }

  /**
   Midnight `m` keeps clear of a transition: the overlap of a clock set back does
   not straddle it; the gap of a clock set forward, together with the span that the
   conversion moves skipped times to, does not reach over it.
   */
  predicate KeepsClear(m: int, T: int, a: int, b: int) {
    if b <= a then !(T + b < m < T + a)
    else
      && !(T + a < m < T + b)
      && (a < 0 ==> !(T + a - (b - a) < m <= T + a))
      && (b > 0 ==> !(T + b <= m < T + b + (b - a)))
  }

  /** Offsets are bounded and, around every midnight, change at most once and keep clear of it. */
  ghost predicate Sparse(z: Zone, r: int) {
    && Bounded(z, r)
    && forall k :: ClearAround(z, k, r)
  }

  ghost predicate ClearAround(z: Zone, k: int, r: int) {
    exists T, a, b :: ClearTransition(z, k * DAY, r, T, a, b)
  }

  ghost predicate ClearTransition(z: Zone, m: int, r: int, T: int, a: int, b: int) {
    && KeepsClear(m, T, a, b)
    && forall x :: m - 3 * r <= x <= m + 3 * r ==> z(x) == if x < T then a else b
  }

  lemma EarlierWallTime(z: Zone, r: int, m: int, w: int, t: int, T: int, a: int, b: int)
    requires Bounded(z, r) && ClearTransition(z, m, r, T, a, b)
    requires w < m <= Wall(z, t)
    ensures ToUtc(z, w) <= t
  {
  }

  lemma LaterWallTime(z: Zone, r: int, m: int, w: int, t: int, T: int, a: int, b: int)
    requires Bounded(z, r) && ClearTransition(z, m, r, T, a, b)
    requires Wall(z, t) < m <= w
    ensures t < ToUtc(z, w)
  {
  }

  lemma MidnightIsFirst(z: Zone, r: int, m: int, w: int, T: int, a: int, b: int)
    requires Bounded(z, r) && ClearTransition(z, m, r, T, a, b)
    requires m <= w
    ensures ToUtc(z, m) <= ToUtc(z, w)
  {
  }

  /**
   Zones qualify whose offset stays within `r` and changes at most once in any `6 * r` around
   a midnight, clear of that midnight. A clock that skips local midnight does not qualify west
   of Greenwich: there the skipped midnight is converted to an instant of the evening before.
   */
  lemma SparseZonesAreDayOrdered(z: Zone, r: int)
    requires Sparse(z, r)
    ensures DayOrdered(z)
  {
    forall k ensures OrderedAround(z, k) {
      var m := k * DAY;
      assert ClearAround(z, k, r);
      var T, a, b :| ClearTransition(z, m, r, T, a, b);
      forall w, t | w < m && LocalDay(z, t) >= k ensures ToUtc(z, w) <= t {
        EarlierWallTime(z, r, m, w, t, T, a, b);
      }
      forall w, t | m <= w && LocalDay(z, t) < k ensures t < ToUtc(z, w) {
        LaterWallTime(z, r, m, w, t, T, a, b);
      }
      forall w | m <= w ensures Midnight(z, k) <= ToUtc(z, w) {
        MidnightIsFirst(z, r, m, w, T, a, b);
      }
    }
  }

  /** Zones of one constant offset qualify. */
  lemma ConstantZonesAreDayOrdered(z: Zone, c: int)
    requires forall t :: z(t) == c
    ensures DayOrdered(z)
  {
    forall k ensures OrderedAround(z, k) {
    }
  }

  /** The zone that changes its offset once, from `a` to `b` at instant `T`. */
  function OnceAt(T: int, a: int, b: int): (z: Zone)
    requires a % SECOND == 0 && b % SECOND == 0
  {
    t => if t < T then a else b
  }

  /**
   A zone with one transition is day-ordered whenever every midnight keeps clear of
   the transition; this covers transitions in the small hours in either direction.
   */
  lemma OneTransitionIsDayOrdered(T: int, a: int, b: int)
    requires a % SECOND == 0 && b % SECOND == 0
    requires forall k :: KeepsClear(k * DAY, T, a, b)
    ensures DayOrdered(OnceAt(T, a, b))
  {
    var z := OnceAt(T, a, b);
    var r := (if a < 0 then -a else a) + (if b < 0 then -b else b);
    forall k ensures ClearAround(z, k, r) {
      assert KeepsClear(k * DAY, T, a, b);
      assert ClearTransition(z, k * DAY, r, T, a, b);
    }
    SparseZonesAreDayOrdered(z, r);
  }

  /** Finding the day whose midnights enclose an instant. */
  lemma {:induction false} BetweenMidnights(z: Zone, t: int, k: int, k': int) returns (d: int)
    requires Midnight(z, k) <= t < Midnight(z, k')
    requires k <= k'
    ensures k <= d < k' && Midnight(z, d) <= t < Midnight(z, d + 1)
    decreases k' - k
  {
    if t < Midnight(z, k + 1) {
      d := k;
    } else {
      d := BetweenMidnights(z, t, k + 1, k');
    }
  }
}
