/**
 Effective availability: a manual pick laid over a working-hours schedule
 (packages/shared/src/presence.ts).
 */
module Presence {
  import opened Options
  import opened Zones
  import opened WorkHours
  import opened Boundaries

  datatype Status = Available | Busy | Away | Offline

  datatype Source = Manual | Admin | BySchedule

  /** The note shown beside a status; the off-shift note is rendered from the next opening. */
  datatype Note = NoNote | Typed(text: string) | OffShift(back: Option<int>)

  datatype Input = Input(
    manualStatus: Option<Status>,
    manualMessage: Option<string>,
    overrideUntil: Option<int>,
    manualSource: Option<Source>,
    schedule: Option<Schedule>)

  datatype Effective = Effective(status: Status, message: Note, source: Source, overrideUntil: Option<int>)

  /** `resolveAvailabilityStatus`. */
  function ResolveStatus(s: Option<Status>): Status {
    if s.Some? then s.value else Available
  }

  predicate NoSchedule(s: Option<Schedule>) {
    s.None? || IsScheduleEmpty(s.value)
  }

  /** The instant `offShiftMessage` announces: the next opening, if that is what comes next. */
  function BackAt(s: Schedule, now: int): Option<int> {
    match NextBoundary(s, now)
    case Some(b) => if b.opens then Some(b.at) else None
    case None => None
  }

  /** `resolveEffectiveAvailability`. */
  function Resolve(input: Input, now: int): Effective {
    var status := ResolveStatus(input.manualStatus);
    var message := if input.manualMessage.Some? then Typed(input.manualMessage.value) else NoNote;
    var source := if input.manualSource == Some(Admin) then Admin else Manual;
    if NoSchedule(input.schedule) then Effective(status, message, source, None)
    else
      var s := input.schedule.value;
      if input.overrideUntil.Some? && input.overrideUntil.value > now then
        Effective(status, message, source, input.overrideUntil)
      else if status == Offline then Effective(Offline, message, source, None)
      else if IsWithinWorkHours(s, now) then Effective(Available, NoNote, BySchedule, None)
      else Effective(Away, OffShift(BackAt(s, now)), BySchedule, None)
  }

  /** `overrideExpiryFor`. */
  function OverrideExpiryFor(schedule: Option<Schedule>, now: int): Option<int> {
    if NoSchedule(schedule) then None
    else
      match NextBoundary(schedule.value, now)
      case Some(b) => Some(b.at)
      case None => Some(NextLocalMidnight(schedule.value.zone, now))
  }

  /** What the schedule alone says, once no override is live; "appear offline" outlives it. */
  function ScheduleStatus(input: Input, now: int): Status
    requires input.schedule.Some?
  {
    if ResolveStatus(input.manualStatus) == Offline then Offline
    else if IsWithinWorkHours(input.schedule.value, now) then Available
    else Away
  }

  /** A fresh pick made at `t0`. */
  function Picked(input: Input, t0: int): Input {
    input.(overrideUntil := OverrideExpiryFor(input.schedule, t0))
  }

  /* ---- What is shown, case by case ---- */

  /** No schedule, or one without a usable window on any day of the week. */
  predicate Unscheduled(schedule: Option<Schedule>) {
    match schedule
    case None => true
    case Some(s) =>
      forall day <- s.weekly.Keys, w <- s.weekly[day] ::
        ParseTimeOfDay(w.open).None? || ParseTimeOfDay(w.close).None?
  }

  /** What a person has picked: the status (available if never picked), the typed note, and who picked. */
  function PickShown(input: Input, until: Option<int>): Effective {
    Effective(
      match input.manualStatus { case None => Available case Some(status) => status },
      match input.manualMessage { case None => NoNote case Some(text) => Typed(text) },
      match input.manualSource { case Some(Admin) => Admin case _ => Manual },
      until)
  }

  /** Without working hours the pick is shown, forever, and a new pick gets no expiry. */
  lemma PickRulesWithoutSchedule(input: Input, now: int)
    requires Unscheduled(input.schedule)
    ensures Resolve(input, now) == PickShown(input, None)
    ensures OverrideExpiryFor(input.schedule, now) == None
  {
    hide NextBoundary, ParseTimeOfDay;
  }

  /** With working hours a live override shows the pick, with its end. */
  lemma PickRulesWhileItLives(input: Input, now: int)
    requires !Unscheduled(input.schedule) && input.overrideUntil.Some? && now < input.overrideUntil.value
    ensures Resolve(input, now) == PickShown(input, input.overrideUntil)
  {
    hide NextBoundary, ParseTimeOfDay;
    ScheduledHasWindow(input.schedule);
  }

  lemma ScheduledHasWindow(schedule: Option<Schedule>)
    ensures Unscheduled(schedule) <==> NoSchedule(schedule)
  {
    hide ParseTimeOfDay;
    if schedule.Some? {
      var s := schedule.value;
      if IsScheduleEmpty(s) {
        forall day <- s.weekly.Keys, w <- s.weekly[day]
          ensures ParseTimeOfDay(w.open).None? || ParseTimeOfDay(w.close).None?
        {
          assert !Usable(w);
        }
      }
      if Unscheduled(schedule) {
        forall day <- s.weekly.Keys, w <- s.weekly[day]
          ensures !Usable(w)
        {
        }
      }
    }
  }

  /**
   Otherwise a person who picked offline stays offline; everybody else is available on shift, and
   away off shift with a note that names the next opening, if an opening is what comes next.
   */
  lemma ScheduleRulesOtherwise(input: Input, now: int)
    requires !Unscheduled(input.schedule)
    requires input.overrideUntil.Some? ==> input.overrideUntil.value <= now
    ensures var s := input.schedule.value;
            Resolve(input, now) ==
              if input.manualStatus == Some(Offline) then PickShown(input, None)
              else if IsWithinWorkHours(s, now) then Effective(Available, NoNote, BySchedule, None)
              else Effective(Away, OffShift(BackAt(s, now)), BySchedule, None)
    ensures forall t :: BackAt(input.schedule.value, now) == Some(t) <==>
              NextBoundary(input.schedule.value, now) == Some(Boundary(t, true))
  {
    hide NextBoundary, ParseTimeOfDay, IsWithinWorkHours;
    ScheduledHasWindow(input.schedule);
  }

  /** Every boundary the schedule reports lies ahead. */
  lemma BoundaryIsAhead(s: Schedule, now: int)
    requires NextBoundary(s, now).Some?
    ensures now < NextBoundary(s, now).value.at
  {
    hide ShiftIntervals, IsScheduleEmpty;
  }

  /**
   An override is live when it is set exactly when the schedule reports a boundary or, if it
   reports none, the midnight taken for the expiry is converted to a later instant. This holds
   in every zone; where the clock skips midnight that conversion can land in the evening before.
   */
  lemma OverrideIsLiveIff(s: Schedule, t0: int)
    requires !IsScheduleEmpty(s)
    ensures OverrideExpiryFor(Some(s), t0).Some?
    ensures t0 < OverrideExpiryFor(Some(s), t0).value <==>
            NextBoundary(s, t0).Some? || t0 < Midnight(s.zone, LocalDay(s.zone, t0) + 1)
    ensures OverrideExpiryFor(Some(s), t0).value == match NextBoundary(s, t0)
                                                    case Some(b) => b.at
                                                    case None => Midnight(s.zone, LocalDay(s.zone, t0) + 1)
  {
    hide NextBoundary, IsScheduleEmpty, NextLocalMidnight, LocalDay, Midnight;
    NextLocalMidnightIsMidnight(s.zone, t0);
    if NextBoundary(s, t0).Some? {
      BoundaryIsAhead(s, t0);
    }
  }

  /** In every zone an override wins until its expiry, and from then on yields to the schedule (or stays offline). */
  lemma OverrideWinsThenYields(input: Input, t0: int)
    requires !NoSchedule(input.schedule)
    ensures OverrideExpiryFor(input.schedule, t0).Some?
    ensures var expiry := OverrideExpiryFor(input.schedule, t0).value;
            && (forall t :: t < expiry ==>
                  && Resolve(Picked(input, t0), t).status == ResolveStatus(input.manualStatus)
                  && Resolve(Picked(input, t0), t).overrideUntil == Some(expiry))
            && (forall t :: expiry <= t ==>
                  && Resolve(Picked(input, t0), t).status == ScheduleStatus(input, t)
                  && Resolve(Picked(input, t0), t).overrideUntil == None)
  {
    hide NextBoundary, IsWithinWorkHours, IsScheduleEmpty, NextLocalMidnight, BackAt;
  }

  /**
   An override cannot outlive its shift: up to an expiry that the schedule's boundary set, shift
   membership is constant, and it flips there if the answer is in reach. Any other expiry is the
   next local midnight.
   */
  lemma OverrideCannotOutliveItsShift(s: Schedule, t0: int)
    requires !IsScheduleEmpty(s) && OrderedHere(s.zone, t0)
    ensures OverrideExpiryFor(Some(s), t0).Some?
    ensures var expiry := OverrideExpiryFor(Some(s), t0).value;
            && (NextBoundary(s, t0).Some? ==>
                  && t0 < expiry
                  && (forall t :: t0 <= t < expiry ==> IsWithinWorkHours(s, t) == IsWithinWorkHours(s, t0))
                  && (InReach(s, t0) ==> IsWithinWorkHours(s, expiry) != IsWithinWorkHours(s, t0)))
            && (NextBoundary(s, t0).None? ==> expiry == Midnight(s.zone, LocalDay(s.zone, t0) + 1))
  {
    hide NextBoundary, IsWithinWorkHours, IsScheduleEmpty, OrderedHere, InReach, NextLocalMidnight, Midnight, LocalDay;
    NextLocalMidnightIsMidnight(s.zone, t0);
    if NextBoundary(s, t0).Some? {
      BoundaryIsAhead(s, t0);
      forall t | t0 <= t < NextBoundary(s, t0).value.at ensures IsWithinWorkHours(s, t) == IsWithinWorkHours(s, t0) {
        MembershipIsConstant(s, t0, t);
      }
      if InReach(s, t0) {
        BoundaryIsExact(s, t0);
      }
    }
  }

  /** In a day-ordered zone every override is live when it is set. */
  lemma DayOrderKeepsOverridesLive(s: Schedule, t0: int)
    requires !IsScheduleEmpty(s) && DayOrdered(s.zone)
    ensures OverrideExpiryFor(Some(s), t0).Some? && t0 < OverrideExpiryFor(Some(s), t0).value
  {
    hide NextBoundary, IsScheduleEmpty, DayOrdered, OverrideExpiryFor, Midnight, LocalDay;
    OverrideIsLiveIff(s, t0);
    TodayEndsAfter(s.zone, t0);
  }

  /**
   A failing input: UTC-5 springing forward at local midnight of day 10, closed for the fortnight,
   and a pick made at 23:30 the evening before. It expires at 23:00, before it is made.
   */
  lemma SkippedMidnightEndsThePick()
    ensures var s, t0 := ClosedFortnight(SkippedMidnight(), 9), 10 * DAY + 5 * 3600000 - 1800000;
            !IsScheduleEmpty(s) && OverrideExpiryFor(Some(s), t0) == Some(t0 - 1800000)
  {
    hide NextBoundary, IsScheduleEmpty, NextLocalMidnight, ClosedFortnight;
    var z, t0 := SkippedMidnight(), 10 * DAY + 5 * 3600000 - 1800000;
    assert LocalDay(z, t0) == 9;
    ClosedFortnightIntervals(z, 9, 0, Interval(0, 0));
    ClosedFortnightIsQuiet(z, t0);
    NextLocalMidnightIsMidnight(z, t0);
  }

  /* ---- A sweeper that acts only at these instants misses nothing ---- */

  /** The first instant at which the status may change: a live override's end, the next boundary, or the horizon. */
  function QuietUntil(input: Input, now: int): int
    requires input.schedule.Some?
  {
    var limit := QuietLimit(input.schedule.value, now);
    if input.overrideUntil.Some? && now < input.overrideUntil.value < limit then input.overrideUntil.value else limit
  }

  lemma QuietIsAhead(input: Input, now: int)
    requires input.schedule.Some?
    ensures now < QuietUntil(input, now)
  {
    hide NextBoundary;
    if NextBoundary(input.schedule.value, now).Some? {
      BoundaryIsAhead(input.schedule.value, now);
    }
  }

  /** The effective status is a step function: it only changes at the instants `QuietUntil` names. */
  lemma StatusIsAStepFunction(input: Input, now: int, t: int)
    requires input.schedule.Some? && OrderedHere(input.schedule.value.zone, now) && Settled(input.schedule.value, now)
    requires now <= t < QuietUntil(input, now)
    ensures Resolve(input, t).status == Resolve(input, now).status
  {
    hide NextBoundary, IsWithinWorkHours, IsScheduleEmpty, OrderedHere, Settled, BackAt;
    MembershipIsConstant(input.schedule.value, now, t);
  }

  /** For every schedule of a zone and every pick it is one exactly when the fortnight fits. */
  lemma StepFunctionForEverySchedule(z: Zone, now: int)
    requires OrderedHere(z, now) && (Bounded(z, DAY) || DayOrdered(z))
    ensures FortnightFits(z, now) <==>
            forall input: Input, t :: InZone(input, z) && now <= t < QuietUntil(input, now) ==>
              Resolve(input, t).status == Resolve(input, now).status
  {
    hide Resolve, DayOrdered, OrderedHere, Bounded, FortnightFits, NextBoundary, QuietUntil;
    if FortnightFits(z, now) {
      forall input: Input, t | InZone(input, z) && now <= t < QuietUntil(input, now)
        ensures Resolve(input, t).status == Resolve(input, now).status
      {
        StatusIsAStepFunction(input, now, t);
      }
    } else {
      var input := Input(None, None, None, None, Some(ClosedFortnight(z, LocalDay(z, now))));
      ClosedFortnightChangesUnseen(z, now);
      assert InZone(input, z) && now <= ListLimit(z, now) < QuietUntil(input, now);
    }
  }

  ghost predicate InZone(input: Input, z: Zone) {
    input.schedule.Some? && input.schedule.value.zone == z
  }

  lemma ClosedFortnightChangesUnseen(z: Zone, now: int)
    requires OrderedHere(z, now) && (Bounded(z, DAY) || DayOrdered(z)) && !FortnightFits(z, now)
    ensures var input := Input(None, None, None, None, Some(ClosedFortnight(z, LocalDay(z, now))));
            && InZone(input, z) && now <= ListLimit(z, now) < QuietUntil(input, now)
            && Resolve(input, now).status == Away && Resolve(input, ListLimit(z, now)).status == Available
  {
    hide NextBoundary, IsWithinWorkHours, IsScheduleEmpty, DayOrdered, OrderedHere, BackAt, ListLimit, ClosedFortnight;
    ClosedFortnightIntervals(z, LocalDay(z, now), 0, Interval(0, 0));
    ClosedFortnightIsWrong(z, now);
  }

  /** The status on record at `until` when it is re-resolved at `from` and then only at each `QuietUntil`. */
  function SweptStatus(input: Input, from: int, until: int): Status
    requires input.schedule.Some? && from <= until
    decreases until - from
  {
    QuietIsAhead(input, from);
    var next := QuietUntil(input, from);
    if until < next then Resolve(input, from).status else SweptStatus(input, next, until)
  }

  /** Each time the sweeper wakes, the zone is in order and the answer does not depend on the fortnight. */
  ghost predicate SettledAtWakes(input: Input, from: int, until: int)
    requires input.schedule.Some? && from <= until
    decreases until - from
  {
    QuietIsAhead(input, from);
    var next := QuietUntil(input, from);
    && OrderedHere(input.schedule.value.zone, from) && Settled(input.schedule.value, from)
    && (until < next || SettledAtWakes(input, next, until))
  }

  /** Waking at exactly these instants keeps the recorded status right at every instant in between. */
  lemma {:induction false} SweepingMissesNothing(input: Input, from: int, until: int)
    requires input.schedule.Some? && from <= until && SettledAtWakes(input, from, until)
    ensures SweptStatus(input, from, until) == Resolve(input, until).status
    decreases until - from
  {
    hide Resolve, QuietUntil, Settled, OrderedHere;
    QuietIsAhead(input, from);
    var next := QuietUntil(input, from);
    if until < next {
      StatusIsAStepFunction(input, from, until);
    } else {
      SweepingMissesNothing(input, next, until);
    }
  }
}
