# Verification of the messaging platform's hard core

A Dafny 4.11 model of eight components, each proved against the properties its documentation promises,
or, where the code falls short of them, with the exact condition under which they hold and an input that
breaks them. `dafny verify dfyconfig.toml` checks all of it.

| files | component |
|---|---|
| `Civil`, `Zones`, `WorkHours`, `Boundaries`, `ScheduleMeaning`, `Presence` | working hours: civil days, offset functions as time zones, weekly grids with dated exceptions, "open now?", "what changes next?", and the availability rule on top |
| `Outbox`, `OutboxSafety`, `OutboxOrder`, `OutboxEffects`, `OutboxWidget` | the website widget's outbox: pending map, storage, flush latch and generations, against a server that keeps one message per id |
| `Splitter` | the streaming CSV splitter |
| `Drafts`, `DraftSafety`, `DraftEffects`, `DraftDesk` | accepting, rejecting and regenerating AI drafts under arbitrary interleaving |
| `UrlEncoding` | percent-coding of URL-button values |
| `Tokens`, `FieldTokens`, `TokenMeaning`, `Shapes` | `$var.` tokens: scanner, resolver, static checker, output shapes and the token picker |
| `Templates` | positional and named template placeholders |
| `Base64`, `Rotation`, `RotationRun` | re-encrypting stored secrets |
| `Options`, `Sequences`, `Characters`, `JsonValues` | shared types and helpers |

Protocols (outbox, drafts) are step functions with an invariant over all runs, plus a class (`Widget`, `Desk`)
whose handlers update fields in place and are each proved to take their step. Algorithms with loops are methods proved
against a specification function. What the specification functions themselves mean is stated apart, in terms of
fields, literal names and outcomes (`ScheduleMeaning`, `OutboxEffects`, `DraftEffects`, `TokenMeaning`). Pure rules
are functions with lemmas about them.

## Where the code differs from its documentation

- `nextBoundary` promises the next flip, or none if nothing changes for 14 days. This is exact for all
  schedules if and only if midnight of the fifteenth day ahead is not before `now + 14 days`; after 23:00
  with a clock going forward within the fortnight it is not, and a round-the-clock grid is told of a closing
  that never happens (`Boundaries.ExactForEverySchedule`, `Boundaries.SpringForwardRunsOut`).
  Beyond the list a grid that was closed for the fortnight can open unreported (`Boundaries.ClosedFortnightIsWrong`).
- An override is meant to expire later than it is set. Without a boundary it expires at the next local midnight,
  and west of Greenwich a skipped midnight is converted to the evening before: a pick made in that hour is dead
  when it is made (`Presence.OverrideIsLiveIff`, `Presence.SkippedMidnightEndsThePick`).
- The scan around today is right for every schedule only in zones that keep wall times near their day
  (`WorkHours.ScanIsRightExactlyWhenNear`, `WorkHours.SetBackShiftIsMissed`).
- Wall times that a clock skips are said to resolve to the instant of the jump. The two-pass formula lands
  one gap length before or after the skipped time instead (`Zones.TwoPassInvertsWallClock`).
- An acknowledged message is meant to stay delivered. The timer of an earlier retry still runs, belongs to no chain,
  and marks it as failed again, so that a reload offers it once more (`OutboxEffects.AckedMayFailAgain`; what keeps it
  delivered is `OutboxEffects.DeliveredStays` and `OutboxEffects.TakenUpIsNotSent`).
- A lost claim on a draft that is pending again is taken for expiry; it may be another accept's released
  claim (`DraftSafety.ExpiredAnswerCanBeWrong`). A reject writes by id alone and can overwrite a sent draft
  (`DraftSafety.RejectedDraftMayHaveBeenSent`). A release can be refused by the one-pending index when a newer
  draft exists, which leaves an accepted draft that nobody can send (`DraftSafety.ReleaseRearmsIff`,
  `DraftSafety.ReleaseCanBeRefused`).
- Already-encoded URL values pass only with upper-case escapes (`UrlEncoding.LowerCaseEscapesAreEncodedAgain`).
- A token directly behind another one is not replaced (`Tokens.TokenAfterWordStays`). The checker reports some
  paths that the resolver serves: repeated `trigger`, `trigger` before `sender`, `previousStep` or `steps`, and
  a step's whole output (`FieldTokens.CheckerIsExact`).
- The picker's token for a root leaf is never replaced (`Shapes.PickedRootStays`), and a root-level empty key
  is lost when a union is flattened (`Shapes.EmptyKeyIsLost`).

## Model

| member | source | states |
|---|---|---|
| `Civil.CivilFromDay` | packages/shared/src/work-hours.ts:245-249 | the UTC getters give a valid date whose day number is the given one, for every integer day |
| `Civil.CivilRoundTrip` | packages/shared/src/work-hours.ts:245-249 | every calendar date is the date of its own day number: days and dates are in bijection |
| `Civil.AddDays` | packages/shared/src/work-hours.ts:238-256 | shifting a date gives a valid date exactly `delta` days on, across months, years and leap days |
| `Civil.AddDaysComposes` | packages/shared/src/work-hours.ts:238-256 | shifts compose additively and a shift by zero changes nothing |
| `Civil.DateKeyIsInjective` | packages/shared/src/work-hours.ts:200-200 | no two dates share an exceptions key, in any year |
| `Civil.KeyParts` | packages/shared/src/work-hours.ts:200-200 | the key reads YYYY-MM-DD: its numbers are the year, month and day, with hyphens between, and it has ten characters for years up to 9999 |
| `Civil.WeekdaysInOrder` | packages/shared/src/work-hours.ts:238-256 | weekdays follow one another, day by day |
| `Civil.EpochIsThursday` | packages/shared/src/work-hours.ts:238-256 | day 0 is 1970-01-01, a Thursday |
| `Civil.MonthsBegin` | packages/shared/src/work-hours.ts:245-249 | the days of the year on which months begin, in leap years and others |
| `Zones.PartsOf` | packages/shared/src/work-hours.ts:186-202 | the formatted parts name the local civil day of the instant, with minutes and seconds in range |
| `Zones.PartsRecoverOffset` | packages/shared/src/work-hours.ts:205-213 | the offset recomputed from the formatted parts is the zone's own, although milliseconds are dropped on both sides |
| `Zones.ConversionIsTwoPass` | packages/shared/src/work-hours.ts:225-235 | the conversion of a date and minutes is the two-pass formula on the naive instant |
| `Zones.TwoPassInvertsWallClock` | packages/shared/src/work-hours.ts:225-235 | near one transition of either direction: a wall time that exists is converted to an instant showing it; one that is skipped is off by exactly the gap length, and which way; and which wall times are skipped |
| `Zones.SparseZonesAreDayOrdered` | packages/shared/src/work-hours.ts:225-235 | offsets that change at most once around each midnight, clear of it, make the conversion respect the order of days |
| `Zones.ConstantZonesAreDayOrdered` | packages/shared/src/work-hours.ts:225-235 | zones of one offset respect the order of days |
| `Zones.OneTransitionIsDayOrdered` | packages/shared/src/work-hours.ts:225-235 | a concrete one-transition zone respects the order of days whenever every midnight keeps clear of the transition |
| `Zones.NextLocalMidnightIsMidnight` | packages/shared/src/work-hours.ts:404-408 | the next local midnight is the converted start of the following civil day |
| `WorkHours.ParsesExactlyTheTimes` | packages/shared/src/work-hours.ts:79-86 | a text parses to a minute exactly when, blanks around it aside, it is an hour of one or two digits, a pair of minutes and possibly a pair of seconds, in range, that read as that minute |
| `WorkHours.TimeOfDayRoundTrip` | packages/shared/src/work-hours.ts:79-86 | every minute of the day, written as HH:MM, parses back to itself |
| `WorkHours.SortByStartSorts` | packages/shared/src/work-hours.ts:319-319 | sorting orders the intervals by start and is a permutation |
| `WorkHours.ListedIntervals` | packages/shared/src/work-hours.ts:295-320 | an interval is listed exactly when some scanned civil day has a usable window denoting it, exceptions and overnight spill applied; the list is sorted |
| `WorkHours.ListedCoverage` | packages/shared/src/work-hours.ts:295-320 | some listed interval contains an instant exactly when some scanned day covers it |
| `WorkHours.WindowSpan` | packages/shared/src/work-hours.ts:305-315 | windows open on their day, last more than nothing and at most 24 hours |
| `WorkHours.OnlyNearDaysCover` | packages/shared/src/work-hours.ts:326-336 | in near zones only the day of an instant and its two neighbours can cover it |
| `WorkHours.ScanDecidesTheUnboundedQuestion` | packages/shared/src/work-hours.ts:326-336 | in near zones the -1..1 scan answers the question over all civil days |
| `WorkHours.ScanIsRightExactlyWhenNear` | packages/shared/src/work-hours.ts:326-336 | for offsets of less than a day: the scan is right for every schedule at every instant if and only if the zone converts each stretch of at most 24 hours to within a day of where it opens |
| `WorkHours.ScanSafeZonesAreNear` | packages/shared/src/work-hours.ts:225-235 | wall times before a midnight and a day or more after it being converted in order is enough for that |
| `WorkHours.SetBackShiftIsMissed` | packages/shared/src/work-hours.ts:331-335 | an input outside the condition: with a clock set back across local midnight a shift is open that the scan does not see |
| `ScheduleMeaning.WindowsAreInForce` | packages/shared/src/work-hours.ts:268-285 | the windows of a day, by the first exception dated it: none when closed, its own list when present, even when empty, the weekday's when absent; without an exception the weekday's |
| `ScheduleMeaning.IntervalsAreInForce` | packages/shared/src/work-hours.ts:268-320 | a day denotes exactly the intervals of positive length of the usable windows so in force |
| `ScheduleMeaning.EmptyExceptionCloses` | packages/shared/src/work-hours.ts:276-282 | an exception that is closed, or carries an empty list of windows, leaves its day without a window |
| `ScheduleMeaning.OnShiftMeans` | packages/shared/src/work-hours.ts:326-336 | on shift exactly when some weekday has a usable window and a window in force on the day before, the day or the day after covers the instant; every zone |
| `ScheduleMeaning.OnShiftMeansAnyDay` | packages/shared/src/work-hours.ts:326-336 | in near zones: a window in force on any day at all |
| `Boundaries.PushWindows` | packages/shared/src/work-hours.ts:306-317 | the inner loop pushes exactly the intervals of the day's windows, skipping unparsable and empty ones |
| `Boundaries.PushDay` | packages/shared/src/work-hours.ts:304-318 | one round of the outer loop adds the intervals of the day `offset` days from the anchor |
| `Boundaries.CollectIntervals` | packages/shared/src/work-hours.ts:303-318 | the outer loop collects the intervals of all days of the range in order |
| `Boundaries.ComputeShiftIntervals` | packages/shared/src/work-hours.ts:295-320 | the loops and the sort compute the specified interval list |
| `Boundaries.ComputeNextBoundary` | packages/shared/src/work-hours.ts:344-371 | the chain-walking loop and the searches compute the specified boundary |
| `Boundaries.ChainIsCovered` | packages/shared/src/work-hours.ts:356-359 | every instant up to the end of the chain lies in some listed interval |
| `Boundaries.ChainIsMaximal` | packages/shared/src/work-hours.ts:356-359 | in a sorted list one pass suffices: no interval carries on from the end it finds |
| `Boundaries.FirstAfterIsEarliest` | packages/shared/src/work-hours.ts:369-370 | the first later interval of the sorted list is the earliest one |
| `Boundaries.ListDecides` | packages/shared/src/work-hours.ts:349-352 | up to midnight of the fifteenth day ahead, the -1..14 list and the open-now question agree at every instant |
| `Boundaries.OpeningIsExact` | packages/shared/src/work-hours.ts:338-343 | an answer that opens is exact, whether or not the fortnight fits |
| `Boundaries.ClosingIsExact` | packages/shared/src/work-hours.ts:338-343 | a closing reported before the listed days run out is exact, whether or not the fortnight fits |
| `Boundaries.BoundaryIsExact` | packages/shared/src/work-hours.ts:338-371 | every answer in reach of the list is exact: constant up to the instant, flipped at it; and no answer means constant for 14 days |
| `Boundaries.ExactForEverySchedule` | packages/shared/src/work-hours.ts:338-371 | the documented promise holds at an instant for all schedules of a zone if and only if midnight of the fifteenth day ahead is not before `now + 14 days` |
| `Boundaries.MembershipIsConstant` | packages/shared/src/work-hours.ts:338-371 | shift membership does not change before the answer; only "off shift and nothing to come" depends on the fortnight |
| `Boundaries.ConstantForEverySchedule` | packages/shared/src/work-hours.ts:338-371 | that holds for all schedules of a zone if and only if the fortnight fits |
| `Boundaries.ClosedFortnightIsWrong` | packages/shared/src/work-hours.ts:349-370 | when it does not fit, a grid closed for the fortnight opens unreported at the limit of the list |
| `Boundaries.SkippedMidnightIsOrderedElsewhere` | packages/shared/src/work-hours.ts:225-235 | a zone whose clock skips a local midnight meets the hypothesis of these results on all days but two |
| `Boundaries.RunOutIsWrong` | packages/shared/src/work-hours.ts:360-368 | when it does not fit in a day-ordered zone, the round-the-clock grid is told of a closing that never happens |
| `Boundaries.SpringForwardRunsOut` | packages/shared/src/work-hours.ts:349-368 | a concrete zone and instant where that occurs: UTC+2 springing forward on day 10, asked at 23:30 on day 0 |
| `Boundaries.ConstantZonesFit` | packages/shared/src/work-hours.ts:349-366 | with one constant offset the fortnight always fits |
| `ScheduleMeaning.NextBoundaryIsFirstFlip` | packages/shared/src/work-hours.ts:344-371 | in every zone: a boundary is reported if and only if it is the first instant after `now` at which the windows in force on days -1 to 14 change, a closing only if it is less than 14 days away |
| `Presence.BoundaryIsAhead` | packages/shared/src/work-hours.ts:344-371 | every reported boundary lies after the instant of the question |
| `Presence.PickRulesWithoutSchedule` | packages/shared/src/presence.ts:113-122 | without a usable window on any weekday the pick is shown for ever (available when never picked), with its note and its author, and no expiry |
| `Presence.PickRulesWhileItLives` | packages/shared/src/presence.ts:124-132 | a live override shows the pick, its note and author and the override's end |
| `Presence.ScheduleRulesOtherwise` | packages/shared/src/presence.ts:134-161 | otherwise "offline" stays with its note; on shift shows available and off shift away, decided by the schedule, the latter announcing exactly the next opening |
| `Presence.OverrideIsLiveIff` | packages/shared/src/presence.ts:173-189 | in every zone an override expires at the next boundary, or else at the next local midnight; that is later than it was set if and only if a boundary is reported or that midnight lies ahead |
| `Presence.OverrideWinsThenYields` | packages/shared/src/presence.ts:106-162 | in every zone an override wins until its expiry and from then on yields to the schedule (or stays offline) |
| `Presence.OverrideCannotOutliveItsShift` | packages/shared/src/presence.ts:173-189 | up to an expiry that a boundary set, shift membership is constant, and it flips there when the answer is in reach; any other expiry is the next local midnight |
| `Presence.DayOrderKeepsOverridesLive` | packages/shared/src/presence.ts:173-189 | in a day-ordered zone every override is live when it is set |
| `Presence.SkippedMidnightEndsThePick` | packages/shared/src/work-hours.ts:404-408 | a failing input: a pick made at 23:30 before a skipped midnight expires at 23:00 |
| `Presence.StatusIsAStepFunction` | packages/shared/src/presence.ts:106-162 | the effective status is constant up to the earlier of the live override's end and the next boundary; only "off shift and nothing to come" depends on the fortnight |
| `Presence.StepFunctionForEverySchedule` | packages/shared/src/presence.ts:106-162 | that holds for every schedule of a zone and every pick if and only if the fortnight fits |
| `Presence.SweepingMissesNothing` | packages/shared/src/presence.ts:106-162 | re-resolving at exactly those instants keeps the recorded status right throughout a run whose wake-ups are settled |
| `OutboxSafety.StepKeepsInv` | apps/web/public/widget.js:1734-1807 | every handler step of the outbox keeps the invariant on storage, chains, closures, latch and wire |
| `OutboxSafety.NothingIsLost` | apps/web/public/widget.js:1641-1642 | in every reachable state each message ever accepted is at the server, or pending as typed, or was discarded by name (stale at a reload, or wiped) |
| `OutboxSafety.MessageSurvives` | apps/web/public/widget.js:1641-1807 | along every continuation without a wipe or a reload a day later, a message stays pending or at the server |
| `OutboxSafety.ReloadRestores` | apps/web/public/widget.js:1641-1642 | a reload at any reachable state restores each pending message, in flight as queued and failed as failed; a message it leaves out was acknowledged or is a day old |
| `OutboxSafety.LatchIsHeldByOneClosure` | apps/web/public/widget.js:1734-1751 | the latch is held exactly when one parked closure carries the current generation, only one does, and its timer runs |
| `OutboxSafety.LatchCannotStick` | apps/web/public/widget.js:1758-1770 | the holder's timeout is always possible and strictly shortens what is left of the chain |
| `OutboxOrder.ChainFramesAreOrdered` | apps/web/public/widget.js:1734-1751 | on the wire, generations never go down; under one generation no message goes out twice, and messages go out in the order they were typed |
| `OutboxOrder.SupersededNeverEmits` | apps/web/public/widget.js:1744-1745 | a chain that lost its generation never emits again, whatever follows on the page |
| `OutboxOrder.ReconnectRearms` | apps/web/public/widget.js:2161-2181 | a drop and a reconnection start a new chain over exactly the queued and in-flight messages, the oldest already on the wire |
| `OutboxWidget.Widget.constructor` | apps/web/public/widget.js:1642-1642 | booting restores exactly the fresh records, failed ones as failed |
| `OutboxWidget.Widget.PersistOutbox` | apps/web/public/widget.js:1641-1641 | storage becomes all pending messages but the acknowledged ones |
| `OutboxWidget.Widget.MarkPending` | apps/web/public/widget.js:1726-1726 | changes one status and storage, nothing else; unknown ids change nothing |
| `OutboxWidget.Widget.RemovePending` | apps/web/public/widget.js:1725-1725 | drops one message from memory and storage, nothing else |
| `OutboxWidget.Widget.SendPayload` | apps/web/public/widget.js:1758-1784 | marks in flight, parks one closure, emits one frame when there is a socket |
| `OutboxWidget.Widget.ChainNext` | apps/web/public/widget.js:1744-1751 | the chain's continuation: stop if superseded, release the latch at the end or offline, skip removed ids, else send |
| `OutboxWidget.Widget.ReadyOrder` | apps/web/public/widget.js:1736-1738 | the queued and in-flight ids, each once, oldest first |
| `OutboxWidget.Widget.FlushOutbox` | apps/web/public/widget.js:1734-1757 | takes the flush step: at most one chain starts, under a new generation |
| `OutboxWidget.Widget.OnTimeout` | apps/web/public/widget.js:1762-1769 | the timer's effect, with its settled and generation guards |
| `OutboxWidget.Widget.OnAck` | apps/web/public/widget.js:1770-1783 | the acknowledgement's effect, late ones included |
| `OutboxWidget.Widget.RetrySend` | apps/web/public/widget.js:1785-1785 | queues and sends one message outside any chain |
| `OutboxWidget.Widget.OnSend` | apps/web/public/widget.js:1786-1807 | adds the message as queued, stores it and flushes |
| `OutboxWidget.Widget.OnMessage` | apps/web/public/widget.js:1353-1353 | removes one pending message whose id ends the external id, or none when no id does |
| `OutboxWidget.Widget.OnDisconnect` | apps/web/public/widget.js:2170-2181 | a new generation and a free latch |
| `OutboxWidget.Widget.OnConnect` | apps/web/public/widget.js:2161-2168 | connects and flushes |
| `OutboxWidget.Widget.DoReset` | apps/web/public/widget.js:574-590 | everything pending or stored is gone, parked chains are superseded |
| `OutboxEffects.AckDelivers` | apps/web/public/widget.js:1771-1782 | a positive acknowledgement of an unsettled closure, however late, makes its message sent and takes it out of storage; no other message changes status but for one that goes in flight |
| `OutboxEffects.AckRefuses` | apps/web/public/widget.js:1776-1782 | a negative one makes it failed, in memory and in storage |
| `OutboxEffects.TimeoutFails` | apps/web/public/widget.js:1763-1770 | so does the timer of an unsettled closure of no superseded chain |
| `OutboxEffects.AckIsRecorded` | apps/web/public/widget.js:1776-1782 | an acknowledgement settles its closure, stops its timer and uses up its one going-on; other closures stay |
| `OutboxEffects.TimeoutIsRecorded` | apps/web/public/widget.js:1763-1770 | a timeout that counts uses it up too, but leaves the closure open for a late acknowledgement |
| `OutboxEffects.MatchesEnding` | apps/web/public/widget.js:1353-1353 | an id matches an external id exactly when that ends with it |
| `OutboxEffects.LateOutcomesAreIgnored` | apps/web/public/widget.js:1766-1777 | a second acknowledgement changes nothing, a timeout that does not count only disarms its timer |
| `OutboxEffects.HolderGoesOn` | apps/web/public/widget.js:1748-1757 | once the outcome of the chain's closure is noted, the next message still pending is in flight with one frame on the wire, or the latch is free |
| `OutboxEffects.NextGoesOn` | apps/web/public/widget.js:1748-1755 | what a chain does next: silent when superseded, done when nothing is left or offline, else exactly one frame for the first id still pending |
| `OutboxEffects.RetryHandsOver` | apps/web/public/widget.js:1785-1785 | a retry puts the message's frame on the wire, in flight and stored as not failed, with a timer bound to no generation |
| `OutboxEffects.SendGoesOut` | apps/web/public/widget.js:1786-1807 | sending on an idle connected page with nothing else waiting puts the message on the wire at once, in flight and stored |
| `OutboxEffects.SendWaits` | apps/web/public/widget.js:1739-1745 | offline, or while a chain owns the queue, it waits in memory and storage |
| `OutboxEffects.FlushStarts` | apps/web/public/widget.js:1739-1757 | a flush of an idle connected page sends the oldest waiting message under a new chain over all of them, its timer and ack bound to that chain and generation; otherwise nothing changes |
| `OutboxEffects.ConnectFlushes` | apps/web/public/widget.js:2161-2168 | connecting is a flush of the page that is now connected |
| `OutboxEffects.DisconnectSupersedes` | apps/web/public/widget.js:2170-2181 | a drop frees the latch and supersedes every chain, and the page counts as offline if the socket was its own |
| `OutboxEffects.EchoRemoves` | apps/web/public/widget.js:1353-1353 | an echo removes its message from memory and storage and nothing else |
| `OutboxEffects.ResetForgets` | apps/web/public/widget.js:574-590 | a reset forgets everything and supersedes every chain |
| `OutboxEffects.ReloadRestoresFresh` | apps/web/public/widget.js:1641-1642 | a reload restores exactly the stored messages typed in the last 24 hours, and none of an expired session |
| `OutboxEffects.AckedIsNotRestored` | apps/web/public/widget.js:1641-1642 | a message acknowledged and left alone since is not restored by a reload, in any run |
| `OutboxEffects.DeliveredStays` | apps/web/public/widget.js:1734-1807 | a sent message stays sent and out of storage under every event that does not take it up again |
| `OutboxEffects.TakenUpIsNotSent` | apps/web/public/widget.js:1734-1807 | and under no other: after such an event it is no longer sent |
| `OutboxEffects.AckedMayFailAgain` | apps/web/public/widget.js:1763-1770 | a reachable state in which the timer of an earlier retry marks an acknowledged message as failed again |
| `OutboxEffects.RunKeepsPassed` | apps/web/public/widget.js:1748-1762 | in every run a chain's closure carries an id its chain has passed |
| `Splitter.ExportSplitter.FlushPart` | apps/api/scripts/contact-transfer-load.ts:186-198 | stores the header and the pieces in hand as the next part, or nothing when there is none |
| `Splitter.ExportSplitter.Chunk` | apps/api/scripts/contact-transfer-load.ts:199-227 | one round of the stream loop keeps the invariant: what came in is the header, the stored bodies, the pieces in hand and the carried partial row |
| `Splitter.ExportSplitter.SplitRows` | apps/api/scripts/contact-transfer-load.ts:212-226 | the row loop turns any buffer into full parts, pieces in hand and a carry without a newline |
| `Splitter.ExportSplitter.Finish` | apps/api/scripts/contact-transfer-load.ts:228-232 | at the end of the stream the stored bodies are those of the reference definition on all bytes read |
| `Splitter.SplitExport` | apps/api/scripts/contact-transfer-load.ts:180-232 | the stored parts are a function of the concatenated bytes: the division into chunks does not matter |
| `Splitter.PartsRespectTheCap` | apps/api/scripts/contact-transfer-load.ts:212-232 | every part but the last has exactly the maximum of newline-terminated rows, the last at most that many, none is empty, and together they are the body |
| `Splitter.SplittingConservesBytes` | apps/api/scripts/contact-transfer-load.ts:186-232 | header and parts make up the input exactly when the header line is complete or the input empty |
| `Splitter.StoredPartsHaveTheHeader` | apps/api/scripts/contact-transfer-load.ts:186-198 | every stored part is numbered by its place and starts with the input's own first line, with something behind it |
| `Splitter.NothingStoredIff` | apps/api/scripts/contact-transfer-load.ts:199-232 | nothing is stored exactly when the input has at most one line |
| `DraftSafety.StepKeepsInv` | apps/api/src/ai-assistant/ai-inbox.service.ts:182-308 | every database write and every provider outcome keeps the invariant on rows, claims and provider calls |
| `DraftSafety.SentAtMostOnce` | apps/api/src/ai-assistant/ai-inbox.service.ts:228-245 | over all interleavings at most one provider call per draft, carrying the text its accept claimed before the draft expired |
| `DraftSafety.PendingMeansUntouched` | apps/api/src/ai-assistant/ai-inbox.service.ts:228-306 | a pending row was never sent, is held by no request, shows no decision, and is the only pending one of its message |
| `DraftSafety.RowShowsWhatWasSent` | apps/api/src/ai-assistant/ai-inbox.service.ts:212-245 | the row of a sent draft keeps exactly what the customer got: the edited text if there is one, else the draft's, whatever overwrote its state since |
| `DraftSafety.HolderIsUnique` | apps/api/src/ai-assistant/ai-inbox.service.ts:228-245 | at most one accept holds a draft, and a holder has not sent it |
| `DraftSafety.ReleaseUndoesClaim` | apps/api/src/ai-assistant/ai-inbox.service.ts:301-306 | claim, failure before sending and release restore the table |
| `DraftSafety.NeverSentExactlyWhenSealed` | apps/api/src/ai-assistant/ai-inbox.service.ts:182-308 | a draft is beyond sending in every continuation if and only if no accept has claimed it and it has lapsed, or is decided with no accept left to release it |
| `DraftSafety.RejectStopsTheSend` | apps/api/src/ai-assistant/ai-inbox.service.ts:197-209 | a reject keeps its draft from ever being sent later if and only if no accept has claimed it by then |
| `DraftSafety.ReleaseRearmsIff` | apps/api/src/ai-assistant/ai-inbox.service.ts:301-306 | a failed accept makes its draft sendable again if and only if the release finds the row as claimed, the index admits it and the draft has not lapsed |
| `DraftSafety.RejectedDraftMayHaveBeenSent` | apps/api/src/ai-assistant/ai-inbox.service.ts:197-201 | a reachable state in which a rejected draft was sent |
| `DraftSafety.ExpiredAnswerExplained` | apps/api/src/ai-assistant/ai-inbox.service.ts:246-256 | a claim lost to expiry is told the truth; one lost to a decision is told "expired" exactly when the row is pending again, and then a claim was released meanwhile |
| `DraftSafety.ExpiredAnswerCanBeWrong` | apps/api/src/ai-assistant/ai-inbox.service.ts:251-252 | a reachable state in which it was told so of a draft that is pending and far from expiring |
| `DraftSafety.ReleaseCanBeRefused` | prisma/migrations/0_init/migration.sql:2648-2648 | a reachable state in which the one-pending index refused the release: the draft is accepted, was not sent and never will be |
| `DraftDesk.Desk.ClaimWhereUnexpiredPending` | apps/api/src/ai-assistant/ai-inbox.service.ts:235-245 | the compare-and-set: the count is one exactly when the row was pending and unexpired, and only then the row changes |
| `DraftDesk.Desk.FindCurrent` | apps/api/src/lib/ai/suggestion-store.ts:31-33 | finds the pending draft of a message, or shows that there is none |
| `DraftDesk.Desk.AnotherPending` | prisma/migrations/0_init/migration.sql:2648-2648 | decides, going through the table, whether the index refuses a row as pending |
| `DraftEffects.FirstReadDecides` | apps/api/src/ai-assistant/ai-inbox.service.ts:182-195 | a request goes on exactly when its draft exists, is pending and, for an accept, has not lapsed; otherwise it ends as not found, already decided with the row's state, or expired, each in exactly its case |
| `DraftEffects.ClaimRecords` | apps/api/src/ai-assistant/ai-inbox.service.ts:212-245 | a claim succeeds exactly on a pending unexpired row and records state, text, author and time; else no row changes |
| `DraftEffects.SecondReadDecides` | apps/api/src/ai-assistant/ai-inbox.service.ts:246-257 | after a lost claim: expired if the row is pending, else already decided with its state |
| `DraftEffects.RejectRecords` | apps/api/src/ai-assistant/ai-inbox.service.ts:197-209 | a reject that goes on writes state, author and time over the row whatever it is, and nothing else |
| `DraftEffects.SendingRecords` | apps/api/src/ai-assistant/ai-inbox.service.ts:259-281 | the provider is given the claimed text once |
| `DraftEffects.FailureDecides` | apps/api/src/ai-assistant/ai-inbox.service.ts:282-308 | a failed send gives up its claim exactly on the seven codes raised before the provider call |
| `DraftEffects.ReleaseRecords` | apps/api/src/ai-assistant/ai-inbox.service.ts:301-306 | a release makes the row pending and undecided again exactly if it is as claimed and no other draft of its message is pending |
| `DraftEffects.LookUpRemembers` | apps/api/src/lib/ai/suggestion-store.ts:31-33 | a generation remembers the pending draft of its message, or that there is none |
| `DraftEffects.ReplaceRecords` | apps/api/src/lib/ai/suggestion-store.ts:30-62 | a new draft is pending for 24 hours, the one looked up is superseded, all others stay; or the index refuses and nothing changes |
| `DraftEffects.AnsweredNeverActs` | apps/api/src/ai-assistant/ai-inbox.service.ts:182-308 | an answered request never acts again, in any continuation |
| `DraftEffects.RefusedChangesNothing` | apps/api/src/ai-assistant/ai-inbox.service.ts:187-195 | a request refused at its first read never changes a row |
| `DraftEffects.RejectedWasReadPending` | apps/api/src/ai-assistant/ai-inbox.service.ts:187-209 | in every run, a draft that shows as rejected was pending when some reject of it read it |
| `UrlEncoding.Utf8IsExact` | packages/shared/src/template-render.ts:1071-1079 | octets decode to a code point exactly when they are its encoding: no overlong forms, surrogates or values out of range |
| `UrlEncoding.RoundTrip` | packages/shared/src/template-render.ts:1071-1079 | whatever can be percent-encoded decodes to itself |
| `UrlEncoding.EncodesTheWellFormed` | packages/shared/src/template-render.ts:1078-1078 | encoding throws exactly on unpaired surrogates |
| `UrlEncoding.ButtonValueIsWire` | packages/shared/src/template-render.ts:1057-1079 | the encoder throws exactly on unpaired surrogates; its result is unescaped characters and upper-case escapes only |
| `UrlEncoding.ButtonValueDecodes` | packages/shared/src/template-render.ts:1057-1079 | the result is the value's encoding, which decodes to the value, or the value itself, and then it decodes to a text whose encoding it is |
| `UrlEncoding.ButtonValueIsIdempotent` | packages/shared/src/template-render.ts:1062-1065 | encoding twice is encoding once |
| `UrlEncoding.PassesExactlyEncodings` | packages/shared/src/template-render.ts:1062-1075 | a value passes untouched if and only if it is the encoding of some text |
| `UrlEncoding.OnlyEncodingsCollide` | packages/shared/src/template-render.ts:1071-1079 | two values are sent alike only when equal or one is the encoding of the other |
| `UrlEncoding.OthersAreEncoded` | packages/shared/src/template-render.ts:1073-1078 | a value outside wire form is encoded as it stands even if it decodes cleanly |
| `UrlEncoding.LowerCaseEscapesAreEncodedAgain` | packages/shared/src/template-render.ts:1062-1065 | so lower-case escapes are encoded twice |
| `UrlEncoding.EncodesScalarByScalar` | packages/shared/src/template-render.ts:1078-1078 | encoding goes scalar by scalar: letters, digits and -_.!~*'() stay, any other becomes an upper-case escape per octet of its UTF-8 form |
| `UrlEncoding.Utf8IsTheTable` | packages/shared/src/template-render.ts:1078-1078 | the UTF-8 form is the shortest that holds the scalar, in the bit layout of section 3 of RFC 3629 |
| `Tokens.MatchIsLongestToken` | packages/shared/src/field-tokens.ts:219-220 | the scanner matches exactly where the prefix is followed by two or more dotted segments up to a word boundary, and takes the longest such path |
| `Tokens.SpansAreAllTokens` | packages/shared/src/field-tokens.ts:228-238 | scanning left to right finds a token wherever one stands: tokens never overlap |
| `Tokens.ReplaceInterleaves` | packages/shared/src/field-tokens.ts:399-405 | replacement is the text between the tokens with each token's value in its place, in one pass |
| `Tokens.ReplaceIsHomomorphic` | packages/shared/src/field-tokens.ts:399-405 | replacement distributes over concatenation at every clean cut |
| `Tokens.TokenAfterWordStays` | packages/shared/src/field-tokens.ts:216-220 | a token directly after a word character, as after another token, is not replaced |
| `Tokens.JoinSplits` | packages/shared/src/field-tokens.ts:402-402 | splitting at dots loses nothing and leaves no dot |
| `TokenMeaning.TokensStart` | packages/shared/src/field-tokens.ts:219-220 | a token starts with `$var.`, not directly after a letter, digit or underscore, these spelled out |
| `FieldTokens.ResolveFollowsRoute` | packages/shared/src/field-tokens.ts:431-499 | the recursive dispatcher serves every path by its route: number of triggers, namespace and arity |
| `FieldTokens.TriggersAreTransparent` | packages/shared/src/field-tokens.ts:416-419 | leading `trigger` segments change nothing but that a bare contact field is read from the trigger contact; without one they change nothing at all |
| `FieldTokens.CheckerIsExact` | packages/shared/src/field-tokens.ts:708-762 | the checker passes exactly the paths whose route ends at a recognised key or a step output, save the listed shapes it overlooks |
| `FieldTokens.UnflaggedTokensAreRecognised` | packages/shared/src/field-tokens.ts:677-765 | a token of a text that is not reported drives the dispatcher to a recognised key or a step output, never to a dead end |
| `FieldTokens.ExtractFieldTokens` | packages/shared/src/field-tokens.ts:228-238 | the distinct tokens of the text, in order of first occurrence |
| `FieldTokens.FindUnknownTokens` | packages/shared/src/field-tokens.ts:716-764 | the distinct tokens that do not pass, in order |
| `FieldTokens.FlaggedSnoc` | packages/shared/src/field-tokens.ts:716-764 | tokens are reported in order, each exactly when it does not pass |
| `TokenMeaning.BuiltinContactKeys` | packages/shared/src/field-tokens.ts:501-533 | the built-in contact keys are exactly those no custom field can take over |
| `TokenMeaning.MessageKeys` | packages/shared/src/field-tokens.ts:579-608 | the message keys the checker knows are exactly those the resolver ever answers |
| `TokenMeaning.ConversationKeys` | packages/shared/src/field-tokens.ts:610-637 | the same for conversation keys |
| `TokenMeaning.AgentKeys` | packages/shared/src/field-tokens.ts:566-577 | the same for agent keys |
| `TokenMeaning.ContactTokens` | packages/shared/src/field-tokens.ts:501-526 | which contact field each built-in key shows; absent ones show nothing |
| `TokenMeaning.CustomTokens` | packages/shared/src/field-tokens.ts:527-533 | a custom field shows its label, else its stored text, else nothing |
| `TokenMeaning.TagNames` | packages/shared/src/field-tokens.ts:521-522 | tag names are joined in order by a comma and a blank |
| `TokenMeaning.MessageTokens` | packages/shared/src/field-tokens.ts:579-608 | which message field each key shows |
| `TokenMeaning.ConversationTokens` | packages/shared/src/field-tokens.ts:610-637 | which conversation field each key shows |
| `TokenMeaning.TriggeringContact` | packages/shared/src/field-tokens.ts:445-483 | trigger.contact, message.contact and message.sender show the triggering contact's field; sender shows it too, or the agent's where that is empty |
| `TokenMeaning.AbsentContext` | packages/shared/src/field-tokens.ts:431-499 | without the context a namespace needs its tokens show nothing |
| `TokenMeaning.LookupGoesIn` | packages/shared/src/field-tokens.ts:247-255 | going one key further into a step's output succeeds exactly in an object with that key |
| `TokenMeaning.StepTokens` | packages/shared/src/field-tokens.ts:258-267 | what a step token shows by the kind of value that lies there; previousStep is the step of that id |
| `Shapes.FlattenShape` | packages/shared/src/workflow-shapes.ts:387-422 | the recursive loops compute the specified list |
| `Shapes.FlattenUnion` | packages/shared/src/workflow-shapes.ts:407-419 | the loop with its set of seen keys keeps the first leaf per dotted path |
| `Shapes.ListedAreDenoted` | packages/shared/src/workflow-shapes.ts:387-422 | every listed leaf is one the shape denotes, with its type and its description |
| `Shapes.ListedOnce` | packages/shared/src/workflow-shapes.ts:387-422 | no path is listed twice |
| `Shapes.UnionIsCompleteIff` | packages/shared/src/workflow-shapes.ts:407-419 | a union of completely flattened variants is flattened completely if and only if no two of its paths have the same dotted form |
| `Shapes.JoinIsInjective` | packages/shared/src/workflow-shapes.ts:412-412 | paths of non-empty dot-free keys have distinct dotted forms |
| `Shapes.FlattenIsExact` | packages/shared/src/workflow-shapes.ts:376-422 | with non-empty dot-free keys the list is exactly the denoted leaf paths, each once |
| `Shapes.EmptyKeyIsLost` | packages/shared/src/workflow-shapes.ts:407-419 | at the root an empty key is confused with no key: a shape whose flattening misses a leaf |
| `Shapes.FieldsInOrder` | packages/shared/src/workflow-shapes.ts:400-406 | fields are listed in their order, each below its own key |
| `Shapes.LaterVariantsOnlyAdd` | packages/shared/src/workflow-shapes.ts:407-419 | a further variant only appends leaves with new dotted paths, in order: of leaves that share one the first is listed |
| `Shapes.ListedLeavesAreReached` | packages/shared/src/field-tokens.ts:247-255 | following a listed path into a conforming value of a union-free shape reaches a value of the leaf's type |
| `Shapes.PickedTokenResolves` | apps/web/src/features/workflows/components/builder/data-inspector.tsx:263-270 | the token the picker inserts for a listed leaf is replaced by the value the step left there |
| `Shapes.PickedRootStays` | apps/web/src/features/workflows/components/builder/data-inspector.tsx:263-270 | the token inserted for a root leaf has one segment and is never replaced |
| `Templates.PiecesMakeTheText` | packages/shared/src/template-render.ts:22-30 | putting every placeholder back gives the text: literal parts are unchanged |
| `Templates.HitIsPlaceholder` | packages/shared/src/template-render.ts:23-23 | a placeholder is matched exactly where two braces, blanks, digits or a name, blanks and two braces stand, and with that inner part and end |
| `Templates.ScanFindsAll` | packages/shared/src/template-render.ts:367-376 | the scan finds a placeholder wherever one is matched; none overlap |
| `Templates.DialectsDoNotMeet` | packages/shared/src/template-render.ts:391-420 | no placeholder is both positional and named |
| `Templates.PositionalPlaceholderIndices` | packages/shared/src/template-render.ts:367-376 | the finite numbers of all placeholders, in order |
| `Templates.CountTemplatePlaceholders` | packages/shared/src/template-render.ts:35-46 | the highest of those numbers, or zero |
| `Templates.TemplateNamedPlaceholders` | packages/shared/src/template-render.ts:59-68 | the distinct names in order of first appearance |
| `Templates.ValidateConsecutive` | packages/shared/src/template-render.ts:1208-1224 | no issue exactly when the numbers are 1 to the highest; else zero, and the missing numbers in order |
| `Templates.ValidatePositionalBody` | packages/shared/src/template-render.ts:822-859 | no issue exactly when the body is short enough, consecutively numbered and has one example per variable; otherwise exactly the issues that apply |
| `Templates.IssuesMean` | packages/shared/src/template-render.ts:822-859 | each issue is reported exactly in its case: length above 1024, a zero, gaps, no examples, a wrong number of them |
| `Templates.AcceptedBodyRenders` | packages/shared/src/template-render.ts:12-30 | an accepted body rendered with one non-empty value per variable has every numbered placeholder replaced by its value |
| `Templates.NamedBodyRenders` | packages/shared/src/template-render.ts:70-84 | a named body renders with every placeholder replaced when each of its names has a non-empty value |
| `Templates.RenderShows` | packages/shared/src/template-render.ts:22-30 | for every text and values: literal parts in order, each placeholder n replaced by the n-th value if there is one and it is not empty, else left as written |
| `Templates.NamedRenderShows` | packages/shared/src/template-render.ts:76-84 | the same for named placeholders and the last entry for each name |
| `Templates.ShowsOneText` | packages/shared/src/template-render.ts:22-30 | only one text meets that description |
| `Templates.NothingSuppliedNothingChanges` | packages/shared/src/template-render.ts:12-15 | a text none of whose numbers has a non-empty value is unchanged |
| `Templates.NoNameNothingChanges` | packages/shared/src/template-render.ts:70-75 | the same for named placeholders |
| `Templates.LastEntryCounts` | packages/shared/src/template-render.ts:80-80 | of several entries for a name the last one counts |
| `Templates.OnlyZeroStaysUnrendered` | packages/shared/src/template-render.ts:22-30 | values for all variables reach every numbered placeholder if and only if none is numbered zero; gaps do no harm to rendering |
| `Base64.RoundTrip` | scripts/encrypt-secrets.ts:105-109 | decoding gives back the encoded octets, padding included |
| `Base64.ThreeOctets` | scripts/encrypt-secrets.ts:105-105 | three octets become four digits with the same 24 bits |
| `Base64.LastOctet` | scripts/encrypt-secrets.ts:105-105 | a single octet at the end is filled up with zero bits and padded by two equals signs |
| `Base64.LastTwoOctets` | scripts/encrypt-secrets.ts:105-105 | two octets are filled up likewise and padded by one |
| `Base64.DigitsAreTheAlphabet` | scripts/encrypt-secrets.ts:105-105 | the digits are A to Z, a to z, 0 to 9, plus and slash, in that order |
| `Rotation.DecryptInvertsEncrypt` | scripts/encrypt-secrets.ts:100-119 | packing, base64 and slicing lose nothing over any lawful cipher |
| `Rotation.EnvelopeLayout` | scripts/encrypt-secrets.ts:100-106 | an encrypted secret is `enc:v1:` and the base64 of 12 octets of nonce, 16 of tag and the ciphertext |
| `Rotation.OpensIff` | scripts/encrypt-secrets.ts:108-119 | an envelope opens exactly when it holds 29 octets or more and the cipher opens its parts |
| `Rotation.LawfulCiphersExist` | scripts/encrypt-secrets.ts:100-119 | the laws assumed of the cipher can be met |
| `Rotation.NormalizeRekeys` | scripts/encrypt-secrets.ts:126-136 | a secret stops the run exactly when the old key does not open it; current ones stay; others become ciphertext with the same meaning under the new key |
| `Rotation.NonceIsTheOneDrawn` | scripts/encrypt-secrets.ts:100-106 | what is rewritten starts with the nonce drawn for it |
| `RotationRun.Job.RekeyFields` | scripts/encrypt-secrets.ts:155-172 | the field loop rekeys exactly the covered non-empty strings, keeps all else, and reports a change exactly when one was needed |
| `RotationRun.Job.RekeyConfig` | scripts/encrypt-secrets.ts:221-250 | the same for a node's bearer token and headers |
| `RotationRun.Job.RekeyNodes` | scripts/encrypt-secrets.ts:216-254 | the same for all nodes of a graph, in order; a null node stops the run |
| `RotationRun.Job.RekeyRow` | scripts/encrypt-secrets.ts:150-317 | the same for a row of any of the five tables |
| `RotationRun.Job.Run` | scripts/encrypt-secrets.ts:144-324 | a run completes exactly when no row stops it, rewrites and counts exactly the rows that need it, leaves all rows from the failing one on untouched, and writes nothing when dry |
| `RotationRun.RestIsUnchanged` | scripts/encrypt-secrets.ts:144-324 | apart from its secrets a row comes out as it went in: other fields, nodes and node order |
| `RotationRun.SecretsKeepTheirMeaning` | scripts/encrypt-secrets.ts:144-324 | at every place, what the new key reads after the run is what the old key read before, and non-empty secrets are ciphertext |
| `RotationRun.SecondRunIsIdle` | scripts/encrypt-secrets.ts:130-131 | a further run under the same key rewrites nothing and does not stop |
| `RotationRun.RotationsCompose` | scripts/encrypt-secrets.ts:144-324 | after two rotations the newest key reads what the oldest read |
| `RotationRun.SecretFields` | scripts/encrypt-secrets.ts:155-193 | the secrets of each table: exactly these named fields, and a webhook's secret |
| `RotationRun.WorkflowSecrets` | scripts/encrypt-secrets.ts:195-262 | those of a workflow: its trigger's, and the bearer token and every header of each HTTP request node |
| `RotationRun.RunsDecideByPlace` | scripts/encrypt-secrets.ts:126-136 | a row is rewritten exactly when one of these is not empty and not current, and stops the run exactly when one is ciphertext the old key does not open (or a node is null) |

## Left out

Working hours and presence:

- The platform's time-zone database and formatter: a zone is an offset function with whole-second offsets.
- Boundaries.ExactForEverySchedule: for near zones with offsets of less than a day (or day-ordered ones), at instants where the midnights of the day and of the fifteenth day ahead are converted in order (`OrderedHere`). All other results on boundaries, and Presence.OverrideCannotOutliveItsShift, Presence.StatusIsAStepFunction, Presence.StepFunctionForEverySchedule and Presence.SweepingMissesNothing, ask the same and no more. What is not said is which answers are exact when one of those two midnights is skipped or repeated.
- Boundaries.RunOutIsWrong: for zones that are day-ordered throughout; Zones.SparseZonesAreDayOrdered says what suffices.
- The remapping of years 0 to 99 by `Date.UTC`, and instants outside the range of `Date`.
- The wording of the off-shift note ("back Mon 09:00"): the model keeps the instant it announces.
- Organisation-wide and inherited schedules: the model starts from one resolved schedule.

Outbox:

- Attachments: uploads, IndexedDB and their timer, which is not guarded by a generation; the theorems are about text messages.
- The page itself (bubbles, typing, history) and the cut of a message at 4096 characters; the body is taken as sent.
- Creating the socket is an event of its own; several tabs, and storage that refuses a write, are not modelled. Records without a time stamp do not occur.
- The environment is assumed to mint new ids, to acknowledge only what the server has, and never to end a foreign external id with a pending message's id.
- No claim that a queued message is eventually sent: a chain takes its ids when it starts and does not look again.
- OutboxOrder.SupersededNeverEmits: about one life of the page; a reload starts with no chains.

Splitter:

- Quoted newlines inside CSV cells: the splitter works on raw newline bytes. The upload itself and the decision to split are left out.

Drafts:

- Voice rendering, event publishing and the text of errors; the visibility check; the attempt number; deletion of drafts by retention. A new draft's expiry is counted from its insertion, not from the start of the transaction.
- The trimming of edited text: it is taken as trimmed.
- The codes that release a claim are assumed never to be raised after a provider call.

URL values and templates:

- Template component types, category and length rules beyond the positional body check; named examples; carousels.
- The rounding of placeholder numbers above 2^53: such a number cannot occur in an accepted body.

Tokens and shapes:

- Object keys found on the prototype chain; every object has just its own fields. Text is a sequence of Unicode characters.
- `JSON.stringify` of structured step outputs is a parameter. The fields of a shape come in the order `Object.entries` gives them.
- Shapes.ListedLeavesAreReached: for union-free shapes; a value of a union need not have the leaves of its other variants.

Rotation:

- AES-GCM: any cipher that opens what it sealed will do. Key decoding, randomness and the database are parameters.
- Resuming a run that stopped half-way under the old key, and concurrent writers.
- The five loops over tables are one loop over their rows in the same order.
