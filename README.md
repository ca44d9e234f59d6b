# Room kiosk: verified model of the FREE/BUSY machine

The kiosk shows whether a meeting room is FREE or BUSY, lets a walk-up user
book it for 15, 30 or 60 minutes, and reverts to FREE when the booking lapses.
The repository implements this machine three times, and this project models all three:

- `Activity` (`main_activity.dfy`) models `MainActivity`. The only durable state is the
  `end_time` entry of the `kiosk_prefs` preferences, a `map<string, int>`
  field of class `KioskActivity`. The room is BUSY exactly when `now < end_time`,
  and a missing entry reads as 0. Booking writes `now + minutes * 60000`.
  Five taps on the status text, each less than 500 ms after the previous one,
  force-toggle the state. `refreshState` only reads the deadline and never
  deletes a stale one.
- `Simulator` (`kiosk_simulator.dfy`) models the browser simulator in `index.tsx`
  (class `KioskSimulator`). Its deadline lives in `localStorage` under
  `kiosk_end_time`. The mount effect deletes a stale deadline, and the one-second
  interval frees the room once a (truthy) deadline has passed. The admin toggle
  is keyed on the displayed status, and a 500 ms timeout, re-armed on every tap,
  zeroes the tap counter.
- `ViewModel` (`room_view_model.dfy`) models `RoomViewModel`, which is driven by
  a calendar. The current meeting is the first event in progress. The upcoming
  list holds the events that have not started, stably sorted by start time. The
  countdown runs to the next transition and is clamped at 0. After each fetch the
  LED is set once.
- `Provider` (`calendar_provider.dfy`) models `MockCalendarProvider`, a mutable
  list of events. It appends quick bookings, returns a sorted copy, and removes
  the first event with a given id. `Events` (`room_event.dfy`) holds the
  immutable `RoomEvent` record. `EventOrder` (`event_order.dfy`) holds the stable
  `sortedBy { it.startTime }`.

All clock reads become a `now` parameter. Timers, the periodic loops and the
dialog buttons become explicit method calls on the classes. Each class method
is proved against a pure function of the old state. The lemmas are stated
about those functions.

Behaviour worth noting:
- Both tap gestures, the activity's and the page's, count a tap as part of the
  gesture when it comes within 500 ms of the previous one.
- Neither `createQuickBooking` nor either booking flow checks that the
  duration is positive.
- `MainActivity` never clears a deadline that has passed; it only reads it as
  FREE.
- The activity's admin toggle from BUSY removes the deadline, which then reads
  as 0, so the room shows FREE only while the clock is non-negative.

## Model

| member | source | states |
|---|---|---|
| Events.NewEvent | app/src/main/java/com/boxire/roomkiosk/model/RoomEvent.kt:3-9 | the record's defaults: `isOrganizerEditable` is false and `eventId` is null |
| EventOrder.SortByStart | app/src/main/java/com/boxire/roomkiosk/data/CalendarProvider.kt:35 | `sortedBy { it.startTime }` returns an ascending permutation of its input; events with equal start times keep their input order (stable) |
| Provider.WrapInt32 | app/src/main/java/com/boxire/roomkiosk/data/CalendarProvider.kt:40 | 32-bit Int wrap-around: the result is in Int range, congruent to the exact value mod 2^32, and equal to it when that fits |
| Provider.QuickBooking | app/src/main/java/com/boxire/roomkiosk/data/CalendarProvider.kt:38-43 | the appended event is titled "Kiosk Booking", starts at `now`, is organizer-editable and has id `kiosk-<now>`; its end is `now` plus `d*60000` wrapped to a 32-bit Int, which is exactly `now + d*60000` iff `-35791 <= d <= 35791` (the Int product fits); no check that `d > 0` |
| Provider.QuickBookingOverflow | app/src/main/java/com/boxire/roomkiosk/data/CalendarProvider.kt:40 | a 35792-minute booking wraps: it ends 2^32 ms early, before it starts |
| Provider.LongString | app/src/main/java/com/boxire/roomkiosk/data/CalendarProvider.kt:41 | the decimal rendering of a Long in the id is non-empty, starts with "-" iff the number is negative, and reads back as the same number |
| Provider.KioskId | app/src/main/java/com/boxire/roomkiosk/data/CalendarProvider.kt:41 | a booking id is "kiosk-" followed by a decimal rendering that reads back as the milliseconds |
| Provider.KioskIdInjective | app/src/main/java/com/boxire/roomkiosk/data/CalendarProvider.kt:41 | bookings made at different milliseconds get different ids |
| Provider.FindById | app/src/main/java/com/boxire/roomkiosk/data/CalendarProvider.kt:46 | `find` returns nothing iff no event has the id, and otherwise the first event carrying it |
| Provider.RemoveFirst | app/src/main/java/com/boxire/roomkiosk/data/CalendarProvider.kt:48 | `remove(x)` leaves the list unchanged when `x` is absent, and otherwise takes out exactly one copy of `x` |
| Provider.RemoveFirstAt | app/src/main/java/com/boxire/roomkiosk/data/CalendarProvider.kt:48 | removing the first equal element keeps the rest in order: the result is `s[..i] + s[i+1..]` |
| Provider.EndRemovesFirstMatch | app/src/main/java/com/boxire/roomkiosk/data/CalendarProvider.kt:46-49 | ending a meeting removes exactly the first event with the id and keeps the others in order; this relies on structural equality, since no earlier event can equal the one found |
| Provider.EndWithoutMatchKeepsAll | app/src/main/java/com/boxire/roomkiosk/data/CalendarProvider.kt:46 | when no event has the id, the list is unchanged |
| Provider.RemainingAfterEnd | app/src/main/java/com/boxire/roomkiosk/data/CalendarProvider.kt:46-48 | `endCurrentMeeting` leaves the list unchanged when `find` finds nothing, and otherwise removes exactly one copy of the found event, so the list is one shorter |
| Provider.NullIdEventsSurvive | app/src/main/java/com/boxire/roomkiosk/data/CalendarProvider.kt:45-46 | an event with a null id is never removed: the number of its copies is unchanged |
| Provider.MockCalendarProvider.constructor | app/src/main/java/com/boxire/roomkiosk/data/CalendarProvider.kt:14 | the store starts from a given event list (the seeding is not modelled) |
| Provider.MockCalendarProvider.GetTodaysEvents | app/src/main/java/com/boxire/roomkiosk/data/CalendarProvider.kt:34-36 | returns a stable, start-sorted permutation of the stored list and leaves the list unchanged |
| Provider.MockCalendarProvider.CreateQuickBooking | app/src/main/java/com/boxire/roomkiosk/data/CalendarProvider.kt:38-43 | appends exactly the quick-booking event after the earlier ones, which are untouched, and returns true |
| Provider.MockCalendarProvider.EndCurrentMeeting | app/src/main/java/com/boxire/roomkiosk/data/CalendarProvider.kt:45-50 | returns true iff some event has the id; the list becomes the list with the first such event removed, or stays unchanged |
| ViewModel.FindCurrent | app/src/main/java/com/boxire/roomkiosk/ui/RoomViewModel.kt:94 | finds nothing iff no event is in progress (`start <= now < end`), and otherwise the first event in progress in list order |
| ViewModel.StartingAfter | app/src/main/java/com/boxire/roomkiosk/ui/RoomViewModel.kt:98 | the filter keeps each event with `startTime > now` as often as it occurs, and no other event |
| ViewModel.Upcoming | app/src/main/java/com/boxire/roomkiosk/ui/RoomViewModel.kt:98 | the upcoming list holds exactly the events with `startTime > now` (as a multiset), sorted ascending by start; events with equal starts keep their list order |
| ViewModel.Fetched | app/src/main/java/com/boxire/roomkiosk/ui/RoomViewModel.kt:89-106 | `isBusy` holds iff some event is in progress, iff there is a current meeting; current and upcoming are as derived; every other field is carried over |
| ViewModel.LedFor | app/src/main/java/com/boxire/roomkiosk/ui/RoomViewModel.kt:109 | the LED gets `setBusy` iff busy, and `setAvailable` otherwise |
| ViewModel.CurrentNotUpcoming | app/src/main/java/com/boxire/roomkiosk/ui/RoomViewModel.kt:94-98 | the current meeting never appears in the upcoming list |
| ViewModel.PastEventsExcluded | app/src/main/java/com/boxire/roomkiosk/ui/RoomViewModel.kt:94-98 | an ended event with `start <= end <= now` is neither current nor upcoming |
| ViewModel.MalformedPastEventIsUpcoming | app/src/main/java/com/boxire/roomkiosk/ui/RoomViewModel.kt:98 | `start <= end` is not enforced, so an event that ended before `now` but "starts" after it is listed as upcoming |
| ViewModel.UpcomingHeadIsEarliest | app/src/main/java/com/boxire/roomkiosk/ui/RoomViewModel.kt:98 | the head of the upcoming list is the earliest event that has not started |
| ViewModel.CurrentOfSortedIsEarliestOngoing | app/src/main/java/com/boxire/roomkiosk/ui/RoomViewModel.kt:90-94 | the provider sorts the list first, so among overlapping meetings the current one has the earliest start |
| ViewModel.Countdown | app/src/main/java/com/boxire/roomkiosk/ui/RoomViewModel.kt:77-84 | the countdown is never negative; it is the time left to the next transition (current end when busy, else first upcoming start), and 0 when there is none or it has passed |
| ViewModel.UpdatedTime | app/src/main/java/com/boxire/roomkiosk/ui/RoomViewModel.kt:62-87 | a clock tick changes only `timeUntilNextState`, and sets it to the countdown |
| ViewModel.CountdownAfterFetch | app/src/main/java/com/boxire/roomkiosk/ui/RoomViewModel.kt:77-104 | right after a fetch, the countdown is positive iff some meeting is in progress or still to start |
| ViewModel.CountdownTicksDown | app/src/main/java/com/boxire/roomkiosk/ui/RoomViewModel.kt:77-84 | between fetches, the countdown falls by the elapsed time and stops at 0 |
| ViewModel.RoomViewModel.constructor | app/src/main/java/com/boxire/roomkiosk/ui/RoomViewModel.kt:25-42 | starts from the default `RoomUiState` with room id "pixel-parkview-1" and no LED command sent |
| ViewModel.RoomViewModel.UpdateTimeAndStatus | app/src/main/java/com/boxire/roomkiosk/ui/RoomViewModel.kt:62-87 | the posted state is the old one with the countdown recomputed |
| ViewModel.RoomViewModel.FetchEvents | app/src/main/java/com/boxire/roomkiosk/ui/RoomViewModel.kt:89-110 | the state is re-derived from the provider's sorted events, and one LED command matching `isBusy` is sent |
| ViewModel.RoomViewModel.BookMeeting | app/src/main/java/com/boxire/roomkiosk/ui/RoomViewModel.kt:112-117 | the provider gains the quick booking; the provider reports success, so the state is refetched |
| ViewModel.RoomViewModel.EndMeeting | app/src/main/java/com/boxire/roomkiosk/ui/RoomViewModel.kt:119-127 | no-op without a current meeting; otherwise sends its id (or "current" when the id is null) and refetches only when the provider reports success |
| ViewModel.RoomViewModel.OnCleared | app/src/main/java/com/boxire/roomkiosk/ui/RoomViewModel.kt:129-132 | teardown sends `setOff` to the LED |
| Activity.NoBookingMeansFree | app/src/main/java/com/boxire/roomkiosk/MainActivity.kt:128-131 | a missing `end_time` reads as 0, so with no booking and `now >= 0` the room is FREE |
| Activity.StoredEndTime | app/src/main/java/com/boxire/roomkiosk/MainActivity.kt:128-129 | `getLong("end_time", 0)`: the stored deadline when the key is present, and 0 otherwise |
| Activity.IsBusy | app/src/main/java/com/boxire/roomkiosk/MainActivity.kt:129-131 | with a stored deadline, busy iff `now` is before it; with none, busy iff `now < 0` |
| Activity.Booked | app/src/main/java/com/boxire/roomkiosk/MainActivity.kt:87-93 | booking stores exactly `end_time = now + m*60000` and keeps every other key; the room is BUSY at time `t` iff `t` is before that deadline |
| Activity.BookingLastsUntilDeadline | app/src/main/java/com/boxire/roomkiosk/MainActivity.kt:87-93 | for `m > 0` the room is BUSY at `now` and at `now + m*60000 - 1`, and FREE at `now + m*60000` |
| Activity.Toggled | app/src/main/java/com/boxire/roomkiosk/MainActivity.kt:113-124 | the toggle removes `end_time` when BUSY and books 15 minutes when FREE; for `now >= 0` it negates the status at `now` |
| Activity.ToggleAtNegativeClockStaysBusy | app/src/main/java/com/boxire/roomkiosk/MainActivity.kt:115-119 | for a negative clock, forcing FREE leaves the room BUSY, because the removed key reads as 0 |
| Activity.RefreshOutcome | app/src/main/java/com/boxire/roomkiosk/MainActivity.kt:127-148 | BUSY iff `now < end_time`; when BUSY the recheck delay `end_time - now` is positive, so the 1000 ms fallback is unreachable |
| Activity.ButtonMinutes | app/src/main/java/com/boxire/roomkiosk/MainActivity.kt:62-68 | btn15 gives 15, btn30 gives 30, btn60 gives 60, and any other view gives 0 |
| Activity.ButtonBookingMakesBusy | app/src/main/java/com/boxire/roomkiosk/MainActivity.kt:62-93 | a confirmed button booking makes the room BUSY at `now` iff the view is one of the three buttons |
| Activity.Tap | app/src/main/java/com/boxire/roomkiosk/MainActivity.kt:97-110 | each tap sets the last tap time to `now`; the count grows when the gap is under 500 ms and restarts at 1 otherwise; the count stays in 0..4; a tap toggles iff it is the fifth, and the count then becomes 0 |
| Activity.QuickTapsContinue | app/src/main/java/com/boxire/roomkiosk/MainActivity.kt:99-109 | continuing with quick taps, the count goes round modulo 5, and a tap toggles iff it brings the count to a multiple of 5 |
| Activity.EveryFifthQuickTapToggles | app/src/main/java/com/boxire/roomkiosk/MainActivity.kt:99-109 | a fresh run of quick taps toggles on the 5th, 10th, ... tap and on no other |
| Activity.SixthTapDoesNotToggleAgain | app/src/main/java/com/boxire/roomkiosk/MainActivity.kt:106-109 | five quick taps toggle once; an immediate sixth tap leaves the count at 1 and does not toggle again |
| Activity.LongGapRestartsGesture | app/src/main/java/com/boxire/roomkiosk/MainActivity.kt:99-103 | taps at `t, t+100, t+5000, t+5100, t+5200` never toggle; the long gap restarts the count, which ends at 3 |
| Activity.KioskActivity.constructor | app/src/main/java/com/boxire/roomkiosk/MainActivity.kt:29-30 | the tap count and last tap time start at 0; the preferences are those that survived a restart |
| Activity.KioskActivity.RefreshState | app/src/main/java/com/boxire/roomkiosk/MainActivity.kt:127-148 | reports BUSY iff `now < end_time`, with a positive recheck delay; it changes nothing, so a stale deadline stays stored |
| Activity.KioskActivity.BookRoom | app/src/main/java/com/boxire/roomkiosk/MainActivity.kt:87-94 | the preferences become the booked ones, and the screen is refreshed from them |
| Activity.KioskActivity.ToggleForceFree | app/src/main/java/com/boxire/roomkiosk/MainActivity.kt:113-125 | the preferences become the toggled ones, and the screen is refreshed from them |
| Activity.KioskActivity.OnStatusTap | app/src/main/java/com/boxire/roomkiosk/MainActivity.kt:96-111 | the gesture fields follow one tap step; the preferences are toggled exactly when that tap fires; the count stays in 0..4 |
| Activity.KioskActivity.OnBookingButton | app/src/main/java/com/boxire/roomkiosk/MainActivity.kt:61-85 | OK in the dialog books the button's minutes; Cancel leaves the preferences unchanged |
| Simulator.Stored | index.tsx:14-16 | the stored deadline is present iff the `kiosk_end_time` key is, and then it is that key's value |
| Simulator.Restore | index.tsx:13-24 | goes BUSY with `endTime = stored` iff a stored value exists and `now < stored`; otherwise it deletes the stored key and keeps the state |
| Simulator.MountSyncs | index.tsx:13-24 | after mounting, the shown deadline equals the stored one, and the room is BUSY iff the stored deadline is ahead |
| Simulator.RestoreIdempotent | index.tsx:13-24 | restoring twice at the same time is the same as restoring once |
| Simulator.RemountIsLaterMount | index.tsx:13-24 | reloading the page later, from the storage the first mount left, gives the same state as a single mount at the later time |
| Simulator.BookThenReload | index.tsx:13-24 | after a confirmed booking, a reload before the deadline restores BUSY with the same `endTime`; a reload at or after it gives FREE with the key removed |
| Simulator.Tick | index.tsx:27-38 | with a truthy deadline and `now >= endTime`, the tick sets FREE, clears `endTime` and removes the stored key; and every other storage key is kept; otherwise nothing changes; it keeps the state synced |
| Simulator.MountThenTickIsLaterMount | index.tsx:13-38 | mounting at `now1` and ticking at a later `now2` gives the same state as mounting at `now2`, unless the stored deadline is 0 |
| Simulator.ZeroDeadlineOutlivesTick | index.tsx:29 | a deadline of 0 is falsy: restored at a negative clock, it is never cleared by a tick |
| Simulator.HandleBooking | index.tsx:40-42 | a booking button only opens the confirmation with its minutes |
| Simulator.CancelBooking | index.tsx:155 | Cancel resets the dialog to hidden with 0 minutes without touching status, deadline or storage |
| Simulator.OpenThenCancelChangesNothing | index.tsx:40-42 | opening the dialog and cancelling leaves everything but the hidden dialog as it was |
| Simulator.ConfirmBooking | index.tsx:44-55 | sets `endTime = now + minutes*60000` and status BUSY, writes that value under `kiosk_end_time` and keeps every other storage key, and resets the dialog to hidden with 0 minutes; the state stays synced |
| Simulator.OfferedDurations | index.tsx:129-131 | the booking buttons are shown only when FREE, and then they offer exactly 15, 30 and 60 minutes |
| Simulator.OfferedBookingExpires | index.tsx:28-55 | after booking an offered duration, a tick one millisecond before the deadline changes nothing, and a tick at the deadline frees the room and clears storage |
| Simulator.QuarterHourScenario | index.tsx:44-55 | mounting at 1000 with nothing stored gives FREE; booking 15 minutes gives deadline 901000; the room is still BUSY at 900999 and FREE at 901000 |
| Simulator.AdminTap | index.tsx:57-87 | every tap re-arms the 500 ms reset; the fifth accumulated tap flips the status and resets the count to 0: FREE to BUSY with a persisted 15-minute deadline, BUSY to FREE with the key removed; every other storage key is kept, and a tap that does not toggle leaves storage unchanged |
| Simulator.TapResetFires | index.tsx:84-86 | the reset timeout zeroes the count and changes nothing else |
| Simulator.GesturesAgree | index.tsx:57-87 | if the reset timeout is delivered on time, the simulator's timer-reset counter fires on exactly the taps the activity's gap-comparing counter fires on |
| Simulator.EveryFifthQuickTapToggles | index.tsx:60-86 | a fresh run of taps, each less than 500 ms after the previous one, toggles on the 5th, 10th, ... tap and on no other |
| Simulator.KioskSimulator.Mount | index.tsx:5-24 | mounting is the initial state followed by the restore effect, and leaves the component synced |
| Simulator.KioskSimulator.OnTick | index.tsx:27-38 | one interval callback, as `Tick`; the state stays synced |
| Simulator.KioskSimulator.OnBookingButton | index.tsx:40-42 | as `HandleBooking` |
| Simulator.KioskSimulator.OnCancel | index.tsx:155 | as `CancelBooking` |
| Simulator.KioskSimulator.OnConfirm | index.tsx:44-55 | as `ConfirmBooking`; the state stays synced |
| Simulator.KioskSimulator.OnAdminTap | index.tsx:57-87 | as `AdminTap`; reports whether the tap toggled |
| Simulator.KioskSimulator.OnTapReset | index.tsx:84-86 | as `TapResetFires` |

## Left out

- `LedController` and its implementations only log. The LED is the sequence of commands sent, in `RoomViewModel.leds`.
- `GoogleCalendarProvider` is an unimplemented skeleton and is not part of this model. The view model is modelled over `MockCalendarProvider` only.
- Android UI plumbing is not modelled: colours, visibility, `AlertDialog` rendering, immersive mode and `findViewById`. The dialog's OK or Cancel becomes the `confirmed` argument of `OnBookingButton`.
- `Handler.postDelayed` scheduling is not modelled. `RefreshOutcome` reports the delay it would post; the recheck itself is another `RefreshState` call.
- The coroutine loops (`while (isActive)` with `delay`), `viewModelScope.launch` and the asynchronous `postValue` are not modelled. Each handler is a synchronous update of `uiState`, so a read of a value not yet posted is not captured.
- `MockCalendarProvider`'s seeding through `java.util.Calendar` is not modelled. The constructor takes any initial list.
- `roomId` is passed along but ignored, as the mock ignores it.
- React rendering, styling, `toLocaleTimeString`, and the `setInterval`/`setTimeout` mechanics are not modelled. The interval and the tap-reset timeout are explicit events (`OnTick`, `OnTapReset`). `GesturesAgree` and `Simulator.EveryFifthQuickTapToggles` assume the timeout is delivered before any tap at or after its due time. A late timer is not modelled.
- React's deferred and possibly repeated run of the `setTapCount` updater is not modelled. The handler is modelled as running once, immediately.
- Wall-clock reads are not modelled; the clock is the `now` parameter. Where the source reads the clock twice in one action, one `now` is used for both reads. These actions are `toggleForceFree` after a tap (its own read, `bookRoom`'s and `refreshState`'s), `bookRoom` followed by `refreshState`, the start and the id in `createQuickBooking`, and `bookMeeting` followed by `fetchEvents`.
- Activity.KioskActivity.BookRoom: reports a recheck delay of exactly `minutes*60000`. In the source, `refreshState` reads the clock again after `bookRoom` has, so the delay it posts is shorter by the time elapsed in between.
- Timestamps are unbounded integers, so a Kotlin `Long` overflow of `now + ...` is not modelled. Only the 32-bit `Int` product in `createQuickBooking` is.
- `localStorage` holds strings that `parseInt` reads back. The model stores the integer, so a stored value that is not a decimal integer is not modelled. In the page, the empty string is falsy and skipped, so the room stays FREE and the key is kept; a string that `parseInt` reads as NaN leaves the room FREE and the key is deleted; a string that starts with digits, such as `12abc`, is read as those digits.
