/**
 * The browser simulator `KioskSimulator` (index.tsx): the same FREE/BUSY
 * machine with its deadline in `localStorage` under "kiosk_end_time". Unlike
 * the activity it deletes a stale deadline, it keys the admin toggle on the
 * displayed status, and it resets the tap counter with a 500 ms timer instead
 * of comparing tap times. The mount effect, the one-second interval, the
 * dialog buttons, the status tap and the reset timer are explicit events.
 */
module Simulator {
  import opened Wrappers
  import Activity

  const StorageEndTime: string := "kiosk_end_time"
  // The minute length, the five-tap threshold and the 15-minute test booking
  // are the activity's constants: index.tsx repeats the same literals.

  /** The delay of the timeout that zeroes the tap counter. */
  const TapResetMillis := 500
  /** The booking buttons, shown only while FREE. */
  const BookingChoices: seq<int> := [15, 30, 60]

  datatype Status = FREE | BUSY

  /** The `showConfirm` state of the booking dialog. */
  datatype Confirm = Confirm(visible: bool, minutes: int)

  const HiddenConfirm := Confirm(false, 0)

  /**
   * The component's state hooks, `localStorage`, and the time at which the
   * pending tap-reset timeout (if any) is due.
   */
  datatype SimState = SimState(
    status: Status,
    endTime: Option<int>,
    tapCount: int,
    showConfirm: Confirm,
    storage: map<string, int>,
    tapResetDue: Option<int>)

  /** `localStorage.getItem('kiosk_end_time')`, already parsed. */
  function Stored(storage: map<string, int>): (r: Option<int>)
    ensures r.Some? <==> StorageEndTime in storage
    ensures r.Some? ==> r.value == storage[StorageEndTime]
  {
    if StorageEndTime in storage then Some(storage[StorageEndTime]) else None
  }

  /** The state before any effect has run. */
  function Initial(storage: map<string, int>): SimState {
    SimState(FREE, None, 0, HiddenConfirm, storage, None)
  }

  /**
   * The state every handler keeps once the mount effect has run: the shown
   * deadline is the stored one, BUSY exactly when there is one, and the tap
   * count is below 5 and is 0 when no reset is pending.
   */
  ghost predicate Synced(s: SimState) {
    && Stored(s.storage) == s.endTime
    && (s.status == BUSY <==> s.endTime.Some?)
    && 0 <= s.tapCount < Activity.AdminTapThreshold
    && (s.tapResetDue.None? ==> s.tapCount == 0)
  }

  /**
   * The mount effect: BUSY with the stored deadline when one is stored and
   * still ahead; otherwise the stored key is deleted and the state is kept.
   */
  function Restore(s: SimState, now: int): (r: SimState)
    ensures var v := Stored(s.storage);
            if v.Some? && now < v.value
            then r == s.(status := BUSY, endTime := v)
            else r == s.(storage := s.storage - {StorageEndTime})
  {
    var stored := Stored(s.storage);
    if stored.Some? then
      if now < stored.value then s.(endTime := Some(stored.value), status := BUSY)
      else s.(storage := s.storage - {StorageEndTime})
    else s
  }

  /** After mounting, the state is synced and BUSY exactly when the stored deadline is ahead. */
  lemma MountSyncs(storage: map<string, int>, now: int)
    ensures Synced(Restore(Initial(storage), now))
    ensures Restore(Initial(storage), now).status == BUSY <==>
              Stored(storage).Some? && now < Stored(storage).value
  {
  }

  /** Restoring twice at the same time is restoring once. */
  lemma RestoreIdempotent(s: SimState, now: int)
    ensures Restore(Restore(s, now), now) == Restore(s, now)
  {
  }

  /**
   * Reloading the page at a later time rehydrates from what the first mount
   * left in storage: the result is what a single mount at the later time gives.
   */
  lemma RemountIsLaterMount(storage: map<string, int>, now1: int, now2: int)
    requires now1 <= now2
    ensures Restore(Initial(Restore(Initial(storage), now1).storage), now2) == Restore(Initial(storage), now2)
  {
  }

  /**
   * A confirmed booking survives a reload: before the deadline the reloaded
   * page is BUSY with the same deadline; at or after it, FREE with storage cleared.
   */
  lemma BookThenReload(s: SimState, now: int, later: int)
    ensures var b := ConfirmBooking(s, now);
            var d := now + s.showConfirm.minutes * Activity.MillisPerMinute;
            var reloaded := Restore(Initial(b.storage), later);
            && (later < d ==> reloaded.status == BUSY && reloaded.endTime == b.endTime)
            && (later >= d ==> reloaded.status == FREE && Stored(reloaded.storage) == None)
  {
  }

  /** `if (endTime)`: a deadline of 0 is falsy, like a missing one. */
  predicate Truthy(endTime: Option<int>) {
    endTime.Some? && endTime.value != 0
  }

  /** One run of the interval callback. */
  function Tick(s: SimState, now: int): (r: SimState)
    ensures Synced(s) ==> Synced(r)
    ensures Truthy(s.endTime) && now >= s.endTime.value ==>
              r.status == FREE && r.endTime == None && Stored(r.storage) == None
    ensures Truthy(s.endTime) && now >= s.endTime.value ==> r.storage == s.storage - {StorageEndTime}
    ensures !(Truthy(s.endTime) && now >= s.endTime.value) ==> r == s
    ensures r.(status := s.status, endTime := s.endTime, storage := s.storage) == s
  {
    if Truthy(s.endTime) && now >= s.endTime.value then
      s.(endTime := None, status := FREE, storage := s.storage - {StorageEndTime})
    else s
  }

  /**
   * Mounting at `now1` and ticking at a later `now2` gives the state mounting
   * at `now2` gives, unless the stored deadline is 0.
   */
  lemma MountThenTickIsLaterMount(storage: map<string, int>, now1: int, now2: int)
    requires now1 <= now2
    requires Stored(storage) != Some(0)
    ensures Tick(Restore(Initial(storage), now1), now2) == Restore(Initial(storage), now2)
  {
    var v := Stored(storage);
    if v.Some? && now1 < v.value && v.value <= now2 {
      assert Restore(Initial(storage), now1).endTime == v;
    }
  }

  /** A stored deadline of 0 restored at a negative clock is never cleared by a tick. */
  lemma ZeroDeadlineOutlivesTick()
    ensures var s := Restore(Initial(map[StorageEndTime := 0]), -1);
            s.status == BUSY && Tick(s, 10).status == BUSY
  {
    var s := Restore(Initial(map[StorageEndTime := 0]), -1);
    assert s.endTime == Some(0);
  }

  /** `handleBooking`: only opens the confirmation. */
  function HandleBooking(s: SimState, minutes: int): (r: SimState)
    ensures r.showConfirm == Confirm(true, minutes)
    ensures r.(showConfirm := s.showConfirm) == s
  {
    s.(showConfirm := Confirm(true, minutes))
  }

  /** The dialog's CANCEL button: closes it and touches nothing else. */
  function CancelBooking(s: SimState): (r: SimState)
    ensures r.showConfirm == HiddenConfirm
    ensures r.(showConfirm := s.showConfirm) == s
  {
    s.(showConfirm := HiddenConfirm)
  }

  /** Opening the dialog and cancelling leaves status, deadline and storage as they were. */
  lemma OpenThenCancelChangesNothing(s: SimState, minutes: int)
    ensures CancelBooking(HandleBooking(s, minutes)) == s.(showConfirm := HiddenConfirm)
  {
  }

  /** `confirmBooking`: BUSY until `now` plus the dialog's minutes, persisted, dialog hidden. */
  function ConfirmBooking(s: SimState, now: int): (r: SimState)
    ensures Synced(s) ==> Synced(r)
    ensures r.status == BUSY && r.showConfirm == HiddenConfirm
    ensures r.endTime == Some(now + s.showConfirm.minutes * Activity.MillisPerMinute)
    ensures Stored(r.storage) == r.endTime
    ensures r.storage == s.storage[StorageEndTime := now + s.showConfirm.minutes * Activity.MillisPerMinute]
    ensures r.tapCount == s.tapCount && r.tapResetDue == s.tapResetDue
  {
    var newEndTime := now + s.showConfirm.minutes * Activity.MillisPerMinute;
    s.(endTime := Some(newEndTime), status := BUSY,
       storage := s.storage[StorageEndTime := newEndTime], showConfirm := HiddenConfirm)
  }

  /** The booking choices on screen: all three while FREE, none while BUSY. */
  function OfferedDurations(s: SimState): (r: seq<int>)
    ensures r != [] <==> s.status == FREE
    ensures s.status == FREE ==> r == [15, 30, 60]
    ensures forall i :: 0 <= i < |r| ==> r[i] > 0
  {
    if s.status == FREE then BookingChoices else []
  }

  /**
   * Booking an offered duration from FREE keeps the room BUSY up to the last
   * millisecond before the deadline, and the first tick at or after it frees
   * the room and clears the storage.
   */
  lemma OfferedBookingExpires(s: SimState, i: int, now: int)
    requires Synced(s) && 0 <= i < |OfferedDurations(s)| && now >= 0
    ensures var m := OfferedDurations(s)[i];
            var b := ConfirmBooking(HandleBooking(s, m), now);
            && Synced(b) && b.status == BUSY
            && Stored(b.storage) == Some(now + m * Activity.MillisPerMinute)
            && Tick(b, now + m * Activity.MillisPerMinute - 1) == b
            && Tick(b, now + m * Activity.MillisPerMinute).status == FREE
            && Stored(Tick(b, now + m * Activity.MillisPerMinute).storage) == None
  {
    var m := OfferedDurations(s)[i];
    assert m > 0;
    var b := ConfirmBooking(HandleBooking(s, m), now);
    assert Truthy(b.endTime);
  }

  /** The 15-minute scenario: mount at 1000 with nothing stored, book, tick at the deadline. */
  lemma QuarterHourScenario()
    ensures var s := Restore(Initial(map[]), 1000);
            var b := ConfirmBooking(HandleBooking(s, 15), 1000);
            && s.status == FREE
            && b.status == BUSY && b.endTime == Some(901000)
            && Tick(b, 900999).status == BUSY
            && Tick(b, 901000).status == FREE
  {
    var s := Restore(Initial(map[]), 1000);
    assert Stored(s.storage) == None;
  }

  // ----- the admin gesture -----

  /** Whether a tap on `s` is the fifth of its run and fires the toggle. */
  predicate TapToggles(s: SimState) {
    s.tapCount + 1 >= Activity.AdminTapThreshold
  }

  /**
   * `handleAdminTap` at `now`: the count grows by one; the fifth tap toggles
   * (FREE to BUSY with a persisted 15-minute deadline, BUSY to FREE with the
   * storage cleared) and zeroes the count; the reset timeout is re-armed.
   */
  function AdminTap(s: SimState, now: int): (r: SimState)
    ensures Synced(s) ==> Synced(r)
    ensures r.tapResetDue == Some(now + TapResetMillis)
    ensures !TapToggles(s) ==> r == s.(tapCount := s.tapCount + 1, tapResetDue := r.tapResetDue)
    ensures TapToggles(s) ==> r.tapCount == 0 && r.status != s.status
    ensures TapToggles(s) && s.status == FREE ==>
              r.endTime == Some(now + Activity.ForceBusyMinutes * Activity.MillisPerMinute) && Stored(r.storage) == r.endTime
    ensures TapToggles(s) && s.status == BUSY ==> r.endTime == None && Stored(r.storage) == None
    ensures TapToggles(s) && s.status == FREE ==>
              r.storage == s.storage[StorageEndTime := now + Activity.ForceBusyMinutes * Activity.MillisPerMinute]
    ensures TapToggles(s) && s.status == BUSY ==> r.storage == s.storage - {StorageEndTime}
    ensures !TapToggles(s) ==> r.storage == s.storage
    ensures r.showConfirm == s.showConfirm
  {
    var newCount := s.tapCount + 1;
    var next :=
      if newCount >= Activity.AdminTapThreshold then
        if s.status == FREE then
          var newEnd := now + Activity.ForceBusyMinutes * Activity.MillisPerMinute;
          s.(endTime := Some(newEnd), storage := s.storage[StorageEndTime := newEnd], status := BUSY, tapCount := 0)
        else
          s.(endTime := None, storage := s.storage - {StorageEndTime}, status := FREE, tapCount := 0)
      else s.(tapCount := newCount);
    next.(tapResetDue := Some(now + TapResetMillis))
  }

  /** The reset timeout fires: the count goes back to 0. */
  function TapResetFires(s: SimState): (r: SimState)
    requires s.tapResetDue.Some?
    ensures Synced(s) ==> Synced(r)
    ensures r.tapCount == 0
    ensures r.(tapCount := s.tapCount, tapResetDue := s.tapResetDue) == s
  {
    s.(tapCount := 0, tapResetDue := None)
  }

  /**
   * A tap at `now` with the reset timeout delivered first when it is due by
   * then: the timeout fires no later than the first event at or after its due
   * time.
   */
  function TapAt(s: SimState, now: int): SimState {
    var s' := if s.tapResetDue.Some? && now >= s.tapResetDue.value then TapResetFires(s) else s;
    AdminTap(s', now)
  }

  function TapFires(s: SimState, now: int): bool {
    var s' := if s.tapResetDue.Some? && now >= s.tapResetDue.value then TapResetFires(s) else s;
    TapToggles(s')
  }

  datatype SimTapRun = SimTapRun(state: SimState, fired: seq<bool>)

  function RunTaps(s: SimState, times: seq<int>): (r: SimTapRun)
    ensures |r.fired| == |times|
    decreases |times|
  {
    if times == [] then SimTapRun(s, [])
    else
      var rest := RunTaps(TapAt(s, times[0]), times[1..]);
      SimTapRun(rest.state, [TapFires(s, times[0])] + rest.fired)
  }

  /**
   * The simulator's counter against the activity's: equal counts, and the
   * pending reset is due 500 ms after the activity's last tap (or there is
   * none and the count is 0).
   */
  predicate SameGesture(g: Activity.Gesture, s: SimState) {
    && s.tapCount == g.count
    && (s.tapResetDue == Some(g.lastTap + TapResetMillis) || (s.tapResetDue.None? && g.count == 0))
  }

  /**
   * Under the timely reset, the timer-based counter of the simulator and the
   * gap-comparing counter of the activity fire on exactly the same taps.
   */
  lemma {:induction false} GesturesAgree(g: Activity.Gesture, s: SimState, times: seq<int>)
    requires SameGesture(g, s)
    ensures Activity.RunTaps(g, times).fired == RunTaps(s, times).fired
    ensures SameGesture(Activity.RunTaps(g, times).gesture, RunTaps(s, times).state)
    decreases |times|
  {
    if times != [] {
      var t := times[0];
      var a := Activity.Tap(g, t);
      assert a.toggle == TapFires(s, t);
      assert SameGesture(a.gesture, TapAt(s, t));
      GesturesAgree(a.gesture, TapAt(s, t), times[1..]);
    }
  }

  /**
   * In the simulator too, a fresh run of taps each less than 500 ms after the
   * previous one toggles on the 5th, 10th, ... tap and on no other.
   */
  lemma EveryFifthQuickTapToggles(s: SimState, times: seq<int>)
    requires Synced(s)
    requires times != [] && (s.tapResetDue.Some? ==> times[0] >= s.tapResetDue.value)
    requires Activity.QuickSuccession(times)
    ensures forall i :: 0 <= i < |times| ==> (RunTaps(s, times).fired[i] <==> (i + 1) % Activity.AdminTapThreshold == 0)
  {
    var g := if s.tapResetDue.Some? then Activity.Gesture(s.tapCount, s.tapResetDue.value - TapResetMillis)
             else Activity.Gesture(0, times[0] - TapResetMillis);
    GesturesAgree(g, s, times);
    Activity.EveryFifthQuickTapToggles(g, times);
  }

  /** The simulator component; its fields are the components of `SimState`. */
  class KioskSimulator {
    var status: Status
    var endTime: Option<int>
    var tapCount: int
    var showConfirm: Confirm
    var storage: map<string, int>
    var tapResetDue: Option<int>

    function State(): SimState
      reads this
    {
      SimState(status, endTime, tapCount, showConfirm, storage, tapResetDue)
    }

    ghost predicate Valid()
      reads this
    {
      Synced(State())
    }

    /** Mounting: the initial state, then the restore effect at `now`. */
    constructor Mount(storage: map<string, int>, now: int)
      ensures Valid()
      ensures State() == Restore(Initial(storage), now)
    {
      status := FREE;
      endTime := None;
      tapCount := 0;
      showConfirm := HiddenConfirm;
      this.storage := storage;
      tapResetDue := None;
      new;
      if StorageEndTime in this.storage {
        var end := this.storage[StorageEndTime];
        if now < end {
          endTime := Some(end);
          status := BUSY;
        } else {
          this.storage := this.storage - {StorageEndTime};
        }
      }
      MountSyncs(storage, now);
    }

    method OnTick(now: int)
      requires Valid()
      modifies this
      ensures Valid()
      ensures State() == Tick(old(State()), now)
    {
      if endTime.Some? && endTime.value != 0 {
        if now >= endTime.value {
          endTime := None;
          status := FREE;
          storage := storage - {StorageEndTime};
        }
      }
    }

    method OnBookingButton(minutes: int)
      requires Valid()
      modifies this
      ensures Valid()
      ensures State() == HandleBooking(old(State()), minutes)
    {
      showConfirm := Confirm(true, minutes);
    }

    method OnCancel()
      requires Valid()
      modifies this
      ensures Valid()
      ensures State() == CancelBooking(old(State()))
    {
      showConfirm := HiddenConfirm;
    }

    method OnConfirm(now: int)
      requires Valid()
      modifies this
      ensures Valid()
      ensures State() == ConfirmBooking(old(State()), now)
    {
      var durationMs := showConfirm.minutes * Activity.MillisPerMinute;
      var newEndTime := now + durationMs;
      endTime := Some(newEndTime);
      status := BUSY;
      storage := storage[StorageEndTime := newEndTime];
      showConfirm := HiddenConfirm;
    }

    /** `handleAdminTap`: clears the pending reset, counts the tap, re-arms the reset. */
    method OnAdminTap(now: int) returns (toggled: bool)
      requires Valid()
      modifies this
      ensures Valid()
      ensures toggled == TapToggles(old(State()))
      ensures State() == AdminTap(old(State()), now)
    {
      tapResetDue := None;
      var newCount := tapCount + 1;
      toggled := newCount >= Activity.AdminTapThreshold;
      if toggled {
        if status == FREE {
          var newEnd := now + Activity.ForceBusyMinutes * Activity.MillisPerMinute;
          endTime := Some(newEnd);
          storage := storage[StorageEndTime := newEnd];
          status := BUSY;
        } else {
          endTime := None;
          storage := storage - {StorageEndTime};
          status := FREE;
        }
        tapCount := 0;
      } else {
        tapCount := newCount;
      }
      tapResetDue := Some(now + TapResetMillis);
    }

    /** The pending reset timeout fires. */
    method OnTapReset()
      requires Valid() && tapResetDue.Some?
      modifies this
      ensures Valid()
      ensures State() == TapResetFires(old(State()))
    {
      tapCount := 0;
      tapResetDue := None;
    }
  }
}
