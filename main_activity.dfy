/**
 * `MainActivity`, the plain kiosk: the room is BUSY while the clock is before
 * the deadline stored under "end_time" in the "kiosk_prefs" preferences.
 * Booking writes that deadline, five quick taps on the status text force-toggle
 * it, and `refreshState` only reads it (a stale deadline stays stored).
 */
module Activity {
  import opened Wrappers

  const PrefsEndTime: string := "end_time"
  const MillisPerMinute := 60000
  /** Taps closer together than this count towards the admin gesture. */
  const TapWindowMillis := 500
  const AdminTapThreshold := 5
  /** The length of the test booking a forced toggle makes from FREE. */
  const ForceBusyMinutes := 15
  /** The recheck delay `refreshState` falls back to when busy with no positive delay. */
  const FallbackRecheckMillis := 1000

  // ----- the persisted deadline -----

  /** `prefs.getLong("end_time", 0)`. */
  function StoredEndTime(prefs: map<string, int>): (t: int)
    ensures PrefsEndTime in prefs ==> t == prefs[PrefsEndTime]
    ensures PrefsEndTime !in prefs ==> t == 0
  {
    if PrefsEndTime in prefs then prefs[PrefsEndTime] else 0
  }

  /** `currentTime < endTime`. */
  predicate IsBusy(prefs: map<string, int>, now: int): (b: bool)
    ensures PrefsEndTime in prefs ==> (b <==> now < prefs[PrefsEndTime])
    ensures PrefsEndTime !in prefs ==> (b <==> now < 0)
  {
    now < StoredEndTime(prefs)
  }

  /** With nothing stored the deadline reads as 0, so any non-negative clock shows FREE. */
  lemma NoBookingMeansFree(prefs: map<string, int>, now: int)
    requires PrefsEndTime !in prefs && now >= 0
    ensures !IsBusy(prefs, now)
  {
  }

  /**
   * The preferences after `bookRoom(minutes)` at `now`: the deadline is `now`
   * plus the minutes in milliseconds, so the room is BUSY exactly before it;
   * every other key is kept.
   */
  function Booked(prefs: map<string, int>, minutes: int, now: int): (p: map<string, int>)
    ensures StoredEndTime(p) == now + minutes * MillisPerMinute
    ensures forall t :: IsBusy(p, t) <==> t < now + minutes * MillisPerMinute
    ensures p.Keys == prefs.Keys + {PrefsEndTime}
    ensures forall k :: k in prefs && k != PrefsEndTime ==> p[k] == prefs[k]
  {
    prefs[PrefsEndTime := now + minutes * MillisPerMinute]
  }

  /** A booking of `m > 0` minutes is BUSY up to the last millisecond before its end and FREE at it. */
  lemma BookingLastsUntilDeadline(prefs: map<string, int>, minutes: int, now: int)
    requires minutes > 0
    ensures IsBusy(Booked(prefs, minutes, now), now)
    ensures IsBusy(Booked(prefs, minutes, now), now + minutes * MillisPerMinute - 1)
    ensures !IsBusy(Booked(prefs, minutes, now), now + minutes * MillisPerMinute)
  {
  }

  /**
   * The preferences after `toggleForceFree` at `now`: the deadline is removed
   * when BUSY and a 15-minute booking is made when FREE. For a non-negative
   * clock this flips the status at `now`.
   */
  function Toggled(prefs: map<string, int>, now: int): (p: map<string, int>)
    ensures IsBusy(prefs, now) ==> p == prefs - {PrefsEndTime}
    ensures !IsBusy(prefs, now) ==> p == Booked(prefs, ForceBusyMinutes, now)
    ensures now >= 0 ==> (IsBusy(p, now) <==> !IsBusy(prefs, now))
  {
    if IsBusy(prefs, now) then prefs - {PrefsEndTime} else Booked(prefs, ForceBusyMinutes, now)
  }

  /**
   * The flip needs a non-negative clock: removing the key makes the deadline
   * read as 0, which is still in the future of a negative clock.
   */
  lemma ToggleAtNegativeClockStaysBusy()
    ensures IsBusy(map[PrefsEndTime := 5], -1)
    ensures IsBusy(Toggled(map[PrefsEndTime := 5], -1), -1)
  {
    assert PrefsEndTime !in Toggled(map[PrefsEndTime := 5], -1);
  }

  // ----- refreshState -----

  /** What `refreshState` shows: FREE, or BUSY with the delay of the posted recheck. */
  datatype Screen = Free | Busy(recheckAfter: int)

  function RefreshOutcome(prefs: map<string, int>, now: int): (s: Screen)
    ensures s.Busy? <==> IsBusy(prefs, now)
    ensures s.Busy? ==> s.recheckAfter == StoredEndTime(prefs) - now > 0
  {
    var endTime := StoredEndTime(prefs);
    if now < endTime then
      var delay := endTime - now;
      Busy(if delay > 0 then delay else FallbackRecheckMillis)
    else Free
  }

  // ----- the booking buttons -----

  /** The views the click listener is attached to; any other view id maps to 0 minutes. */
  datatype BookingButton = Btn15 | Btn30 | Btn60 | OtherView(id: int)

  function ButtonMinutes(b: BookingButton): (m: int)
    ensures b == Btn15 ==> m == 15
    ensures b == Btn30 ==> m == 30
    ensures b == Btn60 ==> m == 60
    ensures b.OtherView? ==> m == 0
  {
    match b
    case Btn15 => 15
    case Btn30 => 30
    case Btn60 => 60
    case OtherView(_) => 0
  }

  /** Confirming a button's booking from FREE always makes the room BUSY at `now`, except for an unknown view. */
  lemma ButtonBookingMakesBusy(prefs: map<string, int>, b: BookingButton, now: int)
    ensures IsBusy(Booked(prefs, ButtonMinutes(b), now), now) <==> !b.OtherView?
  {
  }

  // ----- the admin gesture -----

  /** `adminTapCount` and `lastTapTime`. */
  datatype Gesture = Gesture(count: int, lastTap: int)

  /** The counter after a tap, and whether that tap fired the toggle. */
  datatype TapResult = TapResult(gesture: Gesture, toggle: bool)

  const InitialGesture := Gesture(0, 0)

  predicate ValidGesture(g: Gesture) {
    0 <= g.count < AdminTapThreshold
  }

  /**
   * One tap at `now`: the count grows when the previous tap was less than
   * 500 ms ago and restarts at 1 otherwise; the fifth tap fires the toggle and
   * sets the count back to 0.
   */
  function Tap(g: Gesture, now: int): (r: TapResult)
    ensures r.gesture.lastTap == now
    ensures ValidGesture(g) ==> ValidGesture(r.gesture)
    ensures ValidGesture(g) ==> (r.toggle <==> now - g.lastTap < TapWindowMillis && g.count == AdminTapThreshold - 1)
    ensures r.toggle ==> r.gesture.count == 0
    ensures ValidGesture(g) && !r.toggle ==>
              r.gesture.count == if now - g.lastTap < TapWindowMillis then g.count + 1 else 1
  {
    var count := if now - g.lastTap < TapWindowMillis then g.count + 1 else 1;
    if count >= AdminTapThreshold then TapResult(Gesture(0, now), true)
    else TapResult(Gesture(count, now), false)
  }

  /** The counter after a run of taps, and for each tap whether it fired the toggle. */
  datatype TapRun = TapRun(gesture: Gesture, fired: seq<bool>)

  function RunTaps(g: Gesture, times: seq<int>): (r: TapRun)
    ensures |r.fired| == |times|
    decreases |times|
  {
    if times == [] then TapRun(g, [])
    else
      var first := Tap(g, times[0]);
      var rest := RunTaps(first.gesture, times[1..]);
      TapRun(rest.gesture, [first.toggle] + rest.fired)
  }

  /** Every tap comes less than 500 ms after the one before it. */
  predicate QuickSuccession(times: seq<int>) {
    forall i :: 0 < i < |times| ==> times[i] - times[i - 1] < TapWindowMillis
  }

  /**
   * Continuing a gesture with quick taps: the count goes round modulo 5 and a
   * tap toggles exactly when it brings the count to a multiple of 5.
   */
  lemma {:induction false} QuickTapsContinue(g: Gesture, times: seq<int>)
    requires ValidGesture(g)
    requires times != [] ==> times[0] - g.lastTap < TapWindowMillis
    requires QuickSuccession(times)
    ensures RunTaps(g, times).gesture.count == (g.count + |times|) % AdminTapThreshold
    ensures forall i :: 0 <= i < |times| ==>
              (RunTaps(g, times).fired[i] <==> (g.count + i + 1) % AdminTapThreshold == 0)
    decreases |times|
  {
    if times != [] {
      var first := Tap(g, times[0]);
      var c := first.gesture.count;
      assert c == (g.count + 1) % 5;
      var rest := times[1..];
      assert QuickSuccession(rest) by {
        forall i | 0 < i < |rest| ensures rest[i] - rest[i - 1] < TapWindowMillis {
          assert rest[i] == times[i + 1] && rest[i - 1] == times[i];
        }
      }
      assert rest != [] ==> rest[0] - first.gesture.lastTap < TapWindowMillis by {
        if rest != [] { assert rest[0] == times[1]; }
      }
      QuickTapsContinue(first.gesture, rest);
      var r := RunTaps(g, times);
      forall i | 0 <= i < |times|
        ensures r.fired[i] <==> (g.count + i + 1) % 5 == 0
      {
        if i > 0 {
          assert r.fired[i] == RunTaps(first.gesture, rest).fired[i - 1];
          assert (c + i) % 5 == (g.count + i + 1) % 5 by {
            if g.count == 4 { assert c == 0; } else { assert c == g.count + 1; }
          }
        }
      }
      assert (c + |rest|) % 5 == (g.count + |times|) % 5 by {
        if g.count == 4 { assert c == 0; } else { assert c == g.count + 1; }
      }
    }
  }

  /**
   * A fresh gesture (first tap at least 500 ms after the previous one) of quick
   * taps toggles on the 5th, 10th, ... tap and on no other.
   */
  lemma EveryFifthQuickTapToggles(g: Gesture, times: seq<int>)
    requires ValidGesture(g)
    requires times != [] && times[0] - g.lastTap >= TapWindowMillis
    requires QuickSuccession(times)
    ensures RunTaps(g, times).gesture.count == |times| % AdminTapThreshold
    ensures forall i :: 0 <= i < |times| ==> (RunTaps(g, times).fired[i] <==> (i + 1) % AdminTapThreshold == 0)
  {
    var first := Tap(g, times[0]);
    assert first.gesture == Gesture(1, times[0]) && !first.toggle;
    var rest := times[1..];
    assert QuickSuccession(rest) by {
      forall i | 0 < i < |rest| ensures rest[i] - rest[i - 1] < TapWindowMillis {
        assert rest[i] == times[i + 1] && rest[i - 1] == times[i];
      }
    }
    assert rest != [] ==> rest[0] - first.gesture.lastTap < TapWindowMillis by {
      if rest != [] { assert rest[0] == times[1]; }
    }
    QuickTapsContinue(first.gesture, rest);
    var r := RunTaps(g, times);
    forall i | 0 < i < |times|
      ensures r.fired[i] <==> (i + 1) % 5 == 0
    {
      assert r.fired[i] == RunTaps(first.gesture, rest).fired[i - 1];
    }
  }

  /** Five quick taps toggle once; a sixth right after leaves the count at 1 and does not toggle again. */
  lemma SixthTapDoesNotToggleAgain(g: Gesture, t: int)
    requires ValidGesture(g) && t - g.lastTap >= TapWindowMillis
    ensures RunTaps(g, [t, t + 100, t + 200, t + 300, t + 400, t + 450]).fired
            == [false, false, false, false, true, false]
    ensures RunTaps(g, [t, t + 100, t + 200, t + 300, t + 400, t + 450]).gesture.count == 1
  {
    var times := [t, t + 100, t + 200, t + 300, t + 400, t + 450];
    EveryFifthQuickTapToggles(g, times);
    var f := RunTaps(g, times).fired;
    assert f[0] == false && f[1] == false && f[2] == false && f[3] == false && f[4] == true && f[5] == false;
  }

  /** A gap of 500 ms or more restarts the count: five taps with one long gap never toggle. */
  lemma LongGapRestartsGesture(g: Gesture, t: int)
    requires ValidGesture(g) && t - g.lastTap >= TapWindowMillis
    ensures RunTaps(g, [t, t + 100, t + 5000, t + 5100, t + 5200]).fired
            == [false, false, false, false, false]
    ensures RunTaps(g, [t, t + 100, t + 5000, t + 5100, t + 5200]).gesture.count == 3
  {
    var g1 := Tap(g, t).gesture;
    assert g1 == Gesture(1, t);
    var g2 := Tap(g1, t + 100).gesture;
    assert g2 == Gesture(2, t + 100);
    var g3 := Tap(g2, t + 5000).gesture;
    assert g3 == Gesture(1, t + 5000);
    var g4 := Tap(g3, t + 5100).gesture;
    assert g4 == Gesture(2, t + 5100);
    var g5 := Tap(g4, t + 5200).gesture;
    assert g5 == Gesture(3, t + 5200);
    assert RunTaps(g5, []) == TapRun(g5, []);
    assert RunTaps(g4, [t + 5200]) == TapRun(g5, [false]);
    assert RunTaps(g3, [t + 5100, t + 5200]) == TapRun(g5, [false, false]);
    assert RunTaps(g2, [t + 5000, t + 5100, t + 5200]) == TapRun(g5, [false, false, false]);
    assert RunTaps(g1, [t + 100, t + 5000, t + 5100, t + 5200]) == TapRun(g5, [false, false, false, false]);
  }

  /** The activity: its preferences and the two gesture fields. */
  class KioskActivity {
    var prefs: map<string, int>
    var adminTapCount: int
    var lastTapTime: int

    ghost predicate Valid()
      reads this
    {
      ValidGesture(Gesture(adminTapCount, lastTapTime))
    }

    function GestureState(): Gesture
      reads this
    {
      Gesture(adminTapCount, lastTapTime)
    }

    /** The activity starts with whatever preferences survived a restart. */
    constructor(prefs: map<string, int>)
      ensures Valid()
      ensures this.prefs == prefs && GestureState() == InitialGesture
    {
      this.prefs := prefs;
      adminTapCount := 0;
      lastTapTime := 0;
    }

    /** Reads the deadline and reports the screen; the preferences are left as they are. */
    method RefreshState(now: int) returns (screen: Screen)
      ensures screen.Busy? <==> IsBusy(prefs, now)
      ensures screen.Busy? ==> screen.recheckAfter == StoredEndTime(prefs) - now > 0
      ensures screen == RefreshOutcome(prefs, now)
    {
      var endTime := StoredEndTime(prefs);
      var isBusy := now < endTime;
      if isBusy {
        var delay := endTime - now;
        screen := Busy(if delay > 0 then delay else FallbackRecheckMillis);
      } else {
        screen := Free;
      }
    }

    method BookRoom(minutes: int, now: int) returns (screen: Screen)
      modifies this`prefs
      ensures prefs == Booked(old(prefs), minutes, now)
      ensures screen == RefreshOutcome(prefs, now)
    {
      var endTime := now + minutes * MillisPerMinute;
      prefs := prefs[PrefsEndTime := endTime];
      screen := RefreshState(now);
    }

    method ToggleForceFree(now: int) returns (screen: Screen)
      modifies this`prefs
      ensures prefs == Toggled(old(prefs), now)
      ensures screen == RefreshOutcome(prefs, now)
    {
      var endTime := StoredEndTime(prefs);
      if now < endTime {
        prefs := prefs - {PrefsEndTime};
      } else {
        screen := BookRoom(ForceBusyMinutes, now);
      }
      screen := RefreshState(now);
    }

    /** The click listener on the status text. */
    method OnStatusTap(now: int) returns (toggled: bool)
      requires Valid()
      modifies this
      ensures Valid()
      ensures GestureState() == Tap(old(GestureState()), now).gesture
      ensures toggled == Tap(old(GestureState()), now).toggle
      ensures prefs == if toggled then Toggled(old(prefs), now) else old(prefs)
    {
      if now - lastTapTime < TapWindowMillis {
        adminTapCount := adminTapCount + 1;
      } else {
        adminTapCount := 1;
      }
      lastTapTime := now;
      toggled := false;
      if adminTapCount >= AdminTapThreshold {
        var _ := ToggleForceFree(now);
        adminTapCount := 0;
        toggled := true;
      }
    }

    /**
     * A booking button followed by the confirmation dialog: OK books the
     * button's minutes, Cancel changes nothing.
     */
    method OnBookingButton(button: BookingButton, confirmed: bool, now: int) returns (screen: Option<Screen>)
      modifies this`prefs
      ensures prefs == if confirmed then Booked(old(prefs), ButtonMinutes(button), now) else old(prefs)
      ensures confirmed <==> screen.Some?
    {
      var minutes := ButtonMinutes(button);
      if confirmed {
        var s := BookRoom(minutes, now);
        screen := Some(s);
      } else {
        screen := None;
      }
    }
  }
}
