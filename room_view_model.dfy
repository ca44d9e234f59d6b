/**
 * `RoomViewModel`: derives the busy/free status, the current meeting, the
 * upcoming list and the countdown from the provider's events, and drives the
 * status LED. The two periodic loops (a clock tick every second, a refetch
 * every 30 seconds) become explicit calls of `UpdateTimeAndStatus` and
 * `FetchEvents`.
 */
module ViewModel {
  import opened Wrappers
  import opened Events
  import opened EventOrder
  import opened Provider

  /** The three commands of the LED controller, recorded in the order sent. */
  datatype Led = SetAvailable | SetBusy | SetOff

  datatype RoomUiState = RoomUiState(
    roomName: string,
    isBusy: bool,
    currentMeeting: Option<RoomEvent>,
    upcomingMeetings: seq<RoomEvent>,
    timeUntilNextState: int,
    currentTimeParams: string)

  /** `RoomUiState()` with every parameter at its default. */
  const InitialUiState := RoomUiState("Pixel Parkview", false, None, [], 0, "")

  const RoomId: string := "pixel-parkview-1"

  /** The id `endMeeting` sends for a current meeting that has none. */
  const FallbackEventId: string := "current"

  // ----- fetchEvents: status and upcoming list -----

  /** `i` is the first position of `events` holding a meeting in progress at `now`. */
  ghost predicate FirstOngoing(events: seq<RoomEvent>, now: int, i: int) {
    && 0 <= i < |events|
    && Ongoing(events[i], now)
    && forall j :: 0 <= j < i ==> !Ongoing(events[j], now)
  }

  /** `events.find { now >= it.startTime && now < it.endTime }`. */
  function FindCurrent(events: seq<RoomEvent>, now: int): (r: Option<RoomEvent>)
    ensures r.None? <==> forall i :: 0 <= i < |events| ==> !Ongoing(events[i], now)
    ensures r.Some? ==> exists i :: FirstOngoing(events, now, i) && events[i] == r.value
  {
    if events == [] then None
    else if Ongoing(events[0], now) then
      assert FirstOngoing(events, now, 0);
      Some(events[0])
    else
      var r := FindCurrent(events[1..], now);
      assert forall i :: 1 <= i < |events| ==> events[i] == events[1..][i - 1];
      assert forall i :: FirstOngoing(events[1..], now, i) ==> FirstOngoing(events, now, i + 1);
      r
  }

  /** `events.filter { it.startTime > now }`. */
  function StartingAfter(events: seq<RoomEvent>, now: int): (r: seq<RoomEvent>)
    ensures forall e :: multiset(r)[e] == if StartsAfter(e, now) then multiset(events)[e] else 0
  {
    if events == [] then []
    else
      assert events == [events[0]] + events[1..];
      (if StartsAfter(events[0], now) then [events[0]] else []) + StartingAfter(events[1..], now)
  }

  lemma {:induction false} StartingAfterTies(events: seq<RoomEvent>, now: int, k: int)
    ensures WithStart(StartingAfter(events, now), k) == if k > now then WithStart(events, k) else []
  {
    if events != [] {
      StartingAfterTies(events[1..], now, k);
      var head := if StartsAfter(events[0], now) then [events[0]] else [];
      WithStartAppend(head, StartingAfter(events[1..], now), k);
    }
  }

  /**
   * `events.filter { it.startTime > now }.sortedBy { it.startTime }`: exactly
   * the events that have not started, each as often as in `events`, in
   * ascending start order, with events that start together in list order.
   */
  function Upcoming(events: seq<RoomEvent>, now: int): (r: seq<RoomEvent>)
    ensures SortedByStart(r)
    ensures forall e :: multiset(r)[e] == if StartsAfter(e, now) then multiset(events)[e] else 0
    ensures forall k :: WithStart(r, k) == if k > now then WithStart(events, k) else []
  {
    var r := SortByStart(StartingAfter(events, now));
    assert forall k :: WithStart(r, k) == if k > now then WithStart(events, k) else [] by {
      forall k ensures WithStart(r, k) == if k > now then WithStart(events, k) else [] {
        StartingAfterTies(events, now, k);
      }
    }
    r
  }

  /**
   * The state `fetchEvents` posts: busy exactly when some event is in
   * progress, the first such event as the current meeting, and the upcoming
   * list; every other field is carried over.
   */
  function Fetched(state: RoomUiState, events: seq<RoomEvent>, now: int): (r: RoomUiState)
    ensures r.isBusy <==> exists i :: 0 <= i < |events| && Ongoing(events[i], now)
    ensures r.isBusy <==> r.currentMeeting.Some?
    ensures r.currentMeeting == FindCurrent(events, now)
    ensures r.upcomingMeetings == Upcoming(events, now)
    ensures r.(isBusy := state.isBusy, currentMeeting := state.currentMeeting,
               upcomingMeetings := state.upcomingMeetings) == state
  {
    var current := FindCurrent(events, now);
    state.(isBusy := current.Some?, currentMeeting := current, upcomingMeetings := Upcoming(events, now))
  }

  /** The LED command sent after a fetch. */
  function LedFor(isBusy: bool): (l: Led)
    ensures l == SetBusy <==> isBusy
    ensures l == SetAvailable <==> !isBusy
  {
    if isBusy then SetBusy else SetAvailable
  }

  /** The meeting in progress is never listed as upcoming. */
  lemma CurrentNotUpcoming(events: seq<RoomEvent>, now: int)
    requires FindCurrent(events, now).Some?
    ensures FindCurrent(events, now).value !in Upcoming(events, now)
  {
    var c := FindCurrent(events, now).value;
    var i :| FirstOngoing(events, now, i) && events[i] == c;
    assert multiset(Upcoming(events, now))[c] == 0;
  }

  /** A well-formed event that has ended is neither current nor upcoming. */
  lemma PastEventsExcluded(events: seq<RoomEvent>, now: int, e: RoomEvent)
    requires e.startTime <= e.endTime <= now
    ensures FindCurrent(events, now) != Some(e)
    ensures e !in Upcoming(events, now)
  {
    assert multiset(Upcoming(events, now))[e] == 0;
  }

  /**
   * Nothing enforces `startTime <= endTime`: an event whose end lies in the
   * past but whose start lies in the future is listed as upcoming.
   */
  lemma MalformedPastEventIsUpcoming()
    ensures var e := NewEvent("Inverted", 10, 5);
            e.endTime <= 7 && e in Upcoming([e], 7)
  {
    var e := NewEvent("Inverted", 10, 5);
    assert multiset(Upcoming([e], 7))[e] == 1;
  }

  /** The head of the upcoming list is the earliest event that has not started. */
  lemma UpcomingHeadIsEarliest(events: seq<RoomEvent>, now: int, e: RoomEvent)
    requires e in events && StartsAfter(e, now)
    ensures Upcoming(events, now) != []
    ensures Upcoming(events, now)[0].startTime <= e.startTime
  {
    var u := Upcoming(events, now);
    assert multiset(events)[e] > 0;
    assert multiset(u)[e] > 0;
    assert e in u;
    var j :| 0 <= j < |u| && u[j] == e;
    assert j == 0 || u[0].startTime <= u[j].startTime;
  }

  /**
   * When the list comes from the provider, the current meeting is an ongoing
   * event with the earliest start: overlapping meetings are resolved by start
   * time, and among equal starts by list order.
   */
  lemma CurrentOfSortedIsEarliestOngoing(events: seq<RoomEvent>, now: int, e: RoomEvent)
    requires e in events && Ongoing(e, now)
    ensures FindCurrent(SortByStart(events), now).Some?
    ensures FindCurrent(SortByStart(events), now).value.startTime <= e.startTime
  {
    var s := SortByStart(events);
    assert multiset(events)[e] > 0;
    assert e in multiset(s);
    var j :| 0 <= j < |s| && s[j] == e;
    var c := FindCurrent(s, now).value;
    var i :| FirstOngoing(s, now, i) && s[i] == c;
    assert i <= j;
    assert i == j || s[i].startTime <= s[j].startTime;
  }

  // ----- updateTimeAndStatus: the countdown -----

  /**
   * The instant the displayed state is due to change: the end of the current
   * meeting when busy, else the start of the first upcoming meeting, else none.
   */
  function NextTransition(state: RoomUiState): Option<int> {
    if state.isBusy then
      (if state.currentMeeting.Some? then Some(state.currentMeeting.value.endTime) else None)
    else if state.upcomingMeetings != [] then Some(state.upcomingMeetings[0].startTime)
    else None
  }

  /** The countdown: milliseconds left until the next transition, never negative. */
  function Countdown(state: RoomUiState, now: int): (r: int)
    ensures r >= 0
    ensures NextTransition(state).None? ==> r == 0
    ensures NextTransition(state).Some? && NextTransition(state).value > now ==> r == NextTransition(state).value - now
    ensures NextTransition(state).Some? && NextTransition(state).value <= now ==> r == 0
  {
    var timeLeft :=
      if state.isBusy && state.currentMeeting.Some? then state.currentMeeting.value.endTime - now
      else if !state.isBusy && |state.upcomingMeetings| > 0 then state.upcomingMeetings[0].startTime - now
      else 0;
    if timeLeft < 0 then 0 else timeLeft
  }

  /** The state `updateTimeAndStatus` posts: only the countdown changes. */
  function UpdatedTime(state: RoomUiState, now: int): (r: RoomUiState)
    ensures r.timeUntilNextState == Countdown(state, now)
    ensures r.(timeUntilNextState := state.timeUntilNextState) == state
  {
    state.(timeUntilNextState := Countdown(state, now))
  }

  /**
   * Right after a fetch the countdown is positive exactly when a meeting is in
   * progress or one is still to start.
   */
  lemma CountdownAfterFetch(state: RoomUiState, events: seq<RoomEvent>, now: int)
    ensures var s := Fetched(state, events, now);
            Countdown(s, now) > 0 <==>
              exists e :: e in events && (Ongoing(e, now) || StartsAfter(e, now))
  {
    var s := Fetched(state, events, now);
    if s.isBusy {
      var c := s.currentMeeting.value;
      var i :| FirstOngoing(events, now, i) && events[i] == c;
      assert c in events && Ongoing(c, now);
    } else if exists e :: e in events && StartsAfter(e, now) {
      var e :| e in events && StartsAfter(e, now);
      UpcomingHeadIsEarliest(events, now, e);
      var u := s.upcomingMeetings;
      assert multiset(u)[u[0]] > 0;
    } else {
      assert forall e :: e in events ==> !Ongoing(e, now);
      assert forall e :: multiset(s.upcomingMeetings)[e] == 0;
      assert multiset(s.upcomingMeetings) == multiset{};
    }
  }

  /** Between two refreshes the countdown falls by the time elapsed, down to zero. */
  lemma CountdownTicksDown(state: RoomUiState, now: int, elapsed: int)
    requires elapsed >= 0
    ensures Countdown(state, now + elapsed) ==
            if Countdown(state, now) > elapsed then Countdown(state, now) - elapsed else 0
  {
  }

  /** The view model: the posted UI state, the LED commands sent so far, and the provider. */
  class RoomViewModel {
    var uiState: RoomUiState
    var leds: seq<Led>
    const calendarProvider: MockCalendarProvider
    const roomId: string

    /** The two periodic jobs it starts are modelled as explicit calls. */
    constructor(calendarProvider: MockCalendarProvider)
      ensures uiState == InitialUiState && leds == []
      ensures this.calendarProvider == calendarProvider && roomId == RoomId
    {
      this.calendarProvider := calendarProvider;
      roomId := RoomId;
      uiState := InitialUiState;
      leds := [];
    }

    /** One clock tick: recompute the countdown from the cached state. */
    method UpdateTimeAndStatus(now: int)
      modifies this`uiState
      ensures uiState == UpdatedTime(old(uiState), now)
    {
      var state := uiState;
      var timeLeft := 0;
      if state.isBusy && state.currentMeeting.Some? {
        timeLeft := state.currentMeeting.value.endTime - now;
      } else if !state.isBusy && |state.upcomingMeetings| > 0 {
        timeLeft := state.upcomingMeetings[0].startTime - now;
      }
      if timeLeft < 0 {
        timeLeft := 0;
      }
      uiState := state.(timeUntilNextState := timeLeft);
    }

    /** One refresh: re-derive the status from the provider and set the LED once. */
    method FetchEvents(now: int)
      modifies this`uiState, this`leds
      ensures uiState == Fetched(old(uiState), SortByStart(calendarProvider.events), now)
      ensures leds == old(leds) + [LedFor(uiState.isBusy)]
    {
      var events := calendarProvider.GetTodaysEvents(roomId);
      var current := FindCurrent(events, now);
      var isBusy := current.Some?;
      var upcoming := Upcoming(events, now);
      uiState := uiState.(isBusy := isBusy, currentMeeting := current, upcomingMeetings := upcoming);
      if isBusy {
        leds := leds + [SetBusy];
      } else {
        leds := leds + [SetAvailable];
      }
    }

    /** Books the room through the provider and refetches when it reports success. */
    method BookMeeting(durationMinutes: Int32, now: int)
      modifies this`uiState, this`leds, calendarProvider
      ensures calendarProvider.events == old(calendarProvider.events) + [QuickBooking(durationMinutes, now)]
      ensures uiState == Fetched(old(uiState), SortByStart(calendarProvider.events), now)
      ensures leds == old(leds) + [LedFor(uiState.isBusy)]
    {
      var success := calendarProvider.CreateQuickBooking(roomId, durationMinutes, now);
      if success {
        FetchEvents(now);
      }
    }

    /**
     * Ends the current meeting: nothing happens without one; otherwise its id
     * (or "current" when it has none) is sent to the provider, and the state is
     * refetched only when the provider reports success.
     */
    method EndMeeting(now: int)
      modifies this`uiState, this`leds, calendarProvider
      ensures old(uiState.currentMeeting).None? ==>
                uiState == old(uiState) && leds == old(leds) &&
                calendarProvider.events == old(calendarProvider.events)
      ensures old(uiState.currentMeeting).Some? ==>
                var id := old(uiState.currentMeeting).value.eventId.GetOr(FallbackEventId);
                var found := FindById(old(calendarProvider.events), id).Some?;
                && calendarProvider.events == RemainingAfterEnd(old(calendarProvider.events), id)
                && (found ==> uiState == Fetched(old(uiState), SortByStart(calendarProvider.events), now)
                              && leds == old(leds) + [LedFor(uiState.isBusy)])
                && (!found ==> uiState == old(uiState) && leds == old(leds))
    {
      if uiState.currentMeeting.None? {
        return;
      }
      var current := uiState.currentMeeting.value;
      var eventId := current.eventId.GetOr(FallbackEventId);
      var success := calendarProvider.EndCurrentMeeting(roomId, eventId);
      if success {
        FetchEvents(now);
      }
    }

    /** Teardown switches the LED off. */
    method OnCleared()
      modifies this`leds
      ensures leds == old(leds) + [SetOff]
    {
      leds := leds + [SetOff];
    }
  }
}
