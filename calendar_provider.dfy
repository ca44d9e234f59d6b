/**
 * The in-memory event store `MockCalendarProvider` behind the
 * `CalendarProvider` interface: a mutable list of events that is appended to
 * by quick bookings and shrunk by ending a meeting.
 */
module Provider {
  import opened Wrappers
  import opened Events
  import opened EventOrder

  const QuickBookingTitle: string := "Kiosk Booking"
  /** CalendarProvider.kt writes the minute length as its own literal. */
  const MillisPerMinute := 60000

  /** Kotlin `Int`. */
  type Int32 = x: int | -0x8000_0000 <= x < 0x8000_0000

  /** The value a 32-bit two's-complement operation leaves for the exact result `x`. */
  function WrapInt32(x: int): (r: Int32)
    ensures (x - r) % 0x1_0000_0000 == 0
    ensures -0x8000_0000 <= x < 0x8000_0000 ==> r == x
  {
    (x + 0x8000_0000) % 0x1_0000_0000 - 0x8000_0000
  }

  // ----- Kotlin's decimal rendering of a Long, used for booking ids -----

  function DigitChar(d: int): char
    requires 0 <= d < 10
  {
    ('0' as int + d) as char
  }

  /** The decimal digits of `n`, most significant first, without leading zeros. */
  function NatDigits(n: nat): string
  {
    if n < 10 then [DigitChar(n)] else NatDigits(n / 10) + [DigitChar(n % 10)]
  }

  /** `n.toString()` for a Long: a minus sign for negative values, then the digits. */
  function LongString(n: int): (s: string)
    ensures |s| > 0
    ensures (s[0] == '-') <==> n < 0
    ensures ParseLong(s) == n
  {
    if n < 0 then
      NatDigitsRoundTrip(-n);
      var s := "-" + NatDigits(-n);
      assert s[1..] == NatDigits(-n);
      s
    else
      NatDigitsRoundTrip(n);
      NatDigits(n)
  }

  /** The value of a string of decimal digits. */
  function DecimalValue(s: string): int
  {
    if s == [] then 0 else DecimalValue(s[..|s| - 1]) * 10 + (s[|s| - 1] as int - '0' as int)
  }

  /** Reads back what `LongString` writes. */
  function ParseLong(s: string): int
  {
    if |s| > 0 && s[0] == '-' then -DecimalValue(s[1..]) else DecimalValue(s)
  }

  lemma {:induction false} NatDigitsRoundTrip(n: nat)
    ensures DecimalValue(NatDigits(n)) == n
    ensures |NatDigits(n)| > 0 && '0' <= NatDigits(n)[0] <= '9'
  {
    if n >= 10 {
      NatDigitsRoundTrip(n / 10);
      var s := NatDigits(n);
      assert s[..|s| - 1] == NatDigits(n / 10);
    }
  }

  /** The id `"kiosk-${System.currentTimeMillis()}"` of a quick booking. */
  function KioskId(millis: int): (id: string)
    ensures |id| > 6 && id[..6] == "kiosk-"
    ensures ParseLong(id[6..]) == millis
  {
    var id := "kiosk-" + LongString(millis);
    assert id[6..] == LongString(millis);
    id
  }

  /** Quick bookings made at different milliseconds get different ids. */
  lemma KioskIdInjective(a: int, b: int)
    requires KioskId(a) == KioskId(b)
    ensures a == b
  {
    assert ParseLong(KioskId(a)[6..]) == a;
  }

  /**
   * The event `createQuickBooking(roomId, d)` appends at `now`. The product
   * `d * 60000` is computed in 32-bit Int arithmetic and widened afterwards,
   * so the end time is `now` plus the wrapped product, which is `now + d`
   * minutes exactly when that product fits.
   */
  function QuickBooking(durationMinutes: Int32, now: int): (e: RoomEvent)
    ensures e.title == QuickBookingTitle && e.startTime == now
    ensures e.isOrganizerEditable && e.eventId == Some(KioskId(now))
    ensures e.endTime == now + WrapInt32(durationMinutes * MillisPerMinute)
    ensures e.endTime == now + durationMinutes * MillisPerMinute <==> -35791 <= durationMinutes <= 35791
  {
    RoomEvent(QuickBookingTitle, now, now + WrapInt32(durationMinutes * MillisPerMinute), true, Some(KioskId(now)))
  }

  /** A booking of 35792 minutes (about 24.9 days) ends before it starts. */
  lemma QuickBookingOverflow(now: int)
    ensures QuickBooking(35792, now).endTime == now + 35792 * MillisPerMinute - 0x1_0000_0000
    ensures QuickBooking(35792, now).endTime < now
  {
  }

  // ----- endCurrentMeeting -----

  /** `i` is the first position of `events` whose id is `id`. */
  ghost predicate FirstWithId(events: seq<RoomEvent>, id: string, i: int) {
    && 0 <= i < |events|
    && events[i].eventId == Some(id)
    && forall j :: 0 <= j < i ==> events[j].eventId != Some(id)
  }

  /** `events.find { it.eventId == id }`. */
  function FindById(events: seq<RoomEvent>, id: string): (r: Option<RoomEvent>)
    ensures r.None? <==> forall i :: 0 <= i < |events| ==> events[i].eventId != Some(id)
    ensures r.Some? ==> exists i :: FirstWithId(events, id, i) && events[i] == r.value
  {
    if events == [] then None
    else if events[0].eventId == Some(id) then
      assert FirstWithId(events, id, 0);
      Some(events[0])
    else
      var r := FindById(events[1..], id);
      assert forall i :: 1 <= i < |events| ==> events[i] == events[1..][i - 1];
      assert forall i :: FirstWithId(events[1..], id, i) ==> FirstWithId(events, id, i + 1);
      r
  }

  /** `list.remove(x)`: drops the first element equal to `x`, if there is one. */
  function RemoveFirst(s: seq<RoomEvent>, x: RoomEvent): (r: seq<RoomEvent>)
    ensures x !in s ==> r == s
    ensures x in s ==> |r| == |s| - 1 && multiset(r) == multiset(s) - multiset{x}
  {
    if s == [] then []
    else if s[0] == x then
      assert s == [s[0]] + s[1..];
      s[1..]
    else
      assert s == [s[0]] + s[1..];
      [s[0]] + RemoveFirst(s[1..], x)
  }

  lemma {:induction false} RemoveFirstAt(s: seq<RoomEvent>, x: RoomEvent, i: int)
    requires 0 <= i < |s| && s[i] == x
    requires forall j :: 0 <= j < i ==> s[j] != x
    ensures RemoveFirst(s, x) == s[..i] + s[i + 1..]
  {
    if i == 0 {
      assert s[..0] + s[1..] == s[1..];
    } else {
      var t := s[1..];
      assert s[0] != x;
      assert forall j :: 0 <= j < i - 1 ==> t[j] == s[j + 1];
      RemoveFirstAt(t, x, i - 1);
      assert RemoveFirst(s, x) == [s[0]] + RemoveFirst(t, x);
      assert s[..i] == [s[0]] + t[..i - 1];
      assert s[i + 1..] == t[i..];
    }
  }

  /** The list `endCurrentMeeting(roomId, id)` leaves behind. */
  function RemainingAfterEnd(events: seq<RoomEvent>, id: string): (r: seq<RoomEvent>)
    ensures FindById(events, id).None? ==> r == events
    ensures FindById(events, id).Some? ==>
              |r| == |events| - 1 && multiset(r) == multiset(events) - multiset{FindById(events, id).value}
  {
    match FindById(events, id)
    case None => events
    case Some(e) => RemoveFirst(events, e)
  }

  /**
   * Ending a meeting removes exactly the first event carrying the id and keeps
   * the others in order: `remove` goes by structural equality, and no earlier
   * event can equal the one found because its id differs.
   */
  lemma EndRemovesFirstMatch(events: seq<RoomEvent>, id: string, i: int)
    requires FirstWithId(events, id, i)
    ensures RemainingAfterEnd(events, id) == events[..i] + events[i + 1..]
  {
    var e := FindById(events, id).value;
    var k :| FirstWithId(events, id, k) && events[k] == e;
    assert k == i;
    RemoveFirstAt(events, e, i);
  }

  /** With no event carrying the id, nothing is removed. */
  lemma EndWithoutMatchKeepsAll(events: seq<RoomEvent>, id: string)
    requires forall i :: 0 <= i < |events| ==> events[i].eventId != Some(id)
    ensures RemainingAfterEnd(events, id) == events
  {
  }

  /** An event without an id is never removed: the id argument is a non-null String. */
  lemma NullIdEventsSurvive(events: seq<RoomEvent>, id: string, e: RoomEvent)
    requires e.eventId.None?
    ensures multiset(RemainingAfterEnd(events, id))[e] == multiset(events)[e]
  {
    match FindById(events, id)
    case None =>
    case Some(f) =>
      var k :| FirstWithId(events, id, k) && events[k] == f;
      assert f in events && f != e;
  }

  /** The mock provider: its only state is the event list. */
  class MockCalendarProvider {
    var events: seq<RoomEvent>

    /** The seeded list is taken as a parameter. */
    constructor(seed: seq<RoomEvent>)
      ensures events == seed
    {
      events := seed;
    }

    /** A start-time-sorted copy of the list; the list itself is left as it is. */
    method GetTodaysEvents(roomId: string) returns (r: seq<RoomEvent>)
      ensures r == SortByStart(events)
      ensures SortedByStart(r) && multiset(r) == multiset(events) && SameTies(r, events)
    {
      r := SortByStart(events);
    }

    /** Appends one quick booking starting at `now`; always reports success. */
    method CreateQuickBooking(roomId: string, durationMinutes: Int32, now: int) returns (ok: bool)
      modifies this
      ensures ok
      ensures events == old(events) + [QuickBooking(durationMinutes, now)]
    {
      events := events + [QuickBooking(durationMinutes, now)];
      ok := true;
    }

    /** Removes the first event whose id is `eventId`; false when there is none. */
    method EndCurrentMeeting(roomId: string, eventId: string) returns (ok: bool)
      modifies this
      ensures ok <==> exists i :: 0 <= i < |old(events)| && old(events)[i].eventId == Some(eventId)
      ensures events == RemainingAfterEnd(old(events), eventId)
    {
      var event := FindById(events, eventId);
      if event.None? {
        return false;
      }
      events := RemoveFirst(events, event.value);
      ok := true;
    }
  }
}
