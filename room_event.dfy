/** The calendar entry shared by the provider and the view model. */
module Events {
  import opened Wrappers

  /**
   * One scheduled or quick-booked occupancy interval. Every field is read-only,
   * so an event is only ever added to or removed from a list, never changed;
   * equality is structural over all five fields. No relation between
   * `startTime` and `endTime` is enforced.
   */
  datatype RoomEvent = RoomEvent(
    title: string,
    startTime: int,
    endTime: int,
    isOrganizerEditable: bool,
    eventId: Option<string>)

  /** The constructor call that leaves the two defaulted parameters out. */
  function NewEvent(title: string, startTime: int, endTime: int): (e: RoomEvent)
    ensures !e.isOrganizerEditable
    ensures e.eventId == None
    ensures (e.title, e.startTime, e.endTime) == (title, startTime, endTime)
  {
    RoomEvent(title, startTime, endTime, false, None)
  }

  /** `startTime <= now < endTime`: the meeting is in progress at `now`. */
  predicate Ongoing(e: RoomEvent, now: int) {
    e.startTime <= now < e.endTime
  }

  /** `startTime > now`: the meeting has not started yet. */
  predicate StartsAfter(e: RoomEvent, now: int) {
    e.startTime > now
  }
}
