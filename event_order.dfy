/**
 * `sortedBy { it.startTime }`: the stable ascending sort that both the mock
 * provider and the view model apply to event lists.
 */
module EventOrder {
  import opened Events

  predicate SortedByStart(s: seq<RoomEvent>) {
    forall i, j :: 0 <= i < j < |s| ==> s[i].startTime <= s[j].startTime
  }

  /** The events of `s` whose start time is `k`, in their order in `s`. */
  function WithStart(s: seq<RoomEvent>, k: int): seq<RoomEvent> {
    if s == [] then []
    else (if s[0].startTime == k then [s[0]] else []) + WithStart(s[1..], k)
  }

  /** Stability: events with equal start times keep their relative order. */
  ghost predicate SameTies(r: seq<RoomEvent>, s: seq<RoomEvent>) {
    forall k :: WithStart(r, k) == WithStart(s, k)
  }

  /** Places `e` in front of the first event that does not start before it. */
  function Insert(e: RoomEvent, s: seq<RoomEvent>): seq<RoomEvent> {
    if s == [] || e.startTime <= s[0].startTime then [e] + s
    else [s[0]] + Insert(e, s[1..])
  }

  lemma {:induction false} WithStartAppend(a: seq<RoomEvent>, b: seq<RoomEvent>, k: int)
    ensures WithStart(a + b, k) == WithStart(a, k) + WithStart(b, k)
  {
    if a == [] {
      assert a + b == b;
    } else {
      assert (a + b)[1..] == a[1..] + b;
      WithStartAppend(a[1..], b, k);
    }
  }

  lemma ConsSorted(x: RoomEvent, t: seq<RoomEvent>)
    requires SortedByStart(t)
    requires t != [] ==> x.startTime <= t[0].startTime
    ensures SortedByStart([x] + t)
  {
  }

  lemma {:induction false} InsertSorted(e: RoomEvent, s: seq<RoomEvent>)
    requires SortedByStart(s)
    ensures SortedByStart(Insert(e, s))
    ensures multiset(Insert(e, s)) == multiset(s) + multiset{e}
    ensures Insert(e, s)[0] == e || (s != [] && Insert(e, s)[0] == s[0])
  {
    if s == [] || e.startTime <= s[0].startTime {
      ConsSorted(e, s);
    } else {
      InsertSorted(e, s[1..]);
      ConsSorted(s[0], Insert(e, s[1..]));
      assert s == [s[0]] + s[1..];
    }
  }

  lemma {:induction false} InsertTies(e: RoomEvent, s: seq<RoomEvent>, k: int)
    ensures WithStart(Insert(e, s), k) == WithStart([e], k) + WithStart(s, k)
  {
    if s == [] || e.startTime <= s[0].startTime {
      WithStartAppend([e], s, k);
    } else {
      InsertTies(e, s[1..], k);
      WithStartAppend([s[0]], Insert(e, s[1..]), k);
      WithStartAppend([s[0]], s[1..], k);
      assert s == [s[0]] + s[1..];
    }
  }

  /** Insertion sort; the order it produces is the one `sortedBy` produces. */
  function SortByStart(s: seq<RoomEvent>): (r: seq<RoomEvent>)
    ensures SortedByStart(r)
    ensures multiset(r) == multiset(s)
    ensures |r| == |s|
    ensures SameTies(r, s)
  {
    if s == [] then []
    else
      var rest := SortByStart(s[1..]);
      InsertSorted(s[0], rest);
      assert s == [s[0]] + s[1..];
      assert SameTies(Insert(s[0], rest), s) by {
        forall k ensures WithStart(Insert(s[0], rest), k) == WithStart(s, k) {
          InsertTies(s[0], rest, k);
          WithStartAppend([s[0]], s[1..], k);
        }
      }
      Insert(s[0], rest)
  }
}
