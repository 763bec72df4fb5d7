/**
 * The event store of utils.ts: a map from day key to that day's events.
 *
 * The source mutates day arrays that its shallow copy shares with the input
 * store; here every operation takes a store value and yields a new one, which
 * is what the source returns. The spec functions (Appended, Upserted,
 * Filtered, Moved) state each result; the methods follow the source's steps
 * and are proved equal to them.
 */
module EventStore {
  import opened Types
  import opened Dates

  /** `events[key] || []` */
  function Lookup(s: DayEvents, key: string): seq<Event> {
    if key in s then s[key] else []
  }

  /** `getEventsForDay`: the list stored under the date's key, or the empty list. */
  function EventsForDay(events: DayEvents, date: Date): (l: seq<Event>)
    requires HasKey(date)
    ensures FormatDate(date) in events ==> l == events[FormatDate(date)]
    ensures FormatDate(date) !in events ==> l == []
  {
    Lookup(events, FormatDate(date))
  }

  // ---- finding an event by id ----

  predicate HasId(l: seq<Event>, id: string) {
    exists j :: 0 <= j < |l| && l[j].id == id
  }

  /** `i` is the first position of `l` holding an event with this id. */
  predicate FirstWithId(l: seq<Event>, id: string, i: int) {
    0 <= i < |l| && l[i].id == id && forall j :: 0 <= j < i ==> l[j].id != id
  }

  /** `findIndex(event => event.id === id)`. */
  function FindIndex(l: seq<Event>, id: string): (i: int)
    ensures i == -1 <==> !HasId(l, id)
    ensures i != -1 ==> FirstWithId(l, id, i)
  {
    if l == [] then -1
    else if l[0].id == id then 0
    else
      var k := FindIndex(l[1..], id);
      if k == -1 then -1 else k + 1
  }

  // ---- addEvent ----

  /** The store with `e` appended to the day `key`, which is created when absent. */
  function Appended(s: DayEvents, key: string, e: Event): (r: DayEvents)
    ensures r.Keys == s.Keys + {key}
    ensures r[key] == Lookup(s, key) + [e]
    ensures forall k :: k in s && k != key ==> r[k] == s[k]
  {
    s[key := Lookup(s, key) + [e]]
  }

  /** `addEvent`: copy the store, create the day when absent, push the event. */
  method AddEvent(events: DayEvents, date: Date, event: Event) returns (updatedEvents: DayEvents)
    requires HasKey(date)
    ensures updatedEvents == Appended(events, FormatDate(date), event)
  {
    var dateString := FormatDate(date);
    updatedEvents := events;
    if dateString !in updatedEvents {
      updatedEvents := updatedEvents[dateString := []];
    }
    updatedEvents := updatedEvents[dateString := updatedEvents[dateString] + [event]];
  }

  // ---- updateEvent ----

  /**
   * Upsert by id: the first event of the day with `e`'s id is replaced in
   * place; with none, `e` is appended.
   */
  function Upserted(s: DayEvents, key: string, e: Event): (r: DayEvents)
    ensures r.Keys == s.Keys + {key}
    ensures forall k :: k in s && k != key ==> r[k] == s[k]
    ensures !HasId(Lookup(s, key), e.id) ==> r[key] == Lookup(s, key) + [e]
    ensures forall i :: FirstWithId(Lookup(s, key), e.id, i) ==> r[key] == Lookup(s, key)[i := e]
  {
    var l := Lookup(s, key);
    var i := FindIndex(l, e.id);
    s[key := if i != -1 then l[i := e] else l + [e]]
  }

  /** `updateEvent`: copy, create the day when absent, then assign at the found index or push. */
  method UpdateEvent(events: DayEvents, date: Date, updatedEvent: Event) returns (updatedEvents: DayEvents)
    requires HasKey(date)
    ensures updatedEvents == Upserted(events, FormatDate(date), updatedEvent)
  {
    var dateString := FormatDate(date);
    updatedEvents := events;
    if dateString !in updatedEvents {
      updatedEvents := updatedEvents[dateString := []];
    }
    var eventIndex := FindIndex(updatedEvents[dateString], updatedEvent.id);
    if eventIndex != -1 {
      updatedEvents := updatedEvents[dateString := updatedEvents[dateString][eventIndex := updatedEvent]];
    } else {
      updatedEvents := updatedEvents[dateString := updatedEvents[dateString] + [updatedEvent]];
    }
  }

  // ---- filtering a day's list ----

  /** The two `.filter` callbacks applied to day lists. */
  datatype EventFilter =
    | ByKeyword(keyword: string)  // name or description contains the keyword, ignoring case
    | ExceptId(id: string)        // the id differs

  /** ASCII `toLowerCase`. */
  function LowerChar(c: char): char {
    if 'A' <= c <= 'Z' then (c as int + 32) as char else c
  }

  function Lower(s: string): (r: string)
    ensures |r| == |s| && forall i :: 0 <= i < |s| ==> r[i] == LowerChar(s[i])
  {
    seq(|s|, i requires 0 <= i < |s| => LowerChar(s[i]))
  }

  predicate OccursAt(hay: string, needle: string, i: int) {
    0 <= i && i + |needle| <= |hay| && hay[i..i + |needle|] == needle
  }

  /** `hay.includes(needle)`. */
  predicate Includes(hay: string, needle: string) {
    exists i | 0 <= i <= |hay| - |needle| :: OccursAt(hay, needle, i)
  }

  predicate Admits(f: EventFilter, e: Event) {
    match f
    case ByKeyword(keyword) =>
      Includes(Lower(e.name), Lower(keyword)) ||
      (e.description.Some? && Includes(Lower(e.description.value), Lower(keyword)))
    case ExceptId(id) => e.id != id
  }

  /** `a` is `b` with some elements dropped, the rest in their order. */
  predicate IsSubsequence<T(==)>(a: seq<T>, b: seq<T>)
    decreases |b|
  {
    a == [] || (b != [] && ((a[0] == b[0] && IsSubsequence(a[1..], b[1..])) || IsSubsequence(a, b[1..])))
  }

  /** `l.filter(...)`. */
  function FilterDay(l: seq<Event>, f: EventFilter): (r: seq<Event>)
    ensures |r| <= |l|
  {
    if l == [] then []
    else if Admits(f, l[0]) then [l[0]] + FilterDay(l[1..], f)
    else FilterDay(l[1..], f)
  }

  /** The filtered list holds exactly the admitted events of the list. */
  lemma {:induction false} FilterDayMembers(l: seq<Event>, f: EventFilter)
    ensures forall x :: x in FilterDay(l, f) <==> x in l && Admits(f, x)
  {
    if l != [] {
      FilterDayMembers(l[1..], f);
      assert l == [l[0]] + l[1..];
    }
  }

  /** Each admitted event is kept as often as it occurs; no other event is kept. */
  lemma {:induction false} FilterDayCounts(l: seq<Event>, f: EventFilter)
    ensures forall x :: multiset(FilterDay(l, f))[x] == if Admits(f, x) then multiset(l)[x] else 0
  {
    if l != [] {
      FilterDayCounts(l[1..], f);
      assert l == [l[0]] + l[1..];
    }
  }

  /** The kept events stay in their order. */
  lemma {:induction false} FilterDaySubsequence(l: seq<Event>, f: EventFilter)
    ensures IsSubsequence(FilterDay(l, f), l)
  {
    if l != [] {
      FilterDaySubsequence(l[1..], f);
      var r := FilterDay(l[1..], f);
      if Admits(f, l[0]) {
        assert ([l[0]] + r)[1..] == r;
      } else {
        SubsequenceOfTail(r, l);
      }
    }
  }

  lemma SubsequenceOfTail<T>(a: seq<T>, b: seq<T>)
    requires b != [] && IsSubsequence(a, b[1..])
    ensures IsSubsequence(a, b)
  {
  }

  /** A filter that admits every event returns the list unchanged. */
  lemma {:induction false} FilterDayAllAdmitted(l: seq<Event>, f: EventFilter)
    requires forall x :: x in l ==> Admits(f, x)
    ensures FilterDay(l, f) == l
  {
    if l != [] {
      FilterDayAllAdmitted(l[1..], f);
    }
  }

  lemma {:induction false} FilterDayIdempotent(l: seq<Event>, f: EventFilter)
    ensures FilterDay(FilterDay(l, f), f) == FilterDay(l, f)
  {
    FilterDayMembers(l, f);
    FilterDayAllAdmitted(FilterDay(l, f), f);
  }

  /** Every string includes the empty keyword, so the empty keyword admits every event. */
  lemma EmptyKeywordAdmits(e: Event)
    ensures Admits(ByKeyword(""), e)
  {
    assert OccursAt(Lower(e.name), Lower(""), 0);
  }

  // ---- deleteEvent ----

  /** `deleteEvent`: the day keeps exactly its events with another id, in order. The day key must be present. */
  function DeleteEvent(events: DayEvents, date: Date, eventId: string): (r: DayEvents)
    requires HasKey(date) && FormatDate(date) in events
    ensures r.Keys == events.Keys
    ensures r[FormatDate(date)] == FilterDay(events[FormatDate(date)], ExceptId(eventId))
    ensures forall x :: x in r[FormatDate(date)] <==> x in events[FormatDate(date)] && x.id != eventId
    ensures forall k :: k in events && k != FormatDate(date) ==> r[k] == events[k]
  {
    var dateString := FormatDate(date);
    FilterDayMembers(events[dateString], ExceptId(eventId));
    events[dateString := FilterDay(events[dateString], ExceptId(eventId))]
  }

  lemma DeleteEventIdempotent(events: DayEvents, date: Date, eventId: string)
    requires HasKey(date) && FormatDate(date) in events
    ensures DeleteEvent(DeleteEvent(events, date, eventId), date, eventId) == DeleteEvent(events, date, eventId)
  {
    FilterDayIdempotent(events[FormatDate(date)], ExceptId(eventId));
  }

  /** Deleting what was just added leaves no event with that id; if the day had none before, it is back as it was. */
  lemma DeleteAfterAdd(events: DayEvents, date: Date, e: Event)
    requires HasKey(date)
    ensures var key := FormatDate(date);
      var r := DeleteEvent(Appended(events, key, e), date, e.id);
      !HasId(r[key], e.id) &&
      (!HasId(Lookup(events, key), e.id) ==> r[key] == Lookup(events, key))
  {
    var key := FormatDate(date);
    var l := Lookup(events, key);
    var r: DayEvents := DeleteEvent(Appended(events, key, e), date, e.id);
    forall j: int | 0 <= j < |r[key]|
      ensures r[key][j].id != e.id
    {
      assert r[key][j] in r[key];
    }
    if !HasId(l, e.id) {
      assert forall x :: x in l ==> Admits(ExceptId(e.id), x);
      FilterDayAllAdmitted(l, ExceptId(e.id));
      assert l + [e] == l + [e];
      calc {
        r[key];
        FilterDay(l + [e], ExceptId(e.id));
        { FilterDayAppend(l, [e], ExceptId(e.id)); }
        FilterDay(l, ExceptId(e.id)) + FilterDay([e], ExceptId(e.id));
      }
    }
  }

  lemma {:induction false} FilterDayAppend(a: seq<Event>, b: seq<Event>, f: EventFilter)
    ensures FilterDay(a + b, f) == FilterDay(a, f) + FilterDay(b, f)
  {
    if a == [] {
      assert a + b == b;
    } else {
      var ab := a + b;
      assert ab[0] == a[0] && ab[1..] == a[1..] + b;
      FilterDayAppend(a[1..], b, f);
      if Admits(f, a[0]) {
        assert FilterDay(ab, f) == [a[0]] + FilterDay(ab[1..], f);
        assert FilterDay(a, f) == [a[0]] + FilterDay(a[1..], f);
      } else {
        assert FilterDay(ab, f) == FilterDay(ab[1..], f);
        assert FilterDay(a, f) == FilterDay(a[1..], f);
      }
    }
  }

  /** Updating an event just added (and the only one with its id) replaces it: the day keeps its length. */
  lemma UpdateAfterAdd(events: DayEvents, key: string, e: Event, e': Event)
    requires e'.id == e.id && !HasId(Lookup(events, key), e.id)
    ensures Upserted(Appended(events, key, e), key, e')[key] == Lookup(events, key) + [e']
  {
    var l := Lookup(events, key);
    assert FirstWithId(l + [e], e.id, |l|);
    assert (l + [e])[|l| := e'] == l + [e'];
  }

  // ---- filterEvents ----

  /** Every day keeps exactly its events matching the keyword; no key is added or dropped. */
  function Filtered(s: DayEvents, keyword: string): (r: DayEvents)
    ensures r.Keys == s.Keys
    ensures forall k :: k in r ==> r[k] == FilterDay(s[k], ByKeyword(keyword))
  {
    map k | k in s :: FilterDay(s[k], ByKeyword(keyword))
  }

  /** `filterEvents`: write each key of the input into a fresh store. */
  method FilterEvents(events: DayEvents, keyword: string) returns (filteredEvents: DayEvents)
    ensures filteredEvents == Filtered(events, keyword)
  {
    filteredEvents := map[];
    var pending := events.Keys;
    while pending != {}
      invariant pending <= events.Keys
      invariant filteredEvents.Keys == events.Keys - pending
      invariant forall k :: k in filteredEvents ==> filteredEvents[k] == FilterDay(events[k], ByKeyword(keyword))
      decreases pending
    {
      var date :| date in pending;
      filteredEvents := filteredEvents[date := FilterDay(events[date], ByKeyword(keyword))];
      pending := pending - {date};
    }
  }

  /** The empty keyword returns every list unchanged. */
  lemma FilteredEmptyKeyword(s: DayEvents)
    ensures Filtered(s, "") == s
  {
    forall k | k in s
      ensures FilterDay(s[k], ByKeyword("")) == s[k]
    {
      forall x | x in s[k] ensures Admits(ByKeyword(""), x) {
        EmptyKeywordAdmits(x);
      }
      FilterDayAllAdmitted(s[k], ByKeyword(""));
    }
  }

  // ---- moveEvent ----

  /**
   * The first event with `id` on the source day taken out and appended to the
   * destination day; the store itself when the source day has none.
   */
  function Moved(s: DayEvents, src: string, dst: string, id: string): (r: DayEvents)
    ensures !HasId(Lookup(s, src), id) ==> r == s
    ensures var l, i := Lookup(s, src), FindIndex(Lookup(s, src), id);
      i != -1 ==>
      r.Keys == s.Keys + {src, dst} &&
      (forall k :: k in s && k != src && k != dst ==> r[k] == s[k]) &&
      (src != dst ==> r[src] == l[..i] + l[i + 1..] && r[dst] == Lookup(s, dst) + [l[i]]) &&
      (src == dst ==> r[src] == l[..i] + l[i + 1..] + [l[i]])
  {
    var l := Lookup(s, src);
    var i := FindIndex(l, id);
    if i == -1 then s
    else
      var rest := s[src := l[..i] + l[i + 1..]];
      rest[dst := Lookup(rest, dst) + [l[i]]]
  }

  /**
   * `moveEvent`: find the event on the source day, splice it out and push it
   * onto the destination day. When the two keys are equal, both names denote
   * one array, so the push lands on the already spliced list.
   */
  method MoveEvent(events: DayEvents, sourceDate: string, destinationDate: string, eventId: string)
    returns (updatedEvents: DayEvents)
    ensures updatedEvents == Moved(events, sourceDate, destinationDate, eventId)
  {
    updatedEvents := events;
    var sourceEvents := Lookup(updatedEvents, sourceDate);
    var destinationEvents := Lookup(updatedEvents, destinationDate);
    var movedEventIndex := FindIndex(sourceEvents, eventId);
    if movedEventIndex != -1 {
      var movedEvent := sourceEvents[movedEventIndex];
      sourceEvents := sourceEvents[..movedEventIndex] + sourceEvents[movedEventIndex + 1..];
      if destinationDate == sourceDate {
        destinationEvents := sourceEvents;
      }
      destinationEvents := destinationEvents + [movedEvent];
      updatedEvents := updatedEvents[sourceDate := sourceEvents];
      updatedEvents := updatedEvents[destinationDate := destinationEvents];
    }
  }

  // ---- counting events ----

  /** The number of events in the store. */
  ghost function Total(s: DayEvents): nat
    decreases s.Keys
  {
    if s == map[] then 0
    else
      var k :| k in s;
      |s[k]| + Total(s - {k})
  }

  /** Total does not depend on which key is counted first. */
  lemma {:induction false} TotalRemove(s: DayEvents, k: string)
    requires k in s
    ensures Total(s) == |s[k]| + Total(s - {k})
    decreases s.Keys
  {
    var k' :| k' in s && Total(s) == |s[k']| + Total(s - {k'});
    if k' != k {
      TotalRemove(s - {k'}, k);
      TotalRemove(s - {k}, k');
      assert s - {k'} - {k} == s - {k} - {k'};
    }
  }

  lemma TotalUpdate(s: DayEvents, k: string, l: seq<Event>)
    ensures Total(s[k := l]) == Total(s - {k}) + |l|
  {
    TotalRemove(s[k := l], k);
    assert s[k := l] - {k} == s - {k};
  }

  lemma TotalLookup(s: DayEvents, k: string)
    ensures Total(s) == Total(s - {k}) + |Lookup(s, k)|
  {
    if k in s {
      TotalRemove(s, k);
    } else {
      assert s - {k} == s;
    }
  }

  /** Adding an event adds one to the count. */
  lemma AppendedTotal(s: DayEvents, key: string, e: Event)
    ensures Total(Appended(s, key, e)) == Total(s) + 1
  {
    TotalUpdate(s, key, Lookup(s, key) + [e]);
    TotalLookup(s, key);
  }

  /** Moving keeps the number of events. */
  lemma MovedTotal(s: DayEvents, src: string, dst: string, id: string)
    ensures Total(Moved(s, src, dst, id)) == Total(s)
  {
    var l := Lookup(s, src);
    var i := FindIndex(l, id);
    if i != -1 {
      var r := Moved(s, src, dst, id);
      var rest := l[..i] + l[i + 1..];
      assert |rest| == |l| - 1;
      if src == dst {
        assert r == s[src := rest + [l[i]]];
        TotalUpdate(s, src, rest + [l[i]]);
        TotalLookup(s, src);
      } else {
        var s1 := s[src := rest];
        assert r == s1[dst := Lookup(s, dst) + [l[i]]];
        TotalUpdate(s1, dst, Lookup(s, dst) + [l[i]]);
        assert s1 - {dst} == (s - {dst})[src := rest];
        TotalUpdate(s - {dst}, src, rest);
        TotalLookup(s - {dst}, src);
        assert Lookup(s - {dst}, src) == l;
        assert s - {dst} - {src} == s - {src} - {dst};
        TotalLookup(s, src);
        TotalLookup(s - {src}, dst);
        assert Lookup(s - {src}, dst) == Lookup(s, dst);
      }
    }
  }

  /**
   * Moving an event to another day and back returns it to its day (at the end
   * of the list) and restores the other day, provided the other day held no
   * event with that id.
   */
  lemma MoveThereAndBack(s: DayEvents, a: string, b: string, id: string)
    requires a != b && HasId(Lookup(s, a), id) && !HasId(Lookup(s, b), id)
    ensures var l, i := Lookup(s, a), FindIndex(Lookup(s, a), id);
      var r := Moved(Moved(s, a, b, id), b, a, id);
      r.Keys == s.Keys + {b} &&
      r[a] == l[..i] + l[i + 1..] + [l[i]] &&
      multiset(r[a]) == multiset(l) &&
      r[b] == Lookup(s, b) &&
      forall k :: k in s && k != a && k != b ==> r[k] == s[k]
  {
    var l, i := Lookup(s, a), FindIndex(Lookup(s, a), id);
    var m := Moved(s, a, b, id);
    var d := Lookup(s, b);
    assert FirstWithId(m[b], id, |d|);
    assert m[b][..|d|] + m[b][|d| + 1..] == d;
    assert l == l[..i] + [l[i]] + l[i + 1..];
  }
}
