/**
 * The handlers of the calendar component: a state machine over the store,
 * the selected day, the displayed month and the filter keyword, together
 * with the pure pieces they use (the drag id, the filtered view, the export
 * flattening).
 */
module CalendarController {
  import opened Types
  import opened Dates
  import opened Overlap
  import opened EventStore

  // ---- month navigation ----

  /** `new Date(year, month + 1, 1)` */
  function NextMonth(d: Date): (r: Date)
    ensures ValidDate(r) && r.day == 1
    ensures 12 * r.year + r.month == 12 * FullYear(d.year) + d.month + 1
  {
    FirstOfMonth(d.year, d.month + 1)
  }

  /** `new Date(year, month - 1, 1)` */
  function PreviousMonth(d: Date): (r: Date)
    ensures ValidDate(r) && r.day == 1
    ensures 12 * r.year + r.month == 12 * FullYear(d.year) + d.month - 1
  {
    FirstOfMonth(d.year, d.month - 1)
  }

  /**
   * Next then previous returns to the first of the same month. The Date
   * constructor reads years 0..99 as 1900..1999, so the years where that rule
   * applies on either step are excluded.
   */
  lemma NextThenPrevious(d: Date)
    requires ValidDate(d)
    requires !(0 <= d.year <= 99) && !(d.year == -1 && d.month == 11)
    ensures PreviousMonth(NextMonth(d)) == Date(d.year, d.month, 1)
  {
  }

  /** Previous then next returns to the first of the same month, outside the two-digit years. */
  lemma PreviousThenNext(d: Date)
    requires ValidDate(d)
    requires !(0 <= d.year <= 99) && !(d.year == 100 && d.month == 0)
    ensures NextMonth(PreviousMonth(d)) == Date(d.year, d.month, 1)
  {
  }

  /** Where the two-digit rule bites: from January 100 back to December 99, then forward to January 2000. */
  lemma TwoDigitYearJump()
    ensures PreviousMonth(Date(100, 0, 1)) == Date(99, 11, 1)
    ensures NextMonth(Date(99, 11, 1)) == Date(2000, 0, 1)
  {
  }

  // ---- drag ids ----

  /** The draggable id of an event shown on a day: `${event.id}-${dateString}`. */
  function DraggableId(eventId: string, dateString: string): string {
    eventId + "-" + dateString
  }

  /** `s.split('-')[0]`: the text before the first dash, or all of `s` when it has none. */
  function FirstField(s: string): (r: string)
    ensures |r| <= |s| && r == s[..|r|]
    ensures '-' !in r
    ensures |r| < |s| ==> s[|r|] == '-'
  {
    if s == [] || s[0] == '-' then []
    else [s[0]] + FirstField(s[1..])
  }

  /** The event id is recovered from the drag id whenever it contains no dash (as with the digit-only ids the form creates). */
  lemma DragIdRoundTrip(eventId: string, dateString: string)
    requires '-' !in eventId
    ensures FirstField(DraggableId(eventId, dateString)) == eventId
  {
    FirstFieldSkip(eventId, "-" + dateString);
    assert DraggableId(eventId, dateString) == eventId + ("-" + dateString);
  }

  lemma {:induction false} FirstFieldSkip(a: string, b: string)
    requires '-' !in a
    ensures FirstField(a + b) == a + FirstField(b)
  {
    if a == [] {
      assert a + b == b;
    } else {
      assert (a + b)[0] == a[0] && (a + b)[1..] == a[1..] + b;
      assert a[0] in a;
      FirstFieldSkip(a[1..], b);
      assert a == [a[0]] + a[1..];
    }
  }

  /** An id with a dash is cut short. */
  lemma DashedIdIsCut()
    ensures FirstField(DraggableId("a-b", "2024-03-05")) == "a"
  {
  }

  // ---- the saved day keeps its events apart ----

  /** Every interval is proper, and no two events share an id or intersect. */
  predicate WellFormedDay(l: seq<Event>) {
    (forall i :: 0 <= i < |l| ==> Proper(l[i])) &&
    (forall i, j :: 0 <= i < j < |l| ==> l[i].id != l[j].id && !Intersects(l[i], l[j]))
  }

  /** An event with another id that passed the overlap check does not intersect the candidate. */
  lemma ClearOfOthers(l: seq<Event>, c: Event, x: Event)
    requires Proper(c) && Proper(x) && x in l && x.id != c.id
    requires !CheckEventOverlap(FilterDay(l, ExceptId(c.id)), c)
    ensures !Intersects(x, c) && !Intersects(c, x)
  {
    var others := FilterDay(l, ExceptId(c.id));
    FilterDayMembers(l, ExceptId(c.id));
    assert x in others;
    var k :| 0 <= k < |others| && others[k] == x;
    ConflictsIffIntersects(x, c);
  }

  /** A save that passes the overlap check keeps the day well formed. */
  lemma SaveKeepsDayWellFormed(s: DayEvents, key: string, c: Event)
    requires WellFormedDay(Lookup(s, key)) && Proper(c)
    requires !CheckEventOverlap(FilterDay(Lookup(s, key), ExceptId(c.id)), c)
    ensures WellFormedDay(Upserted(s, key, c)[key])
  {
    var l := Lookup(s, key);
    var i := FindIndex(l, c.id);
    var r := Upserted(s, key, c)[key];
    if i == -1 {
      assert r == l + [c];
      forall j | 0 <= j < |l|
        ensures l[j].id != c.id && !Intersects(l[j], c)
      {
        ClearOfOthers(l, c, l[j]);
      }
    } else {
      assert r == l[i := c];
      forall j | 0 <= j < |l| && j != i
        ensures l[j].id != c.id && !Intersects(l[j], c) && !Intersects(c, l[j])
      {
        assert l[j].id != l[i].id;
        ClearOfOthers(l, c, l[j]);
      }
    }
  }

  /** A drag performs no overlap check: moving an event onto a busy day can break it. */
  lemma MoveCanBreakWellFormed()
    ensures var standup := Event("1", "Standup", "09:00", "10:00", None, "blue");
      var sync := Event("2", "Sync", "09:30", "10:30", None, "green");
      var s := map["2024-03-05" := [standup], "2024-03-06" := [sync]];
      WellFormedDay(s["2024-03-05"]) && WellFormedDay(s["2024-03-06"]) &&
      !WellFormedDay(Moved(s, "2024-03-05", "2024-03-06", "1")["2024-03-06"])
  {
    var standup := Event("1", "Standup", "09:00", "10:00", None, "blue");
    var sync := Event("2", "Sync", "09:30", "10:30", None, "green");
    var s := map["2024-03-05" := [standup], "2024-03-06" := [sync]];
    assert FindIndex([standup], "1") == 0;
    assert Moved(s, "2024-03-05", "2024-03-06", "1")["2024-03-06"] == [sync, standup];
    var l := [sync, standup];
    assert Intersects(l[0], l[1]);
  }

  /** The day key of 5 March 2024 (month index 2). */
  lemma MarchFifthKey()
    ensures FormatDate(Date(2024, 2, 5)) == "2024-03-05"
  {
  }

  /** Saving "Sync" 09:15-09:45 beside "Standup" 09:00-09:30 on 2024-03-05 is refused as an overlap. */
  lemma OverlapScenario()
    ensures var standup := Event("1", "Standup", "09:00", "09:30", None, "blue");
      var sync := Event("2", "Sync", "09:15", "09:45", None, "green");
      var s := Appended(map[], "2024-03-05", standup);
      |s["2024-03-05"]| == 1 &&
      CheckEventOverlap(FilterDay(EventsForDay(s, Date(2024, 2, 5)), ExceptId(sync.id)), sync)
  {
    var standup := Event("1", "Standup", "09:00", "09:30", None, "blue");
    var sync := Event("2", "Sync", "09:15", "09:45", None, "green");
    MarchFifthKey();
    assert FilterDay([standup], ExceptId("2")) == [standup];
    assert Conflicts(standup, sync);
  }

  // ---- export ----

  /** One exported record: the event's fields with the day key added as `date`. */
  datatype ExportRecord = ExportRecord(event: Event, date: string)

  function Dated(l: seq<Event>, date: string): (r: seq<ExportRecord>)
    ensures |r| == |l|
    ensures forall i :: 0 <= i < |l| ==> r[i] == ExportRecord(l[i], date)
  {
    if l == [] then [] else [ExportRecord(l[0], date)] + Dated(l[1..], date)
  }

  /** The `flatMap` of `exportEvents`, over the keys in the store's enumeration order. */
  function Flatten(events: DayEvents, keyOrder: seq<string>): seq<ExportRecord>
    requires forall k :: k in keyOrder ==> k in events
  {
    if keyOrder == [] then [] else Dated(events[keyOrder[0]], keyOrder[0]) + Flatten(events, keyOrder[1..])
  }

  /** `keyOrder` lists every key of the store exactly once. */
  predicate Enumerates(events: DayEvents, keyOrder: seq<string>) {
    (forall k :: k in keyOrder ==> k in events) &&
    (forall k :: k in events ==> k in keyOrder) &&
    (forall i, j :: 0 <= i < j < |keyOrder| ==> keyOrder[i] != keyOrder[j])
  }

  lemma {:induction false} FlattenFrame(s: DayEvents, t: DayEvents, keyOrder: seq<string>)
    requires forall k :: k in keyOrder ==> k in s && k in t && s[k] == t[k]
    ensures Flatten(s, keyOrder) == Flatten(t, keyOrder)
  {
    if keyOrder != [] {
      FlattenFrame(s, t, keyOrder[1..]);
    }
  }

  /** The export holds one record per stored event. */
  lemma {:induction false} FlattenCount(events: DayEvents, keyOrder: seq<string>)
    requires Enumerates(events, keyOrder)
    ensures |Flatten(events, keyOrder)| == Total(events)
  {
    if keyOrder == [] {
      assert events == map[];
    } else {
      var k := keyOrder[0];
      var rest := events - {k};
      forall j | 0 <= j < |keyOrder[1..]|
        ensures keyOrder[1..][j] != k
      {
        assert keyOrder[1..][j] == keyOrder[j + 1];
      }
      assert Enumerates(rest, keyOrder[1..]) by {
        forall i, j | 0 <= i < j < |keyOrder[1..]|
          ensures keyOrder[1..][i] != keyOrder[1..][j]
        {
          assert keyOrder[1..][i] == keyOrder[i + 1] && keyOrder[1..][j] == keyOrder[j + 1];
        }
      }
      FlattenFrame(events, rest, keyOrder[1..]);
      FlattenCount(rest, keyOrder[1..]);
      TotalRemove(events, k);
    }
  }

  /** The events of the records dated `date`, in record order. */
  function EventsDatedOn(records: seq<ExportRecord>, date: string): seq<Event> {
    if records == [] then []
    else (if records[0].date == date then [records[0].event] else []) + EventsDatedOn(records[1..], date)
  }

  lemma {:induction false} EventsDatedOnAppend(a: seq<ExportRecord>, b: seq<ExportRecord>, date: string)
    ensures EventsDatedOn(a + b, date) == EventsDatedOn(a, date) + EventsDatedOn(b, date)
  {
    if a == [] {
      assert a + b == b;
    } else {
      assert (a + b)[1..] == a[1..] + b;
      EventsDatedOnAppend(a[1..], b, date);
    }
  }

  lemma {:induction false} EventsDatedOnDated(l: seq<Event>, day: string, date: string)
    ensures EventsDatedOn(Dated(l, day), date) == if day == date then l else []
  {
    if l != [] {
      EventsDatedOnDated(l[1..], day, date);
      assert Dated(l, day)[1..] == Dated(l[1..], day);
      assert l == [l[0]] + l[1..];
    }
  }

  /** Each day's records appear in the export in its stored order, and no other records carry its key. */
  lemma {:induction false} FlattenKeepsDayOrder(events: DayEvents, keyOrder: seq<string>, date: string)
    requires forall k :: k in keyOrder ==> k in events
    requires forall i, j :: 0 <= i < j < |keyOrder| ==> keyOrder[i] != keyOrder[j]
    ensures EventsDatedOn(Flatten(events, keyOrder), date) == if date in keyOrder then events[date] else []
  {
    if keyOrder != [] {
      var k := keyOrder[0];
      EventsDatedOnAppend(Dated(events[k], k), Flatten(events, keyOrder[1..]), date);
      EventsDatedOnDated(events[k], k, date);
      assert forall i, j :: 0 <= i < j < |keyOrder[1..]| ==> keyOrder[1..][i] != keyOrder[1..][j] by {
        forall i, j | 0 <= i < j < |keyOrder[1..]|
          ensures keyOrder[1..][i] != keyOrder[1..][j]
        {
          assert keyOrder[1..][i] == keyOrder[i + 1] && keyOrder[1..][j] == keyOrder[j + 1];
        }
      }
      FlattenKeepsDayOrder(events, keyOrder[1..], date);
      if k == date {
        forall j | 0 <= j < |keyOrder[1..]|
          ensures keyOrder[1..][j] != date
        {
          assert keyOrder[1..][j] == keyOrder[j + 1];
        }
      }
    }
  }

  // ---- the component ----

  class Calendar {
    var currentDate: Date
    var selectedDate: Option<Date>
    var events: DayEvents
    var isEventFormOpen: bool
    var selectedEvent: Option<Event>
    var isEventListOpen: bool
    var filterKeyword: string

    ghost predicate Valid()
      reads this
    {
      ValidDate(currentDate) && (selectedDate.Some? ==> HasKey(selectedDate.value))
    }

    /** The mounted component: the host's today, and the store read back from storage when a snapshot exists. */
    constructor (today: Date, stored: Option<DayEvents>)
      requires ValidDate(today)
      ensures Valid()
      ensures currentDate == today && selectedDate == None
      ensures events == (if stored.Some? then stored.value else map[])
      ensures !isEventFormOpen && selectedEvent == None && !isEventListOpen && filterKeyword == ""
    {
      currentDate := today;
      selectedDate := None;
      events := if stored.Some? then stored.value else map[];
      isEventFormOpen := false;
      selectedEvent := None;
      isEventListOpen := false;
      filterKeyword := "";
    }

    method HandlePreviousMonth()
      requires Valid()
      modifies this`currentDate
      ensures Valid()
      ensures currentDate == PreviousMonth(old(currentDate))
    {
      currentDate := FirstOfMonth(currentDate.year, currentDate.month - 1);
    }

    method HandleNextMonth()
      requires Valid()
      modifies this`currentDate
      ensures Valid()
      ensures currentDate == NextMonth(old(currentDate))
    {
      currentDate := FirstOfMonth(currentDate.year, currentDate.month + 1);
    }

    method HandleSelectDay(date: Date)
      requires Valid() && HasKey(date)
      modifies this`selectedDate, this`isEventListOpen
      ensures Valid()
      ensures selectedDate == Some(date) && isEventListOpen
    {
      selectedDate := Some(date);
      isEventListOpen := true;
    }

    method HandleAddEvent()
      modifies this`selectedEvent, this`isEventFormOpen
      ensures selectedEvent == None && isEventFormOpen
    {
      selectedEvent := None;
      isEventFormOpen := true;
    }

    method HandleEditEvent(event: Event)
      modifies this`selectedEvent, this`isEventFormOpen
      ensures selectedEvent == Some(event) && isEventFormOpen
    {
      selectedEvent := Some(event);
      isEventFormOpen := true;
    }

    /** The form's `onClose`. */
    method HandleCloseEventForm()
      modifies this`isEventFormOpen
      ensures !isEventFormOpen
    {
      isEventFormOpen := false;
    }

    /** The filter input's `onChange`. */
    method HandleFilterChange(keyword: string)
      modifies this`filterKeyword
      ensures filterKeyword == keyword
    {
      filterKeyword := keyword;
    }

    /**
     * `handleSaveEvent`: refused (the alert) when the event overlaps another
     * event of the selected day; otherwise upserted and the form closed.
     */
    method HandleSaveEvent(event: Event) returns (refused: bool)
      requires Valid()
      modifies this`events, this`isEventFormOpen
      ensures Valid()
      ensures old(selectedDate).None? ==> !refused && events == old(events) && isEventFormOpen == old(isEventFormOpen)
      ensures old(selectedDate).Some? ==>
        refused == CheckEventOverlap(FilterDay(EventsForDay(old(events), selectedDate.value), ExceptId(event.id)), event)
      ensures refused ==> events == old(events) && isEventFormOpen == old(isEventFormOpen)
      ensures old(selectedDate).Some? && !refused ==>
        events == Upserted(old(events), FormatDate(selectedDate.value), event) && !isEventFormOpen
      ensures (old(selectedDate).Some? && !refused && Proper(event) &&
               WellFormedDay(EventsForDay(old(events), selectedDate.value))) ==>
        WellFormedDay(EventsForDay(events, selectedDate.value))
    {
      refused := false;
      if selectedDate.Some? {
        var dateEvents := EventsForDay(events, selectedDate.value);
        if CheckEventOverlap(FilterDay(dateEvents, ExceptId(event.id)), event) {
          refused := true;
          return;
        }
        ghost var before := events;
        var updatedEvents := UpdateEvent(events, selectedDate.value, event);
        events := updatedEvents;
        isEventFormOpen := false;
        if Proper(event) && WellFormedDay(dateEvents) {
          SaveKeepsDayWellFormed(before, FormatDate(selectedDate.value), event);
        }
      }
    }

    /** `handleDeleteEvent`; the selected day is present in the store whenever its list offers a delete. */
    method HandleDeleteEvent(eventId: string)
      requires Valid()
      requires selectedDate.Some? ==> FormatDate(selectedDate.value) in events
      modifies this`events
      ensures selectedDate.None? ==> events == old(events)
      ensures selectedDate.Some? ==> events == DeleteEvent(old(events), selectedDate.value, eventId)
    {
      if selectedDate.Some? {
        events := DeleteEvent(events, selectedDate.value, eventId);
      }
    }

    /** `handleDragEnd`: no destination or the same day changes nothing; otherwise the event moves. */
    method HandleDragEnd(sourceDroppableId: string, destinationDroppableId: Option<string>, draggableId: string)
      modifies this`events
      ensures destinationDroppableId.None? || destinationDroppableId.value == sourceDroppableId ==>
        events == old(events)
      ensures destinationDroppableId.Some? && destinationDroppableId.value != sourceDroppableId ==>
        events == Moved(old(events), sourceDroppableId, destinationDroppableId.value, FirstField(draggableId))
      ensures Total(events) == Total(old(events))
    {
      if destinationDroppableId.None? {
        return;
      }
      var sourceDate := sourceDroppableId;
      var destinationDate := destinationDroppableId.value;
      var eventId := FirstField(draggableId);
      if sourceDate != destinationDate {
        var updatedEvents := MoveEvent(events, sourceDate, destinationDate, eventId);
        MovedTotal(events, sourceDate, destinationDate, eventId);
        events := updatedEvents;
      }
    }

    /** `filteredEvents`: skipping the filter for an empty keyword gives the same view as filtering. */
    function FilteredEvents(): (r: DayEvents)
      reads this
      ensures r == Filtered(events, filterKeyword)
    {
      if filterKeyword != "" then Filtered(events, filterKeyword)
      else
        FilteredEmptyKeyword(events);
        events
    }

    /** The records `exportEvents` serializes, for the store's key enumeration order. */
    method ExportEvents(keyOrder: seq<string>) returns (eventsArray: seq<ExportRecord>)
      requires Enumerates(events, keyOrder)
      ensures eventsArray == Flatten(events, keyOrder)
      ensures |eventsArray| == Total(events)
      ensures forall date :: date in events ==> EventsDatedOn(eventsArray, date) == events[date]
    {
      eventsArray := Flatten(events, keyOrder);
      FlattenCount(events, keyOrder);
      forall date | date in events
        ensures EventsDatedOn(eventsArray, date) == events[date]
      {
        FlattenKeepsDayOrder(events, keyOrder, date);
      }
    }
  }
}
