# Calendar event store — a verified model

This project models the event-scheduling layer of a client-side calendar
widget: the event store of `utils.ts` and the handler logic of the
`Calendar` component in `components/calendar.tsx`.

The store maps a day key (`YYYY-MM-DD`) to the events of that day, kept in
insertion order. It supports lookup, append, upsert by id, delete by id, a
case-insensitive keyword filter, and moving an event from one day to
another. The overlap checker decides whether a new event's `HH:MM` range
clashes with the events already on the day. The component keeps the store,
the selected day, the displayed month and the filter keyword. It refuses a
save that overlaps another event of the day, moves events when they are
dragged to another day, and flattens the store for export.

Modules, one per part of the source:

- `Types` (`types.dfy`): the `Event` record and the `DayEvents` store, as in `types.ts`.
- `Dates` (`dates.dfy`): calendar dates, the month enumeration of `getDaysInMonth` and the day key of `formatDate`.
- `Overlap` (`overlap.dfy`): JavaScript string comparison and `checkEventOverlap`.
- `EventStore` (`store.dfy`): the store operations of `utils.ts`.
- `CalendarController` (`calendar.dfy`): the `Calendar` class, the drag id, the filtered view and the export flattening.

How the model follows the code:

- **Store values.** `addEvent`, `updateEvent` and `moveEvent` copy only the outer object (`{ ...events }`). They then push into, assign into or splice the day arrays that the copy still shares with the input store. So in the source the old store's day lists do not survive these calls. The model takes a store value and returns a new one, which is exactly what the source returns. The system is described as treating the store as an immutable value; the code does not, and the model follows the returned values.
- **Spec functions and methods.** For each operation that works step by step (`AddEvent`, `UpdateEvent`, `MoveEvent`, `FilterEvents`), a method follows the source's steps. Its contract equates the result with a spec function (`Appended`, `Upserted`, `Moved`, `Filtered`). The lemmas about those functions state the promised properties.
- **Moving within one day.** When source and destination are the same key, `sourceEvents` and `destinationEvents` in `moveEvent` are one array. The splice and the push then act on the same list, so the event ends up at the end of its day. `MoveEvent` models this aliasing explicitly.
- **Deleting.** `deleteEvent` throws when the day key is absent, because it reads `.filter` of `undefined`. The model turns this into a `requires`. The system's description calls this case a no-op; the model follows the code.
- **Times.** Times are compared as strings. `Overlap.Less` is JavaScript's `<` on strings: the first differing character decides, and a proper prefix comes first. `LessIsTimeOrder` proves that on zero-padded `HH:MM` strings this order is the order of the minutes.
- **Dates.** A date is a (year, month index 0..11, day) triple under Gregorian leap-year rules. `FirstOfMonth` is `new Date(year, monthIndex, 1)`: an out-of-range month index carries into the year, and a year argument 0..99 means 1900..1999. Because of that rule, navigating back from January 100 shows December 99, and the next step forward shows January 2000 (`TwoDigitYearJump`). The month round trips are proved outside those years.
- **Day keys.** The key is the date part of `toISOString`. It has four digits for years 0..9999; other years get a sign and six digits, as ISO 8601 extended years do.
- **Saving.** `handleSaveEvent` returns without closing the form when it refuses a save. However, the form's own submit handler (`components/event-form.tsx:47`) calls `onClose` after `onSave` in every case, so in the running widget the form closes anyway. `HandleCloseEventForm` is that `onClose`.

## Model

| member | source | states |
|---|---|---|
| `Dates.MonthLength` | utils.ts:6-8 | a month has 28 to 31 days; 29 exactly for February of a Gregorian leap year, 28 for February otherwise |
| `Dates.FirstOfMonth` | utils.ts:4 | `new Date(y, m, 1)` is a valid first of month whose month count `12 * year + month` is that of the full year plus `m`, so out-of-range month indexes carry into the year |
| `Dates.DaysInMonth` | utils.ts:3-11 | exactly the month's length of dates for a month index 0..11, none otherwise; the i-th is day i + 1 of that month, so they start at 1 and are consecutive and ascending |
| `Dates.FormatDate` | utils.ts:13-15 | for years 0..9999 the key is ten characters `YYYY-MM-DD` with dashes at 4 and 7 and digits elsewhere; otherwise it has a signed six-digit year |
| `Dates.DigitsRoundTrip` | utils.ts:14 | the zero-padded digits of a number below 10^width read back as that number |
| `Dates.FormatDateRoundTrip` | utils.ts:13-15 | every date with a key is recovered from its key |
| `Dates.FormatDateInjective` | utils.ts:13-15 | two dates share a key exactly when they are equal |
| `Overlap.LessIrreflexive` | utils.ts:67-69 | no string is less than itself |
| `Overlap.LessTransitive` | utils.ts:67-69 | string comparison is transitive |
| `Overlap.LessTotal` | utils.ts:67-69 | of two different strings one is less than the other |
| `Overlap.LessAsymmetric` | utils.ts:67-69 | a less than b excludes b less than a |
| `Overlap.LessIsTimeOrder` | utils.ts:67-69 | on zero-padded `HH:MM` strings the string order agrees with the order of the minutes |
| `Overlap.CheckEventOverlap` | utils.ts:65-71 | true exactly when some existing event satisfies one of the three conflict clauses; so false for an empty list |
| `Overlap.ConflictsIffIntersects` | utils.ts:66-70 | for intervals with start < end, the three clauses together are exactly half-open interval intersection |
| `Overlap.CheckEventOverlapIffIntersects` | utils.ts:65-71 | when all intervals are proper, an overlap is reported exactly when some event's interval intersects the candidate's |
| `Overlap.BackToBackNoOverlap` | utils.ts:67-69 | back-to-back events (one ends when or before the other starts) are not flagged |
| `Overlap.IntersectingOverlap` | utils.ts:65-71 | events whose proper intervals intersect are flagged |
| `EventStore.EventsForDay` | utils.ts:17-20 | the list under the date's key, or the empty list when absent; no other precondition than the date having a key |
| `EventStore.FindIndex` | utils.ts:38 | -1 exactly when no event has the id; otherwise the first position holding that id |
| `EventStore.Appended` | utils.ts:22-30 | the day's list is the old one (or empty) followed by the event; the key set gains the day; every other day is unchanged |
| `EventStore.AddEvent` | utils.ts:22-30 | copying, creating the day when absent and pushing yields `Appended` of the date's key |
| `EventStore.AppendedTotal` | utils.ts:22-30 | adding makes the store hold one more event |
| `EventStore.Upserted` | utils.ts:32-45 | if an event of the day has the id, the first such one is replaced at its index and the length kept; otherwise the event is appended; the key set gains the day; other days unchanged |
| `EventStore.UpdateEvent` | utils.ts:32-45 | the source's steps yield `Upserted` of the date's key |
| `EventStore.UpdateAfterAdd` | utils.ts:22-45 | updating with the same id right after an add replaces the added event in place (the day keeps the added length) |
| `EventStore.FilterDayMembers` | utils.ts:57-60 | the filtered list holds exactly the admitted events of the list |
| `EventStore.FilterDayCounts` | utils.ts:57-60 | each admitted event is kept as often as it occurs, and no other event is kept |
| `EventStore.FilterDaySubsequence` | utils.ts:57-60 | the kept events are a subsequence, in their original order |
| `EventStore.FilterDayAllAdmitted` | utils.ts:57-60 | when every event is admitted the list is unchanged |
| `EventStore.FilterDayIdempotent` | utils.ts:57-60 | filtering twice equals filtering once |
| `EventStore.EmptyKeywordAdmits` | utils.ts:58-59 | every name includes the empty keyword, so it admits every event |
| `EventStore.DeleteEvent` | utils.ts:47-52 | requires the day key; the day keeps exactly its events with another id, in order; the key set and other days are unchanged |
| `EventStore.DeleteEventIdempotent` | utils.ts:47-52 | deleting the same id twice equals deleting it once |
| `EventStore.DeleteAfterAdd` | utils.ts:22-52 | after adding and deleting an event no event with its id remains on the day, and the day is as before when it had none |
| `EventStore.Filtered` | utils.ts:54-63 | the same key set as the input, each day filtered by the keyword |
| `EventStore.FilterEvents` | utils.ts:54-63 | writing every key of the input into a fresh store yields `Filtered` |
| `EventStore.FilteredEmptyKeyword` | utils.ts:54-63 | the empty keyword returns every list unchanged |
| `EventStore.Moved` | utils.ts:73-89 | with no event of the id on the source day the store is unchanged (no destination key created); otherwise the first match leaves the source and is appended unchanged to the destination, only those two keys change, and on one day the event goes to the end |
| `EventStore.MoveEvent` | utils.ts:73-89 | find, splice and push, with the two names aliasing one array on the same day, yields `Moved` |
| `EventStore.TotalRemove` | utils.ts:73-89 | the event count does not depend on which day is counted first |
| `EventStore.MovedTotal` | utils.ts:73-89 | a move keeps the number of events |
| `EventStore.MoveThereAndBack` | utils.ts:73-89 | moving to another day and back puts the event at the end of its day, with the same multiset of events, and restores the other day when it held no event with that id |
| `CalendarController.NextMonth` | components/calendar.tsx:44-46 | the first of the month after the current one (month count plus one) |
| `CalendarController.PreviousMonth` | components/calendar.tsx:40-42 | the first of the month before the current one (month count minus one) |
| `CalendarController.NextThenPrevious` | components/calendar.tsx:40-46 | next then previous returns to the first of the same month, outside the years the two-digit rule touches |
| `CalendarController.PreviousThenNext` | components/calendar.tsx:40-46 | previous then next returns to the first of the same month, outside the years the two-digit rule touches |
| `CalendarController.TwoDigitYearJump` | components/calendar.tsx:40-46 | from January 100 back is December 99, and from there forward is January 2000 |
| `CalendarController.FirstField` | components/calendar.tsx:89 | `split('-')[0]`: the longest dash-free prefix, followed by a dash unless it is the whole string |
| `CalendarController.DragIdRoundTrip` | components/calendar.tsx:89 | the id is recovered from `${id}-${dateString}` whenever the id contains no dash |
| `CalendarController.DashedIdIsCut` | components/calendar.tsx:89 | an id containing a dash is cut at the dash |
| `CalendarController.SaveKeepsDayWellFormed` | components/calendar.tsx:63-73 | a save that passes the overlap check keeps the day proper, overlap-free and with unique ids |
| `CalendarController.MoveCanBreakWellFormed` | components/calendar.tsx:84-95 | a drag does not check overlaps: moving an event onto a busy day can leave two intersecting events there |
| `CalendarController.MarchFifthKey` | utils.ts:13-15 | the key of 5 March 2024 is `2024-03-05` |
| `CalendarController.OverlapScenario` | components/calendar.tsx:63-70 | "Sync" 09:15-09:45 overlaps "Standup" 09:00-09:30 on the same day, so its save is refused |
| `CalendarController.Dated` | components/calendar.tsx:101 | one record per event of the day, each the event with the day key as `date` |
| `CalendarController.FlattenCount` | components/calendar.tsx:100-102 | the export holds one record per stored event |
| `CalendarController.FlattenKeepsDayOrder` | components/calendar.tsx:100-102 | the records dated with a key are that day's events in stored order, and no record carries a key that is not enumerated |
| `CalendarController.Calendar.constructor` | components/calendar.tsx:18-31 | today's month, nothing selected, forms closed, empty keyword, and the stored snapshot when there is one, else the empty store |
| `CalendarController.Calendar.HandlePreviousMonth` | components/calendar.tsx:40-42 | the displayed date becomes `PreviousMonth` of the old one |
| `CalendarController.Calendar.HandleNextMonth` | components/calendar.tsx:44-46 | the displayed date becomes `NextMonth` of the old one |
| `CalendarController.Calendar.HandleSelectDay` | components/calendar.tsx:48-51 | the date is selected and the event list opened |
| `CalendarController.Calendar.HandleAddEvent` | components/calendar.tsx:53-56 | no event is being edited and the form is open |
| `CalendarController.Calendar.HandleEditEvent` | components/calendar.tsx:58-61 | the event is being edited and the form is open |
| `CalendarController.Calendar.HandleCloseEventForm` | components/calendar.tsx:175 | the form is closed |
| `CalendarController.Calendar.HandleFilterChange` | components/calendar.tsx:137 | the keyword is the input's value |
| `CalendarController.Calendar.HandleSaveEvent` | components/calendar.tsx:63-75 | with no date selected nothing changes; refused exactly when the event overlaps another-id event of the day, leaving the store and form as they were; otherwise the store becomes `Upserted` and the form closes, and a well-formed day stays well formed |
| `CalendarController.Calendar.HandleDeleteEvent` | components/calendar.tsx:77-82 | with no date selected nothing changes; otherwise the store becomes `DeleteEvent` of the selected day |
| `CalendarController.Calendar.HandleDragEnd` | components/calendar.tsx:84-95 | no destination, or a drop on the same day, changes nothing; otherwise the store becomes `Moved` with the id taken from the drag id; the event count is kept |
| `CalendarController.Calendar.FilteredEvents` | components/calendar.tsx:97 | skipping the filter for an empty keyword gives the same view as filtering with it |
| `CalendarController.Calendar.ExportEvents` | components/calendar.tsx:99-102 | the flattened records for the key order, one per stored event, each day's events in stored order |

## Left out

- Rendering, styling and animation: the JSX of the component, the day cell, the event list, the form and the page.
- Storage: reading and writing `localStorage` and `JSON.parse`/`JSON.stringify`. The constructor receives the restored store, if any, as a parameter.
- Export download: the Blob, object URL and anchor plumbing. Only the flattening before it is modelled.
- Drag-and-drop machinery: `HandleDragEnd` receives the source id, the optional destination id and the draggable id.
- Id generation with `Date.now()`: ids are opaque strings. They are digit strings in the source, so they contain no dash, which is what `DragIdRoundTrip` needs.
- The host clock and time zones: `getDaysInMonth` works in local time but `formatDate` takes the UTC calendar date, which can shift a key by one day. The model uses one abstract calendar date for both. Daylight-saving effects of `setDate` are not modelled either.
- Key enumeration order: a Dafny `map` has no order. `ExportEvents` takes the order in which the object enumerates its keys (insertion order for these keys) as a parameter.
- Unicode: case folding is ASCII only where the source uses `toLowerCase`. `Less` compares Unicode scalar values where JavaScript compares UTF-16 code units; the two differ only beyond the Basic Multilingual Plane.
- The `alert` text, `toLocaleString` month names and the `getDay()` weekday used only for layout.
- The dialog's `onOpenChange` for the event list: presentation only.
- EventsForDay: requires a date that has a key. `toISOString` throws a RangeError only outside its time range, and that range ends part-way through years −271821 and 275760; the model bounds whole years.
- FormatDate: requires a date that has a key, for the same reason; dates that JavaScript would reject inside the two boundary years are accepted.
- Calendar.HandleDeleteEvent: requires the selected day's key in the store, because `deleteEvent` throws when it is absent; the event list offers a delete only for events shown on that day.
- NextThenPrevious: does not hold for the years the Date constructor's two-digit rule touches, which `TwoDigitYearJump` shows; the lemma excludes them.
- PreviousThenNext: excluded years as for NextThenPrevious.
- Dates beyond JavaScript's time range (an Invalid Date after navigating past year 275760) are not modelled.
