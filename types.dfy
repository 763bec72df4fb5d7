/** The record shapes shared by the store and the calendar component. */
module Types {
  datatype Option<T> = None | Some(value: T)

  /** One scheduled item. Times are "HH:MM" strings; the description may be absent. */
  datatype Event = Event(
    id: string,
    name: string,
    startTime: string,
    endTime: string,
    description: Option<string>,
    color: string)

  /** Day key ("YYYY-MM-DD") to the events of that day, in insertion order. */
  type DayEvents = map<string, seq<Event>>
}
