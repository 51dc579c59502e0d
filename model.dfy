/**
 * The converter's values: the errors it raises, the events it builds, and the
 * ambient platform (clock, time-zone rules, date parsing, the iCalendar
 * library) that every operation reads.
 */
module Model {
  import opened Wrappers

  /** One variant per exception the pipeline can raise */
  datatype Error =
    | FieldCount(found: nat)        // validate_event: not exactly six columns
    | BadDate(field: string)        // validate_event: date does not begin YYYY.MM.DD
    | BadTime(field: string)        // validate_event: start time does not begin hh:mm
    | BadDuration                   // validate_event: duration does not begin with a digit
    | BadNotification               // validate_event: notification does not begin with a digit
    | DateUnparsable(date: string)  // strptime(date, "%Y.%m.%d") raised ValueError
    | NotAnInteger(text: string)    // int(text) raised ValueError
    | InvalidStartTime              // set_begin: minute 60 or more
    | BeginUnparsable(text: string) // datetime.fromisoformat(text) raised ValueError
    | Overflow                      // timedelta or datetime arithmetic raised OverflowError
    | EventConstruction             // "Error creating event": ics.Event(...) raised
    | EmptyCalendar                 // "No events that can be created found!"

  /** A reminder; `trigger` is in minutes relative to the event's begin */
  datatype Alarm = DisplayAlarm(trigger: int)

  /** An event; `begin` and `end` are instants counted in minutes on one absolute time line */
  datatype Event = Event(name: string, begin: int, end: int, location: string, alarms: seq<Alarm>)

  /**
   * Everything the pipeline reads from outside its own code:
   *  - `localHour`, `utcHour`: the hours of `datetime.now()` and `datetime.now(UTC)`;
   *  - `dstToday`: `is_date_dst` of the current local time;
   *  - `dstOn(date)`: `is_date_dst` of the event date parsed from the text `date`;
   *  - `parsesDate(date)`: `datetime.strptime(date, "%Y.%m.%d")` does not raise;
   *  - `fromIso(text)`: `datetime.fromisoformat(text)` as a minute count, `None` when it raises;
   *  - `earliest`, `latest`: the first and last instant a `datetime` can hold;
   *  - `accepts(e)`: the iCalendar library's `Event(...)` constructor does not raise on `e`.
   */
  datatype Platform = Platform(
    localHour: int,
    utcHour: int,
    dstToday: bool,
    dstOn: string -> bool,
    parsesDate: string -> bool,
    fromIso: string -> Option<int>,
    earliest: int,
    latest: int,
    accepts: Event -> bool)
}
