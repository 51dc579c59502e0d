/**
 * `set_end` (main.py:9-12), the notification alarm and the event construction
 * of `event_str_to_ics` (main.py:84-105): one validated record becomes one event.
 */
module EventBuilder {
  import opened Wrappers
  import opened Text
  import opened Model
  import opened Validation
  import opened Begin

  /** The largest number of whole days a `timedelta` can hold, either way */
  const MaxDeltaDays := 999999999

  /** A span of `minutes` fits in a `timedelta`: its floored whole days lie within the bound */
  predicate DeltaFits(minutes: int) {
    -MaxDeltaDays <= minutes / 1440 <= MaxDeltaDays
  }

  /**
   * `set_end`: `begin + timedelta(hours=int(duration))`. `int` may reject the
   * text; the `timedelta` and the sum may leave their ranges.
   */
  function SetEnd(begin: int, duration: string, p: Platform): (r: Result<int, Error>)
    ensures PyInt(duration).None? <==> r == Failure(NotAnInteger(duration))
    ensures r.Success? ==> r.value - begin == 60 * PyInt(duration).value
    ensures r.Success? ==> p.earliest <= r.value <= p.latest
    ensures PyInt(duration).Some? ==>
      (r.Success? <==> DeltaFits(60 * PyInt(duration).value) && p.earliest <= begin + 60 * PyInt(duration).value <= p.latest)
    ensures PyInt(duration).Some? && r.Failure? ==> r.error == Overflow
  {
    match PyInt(duration)
    case None => Failure(NotAnInteger(duration))
    case Some(hours) =>
      var delta := 60 * hours;
      if !DeltaFits(delta) then Failure(Overflow)
      else if !(p.earliest <= begin + delta <= p.latest) then Failure(Overflow)
      else Success(begin + delta)
  }

  /** A validated count column (stripped, leading digit) that `int` accepts is not negative */
  lemma ValidatedCountNonNegative(column: string)
    requires BeginsWithDigit(Strip(column)) && PyInt(Strip(column)).Some?
    ensures PyInt(Strip(column)).value >= 0
  {
    StripIdempotent(column);
  }

  /** A duration that begins with a digit never puts the end before the begin */
  lemma EndNotBeforeBegin(begin: int, duration: string, p: Platform)
    requires BeginsWithDigit(Strip(duration))
    ensures SetEnd(begin, duration, p).Success? ==> SetEnd(begin, duration, p).value >= begin
  {
    StripIdempotent(duration);
  }

  /** The reminder: a `DisplayAlarm` whose trigger is `timedelta(minutes=-int(notification))` */
  function AlarmFor(notification: string): (r: Result<Alarm, Error>)
    ensures PyInt(notification).None? <==> r == Failure(NotAnInteger(notification))
    ensures r.Success? ==> r.value.trigger == -PyInt(notification).value
    ensures PyInt(notification).Some? ==> (r.Success? <==> DeltaFits(-PyInt(notification).value))
    ensures PyInt(notification).Some? && r.Failure? ==> r.error == Overflow
  {
    match PyInt(notification)
    case None => Failure(NotAnInteger(notification))
    case Some(minutes) =>
      if !DeltaFits(-minutes) then Failure(Overflow)
      else Success(DisplayAlarm(-minutes))
  }

  /** A notification that begins with a digit sounds at or before the begin */
  lemma AlarmNotAfterBegin(notification: string)
    requires BeginsWithDigit(Strip(notification))
    ensures AlarmFor(notification).Success? ==> AlarmFor(notification).value.trigger <= 0
  {
    StripIdempotent(notification);
  }

  /**
   * `event_str_to_ics` as a value: validate, then build from the stripped
   * columns, stopping at the first error.
   */
  function BuildEvent(record: string, p: Platform): (r: Result<Event, Error>)
  {
    match ValidateEvent(record)
    case Fail(e) => Failure(e)
    case Pass =>
      var c := Components(record);
      var time := Strip(c[3]);
      assert time[2] in time;
      BuildFromFields(Strip(c[0]), Strip(c[1]), Strip(c[2]), time, Strip(c[4]), Strip(c[5]), p)
  }

  /** Building from the stripped columns: the begin from the date and start time, then the rest */
  function BuildFromFields(title: string, location: string, date: string, time: string, duration: string,
                           notification: string, p: Platform): (r: Result<Event, Error>)
    requires ':' in time
  {
    match ResolveBegin(date, time, p)
    case Failure(e) => Failure(e)
    case Success(begin) => CompleteEvent(title, location, begin, duration, notification, p)
  }

  /** Once the begin is known: the end, the alarm, and the library's `Event(...)` wrapped in its `try` */
  function CompleteEvent(title: string, location: string, begin: int, duration: string, notification: string,
                         p: Platform): (r: Result<Event, Error>)
  {
    match SetEnd(begin, duration, p)
    case Failure(e) => Failure(e)
    case Success(end) =>
      match AlarmFor(notification)
      case Failure(e) => Failure(e)
      case Success(alarm) =>
        var event := Event(title, begin, end, location, [alarm]);
        if p.accepts(event) then Success(event) else Failure(EventConstruction)
  }

  /**
   * The event built from stripped columns carries the title and location, the
   * begin `set_begin` gives, an end `60 * int(duration)` minutes after it and one
   * alarm at `-int(notification)` minutes, and the library accepted it; a
   * duration and a notification that begin with a digit put the end no earlier
   * than the begin and the alarm no later.
   */
  lemma BuiltFromFields(title: string, location: string, date: string, time: string, duration: string,
                        notification: string, p: Platform, e: Event)
    requires ':' in time && BuildFromFields(title, location, date, time, duration, notification, p) == Success(e)
    ensures e.name == title && e.location == location && p.accepts(e)
    ensures ResolveBegin(date, time, p) == Success(e.begin)
    ensures PyInt(duration).Some? && e.end - e.begin == 60 * PyInt(duration).value
    ensures p.earliest <= e.end <= p.latest
    ensures PyInt(notification).Some? && |e.alarms| == 1 && e.alarms[0] == DisplayAlarm(-PyInt(notification).value)
    ensures BeginsWithDigit(Strip(duration)) ==> e.end >= e.begin
    ensures BeginsWithDigit(Strip(notification)) ==> e.alarms[0].trigger <= 0
  {
    var begin := ResolveBegin(date, time, p).value;
    var end := SetEnd(begin, duration, p);
    var alarm := AlarmFor(notification);
    assert end.Success? && alarm.Success?;
    assert e == Event(title, begin, end.value, location, [alarm.value]);
  }

  /** No event is built from a record that fails validation, and the validation error is the one raised */
  lemma BuildRequiresValidation(record: string, p: Platform)
    ensures ValidateEvent(record).Fail? ==> BuildEvent(record, p) == Failure(ValidateEvent(record).error)
    ensures BuildEvent(record, p).Success? ==> WellFormed(Components(record))
  {
  }

  /** A built event comes from a record that passed validation, through its stripped columns */
  lemma BuildEventFields(record: string, p: Platform, e: Event)
    requires BuildEvent(record, p) == Success(e)
    ensures var c := Components(record);
      |c| == 6 && WellFormed(c) && ':' in Strip(c[3]) &&
      BuildFromFields(Strip(c[0]), Strip(c[1]), Strip(c[2]), Strip(c[3]), Strip(c[4]), Strip(c[5]), p) == Success(e)
  {
    assert ValidateEvent(record) == Pass;
    var c := Components(record);
    var time := Strip(c[3]);
    assert time[2] in time;
  }

  /** An event built from a record carries its stripped title and location and the begin `set_begin` gives */
  lemma BuiltEventColumns(record: string, p: Platform, e: Event)
    requires BuildEvent(record, p) == Success(e)
    ensures |Components(record)| == 6
    ensures e.name == Strip(Components(record)[0]) && e.location == Strip(Components(record)[1])
    ensures var c := Components(record);
      ':' in Strip(c[3]) && ResolveBegin(Strip(c[2]), Strip(c[3]), p) == Success(e.begin)
    ensures p.accepts(e)
  {
    BuildEventFields(record, p, e);
    var c := Components(record);
    BuiltFromFields(Strip(c[0]), Strip(c[1]), Strip(c[2]), Strip(c[3]), Strip(c[4]), Strip(c[5]), p, e);
  }

  /** An event built from a record ends `60 * int(duration)` minutes after its begin, and never before it */
  lemma BuiltEventEnd(record: string, p: Platform, e: Event)
    requires BuildEvent(record, p) == Success(e)
    ensures |Components(record)| == 6
    ensures var c := Components(record);
      PyInt(Strip(c[4])).Some? && e.end - e.begin == 60 * PyInt(Strip(c[4])).value
    ensures e.end >= e.begin
  {
    BuildEventFields(record, p, e);
    var c := Components(record);
    StripIdempotent(c[4]);
    BuiltFromFields(Strip(c[0]), Strip(c[1]), Strip(c[2]), Strip(c[3]), Strip(c[4]), Strip(c[5]), p, e);
  }

  /** An event built from a record has one alarm, `int(notification)` minutes before its begin and never after it */
  lemma BuiltEventAlarm(record: string, p: Platform, e: Event)
    requires BuildEvent(record, p) == Success(e)
    ensures |Components(record)| == 6
    ensures var c := Components(record);
      PyInt(Strip(c[5])).Some? && |e.alarms| == 1 && e.alarms[0].trigger == -PyInt(Strip(c[5])).value
    ensures e.alarms[0].trigger <= 0
  {
    BuildEventFields(record, p, e);
    var c := Components(record);
    StripIdempotent(c[5]);
    BuiltFromFields(Strip(c[0]), Strip(c[1]), Strip(c[2]), Strip(c[3]), Strip(c[4]), Strip(c[5]), p, e);
  }

  /**
   * `event_str_to_ics`: validates the record, strips its columns into locals,
   * calls `set_begin` and `set_end`, builds the alarm and the event.
   */
  method EventStrToIcs(record: string, p: Platform) returns (r: Result<Event, Error>)
    ensures r == BuildEvent(record, p)
  {
    var validation := ValidateEvent(record);
    if validation.Fail? {
      return Failure(validation.error);
    }
    var components := Split(RemoveAll(record, '\n'), ',');
    var title := Strip(components[0]);
    var location := Strip(components[1]);
    var rawDate := Strip(components[2]);
    var rawStartTime := Strip(components[3]);
    var duration := Strip(components[4]);
    var rawNotification := Strip(components[5]);

    assert rawStartTime[2] in rawStartTime;
    var begin := SetBegin(rawDate, rawStartTime, p);
    if begin.Failure? {
      return Failure(begin.error);
    }
    var end := SetEnd(begin.value, duration, p);
    if end.Failure? {
      return Failure(end.error);
    }
    var notification := AlarmFor(rawNotification);
    if notification.Failure? {
      return Failure(notification.error);
    }
    var event := Event(title, begin.value, end.value, location, [notification.value]);
    if !p.accepts(event) {
      return Failure(EventConstruction);
    }
    return Success(event);
  }
}
