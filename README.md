# EasyICS event pipeline, modelled in Dafny

EasyICS turns lines of comma-separated event records into an iCalendar
calendar. Each record has six columns: title, location, date, start time,
duration and notification lead. This project models how `main.py` turns
records into calendar events:

- `validate_event` checks a record's shape. It removes newlines, splits the
  record on commas, requires six columns, and runs prefix-anchored `re.match`
  checks on the stripped date, start-time, duration and notification columns.
- `set_begin` computes the begin instant. It takes the UTC offset in whole
  hours (local hour minus UTC hour), corrects it by one hour when today and the
  event date lie in different daylight-saving regimes, and floors the start
  minute to a quarter hour. It then composes an ISO 8601 timestamp, including
  the source's `-0-5:00` suffix for negative offsets, and parses it.
- `set_end` and the `DisplayAlarm` trigger of `event_str_to_ics` compute the
  end and the alarm. The end is `int(duration)` hours after the begin; the alarm
  is `int(notification)` minutes before it.
- `event_str_to_ics` validates a record and builds one event from it, wrapping
  the library constructor.
- `write_events_to_calendar` skips blank lines, converts the others in order
  and adds them to a calendar. It stops at the first error, and a calendar left
  empty is an error.

Instants are whole minutes on one absolute time line. Everything the
pipeline reads from outside its own code is a field of the `Model.Platform`
value passed to every operation:

- the two clock hours;
- the daylight-saving flags (`is_date_dst` of today and of the event date);
- whether `strptime` accepts the date;
- `fromisoformat` as a partial parse;
- the range of `datetime`;
- whether the iCalendar library's `Event(...)` raises.

Every exception the pipeline raises is a variant of `Model.Error`. It reaches
the caller as the `Failure` case of a `Result`, and the first error stops
processing.

Files:

- `wrappers.dfy`: `Option`, `Result` and `Outcome`.
- `text.dfy`: the Python string built-ins the code uses:
  - `strip`, `rstrip("\n")`, `replace`, `split` and its inverse `join`;
  - `str(n)`;
  - `int(s)`, with white space, sign and `_` digit grouping.
- `model.dfy`: the errors, events, alarms and the platform.
- `validation.dfy`: `validate_event`.
- `begin.dfy`: `set_begin`.
- `event_builder.dfy`: `set_end`, the alarm and `event_str_to_ics`.
- `calendar.dfy`: `write_events_to_calendar`.

`set_begin`, `event_str_to_ics` and `write_events_to_calendar` are methods,
written step by step as the source is:

- `SetBegin` updates the offset in place and picks the start time through a
  ladder of branches.
- `WriteEventsToCalendar` fills a `Calendar` object through `Add`.

Each method is proved equal to a function: `ResolveBegin`, `BuildEvent` and
`Assemble` respectively. The lemmas state their properties.

Where `main.py` departs from its documented design, the model follows the
code:

- The raw offset is not reduced modulo 24.
- A negative offset is written `-0` followed by `str(offset)`, e.g. `-0-5:00`.
  That is not an ISO 8601 offset, so the begin depends on how `fromisoformat`
  treats it.
- Duration and notification are only required to *begin* with a digit, not to
  be one or two digits. So `"2h"` passes validation and then fails in `int`,
  and `"123"` is accepted.
- The end is not after the begin but may equal it: a duration of 0 is accepted.

## Model

| member | source | states |
|---|---|---|
| Text.TrimStart | main.py:89-94 | `lstrip()` keeps a suffix of the text. Everything it drops is white space, and what it keeps does not start with white space. |
| Text.TrimEnd | main.py:89-94 | `rstrip()` keeps a prefix of the text. Everything it drops is white space, and what it keeps does not end with white space. |
| Text.Strip | main.py:89-94 | The stripped column is empty exactly when the column is all white space. Otherwise it neither starts nor ends with white space. A column with no white space at either end is unchanged. |
| Text.StripInfix | main.py:89-94 | The stripped column is the column with white space removed at both ends and nothing else: an infix of the column with only white space before and after it. |
| Text.StripIdempotent | main.py:75-94 | Stripping an already stripped column changes nothing. So the checked columns of `validate_event` are the values `event_str_to_ics` uses. |
| Text.TrimEndChar | main.py:111 | `rstrip("\n")` removes exactly the trailing run of newlines. |
| Text.RemoveAll | main.py:70 | `replace("\n", "")` leaves no newline, adds no character and leaves newline-free text unchanged. |
| Text.RemoveAllSingle | main.py:70 | Removal goes character by character: a lone newline disappears and any other character stays. |
| Text.RemoveAllConcat | main.py:70 | Removal distributes over concatenation. With the one-character case, this fixes the result as the other characters, in their order. |
| Text.RemoveAllLength | main.py:70 | The result is shorter by exactly the number of newlines. |
| Text.CountRemoveAll | main.py:70-71 | Removing newlines does not change the number of commas. |
| Text.CountPositive | main.py:71 | A separator occurs exactly when its count is positive. |
| Text.Split | main.py:71 | `split(",")` yields one more part than there are commas, and no part contains a comma. |
| Text.SplitAt | main.py:45-46 | The first part is the text before the first separator; the rest is split alike. |
| Text.JoinSplit | main.py:71 | Joining the parts of a split with the separator gives the text back. |
| Text.SplitJoin | main.py:71 | Splitting fields joined by a separator they do not contain gives the fields back. |
| Text.ReplaceChar | main.py:42 | The ISO date is the input date with every `.` replaced by `-` and every other character kept. |
| Text.ShowNat | main.py:60 | `str(n)` is non-empty decimal digits denoting `n`. It is one character exactly for `n < 10`, and has no leading zero. |
| Text.ShowInt | main.py:60-62 | `str(n)` starts with `-` exactly for negative `n`; the rest is the digits of `abs(n)`. |
| Text.PyInt | main.py:48 | `int(s)` raises on any text holding one of U+001C to U+001F, which `strip()` treats as white space but `int()` does not skip. Otherwise it accepts only text that is non-empty once stripped. Stripped all-digit text yields its decimal value, and text beginning with a digit yields no negative number. The lemmas below give acceptance as an if-and-only-if and give the value of signed and grouped text. |
| Text.PyIntAccepts | main.py:48 | `int(s)` succeeds exactly when the text holds none of U+001C to U+001F and the stripped text is an optional `+` or `-` followed by digits grouped by single underscores. |
| Text.SignedAccepts | main.py:48 | Stripped text denotes a number exactly when it is an optional sign followed by grouped digits. |
| Text.IntTextPlain | main.py:48 | Text `int()` accepts holds only a sign, digits and underscores, so none of U+001C to U+001F. |
| Text.SeparatorControlNotSkipped | main.py:48 | `strip()` turns `"5\x1c"` into `"5"`, but `int("5\x1c")` raises. |
| Text.PyIntGrouped | main.py:48 | Grouped digits are read as their grouped value. |
| Text.SignedGrouped | main.py:48 | A `+` in front of grouped digits keeps their value, and a `-` negates it. |
| Text.TwoHoursSuffixRejected | main.py:10 | `int("2h")` raises, so a duration the digit check lets through can still fail. |
| Text.PyIntShowInt | main.py:48 | `int(str(n)) == n` for every integer (the model has no digit limit, see below). |
| Text.GroupedValue | main.py:48 | The digit part `int` accepts is digits with single underscores between them. Plain digits give their value. |
| Text.GroupedDigitsOnly | main.py:48 | The value of grouped digits is that of the digits alone, so `1_000` is 1000: underscores only group. |
| Validation.MatchesPrefix | main.py:75-81 | Defines `re.match` for patterns of single-character atoms. The pattern must match at the start of the text, and what follows is not looked at. The `*PatternMeaning` lemmas and MatchIgnoresTail state what it accepts. |
| Validation.DigitsCheck | main.py:79-81 | Defines the duration and notification check, `\d` or `\d\d` at the start. DigitsCheckMeaning states that it asks only for a leading digit. |
| Validation.WellFormed | main.py:72-81 | Defines the record shape that passes: six columns whose stripped date, start time, duration and notification begin with the checked shapes. ValidateEvent states that passing is exactly this. |
| Validation.Components | main.py:70-71 | There are exactly one more columns than the record has commas. |
| Validation.DatePatternMeaning | main.py:75 | `\d\d\d\d[.]\d\d[.]\d\d` matches exactly when the column begins with four digits, `.`, two digits, `.`, two digits. |
| Validation.TimePatternMeaning | main.py:77 | `\d\d[:]\d\d` matches exactly when the column begins with two digits, `:`, two digits. |
| Validation.DigitsCheckMeaning | main.py:79-81 | `\d` or `\d\d` holds exactly when the column begins with a digit. |
| Validation.ValidateEvent | main.py:69-81 | A record passes exactly when it has six columns and all four checks hold on the stripped columns. The checks run in source order. A wrong column count reports the number of columns found. A bad date or time quotes the unstripped column. |
| Validation.MatchIgnoresTail | main.py:75-81 | Whatever follows a matched prefix does not affect `re.match`. |
| Validation.ComponentsOfJoin | main.py:70-71 | The columns of fields joined by commas are those fields. |
| Validation.ColumnCountReported | main.py:72 | A record of any number of fields other than six fails, reporting that number. |
| Validation.DashedDateRejected | main.py:75 | A `2024-09-09` date fails the date check, and the error quotes the column. |
| Validation.PrefixChecksOnly | main.py:75-81 | A date with trailing text, a minute of 75, a duration `2h` and a notification `123` all pass validation. |
| Validation.ShapesWithTails | main.py:75-81 | Those four columns begin with the shapes the checks look for. |
| Begin.ResolvedOffset | main.py:27-40 | The offset is local hour minus UTC hour when both dates share a daylight-saving regime. It is one more when only the event date is in daylight saving, and one less when only today is. It never differs from the raw difference by more than one. |
| Begin.OffsetNotReducedModulo24 | main.py:27 | Local 01 against UTC 23 gives offset -22, written `-0-22:00`: there is no reduction modulo 24. |
| Begin.QuarterFloor | main.py:48-57 | A minute of 60 or more is "Invalid Start Time". Otherwise the result is the largest of 0, 15, 30 and 45 not above the minute. |
| Begin.MinuteText | main.py:49-55 | The minute is written as two digits denoting it. |
| Begin.OffsetSuffix | main.py:59-62 | The suffix has the ISO 8601 `±hh:mm` shape exactly for offsets 0 to 9, and then denotes that offset. Every offset of 0 or more gives `+0` and its digits and `:00`, so 10 and above give a malformed `+0hh:00`. A negative offset gives `-0-h:00`. |
| Begin.LateOffsetSuffix | main.py:27-60 | Local 23 against UTC 01 gives offset 22, written `+022:00`, which is not an ISO 8601 offset. |
| Begin.NegativeOffsetSuffix | main.py:62 | Offset -5 is written `-0-5:00`, which is not an ISO 8601 offset. |
| Begin.HourText | main.py:45 | Defines the hour text, `time.split(":")[0]`. ValidatedTimeFields states that it is the first two characters of a validated time. |
| Begin.MinuteField | main.py:46 | Defines the minute text, `time.split(":")[1]`. ValidatedTimeFields and MinuteFieldOf state what it is. |
| Begin.MinuteFieldOf | main.py:46 | The minute text of `hours:minutes` is `minutes` when neither part holds a colon. |
| Begin.MinuteFieldAfter | main.py:46 | The minute text of `hours:tail` is the first field of `tail` when `hours` holds no colon. |
| Begin.ValidatedTimeFields | main.py:45-46 | On a validated start time, the hour text is its first two characters unchanged, and the minute text begins with its two minute digits. |
| Begin.QuarterStartTimes | main.py:49-55 | The four start-time literals are hour, quarter, `00` separated by colons. |
| Begin.FormattedText | main.py:59-64 | The text handed to `fromisoformat` is the ISO date, `T`, the start time and the offset suffix. |
| Begin.MinuteSixtyOrMoreRejected | main.py:56-57 | A parsed date with a minute of 60 or more, such as that of `20:75`, fails with "Invalid Start Time". |
| Begin.NonIntegerMinuteRejected | main.py:46-48 | A minute text that `int()` rejects stops the event with a ValueError that quotes that text. |
| Begin.SeparatorControlMinuteRejected | main.py:46-48 | The start time `20:05\x1c:00`, which validation lets through, fails in `int()` on the minute text `05\x1c`. |
| Begin.SeventyFiveMinutesRejected | main.py:48-57 | The start time `20:75`, which validation lets through, reaches the "Invalid Start Time" branch. |
| Begin.ResolveBegin | main.py:23-66 | Defines `set_begin` as a value: the date's parse, the corrected offset, the minute read by `int`, its quarter floor, and the composed timestamp parsed, in that order, stopping at the first error. Its parts carry the contracts above, and SetBegin is proved equal to it. |
| Begin.SetBegin | main.py:23-66 | The method's begin is `ResolveBegin`, the composed timestamp parsed, or the first error on the way. |
| EventBuilder.DeltaFits | main.py:10 | Defines when a span of minutes fits in a `timedelta`: its floored whole days lie within ±999999999. SetEnd and AlarmFor state their overflow conditions with it. |
| EventBuilder.SetEnd | main.py:9-12 | `int` rejects the duration exactly when the result is a not-an-integer error. A computed end lies `60 * int(duration)` minutes after the begin, within the `datetime` range. It succeeds exactly when the `timedelta` fits and the sum is in range; otherwise the error is an overflow. |
| EventBuilder.ValidatedCountNonNegative | main.py:79-81 | A validated duration or notification that `int` accepts is not negative. |
| EventBuilder.EndNotBeforeBegin | main.py:10 | A duration beginning with a digit never puts the end before the begin. |
| EventBuilder.AlarmFor | main.py:99 | `int` rejects the notification exactly when the result is a not-an-integer error. An alarm's trigger is `-int(notification)` minutes, and it succeeds exactly when that `timedelta` fits. |
| EventBuilder.AlarmNotAfterBegin | main.py:99 | A notification beginning with a digit gives a trigger of at most zero. |
| EventBuilder.BuildEvent | main.py:84-105 | Defines `event_str_to_ics` as a value: validation, then building from the stripped columns. BuildRequiresValidation, BuildEventFields and the `BuiltEvent*` lemmas state its properties, and EventStrToIcs is proved equal to it. |
| EventBuilder.BuildFromFields | main.py:97-105 | Defines the event built from stripped columns: `set_begin`, then the rest. BuiltFromFields states its properties. |
| EventBuilder.CompleteEvent | main.py:98-105 | Defines what follows a known begin: `set_end`, the alarm, and the library's `Event(...)` inside its `try`, stopping at the first error. |
| EventBuilder.BuiltFromFields | main.py:97-105 | An event built from stripped columns carries the title and location and the begin `set_begin` gives. Its end is `60 * int(duration)` minutes later and in range. It has one alarm at `-int(notification)`, and the library accepted it. |
| EventBuilder.BuildRequiresValidation | main.py:85 | A record that fails validation yields that validation error; a built event's record is well formed. |
| EventBuilder.BuildEventFields | main.py:84-94 | A built event comes from a six-column, well-formed record, through its stripped columns. |
| EventBuilder.BuiltEventColumns | main.py:89-102 | A built event's name and location are the stripped title and location columns. Its begin is that of the stripped date and start time, and the library accepted it. |
| EventBuilder.BuiltEventEnd | main.py:93-98 | A built event ends exactly `60 * int(duration)` minutes after its begin, and never before it. |
| EventBuilder.BuiltEventAlarm | main.py:94-99 | A built event has exactly one alarm, triggered `int(notification)` minutes before its begin and never after it. |
| EventBuilder.EventStrToIcs | main.py:84-105 | The method's result is `BuildEvent`: validation, then begin, end, alarm and construction, stopping at the first error. |
| Assembly.Calendar.constructor | main.py:109 | A new calendar holds no events. |
| Assembly.Calendar.Add | main.py:114 | Adding appends the event and changes nothing else. |
| Assembly.IsBlank | main.py:111 | Defines the skip test `not line.rstrip("\n").strip()`. BlankMeansSpace states that it holds exactly for all-white-space lines. |
| Assembly.BlankMeansSpace | main.py:111 | A line is skipped exactly when it is all white space. |
| Assembly.NonBlank | main.py:110-112 | Defines the lines the loop does not skip, in their order. The NonBlank lemmas below state its properties. |
| Assembly.NonBlankSound | main.py:110-112 | Only non-blank lines are kept, each a line of the input, never more than there are lines. |
| Assembly.NonBlankComplete | main.py:110-112 | Every non-blank line is kept. |
| Assembly.NonBlankEmpty | main.py:110-112 | Nothing is kept exactly when every line is blank. |
| Assembly.NonBlankConcat | main.py:110-112 | The lines kept from two batches in a row are those of each batch, in order. |
| Assembly.BuildAll | main.py:110-114 | Defines converting the kept records in order, stopping at the first error. The BuildAll lemmas state its properties. |
| Assembly.BuildAllSucceeds | main.py:110-114 | A batch builds exactly when every record builds. Then it has one event per record, in order. |
| Assembly.BuildAllFirstFailure | main.py:113 | A batch fails with the error of its first failing record. |
| Assembly.BuildAllStops | main.py:113 | Records after a failing one do not change the outcome. |
| Assembly.Assemble | main.py:108-120 | Defines `write_events_to_calendar` as a value: the events of the non-blank lines, the first error, or the "no events" error. AssembleSucceeds, AssembleFirstFailure and AllBlankIsEmpty state its properties, and WriteEventsToCalendar is proved equal to it. |
| Assembly.AssembleSucceeds | main.py:108-120 | The calendar is produced exactly when some line is non-blank and every non-blank line builds. It then holds one event per non-blank line, in order. |
| Assembly.AssembleFirstFailure | main.py:110-118 | The first non-blank line that cannot be built decides the error, whatever follows. |
| Assembly.AllBlankIsEmpty | main.py:117-118 | A batch of blank lines only, including the empty batch, fails with "No events that can be created found!". |
| Assembly.WriteEventsToCalendar | main.py:108-120 | The method returns a fresh calendar holding exactly `Assemble`'s events, or `Assemble`'s error. |

## Left out

- `load_events`, `write_calendar_to_file`, `write_log` and `main` (main.py:124-176) are left out. They do file I/O, read the login name and the clock for file names, and print.
- `is_date_dst` (main.py:15-20) calls into `tzlocal` and `pytz`. Its results are the platform's `dstToday` and `dstOn(date)`. The timezone lookup failing is not modelled.
- The `datetime.now()` readings (main.py:25-26) are the platform's `localHour` and `utcHour`. They are two independent values, as the two readings are.
- `datetime.strptime` (main.py:30) is modelled only as whether it accepts the date. `datetime.fromisoformat` (main.py:64) is an opaque partial parse to a minute count. Calendar arithmetic across days and months is not modelled.
- The `datetime` range is one pair of bounds (`earliest`, `latest`) on absolute instants. Python checks the range of `begin + timedelta` (main.py:10) on the local fields of each datetime, so the real bound shifts with each event's own UTC offset. The model does not capture that shift.
- The iCalendar library's `Event`, `Calendar` and serialisation (main.py:1, 102, 109) are left out. The model keeps only whether `Event(...)` raises; any such exception becomes one error.
- `DisplayAlarm(...)` (main.py:99) is assumed not to raise. Only its `timedelta` bound is modelled.
- Assembly.Calendar.Add: `calendar.events` is a set whose equality belongs to the library. The model appends to a sequence and does not merge equal events.
- Assembly.Calendar.constructor: the model keeps the calendar's events in the order they were added. That is the model's own choice; `calendar.events` is an unordered set, so the source promises no order.
- Assembly.WriteEventsToCalendar: for the same reason, the "no events" check counts added events, not distinct ones.
- Text.PyInt: the 4300-digit limit that `int(s)` enforces in Python 3.11 and later is not modelled. The limit is also in the security releases of 3.8 to 3.10; above it, `int` raises `ValueError`. The model reads any number of digits. So for a duration or notification of more than 4300 digits the source raises `ValueError` where the model reads the value. That value gives an overflow once it exceeds the `timedelta` bound, but zero-padded text such as 4300 zeros followed by `2` gives an ordinary event. Likewise, for a start minute of more than 4300 digits the source raises `ValueError` where the model reads the value: "Invalid Start Time" for 60 or more, a quarter hour otherwise.
- Text.PyIntShowInt: for the same reason, `int(str(n)) == n` holds in those Python versions only for `n` of at most 4300 digits, and `str(n)` raises beyond that. `str` is applied only to the UTC offset (main.py:60-62), which is a small number.
- Text.IsSpace: white space is Python's `isspace` for characters up to U+00FF. The white space `int()` skips is modelled as that set without U+001C to U+001F. Other Unicode white space, and Unicode digits that `int` and `\d` accept, are not modelled.
- Validation.ValidateEvent: the checks are `assert` statements, which Python drops under `-O`. The model assumes they run.
- The messages of the exceptions are not modelled. Each error variant carries only the values the message quotes.
