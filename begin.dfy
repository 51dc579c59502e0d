/**
 * `set_begin` (main.py:23-66): the begin instant of an event, built from its
 * date and start-time columns, the current whole-hour UTC offset corrected
 * for daylight saving, and the start minute floored to a quarter hour.
 */
module Begin {
  import opened Wrappers
  import opened Text
  import opened Model

  function DstHours(active: bool): int {
    if active then 1 else 0
  }

  /**
   * The UTC offset in whole hours stamped on an event: local hour minus UTC
   * hour (no reduction mod 24), plus the hour the event date gains or loses
   * against today by lying in a different daylight-saving regime.
   */
  function ResolvedOffset(localHour: int, utcHour: int, dstToday: bool, dstEvent: bool): (r: int)
    ensures dstToday == dstEvent ==> r == localHour - utcHour
    ensures !dstToday && dstEvent ==> r == localHour - utcHour + 1
    ensures dstToday && !dstEvent ==> r == localHour - utcHour - 1
    ensures -1 <= r - (localHour - utcHour) <= 1
  {
    localHour - utcHour + DstHours(dstEvent) - DstHours(dstToday)
  }

  /** Just after local midnight east of Greenwich the raw difference is large and negative */
  lemma OffsetNotReducedModulo24()
    ensures ResolvedOffset(1, 23, false, false) == -22
    ensures OffsetSuffix(-22) == "-0-22:00"
  {
    assert ShowNat(22) == "22" by {
      assert ShowNat(2) == "2";
    }
  }

  const Quarters: set<int> := {0, 15, 30, 45}

  /** The start minute floored to a quarter hour; a minute of 60 or more is an error */
  function QuarterFloor(minute: int): (r: Result<nat, Error>)
    ensures minute >= 60 <==> r == Failure(InvalidStartTime)
    ensures r.Success? ==> r.value in Quarters
    ensures r.Success? ==> forall q :: q in Quarters && q <= minute ==> q <= r.value
    ensures r.Success? && minute >= 0 ==> r.value <= minute
  {
    if minute < 15 then Success(0)
    else if minute < 30 then Success(15)
    else if minute < 45 then Success(30)
    else if minute < 60 then Success(45)
    else Failure(InvalidStartTime)
  }

  /** Two-digit minute text, as the literals "00", "15", "30" and "45" of the source */
  function MinuteText(q: nat): (r: string)
    requires q < 100
    ensures |r| == 2 && AllDigits(r) && DigitsValue(r) == q
  {
    var r := [DigitChar(q / 10), DigitChar(q % 10)];
    assert r[..1] == [DigitChar(q / 10)];
    assert DigitsValue(r[..1]) == q / 10 by {
      assert r[..1][..0] == [];
    }
    r
  }

  /** ISO 8601 time-offset shape `±hh:mm` */
  predicate IsIsoOffset(s: string) {
    |s| == 6 && (s[0] == '+' || s[0] == '-') && IsDigit(s[1]) && IsDigit(s[2]) && s[3] == ':' &&
    IsDigit(s[4]) && IsDigit(s[5])
  }

  /** The signed hours an ISO 8601 offset denotes */
  function IsoOffsetHours(s: string): int
    requires IsIsoOffset(s)
  {
    var h: int := DigitsValue(s[1..3]);
    if s[0] == '-' then -h else h
  }

  /**
   * The offset suffix of the begin timestamp: `+0` or `-0`, then `str(offset)`,
   * then `:00`. It has the ISO 8601 shape exactly for offsets 0 to 9, and then
   * denotes that offset; an offset of 10 or more yields `+0hh:00` and a
   * negative offset `-0-h:00`.
   */
  function OffsetSuffix(offset: int): (r: string)
    ensures IsIsoOffset(r) <==> 0 <= offset <= 9
    ensures IsIsoOffset(r) ==> IsoOffsetHours(r) == offset && r[4..] == "00"
    ensures offset >= 0 ==> r == "+0" + ShowNat(offset) + ":00"
    ensures offset < 0 ==> r == "-0-" + ShowNat(-offset) + ":00"
  {
    var r := if offset >= 0 then "+0" + ShowInt(offset) + ":00" else "-0" + ShowInt(offset) + ":00";
    SuffixShape(offset, r);
    r
  }

  lemma SuffixShape(offset: int, r: string)
    requires r == if offset >= 0 then "+0" + ShowInt(offset) + ":00" else "-0" + ShowInt(offset) + ":00"
    ensures IsIsoOffset(r) <==> 0 <= offset <= 9
    ensures IsIsoOffset(r) ==> IsoOffsetHours(r) == offset && r[4..] == "00"
    ensures offset < 0 ==> r == "-0-" + ShowNat(-offset) + ":00"
  {
    if 0 <= offset <= 9 {
      SingleDigitSuffix(offset, r);
    } else if offset > 9 {
      WideSuffix(offset, r);
    } else {
      NegativeSuffix(offset, r);
    }
  }

  lemma WideSuffix(offset: int, r: string)
    requires offset > 9 && r == "+0" + ShowInt(offset) + ":00"
    ensures |r| > 6
  {
    assert |ShowInt(offset)| >= 2;
  }

  lemma NegativeSuffix(offset: int, r: string)
    requires offset < 0 && r == "-0" + ShowInt(offset) + ":00"
    ensures r[2] == '-' && r == "-0-" + ShowNat(-offset) + ":00"
  {
    var n := ShowNat(-offset);
    assert r == "-0" + ("-" + n) + ":00" by {
      assert ShowInt(offset) == "-" + n;
    }
    assert "-0" + ("-" + n) == "-0-" + n;
  }

  lemma SingleDigitSuffix(offset: int, r: string)
    requires 0 <= offset <= 9 && r == "+0" + ShowInt(offset) + ":00"
    ensures IsIsoOffset(r) && IsoOffsetHours(r) == offset && r[4..] == "00"
  {
    var c := ShowNat(offset)[0];
    assert [c] == ShowNat(offset);
    assert r == ['+', '0', c, ':', '0', '0'];
    assert r[1..3] == ['0', c];
    assert r[1..3][..1] == ['0'];
    assert DigitsValue(['0']) == 0;
    assert DigitsValue(ShowNat(offset)) == DigitValue(c);
  }

  /** Late in the evening west of Greenwich the raw difference is large and positive, written with three digits */
  lemma LateOffsetSuffix()
    ensures ResolvedOffset(23, 1, false, false) == 22
    ensures OffsetSuffix(22) == "+022:00"
    ensures !IsIsoOffset(OffsetSuffix(22))
  {
    assert ShowNat(22) == "22" by {
      assert ShowNat(2) == "2";
    }
  }

  lemma NegativeOffsetSuffix()
    ensures OffsetSuffix(-5) == "-0-5:00"
    ensures !IsIsoOffset(OffsetSuffix(-5))
  {
  }

  /** The hour text: everything before the first `:` of the start time */
  function HourText(time: string): string
    requires ':' in time
  {
    Split(time, ':')[0]
  }

  /** The minute text: what lies between the first and second `:` of the start time */
  function MinuteField(time: string): string
    requires ':' in time
  {
    CountPositive(time, ':');
    Split(time, ':')[1]
  }

  /** The first `n` characters survive as the start of the first field when none of them is the separator */
  lemma SplitFirstPrefix(s: string, d: char, n: nat)
    requires n <= |s| && d !in s[..n]
    ensures |Split(s, d)[0]| >= n && Split(s, d)[0][..n] == s[..n]
  {
    if d in s {
      var k := IndexOf(s, d);
      assert forall j :: 0 <= j < n ==> s[..n][j] == s[j];
    }
  }

  /**
   * On a start time that passed validation (`hh:mm` at its start) the hour text
   * is its first two characters, unchanged, and the minute text begins with its
   * two minute digits.
   */
  lemma ValidatedTimeFields(time: string)
    requires |time| >= 5 && IsDigit(time[0]) && IsDigit(time[1]) && time[2] == ':'
    requires IsDigit(time[3]) && IsDigit(time[4])
    ensures ':' in time && HourText(time) == time[..2]
    ensures |MinuteField(time)| >= 2 && MinuteField(time)[..2] == time[3..5]
  {
    assert time[2] in time;
    SplitAt(time, ':', 2);
    var rest := time[3..];
    assert rest[..2] == time[3..5];
    SplitFirstPrefix(rest, ':', 2);
  }

  /** The start time handed to `fromisoformat`: `hh:mm:00` */
  function StartTime(hours: string, quarter: nat): string
    requires quarter < 100
  {
    hours + ":" + MinuteText(quarter) + ":00"
  }

  /** The whole timestamp text: the date with `.` turned into `-`, `T`, the start time, the offset suffix */
  function BeginText(date: string, hours: string, quarter: nat, offset: int): string
    requires quarter < 100
  {
    ReplaceChar(date, '.', '-') + "T" + StartTime(hours, quarter) + OffsetSuffix(offset)
  }

  lemma QuarterStartTimes(hours: string)
    ensures StartTime(hours, 0) == hours + ":00:00"
    ensures StartTime(hours, 15) == hours + ":15:00"
    ensures StartTime(hours, 30) == hours + ":30:00"
    ensures StartTime(hours, 45) == hours + ":45:00"
  {
    assert MinuteText(0) == "00" && MinuteText(15) == "15";
    assert MinuteText(30) == "30" && MinuteText(45) == "45";
  }

  /** The pieces `set_begin` concatenates make up `BeginText` */
  lemma FormattedText(date: string, hours: string, quarter: nat, offset: int, startTime: string, formattedTime: string)
    requires quarter < 100 && startTime == StartTime(hours, quarter)
    requires formattedTime == if offset >= 0 then "T" + startTime + "+0" + ShowInt(offset) + ":00"
                              else "T" + startTime + "-0" + ShowInt(offset) + ":00"
    ensures ReplaceChar(date, '.', '-') + formattedTime == BeginText(date, hours, quarter, offset)
  {
    var sign := if offset >= 0 then "+0" else "-0";
    Regroup(ReplaceChar(date, '.', '-'), "T", startTime, sign, ShowInt(offset), ":00");
  }

  lemma Regroup(a: string, b: string, c: string, d: string, e: string, f: string)
    ensures a + (b + c + d + e + f) == a + b + c + (d + e + f)
  {
  }

  /** `set_begin` as a value: the begin instant, or the error raised on the way to it */
  function ResolveBegin(date: string, time: string, p: Platform): (r: Result<int, Error>)
    requires ':' in time
  {
    if !p.parsesDate(date) then Failure(DateUnparsable(date))
    else
      var offset := ResolvedOffset(p.localHour, p.utcHour, p.dstToday, p.dstOn(date));
      match PyInt(MinuteField(time))
      case None => Failure(NotAnInteger(MinuteField(time)))
      case Some(m) =>
        match QuarterFloor(m)
        case Failure(e) => Failure(e)
        case Success(q) =>
          var text := BeginText(date, HourText(time), q, offset);
          match p.fromIso(text)
          case None => Failure(BeginUnparsable(text))
          case Some(t) => Success(t)
  }

  /** A minute field of 60 or more, such as that of "20:75", stops the event with "Invalid Start Time" */
  lemma MinuteSixtyOrMoreRejected(date: string, time: string, p: Platform)
    requires ':' in time && p.parsesDate(date)
    requires PyInt(MinuteField(time)).Some? && PyInt(MinuteField(time)).value >= 60
    ensures ResolveBegin(date, time, p) == Failure(InvalidStartTime)
  {
  }

  /** The start time "20:75", which validation lets through, reaches the "Invalid Start Time" branch */
  lemma SeventyFiveMinutesRejected(p: Platform)
    requires p.parsesDate("2024.09.09")
    ensures ResolveBegin("2024.09.09", "20:75", p) == Failure(InvalidStartTime)
  {
    assert "20:75" == "20" + [':'] + "75";
    MinuteFieldOf("20", "75");
    SeventyFive();
    MinuteSixtyOrMoreRejected("2024.09.09", "20:75", p);
  }

  /** The minute text of `hours:minutes` is `minutes` when neither part holds a colon */
  lemma MinuteFieldOf(hours: string, minutes: string)
    requires ':' !in hours && ':' !in minutes
    ensures ':' in hours + [':'] + minutes && MinuteField(hours + [':'] + minutes) == minutes
  {
    var time := hours + [':'] + minutes;
    assert time[|hours|] == ':';
    assert time[..|hours|] == hours && time[|hours| + 1..] == minutes;
    SplitAt(time, ':', |hours|);
    SplitNone(minutes, ':');
  }

  /** The minute text of `hours:tail` is the first field of `tail` when `hours` holds no colon */
  lemma MinuteFieldAfter(hours: string, tail: string)
    requires ':' !in hours
    ensures ':' in hours + [':'] + tail
    ensures MinuteField(hours + [':'] + tail) == Split(tail, ':')[0]
  {
    var time := hours + [':'] + tail;
    assert time[|hours|] == ':';
    assert time[..|hours|] == hours && time[|hours| + 1..] == tail;
    SplitAt(time, ':', |hours|);
  }

  /** The first field of `field:rest` is `field` when it holds no colon */
  lemma FirstField(field: string, rest: string)
    requires ':' !in field
    ensures Split(field + [':'] + rest, ':')[0] == field
  {
    var s := field + [':'] + rest;
    assert s[|field|] == ':';
    assert s[..|field|] == field;
    SplitAt(s, ':', |field|);
  }

  /**
   * The start time "20:05\x1c:00" passes validation, and `strip()` would drop
   * the U+001C after "05", but `int()` does not: `set_begin` raises ValueError
   */
  lemma SeparatorControlMinuteRejected(p: Platform)
    requires p.parsesDate("2024.09.09")
    ensures ResolveBegin("2024.09.09", "20:05\U{1C}:00", p) == Failure(NotAnInteger("05\U{1C}"))
  {
    var minutes := "05\U{1C}";
    SeparatorControlMinuteText();
    assert PyInt(minutes) == None by {
      assert IsSeparatorControl(minutes[2]);
    }
    NonIntegerMinuteRejected("2024.09.09", "20:05\U{1C}:00", p);
  }

  lemma SeparatorControlMinuteText()
    ensures ':' in "20:05\U{1C}:00" && MinuteField("20:05\U{1C}:00") == "05\U{1C}"
  {
    var minutes := "05\U{1C}";
    assert "20:05\U{1C}:00" == "20" + [':'] + (minutes + [':'] + "00");
    assert ':' !in minutes by {
      assert forall i :: 0 <= i < |minutes| ==> minutes[i] != ':';
    }
    MinuteFieldAfter("20", minutes + [':'] + "00");
    FirstField(minutes, "00");
  }

  /** A minute field `int()` rejects stops the event with ValueError, which quotes the field */
  lemma NonIntegerMinuteRejected(date: string, time: string, p: Platform)
    requires ':' in time && p.parsesDate(date)
    requires PyInt(MinuteField(time)).None?
    ensures ResolveBegin(date, time, p) == Failure(NotAnInteger(MinuteField(time)))
  {
  }

  lemma SeventyFive()
    ensures PyInt("75") == Some(75)
  {
    var m := "75";
    assert !IsSpace(m[0]) && !IsSpace(m[1]);
    assert AllDigits(m);
    assert !HasSeparatorControl(m) by {
      assert forall i :: 0 <= i < |m| ==> IsDigit(m[i]);
    }
    assert DigitsValue(m) == 75 by {
      assert m[..1] == "7";
    }
  }

  /**
   * `set_begin`: reads the clock hours and DST flags, corrects the offset in
   * place, picks the quarter-hour start through a branch ladder and parses the
   * composed timestamp.
   */
  method SetBegin(date: string, time: string, p: Platform) returns (begin: Result<int, Error>)
    requires ':' in time
    ensures begin == ResolveBegin(date, time, p)
  {
    var utcOffset := p.localHour - p.utcHour;
    var isCurrentDateDst := p.dstToday;
    if !p.parsesDate(date) {
      return Failure(DateUnparsable(date));
    }
    var isEventDateDst := p.dstOn(date);
    if (isCurrentDateDst && isEventDateDst) || (!isCurrentDateDst && !isEventDateDst) {
      // same daylight-saving regime: the offset stands
    } else if !isCurrentDateDst && isEventDateDst {
      utcOffset := utcOffset + 1;
    } else if isCurrentDateDst && !isEventDateDst {
      utcOffset := utcOffset - 1;
    }
    assert utcOffset == ResolvedOffset(p.localHour, p.utcHour, p.dstToday, p.dstOn(date));

    var formattedDate := ReplaceChar(date, '.', '-');
    var hours := HourText(time);
    var minutes := MinuteField(time);
    var minute := PyInt(minutes);
    if minute.None? {
      return Failure(NotAnInteger(minutes));
    }
    var startTime: string;
    if minute.value < 15 {
      startTime := hours + ":00:00";
    } else if minute.value < 30 {
      startTime := hours + ":15:00";
    } else if minute.value < 45 {
      startTime := hours + ":30:00";
    } else if minute.value < 60 {
      startTime := hours + ":45:00";
    } else {
      return Failure(InvalidStartTime);
    }
    var q := QuarterFloor(minute.value).value;
    QuarterStartTimes(hours);
    assert startTime == StartTime(hours, q);

    var formattedTime: string;
    if utcOffset >= 0 {
      formattedTime := "T" + startTime + "+0" + ShowInt(utcOffset) + ":00";
    } else {
      formattedTime := "T" + startTime + "-0" + ShowInt(utcOffset) + ":00";
    }
    var text := formattedDate + formattedTime;
    FormattedText(date, hours, q, utcOffset, startTime, formattedTime);
    match p.fromIso(text) {
      case None => begin := Failure(BeginUnparsable(text));
      case Some(t) => begin := Success(t);
    }
  }
}
