/**
 * `validate_event` (main.py:69-81): the structural and pattern checks a raw
 * record must pass before an event is built from it.
 */
module Validation {
  import opened Wrappers
  import opened Text
  import opened Model

  /** One position of a regular expression made of single-character atoms: `\d` or a literal */
  datatype Atom = AnyDigit | Exactly(c: char)

  predicate AtomMatches(a: Atom, c: char) {
    match a
    case AnyDigit => IsDigit(c)
    case Exactly(x) => c == x
  }

  /** `re.match(pattern, s)`: the pattern must match at the start of `s`; what follows is not looked at */
  predicate MatchesPrefix(pattern: seq<Atom>, s: string) {
    |pattern| <= |s| && forall i :: 0 <= i < |pattern| ==> AtomMatches(pattern[i], s[i])
  }

  /** `\d\d\d\d[.]\d\d[.]\d\d` */
  const DatePattern: seq<Atom> :=
    [AnyDigit, AnyDigit, AnyDigit, AnyDigit, Exactly('.'), AnyDigit, AnyDigit, Exactly('.'), AnyDigit, AnyDigit]
  /** `\d\d[:]\d\d` */
  const TimePattern: seq<Atom> := [AnyDigit, AnyDigit, Exactly(':'), AnyDigit, AnyDigit]
  /** `\d` */
  const OneDigit: seq<Atom> := [AnyDigit]
  /** `\d\d` */
  const TwoDigits: seq<Atom> := [AnyDigit, AnyDigit]

  /** The duration and notification check: `re.match(r"\d", s) or re.match(r"\d\d", s)` */
  predicate DigitsCheck(s: string) {
    MatchesPrefix(OneDigit, s) || MatchesPrefix(TwoDigits, s)
  }

  /** The record's columns: newlines removed, then split on commas */
  function Components(record: string): (c: seq<string>)
    ensures |c| == Count(record, ',') + 1
  {
    CountRemoveAll(record, '\n', ',');
    Split(RemoveAll(record, '\n'), ',')
  }

  // What each check accepts, spelled out position by position.

  predicate BeginsLikeDate(s: string) {
    |s| >= 10 && IsDigit(s[0]) && IsDigit(s[1]) && IsDigit(s[2]) && IsDigit(s[3]) && s[4] == '.' &&
    IsDigit(s[5]) && IsDigit(s[6]) && s[7] == '.' && IsDigit(s[8]) && IsDigit(s[9])
  }

  predicate BeginsLikeTime(s: string) {
    |s| >= 5 && IsDigit(s[0]) && IsDigit(s[1]) && s[2] == ':' && IsDigit(s[3]) && IsDigit(s[4])
  }

  predicate BeginsWithDigit(s: string) {
    s != [] && IsDigit(s[0])
  }

  /** The record shape `validate_event` lets through */
  predicate WellFormed(c: seq<string>) {
    |c| == 6 && BeginsLikeDate(Strip(c[2])) && BeginsLikeTime(Strip(c[3])) &&
    BeginsWithDigit(Strip(c[4])) && BeginsWithDigit(Strip(c[5]))
  }

  lemma DatePatternMeaning(s: string)
    ensures MatchesPrefix(DatePattern, s) <==> BeginsLikeDate(s)
  {
    if BeginsLikeDate(s) {
      forall i | 0 <= i < |DatePattern| ensures AtomMatches(DatePattern[i], s[i]) {
      }
    }
    if MatchesPrefix(DatePattern, s) {
      assert AtomMatches(DatePattern[0], s[0]) && AtomMatches(DatePattern[1], s[1]);
      assert AtomMatches(DatePattern[2], s[2]) && AtomMatches(DatePattern[3], s[3]);
      assert AtomMatches(DatePattern[4], s[4]) && AtomMatches(DatePattern[5], s[5]);
      assert AtomMatches(DatePattern[6], s[6]) && AtomMatches(DatePattern[7], s[7]);
      assert AtomMatches(DatePattern[8], s[8]) && AtomMatches(DatePattern[9], s[9]);
    }
  }

  lemma TimePatternMeaning(s: string)
    ensures MatchesPrefix(TimePattern, s) <==> BeginsLikeTime(s)
  {
    if MatchesPrefix(TimePattern, s) {
      assert AtomMatches(TimePattern[0], s[0]) && AtomMatches(TimePattern[1], s[1]);
      assert AtomMatches(TimePattern[2], s[2]) && AtomMatches(TimePattern[3], s[3]);
      assert AtomMatches(TimePattern[4], s[4]);
    }
  }

  /** `\d\d` adds nothing to `\d`: the check only asks for a leading digit */
  lemma DigitsCheckMeaning(s: string)
    ensures DigitsCheck(s) <==> BeginsWithDigit(s)
  {
    if MatchesPrefix(TwoDigits, s) {
      assert AtomMatches(TwoDigits[0], s[0]);
    }
    if BeginsWithDigit(s) {
      assert AtomMatches(OneDigit[0], s[0]);
    }
  }

  /**
   * `validate_event`: the column count first, then the date, start time,
   * duration and notification columns in that order, each stripped.
   */
  function ValidateEvent(record: string): (r: Outcome<Error>)
    ensures Count(record, ',') != 5 ==> r == Fail(FieldCount(Count(record, ',') + 1))
    ensures r == Pass <==> WellFormed(Components(record))
    ensures var c := Components(record);
      |c| == 6 && !BeginsLikeDate(Strip(c[2])) ==> r == Fail(BadDate(c[2]))
    ensures var c := Components(record);
      |c| == 6 && BeginsLikeDate(Strip(c[2])) && !BeginsLikeTime(Strip(c[3])) ==> r == Fail(BadTime(c[3]))
    ensures var c := Components(record);
      (|c| == 6 && BeginsLikeDate(Strip(c[2])) && BeginsLikeTime(Strip(c[3])) &&
       !BeginsWithDigit(Strip(c[4]))) ==> r == Fail(BadDuration)
    ensures var c := Components(record);
      (|c| == 6 && BeginsLikeDate(Strip(c[2])) && BeginsLikeTime(Strip(c[3])) &&
       BeginsWithDigit(Strip(c[4])) && !BeginsWithDigit(Strip(c[5]))) ==> r == Fail(BadNotification)
  {
    var c := Components(record);
    if |c| != 6 then Fail(FieldCount(|c|))
    else
      DatePatternMeaning(Strip(c[2]));
      TimePatternMeaning(Strip(c[3]));
      DigitsCheckMeaning(Strip(c[4]));
      DigitsCheckMeaning(Strip(c[5]));
      if !MatchesPrefix(DatePattern, Strip(c[2])) then Fail(BadDate(c[2]))
      else if !MatchesPrefix(TimePattern, Strip(c[3])) then Fail(BadTime(c[3]))
      else if !DigitsCheck(Strip(c[4])) then Fail(BadDuration)
      else if !DigitsCheck(Strip(c[5])) then Fail(BadNotification)
      else Pass
  }

  /** A check anchored only at the start passes whatever follows the matched prefix */
  lemma {:induction false} MatchIgnoresTail(pattern: seq<Atom>, s: string, tail: string)
    requires MatchesPrefix(pattern, s)
    ensures MatchesPrefix(pattern, s + tail)
  {
    forall i | 0 <= i < |pattern| ensures AtomMatches(pattern[i], (s + tail)[i]) {
      assert (s + tail)[i] == s[i];
    }
  }

  /** The columns of a record written as fields joined by commas are those fields */
  lemma ComponentsOfJoin(fields: seq<string>)
    requires fields != []
    requires forall i :: 0 <= i < |fields| ==> ',' !in fields[i] && '\n' !in fields[i]
    ensures Components(Join(fields, ',')) == fields
  {
    JoinAvoids(fields, ',', '\n');
    SplitJoin(fields, ',');
  }

  lemma StripKeeps(s: string)
    requires s != [] && !IsSpace(s[0]) && !IsSpace(s[|s| - 1])
    ensures Strip(s) == s
  {
  }

  /** A record written as any number of fields other than six is rejected, reporting that number */
  lemma ColumnCountReported(fields: seq<string>)
    requires fields != [] && |fields| != 6
    requires forall i :: 0 <= i < |fields| ==> ',' !in fields[i] && '\n' !in fields[i]
    ensures ValidateEvent(Join(fields, ',')) == Fail(FieldCount(|fields|))
  {
    ComponentsOfJoin(fields);
  }

  /** A date written with dashes instead of dots is rejected, and the error quotes the column */
  lemma DashedDateRejected(record: string)
    requires Components(record) == ["Meeting", "", "2024-09-09", "20:05", "2", "15"]
    ensures ValidateEvent(record) == Fail(BadDate("2024-09-09"))
  {
    var date := Components(record)[2];
    assert date[0] == '2' && date[4] == '-' && date[9] == '9';
    StripKeeps(date);
  }

  /**
   * Only the start of each checked column is looked at: a date with trailing
   * text, a minute of 75, a duration of "2h" and a three-digit notification all pass.
   */
  lemma PrefixChecksOnly(record: string)
    requires Components(record) == ["T", "L", "2024.09.09xyz", "20:75", "2h", "123"]
    ensures ValidateEvent(record) == Pass
  {
    var c := Components(record);
    ShapesWithTails(c[2], c[3], c[4], c[5]);
    assert WellFormed(c);
  }

  lemma ShapesWithTails(date: string, time: string, duration: string, notification: string)
    requires date == "2024.09.09xyz" && time == "20:75" && duration == "2h" && notification == "123"
    ensures BeginsLikeDate(Strip(date)) && BeginsLikeTime(Strip(time))
    ensures BeginsWithDigit(Strip(duration)) && BeginsWithDigit(Strip(notification))
  {
    assert date[0] == '2' && date[1] == '0' && date[2] == '2' && date[3] == '4' && date[4] == '.';
    assert date[5] == '0' && date[6] == '9' && date[7] == '.' && date[8] == '0' && date[9] == '9';
    assert date[12] == 'z';
    StripKeeps(date);
    assert time[0] == '2' && time[1] == '0' && time[2] == ':' && time[3] == '7' && time[4] == '5';
    StripKeeps(time);
    assert duration[0] == '2' && duration[1] == 'h';
    StripKeeps(duration);
    assert notification[0] == '1' && notification[2] == '3';
    StripKeeps(notification);
  }
}
