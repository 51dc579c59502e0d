/**
 * `write_events_to_calendar` (main.py:108-120): every non-blank line becomes an
 * event added to the calendar, the first line that fails stops the whole batch,
 * and a batch that produced no event is an error.
 */
module Assembly {
  import opened Wrappers
  import opened Text
  import opened Model
  import opened EventBuilder

  /** The calendar being filled; its events are kept in the order they were added */
  class Calendar {
    var events: seq<Event>

    constructor()
      ensures events == []
    {
      events := [];
    }

    /** `calendar.events.add(e)` */
    method Add(e: Event)
      modifies this
      ensures events == old(events) + [e]
    {
      events := events + [e];
    }
  }

  /** `not line.rstrip("\n").strip()`: the line is skipped */
  predicate IsBlank(line: string) {
    Strip(TrimEndChar(line, '\n')) == []
  }

  /** A line is skipped exactly when it holds nothing but white space */
  lemma BlankMeansSpace(line: string)
    ensures IsBlank(line) <==> AllSpace(line)
  {
    var t := TrimEndChar(line, '\n');
    assert IsSpace('\n');
    if AllSpace(t) {
      forall i | 0 <= i < |line|
        ensures IsSpace(line[i])
      {
        if i < |t| {
          assert line[i] == t[i];
        }
      }
    }
    if AllSpace(line) {
      forall i | 0 <= i < |t|
        ensures IsSpace(t[i])
      {
        assert t[i] == line[i];
      }
    }
  }

  /** The lines that are not skipped, in their order */
  function NonBlank(lines: seq<string>): seq<string>
  {
    if lines == [] then []
    else
      var last := lines[|lines| - 1];
      if IsBlank(last) then NonBlank(lines[..|lines| - 1]) else NonBlank(lines[..|lines| - 1]) + [last]
  }

  /** Only non-blank lines are kept, each one a line of the input */
  lemma {:induction false} NonBlankSound(lines: seq<string>)
    ensures |NonBlank(lines)| <= |lines|
    ensures forall j :: 0 <= j < |NonBlank(lines)| ==> !IsBlank(NonBlank(lines)[j]) && NonBlank(lines)[j] in lines
  {
    if lines != [] {
      var init := lines[..|lines| - 1];
      var last := lines[|lines| - 1];
      NonBlankSound(init);
      var kept := NonBlank(init);
      if !IsBlank(last) {
        var r := kept + [last];
        assert NonBlank(lines) == r;
        forall j | 0 <= j < |r|
          ensures !IsBlank(r[j]) && r[j] in lines
        {
          if j < |kept| {
            assert r[j] == kept[j] && kept[j] in init;
          } else {
            assert r[j] == lines[|lines| - 1];
          }
        }
      }
    }
  }

  /** Every non-blank line is kept */
  lemma {:induction false} NonBlankComplete(lines: seq<string>)
    ensures forall l :: l in lines && !IsBlank(l) ==> l in NonBlank(lines)
  {
    if lines != [] {
      var init := lines[..|lines| - 1];
      var last := lines[|lines| - 1];
      NonBlankComplete(init);
      assert lines == init + [last];
      assert forall l :: l in lines ==> l in init || l == last;
    }
  }

  /** Nothing is kept exactly when every line is blank */
  lemma {:induction false} NonBlankEmpty(lines: seq<string>)
    ensures NonBlank(lines) == [] <==> forall j :: 0 <= j < |lines| ==> IsBlank(lines[j])
  {
    if lines != [] {
      var init := lines[..|lines| - 1];
      var last := lines[|lines| - 1];
      NonBlankEmpty(init);
      if IsBlank(last) {
        assert NonBlank(lines) == NonBlank(init);
        forall j | 0 <= j < |lines|
          ensures IsBlank(lines[j]) <==> j == |init| || IsBlank(init[j])
        {
          if j < |init| {
            assert lines[j] == init[j];
          }
        }
      } else {
        assert NonBlank(lines) == NonBlank(init) + [last];
      }
    }
  }

  lemma {:induction false} NonBlankConcat(xs: seq<string>, ys: seq<string>)
    ensures NonBlank(xs + ys) == NonBlank(xs) + NonBlank(ys)
    decreases |ys|
  {
    if ys == [] {
      assert xs + ys == xs;
    } else {
      var init := ys[..|ys| - 1];
      var last := ys[|ys| - 1];
      assert (xs + ys)[..|xs + ys| - 1] == xs + init;
      assert (xs + ys)[|xs + ys| - 1] == last;
      NonBlankConcat(xs, init);
    }
  }

  /** The per-record conversion, `event_str_to_ics` under the platform `p` */
  function Builder(p: Platform): string -> Result<Event, Error> {
    record => BuildEvent(record, p)
  }

  /**
   * The events of a sequence of records, in order, or the error of the first
   * record that cannot be built.
   */
  function BuildAll(records: seq<string>, build: string -> Result<Event, Error>): (r: Result<seq<Event>, Error>)
  {
    if records == [] then Success([])
    else
      match BuildAll(records[..|records| - 1], build)
      case Failure(e) => Failure(e)
      case Success(events) =>
        match build(records[|records| - 1])
        case Failure(e) => Failure(e)
        case Success(event) => Success(events + [event])
  }

  /** Every record builds exactly when the batch does, and then event `i` is record `i`'s */
  lemma {:induction false} BuildAllSucceeds(records: seq<string>, build: string -> Result<Event, Error>)
    ensures BuildAll(records, build).Success? <==> forall i :: 0 <= i < |records| ==> build(records[i]).Success?
    ensures BuildAll(records, build).Success? ==>
      |BuildAll(records, build).value| == |records| &&
      forall i :: 0 <= i < |records| ==> BuildAll(records, build).value[i] == build(records[i]).value
  {
    if records != [] {
      var init := records[..|records| - 1];
      BuildAllSucceeds(init, build);
      assert forall i :: 0 <= i < |init| ==> init[i] == records[i];
    }
  }

  /** The batch fails with the error of its first failing record */
  lemma {:induction false} BuildAllFirstFailure(records: seq<string>, build: string -> Result<Event, Error>, k: nat)
    requires k < |records| && build(records[k]).Failure?
    requires forall i :: 0 <= i < k ==> build(records[i]).Success?
    ensures BuildAll(records, build) == Failure(build(records[k]).error)
  {
    var init := records[..|records| - 1];
    if k < |init| {
      assert forall i :: 0 <= i < k ==> init[i] == records[i];
      BuildAllFirstFailure(init, build, k);
    } else {
      assert forall i :: 0 <= i < |init| ==> init[i] == records[i];
      BuildAllSucceeds(init, build);
    }
  }

  /** Records after a failing one are never looked at */
  lemma {:induction false} BuildAllStops(xs: seq<string>, ys: seq<string>, build: string -> Result<Event, Error>)
    requires BuildAll(xs, build).Failure?
    ensures BuildAll(xs + ys, build) == BuildAll(xs, build)
    decreases |ys|
  {
    if ys == [] {
      assert xs + ys == xs;
    } else {
      var init := ys[..|ys| - 1];
      assert (xs + ys)[..|xs + ys| - 1] == xs + init;
      BuildAllStops(xs, init, build);
    }
  }

  /** `write_events_to_calendar` as a value: the events of the non-blank lines, none being an error */
  function Assemble(lines: seq<string>, p: Platform): (r: Result<seq<Event>, Error>)
  {
    match BuildAll(NonBlank(lines), Builder(p))
    case Failure(e) => Failure(e)
    case Success(events) => if |events| == 0 then Failure(EmptyCalendar) else Success(events)
  }

  /**
   * A batch succeeds exactly when it has a non-blank line and every non-blank
   * line builds; then it holds one event per non-blank line, in order.
   */
  lemma AssembleSucceeds(lines: seq<string>, p: Platform)
    ensures var nb := NonBlank(lines);
      Assemble(lines, p).Success? <==>
        nb != [] && forall i :: 0 <= i < |nb| ==> BuildEvent(nb[i], p).Success?
    ensures var nb := NonBlank(lines);
      Assemble(lines, p).Success? ==>
        |Assemble(lines, p).value| == |nb| &&
        forall i :: 0 <= i < |nb| ==> Assemble(lines, p).value[i] == BuildEvent(nb[i], p).value
  {
    var nb := NonBlank(lines);
    BuildAllSucceeds(nb, Builder(p));
    forall i | 0 <= i < |nb|
      ensures Builder(p)(nb[i]) == BuildEvent(nb[i], p)
    {
    }
  }

  /** The first non-blank line that cannot be built decides the error, whatever follows it */
  lemma AssembleFirstFailure(lines: seq<string>, p: Platform, k: nat)
    requires k < |NonBlank(lines)| && BuildEvent(NonBlank(lines)[k], p).Failure?
    requires forall i :: 0 <= i < k ==> BuildEvent(NonBlank(lines)[i], p).Success?
    ensures Assemble(lines, p) == Failure(BuildEvent(NonBlank(lines)[k], p).error)
  {
    BuildAllFirstFailure(NonBlank(lines), Builder(p), k);
  }

  /** A batch of blank lines only, the empty batch included, is the "no events" error */
  lemma AllBlankIsEmpty(lines: seq<string>, p: Platform)
    requires forall j :: 0 <= j < |lines| ==> AllSpace(lines[j])
    ensures Assemble(lines, p) == Failure(EmptyCalendar)
  {
    forall j | 0 <= j < |lines|
      ensures IsBlank(lines[j])
    {
      BlankMeansSpace(lines[j]);
    }
    NonBlankEmpty(lines);
  }

  /** One more line: kept at the end when it is not blank */
  lemma NonBlankStep(lines: seq<string>, i: nat)
    requires i < |lines|
    ensures NonBlank(lines[..i + 1]) ==
      if IsBlank(lines[i]) then NonBlank(lines[..i]) else NonBlank(lines[..i]) + [lines[i]]
  {
    assert lines[..i + 1][..i] == lines[..i];
  }

  /** One more record after a batch that succeeded: its event is appended, or its error is the batch's */
  lemma BuildAllStep(xs: seq<string>, x: string, build: string -> Result<Event, Error>)
    requires BuildAll(xs, build).Success?
    ensures BuildAll(xs + [x], build) ==
      if build(x).Failure? then Failure(build(x).error) else Success(BuildAll(xs, build).value + [build(x).value])
  {
    assert (xs + [x])[..|xs|] == xs;
  }

  /** Once the lines up to `i` have failed, the rest of the lines do not change the outcome */
  lemma FailureStopsBatch(lines: seq<string>, i: nat, build: string -> Result<Event, Error>)
    requires i < |lines| && BuildAll(NonBlank(lines[..i + 1]), build).Failure?
    ensures BuildAll(NonBlank(lines), build) == BuildAll(NonBlank(lines[..i + 1]), build)
  {
    assert lines == lines[..i + 1] + lines[i + 1..];
    NonBlankConcat(lines[..i + 1], lines[i + 1..]);
    BuildAllStops(NonBlank(lines[..i + 1]), NonBlank(lines[i + 1..]), build);
  }

  /**
   * `write_events_to_calendar`: walks the lines, skips blank ones, converts the
   * others and adds them to a new calendar, stopping at the first error; a
   * calendar left empty is an error.
   */
  method WriteEventsToCalendar(lines: seq<string>, p: Platform) returns (r: Result<Calendar, Error>)
    ensures r.Failure? ==> Assemble(lines, p) == Failure(r.error)
    ensures r.Success? ==> fresh(r.value) && Assemble(lines, p) == Success(r.value.events)
  {
    var calendar := new Calendar();
    for i := 0 to |lines|
      invariant BuildAll(NonBlank(lines[..i]), Builder(p)) == Success(calendar.events)
    {
      var event := lines[i];
      NonBlankStep(lines, i);
      if IsBlank(event) {
        continue;
      }
      var icsEvent := EventStrToIcs(event, p);
      assert Builder(p)(event) == icsEvent;
      BuildAllStep(NonBlank(lines[..i]), event, Builder(p));
      if icsEvent.Failure? {
        FailureStopsBatch(lines, i, Builder(p));
        return Failure(icsEvent.error);
      }
      calendar.Add(icsEvent.value);
    }
    assert lines[..|lines|] == lines;
    if |calendar.events| == 0 {
      return Failure(EmptyCalendar);
    }
    return Success(calendar);
  }
}
