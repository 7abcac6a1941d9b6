/**
 * The message body built by `lambda_handler` (lambda_function.py lines
 * 93-104): one templated sentence per option, joined by newlines, or a fixed
 * text when there are no options. Sending it by e-mail is not modelled.
 */
module Notification {
  import opened Wrappers
  import opened Directions
  import opened Clock
  import opened TransitOptions
  import opened Extraction

  const NoOptionsText := "Could not determine any transit options."

  /**
   * A string-or-`None` value placed in an f-string: the string itself, or the
   * text "None" (a JSON null duration, line or station name, or the duration of
   * a failed extraction, although that one never reaches a sentence).
   */
  function Interpolated(v: Option<string>): string {
    match v
    case Some(t) => t
    case None => "None"
  }

  /** The fixed pieces of the sentence template, in order. */
  const LeaveAt := "You can leave at "
  const ToCatch := " to catch the "
  const AtThe := " at the "
  const StationLeavesAt := " station, which leaves at "
  const CommuteTakes := ". Your commute will take "
  const Period := "."

  /** The sentence for one option. */
  function Sentence(opt: TransitOption, duration: string): string {
    LeaveAt + opt.leaveFromTime + ToCatch + Interpolated(opt.transitLine) + AtThe +
    Interpolated(opt.stationName) + StationLeavesAt + opt.transitDeparture + CommuteTakes +
    duration + Period
  }

  /** The sentences for a list of options, in list order. */
  function Sentences(options: seq<TransitOption>, duration: string): (r: seq<string>)
    ensures |r| == |options|
    ensures forall i :: 0 <= i < |options| ==> r[i] == Sentence(options[i], duration)
  {
    seq(|options|, i requires 0 <= i < |options| => Sentence(options[i], duration))
  }

  /** Python's `"\n".join(lines)`. */
  function JoinLines(lines: seq<string>): string {
    if |lines| == 0 then ""
    else if |lines| == 1 then lines[0]
    else lines[0] + "\n" + JoinLines(lines[1..])
  }

  /** Python's `s.split("\n")`: the pieces between newlines, always at least one. */
  function SplitLines(s: string): (r: seq<string>)
    ensures |r| >= 1
  {
    if s == [] then [""]
    else
      var rest := SplitLines(s[1..]);
      if s[0] == '\n' then [""] + rest else [[s[0]] + rest[0]] + rest[1..]
  }

  /** The body the job prints and sends. */
  function Message(tripDuration: Option<string>, options: seq<TransitOption>): string {
    if options == [] then NoOptionsText
    else JoinLines(Sentences(options, Interpolated(tripDuration)))
  }

  /** lambda_function.py lines 95-104. */
  method RenderMessage(tripDuration: Option<string>, options: seq<TransitOption>) returns (output: string)
    ensures output == Message(tripDuration, options)
  {
    if options == [] {
      output := NoOptionsText;
    } else {
      var sentences: seq<string> := [];
      for i := 0 to |options|
        invariant |sentences| == i
        invariant forall j :: 0 <= j < i ==> sentences[j] == Sentence(options[j], Interpolated(tripDuration))
      {
        var sentence := Sentence(options[i], Interpolated(tripDuration));
        sentences := sentences + [sentence];
      }
      assert sentences == Sentences(options, Interpolated(tripDuration));
      output := JoinLines(sentences);
    }
  }

  /** lambda_function.py lines 93-104: extraction followed by rendering. */
  method LambdaHandler(fetched: Option<Response>, localTime: LocalTimeFn) returns (output: string)
    ensures var r := TransitOptionsOf(fetched, localTime); output == Message(r.tripDuration, r.options)
    ensures output == NoOptionsText <==> TransitOptionsOf(fetched, localTime).options == []
  {
    var tripDuration, options := GetTransitOptions(fetched, localTime);
    output := RenderMessage(tripDuration, options);
    MessageFallback(tripDuration, options);
  }

  predicate NoNewline(s: string) {
    '\n' !in s
  }

  /** No field that goes into a sentence contains a newline. */
  predicate SingleLineFields(options: seq<TransitOption>, duration: string) {
    NoNewline(duration) &&
    forall i :: 0 <= i < |options| ==>
      NoNewline(options[i].leaveFromTime) && NoNewline(Interpolated(options[i].transitLine)) &&
      NoNewline(Interpolated(options[i].stationName)) && NoNewline(options[i].transitDeparture)
  }

  lemma {:induction false} SplitSingleLine(a: string)
    requires NoNewline(a)
    ensures SplitLines(a) == [a]
  {
    if a != [] {
      SplitSingleLine(a[1..]);
      assert [a[0]] + a[1..] == a;
    }
  }

  lemma {:induction false} SplitFirstLine(a: string, b: string)
    requires NoNewline(a)
    ensures SplitLines(a + "\n" + b) == [a] + SplitLines(b)
  {
    if a == [] {
      assert a + "\n" + b == "\n" + b;
      assert ("\n" + b)[1..] == b;
    } else {
      SplitFirstLine(a[1..], b);
      assert (a + "\n" + b)[1..] == a[1..] + "\n" + b;
      assert [a[0]] + a[1..] == a;
    }
  }

  /** Splitting a join of single-line pieces gives the pieces back. */
  lemma {:induction false} SplitJoinLines(lines: seq<string>)
    requires |lines| >= 1
    requires forall i :: 0 <= i < |lines| ==> NoNewline(lines[i])
    ensures SplitLines(JoinLines(lines)) == lines
  {
    if |lines| == 1 {
      SplitSingleLine(lines[0]);
    } else {
      SplitJoinLines(lines[1..]);
      SplitFirstLine(lines[0], JoinLines(lines[1..]));
      assert [lines[0]] + lines[1..] == lines;
    }
  }

  lemma TemplateSingleLine()
    ensures NoNewline(LeaveAt) && NoNewline(ToCatch) && NoNewline(AtThe)
    ensures NoNewline(StationLeavesAt) && NoNewline(CommuteTakes) && NoNewline(Period)
  {
  }

  lemma SentenceSingleLine(opt: TransitOption, duration: string)
    requires NoNewline(opt.leaveFromTime) && NoNewline(Interpolated(opt.transitLine))
    requires NoNewline(Interpolated(opt.stationName)) && NoNewline(opt.transitDeparture) && NoNewline(duration)
    ensures NoNewline(Sentence(opt, duration))
  {
    TemplateSingleLine();
  }

  /**
   * With options, the message is one line per option: line i is the sentence
   * for option i, all with the same trip duration.
   */
  lemma MessageLines(tripDuration: Option<string>, options: seq<TransitOption>)
    requires options != []
    requires SingleLineFields(options, Interpolated(tripDuration))
    ensures var lines := SplitLines(Message(tripDuration, options));
      |lines| == |options| &&
      forall i :: 0 <= i < |options| ==> lines[i] == Sentence(options[i], Interpolated(tripDuration))
  {
    var d := Interpolated(tripDuration);
    var sentences := Sentences(options, d);
    forall i | 0 <= i < |sentences| ensures NoNewline(sentences[i]) {
      SentenceSingleLine(options[i], d);
    }
    SplitJoinLines(sentences);
  }

  lemma {:induction false} JoinLinesFirstChar(lines: seq<string>)
    requires |lines| >= 1 && |lines[0]| >= 1
    ensures |JoinLines(lines)| >= 1 && JoinLines(lines)[0] == lines[0][0]
  {
  }

  /** The fixed text appears exactly when there are no options. */
  lemma MessageFallback(tripDuration: Option<string>, options: seq<TransitOption>)
    ensures Message(tripDuration, options) == NoOptionsText <==> options == []
  {
    if options != [] {
      var sentences := Sentences(options, Interpolated(tripDuration));
      assert sentences[0][0] == 'Y';
      JoinLinesFirstChar(sentences);
      assert NoOptionsText[0] == 'C';
    }
  }

  /** Every failed extraction ends in the fixed text. */
  lemma FailedFetchMessage(fetched: Option<Response>, localTime: LocalTimeFn)
    requires ExtractionFails(fetched)
    ensures var r := TransitOptionsOf(fetched, localTime);
      Message(r.tripDuration, r.options) == NoOptionsText
  {
    FailureCases(fetched, localTime);
  }

  /** The record of a kept step with single-line names has only single-line fields. */
  lemma OptionSingleLine(step: Step, leaveFromTime: string, localTime: LocalTimeFn)
    requires Kept(step) && SingleLineStep(step) && NoNewline(leaveFromTime)
    ensures var o := OptionFor(step, leaveFromTime, localTime);
      NoNewline(o.leaveFromTime) && NoNewline(Interpolated(o.transitLine)) &&
      NoNewline(Interpolated(o.stationName)) && NoNewline(o.transitDeparture)
  {
    FormatTimeSingleLine(localTime(StepTimestamp(step).value));
  }

  /** Under the same conditions, every extracted option has only single-line fields. */
  lemma ExtractedSingleLine(steps: seq<Step>, leaveFromTime: string, localTime: LocalTimeFn)
    requires forall i :: 0 <= i < |steps| ==> SingleLineStep(steps[i])
    requires NoNewline(leaveFromTime)
    ensures forall o :: o in ExtractOptions(steps, leaveFromTime, localTime) ==>
      NoNewline(o.leaveFromTime) && NoNewline(Interpolated(o.transitLine)) &&
      NoNewline(Interpolated(o.stationName)) && NoNewline(o.transitDeparture)
  {
    ExtractedFrom(steps, leaveFromTime, localTime);
    forall o | o in ExtractOptions(steps, leaveFromTime, localTime)
      ensures NoNewline(o.leaveFromTime) && NoNewline(Interpolated(o.transitLine))
      ensures NoNewline(Interpolated(o.stationName)) && NoNewline(o.transitDeparture)
    {
      var k :| 0 <= k < |steps| && Kept(steps[k]) && o == OptionFor(steps[k], leaveFromTime, localTime);
      OptionSingleLine(steps[k], leaveFromTime, localTime);
    }
  }

  /** Reordering keeps the options' fields single-line. */
  lemma PermutedSingleLine(options: seq<TransitOption>, unsorted: seq<TransitOption>, duration: string)
    requires multiset(options) == multiset(unsorted)
    requires NoNewline(duration)
    requires forall o :: o in unsorted ==>
      NoNewline(o.leaveFromTime) && NoNewline(Interpolated(o.transitLine)) &&
      NoNewline(Interpolated(o.stationName)) && NoNewline(o.transitDeparture)
    ensures SingleLineFields(options, duration)
  {
    forall j | 0 <= j < |options| ensures options[j] in unsorted {
      assert options[j] in multiset(options);
    }
  }

  /**
   * For a successful extraction with options, from a leg whose duration text
   * and names hold no newline, the handler's message has exactly one line per
   * option, in the sorted order of the options.
   */
  lemma HandlerLines(fetched: Option<Response>, localTime: LocalTimeFn)
    requires !ExtractionFails(fetched)
    requires SingleLineLeg(FirstLeg(fetched.value).value)
    requires TransitOptionsOf(fetched, localTime).options != []
    ensures var r := TransitOptionsOf(fetched, localTime);
      var lines := SplitLines(Message(r.tripDuration, r.options));
      |lines| == |r.options| &&
      forall i :: 0 <= i < |r.options| ==> lines[i] == Sentence(r.options[i], Interpolated(r.tripDuration))
  {
    var leg := FirstLeg(fetched.value).value;
    var steps := StepsOf(leg);
    var departure := localTime(DepartureValue(leg.departureTime).value);
    var leave := FormatTime(departure);
    var unsorted := ExtractOptions(steps, leave, localTime);
    var r := TransitOptionsOf(fetched, localTime);
    assert r == Summary(TripDuration(leg), SortByTimestamp(unsorted));
    FormatTimeSingleLine(departure);
    ExtractedSingleLine(steps, leave, localTime);
    PermutedSingleLine(r.options, unsorted, Interpolated(r.tripDuration));
    MessageLines(r.tripDuration, r.options);
  }
}
