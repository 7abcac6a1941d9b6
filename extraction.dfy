/**
 * `get_transit_options`: from a decoded directions response to the trip
 * duration and the time-ordered list of transit options.
 *
 * The HTTP request and JSON decoding are not modelled; their outcome is the
 * `fetched` argument, `None` when the request, the status check or the
 * decoding failed (all of which the job catches and answers with `(None, [])`).
 */
module Extraction {
  import opened Wrappers
  import opened Directions
  import opened Clock
  import opened TransitOptions

  /** The pair the job returns: the trip duration text (or None) and the options. */
  datatype Summary = Summary(tripDuration: Option<string>, options: seq<TransitOption>)

  /** `step.get('transit_details', {}).get('departure_time', {}).get('value')`. */
  function StepTimestamp(step: Step): Option<int> {
    DepartureValue(DetailsOf(step).departureTime)
  }

  /** A step yields an option: travel mode TRANSIT and a truthy departure timestamp. */
  predicate Kept(step: Step) {
    step.travelMode == Some("TRANSIT") && Truthy(StepTimestamp(step))
  }

  /** The record built for a kept step. */
  function OptionFor(step: Step, leaveFromTime: string, localTime: LocalTimeFn): (o: TransitOption)
    requires Kept(step)
    ensures o.leaveFromTime == leaveFromTime
    ensures o.transitDepartureTimestamp == StepTimestamp(step).value && o.transitDepartureTimestamp != 0
    ensures o.transitDeparture == FormatTime(localTime(o.transitDepartureTimestamp))
    ensures o.transitLine == LineName(DetailsOf(step).line)
    ensures o.stationName == StationName(DetailsOf(step).departureStop)
  {
    var details := DetailsOf(step);
    var ts := StepTimestamp(step).value;
    TransitOption(leaveFromTime, LineName(details.line), StationName(details.departureStop),
                  FormatTime(localTime(ts)), ts)
  }

  /** The options of `steps` in step order, before sorting. */
  function ExtractOptions(steps: seq<Step>, leaveFromTime: string, localTime: LocalTimeFn): (r: seq<TransitOption>)
    ensures |r| <= |steps|
  {
    if steps == [] then []
    else
      var last := steps[|steps| - 1];
      ExtractOptions(steps[..|steps| - 1], leaveFromTime, localTime) +
        (if Kept(last) then [OptionFor(last, leaveFromTime, localTime)] else [])
  }

  /** Extending the steps by one extends the options by that step's record, if it is kept. */
  lemma ExtractOptionsSnoc(steps: seq<Step>, i: nat, leaveFromTime: string, localTime: LocalTimeFn)
    requires i < |steps|
    ensures ExtractOptions(steps[..i + 1], leaveFromTime, localTime) ==
      ExtractOptions(steps[..i], leaveFromTime, localTime) +
        (if Kept(steps[i]) then [OptionFor(steps[i], leaveFromTime, localTime)] else [])
  {
    assert steps[..i + 1][..i] == steps[..i];
  }

  /** The indices of the kept steps, in increasing order. */
  function KeptIndices(steps: seq<Step>): (r: seq<nat>)
    ensures forall j :: 0 <= j < |r| ==> r[j] < |steps| && Kept(steps[r[j]])
    ensures forall j, l :: 0 <= j < l < |r| ==> r[j] < r[l]
    ensures forall i :: 0 <= i < |steps| && Kept(steps[i]) ==> i in r
  {
    if steps == [] then []
    else
      var n := |steps| - 1;
      var front := KeptIndices(steps[..n]);
      assert forall i :: 0 <= i < n ==> steps[..n][i] == steps[i];
      front + (if Kept(steps[n]) then [n] else [])
  }

  /**
   * The options are exactly the kept steps turned into records, one each and
   * in step order.
   */
  lemma {:induction false} ExtractOptionsExact(steps: seq<Step>, leaveFromTime: string, localTime: LocalTimeFn)
    ensures var r, idx := ExtractOptions(steps, leaveFromTime, localTime), KeptIndices(steps);
      |r| == |idx| &&
      forall j :: 0 <= j < |idx| ==> r[j] == OptionFor(steps[idx[j]], leaveFromTime, localTime)
  {
    if steps != [] {
      var n := |steps| - 1;
      var front := steps[..n];
      ExtractOptionsExact(front, leaveFromTime, localTime);
      var r, idx := ExtractOptions(steps, leaveFromTime, localTime), KeptIndices(steps);
      var rf, idxf := ExtractOptions(front, leaveFromTime, localTime), KeptIndices(front);
      var piece := if Kept(steps[n]) then [OptionFor(steps[n], leaveFromTime, localTime)] else [];
      assert r == rf + piece;
      assert idx == idxf + (if Kept(steps[n]) then [n] else []);
      forall j | 0 <= j < |idx| ensures r[j] == OptionFor(steps[idx[j]], leaveFromTime, localTime) {
        if j < |idxf| {
          assert r[j] == rf[j];
          assert front[idxf[j]] == steps[idxf[j]];
        }
      }
    }
  }

  /** Every extracted option carries the shared leave time and its own formatted, non-zero departure. */
  lemma ExtractedFields(steps: seq<Step>, leaveFromTime: string, localTime: LocalTimeFn)
    ensures forall o :: o in ExtractOptions(steps, leaveFromTime, localTime) ==>
      o.leaveFromTime == leaveFromTime && o.transitDepartureTimestamp != 0 &&
      o.transitDeparture == FormatTime(localTime(o.transitDepartureTimestamp))
  {
    var r, idx := ExtractOptions(steps, leaveFromTime, localTime), KeptIndices(steps);
    ExtractOptionsExact(steps, leaveFromTime, localTime);
    forall o | o in r
      ensures o.leaveFromTime == leaveFromTime && o.transitDepartureTimestamp != 0
      ensures o.transitDeparture == FormatTime(localTime(o.transitDepartureTimestamp))
    {
      var j :| 0 <= j < |r| && r[j] == o;
      assert o == OptionFor(steps[idx[j]], leaveFromTime, localTime);
    }
  }

  /** Every extracted option is the record of one of the kept steps. */
  lemma ExtractedFrom(steps: seq<Step>, leaveFromTime: string, localTime: LocalTimeFn)
    ensures forall o :: o in ExtractOptions(steps, leaveFromTime, localTime) ==>
      exists i :: 0 <= i < |steps| && Kept(steps[i]) && o == OptionFor(steps[i], leaveFromTime, localTime)
  {
    var r, idx := ExtractOptions(steps, leaveFromTime, localTime), KeptIndices(steps);
    ExtractOptionsExact(steps, leaveFromTime, localTime);
    forall o | o in r
      ensures exists i :: 0 <= i < |steps| && Kept(steps[i]) && o == OptionFor(steps[i], leaveFromTime, localTime)
    {
      var j :| 0 <= j < |r| && r[j] == o;
      var i := idx[j];
      assert 0 <= i < |steps| && Kept(steps[i]) && o == OptionFor(steps[i], leaveFromTime, localTime);
    }
  }

  /**
   * The cases that end in `(None, [])`: no decoded response, no or empty
   * `routes`, a first route without legs, or a missing or zero overall departure.
   */
  predicate ExtractionFails(fetched: Option<Response>) {
    fetched.None? || FirstLeg(fetched.value).None? ||
    !Truthy(DepartureValue(FirstLeg(fetched.value).value.departureTime))
  }

  /** What the job computes from a decoded (or failed) response. */
  function TransitOptionsOf(fetched: Option<Response>, localTime: LocalTimeFn): Summary {
    if fetched.None? then Summary(None, [])
    else match FirstLeg(fetched.value)
      case None => Summary(None, [])
      case Some(leg) =>
        var overall := DepartureValue(leg.departureTime);
        if !Truthy(overall) then Summary(None, [])
        else
          var leaveFromTime := FormatTime(localTime(overall.value));
          Summary(TripDuration(leg), SortByTimestamp(ExtractOptions(StepsOf(leg), leaveFromTime, localTime)))
  }

  /** lambda_function.py `get_transit_options`, from line 23 on. */
  method GetTransitOptions(fetched: Option<Response>, localTime: LocalTimeFn)
    returns (tripDuration: Option<string>, options: seq<TransitOption>)
    ensures Summary(tripDuration, options) == TransitOptionsOf(fetched, localTime)
    ensures ExtractionFails(fetched) ==> tripDuration.None? && options == []
    ensures Sorted(options)
    ensures forall i, j :: 0 <= i < j < |options| ==> options[i].leaveFromTime == options[j].leaveFromTime
  {
    if fetched.None? {
      return None, [];
    }
    var data := fetched.value;
    if data.routes.None? || |data.routes.value| == 0 {
      return None, [];
    }
    var route := data.routes.value[0];
    if route.legs.None? || |route.legs.value| == 0 {
      // KeyError or IndexError, caught by the handler of the whole body
      return None, [];
    }
    var leg := route.legs.value[0];
    var overallDeparture := DepartureValue(leg.departureTime);
    if !Truthy(overallDeparture) {
      return None, [];
    }
    var duration := TripDuration(leg);
    var leaveFromTime := FormatTime(localTime(overallDeparture.value));
    var transitOptions := CollectOptions(StepsOf(leg), leaveFromTime, localTime);
    options := SortByTimestamp(transitOptions);
    tripDuration := duration;
    SuccessfulExtraction(fetched, localTime, leg);
  }

  /** The loop of lambda_function.py lines 36-57: one record per kept step, appended in step order. */
  method CollectOptions(steps: seq<Step>, leaveFromTime: string, localTime: LocalTimeFn)
    returns (transitOptions: seq<TransitOption>)
    ensures transitOptions == ExtractOptions(steps, leaveFromTime, localTime)
  {
    transitOptions := [];
    for i := 0 to |steps|
      invariant transitOptions == ExtractOptions(steps[..i], leaveFromTime, localTime)
    {
      ExtractOptionsSnoc(steps, i, leaveFromTime, localTime);
      var step := steps[i];
      if step.travelMode == Some("TRANSIT") {
        var details := DetailsOf(step);
        var transitDepartureTimestamp := DepartureValue(details.departureTime);
        if !Truthy(transitDepartureTimestamp) {
          continue;
        }
        var transitTimeStr := FormatTime(localTime(transitDepartureTimestamp.value));
        var transitLine := LineName(details.line);
        var stationName := StationName(details.departureStop);
        transitOptions := transitOptions + [TransitOption(leaveFromTime, transitLine, stationName,
                                                          transitTimeStr, transitDepartureTimestamp.value)];
      }
    }
    assert steps[..|steps|] == steps;
  }

  /**
   * The failure cases give no duration and no options. The duration is also
   * `None`, with the options still computed, when the first leg's duration text
   * is a JSON null; in no other case is it `None`.
   */
  lemma FailureCases(fetched: Option<Response>, localTime: LocalTimeFn)
    ensures var r := TransitOptionsOf(fetched, localTime);
      r.tripDuration.None? <==>
        ExtractionFails(fetched) ||
        (var leg := FirstLeg(fetched.value).value; leg.duration.Some? && leg.duration.value.text == Some(Null))
    ensures ExtractionFails(fetched) ==> TransitOptionsOf(fetched, localTime).options == []
  {
  }

  /**
   * A successful extraction: the duration of the first leg, and its kept
   * steps, sorted stably by timestamp, all sharing the leg's departure time.
   */
  lemma {:induction false} SuccessfulExtraction(fetched: Option<Response>, localTime: LocalTimeFn, leg: Leg)
    requires fetched.Some? && FirstLeg(fetched.value) == Some(leg)
    requires Truthy(DepartureValue(leg.departureTime))
    ensures var r := TransitOptionsOf(fetched, localTime);
      var leave := FormatTime(localTime(DepartureValue(leg.departureTime).value));
      var unsorted := ExtractOptions(StepsOf(leg), leave, localTime);
      && r.tripDuration == TripDuration(leg)
      && |r.options| <= |StepsOf(leg)|
      && Sorted(r.options)
      && multiset(r.options) == multiset(unsorted)
      && (forall k :: WithTimestamp(r.options, k) == WithTimestamp(unsorted, k))
      && (forall o :: o in r.options ==> o.leaveFromTime == leave)
      && (forall o :: o in r.options ==>
            o.transitDepartureTimestamp != 0 && o.transitDeparture == FormatTime(localTime(o.transitDepartureTimestamp)))
  {
    var leave := FormatTime(localTime(DepartureValue(leg.departureTime).value));
    var steps := StepsOf(leg);
    var unsorted := ExtractOptions(steps, leave, localTime);
    var r := TransitOptionsOf(fetched, localTime);
    assert r.options == SortByTimestamp(unsorted);
    forall k ensures WithTimestamp(r.options, k) == WithTimestamp(unsorted, k) {
      SortIsStable(unsorted, k);
    }
    ExtractedFields(steps, leave, localTime);
    forall o | o in r.options ensures o in unsorted {
      assert o in multiset(r.options);
    }
  }
}
