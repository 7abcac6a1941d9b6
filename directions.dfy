/**
 * The decoded directions response, restricted to the keys the job reads.
 * Every key is an `Option`: `None` is an absent key, which the job treats
 * differently from a present but empty or zero value. The string-valued keys
 * the job copies into its output may also hold a JSON null (`JsonString`);
 * elsewhere a null is not represented.
 */
module Directions {
  import opened Wrappers

  /** A JSON string, or a JSON null. */
  datatype JsonString = Str(s: string) | Null

  /** What a JSON string or null decodes to in Python: a `str`, or `None` (here `Option.None`). */
  function Decoded(j: JsonString): (r: Option<string>)
    ensures r.None? <==> j.Null?
    ensures r.Some? ==> r.value == j.s
  {
    match j
    case Str(s) => Some(s)
    case Null => None
  }

  /** A `{"value": <epoch seconds>}` object (`departure_time`). */
  datatype TimeValue = TimeValue(value: Option<int>)

  /** A `{"text": ...}` object (`duration`). */
  datatype TextValue = TextValue(text: Option<JsonString>)

  datatype Line = Line(shortName: Option<JsonString>, name: Option<JsonString>)

  datatype Stop = Stop(name: Option<JsonString>)

  datatype TransitDetails = TransitDetails(
    departureTime: Option<TimeValue>,
    line: Option<Line>,
    departureStop: Option<Stop>)

  datatype Step = Step(travelMode: Option<string>, transitDetails: Option<TransitDetails>)

  datatype Leg = Leg(departureTime: Option<TimeValue>, duration: Option<TextValue>, steps: Option<seq<Step>>)

  datatype Route = Route(legs: Option<seq<Leg>>)

  datatype Response = Response(routes: Option<seq<Route>>)

  /** Python truthiness of an optional integer: present and non-zero. */
  predicate Truthy(v: Option<int>) {
    v.Some? && v.value != 0
  }

  /** Python truthiness of `d.get(k)` for a string key: present, not null, and non-empty. */
  predicate TruthyText(v: Option<JsonString>) {
    v.Some? && v.value.Str? && v.value.s != ""
  }

  /** `obj.get('departure_time', {}).get('value')`. */
  function DepartureValue(t: Option<TimeValue>): (r: Option<int>)
    ensures r.Some? <==> t.Some? && t.value.value.Some?
    ensures r.Some? ==> r.value == t.value.value.value
  {
    match t
    case None => None
    case Some(tv) => tv.value
  }

  /**
   * `data['routes'][0]['legs'][0]` after the `not data.get('routes')` guard:
   * `None` when there is no route, or when the first route has no `legs` key
   * or an empty `legs` list (the KeyError and IndexError the job catches).
   */
  function FirstLeg(response: Response): (r: Option<Leg>)
    ensures r.Some? <==>
      response.routes.Some? && |response.routes.value| > 0 &&
      response.routes.value[0].legs.Some? && |response.routes.value[0].legs.value| > 0
    ensures r.Some? ==> r.value == response.routes.value[0].legs.value[0]
  {
    match response.routes
    case None => None
    case Some(routes) =>
      if |routes| == 0 then None
      else match routes[0].legs
        case None => None
        case Some(legs) => if |legs| == 0 then None else Some(legs[0])
  }

  /** `leg.get('steps', [])`. */
  function StepsOf(leg: Leg): seq<Step> {
    leg.steps.GetOr([])
  }

  /** `step.get('transit_details', {})`. */
  function DetailsOf(step: Step): TransitDetails {
    step.transitDetails.GetOr(TransitDetails(None, None, None))
  }

  /**
   * `leg.get('duration', {}).get('text', "Unknown duration")`: the text when the
   * key is there (`None` for a JSON null), the placeholder when it is absent.
   */
  function TripDuration(leg: Leg): (r: Option<string>)
    ensures leg.duration.Some? && leg.duration.value.text.Some? ==> r == Decoded(leg.duration.value.text.value)
    ensures leg.duration.None? || leg.duration.value.text.None? ==> r == Some("Unknown duration")
  {
    match leg.duration
    case None => Some("Unknown duration")
    case Some(d) =>
      match d.text
      case None => Some("Unknown duration")
      case Some(t) => Decoded(t)
  }

  /**
   * `line_info.get('short_name') or line_info.get('name', 'Unknown line')`
   * with `line_info = transit_details.get('line', {})`: the short name when it
   * is a non-empty string, else the full name when that key is there (even if
   * empty, and `None` if null), else the placeholder.
   */
  function LineName(line: Option<Line>): (r: Option<string>)
    ensures line.Some? && TruthyText(line.value.shortName) ==> r == Some(line.value.shortName.value.s)
    ensures !(line.Some? && TruthyText(line.value.shortName)) && line.Some? && line.value.name.Some? ==>
      r == Decoded(line.value.name.value)
    ensures !(line.Some? && (TruthyText(line.value.shortName) || line.value.name.Some?)) ==>
      r == Some("Unknown line")
  {
    match line
    case None => Some("Unknown line")
    case Some(l) =>
      if TruthyText(l.shortName) then Some(l.shortName.value.s)
      else match l.name
        case None => Some("Unknown line")
        case Some(n) => Decoded(n)
  }

  /**
   * `transit_details.get('departure_stop', {}).get('name', 'Unknown station')`:
   * the name when the key is there (`None` for a JSON null), else the placeholder.
   */
  function StationName(stop: Option<Stop>): (r: Option<string>)
    ensures stop.Some? && stop.value.name.Some? ==> r == Decoded(stop.value.name.value)
    ensures stop.None? || stop.value.name.None? ==> r == Some("Unknown station")
  {
    match stop
    case None => Some("Unknown station")
    case Some(s) =>
      match s.name
      case None => Some("Unknown station")
      case Some(n) => Decoded(n)
  }

  /** The line text is empty only when the short name is falsy and the full name is present but empty. */
  lemma LineNameEmpty(line: Option<Line>)
    ensures LineName(line) == Some("") <==>
      line.Some? && !TruthyText(line.value.shortName) && line.value.name == Some(Str(""))
  {
  }

  /** The line is Python's `None` only when the short name is falsy and the full name is a JSON null. */
  lemma LineNameNone(line: Option<Line>)
    ensures LineName(line).None? <==>
      line.Some? && !TruthyText(line.value.shortName) && line.value.name == Some(Null)
  {
  }

  /** With a missing or empty short name the full name is used; with neither name, the placeholder. */
  lemma LineNameExamples()
    ensures LineName(Some(Line(None, Some(Str("Queen Street"))))) == Some("Queen Street")
    ensures LineName(Some(Line(Some(Str("")), Some(Str("Queen Street"))))) == Some("Queen Street")
    ensures LineName(Some(Line(Some(Null), Some(Str("Queen Street"))))) == Some("Queen Street")
    ensures LineName(Some(Line(None, None))) == Some("Unknown line")
    ensures LineName(None) == Some("Unknown line")
  {
  }

  /** A JSON string value without a newline (null and absent keys qualify). */
  predicate SingleLineJson(v: Option<JsonString>) {
    v.Some? && v.value.Str? ==> '\n' !in v.value.s
  }

  /** The line and station names a step may contribute are single-line strings. */
  predicate SingleLineStep(step: Step) {
    var d := DetailsOf(step);
    (d.line.Some? ==> SingleLineJson(d.line.value.shortName) && SingleLineJson(d.line.value.name)) &&
    (d.departureStop.Some? ==> SingleLineJson(d.departureStop.value.name))
  }

  /** The duration text and every step's names are single-line strings. */
  predicate SingleLineLeg(leg: Leg) {
    (leg.duration.Some? ==> SingleLineJson(leg.duration.value.text)) &&
    forall i :: 0 <= i < |StepsOf(leg)| ==> SingleLineStep(StepsOf(leg)[i])
  }
}
