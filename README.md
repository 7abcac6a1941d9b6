# Commute notification job: transit-option extraction and message rendering

This project models the logic of a scheduled job. The job asks a directions service for
transit routes between two fixed places and turns the answer into a list of boarding
options. It then renders the list as a plain-text message.

The model covers three parts of `lambda_function.py`:

- **Extraction** (`get_transit_options`, module `Extraction`). The input is a decoded
  directions response, or `None` when the request or the decoding failed. The model takes the
  first route's first leg and rejects a missing or zero overall departure. It keeps the `TRANSIT`
  steps whose departure timestamp is present and non-zero, builds one record per kept step using
  the fallback rules for line, station and duration, and sorts the records stably by raw timestamp.
- **Clock text** (module `Clock`). This is `strftime("%I:%M %p").lstrip("0")` applied to a local
  time of day. The epoch-to-Toronto conversion is a function parameter (`LocalTimeFn`). The model
  only knows that it returns an hour in 0..23 and a minute in 0..59.
- **Rendering** (module `Notification`). With no options the message is a fixed text. Otherwise
  it is one templated sentence per option, in list order, joined with single newlines.

The JSON response is modelled by the datatypes in `Directions`. Every key is an `Option`, so
an absent key is distinguished from a present but empty or zero value. The code treats the two
differently (`or` versus `.get(k, default)`). The three string keys the job copies into its
output (`duration.text`, the line's `short_name` and `name`, and the stop's `name`) may also
hold a JSON null (`JsonString.Null`). `.get` returns Python's `None` for it, so the trip duration,
line or station is `None`, and the sentence shows the text "None". `TransitOptions` holds the
option record and the stable sort.

Three fallback rules behave in ways that are easy to miss:
- A departure timestamp of `0` is treated like a missing one: the whole leg is rejected, or the
  single step is skipped.
- `transit_line` uses the full `name` whenever the short name is falsy and the `name` key exists,
  even when that name is the empty string.
- `station_name` falls back to "Unknown station" only when the stop's `name` key is absent.
- A JSON null duration text gives a `None` duration while the options are still extracted. So
  "no duration" does not imply "no options".

## Model

| member | source | states |
|---|---|---|
| Directions.Decoded | lambda_function.py:21 | a JSON null decodes to `None` and a JSON string to itself |
| Directions.DepartureValue | lambda_function.py:27 | `.get('departure_time', {}).get('value')` is present exactly when both keys are, and is then the stored value |
| Directions.FirstLeg | lambda_function.py:23-26 | a first leg exists exactly when `routes` is present and non-empty and its first route has a non-empty `legs` list; it is then `routes[0].legs[0]` |
| Directions.TripDuration | lambda_function.py:31 | the decoded duration text when the `duration.text` key exists (even if empty; `None` if null), otherwise "Unknown duration" |
| Directions.LineName | lambda_function.py:47-48 | the short name when it is a non-empty string; otherwise the decoded full name when that key is present, even if empty (`None` if null); otherwise "Unknown line" |
| Directions.StationName | lambda_function.py:49 | the decoded stop name when the key is present (`None` if null), "Unknown station" only when it is absent |
| Directions.LineNameEmpty | lambda_function.py:48 | the line text is empty exactly when the short name is falsy and the full name is present and empty |
| Directions.LineNameNone | lambda_function.py:48 | the line is `None` exactly when the short name is falsy and the full name is a JSON null |
| Directions.LineNameExamples | lambda_function.py:48 | a missing, empty or null short name with full name "Queen Street" gives "Queen Street"; no names give "Unknown line" |
| Clock.TwoDigits | lambda_function.py:34 | `%M`/`%I` padding: always two decimal digits whose value is the number |
| Clock.Hour12 | lambda_function.py:34 | the 12-hour dial value is in 1..12 and congruent to the hour modulo 12 |
| Clock.Meridiem | lambda_function.py:34 | `%p` is "AM" exactly for hours before 12, else "PM" |
| Clock.Decimal | lambda_function.py:34 | an hour numeral for 1..12 has one or two digits, no leading zero, and denotes that number |
| Clock.LStripZerosSuffix | lambda_function.py:34 | `lstrip("0")` leaves a suffix of the text that does not start with '0', and removes only zeros |
| Clock.FormatTimeShape | lambda_function.py:34 | the formatted text is the unpadded 12-hour hour, ":", the two-digit minute, a space and AM/PM |
| Clock.FormatTimeMidnight | lambda_function.py:34 | local hour 0 is shown as "12:MM AM" |
| Clock.FormatTimeMorning | lambda_function.py:34 | hours 1..11 are shown unpadded with "AM" |
| Clock.FormatTimeNoon | lambda_function.py:34 | local hour 12 is shown as "12:MM PM" |
| Clock.FormatTimeAfternoon | lambda_function.py:34 | hours 13..23 are shown as hour−12 with "PM" |
| Clock.FormatTimeIsClockText | lambda_function.py:45 | every formatted time has the form `H:MM AM` or `H:MM PM` with H in 1..12, no leading zero and a minute below 60 |
| Clock.FormatTimeSingleLine | lambda_function.py:34 | a formatted time contains no newline |
| Clock.ParseTime | lambda_function.py:34 | reads a clock text back to a time of day; it succeeds exactly on well-formed clock texts |
| Clock.ParseFormatTime | lambda_function.py:34 | parsing a formatted time gives back the same hour and minute |
| Clock.FormatTimeInjective | lambda_function.py:45 | two times of day with the same text are equal |
| TransitOptions.Insert | lambda_function.py:59 | insertion adds exactly one copy of the element and keeps everything else |
| TransitOptions.InsertSorted | lambda_function.py:59 | inserting into a list sorted by timestamp keeps it sorted |
| TransitOptions.SortByTimestamp | lambda_function.py:59 | the result is non-decreasing in timestamp and is a permutation of the input |
| TransitOptions.InsertKeepsTies | lambda_function.py:59 | the inserted option comes before every existing option with the same timestamp |
| TransitOptions.SortIsStable | lambda_function.py:59 | for every timestamp, the options with it appear in the same relative order as in the input |
| TransitOptions.StableOrderIsUnique | lambda_function.py:59 | two sorted lists with the same per-timestamp subsequences are equal |
| TransitOptions.StableSortIsSortByTimestamp | lambda_function.py:59 | any sorted, tie-order-preserving rearrangement of the input (such as the one `list.sort` returns) equals the model's sort |
| Extraction.OptionFor | lambda_function.py:44-57 | a kept step's record carries the shared leave time, the step's non-zero timestamp and its formatted time, and the line and station fallbacks |
| Extraction.ExtractOptions | lambda_function.py:37-57 | there are never more options than steps |
| Extraction.KeptIndices | lambda_function.py:37-42 | returns increasing step indices, each of a step that is TRANSIT with a truthy timestamp, and includes every such step |
| Extraction.ExtractOptionsSnoc | lambda_function.py:51-57 | each step appends its record after the earlier ones when it is kept, and nothing otherwise |
| Extraction.ExtractOptionsExact | lambda_function.py:36-57 | the unsorted options are exactly the kept steps' records, one per kept step, in step order |
| Extraction.ExtractedFields | lambda_function.py:44-56 | every option has the shared leave time, a non-zero timestamp, and that timestamp's formatted time |
| Extraction.ExtractedFrom | lambda_function.py:36-57 | every option is the record of some kept step |
| Extraction.CollectOptions | lambda_function.py:36-57 | the loop produces exactly the step-ordered records of the kept steps |
| Extraction.GetTransitOptions | lambda_function.py:23-60 | returns what the extraction defines; each failure case gives no duration and no options; the options are sorted; all share one leave time |
| Extraction.FailureCases | lambda_function.py:23-31 | the result has no duration exactly when the fetch failed, there is no route or first leg, the overall departure is missing or zero, or the first leg's duration text is null; only the first four cases also give no options |
| Extraction.SuccessfulExtraction | lambda_function.py:31-60 | on success the duration is the leg's and there are at most as many options as steps. The options are sorted, a stable permutation of the kept steps' records, and share the leg's formatted departure as leave time |
| Notification.Sentences | lambda_function.py:98-103 | one sentence per option, the i-th from the i-th option, all with the same duration |
| Notification.RenderMessage | lambda_function.py:95-104 | the output is the fixed text for no options, else the sentences joined by newlines |
| Notification.LambdaHandler | lambda_function.py:93-104 | the handler's body is the rendering of the extraction; it is the fixed text exactly when there are no options |
| Notification.SplitSingleLine | lambda_function.py:104 | a text without newlines splits into itself |
| Notification.SplitFirstLine | lambda_function.py:104 | a newline-free prefix followed by a newline splits off as the first line |
| Notification.SplitJoinLines | lambda_function.py:104 | splitting a newline join of single-line pieces gives back the pieces |
| Notification.TemplateSingleLine | lambda_function.py:100-102 | the fixed pieces of the sentence template contain no newline |
| Notification.SentenceSingleLine | lambda_function.py:100-102 | the template adds no newline of its own; a `None` line or station is shown as "None" |
| Notification.MessageLines | lambda_function.py:98-104 | with options and newline-free fields, the message has one line per option, and line i is option i's sentence with the shared duration |
| Notification.MessageFallback | lambda_function.py:95-96 | the message is the fixed text exactly when there are no options |
| Notification.FailedFetchMessage | lambda_function.py:93-96 | every failed extraction renders the fixed text |
| Notification.OptionSingleLine | lambda_function.py:44-57 | a kept step whose names hold no newline gives a record whose rendered fields hold none |
| Notification.ExtractedSingleLine | lambda_function.py:36-57 | if no step's names hold a newline, no extracted option's rendered fields do |
| Notification.PermutedSingleLine | lambda_function.py:59 | sorting keeps every option's rendered fields single-line |
| Notification.HandlerLines | lambda_function.py:23-104 | for a successful extraction with options from a leg whose duration text and names hold no newline, the body has exactly one line per sorted option, and line i is option i's sentence |

## Left out

- The HTTP request, `raise_for_status` and JSON decoding (lines 19-21) are network I/O. Their
  outcome is the `fetched` argument, where `None` stands for any failure there.
- JSON values of the wrong type are not modelled, because the datatypes are typed. In the code
  they raise inside the `try` and give `(None, [])`. Examples are a non-integer timestamp, or
  `steps` not being a list.
- A JSON null is modelled only for the three string keys above. Elsewhere the model treats it as an
  absent key. That matches the code for `routes`, `legs`, the leg's `departure_time` object, the
  timestamp `value`, `travel_mode` and `short_name`. It does not match for a null `duration`,
  `steps`, step, `transit_details`, step `departure_time`, `line` or `departure_stop` object.
  There the code calls `.get` on `None` or iterates it, which raises and gives `(None, [])`.
  The model instead applies the absent-key default.
- Epoch-to-Toronto conversion (`ZoneInfo`, `datetime.fromtimestamp`, lines 32-33 and 44) is
  time-zone database logic. It is the `LocalTimeFn` parameter, which is total.
  `datetime.fromtimestamp` raises `OverflowError`, `ValueError` or `OSError` for timestamps
  outside the platform's range. The handler at lines 62-64 catches these and gives `(None, [])`.
  The model does not include this path.
- `%p` is modelled as the C locale's "AM"/"PM". Other locales are not modelled.
- The e-mail send through SES and its error handling (lines 66-81, 109-114) is a foreign
  network client.
- Reading the API key, places and addresses from the environment (lines 85-91) is ambient
  configuration. These values only feed the request and the e-mail.
- `print` logging, `json.dumps` of the handler's return value and the constant status 200
  (lines 63, 106, 116-119) are I/O and a library call.
- `list.sort` works in place on the Python list. The model computes the sorted value instead.
  `TransitOptions.StableSortIsSortByTimestamp` shows that every stable sort by timestamp gives
  the same value.
- Extraction.GetTransitOptions: does not promise that a `None` duration comes with no options.
  A null duration text gives `None` together with the extracted options. The promise holds for
  the failure cases named by `ExtractionFails`.
