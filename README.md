# Flight schedule parser and hub conflict engine

This project models the core of a flight-schedule viewer (`src/App.jsx`). The viewer reads
loosely structured schedule text and turns it into flight records. For the hub `PDR` it then
derives three views:

- the windows during which a pad is occupied;
- the global conflict intervals, where two or more windows overlap;
- the timeline rows, grouped by pad or by aircraft.

The model is written in Dafny and proved with its verifier. There is one module per component:

| file | module | what it models |
|---|---|---|
| `wrappers.dfy` | `Wrappers` | `Option`, for JavaScript's `null` / `undefined` results |
| `text.dfy` | `Text` | white space as `\s` and `trim` see it, `trim`, `split('\n')`, `startsWith`, the newline replacement |
| `time_codec.dfy` | `TimeCodec` | `parseTime` and `formatTime` |
| `flights.dfy` | `Flights` | the flight record and its two kinds of id |
| `csv_parser.dfy` | `CsvParser` | `parseCSVLine`, with the tokenizer and the ETD test written out as scanners |
| `unstructured.dfy` | `Unstructured` | `parseUnstructuredText`, with its regular expression written out as a scanner |
| `sorting.dfy` | `Sorting` | the stable `Array.prototype.sort` by a numeric key, and the default string sort of the row keys |
| `schedule.dfy` | `Schedule` | the driver `parseScheduleData` |
| `events.dfy` | `Events` | the timeline constants, `allEvents`, and the hub departure and arrival counters |
| `conflicts.dfy` | `Conflicts` | `globalConflicts`: filling the occupancy array, then scanning it for runs |
| `rows.dfy` | `Rows` | `rows`: grouping hub events by key, then sorting the keys and each group |

Each operation follows the form of the source:

- Loops that update variables or arrays are methods with loop invariants. These are the line
  loop of the driver, the `while` over regular-expression matches, the `forEach` loops of the
  timeline, the occupancy array and its scan, and the grouping into rows.
- Each such method is proved equal to a specification function, or to satisfy a specification
  predicate.
- Pure helpers are functions.
- What the source promises is proved about the specification functions as lemmas.

The two in-place sorts (`flights.sort`, `groups[key].sort`) share one insertion sort over an
`array`. It is proved to compute `SortByKey`, which is shown to be ordered, a permutation and
stable.

Some behaviours of the code are easy to miss:

- **"Unknown" pads in aircraft view.** A hub departure from pad `"Unknown"` gets no row in pad
  view, but it appears in its aircraft's row in aircraft view, because the code tests the
  grouping key, which is then the aircraft (`Rows.UnknownPad`).
- **The end-of-day branch never runs.** The branch at lines 380-386 closes a crowded run that
  is still open at the end of the array. It cannot be reached, because no window marks the
  last cell (`Conflicts.LastCellEmpty`, `Conflicts.ConflictsEndCold`). The model keeps the
  branch as written.
- **No range check on times.** `parseTime` does not check its hours or minutes. `"2500"` reads
  as 1500 minutes and `"0975"` as 615 (`TimeCodec.ImpossibleHourAccepted`,
  `TimeCodec.ImpossibleMinuteAccepted`).
- **Three-digit time codes.** The unstructured pattern accepts a time code of three digits,
  such as `"ARK-115"`. `parseTime` never decodes one, so the match is dropped and uses up no
  `extracted-N` number (`Unstructured.TimeShapeDecodes`, `Unstructured.ExtractAt`).

## Model

| member | source | states |
|---|---|---|
| TimeCodec.ParseTime | src/App.jsx:31-39 | a decoded time lies between 0 and 99 hours 99 minutes, since neither part is range-checked |
| TimeCodec.FindFourDigitsLeftmost | src/App.jsx:33-34 | the search for `\d{4}` finds the leftmost run of four digits, and finds none only when the token has none |
| TimeCodec.ParseTimeSpec | src/App.jsx:31-39 | a token decodes to nothing exactly when it has no run of four digits; otherwise its first such run is read as HHMM into `hours * 60 + minutes` |
| TimeCodec.FourDigitsDecode | src/App.jsx:31-39 | a token with four digits anywhere always decodes |
| TimeCodec.JsRemainder | src/App.jsx:44 | JavaScript's `%` truncates toward zero: quotient and remainder recompose the dividend, and the remainder is smaller than the divisor in magnitude |
| TimeCodec.FormatTime | src/App.jsx:41-46 | a time from 0 to 5999 minutes renders as five characters with a colon in the middle; a missing time renders as `--:--`, which has no digit |
| TimeCodec.PadDigits | src/App.jsx:45 | a number below 100, padded to two, renders as its two decimal digits |
| TimeCodec.FormatParseRoundTrip | src/App.jsx:31-46 | for 0 to 5999 minutes, removing the colon from the rendering gives a token that decodes back to the same minutes |
| TimeCodec.ParseFormatRoundTrip | src/App.jsx:31-46 | a four-digit token with minutes below 60 decodes to HH*60+MM and renders back as the same digits with a colon inserted |
| TimeCodec.ImpossibleHourAccepted | src/App.jsx:36-38 | `"PDR-2500"` decodes to 1500 minutes: the hour is not range-checked |
| TimeCodec.ImpossibleMinuteAccepted | src/App.jsx:36-38 | `"0975"` decodes to 615 minutes: the minutes are not range-checked |
| TimeCodec.InvalidTokenRejected | src/App.jsx:32-34 | `"PDR-INVALID"` has no four digits and does not decode |
| Text.TrimSpec | src/App.jsx:53 | the trimmed text is a slice of the input with only white space cut on either side, and it neither starts nor ends with white space |
| Text.SplitJoin | src/App.jsx:49 | joining the parts with the separator gives back the text, so splitting loses nothing |
| Text.SplitPartsFree | src/App.jsx:49 | no part contains the separator |
| Text.SplitCount | src/App.jsx:49 | there is one more part than there are separators |
| Text.NewlinesToSpaces | src/App.jsx:109 | the length is kept, every newline becomes a space, and every other character is unchanged |
| CsvParser.BareRunEnd | src/App.jsx:56 | `[^",\s]+` runs greedily: everything it passes over is in the class, and it stops at the end or at a character outside it |
| CsvParser.ClosingQuote | src/App.jsx:56 | the lazy quoted alternative ends just after the first quote that is followed by optional white space and then a comma or the end, and never crosses a line terminator; it fails only when every such quote lies beyond a line terminator |
| CsvParser.TokenAt | src/App.jsx:56 | a token found at a position is non-empty and ends where the lookahead holds |
| CsvParser.Tokens | src/App.jsx:56 | the global `match` yields non-empty, non-overlapping matches, at most one per character |
| CsvParser.TokensOfSimpleLine | src/App.jsx:56 | on a line of well-formed fields the tokenizer finds every quoted field with its quotes and every non-empty bare field, in order; an empty bare field gives no token |
| CsvParser.CleanAll | src/App.jsx:57 | every match is cleaned, in order, one column per match |
| CsvParser.CleanSimpleField | src/App.jsx:57 | cleaning a well-formed field's token gives back the field's text |
| CsvParser.FindEtdColumn | src/App.jsx:59-61 | `findIndex` returns the first column that passes the ETD test; none is returned only when no column passes it |
| CsvParser.OrElse | src/App.jsx:71-77 | JavaScript `s or d` on strings: `s` when it is non-empty, otherwise `d`, so never empty when `d` is not |
| CsvParser.LeadingCode | src/App.jsx:69-70 | `/^([A-Z]{3})/` captures the first three characters exactly when they are capitals |
| CsvParser.ParseCsvLine | src/App.jsx:52-100 | a record has the line's index as its id; both times decode from its raw ETD and ETA; its duration is end minus start; its aircraft, pads and locations are never empty; its line is neither blank nor a header |
| CsvParser.RecordOf | src/App.jsx:59-99 | a line's columns give a record exactly when they are accepted, and then it is the record read at the first ETD column |
| CsvParser.RecordAt | src/App.jsx:63-99 | reading at the ETD column gives a record exactly when the ETA and aircraft columns are present and the ETA decodes; the record's fields are as in `ParseCsvLine` |
| CsvParser.EtdDecodes | src/App.jsx:59-82 | a column that passes the ETD test always decodes, so only the ETA can make a line fail at line 82 |
| CsvParser.ParseCsvLineAccepts | src/App.jsx:52-100 | a line yields a record exactly when it is neither blank nor a header and its columns are accepted |
| CsvParser.ParseCsvLineFields | src/App.jsx:63-97 | a record is read positionally from the first ETD column: ETA, aircraft, pads defaulting to "Unknown", operator and crew, and locations from the leading capitals, else the columns two and one before, else "UNK" |
| CsvParser.RecordAtFields | src/App.jsx:63-97 | the positional reading of the columns at a given ETD column |
| Unstructured.RunEndClass | src/App.jsx:104 | a greedy character-class run passes over characters of its class only |
| Unstructured.OptionalGroup | src/App.jsx:104 | an optional group takes part exactly when a non-empty white-space run follows and is followed by a character of its class; it then captures the whole run of that class after the white space, and otherwise consumes nothing |
| Unstructured.Skeleton | src/App.jsx:104 | a mandatory part found is an ETD code; then the ETA code, starting where the white space after the ETD code ends; then `AS` with its whole digit run, starting where the white space after the ETA code ends; neither white-space run is empty |
| Unstructured.SkeletonGaps | src/App.jsx:104 | everything between the ETD code and the ETA code, and between the ETA code and the aircraft, is white space |
| Unstructured.SkeletonComplete | src/App.jsx:104 | conversely, two time codes and an `AS` code laid out with white space between them are found, at exactly those positions |
| Unstructured.MatchAt | src/App.jsx:104 | a match at a position exists exactly when the mandatory part matches there; its captures are the spans of that part, and any pad it captures is non-empty |
| Unstructured.FindMatchLeftmost | src/App.jsx:111 | `exec` returns the match at the first position from `lastIndex` on where the pattern matches, and null only when it matches nowhere from there |
| Unstructured.Matches | src/App.jsx:111 | the matches do not overlap and each consumes text, so there are at most as many as characters left |
| Unstructured.Kept | src/App.jsx:128 | the drop rule: every capture kept decodes, and no more captures are kept than were found; `KeptFrom` and `KeptIndex` give both directions with positions |
| Unstructured.ParseUnstructuredText | src/App.jsx:102-147 | the loop emits the records of every match in order, with the counter starting at 0 |
| Unstructured.ExtractLength | src/App.jsx:128-144 | there is one record per match whose times decode |
| Unstructured.ExtractAt | src/App.jsx:128-130 | the k-th record is built from the k-th match that decodes and is numbered `extracted-k`: a dropped match uses up no number |
| Unstructured.LettersThenNoDigits | src/App.jsx:104 | between a time code's letters and its digits there is no digit |
| Unstructured.TimeShapeDecodes | src/App.jsx:120-126 | a captured time code's location is its three capitals, and it decodes exactly when it ends in four digits, as HHMM |
| Unstructured.TimeCodeShape | src/App.jsx:104 | the scanner's time codes have that shape |
| Unstructured.AircraftCodeShape | src/App.jsx:104 | the scanner's aircraft codes are `AS` followed by digits |
| Unstructured.MatchesShape | src/App.jsx:104-111 | every match the loop sees has captures of those shapes |
| Unstructured.KeptFrom | src/App.jsx:128 | the k-th kept capture is a capture that decodes and has exactly k decoding captures before it |
| Unstructured.KeptIndex | src/App.jsx:128 | every capture that decodes is kept, at the position given by the number of decoding captures before it |
| Unstructured.KeptOrder | src/App.jsx:128 | a later decoding capture is kept at a later position, so the records keep the order of the matches |
| Unstructured.RecordOfShape | src/App.jsx:112-143 | an extracted record's start and end are the last four digits of its ETD and ETA as HHMM, its locations are their three capitals, its duration is end minus start, its aircraft is `AS` and digits, its pads are never empty, an absent pad reads "TBD" and an absent operator or crew "Parsed from PDF" |
| Unstructured.ExtractedFrom | src/App.jsx:102-147 | the k-th record of the pass is built from one of the matches and is numbered k |
| Unstructured.LaidOutRecord | src/App.jsx:102-147 | a text holding an ETD, an ETA and an aircraft separated by white space, newlines included, yields exactly one record, "extracted-0", with both times read as HHMM and the pads, operator and crew defaulted |
| Sorting.InsertSorted | src/App.jsx:157-161 | inserting into an ordered list keeps it ordered and adds only the new element |
| Sorting.InsertPermutes | src/App.jsx:157-161 | inserting adds exactly the new element to the multiset |
| Sorting.WithKeyAppend | src/App.jsx:157-161 | appending adds an element to the elements of its key only |
| Sorting.InsertWithKey | src/App.jsx:157-161 | insertion places the new element after every element with the same key |
| Sorting.SortByKeySorted | src/App.jsx:157-161 | the sorted list is ordered by the key |
| Sorting.SortByKeyPermutes | src/App.jsx:157-161 | the sorted list is a permutation of the input |
| Sorting.SortByKeyStable | src/App.jsx:157-161 | elements with equal keys keep their input order, as JavaScript's sort guarantees |
| Sorting.InsertSplit | src/App.jsx:157-161 | insertion puts the element after the last element whose key is not greater |
| Sorting.InsertAt | src/App.jsx:157-161 | one insertion step on the array inserts the next element into the ordered prefix and leaves the rest alone |
| Sorting.SortInPlace | src/App.jsx:157-161 | sorting the array in place leaves the stable sort of its old contents |
| Sorting.SortedCopy | src/App.jsx:157-161 | the array sort of a list computes its stable sort |
| Sorting.StrLessIrreflexive | src/App.jsx:429 | the default string order is irreflexive |
| Sorting.StrLessTransitive | src/App.jsx:429 | the default string order is transitive |
| Sorting.StrLessTotal | src/App.jsx:429 | any two distinct strings are ordered one way or the other |
| Sorting.InsertKey | src/App.jsx:429 | inserting a key keeps the list strictly ascending and adds exactly that key |
| Sorting.SortKeys | src/App.jsx:429 | `Object.keys(groups).sort()` is strictly ascending and holds exactly the keys |
| Schedule.Origin | src/App.jsx:149-152 | every collected record comes from an earlier line whose parse returned it |
| Schedule.CollectRecords | src/App.jsx:149-152 | the `forEach` collects, in line order, the record of every line that yields one |
| Schedule.ParseScheduleData | src/App.jsx:48-162 | the result is the stable sort by start time of the structured records, or of the unstructured ones when there are no structured records |
| Schedule.ScheduleSorted | src/App.jsx:157-161 | the schedule is ordered by start time |
| Schedule.SchedulePermutes | src/App.jsx:157-161 | the schedule holds exactly the selected records, none lost, added or duplicated |
| Schedule.ScheduleStable | src/App.jsx:157-161 | records with the same start keep their line or match order |
| Schedule.PresentComplete | src/App.jsx:149-152 | every record a line yields is collected |
| Schedule.OriginAscending | src/App.jsx:149-152 | records are collected in the order of their lines |
| Schedule.StructuredLines | src/App.jsx:149-152 | every structured record is its line's record and has that line's index as its id |
| Schedule.StructuredComplete | src/App.jsx:149-152 | every line that yields a record contributes it |
| Schedule.StructuredOrdered | src/App.jsx:149-152 | structured records come out with strictly increasing line indices |
| Schedule.SelectedIds | src/App.jsx:154-161 | the two passes never mix: every selected record has a line index exactly when some line yielded a record |
| Schedule.NothingParsed | src/App.jsx:154-161 | when no line yields a record and no match decodes, the schedule is empty |
| Schedule.SelectedPadsNamed | src/App.jsx:74-75 | every selected record names both pads: structured records default a missing pad to "Unknown", extracted ones to "TBD" |
| Events.AllEvents | src/App.jsx:338-349 | the `forEach` pushes, flight by flight, each hub departure's and hub arrival's window |
| Events.WindowsSound | src/App.jsx:340-347 | every window is ten minutes wide and centred on some flight's hub departure or hub arrival with a named pad |
| Events.WindowsComplete | src/App.jsx:340-347 | every hub departure and hub arrival with a named pad has its window in the list |
| Events.WindowCount | src/App.jsx:340-347 | there are at most as many windows as hub departures plus hub arrivals, and exactly as many when every pad is named |
| Events.ParsedWindowCount | src/App.jsx:338-349 | on any parsed schedule there is exactly one window per hub departure and one per hub arrival, since the parser never leaves a pad empty |
| Events.HubDepartures | src/App.jsx:764 | the departures counter is at most the number of flights and is zero exactly when no flight leaves the hub |
| Events.HubArrivals | src/App.jsx:776 | the arrivals counter is at most the number of flights and is zero exactly when no flight lands at the hub |
| Events.HubCountsAppend | src/App.jsx:764-776 | both counters are additive over concatenated flight lists |
| Conflicts.BuildOccupancy | src/App.jsx:353-361 | each cell of the array counts the windows whose clamped half-open range contains it |
| Conflicts.ScanConflicts | src/App.jsx:363-387 | the scan reports the maximal crowded runs in ascending order, apart from each other, and covers every crowded cell but the last |
| Conflicts.PushRun | src/App.jsx:371-377 | closing a run after every earlier one keeps the report well formed and adds the run's cells |
| Conflicts.GlobalConflicts | src/App.jsx:352-388 | `globalConflicts` is a conflict report of the windows' occupancy |
| Conflicts.LastCellEmpty | src/App.jsx:356-360 | no window marks the last cell, since a window's cells stop before its clamped end |
| Conflicts.ConflictsEndCold | src/App.jsx:380-386 | every conflict has a positive duration and ends at an uncrowded cell, so the end-of-day branch is never taken |
| Conflicts.NoCrowding | src/App.jsx:363-387 | no crowded cell means no conflict |
| Conflicts.RunIs | src/App.jsx:363-387 | when the crowded cells form one block away from both ends of the day, every maximal run is that block |
| Conflicts.SingleCrowding | src/App.jsx:363-387 | one crowded block away from both ends of the day is exactly one conflict |
| Conflicts.CoverageTwo | src/App.jsx:355-361 | for two windows a cell's count is the number of the two that contain it |
| Conflicts.RunCoversStart | src/App.jsx:367-378 | when the last cell is not crowded, a run has a positive length, starts before the last cell and ends at an uncrowded cell |
| Conflicts.RunsMeet | src/App.jsx:367-378 | two maximal runs that share a cell are the same run |
| Conflicts.RunInOther | src/App.jsx:363-387 | every conflict of one report of an array is a conflict of any other report of it |
| Conflicts.ReportAscending | src/App.jsx:363-387 | conflict starts strictly increase along a report |
| Conflicts.AscendingSame | src/App.jsx:363-387 | two lists with strictly increasing starts and the same conflicts are equal |
| Conflicts.ReportUnique | src/App.jsx:363-387 | an array whose last cell is not crowded has exactly one report, so the scan's postcondition fixes its result |
| Conflicts.GlobalConflictsUnique | src/App.jsx:352-388 | any two reports of the same windows are equal: `globalConflicts` is a function of `allEvents` |
| Conflicts.OverlapExample | src/App.jsx:352-388 | windows 09:40-09:50 and 09:45-09:55 give exactly the conflict 09:45 to 09:50, lasting 5 minutes |
| Conflicts.TouchingExample | src/App.jsx:352-388 | windows 09:40-09:50 and 09:50-10:00 only touch and give no conflict |
| Rows.PushEvent | src/App.jsx:399-400 | pushing under a key appends the event to its array, creating the array and recording the key first when the key is new |
| Rows.GroupDeparture | src/App.jsx:396-410 | a hub departure is pushed under its key unless that key is empty or "Unknown" |
| Rows.GroupArrival | src/App.jsx:412-426 | a hub arrival is pushed under its key unless that key is empty or "Unknown" |
| Rows.GroupFlight | src/App.jsx:395-427 | one flight pushes its departure, then its arrival |
| Rows.BuildRows | src/App.jsx:392-440 | `rows` is one row per key, in key order, each holding the events pushed under that key sorted by buffer start |
| Rows.RowsFromGroups | src/App.jsx:429-437 | the `map` over the sorted keys builds each key's row from its sorted array |
| Rows.GroupedAppend | src/App.jsx:395-427 | the groups after one more push are the earlier groups with that push applied |
| Rows.GroupedLists | src/App.jsx:395-427 | a key has an array exactly when it is recorded, exactly when some event was pushed under it, and the array holds those events in push order |
| Rows.PushesSound | src/App.jsx:396-426 | every push is a hub departure or hub arrival of some flight, under a named key |
| Rows.PushesOfMembers | src/App.jsx:396-426 | a flight's pushes are exactly its hub departure and hub arrival under named keys |
| Rows.PushesComplete | src/App.jsx:396-426 | every push a flight makes is among the pushes of the list |
| Rows.EventsUnderMembers | src/App.jsx:399-400 | an event is under a key exactly when it was pushed with that key |
| Rows.RowsOverAt | src/App.jsx:429-437 | the k-th row belongs to the k-th sorted key |
| Rows.RowShape | src/App.jsx:429-437 | each row is labelled by its key; the key is neither empty nor "Unknown"; the row has events and no overlaps of its own; its events are exactly those pushed under the key, sorted by buffer start |
| Rows.RowsAscending | src/App.jsx:429 | rows come in strictly ascending key order, so no key has two rows |
| Rows.RowEventSound | src/App.jsx:396-426 | every event in a row comes from some flight's hub departure or arrival under the row's key; in pad view its pad is the key, in aircraft view its aircraft is; its buffer is five minutes either side of its time |
| Rows.RowEventComplete | src/App.jsx:396-426 | every hub departure and hub arrival under a named key appears in the row of that key |
| Rows.RowStable | src/App.jsx:430 | events of a row with the same buffer start keep their push order: flight order, departure before arrival |
| Rows.UnknownPad | src/App.jsx:396-410 | a hub departure from pad "Unknown" has no row in pad view but does have one in aircraft view, and its window still enters the conflict scan |

## Left out

- The user interface is not modelled. This covers the React components, state and memo hooks, hovering, tooltips, the dark-mode switch and the timeline's pixel layout (including `totalDuration`, line 333, which only sizes the drawing).
- Input and output are not modelled. This covers reading files and PDF documents (`pdfjs`) and the sample schedule. The parser takes the text as a parameter.
- The personnel count of the summary cards (line 788) is not modelled. It is the size of a set of names, it is only displayed, and nothing in the parser or in the conflict engine depends on it.
- Regular expressions are not modelled by a general engine. Each of the source's patterns (lines 56, 59, 69-70 and 104) is written out as a scanner for that pattern alone. No other pattern is covered.
- Row keys that JavaScript objects treat specially are not modelled. A pad or aircraft named `__proto__` or `constructor` would behave unlike a plain key in `groups`. The model treats every key as an ordinary string.
- The string order differs for characters outside the Basic Multilingual Plane. JavaScript compares strings by UTF-16 code unit. The model compares by character, so it agrees with JavaScript only on the Basic Multilingual Plane.
- JavaScript numbers are doubles, but the model uses unbounded integers. Every value is an integer far below 2^53 in magnitude: decoded times are at most 6039 minutes, durations lie between -6039 and 6039, buffered times between -5 and 6044, and ids and `extracted-N` counters are bounded by the length of the text. So double arithmetic is exact and the two agree. `NaN` never arises from `parseTime`, so the `isNaN` test of `formatTime` is covered by the missing-value case.
- `viewMode` is a string in the source. Any value other than `'pad'` groups by aircraft, so it is modelled as a two-valued datatype.
