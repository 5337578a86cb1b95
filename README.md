# gnt2influx — a Dafny model of the converter core

gnt2influx reads drive-test logs written by G-NetTrack: tab- or comma-separated
text logs and KML exports. It turns every row or `<Placemark>` into a
`GNetTrackRecord`: a timestamp, position, speed, signal level and cell
attributes. It then writes the records to InfluxDB, 1.x or 2.x, in batches.
In a dry run it shows them as line-protocol text instead.

The model has seven modules:

- `Wrappers` holds `Option` and `Result`.
- `Text` models the parts of Rust's string library the converter relies on:
  - trimming, `split` and `join`;
  - `replace` and ASCII lowercasing;
  - parsing and showing `i64`.
- `DateTimes` models a chrono time as a count of nanoseconds since the epoch.
  - `DateTime::from_timestamp` is defined on chrono's calendar range.
  - `timestamp_nanos_opt` is defined on the `i64` range.
  - Trying a list of formats in turn is defined once, in `FirstMatch`.
- `Records` holds `GNetTrackRecord`, the shared record of both parsers, with a
  `Field` enumeration and `Get`/`Set` by field.
- `Parser` models `LogParser` (`src/parser.rs`):
  - per-cell conversion through the column alias table;
  - delimiter detection;
  - the row loop with its strict and skipping modes.
- `KmlParser` models `KmlParser` (`src/kml_parser.rs`):
  - the event loop over reader events;
  - the nested reads of `<Data>` values and text;
  - the `PlacemarkData` accumulator, a class updated in place;
  - the conversion of a placemark to a record.
- `InfluxClient` models the `InfluxClient` enum (`src/influx_client.rs`):
  - the choice of dialect;
  - connection test and database creation;
  - the 1.x query and the 2.x point built for each record;
  - one write per slice and batch writing that stops at the first failure;
  - the dry-run line format.

Effects are handled as follows:

- Every network call becomes a `Request` that is recorded in an `Effect`. The
  server's answer is a `Reply` supplied by the caller.
- Floating-point parsing and display, chrono's format matching and the
  current time come from an `Env` value. The theorems hold for every such
  environment.

## Model

| member | source | states |
|---|---|---|
| Records.Set | src/parser.rs:38-57 | setting one attribute of a record changes that attribute and leaves every other one as it was |
| Records.Blank | src/parser.rs:38-57 | a fresh record carries the current time and leaves every other attribute empty |
| DateTimes.FirstMatch | src/parser.rs:241-255 | trying formats in order yields nothing exactly when no format matches, and otherwise the result of some format |
| DateTimes.FirstMatchAt | src/parser.rs:241-255 | the first format that matches decides the result, whatever later formats would give |
| DateTimes.FromTimestamp | src/parser.rs:258-262 | defines chrono's `from_timestamp` for the model: whole seconds give a time exactly when they lie in chrono's calendar range (years -262143 to 262142), and that time is the seconds times 10^9 nanoseconds; this is the model's account of the library, not a theorem about it |
| DateTimes.TimestampNanosOpt | src/influx_client.rs:113 | defines chrono's `timestamp_nanos_opt` for the model: a time has a nanosecond count exactly when that count fits in an `i64`; this is the model's account of the library, not a theorem about it |
| Parser.ParseFloatOptional | src/parser.rs:267-273 | empty, `N/A` and `null` cells and unparsable numbers are absent; any other cell is the parsed number |
| Parser.ParseTimestamp | src/parser.rs:235-265 | an empty cell means now; a failure always carries the message `Unable to parse timestamp: ` followed by the cell |
| Parser.ParseTimestampFirstFormatWins | src/parser.rs:241-255 | a non-empty cell is read with the first of the seven formats that matches it |
| Parser.ParseTimestampEpochFallback | src/parser.rs:257-264 | when no format matches, the cell is accepted exactly when it is an `i64` number of seconds within chrono's range, and it is then that instant |
| Parser.CellValue | src/parser.rs:63-123 | a cell gives a value of its column's kind: text is kept as is, numbers are optional, and only an unreadable timestamp fails |
| Parser.ApplyCell | src/parser.rs:59-128 | the effect of one cell on the record; `ApplyCellFails` and `ApplyCellSets` state when it fails and what it sets, and `ReadCell` runs it |
| Parser.ApplyCellFails | src/parser.rs:63-66 | a cell fails its row exactly when its header routes it to the time and it is not a timestamp |
| Parser.ApplyCellSets | src/parser.rs:59-123 | a cell that converts sets exactly the attribute its header routes it to, to the converted value, and a cell under an unknown or missing header changes nothing |
| Parser.ReadCell | src/parser.rs:59-123 | one pass of the cell loop does what the cell does to the record: route by the lower-cased header, convert, fail only on a bad timestamp |
| Parser.ConvertErrorSticks | src/parser.rs:65 | once a cell fails the row has failed, and later cells do not change the error |
| Parser.ConvertFromPrefix | src/parser.rs:59-125 | finishing the row from any cell the loop has reached, with the record built so far, gives the conversion of the whole row |
| Parser.LastColumnIsLast | src/parser.rs:59-63 | the column found for an attribute routes to it and no later column does; when none is found, no column routes to it |
| Parser.FieldFromLastColumn | src/parser.rs:59-130 | each attribute of a converted row comes from the last column whose lower-cased header names it, and is empty (or now, for the time) when no column does |
| Parser.ConvertRow | src/parser.rs:34-154 | the column-by-column conversion of a row; `ConvertFailsIffBadTimestamp`, `FieldFromLastColumn` and `ConvertErrorSticks` state when it fails and where each attribute comes from, and `FromCsvRecord` runs it |
| Parser.ConvertFailsIffBadTimestamp | src/parser.rs:38-66 | a row fails exactly when one of its time columns holds a cell that is not a timestamp |
| Parser.FromCsvRecord | src/parser.rs:34-154 | the cell loop gives exactly the column-by-column conversion of the row |
| Parser.FirstLine | src/parser.rs:225 | the first line is a prefix of the content that holds no newline before its last character, and ends in a newline unless it is the whole content |
| Parser.DetectDelimiter | src/parser.rs:219-232 | the delimiter is a tab exactly when a tab occurs before the first newline, and a comma otherwise |
| Parser.KeptPlusFailures | src/parser.rs:182-210 | in skipping mode every row is either kept or counted as a failure, never both and never neither |
| Parser.KeptAllWhenNoFailure | src/parser.rs:182-216 | when every row converts, the kept records are the rows' records, one per row and in order |
| Parser.RowOutcome | src/parser.rs:183-209 | what the row loop makes of one reader row: a malformed line, an invalid record, or the record; `ReadRow` runs it and `KeptPlusFailures` counts its outcomes |
| Parser.ReadRow | src/parser.rs:183-209 | one pass of the row loop: a line the reader could not split is malformed, and a split line keeps its record or reports the conversion error |
| Parser.ParseRows | src/parser.rs:179-216 | skipping mode keeps the good rows in order and counts the rest; strict mode either converts every row or fails at the first bad row with its line number (row index plus two) |
| Parser.ParseFile | src/parser.rs:166-216 | a bad header row fails the file; otherwise the rows read with the detected delimiter are handled as in `ParseRows` |
| KmlParser.TextContent | src/kml_parser.rs:118-137 | a text read never moves backwards and always consumes at least one event unless the input is exhausted |
| KmlParser.ReadTextContent | src/kml_parser.rs:118-137 | the text loop gives the concatenated text up to the first end tag, or the reader error, and the position after it |
| KmlParser.DataValue | src/kml_parser.rs:96-116 | a data read never moves backwards and always consumes at least one event unless the input is exhausted |
| KmlParser.ReadDataValue | src/kml_parser.rs:96-116 | the skip loop gives the text of the first `<value>`, or empty when `</Data>` or the end of input comes first, or the reader error |
| KmlParser.TextContentWithoutErrors | src/kml_parser.rs:118-137 | a text read over input with no reader error never fails |
| KmlParser.DataValueWithoutErrors | src/kml_parser.rs:96-116 | a data read over input with no reader error never fails |
| KmlParser.Route | src/kml_parser.rs:155-166 | each of the five labels stores its value in its own slot; any other label changes nothing |
| KmlParser.RouteLaterWins | src/kml_parser.rs:155-166 | a label given twice keeps only the later value |
| KmlParser.PlacemarkData.constructor | src/kml_parser.rs:151-153 | a new accumulator holds nothing |
| KmlParser.PlacemarkData.AddData | src/kml_parser.rs:155-166 | the accumulator's new contents are the old ones with the label's slot overwritten |
| KmlParser.PlacemarkData.SetCoordinates | src/kml_parser.rs:168-170 | the accumulator keeps the raw coordinate text and nothing else changes |
| KmlParser.ParseKmlTimestamp | src/kml_parser.rs:250-268 | a failure always carries the message `Unable to parse KML timestamp: ` followed by the original text |
| KmlParser.UnderscoreFormatUnreachable | src/kml_parser.rs:252-259 | because every underscore is replaced first, the underscore format never decides the outcome, provided chrono never matches that format against text without an underscore |
| KmlParser.Coordinates | src/kml_parser.rs:173-185 | longitude and latitude from the coordinate text; `CoordinatesFromParts` states what well-formed text gives |
| KmlParser.CoordinatesFromParts | src/kml_parser.rs:173-185 | text `lon,lat[,alt...]` gives the first two parts as longitude and latitude, and the rest is ignored |
| KmlParser.ParseWithUnit | src/kml_parser.rs:194-216 | the unit-stripped reading of a speed or RSRP value; `ParseWithUnitSuffix` states that a number and its unit read as the number |
| KmlParser.ParseWithUnitSuffix | src/kml_parser.rs:194-216 | a number followed by `km/h` or `dBm`, with or without a space, reads as the number |
| KmlParser.ToRecord | src/kml_parser.rs:172-247 | `to_record`; `ToRecordContents` states its outcome and every attribute of its record, and `ToRecordIgnoresAltitude` that the altitude has no effect |
| KmlParser.ToRecordContents | src/kml_parser.rs:172-247 | a placemark converts exactly when it has no time or a readable one, and the record holds its time, coordinates, unit-stripped speed and level, technology and operator KDDI, with every other attribute empty |
| KmlParser.ToRecordIgnoresAltitude | src/kml_parser.rs:218-246 | the collected altitude never affects the record |
| KmlParser.Step | src/kml_parser.rs:33-85 | one turn of the event loop; every turn that does not stop moves strictly forward through the events, and `RunOtherEnd`, `RunPlacemarkEnd`, `RunLastPlacemarkEnd` and `PlacemarkEventsRun` state what the turns do |
| KmlParser.Run | src/kml_parser.rs:32-93 | the event loop from a given state to the end of input or the first failure; `SkippingNeverAborts`, `RunOnlyAppends`, `NoPlacemarkNoRecords` and the abort lemmas state its outcome, and `ParseFile` runs it |
| KmlParser.ParseFile | src/kml_parser.rs:19-94 | the event loop gives exactly the step-by-step run of the reader events from the initial state |
| KmlParser.SkippingNeverAborts | src/kml_parser.rs:58-82 | in skipping mode, input with no reader error always parses successfully, whatever its placemarks hold |
| KmlParser.ReaderErrorAbortsWhenStrict | src/kml_parser.rs:75-82 | in strict mode, a reader error outside a nested read fails the whole file with `XML parsing error` |
| KmlParser.ReaderErrorSkippedWhenSkipping | src/kml_parser.rs:75-78 | in skipping mode, a reader error outside a nested read is counted and the loop goes on with the next event |
| KmlParser.NestedErrorAbortsEvenWhenSkipping | src/kml_parser.rs:39-45 | a `<Data>` read inside a placemark that fails, wherever in the data its reader error comes, fails the file with that read's error, even in skipping mode |
| KmlParser.CoordinatesErrorAbortsEvenWhenSkipping | src/kml_parser.rs:47-52 | a `<coordinates>` read inside a placemark that fails fails the file with that read's error, even in skipping mode |
| KmlParser.NestedErrorMessages | src/kml_parser.rs:96-137 | a reader error before `<value>` fails the data read with `Error reading data value`, and one inside `<value>` or the coordinate text fails it with `Error reading text content` |
| KmlParser.RunPlacemarkEnd | src/kml_parser.rs:56-73 | `</Placemark>` inside a placemark adds its record, or counts the failure and goes on when skipping, or fails the file with `Error parsing placemark` when strict |
| KmlParser.NoPlacemarkNoRecords | src/kml_parser.rs:29-86 | outside a placemark, input with no `<Placemark>` start adds no records |
| KmlParser.RunOnlyAppends | src/kml_parser.rs:58-82 | records found earlier are never dropped or reordered, and the error count never decreases |
| KmlParser.PlacemarkEventsRun | src/kml_parser.rs:32-73 | a document holding one placemark with time, RSRP, speed and coordinates yields that placemark's record; if the placemark is bad, the run yields one failure when skipping and the placemark error when strict |
| InfluxClient.New | src/influx_client.rs:24-54 | the 2.x dialect is chosen exactly when a non-empty token and organisation are configured, and writes to a bucket named after the database; otherwise 1.x, with basic authentication exactly when a user name is set |
| InfluxClient.TestConnection | src/influx_client.rs:56-82 | the test sends one query (1.x) or health check (2.x) and succeeds exactly when the server does |
| InfluxClient.CreateDatabaseIfNotExists | src/influx_client.rs:84-107 | database creation always succeeds; 1.x sends `CREATE DATABASE "<db>"` and 2.x sends nothing |
| InfluxClient.Nanos | src/influx_client.rs:113 | the timestamp is the time's nanosecond count when that fits in an `i64`, and 0 otherwise |
| InfluxClient.AsU128 | src/influx_client.rs:171-172 | the `u128` cast is a value below 2^128 congruent to the `i64` count |
| InfluxClient.PresentInOrder | src/influx_client.rs:178-238 | the pairs a chain of `if let Some(..)` additions produces are the present attributes of the list, each under its own name and value, in list order, each once, with none missing |
| InfluxClient.PresentMembers | src/influx_client.rs:178-238 | every present attribute of the list is added under its name, and nothing else is |
| InfluxClient.PointV1Schema | src/influx_client.rs:170-238 | a 1.x point carries the fixed `measurement_type` tag, then the present indexed attributes as tags and the present measured attributes as fields, each in the order the source adds them, once, with none missing |
| InfluxClient.PointV1KeysOnce | src/influx_client.rs:175-238 | no tag key and no field key occurs twice in a 1.x point |
| InfluxClient.PointV1 | src/influx_client.rs:170-238 | the 1.x `WriteQuery` of one record; `PointV1Schema`, `PointV1KeysOnce` and `TimestampsAgree` state its tags, fields and time |
| InfluxClient.PointV2 | src/influx_client.rs:273-341 | the 2.x builder of one record; `SameSchema` proves its tag and field maps are what the 1.x lists amount to, and `TimestampsAgree` relates its time to the 1.x time |
| InfluxClient.SameSchema | src/influx_client.rs:171-238 | the 2.x point's tag and field maps are what the 1.x point's tag and field lists amount to, under the same measurement |
| InfluxClient.TimestampsAgree | src/influx_client.rs:274-277 | the two dialects store the same time exactly when it is not before the epoch; 1.x stores an earlier time as the count plus 2^128 |
| InfluxClient.Points | src/influx_client.rs:170-241 | one point per record, in record order |
| InfluxClient.BuiltPointsContents | src/influx_client.rs:273-346 | building succeeds exactly when every point builds and then yields every point in order; otherwise it reports the first failing point's error |
| InfluxClient.BuildPoints | src/influx_client.rs:168-242 | the record loop yields one point per record, in order |
| InfluxClient.BuildCheckedPoints | src/influx_client.rs:271-346 | the record loop with a fallible `build()` gives all points in order, or the first build error |
| InfluxClient.WriteRecordsV1 | src/influx_client.rs:162-263 | one request carries every record's 1.x query, and the call fails exactly when that write does |
| InfluxClient.WriteRecordsV2 | src/influx_client.rs:265-367 | a build error ends the call before anything is sent; otherwise one request carries every point, and the call fails exactly when that write does |
| InfluxClient.WriteEffect | src/influx_client.rs:151-160 | `write_records` on one slice, for either dialect; `WriteEffectContents` states its requests and outcome and `WriteRecords` runs it |
| InfluxClient.WriteEffectContents | src/influx_client.rs:151-160 | an empty slice sends nothing and succeeds; otherwise at most one write is sent, and the result is that write's outcome |
| InfluxClient.WriteRecords | src/influx_client.rs:151-160 | the dispatch does exactly what `WriteEffect` describes for the client's dialect |
| InfluxClient.Chunks | src/influx_client.rs:384 | the batches are non-empty, each holds at most the batch size, all but the last hold exactly that many, and together they are the records in order |
| InfluxClient.ChunkCount | src/influx_client.rs:384 | there are ceil(n / batch size) batches |
| InfluxClient.InOrderSuccess | src/influx_client.rs:384-387 | batches written in order that end well all succeeded, and all their requests were sent in order |
| InfluxClient.InOrderFailure | src/influx_client.rs:384-387 | batches written in order stop at the first failing batch: its error is the result, and only it and the batches before it were sent |
| InfluxClient.WriteChunks | src/influx_client.rs:384-387 | the batches written one after another, stopping at the first error; `InOrderSuccess` and `InOrderFailure` state its outcome and requests, and `WriteRecordsBatch` runs it |
| InfluxClient.WriteBatch | src/influx_client.rs:384-387 | one pass of the batch loop writes batch i exactly as `write_records` writes that slice |
| InfluxClient.WriteRecordsBatch | src/influx_client.rs:369-394 | no records means no requests; otherwise the batches are written one after another, stopping at the first error |
| InfluxClient.BatchWriteV1Success | src/influx_client.rs:369-394 | a successful 1.x batch write of n records sends ceil(n / batch size) requests, which carry each record's query once, in record order |
| InfluxClient.Line | src/influx_client.rs:113-143 | the dry-run line of one record; `LineSections` and `SpaceInOperatorName` state how it splits into sections, and `FormatRecord` builds it |
| InfluxClient.FormatRecord | src/influx_client.rs:112-145 | one pass of the dry-run loop builds exactly the line for the record: measurement and tags, the present fields joined by commas, and the nanosecond timestamp |
| InfluxClient.FormatRecordsForInflux | src/influx_client.rs:109-149 | the dry run never fails and gives one line per record, in order |
| InfluxClient.LineSections | src/influx_client.rs:115-146 | a line whose values hold no space splits into measurement-and-tags, fields and timestamp, and the last section reads back as the record's time in nanoseconds |
| InfluxClient.SpaceInOperatorName | src/influx_client.rs:118-120 | tag values are not escaped, so a space in the operator name splits the line into four sections |
| Text.SplitJoin | src/kml_parser.rs:175 | splitting the join of separator-free parts gives the parts back |
| Text.ParseShowRoundTrip | src/parser.rs:258 | the `i64` parse reads the decimal text of any `i64` back as that number |

## Left out

- File reading, `BufReader`, the CSV tokeniser and the XML tokeniser are not modelled. They appear as their outputs: the cell rows a `CsvReader` gives, and the sequence of reader events.
- Logging (`info!`, `warn!`, `debug!`, `error!`) is not modelled. The skipped-row and skipped-placemark counts are returned next to the records, not only logged.
- Floating-point parsing and display (`f64::from_str`, `Display for f64`), chrono's `parse_from_str` and `Utc::now()` are parameters of `Env`. Their exact behaviour belongs to the Rust standard library and chrono.
- Text.ToLower: only ASCII letters and the Kelvin sign are lowered. These are the only characters whose lowercase can match the ASCII alias table, so column routing is exact.
- Text.Replace: modelled only for non-empty patterns. Every pattern the converter uses is non-empty.
- The network is not modelled. Replies are given by the caller, and the 2.x `DataPoint::build()` outcome is a parameter. The 2.x client's byte stream and HTTP details are not modelled.
- Records.Blank, Parser.ParseTimestamp, Parser.FromCsvRecord, KmlParser.ToRecordContents: every `Utc::now()` reading in a run is modelled as one instant, `Env.now`. The source reads the clock again for each row (src/parser.rs:38), inside `parse_timestamp` (src/parser.rs:237) and for each placemark (src/kml_parser.rs:191). So the model does not capture that records without a timestamp get successive, distinct times. In the model they share one time, and as InfluxDB points (keyed by measurement, tags and time) they may collide where the source's points do not.
- KmlParser.ToRecordContents: the altitude is never parsed. The source parses it and then discards it, which cannot affect the result.
- InfluxClient.BatchWriteV1Success: the "every record once, in order" property is proved for 1.x batches only. For 2.x, `InOrderSuccess` gives the same request-per-batch structure, but not the point contents.
- InfluxClient.WriteRecordsBatch: a zero batch size with records panics in the source (`slice::chunks`). The model requires a positive size whenever there are records.
- `src/main.rs` (command line, choice of parser by file extension, dry-run printing) and `src/config.rs` (TOML reading) are not part of this model. Only the `[influxdb]` table is modelled, as `InfluxDbConfig`.
