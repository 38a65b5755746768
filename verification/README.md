# l2bq field exporters in Dafny

This project models the field-export core of l2bq. l2bq turns App Engine request
logs into rows for a BigQuery table. A `BigqueryFieldExporter` first publishes a
schema (`getFieldCount`, `getFieldName`, `getFieldType`). Then, for every request
record, `processLog` is called and the exporter's values are read with one
`getField` call per column.

Two implementations are modelled:

- `AppLogExporter` is line-oriented. `processLog` keeps the JSON payload of every
  application log line that passes the filter:
  - the message is non-empty;
  - the level is INFO;
  - `split("^.*AppLog\t")` yields exactly two parts;
  - the payload parses;
  - the payload's `type` is the exporter's type name.

  A cursor `logIndex` starts at -1 and is moved by `nextAppLogLine`. `getField`
  looks the name up in the declared field names and types. It then coerces the
  current payload's `data.<name>` to integer, float, string or boolean. Failures
  follow an asymmetric policy: numeric types give -1, the others give null.
- `TimestampFieldExporter` is one-row. It reports the request start time as the
  single integer column `timestamp`.

## Modules

- `Wrappers` holds `Option` and `Result`. A Java exception that escapes a call is a
  `Result` failure carrying a `Fields.Thrown` value.
- `Json` holds JSON values and the JSON library as a record of partial functions:
  parse, and the `getLong`/`getDouble`/`getString`/`getBoolean` conversions. It also
  has the concrete `has`/`get`/`getJSONObject` lookups on an object.
- `LogRecords` holds the request record and its application log lines.
- `MarkerSplit` is Java's `split` for the one fixed pattern `^.*AppLog\t`. The match
  is greedy and does not cross a line terminator. Where the match ends decides the
  parts:
  - no match gives one part (the message itself);
  - a match reaching the end of the message gives no parts;
  - otherwise the parts are `""` and the rest of the message.
- `Fields` holds the column types, their wire names, field values, the `-1`
  sentinel and the escaping exceptions.
- `Coercion` implements `getFieldLong`, `getFieldFloat`, `getFieldString` and
  `getFieldBoolean` on one payload.
- `AppLogFilter` is the line filter of `processLog`: a functional `Filter` and the
  loop `FilterLines`.
- `AppLogExporters` holds the exporter state (kept payloads and cursor),
  `processLog`, `nextAppLogLine`, `getField` and the schema accessors.
- `TimestampExporters` is the one-row exporter.
- `FieldExporter` is the interface. It is a tagged union of the two exporters with
  dispatching operations and the obligations the interface documents. It also
  defines the row protocol a caller follows:
  - `RowsFor` processes a record;
  - it then reads one row, or one row per successful `nextAppLogLine`;
  - each row is one `getField` per column.
- `AppLogSample` walks through the documented sample line
  `[l2bq-sample/v1].<stdout>: AppLog<TAB>{"data":{…},"type":"login"}`.

Each exporter is a value, and every operation returns the exporter as it stands
after the call.

The model follows the code, including where it departs from what a reader of
the interface would expect:

- A float coercion failure returns the integer `-1` (`return -1;` in a method
  returning `Object`, `AppLogExporter.java:178`), not a floating-point `-1.0`.
  Both numeric failures are the single value `Fields.Sentinel`.
- `getField` is documented to answer "for the last processed log"
  (`BigqueryFieldExporter.java:45`). Yet `processLog` on a record whose line list
  is null or empty returns before clearing the kept payloads
  (`AppLogExporter.java:61-65`). The previous record's payloads stay in place, and
  the next round of `nextAppLogLine` replays them.
- The coercers read `logs.get(logIndex)` outside their `try`
  (`AppLogExporter.java:153`). So `getField` before the first `nextAppLogLine`
  throws on a name whose first field with a recognised type string
  (`AppLogExporters.StopsAt`) exists. It does not answer null. A name declared only
  with other type strings still answers null.
- `getField` is documented to return "null if the name is invalid"
  (`BigqueryFieldExporter.java:52`). Yet `TimestampFieldExporter.getField` answers
  the start time for every name, including names it does not declare.

## Model

| member | source | states |
|---|---|---|
| MarkerSplit.SplitShape | src/main/java/com/l2bq/logging/analysis/exporter/applog/AppLogExporter.java:76 | The split yields 0, 1 or 2 parts. It yields 1 part (the message) exactly when there is no match on the first line, and 0 parts exactly when the greedy match ends at the message's end. With 2 parts, the first part is empty |
| MarkerSplit.PayloadIsTextAfterGreedyMatch | src/main/java/com/l2bq/logging/analysis/exporter/applog/AppLogExporter.java:76-82 | `msgs.length == 2` holds with `msgs[1] == p` if and only if `p` is the non-empty text after the greedy `…AppLog<TAB>` match, i.e. after the last marker on the first line |
| MarkerSplit.SplitOfTaggedLine | src/main/java/com/l2bq/logging/analysis/exporter/applog/AppLogExporter.java:76-82 | A one-line prefix, the marker, and a non-empty tab-free payload split into exactly `["", payload]` |
| MarkerSplit.LastMarkerFrom | src/main/java/com/l2bq/logging/analysis/exporter/applog/AppLogExporter.java:76 | Finds the last marker position at or before a bound, or reports that there is none. This is the greedy `.*` |
| MarkerSplit.MatchEnd | src/main/java/com/l2bq/logging/analysis/exporter/applog/AppLogExporter.java:76 | Where the pattern's match ends: after the unique greedy match, or nowhere when no match starts on the first line |
| MarkerSplit.Split | src/main/java/com/l2bq/logging/analysis/exporter/applog/AppLogExporter.java:76 | At most two parts. One part is the whole message. Two parts are `""` and a non-empty proper suffix of the message. Which shape occurs is stated by `SplitShape` |
| MarkerSplit.Payload | src/main/java/com/l2bq/logging/analysis/exporter/applog/AppLogExporter.java:79-82 | Present exactly when the split has two parts, and then the second part. `PayloadIsTextAfterGreedyMatch` says which text that is |
| AppLogFilter.Accept | src/main/java/com/l2bq/logging/analysis/exporter/applog/AppLogExporter.java:69-95 | A kept line has a non-empty INFO message, and what is kept is that message's payload, whose `type` is the type name. Conversely, every INFO line whose payload has that `type` is kept. `AcceptCharacterisation` states the filter in full |
| AppLogFilter.Filter | src/main/java/com/l2bq/logging/analysis/exporter/applog/AppLogExporter.java:67-98 | Keeps at most one payload per line. `FilterIsOrderedSelection`, `FilterAppend` and `FilterLines` state what is kept |
| AppLogFilter.AcceptCharacterisation | src/main/java/com/l2bq/logging/analysis/exporter/applog/AppLogExporter.java:67-97 | A line is kept if and only if it has a message, is INFO, has a greedy marker match with text after it, and that text's JSON `type` equals the type name. The kept text is that text after the match, not the whole message |
| AppLogFilter.WrongLevelOrTypeNeverKept | src/main/java/com/l2bq/logging/analysis/exporter/applog/AppLogExporter.java:73-90 | A non-INFO line, or a line whose payload's `type` is not the type name, is never kept, however well-formed it is |
| AppLogFilter.FilterLines | src/main/java/com/l2bq/logging/analysis/exporter/applog/AppLogExporter.java:67-98 | The loop that appends each accepted payload computes the filter of the whole line list |
| AppLogFilter.FilterIsOrderedSelection | src/main/java/com/l2bq/logging/analysis/exporter/applog/AppLogExporter.java:67-98 | The kept payloads are the accepted lines' payloads at strictly increasing line positions. Every line not selected is rejected. There is no reordering, merging or deduplication |
| AppLogFilter.FilterAppend | src/main/java/com/l2bq/logging/analysis/exporter/applog/AppLogExporter.java:67-98 | Each line is judged on its own: the filter of `a + b` is the filter of `a` followed by the filter of `b` |
| AppLogFilter.SkippedLineLeavesNoTrace | src/main/java/com/l2bq/logging/analysis/exporter/applog/AppLogExporter.java:71-95 | A rejected line can be removed from anywhere in the list without changing what is kept |
| AppLogExporters.Create | src/main/java/com/l2bq/logging/analysis/exporter/applog/AppLogExporter.java:47-53 | A new exporter has no kept payloads, its cursor is at -1, and it is valid |
| AppLogExporters.ProcessLog | src/main/java/com/l2bq/logging/analysis/exporter/applog/AppLogExporter.java:56-99 | The cursor is -1 afterwards in every case, and the configuration is unchanged. A null or empty line list leaves the kept payloads unchanged. Any other list replaces them with the filter of its lines |
| AppLogExporters.NextAppLogLine | src/main/java/com/l2bq/logging/analysis/exporter/applog/AppLogExporter.java:125-133 | Answers false, changing nothing, exactly when the cursor is at or past the last kept payload. Otherwise it moves the cursor by exactly one. It preserves `-1 <= logIndex < |logs|` |
| AppLogExporters.VisitedInOrder | src/main/java/com/l2bq/logging/analysis/exporter/applog/AppLogExporter.java:125-133 | Calling it until it answers false visits every kept position after the cursor, once each and in order. From -1 it answers true exactly `|logs|` times |
| AppLogExporters.FieldName | src/main/java/com/l2bq/logging/analysis/exporter/applog/AppLogExporter.java:102-104 | Returns the i-th field name when `i` is in range, and throws an array-index exception otherwise |
| AppLogExporters.FieldType | src/main/java/com/l2bq/logging/analysis/exporter/applog/AppLogExporter.java:107-109 | Returns the i-th field type when `i` is in range, and throws an array-index exception otherwise |
| AppLogExporters.CoerceCurrent | src/main/java/com/l2bq/logging/analysis/exporter/applog/AppLogExporter.java:151-153 | A coercer throws `IndexOutOfBounds(logIndex)` exactly when the cursor is not on a kept payload. Otherwise it answers the coercion of the current payload |
| AppLogExporters.GetFieldFrom | src/main/java/com/l2bq/logging/analysis/exporter/applog/AppLogExporter.java:227-247 | The scan from a given field on answers null when it stops nowhere, and otherwise does what the first stopping field calls for |
| AppLogExporters.GetField | src/main/java/com/l2bq/logging/analysis/exporter/applog/AppLogExporter.java:225-248 | A name that is not among the field names reads as null |
| AppLogExporters.GetFieldScan | src/main/java/com/l2bq/logging/analysis/exporter/applog/AppLogExporter.java:225-248 | Reads null when no field of that name has a recognised type string, and otherwise dispatches on the first matching field that does. A type array shorter than the name array throws at that index |
| AppLogExporters.GetFieldTotalOnCurrentLine | src/main/java/com/l2bq/logging/analysis/exporter/applog/AppLogExporter.java:225-248 | With a type for every name and the cursor on a kept payload, `getField` never throws. It answers null when no field of that name has a recognised type, and otherwise the coercion of the current payload under the first such field's type |
| AppLogExporters.GetFieldBeforeFirstLineThrows | src/main/java/com/l2bq/logging/analysis/exporter/applog/AppLogExporter.java:153 | At cursor -1, reading a field that `getField` would coerce throws from `logs.get(-1)` |
| AppLogExporters.ProcessLogReplacesState | src/main/java/com/l2bq/logging/analysis/exporter/applog/AppLogExporter.java:56-66 | After processing a record with lines, nothing of the previously processed record remains |
| AppLogExporters.EmptyRecordKeepsPreviousLines | src/main/java/com/l2bq/logging/analysis/exporter/applog/AppLogExporter.java:60-62 | Processing a record without lines after record `a` leaves the exporter exactly as `a` left it, so all of `a`'s payloads are visited again |
| Json.Get | src/main/java/com/l2bq/logging/analysis/exporter/applog/AppLogExporter.java:87-89 | `get` succeeds exactly when the key is present (`has`), and then answers that member |
| Json.GetObject | src/main/java/com/l2bq/logging/analysis/exporter/applog/AppLogExporter.java:157-159 | `getJSONObject` succeeds exactly when the key is present and its member is an object, and then answers that object |
| Json.GetString | src/main/java/com/l2bq/logging/analysis/exporter/applog/AppLogExporter.java:87-89 | `getString` fails on a missing key, and otherwise answers the string conversion of the member |
| Coercion.ConvertValue | src/main/java/com/l2bq/logging/analysis/exporter/applog/AppLogExporter.java:159-209 | A successful library conversion yields a value of the requested column type |
| Coercion.Coerce | src/main/java/com/l2bq/logging/analysis/exporter/applog/AppLogExporter.java:151-216 | A payload without `data` gives null. A converted member gives its value. An unparsable payload, a non-object `data`, a missing member or a failed conversion gives the type's failure value. The result is always null, the failure value, or a value of the column type |
| Coercion.FailurePolicy | src/main/java/com/l2bq/logging/analysis/exporter/applog/AppLogExporter.java:151-216 | For one and the same failed lookup, integer and float give -1 while string and boolean give null |
| Coercion.NumericNullOnlyWithoutData | src/main/java/com/l2bq/logging/analysis/exporter/applog/AppLogExporter.java:151-182 | An integer or float coercion gives null if and only if the payload parses and has no `data` |
| Fields.ParseType | src/main/java/com/l2bq/logging/analysis/exporter/applog/AppLogExporter.java:230-241 | A type string is recognised exactly when it is the wire name of one of the four column types, and it names that type |
| Fields.ParseTypeName | src/main/java/com/l2bq/logging/analysis/exporter/applog/AppLogExporter.java:230-241 | Every column type's wire name is recognised as that type |
| Fields.FailureValue | src/main/java/com/l2bq/logging/analysis/exporter/applog/AppLogExporter.java:160-196 | A failure gives the -1 sentinel exactly for the numeric types, and null exactly for the others |
| TimestampExporters.FreshReadsZero | src/main/java/com/l2bq/logging/analysis/exporter/http/TimestampFieldExporter.java:25 | Before its first record, the exporter reads 0 under every name, the default of its `long` field |
| TimestampExporters.ProcessLog | src/main/java/com/l2bq/logging/analysis/exporter/http/TimestampFieldExporter.java:28-30 | Stores the record's start time. Its contract is carried by `AnswersLastRecord` |
| TimestampExporters.GetField | src/main/java/com/l2bq/logging/analysis/exporter/http/TimestampFieldExporter.java:33-35 | Answers the stored time under any name. Its contract is carried by `AnswersLastRecord` |
| TimestampExporters.FieldCount | src/main/java/com/l2bq/logging/analysis/exporter/http/TimestampFieldExporter.java:38-40 | Always 1. Its contract is carried by `SchemaIsOneIntegerColumn` |
| TimestampExporters.FieldName | src/main/java/com/l2bq/logging/analysis/exporter/http/TimestampFieldExporter.java:43-45 | "timestamp" at every index. Its contract is carried by `SchemaIsOneIntegerColumn` |
| TimestampExporters.FieldType | src/main/java/com/l2bq/logging/analysis/exporter/http/TimestampFieldExporter.java:48-50 | "integer" at every index. Its contract is carried by `SchemaIsOneIntegerColumn` |
| TimestampExporters.AnswersLastRecord | src/main/java/com/l2bq/logging/analysis/exporter/http/TimestampFieldExporter.java:28-35 | After `processLog(rec)`, every name reads as `rec`'s start time, whatever the exporter held before |
| TimestampExporters.SchemaIsOneIntegerColumn | src/main/java/com/l2bq/logging/analysis/exporter/http/TimestampFieldExporter.java:38-50 | There is one field. At every index, with no bounds check, it is named "timestamp" and its type string names the integer type |
| FieldExporter.ProcessLog | src/main/java/com/l2bq/logging/analysis/BigqueryFieldExporter.java:36-42 | Processing a record never changes which implementation the exporter is, nor the schema published before the first record: `getFieldCount`, and `getFieldName`/`getFieldType` at every index |
| FieldExporter.GetField | src/main/java/com/l2bq/logging/analysis/BigqueryFieldExporter.java:44-54 | The one-row exporter never throws and answers an integer. The application-log exporter answers null for a name it does not declare |
| FieldExporter.FieldCount | src/main/java/com/l2bq/logging/analysis/BigqueryFieldExporter.java:56-59 | The number of columns. `Columns` and the index-consistency lemmas state what it counts |
| FieldExporter.FieldName | src/main/java/com/l2bq/logging/analysis/BigqueryFieldExporter.java:61-67 | Defined exactly over `[0, getFieldCount())` for the application-log exporter, and at every index for the one-row exporter |
| FieldExporter.FieldType | src/main/java/com/l2bq/logging/analysis/BigqueryFieldExporter.java:69-75 | Defined exactly over the field-type array for the application-log exporter. For the one-row exporter it is defined at every index and names the integer type |
| FieldExporter.IsAppLogProcessed | src/main/java/com/l2bq/logging/analysis/BigqueryFieldExporter.java:77-81 | True exactly for the application-log exporter |
| FieldExporter.GetAppLogLines | src/main/java/com/l2bq/logging/analysis/BigqueryFieldExporter.java:83-87 | The application-log exporter answers its kept payloads. The one-row exporter answers null |
| FieldExporter.NextAppLogLine | src/main/java/com/l2bq/logging/analysis/BigqueryFieldExporter.java:89-93 | The one-row exporter always answers false and stays as it is. The application-log exporter answers as its own `nextAppLogLine` |
| FieldExporter.Columns | src/main/java/com/l2bq/logging/analysis/BigqueryFieldExporter.java:56-67 | The column list has `getFieldCount` entries, and entry i is `getFieldName(i)` |
| FieldExporter.AppLogIndexConsistency | src/main/java/com/l2bq/logging/analysis/BigqueryFieldExporter.java:61-75 | `getFieldName` and `getFieldType` are both defined over `[0, getFieldCount())` if and only if there are at least as many types as names |
| FieldExporter.TimestampIndexConsistency | src/main/java/com/l2bq/logging/analysis/BigqueryFieldExporter.java:61-75 | The one-row exporter's name and type accessors are defined over its whole index range |
| FieldExporter.AppLogNullForUndeclaredNames | src/main/java/com/l2bq/logging/analysis/BigqueryFieldExporter.java:44-54 | In every state, the application-log exporter answers null for every name it does not declare |
| FieldExporter.TimestampAnswersUndeclaredNames | src/main/java/com/l2bq/logging/analysis/BigqueryFieldExporter.java:44-54 | The one-row exporter breaks the null-for-invalid-name obligation: an undeclared name reads as the stored timestamp |
| FieldExporter.AnswersFromLatestRecord | src/main/java/com/l2bq/logging/analysis/BigqueryFieldExporter.java:36-45 | `getField` answers from the most recent `processLog`. For the application-log exporter this holds when the later record has lines |
| FieldExporter.ReadRow | src/main/java/com/l2bq/logging/analysis/BigqueryFieldExporter.java:31-32 | One read per column, in order. The row has one value per column, each the read's answer. Otherwise it fails with the exception of the first read that throws. When no read throws, the row succeeds |
| FieldExporter.DriveLinesFollowKeptLines | src/main/java/com/l2bq/logging/analysis/BigqueryFieldExporter.java:89-93 | From a valid cursor, the advance-then-read loop reads one row per kept payload after the cursor, in order, each with the cursor on that payload, as long as no read there throws |
| FieldExporter.LineRowsFollowKeptLines | src/main/java/com/l2bq/logging/analysis/BigqueryFieldExporter.java:24-33 | With a type for every name, the line-oriented rows never throw. There is one row per kept payload after the cursor, and the j-th row is read with the cursor on the j-th such payload |
| FieldExporter.RowOnKeptLine | src/main/java/com/l2bq/logging/analysis/exporter/applog/AppLogExporter.java:225-248 | With a type for every name and the cursor on a kept payload, a whole row reads without an exception |
| FieldExporter.AppLogRowsPerKeptLine | src/main/java/com/l2bq/logging/analysis/BigqueryFieldExporter.java:24-33 | For a record with lines, the application-log exporter emits exactly one row per line its filter keeps, in line order. Row j is read from the j-th kept payload |
| FieldExporter.RowsFor | src/main/java/com/l2bq/logging/analysis/BigqueryFieldExporter.java:24-33 | `processLog`, then one row, or one row per successful `nextAppLogLine`. Its contract is carried by `AppLogRowsPerKeptLine`, `TimestampRowsFor` and `EmptyRecordReplaysPreviousRows` |
| FieldExporter.TimestampRowsFor | src/main/java/com/l2bq/logging/analysis/exporter/http/TimestampFieldExporter.java:28-35 | The one-row exporter emits exactly one row, holding the record's start time |
| FieldExporter.EmptyRecordReplaysPreviousRows | src/main/java/com/l2bq/logging/analysis/exporter/applog/AppLogExporter.java:56-65 | A record without lines, processed after record `a`, yields exactly `a`'s rows again, wherever the cursor was left |
| AppLogSample.SampleLineKept | src/main/java/com/l2bq/logging/analysis/exporter/applog/AppLogExporter.java:33-35 | The documented sample line is kept under type name "login", as its JSON text alone |
| AppLogSample.SampleRecordWalkThrough | src/main/java/com/l2bq/logging/analysis/exporter/applog/AppLogExporter.java:135-216 | Take a record holding the sample line and a library that reads the sample as JSON. Then: the exporter keeps the payload; a read before `nextAppLogLine` throws; after it, `accountId` reads "t4", `playerId` reads 1111, and an undeclared name reads null; a second `nextAppLogLine` answers false |

## Left out

- The org.json library is modelled only in part. Parsing a payload into an object,
  and the `getLong`/`getDouble`/`getString`/`getBoolean` conversions of one value,
  are parameters: each is a partial function in `Json.Library`. The lookups on a
  parsed object are modelled concretely in `Json`: `has` is key membership, `get`
  throws on a missing key, `getJSONObject` throws unless the member is an object,
  and `getString` is `get` followed by the string conversion. Neither the JSON
  grammar nor the numeric ranges are modelled.
- Floating-point values are opaque 64-bit patterns with no arithmetic.
- `getTime` is not modelled. It is sample code that `getField` never reaches.
- The App Engine SDK types `RequestLogs`, `AppLogLine` and `LogLevel` are replaced
  by plain datatypes: an optional line list, an optional message, a level, and a
  start time.
- There is no general regular-expression or `String.split` engine. Only the fixed
  pattern `^.*AppLog\t` is modelled.
- `getAppLogLines` returns the kept payloads as a value. The aliasing of the mutable
  Java list it hands out is not modelled.
- Field names are compared by string equality. The interning mentioned in the
  interface's documentation plays no part.
- The `Integer` and `Long` boxings of the -1 sentinel are one integer value. Java
  `long` values (the start time `startTimeUsec`, and the results of `getLong`) are
  64-bit two's complement, but they are modelled as unbounded `int`. So their
  range and overflow are not modelled.
- `null` field-name or field-type arrays are not modelled, and neither are `null`
  entries in them. On those, `getFieldCount` and `getField` would throw
  `NullPointerException`.
- The type name, field names and field types are fixed configuration of an
  exporter value. The Java fields a subclass assigns are not modelled as mutable.
- Concurrent use of one exporter is not modelled. The exporters are
  single-threaded.
- AppLogExporters.GetField: its own contract states only the null answer for an
  undeclared name. The full scan is stated by `AppLogExporters.GetFieldScan`.
- AppLogFilter.Filter: its own contract bounds only the length. The full
  characterisation is stated by `FilterIsOrderedSelection`, `FilterAppend` and
  `AcceptCharacterisation`.
- MarkerSplit.Split: its own contract states only the shape of the parts. Which
  shape occurs, and where the match ends, is stated by `SplitShape` and
  `PayloadIsTextAfterGreedyMatch`.
- FieldExporter.FieldCount: it has no contract of its own. `Columns`,
  `AppLogIndexConsistency` and `TimestampExporters.SchemaIsOneIntegerColumn`
  state it.
- FieldExporter.RowsFor: it has no contract of its own. `AppLogRowsPerKeptLine`,
  `TimestampRowsFor` and `EmptyRecordReplaysPreviousRows` state it.
- TimestampExporters.ProcessLog: no contract of its own; `AnswersLastRecord` states it.
- TimestampExporters.GetField: no contract of its own; `AnswersLastRecord` and
  `FreshReadsZero` state it.
- TimestampExporters.FieldCount: no contract of its own; `SchemaIsOneIntegerColumn` states it.
- TimestampExporters.FieldName: no contract of its own; `SchemaIsOneIntegerColumn` states it.
- TimestampExporters.FieldType: no contract of its own; `SchemaIsOneIntegerColumn` states it.
