/**
 * The `BigqueryFieldExporter` contract, over its two implementations.
 *
 * Each exporter first exposes a schema (`getFieldCount`, `getFieldName`,
 * `getFieldType`). Then, for each record, `processLog` is called, and the
 * exporter's rows are read with one `getField` call per field: a single row for
 * a one-row exporter, and for an application-log exporter one row per
 * successful `nextAppLogLine`.
 */
module FieldExporter {
  import opened Wrappers
  import opened LogRecords
  import opened Fields
  import opened AppLogFilter
  import A = AppLogExporters
  import T = TimestampExporters

  /** An exporter: one of the two implementations of the contract. */
  datatype Exporter = AppLog(app: A.AppLogExporter) | Timestamp(ts: T.TimestampExporter)

  /**
   * `processLog`, dispatched. The implementation never changes, and neither does
   * the schema published before the first record.
   */
  function ProcessLog(x: Exporter, rec: RequestLog): (x': Exporter)
    ensures x'.AppLog? <==> x.AppLog?
    ensures FieldCount(x') == FieldCount(x)
    ensures forall i :: FieldName(x', i) == FieldName(x, i) && FieldType(x', i) == FieldType(x, i)
  {
    match x
    case AppLog(e) => AppLog(A.ProcessLog(e, rec))
    case Timestamp(t) => Timestamp(T.ProcessLog(t, rec))
  }

  /** `getField`, dispatched; a thrown exception is a `Failure`. */
  function GetField(x: Exporter, name: string): (r: Result<FieldValue, Thrown>)
    ensures x.Timestamp? ==> r.Success? && r.value.Long?
    ensures x.AppLog? && name !in x.app.fieldNames ==> r == Success(Null)
  {
    match x
    case AppLog(e) => A.GetField(e, name)
    case Timestamp(t) => Success(T.GetField(t, name))
  }

  /** `getFieldCount`, dispatched. */
  function FieldCount(x: Exporter): int {
    match x
    case AppLog(e) => |e.fieldNames|
    case Timestamp(t) => T.FieldCount(t)
  }

  /** `getFieldName`, dispatched; an index out of range may throw. */
  function FieldName(x: Exporter, i: int): (r: Result<string, Thrown>)
    ensures r.Success? <==> x.Timestamp? || 0 <= i < FieldCount(x)
  {
    match x
    case AppLog(e) => A.FieldName(e, i)
    case Timestamp(t) => Success(T.FieldName(t, i))
  }

  /** `getFieldType`, dispatched; an index out of range may throw. */
  function FieldType(x: Exporter, i: int): (r: Result<string, Thrown>)
    ensures x.AppLog? ==> (r.Success? <==> 0 <= i < |x.app.fieldTypes|)
    ensures x.Timestamp? ==> r.Success? && ParseType(r.value) == Some(Integer)
  {
    match x
    case AppLog(e) => A.FieldType(e, i)
    case Timestamp(t) => Success(T.FieldType(t, i))
  }

  /** `isAppLogProcessed`: true exactly for the application-log exporter. */
  function IsAppLogProcessed(x: Exporter): (r: bool)
    ensures r <==> x.AppLog?
  {
    match x
    case AppLog(_) => true
    case Timestamp(_) => false
  }

  /** `getAppLogLines`: the kept payloads, or `null` for the one-row exporter. */
  function GetAppLogLines(x: Exporter): (r: Option<seq<string>>)
    ensures r.Some? <==> x.AppLog?
    ensures x.AppLog? ==> r.value == x.app.logs
  {
    match x
    case AppLog(e) => Some(e.logs)
    case Timestamp(_) => None
  }

  /** `nextAppLogLine`, dispatched; the one-row exporter always answers false. */
  function NextAppLogLine(x: Exporter): (r: (Exporter, bool))
    ensures x.Timestamp? ==> r == (x, false)
    ensures r.0.AppLog? <==> x.AppLog?
    ensures x.AppLog? ==> r == (AppLog(A.NextAppLogLine(x.app).0), A.NextAppLogLine(x.app).1)
  {
    match x
    case AppLog(e) => var (e', more) := A.NextAppLogLine(e); (AppLog(e'), more)
    case Timestamp(_) => (x, false)
  }

  // ---------------------------------------------------------------------------
  // The obligations the contract documents

  /** True when `name` is one of the exporter's declared field names. */
  predicate Declares(x: Exporter, name: string) {
    exists i :: 0 <= i < FieldCount(x) && FieldName(x, i) == Success(name)
  }

  /** `getFieldName` and `getFieldType` are both defined over the same index range. */
  predicate IndexConsistent(x: Exporter) {
    forall i :: 0 <= i < FieldCount(x) ==> FieldName(x, i).Success? && FieldType(x, i).Success?
  }

  /** `getField` answers `null` for every name the exporter does not declare. */
  ghost predicate NullForUndeclaredNames(x: Exporter) {
    forall name :: !Declares(x, name) ==> GetField(x, name) == Success(Null)
  }

  /** The application-log exporter is index-consistent exactly when it has a type per name. */
  lemma AppLogIndexConsistency(e: A.AppLogExporter)
    ensures IndexConsistent(AppLog(e)) <==> |e.fieldNames| <= |e.fieldTypes|
  {
    if |e.fieldTypes| < |e.fieldNames| {
      assert FieldType(AppLog(e), |e.fieldTypes|).Failure?;
    }
  }

  /** The one-row exporter is index-consistent. */
  lemma TimestampIndexConsistency(t: T.TimestampExporter)
    ensures IndexConsistent(Timestamp(t))
  {
  }

  /** The application-log exporter answers `null` for undeclared names, in every state. */
  lemma AppLogNullForUndeclaredNames(e: A.AppLogExporter)
    ensures NullForUndeclaredNames(AppLog(e))
  {
    forall name | !Declares(AppLog(e), name) ensures GetField(AppLog(e), name) == Success(Null) {
      forall i | 0 <= i < |e.fieldNames| ensures e.fieldNames[i] != name {
        assert FieldName(AppLog(e), i) == Success(e.fieldNames[i]);
      }
    }
  }

  /** The one-row exporter breaks that obligation: it answers every name with the timestamp. */
  lemma TimestampAnswersUndeclaredNames(t: T.TimestampExporter)
    ensures !Declares(Timestamp(t), "no-such-field")
    ensures GetField(Timestamp(t), "no-such-field") == Success(Long(t.timestamp))
    ensures !NullForUndeclaredNames(Timestamp(t))
  {
    assert !Declares(Timestamp(t), "no-such-field");
  }

  /**
   * `getField` answers from the most recent `processLog`: once a record with
   * application log lines (or any record, for the one-row exporter) has been
   * processed, what was processed before it is no longer observable.
   */
  lemma AnswersFromLatestRecord(x: Exporter, a: RequestLog, b: RequestLog, name: string)
    requires x.AppLog? ==> !HasNoAppLogLines(b)
    ensures ProcessLog(ProcessLog(x, a), b) == ProcessLog(x, b)
    ensures GetField(ProcessLog(ProcessLog(x, a), b), name) == GetField(ProcessLog(x, b), name)
  {
  }

  // ---------------------------------------------------------------------------
  // The row protocol

  /** The exporter's field names in schema order. */
  function Columns(x: Exporter): (names: seq<string>)
    ensures |names| == FieldCount(x)
    ensures forall i :: 0 <= i < |names| ==> FieldName(x, i) == Success(names[i])
  {
    match x
    case AppLog(e) => e.fieldNames
    case Timestamp(t) => [T.FieldName(t, 0)]
  }

  /**
   * One read per name, in order: the row of values, or the exception of the
   * first read that throws.
   */
  function ReadRow(read: string -> Result<FieldValue, Thrown>, names: seq<string>): (r: Result<seq<FieldValue>, Thrown>)
    ensures r.Success? ==> |r.value| == |names|
    ensures r.Success? ==> forall k :: 0 <= k < |names| ==> read(names[k]) == Success(r.value[k])
    ensures r.Failure? ==> exists k :: 0 <= k < |names| && read(names[k]) == Failure(r.error)
                                      && forall j :: 0 <= j < k ==> read(names[j]).Success?
    ensures (forall k :: 0 <= k < |names| ==> read(names[k]).Success?) ==> r.Success?
  {
    if |names| == 0 then Success([])
    else
      var head := read(names[0]);
      var tail := ReadRow(read, names[1..]);
      if head.Failure? then Failure(head.error)
      else if tail.Failure? then Failure(tail.error)
      else Success([head.value] + tail.value)
  }

  /** One row: one `getField` per field of the schema, from the exporter's current state. */
  function Row(x: Exporter): Result<seq<FieldValue>, Thrown> {
    ReadRow(name => GetField(x, name), Columns(x))
  }

  /** How many more times `nextAppLogLine` can answer true. */
  function Remaining(x: Exporter): nat {
    match x
    case AppLog(e) => if e.logIndex < |e.logs| - 1 then |e.logs| - 1 - e.logIndex else 0
    case Timestamp(_) => 0
  }

  /**
   * Rows of a line-oriented exporter: advance, read a row with `row`, and repeat
   * until `nextAppLogLine` answers false; the first exception ends the rows.
   */
  function DriveLines(x: Exporter, row: Exporter -> Result<seq<FieldValue>, Thrown>): Result<seq<seq<FieldValue>>, Thrown>
    decreases Remaining(x)
  {
    var step := NextAppLogLine(x);
    if !step.1 then Success([])
    else
      var current := row(step.0);
      var rest := DriveLines(step.0, row);
      if current.Failure? then Failure(current.error)
      else if rest.Failure? then Failure(rest.error)
      else Success([current.value] + rest.value)
  }

  /** The rows of a line-oriented exporter, one `getField` per field for each line. */
  function LineRows(x: Exporter): Result<seq<seq<FieldValue>>, Thrown> {
    DriveLines(x, Row)
  }

  /** The rows one record yields: `processLog`, then one row, or one row per kept line. */
  function RowsFor(x: Exporter, rec: RequestLog): Result<seq<seq<FieldValue>>, Thrown> {
    var x' := ProcessLog(x, rec);
    if IsAppLogProcessed(x') then LineRows(x')
    else
      match Row(x')
      case Failure(err) => Failure(err)
      case Success(row) => Success([row])
  }

  /**
   * Driving the lines from a valid cursor reads one row per kept payload after
   * the cursor, in order, each with the cursor on that payload, as long as no
   * such read throws.
   */
  lemma {:induction false} DriveLinesFollowKeptLines(e: A.AppLogExporter, row: Exporter -> Result<seq<FieldValue>, Thrown>)
    requires A.Valid(e)
    requires forall c :: e.logIndex < c < |e.logs| ==> row(AppLog(e.(logIndex := c))).Success?
    ensures DriveLines(AppLog(e), row).Success?
    ensures |DriveLines(AppLog(e), row).value| == |e.logs| - 1 - e.logIndex
    ensures forall j :: 0 <= j < |DriveLines(AppLog(e), row).value| ==>
      row(AppLog(e.(logIndex := e.logIndex + 1 + j))) == Success(DriveLines(AppLog(e), row).value[j])
    decreases |e.logs| - e.logIndex
  {
    if e.logIndex < |e.logs| - 1 {
      var e' := e.(logIndex := e.logIndex + 1);
      assert NextAppLogLine(AppLog(e)) == (AppLog(e'), true);
      assert forall c :: e'.logIndex < c < |e'.logs| ==> e'.(logIndex := c) == e.(logIndex := c);
      DriveLinesFollowKeptLines(e', row);
      var rest := DriveLines(AppLog(e'), row).value;
      var rows := DriveLines(AppLog(e), row).value;
      assert rows == [row(AppLog(e')).value] + rest;
      forall j | 0 <= j < |rows|
        ensures row(AppLog(e.(logIndex := e.logIndex + 1 + j))) == Success(rows[j])
      {
        if j > 0 {
          assert e'.(logIndex := e'.logIndex + 1 + (j - 1)) == e.(logIndex := e.logIndex + 1 + j);
        }
      }
    }
  }

  /**
   * From any valid cursor, with a consistent schema, the line-oriented rows are
   * one per kept payload after the cursor, in order, the j-th read with the
   * cursor on that payload.
   */
  lemma LineRowsFollowKeptLines(e: A.AppLogExporter)
    requires A.Valid(e) && A.SchemaConsistent(e)
    ensures LineRows(AppLog(e)).Success?
    ensures |LineRows(AppLog(e)).value| == |e.logs| - 1 - e.logIndex
    ensures forall j :: 0 <= j < |LineRows(AppLog(e)).value| ==>
      Row(AppLog(e.(logIndex := e.logIndex + 1 + j))) == Success(LineRows(AppLog(e)).value[j])
  {
    forall c | e.logIndex < c < |e.logs| ensures Row(AppLog(e.(logIndex := c))).Success? {
      RowOnKeptLine(e.(logIndex := c));
    }
    DriveLinesFollowKeptLines(e, Row);
  }

  /** With a consistent schema and the cursor on a kept payload, reading a row never throws. */
  lemma RowOnKeptLine(e: A.AppLogExporter)
    requires A.SchemaConsistent(e)
    requires 0 <= e.logIndex < |e.logs|
    ensures Row(AppLog(e)).Success?
  {
    var names := Columns(AppLog(e));
    forall k | 0 <= k < |names| ensures GetField(AppLog(e), names[k]).Success? {
      A.GetFieldTotalOnCurrentLine(e, names[k]);
    }
  }

  /**
   * For a record with application log lines, the application-log exporter emits
   * exactly one row per kept line, in line order, each read from that line's payload.
   */
  lemma AppLogRowsPerKeptLine(e: A.AppLogExporter, rec: RequestLog)
    requires A.SchemaConsistent(e)
    requires !HasNoAppLogLines(rec)
    ensures RowsFor(AppLog(e), rec).Success?
    ensures |RowsFor(AppLog(e), rec).value| == |Filter(e.json, e.typeName, rec.appLogLines.value)|
    ensures forall j :: 0 <= j < |RowsFor(AppLog(e), rec).value| ==>
      Row(AppLog(A.ProcessLog(e, rec).(logIndex := j))) == Success(RowsFor(AppLog(e), rec).value[j])
  {
    var e1 := A.ProcessLog(e, rec);
    assert ProcessLog(AppLog(e), rec) == AppLog(e1);
    assert RowsFor(AppLog(e), rec) == LineRows(AppLog(e1));
    LineRowsFollowKeptLines(e1);
    assert forall j :: e1.(logIndex := e1.logIndex + 1 + j) == e1.(logIndex := j);
  }

  /** The one-row exporter yields exactly one row holding the record's start time. */
  lemma TimestampRowsFor(t: T.TimestampExporter, rec: RequestLog)
    ensures RowsFor(Timestamp(t), rec) == Success([[Long(rec.startTimeUsec)]])
  {
    var x := Timestamp(T.ProcessLog(t, rec));
    assert Columns(x) == ["timestamp"];
    assert GetField(x, "timestamp") == Success(Long(rec.startTimeUsec));
    assert Row(x).value == [Long(rec.startTimeUsec)];
  }

  /**
   * A record with a null or empty line list replays the previous record's rows,
   * wherever the previous round of `nextAppLogLine` left the cursor: `processLog`
   * returns before clearing the kept payloads.
   */
  lemma EmptyRecordReplaysPreviousRows(e: A.AppLogExporter, a: RequestLog, b: RequestLog, cursor: int)
    requires HasNoAppLogLines(b)
    ensures RowsFor(AppLog(A.ProcessLog(e, a).(logIndex := cursor)), b) == RowsFor(AppLog(e), a)
  {
    assert A.ProcessLog(A.ProcessLog(e, a).(logIndex := cursor), b) == A.ProcessLog(e, a);
  }
}
