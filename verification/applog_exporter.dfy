/**
 * `AppLogExporter`: the line-oriented exporter. `processLog` keeps the payloads of
 * a record's matching application log lines, a cursor steps through them, and
 * `getField` coerces the current payload's `data.<name>` to the field's declared type.
 *
 * The exporter is a value; each operation returns the exporter as it is after the call.
 */
module AppLogExporters {
  import opened Wrappers
  import Json
  import opened LogRecords
  import opened Fields
  import opened Coercion
  import opened AppLogFilter

  /**
   * The exporter's configuration (JSON library, type name, field names and
   * types, set by a concrete subclass) and its per-record state: the kept
   * payloads `logs` and the cursor `logIndex`, which is -1 before the first line.
   */
  datatype AppLogExporter = AppLogExporter(
    json: Json.Library,
    typeName: string,
    fieldNames: seq<string>,
    fieldTypes: seq<string>,
    logs: seq<string>,
    logIndex: int)

  /** The cursor is -1 or the position of a kept payload. */
  predicate Valid(e: AppLogExporter) {
    -1 <= e.logIndex < |e.logs|
  }

  /**
   * Every field name has a field type at the same index, so `getFieldName` and
   * `getFieldType` are both defined over `[0, getFieldCount())`
   * (`FieldExporter.AppLogIndexConsistency` proves the two conditions equal).
   */
  predicate SchemaConsistent(e: AppLogExporter) {
    |e.fieldNames| <= |e.fieldTypes|
  }

  /** A freshly constructed exporter: no kept payloads, cursor at -1. */
  function Create(json: Json.Library, typeName: string, fieldNames: seq<string>, fieldTypes: seq<string>): (e: AppLogExporter)
    ensures Valid(e) && e.logs == [] && e.logIndex == -1
  {
    AppLogExporter(json, typeName, fieldNames, fieldTypes, [], -1)
  }

  /**
   * `processLog`: the cursor goes back to -1 in every case. A record whose line
   * list is null or empty leaves the previously kept payloads in place; any other
   * record replaces them with the payloads its own lines pass the filter with.
   */
  function ProcessLog(e: AppLogExporter, rec: RequestLog): (e': AppLogExporter)
    ensures e'.logIndex == -1 && Valid(e')
    ensures e' == e.(logs := e'.logs, logIndex := -1)
    ensures HasNoAppLogLines(rec) ==> e'.logs == e.logs
    ensures !HasNoAppLogLines(rec) ==>
      e'.logs == Filter(e.json, e.typeName, rec.appLogLines.value)
  {
    if HasNoAppLogLines(rec) then e.(logIndex := -1)
    else e.(logs := Filter(e.json, e.typeName, rec.appLogLines.value), logIndex := -1)
  }

  /**
   * `nextAppLogLine`: refuses, changing nothing, when the cursor is at or past the
   * last kept payload; otherwise moves the cursor on by one and answers true.
   */
  function NextAppLogLine(e: AppLogExporter): (r: (AppLogExporter, bool))
    ensures !r.1 <==> e.logIndex >= |e.logs| - 1
    ensures !r.1 ==> r.0 == e
    ensures r.1 ==> r.0 == e.(logIndex := e.logIndex + 1)
    ensures Valid(e) ==> Valid(r.0)
  {
    if e.logIndex >= |e.logs| - 1 then (e, false)
    else (e.(logIndex := e.logIndex + 1), true)
  }

  /** The cursor positions visited by calling `nextAppLogLine` until it answers false. */
  function Visited(e: AppLogExporter): seq<int>
    decreases |e.logs| - e.logIndex
  {
    var (e', more) := NextAppLogLine(e);
    if more then [e'.logIndex] + Visited(e') else []
  }

  /**
   * Repeated `nextAppLogLine` calls visit every kept payload after the cursor once,
   * in order; from -1 they answer true exactly `|logs|` times.
   */
  lemma {:induction false} VisitedInOrder(e: AppLogExporter)
    requires Valid(e)
    ensures |Visited(e)| == |e.logs| - 1 - e.logIndex
    ensures forall j :: 0 <= j < |Visited(e)| ==> Visited(e)[j] == e.logIndex + 1 + j
    decreases |e.logs| - e.logIndex
  {
    var (e', more) := NextAppLogLine(e);
    if more {
      VisitedInOrder(e');
    }
  }

  /** The `getFieldName` accessor: the i-th name; out of range, the array access throws. */
  function FieldName(e: AppLogExporter, i: int): (r: Result<string, Thrown>)
    ensures r.Success? <==> 0 <= i < |e.fieldNames|
    ensures r.Success? ==> r.value == e.fieldNames[i]
    ensures r.Failure? ==> r.error == ArrayIndexOutOfBounds(i)
  {
    if 0 <= i < |e.fieldNames| then Success(e.fieldNames[i]) else Failure(ArrayIndexOutOfBounds(i))
  }

  /** The `getFieldType` accessor: the i-th type string; out of range, the array access throws. */
  function FieldType(e: AppLogExporter, i: int): (r: Result<string, Thrown>)
    ensures r.Success? <==> 0 <= i < |e.fieldTypes|
    ensures r.Success? ==> r.value == e.fieldTypes[i]
    ensures r.Failure? ==> r.error == ArrayIndexOutOfBounds(i)
  {
    if 0 <= i < |e.fieldTypes| then Success(e.fieldTypes[i]) else Failure(ArrayIndexOutOfBounds(i))
  }

  /**
   * True when `getField(name)`'s scan stops at field `i`: the name matches and
   * either the type is one of the four recognised ones or reading it throws.
   */
  predicate StopsAt(e: AppLogExporter, name: string, i: int) {
    && 0 <= i < |e.fieldNames|
    && e.fieldNames[i] == name
    && (i >= |e.fieldTypes| || ParseType(e.fieldTypes[i]).Some?)
  }

  /**
   * The typed read of the current payload. The coercers fetch `logs.get(logIndex)`
   * before their `try`, so a cursor outside the kept payloads throws. The exact
   * class depends on the JDK (`ArrayIndexOutOfBoundsException` for -1 on Java 7
   * and 8, `IndexOutOfBoundsException` from Java 9 on); both are an
   * `IndexOutOfBoundsException`, recorded here as `IndexOutOfBounds`.
   */
  function CoerceCurrent(e: AppLogExporter, t: ColumnType, name: string): (r: Result<FieldValue, Thrown>)
    ensures r.Failure? <==> !(0 <= e.logIndex < |e.logs|)
    ensures r.Failure? ==> r.error == IndexOutOfBounds(e.logIndex)
    ensures r.Success? ==> r.value == Coerce(e.json, t, e.logs[e.logIndex], name)
  {
    if 0 <= e.logIndex < |e.logs| then Success(Coerce(e.json, t, e.logs[e.logIndex], name))
    else Failure(IndexOutOfBounds(e.logIndex))
  }

  /** What `getField(name)` does once its scan stops at field `i`. */
  function Dispatch(e: AppLogExporter, name: string, i: int): Result<FieldValue, Thrown>
    requires StopsAt(e, name, i)
  {
    if i >= |e.fieldTypes| then Failure(ArrayIndexOutOfBounds(i))
    else CoerceCurrent(e, ParseType(e.fieldTypes[i]).value, name)
  }

  /** The scan of `getField(name)` from field `from` on. */
  function GetFieldFrom(e: AppLogExporter, name: string, from: nat): (r: Result<FieldValue, Thrown>)
    decreases |e.fieldNames| - from
    ensures (forall i :: from <= i < |e.fieldNames| ==> !StopsAt(e, name, i)) ==> r == Success(Null)
    ensures forall i ::
      from <= i && StopsAt(e, name, i) && (forall j :: from <= j < i ==> !StopsAt(e, name, j))
      ==> r == Dispatch(e, name, i)
  {
    if from >= |e.fieldNames| then Success(Null)
    else if e.fieldNames[from] != name then GetFieldFrom(e, name, from + 1)
    else if from >= |e.fieldTypes| then
      assert StopsAt(e, name, from);
      Failure(ArrayIndexOutOfBounds(from))
    else match ParseType(e.fieldTypes[from])
      case Some(t) =>
        assert StopsAt(e, name, from);
        CoerceCurrent(e, t, name)
      case None => GetFieldFrom(e, name, from + 1)
  }

  /**
   * `getField(name)`: the value of the first field named `name` whose type is
   * recognised, coerced from the current payload; `null` when no such field
   * exists (`GetFieldScan` states the scan in full).
   */
  function GetField(e: AppLogExporter, name: string): (r: Result<FieldValue, Thrown>)
    ensures name !in e.fieldNames ==> r == Success(Null)
  {
    assert name !in e.fieldNames ==> forall i :: 0 <= i < |e.fieldNames| ==> !StopsAt(e, name, i);
    GetFieldFrom(e, name, 0)
  }

  /**
   * `getField(name)` answers `null` when no field named `name` has a recognised
   * type (or an unreadable one), and otherwise does what the first such field calls for.
   */
  lemma GetFieldScan(e: AppLogExporter, name: string)
    ensures (forall i :: 0 <= i < |e.fieldNames| ==> !StopsAt(e, name, i)) ==> GetField(e, name) == Success(Null)
    ensures forall i :: StopsAt(e, name, i) && (forall j :: 0 <= j < i ==> !StopsAt(e, name, j)) ==>
      GetField(e, name) == Dispatch(e, name, i)
  {
  }

  /**
   * With a consistent schema and the cursor on a kept payload, `getField` never
   * throws: it answers `null` when the scan stops nowhere, and otherwise the
   * coercion of the current payload under the first matching recognised type.
   */
  lemma GetFieldTotalOnCurrentLine(e: AppLogExporter, name: string)
    requires SchemaConsistent(e)
    requires 0 <= e.logIndex < |e.logs|
    ensures GetField(e, name).Success?
    ensures (forall i :: 0 <= i < |e.fieldNames| ==> !StopsAt(e, name, i)) ==> GetField(e, name) == Success(Null)
    ensures forall i :: StopsAt(e, name, i) && (forall j :: 0 <= j < i ==> !StopsAt(e, name, j)) ==>
      GetField(e, name) == Success(Coerce(e.json, ParseType(e.fieldTypes[i]).value, e.logs[e.logIndex], name))
  {
    GetFieldScan(e, name);
    forall i | StopsAt(e, name, i) && (forall j :: 0 <= j < i ==> !StopsAt(e, name, j))
      ensures GetField(e, name) == Success(Coerce(e.json, ParseType(e.fieldTypes[i]).value, e.logs[e.logIndex], name))
    {
      assert GetField(e, name) == Dispatch(e, name, i);
    }
    if exists i :: StopsAt(e, name, i) {
      var i := FirstStop(e, name);
      assert GetField(e, name) == Dispatch(e, name, i);
    } else {
      assert GetField(e, name) == Success(Null);
    }
  }

  /** The first field at which `getField(name)`'s scan stops, when there is one. */
  lemma FirstStop(e: AppLogExporter, name: string) returns (i: int)
    requires exists i :: StopsAt(e, name, i)
    ensures StopsAt(e, name, i) && forall j :: 0 <= j < i ==> !StopsAt(e, name, j)
  {
    var k :| StopsAt(e, name, k);
    i := 0;
    while !StopsAt(e, name, i)
      invariant 0 <= i <= k
      invariant forall j :: 0 <= j < i ==> !StopsAt(e, name, j)
      decreases k - i
    {
      i := i + 1;
    }
  }

  /**
   * Before the first `nextAppLogLine` (cursor -1), `getField` on a field it would
   * coerce throws from `logs.get(-1)` instead of answering `null`.
   */
  lemma GetFieldBeforeFirstLineThrows(e: AppLogExporter, name: string)
    requires SchemaConsistent(e)
    requires e.logIndex == -1
    requires exists i :: StopsAt(e, name, i)
    ensures GetField(e, name) == Failure(IndexOutOfBounds(-1))
  {
    GetFieldScan(e, name);
    var i := FirstStop(e, name);
  }

  /** After a fresh `processLog`, no later call sees the previous record's lines unless the new record had none. */
  lemma ProcessLogReplacesState(e: AppLogExporter, a: RequestLog, b: RequestLog)
    requires !HasNoAppLogLines(b)
    ensures ProcessLog(ProcessLog(e, a), b) == ProcessLog(e, b)
  {
  }

  /**
   * A record with a null or empty line list does NOT clear the kept payloads:
   * processing it right after record `a` leaves the exporter exactly as `a` left it,
   * so the next round of `nextAppLogLine` replays `a`'s lines.
   */
  lemma EmptyRecordKeepsPreviousLines(e: AppLogExporter, a: RequestLog, b: RequestLog)
    requires HasNoAppLogLines(b)
    ensures ProcessLog(ProcessLog(e, a), b) == ProcessLog(e, a)
    ensures |Visited(ProcessLog(ProcessLog(e, a), b))| == |ProcessLog(e, a).logs|
  {
    VisitedInOrder(ProcessLog(e, a));
  }
}
