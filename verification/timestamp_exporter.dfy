/**
 * `TimestampFieldExporter`: the one-row exporter that reports the request start
 * time as a single integer field named "timestamp".
 */
module TimestampExporters {
  import opened Wrappers
  import opened LogRecords
  import opened Fields

  /** The stored start time (a Java `long` field, 0 until the first record). */
  datatype TimestampExporter = TimestampExporter(timestamp: int)

  /** A freshly constructed exporter. */
  function Create(): TimestampExporter {
    TimestampExporter(0)
  }

  /** `processLog`: remembers the record's start time and nothing else. */
  function ProcessLog(e: TimestampExporter, rec: RequestLog): TimestampExporter {
    TimestampExporter(rec.startTimeUsec)
  }

  /** `getField`: the stored start time, whatever name is asked for. */
  function GetField(e: TimestampExporter, name: string): FieldValue {
    Long(e.timestamp)
  }

  /** `getFieldCount`: always one field. */
  function FieldCount(e: TimestampExporter): int {
    1
  }

  /** `getFieldName`: "timestamp" for every index; there is no bounds check. */
  function FieldName(e: TimestampExporter, i: int): string {
    "timestamp"
  }

  /** `getFieldType`: "integer" for every index; there is no bounds check. */
  function FieldType(e: TimestampExporter, i: int): string {
    "integer"
  }

  /**
   * Whatever the exporter held, after `processLog(rec)` every `getField` call,
   * under any name, answers the start time of `rec`.
   */
  lemma AnswersLastRecord(e: TimestampExporter, rec: RequestLog, name: string)
    ensures GetField(ProcessLog(e, rec), name) == Long(rec.startTimeUsec)
  {
  }

  /** A fresh exporter reads 0 under every name until its first record, Java's default for a `long` field. */
  lemma FreshReadsZero(name: string)
    ensures GetField(Create(), name) == Long(0)
  {
  }

  /** The schema is the single integer column "timestamp", at every index. */
  lemma SchemaIsOneIntegerColumn(e: TimestampExporter, i: int)
    ensures FieldCount(e) == 1
    ensures FieldName(e, i) == "timestamp"
    ensures ParseType(FieldType(e, i)) == Some(Integer)
  {
  }
}
