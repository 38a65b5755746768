/**
 * The parts of the App Engine `RequestLogs` record the exporters read: the
 * application log lines (message and level) and the request start time.
 */
module LogRecords {
  import opened Wrappers

  /** The App Engine log levels; only `Info` lines carry application records. */
  datatype LogLevel = Debug | Info | Warn | Error | Fatal

  /** One application log line; the message may be `null`. */
  datatype AppLogLine = AppLogLine(message: Option<string>, level: LogLevel)

  /**
   * One request's log record. `appLogLines` may be `null`;
   * `startTimeUsec` is the request start time in microseconds (a Java `long`).
   */
  datatype RequestLog = RequestLog(appLogLines: Option<seq<AppLogLine>>, startTimeUsec: int)

  /** True when the record has no application log lines at all, `null` or empty. */
  predicate HasNoAppLogLines(rec: RequestLog) {
    rec.appLogLines.None? || |rec.appLogLines.value| == 0
  }
}
