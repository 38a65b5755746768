/**
 * The application log sample from the exporter's documentation, and the
 * walk-through of one record carrying it.
 */
module AppLogSample {
  import opened Wrappers
  import Json
  import opened LogRecords
  import opened MarkerSplit
  import opened Fields
  import opened Coercion
  import opened AppLogFilter
  import opened AppLogExporters

  /**
   * The documented sample line, split at its marker. The payload is written as
   * short concatenated pieces: the verifier reads the characters of a short
   * literal, but not of one this long, so "no tab" is proved piece by piece.
   */
  const SamplePrefix: string := "[l2bq-sample/v1]." + "<stdout>: "
  const SamplePayload: string :=
    "{\"data\":{" + "\"time\":1368673858791," + "\"accountId\":\"t4\","
    + "\"playerId\":1111," + "\"langType\":1," + "\"clientVer\":0,"
    + "\"osType\":0}," + "\"type\":\"login\"}"
  const SampleMessage: string := SamplePrefix + Marker + SamplePayload

  /** The documented sample line is kept under type name "login", as its JSON text alone. */
  lemma SampleLineKept(lib: Json.Library)
    requires TypeMatches(lib, "login", SamplePayload)
    ensures Accept(lib, "login", AppLogLine(Some(SampleMessage), Info)) == Some(SamplePayload)
  {
    SampleSplit();
  }

  /** The sample splits into the empty prefix part and its JSON text. */
  lemma SampleSplit()
    ensures Payload(SampleMessage) == Some(SamplePayload)
    ensures SampleMessage != ""
  {
    SamplePieces();
    SplitOfTaggedLine(SamplePrefix, SamplePayload);
  }

  lemma SamplePieces()
    ensures OneLine(SamplePrefix)
    ensures '\t' !in SamplePayload && SamplePayload != ""
  {
    SamplePrefixOneLine();
    SamplePayloadNoTab();
  }

  lemma SamplePrefixOneLine()
    ensures OneLine(SamplePrefix)
  {
  }

  /** No tab in the payload, proved over pairs of its pieces (see `SamplePayload`). */
  lemma SamplePayloadNoTab()
    ensures '\t' !in SamplePayload
  {
    NoTabInDataPart();
    NoTabInIdPart();
    NoTabInVersionPart();
    NoTabInTypePart();
  }

  lemma NoTabInDataPart()
    ensures '\t' !in "{\"data\":{" + "\"time\":1368673858791,"
  {
    assert '\t' !in "{\"data\":{";
  }

  lemma NoTabInIdPart()
    ensures '\t' !in "\"accountId\":\"t4\"," + "\"playerId\":1111,"
  {
    assert '\t' !in "\"accountId\":\"t4\",";
  }

  lemma NoTabInVersionPart()
    ensures '\t' !in "\"langType\":1," + "\"clientVer\":0,"
  {
    assert '\t' !in "\"langType\":1,";
  }

  lemma NoTabInTypePart()
    ensures '\t' !in "\"osType\":0}," + "\"type\":\"login\"}"
  {
    assert '\t' !in "\"osType\":0},";
  }

  /** The sample payload as a JSON library would parse it. */
  const SampleObject: Json.Object := map[
    "data" := Json.JObject(map[
      "time" := Json.JNumber("1368673858791"),
      "accountId" := Json.JString("t4"),
      "playerId" := Json.JNumber("1111"),
      "langType" := Json.JNumber("1"),
      "clientVer" := Json.JNumber("0"),
      "osType" := Json.JNumber("0")]),
    "type" := Json.JString("login")]

  /** A record whose only application log line is the sample. */
  const SampleRecord: RequestLog := RequestLog(Some([AppLogLine(Some(SampleMessage), Info)]), 0)

  /** The walk-through's exporter, for type "login" with fields accountId (string) and playerId (integer), after the sample record. */
  function SampleExporter(lib: Json.Library): AppLogExporter {
    ProcessLog(Create(lib, "login", ["accountId", "playerId"], ["string", "integer"]), SampleRecord)
  }

  /** True of a JSON library that parses the sample payload as a JSON reader would. */
  predicate ReadsSampleAsDocumented(lib: Json.Library) {
    && lib.parse(SamplePayload) == Some(SampleObject)
    && lib.asString(Json.JString("login")) == Some("login")
    && lib.asString(Json.JString("t4")) == Some("t4")
    && lib.asLong(Json.JNumber("1111")) == Some(1111)
  }

  /**
   * The documented walk-through: the exporter keeps the sample's payload; before
   * the first `nextAppLogLine` a field read throws; after it the fields read "t4"
   * and 1111, an undeclared name reads null; a second `nextAppLogLine` answers false.
   */
  lemma SampleRecordWalkThrough(lib: Json.Library)
    requires ReadsSampleAsDocumented(lib)
    ensures SampleExporter(lib).logs == [SamplePayload]
    ensures GetField(SampleExporter(lib), "accountId") == Failure(IndexOutOfBounds(-1))
    ensures NextAppLogLine(SampleExporter(lib)).1
    ensures GetField(NextAppLogLine(SampleExporter(lib)).0, "accountId") == Success(Str("t4"))
    ensures GetField(NextAppLogLine(SampleExporter(lib)).0, "playerId") == Success(Long(1111))
    ensures GetField(NextAppLogLine(SampleExporter(lib)).0, "time") == Success(Null)
    ensures !NextAppLogLine(NextAppLogLine(SampleExporter(lib)).0).1
  {
    SampleKept(lib);
    var e := SampleExporter(lib);
    assert StopsAt(e, "accountId", 0);
    GetFieldBeforeFirstLineThrows(e, "accountId");
    SampleFirstLine(lib, NextAppLogLine(e).0);
  }

  /** With the cursor on the sample's payload, the two declared fields read as documented. */
  lemma SampleFirstLine(lib: Json.Library, e1: AppLogExporter)
    requires ReadsSampleAsDocumented(lib)
    requires e1 == SampleExporter(lib).(logs := [SamplePayload], logIndex := 0)
    ensures GetField(e1, "accountId") == Success(Str("t4"))
    ensures GetField(e1, "playerId") == Success(Long(1111))
  {
    SampleAccountId(lib, e1);
    SamplePlayerId(lib, e1);
  }

  lemma SampleAccountId(lib: Json.Library, e1: AppLogExporter)
    requires ReadsSampleAsDocumented(lib)
    requires e1 == SampleExporter(lib).(logs := [SamplePayload], logIndex := 0)
    ensures GetField(e1, "accountId") == Success(Str("t4"))
  {
    SampleAccountIdCoerces(lib);
    GetFieldScan(e1, "accountId");
    assert StopsAt(e1, "accountId", 0);
  }

  lemma SamplePlayerId(lib: Json.Library, e1: AppLogExporter)
    requires ReadsSampleAsDocumented(lib)
    requires e1 == SampleExporter(lib).(logs := [SamplePayload], logIndex := 0)
    ensures GetField(e1, "playerId") == Success(Long(1111))
  {
    SamplePlayerIdCoerces(lib);
    GetFieldScan(e1, "playerId");
    assert StopsAt(e1, "playerId", 1) && !StopsAt(e1, "playerId", 0);
  }

  /** Under the parse the walk-through assumes, the sample record keeps exactly its payload. */
  lemma SampleKept(lib: Json.Library)
    requires lib.parse(SamplePayload) == Some(SampleObject)
    requires lib.asString(Json.JString("login")) == Some("login")
    ensures Filter(lib, "login", SampleRecord.appLogLines.value) == [SamplePayload]
  {
    assert Json.GetString(lib, SampleObject, "type") == Some("login");
    SampleLineKept(lib);
    var lines := SampleRecord.appLogLines.value;
    assert lines[..0] == [];
  }

  /** The sample payload's accountId reads as the string "t4". */
  lemma SampleAccountIdCoerces(lib: Json.Library)
    requires lib.parse(SamplePayload) == Some(SampleObject)
    requires lib.asString(Json.JString("t4")) == Some("t4")
    ensures Coerce(lib, String, SamplePayload, "accountId") == Str("t4")
  {
    SampleData();
  }

  /** The sample payload's playerId reads as the integer 1111. */
  lemma SamplePlayerIdCoerces(lib: Json.Library)
    requires lib.parse(SamplePayload) == Some(SampleObject)
    requires lib.asLong(Json.JNumber("1111")) == Some(1111)
    ensures Coerce(lib, Integer, SamplePayload, "playerId") == Long(1111)
  {
    SampleData();
  }

  lemma SampleData()
    ensures "data" in SampleObject && SampleObject["data"].JObject?
    ensures var data := SampleObject["data"].members;
      && "accountId" in data && data["accountId"] == Json.JString("t4")
      && "playerId" in data && data["playerId"] == Json.JNumber("1111")
  {
  }
}
