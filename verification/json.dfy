/**
 * The slice of the org.json library the exporter relies on.
 *
 * The JSON grammar and the number conversions belong to the library and are not
 * modelled: a `Library` value carries them as functions the model never looks
 * inside. What a `JSONObject` does with its keys (`has`, `get`, `getJSONObject`)
 * is plain map lookup and is written out here.
 */
module Json {
  import opened Wrappers

  /** An IEEE-754 double kept as its raw 64 bits; the model does no arithmetic on it. */
  datatype Double = Double(bits: bv64)

  /** A JSON value as held inside a parsed `JSONObject`. */
  datatype Json =
    | JNull
    | JBool(b: bool)
    | JNumber(lexeme: string)
    | JString(s: string)
    | JArray(items: seq<Json>)
    | JObject(members: map<string, Json>)

  /** A parsed JSON object: its members by key. */
  type Object = map<string, Json>

  /**
   * The library operations the exporter calls: `new JSONObject(text)` and the
   * per-type conversions behind `getLong`, `getDouble`, `getString` and
   * `getBoolean`. `None` stands for a thrown `JSONException`.
   */
  datatype Library = Library(
    parse: string -> Option<Object>,
    asLong: Json -> Option<int>,
    asDouble: Json -> Option<Double>,
    asString: Json -> Option<string>,
    asBoolean: Json -> Option<bool>)

  /** `obj.get(key)`: the member, or a `JSONException` when the key is missing. */
  function Get(obj: Object, key: string): (r: Option<Json>)
    ensures r.Some? <==> key in obj
    ensures r.Some? ==> r.value == obj[key]
  {
    if key in obj then Some(obj[key]) else None
  }

  /** `obj.getJSONObject(key)`: the member when it is itself an object. */
  function GetObject(obj: Object, key: string): (r: Option<Object>)
    ensures r.Some? <==> key in obj && obj[key].JObject?
    ensures r.Some? ==> obj[key] == JObject(r.value)
  {
    match Get(obj, key)
    case Some(JObject(members)) => Some(members)
    case _ => None
  }

  /** `obj.getString(key)`: a missing key and a failed conversion both throw. */
  function GetString(lib: Library, obj: Object, key: string): (r: Option<string>)
    ensures key !in obj ==> r.None?
    ensures key in obj ==> r == lib.asString(obj[key])
  {
    match Get(obj, key)
    case Some(v) => lib.asString(v)
    case None => None
  }
}
