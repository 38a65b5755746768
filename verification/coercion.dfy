/**
 * Per-type coercion of one stored payload's `data.<name>` member
 * (`getFieldLong`, `getFieldFloat`, `getFieldString`, `getFieldBoolean`).
 *
 * Each coercer re-parses the payload. A payload without a `data` member gives
 * `null` for every type. Any `JSONException` on the way (the payload does not
 * parse, `data` is not an object, the member is missing or does not convert) is
 * caught and answered with `-1` for integer and float, `null` for string and boolean.
 */
module Coercion {
  import opened Wrappers
  import Json
  import opened Fields

  /**
   * The library conversion for column type `t` (`getLong`, `getDouble`,
   * `getString`, `getBoolean`), tagged with that type: it fails exactly when the
   * library's conversion fails, and otherwise holds the library's value.
   */
  function ConvertValue(lib: Json.Library, t: ColumnType, j: Json.Json): (r: Option<FieldValue>)
    ensures r.Some? ==> HasType(r.value, t)
    ensures t == Integer ==> (r.Some? <==> lib.asLong(j).Some?) && (r.Some? ==> r.value == Long(lib.asLong(j).value))
    ensures t == Float ==> (r.Some? <==> lib.asDouble(j).Some?) && (r.Some? ==> r.value == Dbl(lib.asDouble(j).value))
    ensures t == String ==> (r.Some? <==> lib.asString(j).Some?) && (r.Some? ==> r.value == Str(lib.asString(j).value))
    ensures t == Boolean ==> (r.Some? <==> lib.asBoolean(j).Some?) && (r.Some? ==> r.value == Bool(lib.asBoolean(j).value))
  {
    match t
    case Integer => (match lib.asLong(j) case Some(n) => Some(Long(n)) case None => None)
    case Float => (match lib.asDouble(j) case Some(d) => Some(Dbl(d)) case None => None)
    case String => (match lib.asString(j) case Some(s) => Some(Str(s)) case None => None)
    case Boolean => (match lib.asBoolean(j) case Some(b) => Some(Bool(b)) case None => None)
  }

  /** True when the payload parses but has no `data` member. */
  predicate LacksData(lib: Json.Library, msg: string) {
    lib.parse(msg).Some? && "data" !in lib.parse(msg).value
  }

  /** The raw `data.<name>` member of the payload, when every step of the lookup succeeds. */
  function DataMember(lib: Json.Library, msg: string, name: string): Option<Json.Json> {
    match lib.parse(msg)
    case None => None
    case Some(obj) =>
      match Json.GetObject(obj, "data")
      case None => None
      case Some(data) => Json.Get(data, name)
  }

  /** The value a coercer returns for `data.<name>` of the payload `msg`, declared as `t`. */
  function Coerce(lib: Json.Library, t: ColumnType, msg: string, name: string): (v: FieldValue)
    ensures LacksData(lib, msg) ==> v == Null
    ensures !LacksData(lib, msg) && DataMember(lib, msg, name).Some? ==>
      match ConvertValue(lib, t, DataMember(lib, msg, name).value)
      case Some(x) => v == x
      case None => v == FailureValue(t)
    ensures !LacksData(lib, msg) && DataMember(lib, msg, name).None? ==> v == FailureValue(t)
    ensures v == Null || v == FailureValue(t) || HasType(v, t)
  {
    match lib.parse(msg)
    case None => FailureValue(t)
    case Some(obj) =>
      if !("data" in obj) then Null
      else
        match Json.GetObject(obj, "data")
        case None => FailureValue(t)
        case Some(data) =>
          match Json.Get(data, name)
          case None => FailureValue(t)
          case Some(j) =>
            match ConvertValue(lib, t, j)
            case Some(x) => x
            case None => FailureValue(t)
  }

  /**
   * The failure policy is asymmetric: for one and the same failing lookup the
   * numeric types answer `-1` and the others answer `null`, while a payload
   * without `data` gives `null` for all four.
   */
  lemma FailurePolicy(lib: Json.Library, msg: string, name: string)
    requires !LacksData(lib, msg)
    requires DataMember(lib, msg, name).None?
    ensures Coerce(lib, Integer, msg, name) == Sentinel
    ensures Coerce(lib, Float, msg, name) == Sentinel
    ensures Coerce(lib, String, msg, name) == Null
    ensures Coerce(lib, Boolean, msg, name) == Null
  {
  }

  /** A numeric coercion returns `null` only for a payload without `data`. */
  lemma NumericNullOnlyWithoutData(lib: Json.Library, t: ColumnType, msg: string, name: string)
    requires t.IsNumeric()
    ensures Coerce(lib, t, msg, name) == Null <==> LacksData(lib, msg)
  {
  }
}
