/**
 * Column types, field values and the Java exceptions `getField` can let escape.
 */
module Fields {
  import opened Wrappers
  import Json

  /** The BigQuery column types an exporter can declare. */
  datatype ColumnType = Integer | Float | String | Boolean {
    /** True for the two types whose coercion failures give the `-1` sentinel. */
    predicate IsNumeric() {
      this == Integer || this == Float
    }
  }

  /** The wire name of a column type, as written in an exporter's field types. */
  function TypeName(t: ColumnType): string {
    match t
    case Integer => "integer"
    case Float => "float"
    case String => "string"
    case Boolean => "boolean"
  }

  /** The column type a field-type string names, or `None` for any other string. */
  function ParseType(s: string): (r: Option<ColumnType>)
    ensures r.Some? ==> TypeName(r.value) == s
    ensures r.None? ==> forall t :: TypeName(t) != s
  {
    if s == "integer" then Some(Integer)
    else if s == "string" then Some(String)
    else if s == "float" then Some(Float)
    else if s == "boolean" then Some(Boolean)
    else None
  }

  /** Every column type survives the trip through its wire name. */
  lemma ParseTypeName(t: ColumnType)
    ensures ParseType(TypeName(t)) == Some(t)
  {
  }

  /** The value `getField` hands back, a Java `Object` that may be `null`. */
  datatype FieldValue =
    | Null
    | Long(n: int)
    | Dbl(d: Json.Double)
    | Str(s: string)
    | Bool(b: bool)

  /** The `-1` numeric coercions return when they fail. */
  const Sentinel: FieldValue := Long(-1)

  /** True when `v` is a non-null value of column type `t`. */
  predicate HasType(v: FieldValue, t: ColumnType) {
    match t
    case Integer => v.Long?
    case Float => v.Dbl?
    case String => v.Str?
    case Boolean => v.Bool?
  }

  /** What a failed coercion to `t` returns: `-1` for the numeric types, `null` otherwise. */
  function FailureValue(t: ColumnType): (v: FieldValue)
    ensures t.IsNumeric() <==> v == Sentinel
    ensures !t.IsNumeric() <==> v == Null
  {
    if t.IsNumeric() then Sentinel else Null
  }

  /** The Java exceptions that can escape an exporter call. */
  datatype Thrown =
    | IndexOutOfBounds(index: int)       // `List.get` with a bad index; the subclass thrown varies by JDK
    | ArrayIndexOutOfBounds(index: int)  // array access with a bad index
}
