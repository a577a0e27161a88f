/** JSON-like values as the shared maps store them, and the equality the write paths use. */
module JsValues {
  /** A stored field value. `Obj` keeps its fields in order; numbers are exact or not finite. */
  datatype Val =
    | Undefined
    | Null
    | Bool(b: bool)
    | Num(n: real)
    | NotFinite(kind: string)
    | Str(s: string)
    | Arr(items: seq<Val>)
    | Obj(fields: seq<Field>)

  datatype Field = Field(name: string, value: Val)

  // ----- field equality -----

  /** What is left of a value after JSON: not-finite numbers and holes are null, undefined fields vanish. */
  function JsonForm(v: Val): Val
    decreases v, 1
  {
    match v
    case NotFinite(_) => Null
    case Arr(items) => Arr(JsonItems(items))
    case Obj(fields) => Obj(JsonFields(fields))
    case _ => v
  }

  function JsonItems(items: seq<Val>): (out: seq<Val>)
    ensures |out| == |items|
    decreases items, 0
  {
    if items == [] then []
    else [if items[0] == Undefined then Null else JsonForm(items[0])] + JsonItems(items[1..])
  }

  function JsonFields(fields: seq<Field>): seq<Field>
    decreases fields, 0
  {
    if fields == [] then []
    else
      (if fields[0].value == Undefined then [] else [Field(fields[0].name, JsonForm(fields[0].value))])
      + JsonFields(fields[1..])
  }

  predicate IsObject(v: Val) {
    v.Arr? || v.Obj?
  }

  /** Equal values, or two objects with the same JSON text. */
  predicate FieldEquals(a: Val, b: Val) {
    a == b || (IsObject(a) && IsObject(b) && JsonForm(a) == JsonForm(b))
  }

  predicate IsInteger(v: Val) {
    v.Num? && v.n == v.n.Floor as real
  }
}
