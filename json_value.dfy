/** JSON values, the shape of every instance and schema document. */
module JsonValue {
  import opened Wrappers

  /** A JSON value. Numbers are kept as mathematical reals: nothing in the
      model computes with them. */
  datatype Json =
    | JNull
    | JBool(b: bool)
    | JNum(n: real)
    | JStr(s: string)
    | JArr(items: seq<Json>)
    | JObj(fields: map<string, Json>)

  /** JavaScript's `typeof` on a value that may be `undefined` (`None`).
      Note that `null` and arrays are both reported as "object". */
  function TypeOf(v: Option<Json>): (t: string)
    ensures t == "object" <==> v.Some? && (v.value.JNull? || v.value.JArr? || v.value.JObj?)
    ensures t == "undefined" <==> v.None?
  {
    match v
    case None => "undefined"
    case Some(JNull) => "object"
    case Some(JBool(_)) => "boolean"
    case Some(JNum(_)) => "number"
    case Some(JStr(_)) => "string"
    case Some(JArr(_)) => "object"
    case Some(JObj(_)) => "object"
  }
}
