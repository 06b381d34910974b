/** The JavaScript values that cross the boundary between the session store
    and its callers: results of calls, payloads handed to listeners, and the
    fields a caller reads back by name. */
module JsValue {

  /** A JavaScript value. Objects are plain records: a map from property name
      to value. Numbers are never inspected by the modelled code, so a `Num`
      is only carried along. */
  datatype Value =
    | Undefined
    | Null
    | Bool(b: bool)
    | Num(n: real)
    | Str(s: string)
    | Obj(fields: map<string, Value>)

  /** JavaScript truthiness (`if (v)`, `!v`). NaN is not modelled. */
  predicate Truthy(v: Value) {
    match v
    case Undefined => false
    case Null => false
    case Bool(b) => b
    case Num(n) => n != 0.0
    case Str(s) => s != ""
    case Obj(_) => true
  }

  /** Property access `v.key` on a value that is neither `undefined` nor
      `null` (those would throw a TypeError), for the plain data properties
      the model reads (`success`, `rideId`, `id`, `status`): a missing one
      reads as `undefined`, and so does each of them on a primitive. Built-in
      properties such as a string's `length` are not modelled. */
  function Get(v: Value, key: string): Value
    requires !v.Undefined? && !v.Null?
  {
    if v.Obj? && key in v.fields then v.fields[key] else Undefined
  }
}
