/**
 * JSON-like values as the client keeps the signed-in user and as the server
 * stores user preferences, with the object spread `{ ...a, ...b }`.
 */
module Json {

  datatype Value =
    | Null
    | Bool(b: bool)
    | Num(n: int)
    | Str(s: string)
    | Obj(fields: map<string, Value>)

  /** The properties `...v` contributes: an object's own fields, nothing for `null` or a scalar. */
  function Fields(v: Value): map<string, Value> {
    if v.Obj? then v.fields else map[]
  }

  /**
   * `{ ...a, ...b }`: every key of either side, the value from `b` where both
   * have the key.
   */
  function Spread(a: map<string, Value>, b: map<string, Value>): (r: map<string, Value>)
    ensures r.Keys == a.Keys + b.Keys
    ensures forall k :: k in b ==> r[k] == b[k]
    ensures forall k :: k in a && k !in b ==> r[k] == a[k]
  {
    a + b
  }

  /** `v?.[key]`: the field when `v` is an object that has it. */
  function Get(v: Value, key: string): (r: Value)
    ensures v.Obj? && key in v.fields ==> r == v.fields[key]
    ensures !(v.Obj? && key in v.fields) ==> r == Null
  {
    if v.Obj? && key in v.fields then v.fields[key] else Null
  }
}
