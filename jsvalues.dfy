/** JavaScript values as they occur in the adapter's options objects. */
module JsValues {
  import opened Assoc

  /** A JavaScript value; numbers are restricted to integers (no NaN). */
  datatype JsValue =
    | Null
    | Bool(b: bool)
    | Num(n: int)
    | Str(s: string)
    | Arr(items: seq<JsValue>)
    | Obj(fields: Assoc<JsValue>)

  /** JavaScript truthiness of a property read; `None` is `undefined`. */
  predicate Truthy(v: Option<JsValue>)
  {
    match v
    case None => false
    case Some(Null) => false
    case Some(Bool(b)) => b
    case Some(Num(n)) => n != 0
    case Some(Str(s)) => s != ""
    case Some(_) => true
  }

  /** Member read `v.k` on a value that is neither `null` nor `undefined`;
      only plain objects have own properties in this model. */
  function Member(v: JsValue, k: string): Option<JsValue>
  {
    if v.Obj? then Lookup(v.fields, k) else None
  }

  /** The entries `...v` copies into an object literal: an object's own
      entries; `undefined`, `null`, booleans and numbers copy nothing. */
  function OwnEntries(v: Option<JsValue>): Assoc<JsValue>
  {
    if v.Some? && v.value.Obj? then v.value.fields else []
  }
}
