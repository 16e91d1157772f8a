/** The JSON values a request body or a response body can hold, with the two
    JavaScript operations the handler applies to them: truthiness and property read. */
module Js {
  import opened Wrappers

  /** A JSON value. Numbers are finite (JSON has no NaN), so a real suffices. */
  datatype Value =
    | Null
    | Bool(b: bool)
    | Num(n: real)
    | Str(s: string)
    | Arr(items: seq<Value>)
    | Obj(fields: map<string, Value>)

  /** JavaScript truthiness; `None` is `undefined`. Falsy are exactly
      undefined, null, false, 0 and the empty string. */
  predicate Truthy(v: Option<Value>)
    ensures Truthy(v) <==>
              !(v.None? || v == Some(Null) || v == Some(Bool(false)) || v == Some(Num(0.0)) || v == Some(Str("")))
  {
    match v
    case None => false
    case Some(Null) => false
    case Some(Bool(b)) => b
    case Some(Num(n)) => n != 0.0
    case Some(Str(s)) => s != ""
    case Some(Arr(_)) => true
    case Some(Obj(_)) => true
  }

  /** Reading property `key` of `v`, for an ordinary key (not an array index nor a
      prototype member). Reading a property of undefined or null throws, so the
      caller must exclude those; every other non-object yields undefined. */
  function Get(v: Option<Value>, key: string): (r: Option<Value>)
    requires v.Some? && !v.value.Null?
    ensures r.Some? <==> v.value.Obj? && key in v.value.fields
    ensures r.Some? ==> r.value == v.value.fields[key]
  {
    match v.value
    case Obj(fields) => if key in fields then Some(fields[key]) else None
    case _ => None
  }

  /** `typeof v === 'string'`. */
  predicate IsString(v: Option<Value>) {
    v.Some? && v.value.Str?
  }
}
