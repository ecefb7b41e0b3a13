/** The JavaScript data values that flow through the catalog code: the
    fields of a row, the context of an error frame. Numbers are modelled
    as mathematical integers (prices in cents, ids). */
module Json {
  import opened Wrappers

  datatype Value =
    | Null
    | Bool(b: bool)
    | Num(n: int)
    | Str(s: string)
    | Arr(elems: seq<Value>)
    | Obj(fields: map<string, Value>)

  /** A plain object: field name to value. An absent field is not a key. */
  type Record = map<string, Value>

  /** JavaScript truthiness. */
  predicate Truthy(v: Value) {
    match v
    case Null => false
    case Bool(b) => b
    case Num(n) => n != 0
    case Str(s) => s != ""
    case Arr(_) => true
    case Obj(_) => true
  }

  /** Truthiness of an optional property (`undefined` is falsy). */
  predicate Present(v: Option<Value>) {
    v.Some? && Truthy(v.value)
  }

  /** The field `name` of `r`, or `None` when `r` has no such field. */
  function Get(r: Record, name: string): (v: Option<Value>)
    ensures v.Some? <==> name in r
    ensures v.Some? ==> v.value == r[name]
  {
    if name in r then Some(r[name]) else None
  }

  /** Property names every object literal `{}` inherits from
      `Object.prototype`; reading one of them on an object literal that
      never set it yields a function or an object, never `undefined`. */
  const ObjectPrototypeMembers: set<string> := {
    "constructor", "__proto__", "__defineGetter__", "__defineSetter__",
    "__lookupGetter__", "__lookupSetter__", "hasOwnProperty",
    "isPrototypeOf", "propertyIsEnumerable", "toString", "toLocaleString",
    "valueOf"
  }
}
