/**
 * JavaScript values as the storage service handles them, JavaScript's
 * truthiness and nullishness (the `||` and `??` fallbacks), and JSON as a pair
 * of functions with the laws the service relies on. JSON text itself is not
 * modelled: any pair of functions that obeys `Codec.Lawful` will do.
 */
module Json {
  import opened Wrappers

  /** A JavaScript value. Numbers are modelled as integers. */
  datatype Value =
    | Undefined
    | Null
    | Str(s: string)
    | Bool(b: bool)
    | Num(n: int)
    | Arr(items: seq<Value>)
    | Obj(fields: map<string, Value>)

  /** JavaScript truthiness: `undefined`, `null`, `false`, `0` and `""` are falsy. */
  predicate Truthy(v: Value) {
    match v
    case Undefined => false
    case Null => false
    case Str(s) => s != ""
    case Bool(b) => b
    case Num(n) => n != 0
    case _ => true
  }

  /** The values that `??` replaces. */
  predicate Nullish(v: Value) {
    v.Undefined? || v.Null?
  }

  /** `a || b` */
  function Or(a: Value, b: Value): Value {
    if Truthy(a) then a else b
  }

  /** `a ?? b` */
  function Coalesce(a: Value, b: Value): Value {
    if Nullish(a) then b else a
  }

  /** A value that JSON represents exactly: no `undefined` anywhere inside it. */
  predicate IsJson(v: Value) {
    match v
    case Undefined => false
    case Arr(items) => forall i :: 0 <= i < |items| ==> IsJson(items[i])
    case Obj(fields) => forall k :: k in fields ==> IsJson(fields[k])
    case _ => true
  }

  /** `JSON.stringify` and `JSON.parse`; `parse` answers `None` where `JSON.parse` throws. */
  datatype Codec = Codec(stringify: Value -> string, parse: string -> Option<Value>) {
    /**
     * The laws of JSON the service depends on: the text of a JSON value is never
     * empty and parses back to that value, and whatever parses is a JSON value.
     */
    ghost predicate Lawful() {
      && (forall v :: IsJson(v) ==> stringify(v) != "" && parse(stringify(v)) == Some(v))
      && (forall text :: parse(text).Some? ==> IsJson(parse(text).value))
    }
  }
}
