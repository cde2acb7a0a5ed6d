/**
 * The loosely-typed value tree that `JSON.parse` yields, extended with the
 * `undefined` that JavaScript property access produces, together with
 * truthiness, the `||` operator, and the `.` and `?.` property accessors.
 */
module JsValue {
  import opened Wrappers

  datatype Value =
    | Undefined
    | Null
    | Bool(b: bool)
    | Num(n: real)
    | Str(s: string)
    | Arr(items: seq<Value>)
    | Obj(fields: map<string, Value>)

  /** `null` or `undefined`: reading a property of either throws a TypeError. */
  predicate Nullish(v: Value) {
    v.Undefined? || v.Null?
  }

  /** JavaScript truthiness. An empty string, `false`, `0`, `null` and `undefined`
      are falsy; every array and object, even an empty one, is truthy. */
  predicate Truthy(v: Value)
    ensures Truthy(v) ==> !Nullish(v)
  {
    match v
    case Undefined => false
    case Null => false
    case Bool(b) => b
    case Num(n) => n != 0.0
    case Str(s) => s != ""
    case Arr(_) => true
    case Obj(_) => true
  }

  /** `a || b`: yields `a` itself when it is truthy, otherwise `b`. */
  function Or(a: Value, b: Value): (r: Value)
    ensures Truthy(a) ==> r == a
    ensures !Truthy(a) ==> r == b
    ensures Truthy(r) <==> Truthy(a) || Truthy(b)
  {
    if Truthy(a) then a else b
  }

  /** The own property `key` of a non-nullish value; `undefined` when absent.
      Strings, numbers, booleans and arrays have no own property under the
      keys the pipeline reads. */
  function Get(v: Value, key: string): (r: Value)
    requires !Nullish(v)
    ensures v.Obj? && key in v.fields ==> r == v.fields[key]
    ensures !(v.Obj? && key in v.fields) ==> r == Undefined
  {
    match v
    case Obj(fields) => if key in fields then fields[key] else Undefined
    case _ => Undefined
  }

  /** `v.key`: `None` stands for the TypeError thrown when `v` is nullish. */
  function Access(v: Value, key: string): (r: Option<Value>)
    ensures r.None? <==> Nullish(v)
    ensures r.Some? ==> r.value == Get(v, key)
  {
    if Nullish(v) then None else Some(Get(v, key))
  }

  /** `v?.key`: `undefined` when `v` is nullish, otherwise the property. */
  function OptionalAccess(v: Value, key: string): (r: Value)
    ensures Nullish(v) ==> r == Undefined
    ensures !Nullish(v) ==> r == Get(v, key)
  {
    if Nullish(v) then Undefined else Get(v, key)
  }
}
