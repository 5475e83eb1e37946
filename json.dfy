/** The JavaScript values that travel as JSON between the browser and the
    server and that Mongoose's `Mixed` type stores as they are: what
    `JSON.parse` returns, JavaScript truthiness, the `a || b` default idiom,
    property reads on a parsed value, and Mongoose's cast of a value to a
    `String` path. Numbers are integers in this model. */
module Json {
  import opened Common

  datatype Value =
    | Null
    | Bool(b: bool)
    | Number(n: int)
    | Str(s: string)
    | Array(items: seq<Value>)
    | Object(members: map<string, Value>)

  const EmptyObject: Value := Object(map[])

  /** JavaScript truthiness: `null`, `false`, `0` and `''` are falsy. */
  predicate Truthy(v: Value) {
    match v
    case Null => false
    case Bool(b) => b
    case Number(n) => n != 0
    case Str(s) => s != ""
    case Array(_) => true
    case Object(_) => true
  }

  /** `a || b` where `a` may be `undefined` (`None`). */
  function OrElse(a: Option<Value>, b: Value): (r: Value)
    ensures a.Some? && Truthy(a.value) ==> r == a.value
    ensures (a.None? || !Truthy(a.value)) ==> r == b
  {
    if a.Some? && Truthy(a.value) then a.value else b
  }

  /** Reading property `key` of a parsed value; `None` is `undefined`.
      Reading a property of `null` throws in JavaScript, so the caller
      handles `Null` before calling. */
  function Property(v: Value, key: string): (r: Option<Value>)
    requires !v.Null?
    ensures r.Some? <==> v.Object? && key in v.members
    ensures r.Some? ==> r.value == v.members[key]
  {
    match v
    case Object(m) => if key in m then Some(m[key]) else None
    case _ => None
  }

  /** The key that an assignment `o[key] = v` on an object literal does not
      create as an own key: it runs the inherited prototype setter, which
      ignores a primitive and makes an object the new prototype. Either way
      neither `Object.keys` nor `JSON.stringify` sees it. */
  const ProtoKey: string := "__proto__"

  /** The own keys of an object literal after `o[key] = v`. */
  function Assign(m: map<string, Value>, key: string, v: Value): map<string, Value>
  {
    if key == ProtoKey then m else m[key := v]
  }

  /** The string a Mongoose document reference stands for: a truthy string
      `_id` property. */
  predicate HasStringId(v: Value) {
    v.Object? && "_id" in v.members && v.members["_id"].Str? && v.members["_id"].s != ""
  }

  /** Mongoose's cast of a value to a `String` path: an object with a
      truthy string `_id` is cast to that `_id` (it is taken for a
      document), then strings stay and numbers and booleans are rendered
      by their own `toString`; arrays and other plain objects are a cast
      error (`None`). `null` stays unset and is not cast here. */
  function CastToString(v: Value): (r: Option<string>)
    ensures v.Str? ==> r == Some(v.s)
    ensures v.Object? ==> (r.Some? <==> HasStringId(v))
    ensures HasStringId(v) ==> r == Some(v.members["_id"].s)
    ensures (v.Array? || v.Null?) ==> r.None?
  {
    match v
    case Str(s) => Some(s)
    case Number(n) => Some(IntToString(n))
    case Bool(b) => Some(if b then "true" else "false")
    case Object(m) => if HasStringId(v) then Some(m["_id"].s) else None
    case _ => None
  }
}
