/** The JavaScript values the orchestration core inspects, and the small
    failure-carrying wrappers used throughout the model. */
module Values {

  datatype Option<T> = None | Some(value: T)

  /** A computation that either yields a value or throws with a message. */
  datatype Result<T> = Ok(value: T) | Err(error: string)

  /** A JSON-like JavaScript value. Numbers are integers in this model. */
  datatype Value =
    | Null
    | Bool(b: bool)
    | Num(n: int)
    | Str(s: string)
    | List(items: seq<Value>)
    | Obj(fields: map<string, Value>)

  /** The data bag that flows through a run: a plain object. */
  type Bag = map<string, Value>

  /** JavaScript truthiness: false, 0, "" and null are falsy; every array and
      object, even an empty one, is truthy. */
  predicate Truthy(v: Value) {
    match v
    case Null => false
    case Bool(b) => b
    case Num(n) => n != 0
    case Str(s) => s != ""
    case List(_) => true
    case Obj(_) => true
  }

  /** Optional-chaining property read `v?.[k]`: `None` stands for `undefined`. */
  function Get(v: Option<Value>, k: string): (r: Option<Value>)
    ensures r.Some? <==> v.Some? && v.value.Obj? && k in v.value.fields
  {
    if v.Some? && v.value.Obj? && k in v.value.fields then Some(v.value.fields[k]) else None
  }

  /** `x || null`: a truthy value is kept, anything else (undefined included) becomes null. */
  function OrNull(v: Option<Value>): (r: Value)
    ensures Truthy(r) || r == Null
    ensures v.Some? && Truthy(v.value) ==> r == v.value
  {
    if v.Some? && Truthy(v.value) then v.value else Null
  }
}
