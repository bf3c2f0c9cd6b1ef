/**
 * The few JavaScript values the client's route guards read out of props,
 * context values and responses, with JavaScript's truthiness and property
 * lookup (a missing property reads as `undefined`).
 */
module JsValues {

  datatype JsValue =
    | Undefined
    | Null
    | Bool(b: bool)
    | Str(s: string)
    | StrArray(items: seq<string>)
    /** An object standing for a session user; `role` is `undefined` when absent. */
    | UserObject(role: JsValue)

  /** `!!v`. Every array and every object is truthy, even an empty one. */
  predicate Truthy(v: JsValue)
  {
    match v
    case Undefined => false
    case Null => false
    case Bool(b) => b
    case Str(s) => s != ""
    case StrArray(_) => true
    case UserObject(_) => true
  }

  /** An object as the map from its own keys to their values. */
  type JsObject = map<string, JsValue>

  /** `obj[key]`. */
  function Get(obj: JsObject, key: string): (v: JsValue)
    ensures key !in obj ==> v == Undefined
    ensures key in obj ==> v == obj[key]
  {
    if key in obj then obj[key] else Undefined
  }

  /** String conversion (`String(v)`), which `String.prototype.includes` applies to its argument. */
  function ToString(v: JsValue): string
  {
    match v
    case Undefined => "undefined"
    case Null => "null"
    case Bool(b) => if b then "true" else "false"
    case Str(s) => s
    case StrArray(items) => Join(items)
    case UserObject(_) => "[object Object]"
  }

  /** `items.join(",")`, which is what an array of strings converts to. */
  function Join(items: seq<string>): string
  {
    if items == [] then "" else if |items| == 1 then items[0] else items[0] + "," + Join(items[1..])
  }

  /** `a || b`: the first operand when it is truthy, otherwise the second. */
  function Or(a: JsValue, b: JsValue): (r: JsValue)
    ensures Truthy(a) ==> r == a
    ensures !Truthy(a) ==> r == b
  {
    if Truthy(a) then a else b
  }

  /** `v.role` read off a value that is not `null` or `undefined`: only a user object has one. */
  function RoleOf(v: JsValue): JsValue
  {
    if v.UserObject? then v.role else Undefined
  }
}
