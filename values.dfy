/** The JavaScript values the server takes out of a parsed envelope and uses
    as user ids, room ids and map keys. */
module JsValues {

  /** Identity of one WebSocket connection: the `ws` object handed to the
      `connection` handler. Two ids are equal exactly when they denote the
      same socket. */
  type ConnId = nat

  /** A field of a parsed envelope. `Undefined` is a field the envelope does
      not carry; `Null` is also the initial value of a connection's binding.
      JavaScript's `Map` compares keys with SameValueZero, which on these
      cases is structural equality. */
  datatype Value =
    | Undefined
    | Null
    | Bool(b: bool)
    | Num(n: int)
    | Str(s: string)

  /** The falsy values among these: JavaScript's `undefined`, `null`,
      `false`, `0` and `""`. */
  const Falsy: set<Value> := {Undefined, Null, Bool(false), Num(0), Str("")}

  /** JavaScript truthiness, as used by the guard of `cleanup()`. */
  predicate Truthy(v: Value): (t: bool)
    ensures !t <==> v in Falsy
  {
    match v
    case Undefined => false
    case Null => false
    case Bool(b) => b
    case Num(n) => n != 0
    case Str(s) => s != ""
  }
}
