/** JavaScript values as they travel in event payloads and request bodies,
    with the two JavaScript conversions the handlers rely on: truthiness
    (`!x`) and conversion to text inside a template literal. */
module Json {

  /** A JSON-like JavaScript value. Numbers are integers here; `Obj` is an
      object literal or parsed JSON object. */
  datatype Value =
    | Undefined
    | Null
    | Bool(b: bool)
    | Num(n: int)
    | Str(s: string)
    | Obj(fields: Payload)

  /** A plain JavaScript object: property name to value. */
  type Payload = map<string, Value>

  /** Property access `o.key`; a missing property reads as `undefined`. */
  function Get(o: Payload, key: string): Value
  {
    if key in o then o[key] else Undefined
  }

  /** JavaScript truthiness: `!v` is false exactly when this holds. */
  predicate Truthy(v: Value)
  {
    match v
    case Undefined => false
    case Null => false
    case Bool(b) => b
    case Num(n) => n != 0
    case Str(s) => s != ""
    case Obj(_) => true
  }

  /** The decimal digits of a natural number, most significant first. */
  function Digits(n: nat): string
    decreases n
  {
    if n < 10 then ['0' + n as char] else Digits(n / 10) + ['0' + (n % 10) as char]
  }

  /** Whether `${v}` yields text rather than throwing. An object with an own
      `toString` property that is not a function (JSON cannot carry one) makes
      JavaScript fall back to `valueOf`, which returns the object itself, so the
      conversion throws a TypeError. */
  predicate Interpolable(v: Value)
  {
    !(v.Obj? && "toString" in v.fields)
  }

  /** `${v}` inside a template literal (JavaScript's ToString). */
  function Display(v: Value): string
    requires Interpolable(v)
  {
    match v
    case Undefined => "undefined"
    case Null => "null"
    case Bool(b) => if b then "true" else "false"
    case Num(n) => if n < 0 then "-" + Digits(-n) else Digits(n)
    case Str(s) => s
    case Obj(_) => "[object Object]"
  }
}
