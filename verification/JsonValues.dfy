/** JSON values, as a request body or a response carries them. */
module JsonValues {

  datatype Option<+T> = None | Some(value: T)

  datatype Json =
    | Null
    | Bool(b: bool)
    | Num(n: real)
    | Str(s: string)
    | Arr(items: seq<Json>)
    | Obj(fields: map<string, Json>)

  predicate Integral(n: real) {
    n == n.Floor as real
  }

  /** The `type` keyword of JSON Schema (section 6.1.1 of the Validation draft 2020-12). */
  predicate HasType(name: string, v: Json) {
    match v
    case Null => name == "null"
    case Bool(_) => name == "boolean"
    case Num(n) => name == "number" || (name == "integer" && Integral(n))
    case Str(_) => name == "string"
    case Arr(_) => name == "array"
    case Obj(_) => name == "object"
  }

  const TYPE_NAMES := {"null", "boolean", "object", "array", "number", "string", "integer"}

  /** What JavaScript's `typeof` answers. */
  function TypeOf(v: Json): string {
    match v
    case Null => "object"
    case Bool(_) => "boolean"
    case Num(_) => "number"
    case Str(_) => "string"
    case Arr(_) => "object"
    case Obj(_) => "object"
  }

  function NatText(n: nat): string {
    if n < 10 then ["0123456789"[n]] else NatText(n / 10) + ["0123456789"[n % 10]]
  }

  /** A number's decimal text; a fraction is written with six digits. */
  function NumText(n: real): string {
    if n < 0.0 then "-" + PositiveText(-n) else PositiveText(n)
  }

  function PositiveText(n: real): string
    requires n >= 0.0
  {
    if Integral(n) then NatText(n.Floor)
    else NatText(n.Floor) + "." + NatText(((n - n.Floor as real) * 1000000.0).Floor)
  }

  /** What JavaScript's `String` answers. */
  function Text(v: Json): string {
    match v
    case Null => "null"
    case Bool(b) => if b then "true" else "false"
    case Num(n) => NumText(n)
    case Str(s) => s
    case Arr(items) => ItemsText(items)
    case Obj(_) => "[object Object]"
  }

  function ItemsText(items: seq<Json>): string {
    if items == [] then ""
    else
      (if items[0].Null? then "" else Text(items[0]))
      + (if |items| == 1 then "" else "," + ItemsText(items[1..]))
  }
}
