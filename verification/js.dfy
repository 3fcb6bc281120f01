/** JavaScript value conventions the build script relies on: optional
    fields, truthiness, and how `undefined` prints inside a template literal. */
module Js {

  datatype Option<+T> = None | Some(value: T) {
    function GetOr(default: T): T {
      match this
      case Some(v) => v
      case None => default
    }
  }

  /** JS truthiness of an optional string field: absent and '' are falsy. */
  predicate Present(o: Option<string>) {
    o.Some? && o.value != ""
  }

  /** `${ o }` inside a template literal: `undefined` prints as "undefined". */
  function Text(o: Option<string>): (r: string)
    ensures o.Some? ==> r == o.value
    ensures o.None? ==> r == "undefined"
  {
    match o
    case Some(s) => s
    case None => "undefined"
  }

  /** A scalar JS value as handed to a replacement call. */
  datatype Value = Str(s: string) | Num(n: int) | Bool(b: bool) | Undefined

  predicate Falsy(v: Value) {
    match v
    case Str(s) => s == ""
    case Num(n) => n == 0
    case Bool(b) => !b
    case Undefined => true
  }

  /** Decimal text of a natural number, as `String(n)` prints it. */
  function NatText(n: nat): (r: string)
    ensures |r| > 0
    ensures forall i :: 0 <= i < |r| ==> '0' <= r[i] <= '9'
    decreases n
  {
    if n < 10 then [Digit(n)] else NatText(n / 10) + [Digit(n % 10)]
  }

  function Digit(d: nat): (c: char)
    requires d < 10
    ensures '0' <= c <= '9'
  {
    "0123456789"[d]
  }

  function IntText(n: int): string {
    if n < 0 then "-" + NatText(-n) else NatText(n)
  }

  /** `String(v)`: the text a value turns into when coerced to a string. */
  function ToText(v: Value): string {
    match v
    case Str(s) => s
    case Num(n) => IntText(n)
    case Bool(b) => if b then "true" else "false"
    case Undefined => "undefined"
  }
}
