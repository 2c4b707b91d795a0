/**
 * The slice of JavaScript's value semantics that js/main.js depends on:
 * the values that appear in fork records and parameters, truthiness,
 * how a value is written into a template literal, property access (which
 * throws a TypeError on null and undefined), Error.prototype.toString, and
 * the numeric coercion used by `isNaN` and `<`.
 */
module Js {
  import opened Wrappers

  /**
   * A JavaScript value. Numbers are modelled as integers (every number the
   * model handles is a count, a size or a column index); arrays other than
   * the record sequence are not modelled.
   */
  datatype JsVal =
    | Undefined
    | Null
    | Bool(b: bool)
    | Num(n: int)
    | Str(s: string)
    | Obj(props: map<string, JsVal>)

  /** A plain object's own properties: a fork record as parsed from JSON. */
  type Record = map<string, JsVal>

  /** `rec[key]` on a plain object: a missing property reads as undefined. */
  function Get(rec: Record, key: string): JsVal
  {
    if key in rec then rec[key] else Undefined
  }

  /** null or undefined: the two values whose property access throws. */
  predicate Nullish(v: JsVal)
  {
    v.Undefined? || v.Null?
  }

  /** ToBoolean, as `if`, `&&`, `||` and `?:` apply it. */
  predicate Truthy(v: JsVal)
  {
    match v
    case Undefined => false
    case Null => false
    case Bool(b) => b
    case Num(n) => n != 0
    case Str(s) => s != ""
    case Obj(_) => true
  }

  /**
   * `v.key` for a value that is not null or undefined. The keys read by the
   * model (`avatar_url`, `login`) are not properties of the Boolean, Number
   * or String prototypes, so on a primitive they read as undefined.
   */
  function Prop(v: JsVal, key: string): JsVal
    requires !Nullish(v)
  {
    match v
    case Obj(props) => Get(props, key)
    case _ => Undefined
  }

  /** The decimal digit for `d`. */
  function Digit(d: nat): char
    requires d < 10
  {
    "0123456789"[d]
  }

  /** Number.prototype.toString for an integer: decimal digits. */
  function NatToString(n: nat): (r: string)
    ensures |r| >= 1
    ensures forall i :: 0 <= i < |r| ==> '0' <= r[i] <= '9'
  {
    if n < 10 then [Digit(n)] else NatToString(n / 10) + [Digit(n % 10)]
  }

  /** The decimal form of an integer, with a leading '-' when negative. */
  function IntToString(n: int): (r: string)
    ensures forall i :: 0 <= i < |r| ==> r[i] == '-' || '0' <= r[i] <= '9'
  {
    if n < 0 then "-" + NatToString(-n) else NatToString(n)
  }

  /** How `${v}` writes a value into a template literal (String(v)). */
  function Display(v: JsVal): string
  {
    match v
    case Undefined => "undefined"
    case Null => "null"
    case Bool(b) => if b then "true" else "false"
    case Num(n) => IntToString(n)
    case Str(s) => s
    case Obj(_) => "[object Object]"
  }

  /** A thrown Error object: its `name` and its `message`. */
  datatype JsError = JsError(name: string, message: string)

  /** Error.prototype.toString, also what `${error}` produces. */
  function ErrorToString(e: JsError): string
  {
    if e.name == "" then e.message
    else if e.message == "" then e.name
    else e.name + ": " + e.message
  }

  /** An IEEE-754 number as far as `isNaN` and `<` can tell. */
  datatype Number = NaN | Finite(value: real) | Infinity(negative: bool)

  /**
   * The host's built-ins that the model does not re-implement:
   * decodeURIComponent and the conversion of a string to a number
   * (StringToNumber, used by `isNaN` and by `<` against a number).
   */
  datatype Host = Host(decodeURIComponent: string -> string, stringToNumber: string -> Number)

  /** ToNumber. A plain object converts through "[object Object]", which is NaN. */
  function ToNumber(v: JsVal, host: Host): Number
  {
    match v
    case Undefined => NaN
    case Null => Finite(0.0)
    case Bool(b) => Finite(if b then 1.0 else 0.0)
    case Num(n) => Finite(n as real)
    case Str(s) => host.stringToNumber(s)
    case Obj(_) => NaN
  }

  /** The global `isNaN(v)`. */
  predicate IsNaN(v: JsVal, host: Host)
  {
    ToNumber(v, host).NaN?
  }

  /** `v < n` for an integer `n`: false whenever `v` converts to NaN. */
  predicate LessThan(v: JsVal, n: int, host: Host)
  {
    match ToNumber(v, host)
    case NaN => false
    case Finite(x) => x < n as real
    case Infinity(negative) => negative
  }

  /** decodeURIComponent leaves text without '%' escapes as it is. */
  ghost predicate DecodesPlainText(host: Host)
  {
    forall s :: '%' !in s ==> host.decodeURIComponent(s) == s
  }

  /** StringToNumber reads the decimal form of every integer as that integer. */
  ghost predicate ReadsIntegers(host: Host)
  {
    forall n: int :: host.stringToNumber(IntToString(n)) == Finite(n as real)
  }
}
