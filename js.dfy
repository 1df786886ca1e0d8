/**
 * The small part of JavaScript's value semantics that the recorder and the
 * player depend on: `typeof x == "object"`, truthiness, string conversion for
 * `+=`, and `String.fromCharCode`.  Numbers are modelled as integers.
 */
module Js {

  /** A JavaScript value as it can appear on an event object or a step. */
  datatype Value =
    | Undefined
    | Null
    | Bool(b: bool)
    | Num(n: int)
    | Str(s: string)
    | Obj(kind: string)   // a host object such as a Window or an Element

  /** `typeof v == "object"`: true for objects and, as in JavaScript, for null. */
  predicate IsObjectTyped(v: Value) {
    v.Null? || v.Obj?
  }

  /** JavaScript truthiness (`if (v)`). */
  predicate Truthy(v: Value) {
    match v
    case Undefined => false
    case Null => false
    case Bool(b) => b
    case Num(n) => n != 0
    case Str(s) => s != ""
    case Obj(_) => true
  }

  function DigitChar(d: nat): (c: char)
    requires d < 10
    ensures '0' <= c <= '9'
  {
    ['0', '1', '2', '3', '4', '5', '6', '7', '8', '9'][d]
  }

  /** The decimal digits of a natural number, most significant first. */
  function NatToDecimal(n: nat): (s: string)
    ensures |s| > 0
    ensures forall i :: 0 <= i < |s| ==> '0' <= s[i] <= '9'
    decreases n
  {
    if n < 10 then [DigitChar(n)] else NatToDecimal(n / 10) + [DigitChar(n % 10)]
  }

  /** `String(n)` for an integer. */
  function IntToDecimal(n: int): string {
    if n < 0 then "-" + NatToDecimal(-n) else NatToDecimal(n)
  }

  /** `String(v)`, the conversion `+` applies when one operand is a string. */
  function ToJsString(v: Value): string {
    match v
    case Undefined => "undefined"
    case Null => "null"
    case Bool(b) => if b then "true" else "false"
    case Num(n) => IntToDecimal(n)
    case Str(s) => s
    case Obj(kind) => "[object " + kind + "]"
  }

  /** `v += s` for a string `s`. */
  function Append(v: Value, s: string): (r: Value)
    ensures r.Str? && r.s == ToJsString(v) + s
  {
    Str(ToJsString(v) + s)
  }

  /**
   * The character code `String.fromCharCode` takes from its argument:
   * ToUint16(ToNumber(v)).  Strings are not parsed as numbers in this model.
   */
  function CharCode(v: Value): (c: nat)
    ensures c < 0x1_0000
  {
    match v
    case Num(n) => n % 0x1_0000
    case Bool(b) => if b then 1 else 0
    case _ => 0
  }

  /**
   * `String.fromCharCode(code)` for a code unit.  A lone surrogate cannot be a
   * Dafny `char`, so it is rendered as U+FFFD.
   */
  function FromCharCode(code: nat): (s: string)
    requires code < 0x1_0000
    ensures |s| == 1
    ensures (code < 0xD800 || 0xE000 <= code) ==> s[0] as int == code
  {
    if code < 0xD800 || 0xE000 <= code then [code as char] else ['\U{FFFD}']
  }
}
