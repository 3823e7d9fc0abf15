/** JavaScript values as the two handlers see them: the results of JSON.parse
    and the Lambda event, together with the few language operations the
    handlers apply to them (truthiness, property reads, Array.isArray and
    conversion to a string in a template literal). */
module Js {

  /** A computation that either yields a value or throws an Error whose
      `message` is given. Failure-compatible, so `:-` propagates the throw. */
  datatype Result<+T> = Ok(value: T) | Thrown(message: string) {
    predicate IsFailure() { Thrown? }

    function PropagateFailure<U>(): Result<U>
      requires Thrown?
    {
      Thrown(message)
    }

    function Extract(): T
      requires Ok?
    {
      value
    }
  }

  datatype Option<+T> = None | Some(value: T)

  /** A JavaScript value. Numbers are restricted to integers. */
  datatype Value =
    | Undefined
    | Null
    | Bool(b: bool)
    | Num(n: int)
    | Str(s: string)
    | Arr(elems: seq<Value>)
    | Obj(fields: map<string, Value>)

  /** `!!v` */
  predicate Truthy(v: Value) {
    match v
    case Undefined => false
    case Null => false
    case Bool(b) => b
    case Num(n) => n != 0
    case Str(s) => s != ""
    case Arr(_) => true
    case Obj(_) => true
  }

  predicate Nullish(v: Value) {
    v.Undefined? || v.Null?
  }

  /** `Array.isArray(v)` */
  predicate IsArray(v: Value) {
    v.Arr?
  }

  /** The message of the TypeError V8 throws for `v.key` when `v` is nullish. */
  function ReadError(v: Value, key: string): string {
    "Cannot read properties of " + (if v.Null? then "null" else "undefined")
      + " (reading '" + key + "')"
  }

  /** `v.key`: throws on null and undefined; a key an object does not have,
      and any key of a primitive or an array (the handlers read none of the
      built-in ones), reads as undefined. */
  function Get(v: Value, key: string): (r: Result<Value>)
    ensures r.Thrown? <==> Nullish(v)
    ensures r.Ok? && r.value != Undefined ==> v.Obj? && key in v.fields && v.fields[key] == r.value
  {
    match v
    case Undefined => Thrown(ReadError(v, key))
    case Null => Thrown(ReadError(v, key))
    case Obj(fields) => Ok(if key in fields then fields[key] else Undefined)
    case _ => Ok(Undefined)
  }

  /** What a property read yields: V8's TypeError on null and undefined, the
      object's own property when it has one, and undefined otherwise. */
  lemma GetReads(v: Value, key: string)
    ensures Nullish(v) ==> Get(v, key) == Thrown(ReadError(v, key))
    ensures v.Obj? && key in v.fields ==> Get(v, key) == Ok(v.fields[key])
    ensures !Nullish(v) && !(v.Obj? && key in v.fields) ==> Get(v, key) == Ok(Undefined)
  {
  }

  /** The property read for a value already known not to be nullish. */
  function Field(v: Value, key: string): (r: Value)
    ensures !Nullish(v) ==> Get(v, key) == Ok(r)
  {
    if v.Obj? && key in v.fields then v.fields[key] else Undefined
  }

  function DigitChar(d: nat): char
    requires d < 10
  {
    "0123456789"[d]
  }

  function NatToString(n: nat): string {
    if n < 10 then [DigitChar(n)] else NatToString(n / 10) + [DigitChar(n % 10)]
  }

  /** `String(v)` for an integer number. */
  function IntToString(n: int): string {
    if n < 0 then "-" + NatToString(-n) else NatToString(n)
  }

  /** `arr.join(",")` of already converted elements. */
  function JoinComma(parts: seq<string>): string {
    if |parts| == 0 then ""
    else if |parts| == 1 then parts[0]
    else parts[0] + "," + JoinComma(parts[1..])
  }

  /** `${v}` in a template literal, i.e. `String(v)`: an array joins its
      elements with "," (null and undefined elements giving ""). */
  function ToString(v: Value): string {
    match v
    case Undefined => "undefined"
    case Null => "null"
    case Bool(b) => if b then "true" else "false"
    case Num(n) => IntToString(n)
    case Str(s) => s
    case Arr(xs) =>
      JoinComma(seq(|xs|, i requires 0 <= i < |xs| =>
        if Nullish(xs[i]) then "" else ToString(xs[i])))
    case Obj(_) => "[object Object]"
  }

  /** The characters matched by `\s` in a JavaScript regular expression and
      removed by `String.prototype.trim`: WhiteSpace and LineTerminator of
      ECMAScript (section 12.2 and 12.3 of ECMA-262). */
  predicate IsWhitespace(c: char) {
    || c == '\t' || c == '\n' || c == '\U{000B}' || c == '\U{000C}' || c == '\r'
    || c == ' ' || c == '\U{00A0}' || c == '\U{1680}'
    || ('\U{2000}' <= c <= '\U{200A}')
    || c == '\U{2028}' || c == '\U{2029}' || c == '\U{202F}' || c == '\U{205F}'
    || c == '\U{3000}' || c == '\U{FEFF}'
  }
}
