/**
 * The JavaScript values the scraper code passes around: parsed JSON records,
 * error values, and the string conversions the code relies on
 * (truthiness, `Array.prototype.join`, number to decimal text).
 */
module Values {

  /** A JSON-like JavaScript value. Numbers are modelled as integers only. */
  datatype Value =
    | Undefined
    | Null
    | Bool(b: bool)
    | Num(n: int)
    | Str(s: string)
    | Arr(elems: seq<Value>)
    | Obj(fields: map<string, Value>)

  /** A scraped record: the own enumerable properties of a plain object. */
  type Record = map<string, Value>

  /** JavaScript truthiness (`!!v`). */
  predicate Truthy(v: Value): (b: bool)
    ensures !b <==> v == Undefined || v == Null || v == Bool(false) || v == Num(0) || v == Str("")
  {
    match v
    case Undefined => false
    case Null => false
    case Bool(b) => b
    case Num(n) => n != 0
    case Str(s) => s != ""
    case Arr(_) => true
    case Obj(_) => true
  }

  /** `rec[k]`: the property value, or `undefined` for a missing key. */
  function Get(rec: Record, k: string): (v: Value)
    ensures k !in rec ==> v == Undefined
    ensures k in rec ==> v == rec[k]
  {
    if k in rec then rec[k] else Undefined
  }

  /**
   * The stack trace V8 puts on every Error object; it always starts with the
   * error's name, so it is never empty.
   */
  type Stack = s: string | s != "" witness "Error"

  /**
   * A value the code passes where it passes an error: an Error object
   * (its `message` and the `stack` captured when it was created) or a bare
   * string.  An absent error (`null`/`undefined`) is `None` in an
   * `Option<Fault>`.
   */
  datatype Fault = Thrown(message: string, stack: Stack) | Text(text: string)

  /**
   * `new Error(message)`: the stack starts with the error's name and
   * message; `frames` stands for the call-site lines the runtime appends.
   */
  function NewError(message: string, frames: string): (f: Fault)
    ensures f.Thrown? && f.message == message
    ensures |f.stack| >= |"Error: "| + |message| && f.stack[..|"Error: "| + |message|] == "Error: " + message
  {
    Thrown(message, "Error: " + message + frames)
  }

  predicate FaultTruthy(f: Fault)
  {
    f.Thrown? || f.text != ""
  }

  /** `err.stack ? err.stack : err`: the text the handlers store for an error. */
  function StackOrSelf(f: Fault): (t: string)
    ensures FaultTruthy(f) <==> t != ""
    ensures f.Text? ==> t == f.text
  {
    match f
    case Thrown(_, st) => st
    case Text(s) => s
  }

  function DigitChar(d: nat): (c: char)
    requires d < 10
    ensures '0' <= c <= '9'
  {
    ['0', '1', '2', '3', '4', '5', '6', '7', '8', '9'][d]
  }

  /** Decimal text of a natural number, as `String(n)` gives it. */
  function NatText(n: nat): (r: string)
    ensures r != []
    ensures forall i :: 0 <= i < |r| ==> '0' <= r[i] <= '9'
    decreases n
  {
    if n < 10 then [DigitChar(n)] else NatText(n / 10) + [DigitChar(n % 10)]
  }

  /** Decimal text of an integer, as `String(n)` gives it. */
  function IntText(n: int): (r: string)
    ensures r != []
    ensures n >= 0 ==> r == NatText(n)
    ensures n < 0 ==> r[0] == '-'
  {
    if n >= 0 then NatText(n) else "-" + NatText(-n)
  }

  /** How `Array.prototype.join` renders one element: `null` and `undefined` become ''. */
  function JoinPart(v: Value): (r: string)
    ensures v.Str? ==> r == v.s
    ensures v == Undefined || v == Null ==> r == ""
  {
    match v
    case Undefined => ""
    case Null => ""
    case Bool(b) => if b then "true" else "false"
    case Num(n) => IntText(n)
    case Str(s) => s
    case Arr(es) => JoinParts(es)
    case Obj(_) => "[object Object]"
  }

  /** `String(array)`: the elements joined with ','. */
  function JoinParts(es: seq<Value>): string
    decreases es
  {
    if es == [] then ""
    else if |es| == 1 then JoinPart(es[0])
    else JoinPart(es[0]) + "," + JoinParts(es[1..])
  }
}
