/**
 * The slice of JavaScript value semantics that the handlers depend on:
 * what a request-body field can hold, when it counts as truthy, what
 * `v.length < n` and `a || b` evaluate to, and how an integer is written
 * into a template string.
 */
module JsValues {

  datatype Option<T> = None | Some(value: T)

  /** A value parsed from a JSON request body (numbers restricted to integers). */
  datatype Value =
    | Undefined
    | Null
    | Bool(b: bool)
    | Num(n: int)
    | Str(s: string)
    | Arr(size: nat)   // an array; only its `length` matters here
    | Obj              // any other object, e.g. a regular-expression literal

  /** JavaScript truthiness: `undefined`, `null`, `false`, `0` and `""` are falsy. */
  predicate Truthy(v: Value)
  {
    match v
    case Undefined => false
    case Null => false
    case Bool(b) => b
    case Num(n) => n != 0
    case Str(s) => s != ""
    case Arr(_) => true
    case Obj => true
  }

  /** A JSON object: the request body, or a stored document. */
  type Document = map<string, Value>

  /** `d.k`: a missing property reads as `undefined`. */
  function Field(d: Document, k: string): (v: Value)
    ensures k in d ==> v == d[k]
    ensures k !in d ==> !Truthy(v)
  {
    if k in d then d[k] else Undefined
  }

  /** `a || b`: the first operand if it is truthy, otherwise the second. */
  function Or(a: Value, b: Value): (v: Value)
    ensures Truthy(a) ==> v == a
    ensures !Truthy(a) ==> v == b
  {
    if Truthy(a) then a else b
  }

  /**
   * `v.length < n`. Strings and arrays have a length; on any other value
   * `length` is `undefined`, and `undefined < n` is false.
   */
  predicate LengthBelow(v: Value, n: nat)
    ensures LengthBelow(v, n) ==> v.Str? || v.Arr?
    ensures v.Str? ==> (LengthBelow(v, n) <==> |v.s| < n)
  {
    match v
    case Str(s) => |s| < n
    case Arr(k) => k < n
    case _ => false
  }

  function DigitChar(d: nat): (c: char)
    requires d < 10
    ensures '0' <= c <= '9'
  {
    "0123456789"[d]
  }

  predicate IsDigit(c: char)
  {
    '0' <= c <= '9'
  }

  /** `${n}`: the decimal numeral of `n`, without leading zeros. */
  function Decimal(n: nat): (s: string)
    ensures |s| >= 1
    ensures forall i :: 0 <= i < |s| ==> IsDigit(s[i])
    ensures |s| > 1 ==> s[0] != '0'
    decreases n
  {
    if n < 10 then [DigitChar(n)] else Decimal(n / 10) + [DigitChar(n % 10)]
  }

  /** The number a string of decimal digits denotes. */
  function ParseDecimal(s: string): nat
    requires forall i :: 0 <= i < |s| ==> IsDigit(s[i])
  {
    if s == [] then 0
    else
      assert IsDigit(s[|s| - 1]);
      10 * ParseDecimal(s[..|s| - 1]) + (s[|s| - 1] as int - '0' as int)
  }

  lemma DigitCharValue(d: nat)
    requires d < 10
    ensures DigitChar(d) as int - '0' as int == d
  {
  }

  /** Reading back the numeral `${n}` gives `n`. */
  lemma {:induction false} DecimalRoundTrip(n: nat)
    ensures ParseDecimal(Decimal(n)) == n
    decreases n
  {
    var s := Decimal(n);
    if n < 10 {
      DigitCharValue(n);
      assert s[..0] == [];
    } else {
      DecimalRoundTrip(n / 10);
      DigitCharValue(n % 10);
      assert s[..|s| - 1] == Decimal(n / 10);
    }
  }
}
