/** The values Python's `eval` produces, as far as the interpreter looks at
    them: whether a value is a `bool` (`isinstance(parsed, bool)`), whether
    it equals the string "else", its truthiness, and its `str()` text. */
module Values {

  /** `OtherV` stands for every other Python object (floats, lists, tuples,
      ...): it carries the text `str()` gives it and its truthiness. */
  datatype Value =
    | BoolV(b: bool)
    | IntV(i: int)
    | StrV(s: string)
    | NoneV
    | OtherV(text: string, truthy: bool)

  function DigitChar(d: nat): char
    requires d < 10
  {
    (48 + d) as char
  }

  /** Decimal notation of a natural number, without leading zeros. */
  function Decimal(n: nat): (s: string)
    ensures |s| >= 1 && forall k :: 0 <= k < |s| ==> '0' <= s[k] <= '9'
    ensures |s| > 1 ==> s[0] != '0'
  {
    if n < 10 then [DigitChar(n)] else Decimal(n / 10) + [DigitChar(n % 10)]
  }

  /** The number a string of decimal digits denotes. */
  function DigitsValue(s: string): nat
    requires forall k :: 0 <= k < |s| ==> '0' <= s[k] <= '9'
  {
    if s == [] then 0 else 10 * DigitsValue(s[..|s| - 1]) + (s[|s| - 1] as int - 48)
  }

  /** Reading back the decimal notation gives the number. */
  lemma {:induction false} DecimalRoundTrip(n: nat)
    ensures DigitsValue(Decimal(n)) == n
  {
    if n >= 10 {
      DecimalRoundTrip(n / 10);
      var s := Decimal(n);
      assert s[..|s| - 1] == Decimal(n / 10);
    }
  }

  /** Python's `str(v)`. */
  function Str(v: Value): string
  {
    match v
    case BoolV(b) => if b then "True" else "False"
    case IntV(i) => if i < 0 then "-" + Decimal(-i) else Decimal(i)
    case StrV(s) => s
    case NoneV => "None"
    case OtherV(text, _) => text
  }

  /** Python's truth test `bool(v)`. */
  predicate Truthy(v: Value)
  {
    match v
    case BoolV(b) => b
    case IntV(i) => i != 0
    case StrV(s) => s != []
    case NoneV => false
    case OtherV(_, t) => t
  }
}
