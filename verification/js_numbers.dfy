/**
 * JavaScript numbers as the pages use them: `Number(string)` (the StringToNumber
 * operation of section 7.1.4.1.1 of ECMA-262), truthiness, `+`, `<`, `Math.max`
 * and `||`. Finite values are exact rationals: IEEE-754 rounding is not modelled.
 */
module JsNumbers {
  import opened Wrappers
  import opened Text

  /** A JavaScript number; the sign of zero is not tracked. */
  datatype JsNumber = NaN | Finite(value: real) | Infinite(negative: bool)

  /** The JavaScript values that reach the modelled code through form bindings. */
  datatype JsValue = Undefined | Null | Str(s: string) | Num(n: JsNumber)

  /** `Boolean(n)`: zero and NaN are the falsy numbers. */
  predicate Truthy(n: JsNumber) {
    match n
    case NaN => false
    case Finite(v) => v != 0.0
    case Infinite(_) => true
  }

  /** `Boolean(v)`. */
  predicate ValueTruthy(v: JsValue) {
    match v
    case Undefined => false
    case Null => false
    case Str(s) => s != []
    case Num(n) => Truthy(n)
  }

  /** `a || b` on numbers. */
  function Or(a: JsNumber, b: JsNumber): JsNumber {
    if Truthy(a) then a else b
  }

  /** The `+` operator on two numbers. */
  function Add(a: JsNumber, b: JsNumber): JsNumber {
    match (a, b)
    case (NaN, _) => NaN
    case (_, NaN) => NaN
    case (Infinite(x), Infinite(y)) => if x == y then a else NaN
    case (Infinite(_), Finite(_)) => a
    case (Finite(_), Infinite(_)) => b
    case (Finite(x), Finite(y)) => Finite(x + y)
  }

  /** `a < b` on two numbers: false whenever NaN is involved. */
  predicate Less(a: JsNumber, b: JsNumber) {
    match (a, b)
    case (NaN, _) => false
    case (_, NaN) => false
    case (Finite(x), Finite(y)) => x < y
    case (Infinite(na), Infinite(nb)) => na && !nb
    case (Infinite(na), Finite(_)) => na
    case (Finite(_), Infinite(nb)) => !nb
  }

  /** `Math.max(a, b)`: NaN when either argument is NaN, otherwise the larger one. */
  function Max(a: JsNumber, b: JsNumber): (r: JsNumber)
    ensures a.NaN? || b.NaN? <==> r.NaN?
    ensures !r.NaN? ==> (r == a || r == b) && !Less(r, a) && !Less(r, b)
  {
    if a.NaN? || b.NaN? then NaN else if Less(a, b) then b else a
  }

  /** 10 raised to an integer power, exactly. */
  function Scale(e: int): (r: real)
    ensures r > 0.0
  {
    if e >= 0 then Pow10(e) as real else 1.0 / (Pow10(-e) as real)
  }

  /** The radix selected by the letter after a leading `0` (`0b`, `0o`, `0x`). */
  function RadixOf(c: char): Option<nat> {
    if c == 'b' || c == 'B' then Some(2)
    else if c == 'o' || c == 'O' then Some(8)
    else if c == 'x' || c == 'X' then Some(16)
    else None
  }

  /** The value of one digit in base `radix`, if `c` is such a digit. */
  function RadixDigit(c: char, radix: nat): (r: Option<nat>)
    ensures r.Some? ==> r.value < radix
  {
    var d: int :=
      if '0' <= c <= '9' then c as int - '0' as int
      else if 'a' <= c <= 'f' then c as int - 'a' as int + 10
      else if 'A' <= c <= 'F' then c as int - 'A' as int + 10
      else radix;
    if 0 <= d < radix then Some(d) else None
  }

  predicate AllRadixDigits(s: string, radix: nat) {
    forall i :: 0 <= i < |s| ==> RadixDigit(s[i], radix).Some?
  }

  function RadixValue(s: string, radix: nat): nat
    requires AllRadixDigits(s, radix)
  {
    if s == [] then 0
    else RadixValue(s[..|s| - 1], radix) * radix + RadixDigit(s[|s| - 1], radix).value
  }

  /** SignedInteger of an ExponentPart: an optional sign and one or more decimal digits. */
  function ParseSignedInteger(s: string): Option<int> {
    var negative := |s| >= 1 && s[0] == '-';
    var d := if |s| >= 1 && (s[0] == '+' || s[0] == '-') then s[1..] else s;
    if |d| >= 1 && AllDigits(d) then
      Some(if negative then -(DigitsValue(d) as int) else DigitsValue(d))
    else None
  }

  /** An optional ExponentPart: empty, or `e`/`E` followed by a SignedInteger. */
  function ParseExponent(rest: string): Option<int> {
    if rest == [] then Some(0)
    else if rest[0] == 'e' || rest[0] == 'E' then ParseSignedInteger(rest[1..])
    else None
  }

  /** The exact value of `digits` times 10 to the power `e`. */
  function DecimalValue(digits: string, e: int): real
    requires AllDigits(digits)
  {
    DigitsValue(digits) as real * Scale(e)
  }

  /** A mantissa of integer and fraction digits (at least one digit in all) and an optional exponent. */
  function Mantissa(intDigits: string, frac: string, rest: string): Option<JsNumber>
    requires AllDigits(intDigits) && AllDigits(frac)
  {
    if |intDigits| + |frac| == 0 then None
    else
      match ParseExponent(rest)
      case None => None
      case Some(e) => Some(Finite(DecimalValue(intDigits + frac, e - |frac|)))
  }

  /** What follows the integer digits: an optional `.` with fraction digits, then the exponent. */
  function FractionAndExponent(intDigits: string, afterInt: string): Option<JsNumber>
    requires AllDigits(intDigits)
  {
    if |afterInt| >= 1 && afterInt[0] == '.' then
      var tail := afterInt[1..];
      var f := DigitRun(tail);
      Mantissa(intDigits, tail[..f], tail[f..])
    else Mantissa(intDigits, [], afterInt)
  }

  /**
   * StrUnsignedDecimalLiteral: `Infinity`, or digits with an optional fraction
   * and exponent, with at least one digit before or after the point.
   */
  function ParseUnsignedDecimal(u: string): Option<JsNumber> {
    if u == "Infinity" then Some(Infinite(false))
    else
      var i := DigitRun(u);
      FractionAndExponent(u[..i], u[i..])
  }

  function Negate(n: Option<JsNumber>): Option<JsNumber> {
    match n
    case Some(Finite(v)) => Some(Finite(-v))
    case Some(Infinite(neg)) => Some(Infinite(!neg))
    case other => other
  }

  /** StrNumericLiteral: a non-decimal integer literal, or a signed decimal literal. */
  function ParseNumericLiteral(t: string): Option<JsNumber> {
    if |t| >= 2 && t[0] == '0' && RadixOf(t[1]).Some? then
      var radix := RadixOf(t[1]).value;
      var digits := t[2..];
      if |digits| >= 1 && AllRadixDigits(digits, radix) then
        Some(Finite(RadixValue(digits, radix) as real))
      else None
    else if |t| >= 1 && t[0] == '+' then ParseUnsignedDecimal(t[1..])
    else if |t| >= 1 && t[0] == '-' then Negate(ParseUnsignedDecimal(t[1..]))
    else ParseUnsignedDecimal(t)
  }

  /** `Number(s)` for a string: surrounding whitespace is ignored, blank is 0, anything unparsable is NaN. */
  function ToNumber(s: string): JsNumber {
    var t := Trim(s);
    if t == [] then Finite(0.0)
    else
      match ParseNumericLiteral(t)
      case Some(n) => n
      case None => NaN
  }

  /** `Number(v)` for the values that reach the modelled code. */
  function ValueToNumber(v: JsValue): JsNumber {
    match v
    case Undefined => NaN
    case Null => Finite(0.0)
    case Str(s) => ToNumber(s)
    case Num(n) => n
  }

  lemma {:induction false} AllDigitsRun(d: string)
    requires AllDigits(d)
    ensures DigitRun(d) == |d|
  {
  }

  /** A trimmed value's own whitespace is gone: `Number` reads a trimmed string the same way. */
  lemma {:induction false} ToNumberOfTrim(s: string)
    ensures ToNumber(Trim(s)) == ToNumber(s)
  {
    TrimIdempotent(s);
  }

  /** An unsigned run of digits, with no point and no exponent, parses to its value. */
  lemma {:induction false} UnsignedDigits(d: string)
    requires |d| >= 1 && AllDigits(d)
    ensures ParseUnsignedDecimal(d) == Some(Finite(DigitsValue(d) as real))
  {
    assert d != "Infinity" by { assert !IsDigit("Infinity"[0]); }
    AllDigitsRun(d);
    assert d[|d|..] == [];
    assert d[..|d|] + [] == d;
    assert Scale(0) == 1.0;
    assert DecimalValue(d, 0) == DigitsValue(d) as real;
  }

  /** A literal that starts with a digit and is no `0b`/`0o`/`0x` literal is an unsigned decimal. */
  lemma {:induction false} DecimalDispatch(d: string)
    requires |d| >= 1 && AllDigits(d)
    ensures ParseNumericLiteral(d) == ParseUnsignedDecimal(d)
  {
    assert IsDigit(d[0]);
    assert !(|d| >= 2 && d[0] == '0' && RadixOf(d[1]).Some?) by {
      if |d| >= 2 { assert IsDigit(d[1]); }
    }
  }

  /** A literal starting with `-` is the negation of the unsigned literal after it. */
  lemma {:induction false} NegativeDispatch(t: string)
    requires |t| >= 1 && t[0] == '-'
    ensures ParseNumericLiteral(t) == Negate(ParseUnsignedDecimal(t[1..]))
  {
  }

  /** A plain run of decimal digits is read as its decimal value. */
  lemma {:induction false} ToNumberOfDigits(d: string)
    requires |d| >= 1 && AllDigits(d)
    ensures ToNumber(d) == Finite(DigitsValue(d) as real)
  {
    assert IsTrimmed(d);
    TrimmedUnchanged(d);
    DecimalDispatch(d);
    UnsignedDigits(d);
  }

  /** A non-blank string without surrounding whitespace is read by the literal parser alone. */
  lemma {:induction false} ToNumberOfLiteral(t: string, n: JsNumber)
    requires t != [] && IsTrimmed(t)
    requires ParseNumericLiteral(t) == Some(n)
    ensures ToNumber(t) == n
  {
    TrimmedUnchanged(t);
  }

  lemma {:induction false} NegativeDigitsLiteral(t: string, d: string)
    requires |d| >= 1 && AllDigits(d)
    requires |t| >= 1 && t[0] == '-' && t[1..] == d
    ensures ParseNumericLiteral(t) == Some(Finite(-(DigitsValue(d) as real)))
  {
    NegativeDispatch(t);
    UnsignedDigits(d);
  }

  /** A minus sign before a run of digits negates its value. */
  lemma {:induction false} ToNumberOfNegativeDigits(t: string, d: string)
    requires |d| >= 1 && AllDigits(d)
    requires |t| == |d| + 1 && t[0] == '-' && t[1..] == d
    ensures ToNumber(t) == Finite(-(DigitsValue(d) as real))
  {
    assert t[|t| - 1] == d[|d| - 1];
    NegativeDigitsLiteral(t, d);
    ToNumberOfLiteral(t, Finite(-(DigitsValue(d) as real)));
  }

  /** A word that starts with neither a digit, a sign nor a point, and is not `Infinity`, is NaN. */
  lemma {:induction false} ToNumberOfWord(t: string)
    requires t != [] && IsTrimmed(t) && t != "Infinity"
    requires !IsDigit(t[0]) && t[0] != '+' && t[0] != '-' && t[0] != '.'
    ensures ToNumber(t) == NaN
  {
    TrimmedUnchanged(t);
    assert DigitRun(t) == 0;
    assert t[..0] == [] && t[0..] == t;
    assert FractionAndExponent([], t) == None;
  }

  /** The blank string is the number 0, which is falsy. */
  lemma {:induction false} BlankIsFalsy(s: string)
    requires AllSpace(s)
    ensures ToNumber(s) == Finite(0.0) && !Truthy(ToNumber(s))
  {
    TrimEmptyIff(s);
  }
}
