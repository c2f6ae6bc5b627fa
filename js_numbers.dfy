/** JavaScript's `Number(s)` for a string `s` (ECMAScript's StringToNumber): the
    string is trimmed; nothing left gives 0; otherwise it must be a whole
    StringNumericLiteral (a signed decimal with optional fraction and exponent,
    `Infinity`, or a `0b`/`0o`/`0x` integer), or the result is NaN. Values are
    exact reals: binary floating-point rounding is not modelled. */
module JsNumbers {
  import opened Wrappers
  import opened JsStrings

  /** A JavaScript number; -0 and +0 are the same value here. */
  datatype JsNumber = Finite(value: real) | PosInfinity | NegInfinity | NaN

  /** `n < 0`: true for negative finite values and for -Infinity, false for NaN. */
  predicate IsNegative(n: JsNumber) {
    (n.Finite? && n.value < 0.0) || n.NegInfinity?
  }

  /** The value of a digit character in any radix up to 36; 36 for every other character. */
  function DigitValue(c: char): nat {
    if '0' <= c <= '9' then c as int - '0' as int
    else if 'a' <= c <= 'z' then c as int - 'a' as int + 10
    else if 'A' <= c <= 'Z' then c as int - 'A' as int + 10
    else 36
  }

  predicate IsDigitOf(c: char, radix: nat) {
    DigitValue(c) < radix
  }

  /** Every character of `s` is a digit of `radix`. */
  predicate AllDigits(s: string, radix: nat) {
    forall i :: 0 <= i < |s| ==> IsDigitOf(s[i], radix)
  }

  /** The length of the longest prefix of `s` made of digits of `radix`. */
  function DigitRun(s: string, radix: nat): (n: nat)
    ensures n <= |s|
    ensures forall i :: 0 <= i < n ==> IsDigitOf(s[i], radix)
    ensures n < |s| ==> !IsDigitOf(s[n], radix)
  {
    if s != [] && IsDigitOf(s[0], radix) then 1 + DigitRun(s[1..], radix) else 0
  }

  /** The value of a digit string, most significant digit first. */
  function DigitsValue(ds: string, radix: nat): nat {
    if ds == [] then 0
    else DigitsValue(ds[..|ds| - 1], radix) * radix + DigitValue(ds[|ds| - 1])
  }

  function Pow10(n: nat): (r: nat)
    ensures r >= 1
  {
    if n == 0 then 1 else 10 * Pow10(n - 1)
  }

  /** `n` divided by ten to the power `places`. */
  function Shift(n: nat, places: nat): (r: real)
    ensures r >= 0.0
  {
    n as real / Pow10(places) as real
  }

  /** `m` times ten to the power `e`. */
  function Scale(m: real, e: int): (r: real)
    ensures m >= 0.0 ==> r >= 0.0
  {
    if e >= 0 then m * Pow10(e) as real else m / Pow10(-e) as real
  }

  /** An optional ExponentPart: nothing gives 0; otherwise `e` or `E`, an optional
      sign and at least one decimal digit, up to the end of the string. */
  function ParseExponent(s: string): Option<int> {
    if s == [] then Some(0)
    else if s[0] != 'e' && s[0] != 'E' then None
    else
      var t := s[1..];
      var ds := if t != [] && (t[0] == '-' || t[0] == '+') then t[1..] else t;
      if ds != [] && AllDigits(ds, 10) then
        var v: int := DigitsValue(ds, 10);
        Some(if t[0] == '-' then -v else v)
      else None
  }

  /** StrUnsignedDecimalLiteral other than `Infinity`: digits, an optional `.` with
      optional digits, and an optional exponent, with at least one digit before
      the exponent (`5.`, `.5` and `5` are numbers, `.` is not). */
  function ParseUnsignedDecimal(s: string): (r: Option<real>)
    ensures r.Some? ==> r.value >= 0.0
  {
    var k := DigitRun(s, 10);
    var intDs := s[..k];
    var rest := s[k..];
    var hasDot := rest != [] && rest[0] == '.';
    var afterDot := if hasDot then rest[1..] else rest;
    var m := if hasDot then DigitRun(afterDot, 10) else 0;
    var fracDs := afterDot[..m];
    if intDs == [] && fracDs == [] then None
    else
      match ParseExponent(afterDot[m..])
      case None => None
      case Some(e) => Some(Scale(Shift(DigitsValue(intDs + fracDs, 10), |fracDs|), e))
  }

  /** StrDecimalLiteral: an optional `+` or `-`, then `Infinity` or an unsigned decimal. */
  function ParseDecimal(s: string): (r: Option<JsNumber>)
    ensures r.Some? ==> !r.value.NaN?
    ensures r.Some? && (s == [] || s[0] != '-') ==> !IsNegative(r.value)
  {
    var neg := s != [] && s[0] == '-';
    var u := if s != [] && (s[0] == '-' || s[0] == '+') then s[1..] else s;
    if u == "Infinity" then Some(if neg then NegInfinity else PosInfinity)
    else
      match ParseUnsignedDecimal(u)
      case None => None
      case Some(v) => Some(Finite(if neg then -v else v))
  }

  /** NonDecimalIntegerLiteral: `0b`, `0o` or `0x` (either case) and at least one
      digit of that radix, up to the end of the string. */
  function ParseNonDecimal(s: string): (r: Option<JsNumber>)
    ensures r.Some? ==> r.value.Finite? && r.value.value >= 0.0
  {
    if |s| >= 3 && s[0] == '0' && s[1] in "bBoOxX" then
      var radix := if s[1] in "bB" then 2 else if s[1] in "oO" then 8 else 16;
      var ds := s[2..];
      if AllDigits(ds, radix) then Some(Finite(DigitsValue(ds, radix) as real)) else None
    else None
  }

  /** `Number(s)`. A blank string is 0, and a string without a minus sign is never negative. */
  function ToNumber(s: string): (r: JsNumber)
    ensures IsBlank(s) ==> r == Finite(0.0)
    ensures '-' !in s ==> !IsNegative(r)
  {
    var t := Trim(s);
    TrimAddsNothing(s, '-');
    if t == "" then Finite(0.0)
    else
      match ParseNonDecimal(t)
      case Some(n) => n
      case None =>
        match ParseDecimal(t)
        case Some(n) => n
        case None => NaN
  }

  function DigitChar(d: nat): (c: char)
    requires d < 10
    ensures DigitValue(c) == d
  {
    ('0' as int + d) as char
  }

  /** `String(n)` for a non-negative integer: its decimal digits, without leading zeros. */
  function DecimalString(n: nat): (s: string)
    ensures s != [] && AllDigits(s, 10)
    ensures s[0] != '0' || n == 0
  {
    if n < 10 then [DigitChar(n)]
    else DecimalString(n / 10) + [DigitChar(n % 10)]
  }

  /** A string of decimal digits is one whole digit run. */
  lemma {:induction false} AllDigitsRun(s: string)
    requires AllDigits(s, 10)
    ensures DigitRun(s, 10) == |s|
  {
    if s != [] {
      AllDigitsRun(s[1..]);
    }
  }

  /** Reading the digits of `n` back gives `n`. */
  lemma {:induction false} DecimalValue(n: nat)
    ensures DigitsValue(DecimalString(n), 10) == n
  {
    if n >= 10 {
      var s := DecimalString(n);
      DecimalValue(n / 10);
      assert s[..|s| - 1] == DecimalString(n / 10);
    }
  }

  /** A digit is never whitespace, so a digit string is its own trim. */
  lemma TrimOfDigits(s: string)
    requires s != [] && AllDigits(s, 10)
    ensures Trim(s) == s
  {
    assert IsDigitOf(s[0], 10) && IsDigitOf(s[|s| - 1], 10);
    assert TrimStart(s) == s;
    assert TrimEnd(s) == s;
  }

  /** A digit string parses as an unsigned decimal with that value. */
  lemma UnsignedOfDigits(s: string)
    requires s != [] && AllDigits(s, 10)
    ensures ParseUnsignedDecimal(s) == Some(DigitsValue(s, 10) as real)
  {
    AllDigitsRun(s);
    assert s[..|s|] == s && s[|s|..] == [];
    assert s + [] == s;
  }

  /** A digit string is neither a `0b`/`0o`/`0x` literal nor signed nor `Infinity`,
      so it reads as a plain unsigned decimal. */
  lemma DecimalOfDigits(s: string)
    requires s != [] && AllDigits(s, 10)
    ensures ParseNonDecimal(s) == None
    ensures ParseDecimal(s) == Some(Finite(DigitsValue(s, 10) as real))
  {
    assert IsDigitOf(s[0], 10);
    if |s| >= 3 {
      assert IsDigitOf(s[1], 10);
    }
    assert s != "Infinity" by { assert s[0] != 'I'; }
    UnsignedOfDigits(s);
  }

  /** `Number(String(n)) == n`: a non-negative integer shown in an input and read back is unchanged. */
  lemma NumberOfDecimalString(n: nat)
    ensures ToNumber(DecimalString(n)) == Finite(n as real)
  {
    var s := DecimalString(n);
    DecimalValue(n);
    TrimOfDigits(s);
    DecimalOfDigits(s);
  }
}
