/**
 * JavaScript number conversion as the pages use it: `Number(cell)` on values read
 * from the store, `Number(text)` on form input, and `Math.max` / `Math.min`.
 * `None` stands for a result that is not finite (NaN or an infinity).
 */
module JsNumber {
  import opened Wrappers
  import Text

  /** A numeric cell as the store returns it: SQL NULL, a finite number, or NaN / an infinity. */
  datatype RawNumber = Null | Finite(value: real) | NonFinite

  /** `Number(cell)`; `Number(null)` is 0, which is finite. */
  function FromRaw(x: RawNumber): Option<real> {
    match x
    case Null => Some(0.0)
    case Finite(v) => Some(v)
    case NonFinite => None
  }

  function Max(a: int, b: int): int { if a >= b then a else b }
  function Min(a: int, b: int): int { if a <= b then a else b }
  function MaxReal(a: real, b: real): real { if a >= b then a else b }
  function MinReal(a: real, b: real): real { if a <= b then a else b }

  predicate IsDigit(c: char) {
    '0' <= c <= '9'
  }

  predicate AllDigits(s: string) {
    forall i :: 0 <= i < |s| ==> IsDigit(s[i])
  }

  function DigitValue(c: char): nat
    requires IsDigit(c)
  {
    c as int - '0' as int
  }

  /** The value of a string of decimal digits (0 for the empty string). */
  function DigitsValue(ds: string): nat
    requires AllDigits(ds)
    decreases |ds|
  {
    if ds == [] then 0 else DigitsValue(ds[..|ds| - 1]) * 10 + DigitValue(ds[|ds| - 1])
  }

  /** The value of the digits after the decimal point: `0.d1 d2 ...`, below 1. */
  function FractionValue(ds: string): (r: real)
    requires AllDigits(ds)
    ensures 0.0 <= r < 1.0
    decreases |ds|
  {
    if ds == [] then 0.0 else (DigitValue(ds[0]) as real + FractionValue(ds[1..])) / 10.0
  }

  /** Index of the first `c` in `s`, or -1 when there is none. */
  function IndexOf(s: string, c: char): (r: int)
    ensures -1 <= r < |s|
    ensures r >= 0 ==> s[r] == c && forall i :: 0 <= i < r ==> s[i] != c
    ensures r == -1 ==> forall i :: 0 <= i < |s| ==> s[i] != c
  {
    if s == [] then -1
    else if s[0] == c then 0
    else
      var k := IndexOf(s[1..], c);
      if k == -1 then -1 else k + 1
  }

  /** An unsigned decimal literal: digits with at most one `.` and at least one digit. */
  function ParseUnsigned(t: string): Option<real> {
    var d := IndexOf(t, '.');
    var whole := if d < 0 then t else t[..d];
    var frac := if d < 0 then "" else t[d + 1..];
    if AllDigits(whole) && AllDigits(frac) && |whole| + |frac| > 0
    then Some(DigitsValue(whole) as real + FractionValue(frac))
    else None
  }

  /**
   * `Number(text)` for decimal literals: surrounding white space is ignored, the
   * blank string is 0, an optional sign is allowed, and anything else is NaN.
   */
  function Parse(s: string): (r: Option<real>)
    ensures Text.IsBlank(s) ==> r == Some(0.0)
  {
    var t := Text.Trim(s);
    if t == [] then Some(0.0)
    else if t[0] == '-' then
      match ParseUnsigned(t[1..])
      case Some(v) => Some(-v)
      case None => None
    else if t[0] == '+' then ParseUnsigned(t[1..])
    else ParseUnsigned(t)
  }

  /** A number that is an integer, as an `int`; fractions and NaN give `None`. */
  function AsInteger(x: Option<real>): (r: Option<int>)
    ensures r.Some? ==> x == Some(r.value as real)
    ensures x.Some? && x.value == x.value.Floor as real ==> r.Some?
  {
    match x
    case Some(v) => if v == v.Floor as real then Some(v.Floor) else None
    case None => None
  }

  /** The decimal rendering of a natural number (`String(n)`). */
  function NatToString(n: nat): (s: string)
    ensures |s| > 0 && AllDigits(s)
  {
    if n < 10 then ['0' + n as char] else NatToString(n / 10) + ['0' + (n % 10) as char]
  }

  lemma {:induction false} DigitsOfNatToString(n: nat)
    ensures DigitsValue(NatToString(n)) == n
  {
    if n >= 10 {
      var s := NatToString(n);
      var p := NatToString(n / 10);
      assert s[..|s| - 1] == p;
      DigitsOfNatToString(n / 10);
    }
  }

  lemma DigitsHaveNoSpace(s: string)
    requires AllDigits(s)
    ensures Text.HasNoSpace(s)
  {
    forall i | 0 <= i < |s| ensures !Text.IsSpace(s[i]) {
      assert IsDigit(s[i]);
    }
  }

  /** A digit string has no decimal point. */
  lemma NoPointInDigits(d: string)
    requires AllDigits(d)
    ensures IndexOf(d, '.') == -1
  {
    forall i | 0 <= i < |d| ensures d[i] != '.' {
      assert IsDigit(d[i]);
    }
  }

  /** A plain digit string is an unsigned literal with its own value. */
  lemma UnsignedOfDigits(d: string)
    requires |d| > 0 && AllDigits(d)
    ensures ParseUnsigned(d) == Some(DigitsValue(d) as real)
  {
    NoPointInDigits(d);
    assert FractionValue("") == 0.0;
  }

  /** Round trip: `Number(String(n)) == n` for every natural number. */
  lemma ParseNatToString(n: nat)
    ensures Parse(NatToString(n)) == Some(n as real)
  {
    var s := NatToString(n);
    DigitsHaveNoSpace(s);
    assert Text.Trim(s) == s;
    assert IsDigit(s[0]);
    UnsignedOfDigits(s);
    DigitsOfNatToString(n);
  }

  /** Round trip for negative integers: `Number("-" + String(n)) == -n`. */
  lemma ParseNegativeNatToString(n: nat)
    ensures Parse("-" + NatToString(n)) == Some(-(n as real))
  {
    var d := NatToString(n);
    var s := "-" + d;
    DigitsHaveNoSpace(d);
    assert Text.HasNoSpace(s) by {
      forall i | 0 <= i < |s| ensures !Text.IsSpace(s[i]) {
        if i > 0 { assert s[i] == d[i - 1]; }
      }
    }
    ParseNegativeLiteral(s);
    assert s[1..] == d;
    UnsignedOfDigits(d);
    DigitsOfNatToString(n);
  }

  /** The empty and the blank input fields read as 0. */
  lemma ParseBlank(s: string)
    requires Text.IsBlank(s)
    ensures Parse(s) == Some(0.0)
  {
  }

  /** Text without white space that does not start with a sign is read as an unsigned literal. */
  lemma ParseUnsignedLiteral(t: string)
    requires Text.HasNoSpace(t) && t != [] && t[0] != '-' && t[0] != '+'
    ensures Parse(t) == ParseUnsigned(t)
  {
    assert Text.Trim(t) == t;
  }

  /** Text without white space that starts with `-` is read as the negated unsigned literal after the sign. */
  lemma ParseNegativeLiteral(t: string)
    requires Text.HasNoSpace(t) && t != [] && t[0] == '-'
    ensures ParseUnsigned(t[1..]).Some? ==> Parse(t) == Some(-ParseUnsigned(t[1..]).value)
  {
    assert Text.Trim(t) == t;
  }

  /** The literal `12.5` splits at its point into the whole part 12 and the fraction 0.5. */
  lemma UnsignedFractionExample()
    ensures ParseUnsigned("12.5") == Some(12.5)
  {
    var t := "12.5";
    assert IndexOf(t, '.') == 2;
    assert t[..2] == "12" && t[3..] == "5";
    assert DigitsValue("12") == 12 by { assert "12"[..1] == "1"; }
    assert FractionValue("5") == 0.5 by { assert "5"[1..] == ""; }
  }

  /** A fraction: `Number("12.5") == 12.5`. */
  lemma ParseFractionExample()
    ensures Parse("12.5") == Some(12.5)
  {
    var t := "12.5";
    assert Text.HasNoSpace(t) by {
      forall i | 0 <= i < |t| ensures !Text.IsSpace(t[i]) {
        assert t[i] in {'1', '2', '.', '5'};
      }
    }
    ParseUnsignedLiteral(t);
    UnsignedFractionExample();
  }
}
