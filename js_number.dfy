/**
 * The JavaScript number conversions the core uses: `String(n)` for integers,
 * `padStart(2, '0')`, and `parseInt(s, radix)` for radix 10 and 16
 * (ECMA-262, section 19.2.5). NaN is `None`.
 */
module JsNumber {
  import opened Common
  import JsString

  function DigitChar(d: nat): (c: char)
    requires d < 10
    ensures '0' <= c <= '9' && c as int - '0' as int == d
  {
    "0123456789"[d]
  }

  predicate AllDecimal(s: string) {
    forall k :: 0 <= k < |s| ==> '0' <= s[k] <= '9'
  }

  /** The decimal digits of `n`, without leading zeros. */
  function Digits(n: nat): (s: string)
    ensures |s| >= 1 && AllDecimal(s)
    ensures n >= 10 ==> s[0] != '0'
    decreases n
  {
    if n < 10 then [DigitChar(n)] else Digits(n / 10) + [DigitChar(n % 10)]
  }

  /** `String(n)` for an integer-valued number. */
  function NumberToString(n: int): string {
    if n < 0 then "-" + Digits(-n) else Digits(n)
  }

  /** The value of a digit character in the given radix, or -1 when it is not one. */
  function DigitValue(c: char, radix: nat): (v: int)
    ensures -1 <= v < radix
  {
    var d :=
      if '0' <= c <= '9' then c as int - '0' as int
      else if 'a' <= c <= 'z' then c as int - 'a' as int + 10
      else if 'A' <= c <= 'Z' then c as int - 'A' as int + 10
      else -1;
    if d < radix then d else -1
  }

  predicate IsDigit(c: char, radix: nat) {
    DigitValue(c, radix) >= 0
  }

  /** The number a string of digits denotes in the given radix. */
  function ValueOf(s: string, radix: nat): nat
    requires forall k :: 0 <= k < |s| ==> IsDigit(s[k], radix)
  {
    if |s| == 0 then 0
    else
      var init := s[..|s| - 1];
      assert forall k :: 0 <= k < |init| ==> init[k] == s[k];
      var d := DigitValue(s[|s| - 1], radix);
      assert d >= 0 by {
        assert IsDigit(s[|s| - 1], radix);
      }
      var p: nat := ValueOf(init, radix);
      ProductOfNats(p, radix);
      p * radix + d
  }

  lemma {:induction false} ProductOfNats(a: nat, b: nat)
    ensures a * b >= 0
  {
  }

  /** The length of the run of radix digits at the start of `s`. */
  function DigitRun(s: string, radix: nat): (n: nat)
    ensures n <= |s|
    ensures forall k :: 0 <= k < n ==> IsDigit(s[k], radix)
    ensures n < |s| ==> !IsDigit(s[n], radix)
  {
    if |s| > 0 && IsDigit(s[0], radix) then 1 + DigitRun(s[1..], radix) else 0
  }

  /** `parseInt(s, radix)`: skip leading white space, read an optional sign, for radix 16
      an optional `0x`/`0X`, then the longest run of digits; no digit at all is NaN. */
  function ParseInt(s: string, radix: nat): (r: Option<int>)
    requires radix == 10 || radix == 16
  {
    ParseSigned(JsString.TrimStart(s), radix)
  }

  /** parseInt after the leading white space is gone. */
  function ParseSigned(t: string, radix: nat): (r: Option<int>)
    requires radix == 10 || radix == 16
  {
    var negative := |t| > 0 && t[0] == '-';
    match ParseMagnitude(StripHexPrefix(StripSign(t), radix), radix)
    case None => None
    case Some(m) => Some(if negative then -m else m)
  }

  /** The text after an optional leading `-` or `+`. */
  function StripSign(t: string): string {
    if |t| > 0 && (t[0] == '-' || t[0] == '+') then t[1..] else t
  }

  /** For radix 16, the text after an optional `0x` or `0X`. */
  function StripHexPrefix(u: string, radix: nat): string {
    if radix == 16 && |u| >= 2 && u[0] == '0' && (u[1] == 'x' || u[1] == 'X') then u[2..] else u
  }

  /** The longest run of digits at the start of `v`, as a number; NaN when there is none. */
  function ParseMagnitude(v: string, radix: nat): (r: Option<int>)
  {
    var n := DigitRun(v, radix);
    if n == 0 then None else Some(ValueOf(v[..n], radix))
  }

  /** Reading back the digits `String(n)` writes gives `n`. */
  lemma {:induction false} DigitsValue(n: nat)
    ensures forall k :: 0 <= k < |Digits(n)| ==> IsDigit(Digits(n)[k], 10)
    ensures ValueOf(Digits(n), 10) == n
    decreases n
  {
    if n >= 10 {
      DigitsValue(n / 10);
      var s := Digits(n);
      assert s[..|s| - 1] == Digits(n / 10);
    }
  }

  /** A non-empty run of digits is read whole. */
  lemma {:induction false} MagnitudeOfDigits(v: string, radix: nat)
    requires |v| > 0 && forall k :: 0 <= k < |v| ==> IsDigit(v[k], radix)
    ensures ParseMagnitude(v, radix) == Some(ValueOf(v, radix))
  {
    RunOfDigits(v, radix);
    assert v[..|v|] == v;
  }

  /** A string not starting with white space is its own `trimStart`. */
  lemma {:induction false} TrimStartKeeps(s: string)
    requires |s| > 0 && !JsString.IsWhite(s[0])
    ensures JsString.TrimStart(s) == s
  {
  }

  /** Digits with no sign are read as they are. */
  lemma {:induction false} SignedOfDigits(v: string, radix: nat)
    requires radix == 10 || radix == 16
    requires |v| > 0 && forall k :: 0 <= k < |v| ==> IsDigit(v[k], radix)
    ensures ParseSigned(v, radix) == Some(ValueOf(v, radix))
  {
    assert StripSign(v) == v by {
      assert IsDigit(v[0], radix);
    }
    assert StripHexPrefix(v, radix) == v by {
      if |v| >= 2 {
        assert IsDigit(v[1], radix);
      }
    }
    MagnitudeOfDigits(v, radix);
  }

  /** A minus sign and decimal digits are read as the negated value. */
  lemma {:induction false} SignedOfNegative(v: string)
    requires |v| > 0 && forall k :: 0 <= k < |v| ==> IsDigit(v[k], 10)
    ensures ParseSigned("-" + v, 10) == Some(-(ValueOf(v, 10) as int))
  {
    var t := "-" + v;
    assert t[0] == '-' && t[1..] == v;
    assert StripHexPrefix(StripSign(t), 10) == v;
    MagnitudeOfDigits(v, 10);
  }

  /** parseInt(String(n), 10) == n for every integer: the decimal round trip. */
  lemma {:induction false} ParseIntOfString(n: int)
    ensures ParseInt(NumberToString(n), 10) == Some(n)
  {
    var d: nat := if n < 0 then -n else n;
    var v := Digits(d);
    DigitsValue(d);
    var s := NumberToString(n);
    if n < 0 {
      assert s == "-" + v;
      TrimStartKeeps(s);
      SignedOfNegative(v);
    } else {
      assert s == v;
      assert '0' <= v[0] <= '9';
      TrimStartKeeps(s);
      SignedOfDigits(v, 10);
    }
  }

  lemma {:induction false} RunOfDigits(v: string, radix: nat)
    requires forall k :: 0 <= k < |v| ==> IsDigit(v[k], radix)
    ensures DigitRun(v, radix) == |v|
  {
    if |v| > 0 {
      RunOfDigits(v[1..], radix);
    }
  }

  /** A non-empty string made only of digits parses to the number it denotes. */
  lemma {:induction false} ParseIntOfDigits(v: string, radix: nat)
    requires radix == 10 || radix == 16
    requires |v| > 0 && forall k :: 0 <= k < |v| ==> IsDigit(v[k], radix)
    ensures ParseInt(v, radix) == Some(ValueOf(v, radix))
  {
    assert IsDigit(v[0], radix);
    TrimStartKeeps(v);
    SignedOfDigits(v, radix);
  }

  /** `String(n).padStart(2, '0')`. */
  function Pad2(n: int): (s: string)
    ensures 0 <= n < 100 ==> |s| == 2 && AllDecimal(s)
    ensures 0 <= n < 100 ==> (s[0] as int - '0' as int) * 10 + (s[1] as int - '0' as int) == n
  {
    var t := NumberToString(n);
    assert 10 <= n < 100 ==> t == [DigitChar(n / 10), DigitChar(n % 10)] by {
      if 10 <= n < 100 {
        assert Digits(n / 10) == [DigitChar(n / 10)];
      }
    }
    if |t| >= 2 then t
    else if |t| == 1 then "0" + t
    else "00" + t
  }
}
