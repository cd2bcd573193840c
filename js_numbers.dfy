/** `parseInt` (without a radix) and `parseFloat` as the source applies them to
    the pieces of a period label and to a stripped amount label, together with
    the decimal rendering used to state their round trips. */
module JsNumbers {
  import opened JsValues
  import opened JsStrings

  predicate IsDigit(c: char) {
    '0' <= c <= '9'
  }

  predicate AllDigits(s: string) {
    forall i :: 0 <= i < |s| ==> IsDigit(s[i])
  }

  function DigitValue(c: char): (r: nat)
    requires IsDigit(c)
    ensures r < 10
  {
    c as int - '0' as int
  }

  predicate IsHexDigit(c: char) {
    IsDigit(c) || ('a' <= c <= 'f') || ('A' <= c <= 'F')
  }

  function HexDigitValue(c: char): (r: nat)
    requires IsHexDigit(c)
    ensures r < 16
  {
    if IsDigit(c) then DigitValue(c)
    else if 'a' <= c <= 'f' then c as int - 'a' as int + 10
    else c as int - 'A' as int + 10
  }

  /** The longest prefix of `s` made of decimal digits. */
  function DigitPrefix(s: string): (r: string)
    ensures |r| <= |s| && r == s[..|r|] && AllDigits(r)
    ensures |r| == |s| || !IsDigit(s[|r|])
    decreases |s|
  {
    if s != [] && IsDigit(s[0]) then [s[0]] + DigitPrefix(s[1..]) else []
  }

  /** The longest prefix of `s` made of hexadecimal digits. */
  function HexPrefix(s: string): (r: string)
    ensures |r| <= |s| && r == s[..|r|]
    ensures forall i :: 0 <= i < |r| ==> IsHexDigit(r[i])
    decreases |s|
  {
    if s != [] && IsHexDigit(s[0]) then [s[0]] + HexPrefix(s[1..]) else []
  }

  /** The value of a string of decimal digits. */
  function DecimalValue(ds: string): nat
    requires AllDigits(ds)
    decreases |ds|
  {
    if ds == [] then 0 else DecimalValue(ds[..|ds| - 1]) * 10 + DigitValue(ds[|ds| - 1])
  }

  /** The value of a string of hexadecimal digits. */
  function HexValue(hs: string): nat
    requires forall i :: 0 <= i < |hs| ==> IsHexDigit(hs[i])
    decreases |hs|
  {
    if hs == [] then 0 else HexValue(hs[..|hs| - 1]) * 16 + HexDigitValue(hs[|hs| - 1])
  }

  function Pow10(n: nat): (r: nat)
    ensures r >= 1
  {
    if n == 0 then 1 else 10 * Pow10(n - 1)
  }

  function Signed(negative: bool, x: real): real {
    if negative then -x else x
  }

  /** The sign a numeric literal may start with, and what follows it. */
  function SignOf(t: string): (bool, string) {
    if t != [] && (t[0] == '-' || t[0] == '+') then (t[0] == '-', t[1..]) else (false, t)
  }

  /** `parseInt(s)` with no radix: leading white space skipped, an optional
      sign, then a `0x`/`0X` prefix selects hexadecimal; the longest run of
      digits that follows is the value, and NaN when there is none. */
  function ParseInt(s: string): JsNumber {
    var (negative, u) := SignOf(TrimStart(s));
    if |u| >= 2 && u[0] == '0' && (u[1] == 'x' || u[1] == 'X') then
      var h := HexPrefix(u[2..]);
      if h == [] then NaN else Fin(Signed(negative, HexValue(h) as real))
    else
      var d := DigitPrefix(u);
      if d == [] then NaN else Fin(Signed(negative, DecimalValue(d) as real))
  }

  /** `parseFloat(s)` for literals without exponent: leading white space
      skipped, an optional sign, then the unsigned literal. */
  function ParseFloat(s: string): JsNumber {
    var (negative, u) := SignOf(TrimStart(s));
    match UnsignedFloat(u)
    case NaN => NaN
    case Fin(x) => Fin(Signed(negative, x))
  }

  /** The longest prefix `digits[.digits]` or `.digits` of `u`, as a
      number; NaN when no digit starts the text. */
  function UnsignedFloat(u: string): JsNumber {
    var whole := DigitPrefix(u);
    var rest := u[|whole|..];
    var frac := if rest != [] && rest[0] == '.' then DigitPrefix(rest[1..]) else [];
    if whole == [] && frac == [] then NaN else Fin(DecimalReal(whole, frac))
  }

  /** The exact value of the literal `whole.frac`. */
  function DecimalReal(whole: string, frac: string): real
    requires AllDigits(whole) && AllDigits(frac)
  {
    DecimalValue(whole) as real + DecimalValue(frac) as real / Pow10(|frac|) as real
  }

  /** The shortest decimal rendering of `n` (what `String(n)` gives). */
  function DecimalText(n: nat): (r: string)
    ensures r != [] && AllDigits(r)
    decreases n
  {
    if n < 10 then [('0' as int + n) as char]
    else DecimalText(n / 10) + [('0' as int + n % 10) as char]
  }

  /** `n` rendered with at least `width` digits, zero-padded on the left. */
  function PaddedText(n: nat, width: nat): (r: string)
    ensures r != [] && AllDigits(r)
  {
    var t := DecimalText(n);
    if |t| >= width then t else seq(width - |t|, _ => '0') + t
  }

  /** Reading back the rendering of a number gives the number. */
  lemma {:induction false} DecimalTextValue(n: nat)
    ensures DecimalValue(DecimalText(n)) == n
    decreases n
  {
    if n >= 10 {
      DecimalTextValue(n / 10);
      var t := DecimalText(n);
      assert t[..|t| - 1] == DecimalText(n / 10);
    }
  }

  /** Leading zeros do not change the value of a digit string. */
  lemma {:induction false} LeadingZeros(k: nat, ds: string)
    requires AllDigits(ds)
    ensures AllDigits(seq(k, _ => '0') + ds)
    ensures DecimalValue(seq(k, _ => '0') + ds) == DecimalValue(ds)
    decreases |ds|
  {
    var z: string := seq(k, _ => '0');
    if ds == [] {
      assert z + ds == z;
      ZerosValue(k);
    } else {
      LeadingZeros(k, ds[..|ds| - 1]);
      assert (z + ds)[..|z + ds| - 1] == z + ds[..|ds| - 1];
    }
  }

  lemma {:induction false} ZerosValue(k: nat)
    ensures AllDigits(seq(k, _ => '0'))
    ensures DecimalValue(seq(k, _ => '0')) == 0
  {
    if k > 0 {
      ZerosValue(k - 1);
      var z: string := seq(k, _ => '0');
      assert z[..k - 1] == seq(k - 1, _ => '0');
    }
  }

  /** Reading back a zero-padded rendering gives the number. */
  lemma PaddedTextValue(n: nat, width: nat)
    ensures DecimalValue(PaddedText(n, width)) == n
  {
    DecimalTextValue(n);
    var t := DecimalText(n);
    if |t| < width { LeadingZeros(width - |t|, t); }
  }

  /** A digit string is its own digit prefix, also when followed by a
      character that is not a digit. */
  lemma {:induction false} DigitPrefixOf(ds: string, rest: string)
    requires AllDigits(ds)
    requires rest == [] || !IsDigit(rest[0])
    ensures DigitPrefix(ds + rest) == ds
    decreases |ds|
  {
    if ds != [] {
      assert (ds + rest)[1..] == ds[1..] + rest;
      DigitPrefixOf(ds[1..], rest);
    } else {
      assert ds + rest == rest;
    }
  }

  /** `parseInt` reads back a plain digit string. */
  lemma ParseIntDigits(ds: string)
    requires ds != [] && AllDigits(ds)
    ensures ParseInt(ds) == Fin(DecimalValue(ds) as real)
  {
    DigitPrefixOf(ds, []);
    assert ds + [] == ds;
    assert !IsSpace(ds[0]);
    assert TrimStart(ds) == ds;
    assert SignOf(ds) == (false, ds);
    assert !(|ds| >= 2 && (ds[1] == 'x' || ds[1] == 'X')) by {
      if |ds| >= 2 { assert IsDigit(ds[1]); }
    }
  }

  /** `parseFloat` reads back `whole.frac` exactly. */
  lemma ParseFloatDecimal(whole: string, frac: string)
    requires whole != [] && AllDigits(whole) && AllDigits(frac)
    ensures ParseFloat(whole + "." + frac) == Fin(DecimalReal(whole, frac))
  {
    var s := whole + "." + frac;
    assert s[0] == whole[0] && !IsSpace(s[0]);
    assert TrimStart(s) == s;
    assert SignOf(s) == (false, s);
    UnsignedFloatDecimal(whole, frac);
  }

  lemma UnsignedFloatDecimal(whole: string, frac: string)
    requires whole != [] && AllDigits(whole) && AllDigits(frac)
    ensures UnsignedFloat(whole + "." + frac) == Fin(DecimalReal(whole, frac))
  {
    var s := whole + "." + frac;
    assert s == whole + ("." + frac);
    DigitPrefixOf(whole, "." + frac);
    assert s[|whole|..] == "." + frac;
    assert ("." + frac)[1..] == frac;
    DigitPrefixOf(frac, []);
    assert frac + [] == frac;
  }
}
