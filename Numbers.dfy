/**
 * Decimal number parsing as JavaScript does it. A result of `None` stands for NaN.
 *  - `ParseFloat` is `parseFloat`: leading white space is skipped and the longest
 *    decimal prefix is read.
 *  - `ToNumber` is `Number(string)`: the whole trimmed string must be a decimal
 *    literal, and the empty string is 0.
 *  - `ParseInt` is `parseInt(string)` without a radix: after the sign, a "0x" or
 *    "0X" prefix makes it read the longest prefix of hexadecimal digits, and otherwise
 *    the longest prefix of decimal digits is read.
 */
module Numbers {
  import opened Wrappers
  import opened Strings

  /** The longest prefix of `s` made of decimal digits. */
  function DigitPrefix(s: string): (r: string)
    ensures |r| <= |s| && r == s[..|r|] && AllDigits(r)
    ensures |r| < |s| ==> !IsDigit(s[|r|])
  {
    if s == [] || !IsDigit(s[0]) then [] else [s[0]] + DigitPrefix(s[1..])
  }

  lemma {:induction false} DigitPrefixOfDigits(s: string)
    requires AllDigits(s)
    ensures DigitPrefix(s) == s
  {
    if s != [] {
      DigitPrefixOfDigits(s[1..]);
    }
  }

  /** The value of the fractional digits `b` read after a decimal point: 0.b as a real. */
  function Fraction(b: string): (r: real)
    requires AllDigits(b)
    ensures 0.0 <= r <= 1.0
  {
    if b == [] then 0.0 else (DigitValue(b[0]) as real + Fraction(b[1..])) / 10.0
  }

  /**
   * An unsigned decimal literal at the start of `s`: digits, optionally a point and more digits,
   * with at least one digit in all. Gives the value and the number of characters read.
   */
  function UnsignedPrefix(s: string): (r: Option<(real, nat)>)
    ensures r.Some? ==> 0.0 <= r.value.0 && 1 <= r.value.1 <= |s|
    ensures r.None? <==> (s == [] || (!IsDigit(s[0]) && (s[0] != '.' || |s| == 1 || !IsDigit(s[1]))))
  {
    var a := DigitPrefix(s);
    var rest := s[|a|..];
    if |rest| > 0 && rest[0] == '.' then
      var b := DigitPrefix(rest[1..]);
      if |a| + |b| == 0 then None
      else Some((DigitsValue(a) as real + Fraction(b), |a| + 1 + |b|))
    else if |a| == 0 then None
    else Some((DigitsValue(a) as real, |a|))
  }

  /** An optional leading sign: whether it is '-', and the rest of the string. */
  function Sign(s: string): (r: (bool, string))
    ensures r.1 == s || (|s| >= 1 && r.1 == s[1..])
  {
    if |s| > 0 && (s[0] == '-' || s[0] == '+') then (s[0] == '-', s[1..]) else (false, s)
  }

  function Signed(negative: bool, v: real): real {
    if negative then -v else v
  }

  /** `parseFloat(s)`. */
  function ParseFloat(s: string): (r: Option<real>)
    ensures r.None? <==> UnsignedPrefix(Sign(TrimStart(s)).1).None?
  {
    var sign := Sign(TrimStart(s));
    var prefix := UnsignedPrefix(sign.1);
    if prefix.None? then None else Some(Signed(sign.0, prefix.value.0))
  }

  /** `Number(s)` for a string `s`. */
  function ToNumber(s: string): (r: Option<real>)
    ensures Trim(s) == [] ==> r == Some(0.0)
  {
    var t := Trim(s);
    if t == [] then Some(0.0)
    else
      var sign := Sign(t);
      var prefix := UnsignedPrefix(sign.1);
      if prefix.Some? && prefix.value.1 == |sign.1| then Some(Signed(sign.0, prefix.value.0)) else None
  }

  /** A "0x" or "0X" prefix, which makes `parseInt` without a radix read hexadecimal. */
  predicate HexPrefixed(t: string) {
    |t| >= 2 && t[0] == '0' && (t[1] == 'x' || t[1] == 'X')
  }

  /** The longest prefix of `s` made of hexadecimal digits. */
  function HexPrefix(s: string): (r: string)
    ensures |r| <= |s| && r == s[..|r|] && AllHex(r)
    ensures |r| < |s| ==> !IsHexDigit(s[|r|])
  {
    if s == [] || !IsHexDigit(s[0]) then [] else [s[0]] + HexPrefix(s[1..])
  }

  lemma {:induction false} HexPrefixOfHex(s: string)
    requires AllHex(s)
    ensures HexPrefix(s) == s
  {
    if s != [] {
      HexPrefixOfHex(s[1..]);
    }
  }

  /** The value of hexadecimal digits, most significant first. */
  function HexDigitsValue(s: string): nat
    requires AllHex(s)
  {
    if s == [] then 0 else 16 * HexDigitsValue(s[..|s| - 1]) + HexDigitValue(s[|s| - 1])
  }

  /** The digits `parseInt` reads after the sign, and the radix they are read in. */
  function IntDigits(t: string): (r: (string, nat))
    ensures r.1 == 16 ==> AllHex(r.0)
    ensures r.1 != 16 ==> AllDigits(r.0)
  {
    if HexPrefixed(t) then (HexPrefix(t[2..]), 16) else (DigitPrefix(t), 10)
  }

  /** `parseInt(s)`, no radix given. */
  function ParseInt(s: string): (r: Option<int>)
    ensures var t := Sign(TrimStart(s)).1;
      && (!HexPrefixed(t) ==> (r.None? <==> t == [] || !IsDigit(t[0])))
      && (HexPrefixed(t) ==> (r.None? <==> |t| == 2 || !IsHexDigit(t[2])))
  {
    var sg := Sign(TrimStart(s));
    var d := IntDigits(sg.1);
    if d.0 == [] then None
    else
      var v := if d.1 == 16 then HexDigitsValue(d.0) else DigitsValue(d.0);
      if sg.0 then Some(-(v as int)) else Some(v as int)
  }

  /** After "0x" or "0X", with or without a '-' in front, the hexadecimal digits are read as a number. */
  lemma ParseIntHex(t: string)
    requires HexPrefixed(t) && |t| > 2 && AllHex(t[2..])
    ensures ParseInt(t) == Some(HexDigitsValue(t[2..]) as int)
    ensures ParseInt("-" + t) == Some(-(HexDigitsValue(t[2..]) as int))
  {
    HexPrefixOfHex(t[2..]);
    assert IntDigits(t) == (t[2..], 16);
    SignOfUnsigned(t);
    SignOfNegative(t);
  }

  /** A text starting with a digit has no sign and no leading white space. */
  lemma SignOfUnsigned(t: string)
    requires t != [] && IsDigit(t[0])
    ensures Sign(TrimStart(t)) == (false, t)
  {
    TrimNoOpStart(t);
  }

  /** A '-' before a text starting with a digit is its sign. */
  lemma SignOfNegative(t: string)
    requires t != [] && IsDigit(t[0])
    ensures Sign(TrimStart("-" + t)) == (true, t)
  {
    var s := "-" + t;
    TrimNoOpStart(s);
    assert s[1..] == t;
  }

  /** `parseInt("0x1A")` is 26. */
  lemma ParseIntHexSample()
    ensures ParseInt("0x1A") == Some(26)
  {
    var t := "0x1A";
    assert t[2..] == ['1', 'A'];
    ParseIntHex(t);
    HexPairValue('1', 'A');
  }

  /** Two hexadecimal digits are worth 16 times the first plus the second. */
  lemma HexPairValue(a: char, b: char)
    requires IsHexDigit(a) && IsHexDigit(b)
    ensures HexDigitsValue([a, b]) == 16 * HexDigitValue(a) + HexDigitValue(b)
  {
    var s := [a, b];
    assert s[..|s| - 1] == [a];
    assert [a][..0] == [];
    assert HexDigitsValue([a]) == HexDigitValue(a);
  }

  /** `parseInt("0xZ")` is NaN: no hexadecimal digit follows the prefix. */
  lemma ParseIntHexNaN()
    ensures ParseInt("0xZ") == None
  {
    var t := "0xZ";
    SignOfUnsigned(t);
    assert HexPrefixed(t) && !IsHexDigit(t[2]);
  }

  /** Reading back the rendering of an integer gives the integer. */
  lemma ParseIntOfIntToString(n: int)
    ensures ParseInt(IntToString(n)) == Some(n)
  {
    var m: nat := if n < 0 then -n else n;
    var d := NatToString(m);
    DigitsValueOfNatToString(m);
    if n < 0 {
      assert IntToString(n)[1..] == d;
      ParseIntNegativeDecimal(IntToString(n));
    } else {
      assert IntToString(n) == d;
      ParseIntDecimal(d);
    }
  }

  /** Decimal digits are read as a number. */
  lemma ParseIntDecimal(d: string)
    requires d != [] && AllDigits(d)
    ensures ParseInt(d) == Some(DigitsValue(d) as int)
  {
    DecimalDigits(d);
    SignOfUnsigned(d);
  }

  /** Decimal digits after a '-' are read as a negative number. */
  lemma ParseIntNegativeDecimal(s: string)
    requires |s| > 1 && s[0] == '-' && AllDigits(s[1..])
    ensures ParseInt(s) == Some(-(DigitsValue(s[1..]) as int))
  {
    var d := s[1..];
    DecimalDigits(d);
    TrimNoOpStart(s);
    assert Sign(TrimStart(s)) == (true, d);
  }

  /** Text made of decimal digits has no hexadecimal prefix, and all of it is read. */
  lemma DecimalDigits(d: string)
    requires AllDigits(d)
    ensures IntDigits(d) == (d, 10)
  {
    DigitPrefixOfDigits(d);
    assert !HexPrefixed(d) by {
      if |d| >= 2 {
        assert IsDigit(d[1]);
      }
    }
  }

  /** Reading back the rendering of a natural number as a JavaScript number gives the number. */
  lemma NumberOfNatToString(n: nat)
    ensures ToNumber(NatToString(n)) == Some(n as real)
    ensures ParseFloat(NatToString(n)) == Some(n as real)
  {
    var d := NatToString(n);
    DigitPrefixOfDigits(d);
    DigitsValueOfNatToString(n);
    TrimNoOp(d);
    TrimNoOpStart(d);
    assert d[|d|..] == [];
  }

  lemma TrimNoOpStart(s: string)
    requires s == [] || !IsSpace(s[0])
    ensures TrimStart(s) == s
  {
  }
}
