/**
 * The hexadecimal colour codec of the admin colour picker
 * (admin/src/components/common/CustomColorPicker.jsx): `hexToRgb` reads "#rrggbb"
 * (the '#' optional, the digits in either case) into three channels, and `rgbToHex`
 * writes three channels back as '#' and lower-case hexadecimal digits.
 */
module CustomColorPicker {
  import opened Wrappers
  import opened Strings

  datatype Rgb = Rgb(r: int, g: int, b: int)

  /** A digit as `toString(16)` writes it: a decimal digit or a lower-case letter. */
  predicate IsLowerHexDigit(c: char) {
    '0' <= c <= '9' || 'a' <= c <= 'f'
  }

  /** The digit `toString(16)` writes for a value below 16. */
  function HexChar(d: nat): (c: char)
    requires d < 16
    ensures IsLowerHexDigit(c) && IsHexDigit(c) && HexDigitValue(c) == d
  {
    if d < 10 then ('0' as int + d) as char else ('a' as int + d - 10) as char
  }

  /** A hexadecimal digit read and written again comes back in lower case. */
  lemma HexCharOfValue(c: char)
    requires IsHexDigit(c)
    ensures HexChar(HexDigitValue(c)) == ToLowerChar(c)
  {
  }

  /** `parseInt(pair, 16)` for two hexadecimal digits. */
  function PairValue(p: string): (v: nat)
    requires |p| == 2 && AllHex(p)
    ensures v < 256
  {
    16 * HexDigitValue(p[0]) + HexDigitValue(p[1])
  }

  /**
   * The six digits `^#?([a-f\d]{2})([a-f\d]{2})([a-f\d]{2})$` captures, when it matches:
   * six hexadecimal digits, alone or after one '#'.
   */
  function HexBody(hex: string): (r: Option<string>)
    ensures r.Some? ==> |r.value| == 6 && AllHex(r.value)
    ensures r.Some? ==> hex == r.value || hex == "#" + r.value
  {
    if |hex| == 7 && hex[0] == '#' && AllHex(hex[1..]) then Some(hex[1..])
    else if |hex| == 6 && AllHex(hex) then Some(hex)
    else None
  }

  /** `hexToRgb(hex)`: the three channels the pairs of digits spell, or null when the pattern does not match. */
  function HexToRgb(hex: string): (r: Option<Rgb>)
    ensures r.Some? <==> (|hex| == 6 && AllHex(hex)) || (|hex| == 7 && hex[0] == '#' && AllHex(hex[1..]))
    ensures r.Some? ==> 0 <= r.value.r < 256 && 0 <= r.value.g < 256 && 0 <= r.value.b < 256
  {
    match HexBody(hex)
    case None => None
    case Some(d) => Some(Rgb(PairValue(d[0..2]), PairValue(d[2..4]), PairValue(d[4..6])))
  }

  /** `n.toString(16)` for a natural number: lower-case digits, no leading zero. */
  function NatToHex(n: nat): (r: string)
    ensures |r| >= 1
    ensures forall i :: 0 <= i < |r| ==> IsLowerHexDigit(r[i])
  {
    if n < 16 then [HexChar(n)] else NatToHex(n / 16) + [HexChar(n % 16)]
  }

  /** `x.toString(16)` for an integer: a '-' in front of a negative value. */
  function IntToHex(x: int): string {
    if x < 0 then "-" + NatToHex(-x) else NatToHex(x)
  }

  /** One channel of `rgbToHex`: its hexadecimal text, with a '0' put in front of a single digit. */
  function Channel(x: int): string {
    var hex := IntToHex(x);
    if |hex| == 1 then "0" + hex else hex
  }

  /** `rgbToHex(r, g, b)`. */
  function RgbToHex(r: int, g: int, b: int): string {
    "#" + Channel(r) + Channel(g) + Channel(b)
  }

  /** A channel from 0 to 255 is written as exactly two lower-case digits, high digit first. */
  lemma {:induction false} ChannelOfByte(x: int)
    requires 0 <= x < 256
    ensures Channel(x) == [HexChar(x / 16), HexChar(x % 16)]
  {
    if x >= 16 {
      assert NatToHex(x / 16) == [HexChar(x / 16)];
    }
  }

  /** A channel below 16 gets a leading zero. */
  lemma ChannelZeroPadded(x: int)
    requires 0 <= x < 16
    ensures Channel(x) == ['0', HexChar(x)]
  {
    ChannelOfByte(x);
  }

  /** For channels from 0 to 255 the result is '#' and six lower-case hexadecimal digits. */
  lemma RgbToHexShape(r: int, g: int, b: int)
    requires 0 <= r < 256 && 0 <= g < 256 && 0 <= b < 256
    ensures var s := RgbToHex(r, g, b);
      |s| == 7 && s[0] == '#' && forall i :: 1 <= i < 7 ==> IsLowerHexDigit(s[i])
  {
    ChannelDigits(r);
    ChannelDigits(g);
    ChannelDigits(b);
    var s := RgbToHex(r, g, b);
    var cr, cg, cb := Channel(r), Channel(g), Channel(b);
    assert s == ['#', cr[0], cr[1], cg[0], cg[1], cb[0], cb[1]];
  }

  /** A channel from 0 to 255 is two lower-case hexadecimal digits. */
  lemma ChannelDigits(x: int)
    requires 0 <= x < 256
    ensures |Channel(x)| == 2 && IsLowerHexDigit(Channel(x)[0]) && IsLowerHexDigit(Channel(x)[1])
  {
    ChannelOfByte(x);
  }

  /** Reading back what `rgbToHex` writes gives the channels. */
  lemma HexToRgbOfRgbToHex(r: int, g: int, b: int)
    requires 0 <= r < 256 && 0 <= g < 256 && 0 <= b < 256
    ensures HexToRgb(RgbToHex(r, g, b)) == Some(Rgb(r, g, b))
  {
    var cr, cg, cb := Channel(r), Channel(g), Channel(b);
    ChannelReadBack(r);
    ChannelReadBack(g);
    ChannelReadBack(b);
    var d := cr + cg + cb;
    assert RgbToHex(r, g, b) == "#" + d;
    PairsJoined(cr, cg, cb);
    HexToRgbWithHash(d);
  }

  /** Three pairs of hexadecimal digits make six, and each pair is where it was put. */
  lemma PairsJoined(a: string, b: string, c: string)
    requires |a| == 2 && |b| == 2 && |c| == 2 && AllHex(a) && AllHex(b) && AllHex(c)
    ensures var d := a + b + c; |d| == 6 && AllHex(d) && d[0..2] == a && d[2..4] == b && d[4..6] == c
  {
    var d := a + b + c;
    forall i | 0 <= i < 6 ensures IsHexDigit(d[i]) {
      if i < 2 { assert d[i] == a[i]; }
      else if i < 4 { assert d[i] == b[i - 2]; }
      else { assert d[i] == c[i - 4]; }
    }
  }

  /** Six hexadecimal digits after a '#' read as the three pairs they hold. */
  lemma HexToRgbWithHash(d: string)
    requires |d| == 6 && AllHex(d)
    ensures HexToRgb("#" + d) == Some(Rgb(PairValue(d[0..2]), PairValue(d[2..4]), PairValue(d[4..6])))
  {
    assert ("#" + d)[1..] == d;
    assert HexBody("#" + d) == Some(d);
  }

  /** A channel from 0 to 255 is written as two digits that read back as the channel. */
  lemma ChannelReadBack(x: int)
    requires 0 <= x < 256
    ensures |Channel(x)| == 2 && AllHex(Channel(x)) && PairValue(Channel(x)) == x
  {
    ChannelOfByte(x);
  }

  /** Writing back what `hexToRgb` reads gives the six digits in lower case, with a '#'. */
  lemma RgbToHexOfHexToRgb(hex: string)
    requires HexToRgb(hex).Some?
    ensures var c := HexToRgb(hex).value;
      RgbToHex(c.r, c.g, c.b) == "#" + ToLower(HexBody(hex).value)
  {
    var d := HexBody(hex).value;
    var c := HexToRgb(hex).value;
    assert c == Rgb(PairValue(d[0..2]), PairValue(d[2..4]), PairValue(d[4..6]));
    PairChannel(d[0..2]);
    PairChannel(d[2..4]);
    PairChannel(d[4..6]);
    LowerSplit(d);
  }

  lemma LowerSplit(d: string)
    requires |d| == 6
    ensures ToLower(d) == ToLower(d[0..2]) + ToLower(d[2..4]) + ToLower(d[4..6])
  {
    var l := ToLower(d[0..2]) + ToLower(d[2..4]) + ToLower(d[4..6]);
    assert |l| == 6;
    forall k | 0 <= k < 6 ensures ToLower(d)[k] == l[k] {
      if k < 2 {
      } else if k < 4 {
        assert l[k] == ToLower(d[2..4])[k - 2];
      } else {
        assert l[k] == ToLower(d[4..6])[k - 4];
      }
    }
  }

  /** Two digits read as a channel and written again come back in lower case. */
  lemma PairChannel(p: string)
    requires |p| == 2 && AllHex(p)
    ensures Channel(PairValue(p)) == ToLower(p)
  {
    var hi, lo := HexDigitValue(p[0]), HexDigitValue(p[1]);
    DigitsOfByte(hi, lo);
    ChannelOfByte(16 * hi + lo);
    HexCharOfValue(p[0]);
    HexCharOfValue(p[1]);
    assert ToLower(p) == [ToLowerChar(p[0]), ToLowerChar(p[1])];
  }

  lemma DigitsOfByte(hi: nat, lo: nat)
    requires hi < 16 && lo < 16
    ensures (16 * hi + lo) / 16 == hi && (16 * hi + lo) % 16 == lo
  {
  }

  /** The `i` flag: the case of the letters does not change the channels. */
  lemma HexToRgbIgnoresCase(hex: string)
    ensures HexToRgb(ToLower(hex)) == HexToRgb(hex)
  {
    var l := ToLower(hex);
    LowerKeepsHex(hex);
    if |hex| == 7 {
      assert l[1..] == ToLower(hex[1..]);
      LowerKeepsHex(hex[1..]);
    }
    if HexBody(hex).Some? {
      var d := HexBody(hex).value;
      assert HexBody(l) == Some(ToLower(d));
      PairsLower(d);
    }
  }

  /** Lowering the case keeps hexadecimal digits hexadecimal, and nothing else becomes one. */
  lemma LowerKeepsHex(s: string)
    ensures AllHex(ToLower(s)) <==> AllHex(s)
  {
    var l := ToLower(s);
    if AllHex(s) {
      forall i | 0 <= i < |l| ensures IsHexDigit(l[i]) {
        assert l[i] == ToLowerChar(s[i]);
      }
    }
    if AllHex(l) {
      forall i | 0 <= i < |s| ensures IsHexDigit(s[i]) {
        assert IsHexDigit(l[i]);
      }
    }
  }

  /** Six digits in lower case read as the same three channels. */
  lemma PairsLower(d: string)
    requires |d| == 6 && AllHex(d)
    ensures var e := ToLower(d);
      AllHex(e) && PairValue(e[0..2]) == PairValue(d[0..2]) && PairValue(e[2..4]) == PairValue(d[2..4])
      && PairValue(e[4..6]) == PairValue(d[4..6])
  {
    var e := ToLower(d);
    LowerKeepsHex(d);
    forall k | 0 <= k < 6 ensures HexDigitValue(e[k]) == HexDigitValue(d[k]) {
    }
  }
}
