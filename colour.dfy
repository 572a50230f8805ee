/**
  The colour helpers of the hardened copy: `rgbToHex` writes three channels as a
  `#rrggbb` string and `hexToRgb` reads one back, falling back to black.
 */
module Colour {

  /** A channel clamped to 0..255, as `Math.max(0, Math.min(255, x))`. */
  function Clamp(x: int): (r: nat)
    ensures r <= 255
    ensures 0 <= x <= 255 ==> r == x
    ensures x < 0 ==> r == 0
    ensures x > 255 ==> r == 255
  {
    if x < 0 then 0 else if x > 255 then 255 else x
  }

  /** A lower-case hexadecimal digit, as `toString(16)` writes it. */
  function Digit(d: nat): (c: char)
    requires d < 16
    ensures IsHexChar(c) && HexValue(c) == d
  {
    if d < 10 then ('0' as int + d) as char else ('a' as int + d - 10) as char
  }

  predicate IsLowerHex(c: char)
  {
    '0' <= c <= '9' || 'a' <= c <= 'f'
  }

  /** A character the `[a-f\d]` class accepts under the `i` flag. */
  predicate IsHexChar(c: char)
  {
    '0' <= c <= '9' || 'a' <= c <= 'f' || 'A' <= c <= 'F'
  }

  function HexValue(c: char): (d: nat)
    requires IsHexChar(c)
    ensures d < 16
  {
    if '0' <= c <= '9' then c as int - '0' as int
    else if 'a' <= c <= 'f' then c as int - 'a' as int + 10
    else c as int - 'A' as int + 10
  }

  /** `n.toString(16)`: the shortest lower-case hexadecimal numeral of `n`. */
  function ToHex(n: nat): (s: seq<char>)
    ensures |s| >= 1 && forall i :: 0 <= i < |s| ==> IsLowerHex(s[i])
  {
    if n < 16 then [Digit(n)] else ToHex(n / 16) + [Digit(n % 16)]
  }

  /**
    One channel of `rgbToHex`: clamped, in hexadecimal, padded to two digits. It is
    always two lower-case digits that read back as the clamped value.
   */
  function Channel(x: int): (s: string)
    ensures |s| == 2 && IsLowerHex(s[0]) && IsLowerHex(s[1]) && PairValue(s) == Clamp(x)
  {
    var c := Clamp(x);
    var hex := ToHex(c);
    if |hex| == 1 then
      assert c < 16 && hex == [Digit(c)];
      ['0'] + hex
    else
      assert c >= 16 && c / 16 < 16 && ToHex(c / 16) == [Digit(c / 16)];
      assert hex == [Digit(c / 16), Digit(c % 16)];
      hex
  }

  /** Two hexadecimal digits read as `parseInt(pair, 16)`. */
  function PairValue(s: string): (r: nat)
    requires |s| == 2 && IsHexChar(s[0]) && IsHexChar(s[1])
    ensures r <= 255
  {
    HexValue(s[0]) * 16 + HexValue(s[1])
  }

  function RgbToHex(r: int, g: int, b: int): (s: string)
    ensures |s| == 7 && s[0] == '#'
    ensures forall i :: 1 <= i < 7 ==> IsLowerHex(s[i])
  {
    "#" + Channel(r) + Channel(g) + Channel(b)
  }

  /** The strings `/^#?([a-f\d]{2}){3}$/i` accepts. */
  predicate IsHexColour(s: string)
  {
    var d := Digits(s);
    |d| == 6 && forall i :: 0 <= i < 6 ==> IsHexChar(d[i])
  }

  /** The part after the optional leading `#`. */
  function Digits(s: string): (d: string)
    ensures |s| > 0 && s[0] == '#' ==> s == ['#'] + d
    ensures !(|s| > 0 && s[0] == '#') ==> d == s
  {
    if |s| > 0 && s[0] == '#' then s[1..] else s
  }

  /** `hexToRgb`: the three pairs of a well-formed colour, or black for anything else. */
  function HexToRgb(s: string): (rgb: seq<nat>)
    ensures |rgb| == 3 && forall i :: 0 <= i < 3 ==> rgb[i] <= 255
    ensures !IsHexColour(s) ==> rgb == [0, 0, 0]
  {
    if IsHexColour(s) then
      var d := Digits(s);
      [PairValue(d[0..2]), PairValue(d[2..4]), PairValue(d[4..6])]
    else
      [0, 0, 0]
  }

  /** Writing a colour and reading it back gives the clamped channels. */
  lemma HexRoundTrip(r: int, g: int, b: int)
    ensures IsHexColour(RgbToHex(r, g, b))
    ensures HexToRgb(RgbToHex(r, g, b)) == [Clamp(r), Clamp(g), Clamp(b)]
  {
    var c0, c1, c2 := Channel(r), Channel(g), Channel(b);
    var s := RgbToHex(r, g, b);
    assert s == "#" + c0 + c1 + c2;
    assert Digits(s) == c0 + c1 + c2;
    SplitSix(c0, c1, c2);
  }

  /** Three two-character strings joined split back at 2 and 4. */
  lemma SplitSix(c0: string, c1: string, c2: string)
    requires |c0| == 2 && |c1| == 2 && |c2| == 2
    ensures var d := c0 + c1 + c2;
      |d| == 6 && d[0..2] == c0 && d[2..4] == c1 && d[4..6] == c2
  {
    var d := c0 + c1 + c2;
    assert d[0..2] == c0;
    assert d[2..4] == c1;
    assert d[4..6] == c2;
  }

  function Lower(c: char): char
  {
    if 'A' <= c <= 'F' then (c as int - 'A' as int + 'a' as int) as char else c
  }

  /** Reading a well-formed colour and writing it back gives `#` and its digits in lower case. */
  lemma HexNormalises(s: string)
    requires IsHexColour(s)
    ensures var d := Digits(s);
      RgbToHex(HexToRgb(s)[0], HexToRgb(s)[1], HexToRgb(s)[2])
        == ['#', Lower(d[0]), Lower(d[1]), Lower(d[2]), Lower(d[3]), Lower(d[4]), Lower(d[5])]
  {
    var d := Digits(s);
    var rgb := HexToRgb(s);
    assert d[0..2] == [d[0], d[1]] && d[2..4] == [d[2], d[3]] && d[4..6] == [d[4], d[5]];
    assert rgb == [PairValue([d[0], d[1]]), PairValue([d[2], d[3]]), PairValue([d[4], d[5]])];
    PairDigits(d[0], d[1]);
    PairDigits(d[2], d[3]);
    PairDigits(d[4], d[5]);
    var c0, c1, c2 := Channel(rgb[0]), Channel(rgb[1]), Channel(rgb[2]);
    assert RgbToHex(rgb[0], rgb[1], rgb[2]) == "#" + c0 + c1 + c2;
    JoinPairs(Lower(d[0]), Lower(d[1]), Lower(d[2]), Lower(d[3]), Lower(d[4]), Lower(d[5]));
  }

  /** `#` followed by three pairs is `#` followed by their six characters. */
  lemma JoinPairs(a: char, b: char, c: char, d: char, e: char, f: char)
    ensures "#" + [a, b] + [c, d] + [e, f] == ['#', a, b, c, d, e, f]
  {
  }

  /** One pair read and written again comes out as its own two digits in lower case. */
  lemma PairDigits(c0: char, c1: char)
    requires IsHexChar(c0) && IsHexChar(c1)
    ensures Channel(PairValue([c0, c1])) == [Lower(c0), Lower(c1)]
  {
    var v := PairValue([c0, c1]);
    var h0, h1 := HexValue(c0), HexValue(c1);
    assert v == h0 * 16 + h1 && Clamp(v) == v;
    assert v / 16 == h0 && v % 16 == h1;
    assert Digit(h0) == Lower(c0);
    assert Digit(h1) == Lower(c1);
    if v >= 16 {
      assert ToHex(v) == [Digit(h0), Digit(h1)];
    } else {
      assert h0 == 0 && Lower(c0) == '0';
      assert ToHex(v) == [Digit(h1)];
    }
  }
}
