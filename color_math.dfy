/**
 * Colour math of the brand store: parsing `#RRGGBB` text, RGB to HSL, and the
 * black-or-white contrast pick. JavaScript numbers are modelled as exact
 * reals; `Math.round(x)` is `floor(x + 1/2)`.
 */
module ColorMath {
  import opened Wrappers
  import opened Text

  datatype Rgb = Rgb(r: int, g: int, b: int)
  datatype Hsl = Hsl(h: int, s: int, l: int)

  predicate IsHex6(s: string) {
    |s| == 6 && forall i :: 0 <= i < 6 ==> IsHexDigit(s[i])
  }

  /** `/^#[0-9A-F]{6}$/i`: the shape of every stored colour. */
  predicate IsHexColor(s: string) {
    |s| == 7 && s[0] == '#' && IsHex6(s[1..])
  }

  /** `/^#?([a-f\d]{2})([a-f\d]{2})([a-f\d]{2})$/i`: six hex digits, optionally after one `#`. */
  predicate MatchesHexPattern(s: string) {
    IsHex6(s) || IsHexColor(s)
  }

  /** `parseInt` of the two hex digits at `i`. */
  function PairValue(s: string, i: nat): (v: int)
    requires i + 2 <= |s| && IsHexDigit(s[i]) && IsHexDigit(s[i + 1])
    ensures 0 <= v <= 255
  {
    16 * HexValue(s[i]) + HexValue(s[i + 1])
  }

  predicate IsByteRgb(c: Rgb) {
    0 <= c.r <= 255 && 0 <= c.g <= 255 && 0 <= c.b <= 255
  }

  /** `hexToRgb`: the three channels of a six-digit hex colour, or `None`. */
  function HexToRgb(hex: string): (rgb: Option<Rgb>)
    ensures rgb.Some? <==> MatchesHexPattern(hex)
    ensures rgb.Some? ==> IsByteRgb(rgb.value)
  {
    if MatchesHexPattern(hex) then
      var d := hex[|hex| - 6..];
      Some(Rgb(PairValue(d, 0), PairValue(d, 2), PairValue(d, 4)))
    else None
  }

  /** Two upper-case hex digits for a byte. */
  function ByteToHex(v: int): string
    requires 0 <= v <= 255
  {
    [HexDigitUpper(v / 16), HexDigitUpper(v % 16)]
  }

  /** The inverse direction: the canonical upper-case six-digit text of a colour. */
  function RgbToHex(c: Rgb): (h: string)
    requires IsByteRgb(c)
    ensures IsHex6(h)
  {
    ByteToHex(c.r) + ByteToHex(c.g) + ByteToHex(c.b)
  }

  lemma HexValueOfUpper(c: char)
    requires IsHexDigit(c)
    ensures HexDigitUpper(HexValue(c)) == UpperChar(c)
  {
    if '0' <= c <= '9' {
      assert HexDigitUpper(HexValue(c)) == c;
    }
  }

  lemma DivMod16(hi: nat, lo: nat)
    requires hi < 16 && lo < 16
    ensures (16 * hi + lo) / 16 == hi && (16 * hi + lo) % 16 == lo
  {
  }

  lemma ByteToHexOfValues(hi: nat, lo: nat)
    requires hi < 16 && lo < 16
    ensures ByteToHex(16 * hi + lo) == [HexDigitUpper(hi), HexDigitUpper(lo)]
  {
    DivMod16(hi, lo);
  }

  lemma ByteToHexOfDigits(a: char, b: char)
    requires IsHexDigit(a) && IsHexDigit(b)
    ensures ByteToHex(16 * HexValue(a) + HexValue(b)) == [UpperChar(a), UpperChar(b)]
  {
    var hi, lo := HexValue(a), HexValue(b);
    DivMod16(hi, lo);
    HexValueOfUpper(a);
    HexValueOfUpper(b);
    ByteToHexOfValues(hi, lo);
  }

  lemma ByteToHexOfPair(s: string, i: nat)
    requires i + 2 <= |s| && IsHexDigit(s[i]) && IsHexDigit(s[i + 1])
    ensures ByteToHex(PairValue(s, i)) == [UpperChar(s[i]), UpperChar(s[i + 1])]
  {
    ByteToHexOfDigits(s[i], s[i + 1]);
  }

  /**
   * Re-deriving the hex text from the parsed channels gives back the six
   * digits of the input, upper-cased: parsing loses nothing but case.
   */
  lemma HexToRgbRoundTrip(hex: string)
    requires MatchesHexPattern(hex)
    ensures RgbToHex(HexToRgb(hex).value) == ToUpper(hex[|hex| - 6..])
  {
    var d := hex[|hex| - 6..];
    assert IsHex6(d);
    DigitsRoundTrip(d);
  }

  lemma DigitsRoundTrip(d: string)
    requires IsHex6(d)
    ensures RgbToHex(Rgb(PairValue(d, 0), PairValue(d, 2), PairValue(d, 4))) == ToUpper(d)
  {
    ByteToHexOfPair(d, 0);
    ByteToHexOfPair(d, 2);
    ByteToHexOfPair(d, 4);
    assert ToUpper(d) == [UpperChar(d[0]), UpperChar(d[1])] + [UpperChar(d[2]), UpperChar(d[3])]
      + [UpperChar(d[4]), UpperChar(d[5])];
  }

  /** Parsing the canonical text of a colour gives that colour back. */
  lemma RgbToHexRoundTrip(c: Rgb)
    requires IsByteRgb(c)
    ensures IsHex6(RgbToHex(c)) && HexToRgb(RgbToHex(c)) == Some(c)
  {
    var h := RgbToHex(c);
    assert h[6 - 6..] == h;
  }

  /** `Math.round`: to the nearest integer, halves upward. */
  function Round(x: real): (n: int)
    ensures x - 0.5 < n as real <= x + 0.5
  {
    (x + 0.5).Floor
  }

  function Max3(a: real, b: real, c: real): (m: real)
    ensures m == a || m == b || m == c
    ensures a <= m && b <= m && c <= m
  {
    if a >= b && a >= c then a else if b >= c then b else c
  }

  function Min3(a: real, b: real, c: real): (m: real)
    ensures m == a || m == b || m == c
    ensures m <= a && m <= b && m <= c
  {
    if a <= b && a <= c then a else if b <= c then b else c
  }

  /** The unrounded hue in [0, 1] (as a fraction of a turn) for channels in [0, 1]. */
  function Hue(r: real, g: real, b: real, max: real, min: real): (h: real)
    requires min < max && max == Max3(r, g, b) && min == Min3(r, g, b)
    ensures 0.0 <= h <= 1.0
  {
    var d := max - min;
    if max == r then
      QuotientBounds(g - b, d);
      ((g - b) / d + (if g < b then 6.0 else 0.0)) / 6.0
    else if max == g then
      QuotientBounds(b - r, d);
      ((b - r) / d + 2.0) / 6.0
    else
      QuotientBounds(r - g, d);
      ((r - g) / d + 4.0) / 6.0
  }

  lemma QuotientBounds(x: real, d: real)
    requires d > 0.0 && -d <= x <= d
    ensures -1.0 <= x / d <= 1.0
    ensures x < 0.0 ==> x / d < 0.0
  {
    var q := x / d;
    assert x == q * d;
  }

  /** The unrounded saturation in [0, 1]. */
  function Saturation(max: real, min: real): (s: real)
    requires 0.0 <= min < max <= 1.0
    ensures 0.0 <= s <= 1.0
  {
    var d := max - min;
    var l := (max + min) / 2.0;
    if l > 0.5 then
      var den := 2.0 - max - min;
      assert 0.0 < den && d <= den;
      QuotientBounds(d, den);
      d / den
    else
      var den := max + min;
      assert 0.0 < den && d <= den;
      QuotientBounds(d, den);
      d / den
  }

  /** The body of `hexToHsl` after parsing: HSL with each part rounded. */
  function RgbToHsl(c: Rgb): (hsl: Hsl)
    requires IsByteRgb(c)
    ensures 0 <= hsl.h <= 360 && 0 <= hsl.s <= 100 && 0 <= hsl.l <= 100
    ensures c.r == c.g == c.b ==> hsl.h == 0 && hsl.s == 0
  {
    var r, g, b := c.r as real / 255.0, c.g as real / 255.0, c.b as real / 255.0;
    var max, min := Max3(r, g, b), Min3(r, g, b);
    var l := (max + min) / 2.0;
    var h := if max == min then 0.0 else Hue(r, g, b, max, min);
    var s := if max == min then 0.0 else Saturation(max, min);
    Hsl(Round(h * 360.0), Round(s * 100.0), Round(l * 100.0))
  }

  /** `hexToHsl` as written: fails exactly when `hexToRgb` does. */
  function HexToHsl(hex: string): (hsl: Option<Hsl>)
    ensures hsl.Some? <==> HexToRgb(hex).Some?
    ensures hsl.Some? ==> 0 <= hsl.value.h <= 360 && 0 <= hsl.value.s <= 100 && 0 <= hsl.value.l <= 100
    ensures hsl.Some? && HexToRgb(hex).value.r == HexToRgb(hex).value.g == HexToRgb(hex).value.b
            ==> hsl.value.h == 0 && hsl.value.s == 0
  {
    match HexToRgb(hex)
    case None => None
    case Some(c) => Some(RgbToHsl(c))
  }

  /**
   * As written, the rounded hue can reach 360 — one past the top of the
   * usual [0, 360) range — for a red with a trace of blue: `#ff0002`.
   */
  lemma HueReaches360()
    ensures HexToHsl("#ff0002") == Some(Hsl(360, 100, 50))
  {
    var hex := "#ff0002";
    assert MatchesHexPattern(hex) by {
      assert IsHex6(hex[1..]);
    }
    var d := hex[|hex| - 6..];
    assert d == "ff0002";
    assert HexToRgb(hex) == Some(Rgb(255, 0, 2));
    var r, g, b := 1.0, 0.0, 2.0 / 255.0;
    assert Max3(r, g, b) == 1.0 && Min3(r, g, b) == 0.0;
    assert Hue(r, g, b, 1.0, 0.0) * 360.0 == 360.0 - 120.0 / 255.0;
    assert Round(360.0 - 120.0 / 255.0) == 360;
  }

  /** An angle in [0, 360] brought into [0, 360): `h % 360`. */
  function WrapHue(v: Hsl): (w: Hsl)
    requires 0 <= v.h <= 360
    ensures 0 <= w.h < 360 && w.s == v.s && w.l == v.l
    ensures w.h == v.h || (v.h == 360 && w.h == 0)
  {
    v.(h := v.h % 360)
  }

  /** `hexToHsl` with the hue as evidently intended: the same angle, kept within [0, 360). */
  function HexToHslWrapped(hex: string): (hsl: Option<Hsl>)
    ensures hsl.Some? <==> HexToRgb(hex).Some?
    ensures hsl.Some? ==> 0 <= hsl.value.h < 360 && 0 <= hsl.value.s <= 100 && 0 <= hsl.value.l <= 100
    ensures hsl.Some? ==>
      var v := HexToHsl(hex).value;
      hsl.value.s == v.s && hsl.value.l == v.l && (hsl.value.h == v.h || (v.h == 360 && hsl.value.h == 0))
  {
    var v := HexToHsl(hex);
    if v.None? then None else Some(WrapHue(v.value))
  }

  const Black := "#000000"
  const White := "#ffffff"

  /** `(0.299 r + 0.587 g + 0.114 b) / 255`, the weighted luma in [0, 1]. */
  function Luma(c: Rgb): (y: real)
    requires IsByteRgb(c)
    ensures 0.0 <= y <= 1.0
  {
    (0.299 * c.r as real + 0.587 * c.g as real + 0.114 * c.b as real) / 255.0
  }

  /** The luma test `> 0.5` without fractions: `299 r + 587 g + 114 b > 127500`. */
  lemma LumaAboveHalf(c: Rgb)
    requires IsByteRgb(c)
    ensures Luma(c) > 0.5 <==> 299 * c.r + 587 * c.g + 114 * c.b > 127500
  {
    var w := 299 * c.r + 587 * c.g + 114 * c.b;
    assert Luma(c) == w as real / 255000.0;
  }

  /** `getContrastColor`: black on light colours, white on dark ones, black when unparsable. */
  function GetContrastColor(hex: string): (text: string)
    ensures text == Black || text == White
    ensures HexToRgb(hex).None? ==> text == Black
    ensures HexToRgb(hex).Some? ==>
      var c := HexToRgb(hex).value;
      (text == Black <==> 299 * c.r + 587 * c.g + 114 * c.b > 127500)
  {
    match HexToRgb(hex)
    case None => Black
    case Some(c) =>
      LumaAboveHalf(c);
      if Luma(c) > 0.5 then Black else White
  }
}
