/**
 * Relative luminance and the choice of a readable text colour
 * (`getRelativeLuminance`, `getReadableTextColor`, app.js:192-211).
 *
 * `Math.pow(x, 2.4)` has no exact counterpart over the reals Dafny computes
 * with, so it is a parameter `pow24`; where a bound on the luminance is
 * needed, `PowInUnit` states what the real power function satisfies.
 */
module Contrast {
  import opened HexCodec

  /** The two themes a token map is generated for. */
  datatype Theme = Light | Dark

  /** The light text colour. */
  const White: HexColor := "#ffffff"

  /** The dark text colour. */
  const Ink: HexColor := "#0b1011"

  /** `x^2.4` maps `[0, 1]` into `[0, 1]`, as the real power function does. */
  ghost predicate PowInUnit(pow24: real -> real) {
    forall x :: 0.0 <= x <= 1.0 ==> 0.0 <= pow24(x) <= 1.0
  }

  /**
   * One channel linearised as sRGB prescribes: linear below the knee at
   * 0.03928, the 2.4 power of the shifted value above it (app.js:194-197).
   */
  function ChannelLinear(value: Byte, pow24: real -> real): (y: real)
    ensures value as real / 255.0 <= 0.03928 ==> y == value as real / 255.0 / 12.92
    ensures PowInUnit(pow24) ==> 0.0 <= y <= 1.0
  {
    var v := value as real / 255.0;
    if v <= 0.03928 then v / 12.92 else pow24((v + 0.055) / 1.055)
  }

  /** `getRelativeLuminance` (app.js:192-203): the weighted sum of the linearised channels. */
  function RelativeLuminance(hex: HexColor, pow24: real -> real): (lum: real)
    ensures PowInUnit(pow24) ==> 0.0 <= lum <= 1.0
  {
    var c := HexToRgb(hex);
    0.2126 * ChannelLinear(c.r, pow24) + 0.7152 * ChannelLinear(c.g, pow24) + 0.0722 * ChannelLinear(c.b, pow24)
  }

  /**
   * `getReadableTextColor` (app.js:205-211): white in the dark theme; in the
   * light theme white exactly when white text has the higher contrast ratio
   * against the colour than the dark text has.
   */
  function ReadableTextColor(hex: HexColor, theme: Theme, pow24: real -> real): (text: HexColor)
    requires PowInUnit(pow24)
    ensures text == White || text == Ink
    ensures theme == Dark ==> text == White
    ensures theme == Light ==> (text == White <==> DarkEnough(RelativeLuminance(hex, pow24)))
  {
    var lum := RelativeLuminance(hex, pow24);
    ContrastOrder(lum);
    var prefersLightText := theme == Dark || LightTextWins(lum);
    if prefersLightText then White else Ink
  }

  /**
   * The contrast ratio of white text (luminance 1) against luminance `lum`
   * exceeds that of black text (luminance 0): `darkContrast` and
   * `lightContrast` of app.js:207-208.
   */
  predicate LightTextWins(lum: real)
    requires 0.0 <= lum
  {
    var darkContrast := (lum + 0.05) / 0.05;
    var lightContrast := 1.05 / (lum + 0.05);
    lightContrast > darkContrast
  }

  /** `(lum + 0.05)^2 < 1.05 * 0.05`, multiplied out: the luminances that take white text. */
  predicate DarkEnough(lum: real) {
    lum * lum + 0.1 * lum < 0.05
  }

  /** White text wins on luminance `lum` exactly when `lum^2 + 0.1 lum < 0.05`. */
  lemma ContrastOrder(lum: real)
    requires 0.0 <= lum
    ensures LightTextWins(lum) <==> DarkEnough(lum)
  {
    var p := lum + 0.05;
    RatioOrder(p);
    assert p * p == lum * lum + 0.1 * lum + 0.0025;
  }

  /** For a positive `p`, `1.05 / p > p / 0.05` exactly when `p^2 < 1.05 * 0.05`. */
  lemma RatioOrder(p: real)
    requires p > 0.0
    ensures 1.05 / p > p / 0.05 <==> p * p < 0.0525
  {
    var a, b := 1.05 / p, p / 0.05;
    assert Product(a, p) == 1.05;
    assert Product(b, p) == 20.0 * Product(p, p);
    if a > b {
      ScaleStrict(a, b, p);
    } else {
      ScaleWeak(a, b, p);
    }
  }

  /** `x * y`, named so that products are matched as wholes across lemma calls. */
  function Product(x: real, y: real): (p: real) {
    x * y
  }

  lemma ScaleStrict(x: real, y: real, p: real)
    requires x > y && p > 0.0
    ensures Product(x, p) > Product(y, p)
  {
  }

  lemma ScaleWeak(x: real, y: real, p: real)
    requires x <= y && p > 0.0
    ensures Product(x, p) <= Product(y, p)
  {
  }

  /** A background at least as dark as one that gets white text gets white text too. */
  lemma WhiteTextForDarker(darker: HexColor, lighter: HexColor, pow24: real -> real)
    requires PowInUnit(pow24)
    requires RelativeLuminance(darker, pow24) <= RelativeLuminance(lighter, pow24)
    requires ReadableTextColor(lighter, Light, pow24) == White
    ensures ReadableTextColor(darker, Light, pow24) == White
  {
    DarkEnoughDownward(RelativeLuminance(darker, pow24), RelativeLuminance(lighter, pow24));
  }

  lemma DarkEnoughDownward(a: real, b: real)
    requires 0.0 <= a <= b && DarkEnough(b)
    ensures DarkEnough(a)
  {
    assert a * a <= a * b <= b * b;
  }

  /** Black has luminance zero and gets white text. */
  lemma BlackGetsWhiteText(pow24: real -> real)
    requires PowInUnit(pow24)
    ensures RelativeLuminance("#000000", pow24) == 0.0
    ensures ReadableTextColor("#000000", Light, pow24) == White
  {
    DecodeBytes(0, 0, 0);
    assert "#000000" == "#" + Hex2(0) + Hex2(0) + Hex2(0);
  }

  /** White has luminance one and gets the dark text in the light theme. */
  lemma WhiteGetsInkText(pow24: real -> real)
    requires PowInUnit(pow24) && pow24(1.0) == 1.0
    ensures RelativeLuminance("#ffffff", pow24) == 1.0
    ensures ReadableTextColor("#ffffff", Light, pow24) == Ink
  {
    DecodeBytes(255, 255, 255);
    assert "#ffffff" == "#" + Hex2(255) + Hex2(255) + Hex2(255);
  }
}
