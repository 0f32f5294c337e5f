/**
 * The colour adjustments built on the HSL conversions: `adjustLightness`,
 * `adjustSaturation` and `shiftHue` (app.js:152-169) decode a colour, change
 * one HSL field and encode the result again; `mixColors` (app.js:171-180)
 * blends two colours channel by channel.
 *
 * Each adjustment is a reference function, used by the palette layers, and
 * a method that takes the source's steps and is proved equal to it.
 */
module Adjust {
  import opened HexCodec
  import opened ColorMath

  // Field updates -------------------------------------------------------------

  /** `hsl.l = clamp(hsl.l + amount / 100, 0, 1)` (app.js:154). */
  function WithLightness(hsl: Hsl, amount: int): (r: Hsl)
    ensures r.h == hsl.h && r.s == hsl.s
    ensures 0.0 <= r.l <= 1.0
    ensures 0.0 <= hsl.l + amount as real / 100.0 <= 1.0 ==> r.l == hsl.l + amount as real / 100.0
    ensures hsl.l + amount as real / 100.0 >= 1.0 ==> r.l == 1.0
    ensures hsl.l + amount as real / 100.0 <= 0.0 ==> r.l == 0.0
  {
    hsl.(l := Clamp(hsl.l + amount as real / 100.0, 0.0, 1.0))
  }

  /** `hsl.s = clamp(hsl.s + amount / 100, 0, 1)` (app.js:160). */
  function WithSaturation(hsl: Hsl, amount: int): (r: Hsl)
    ensures r.h == hsl.h && r.l == hsl.l
    ensures 0.0 <= r.s <= 1.0
    ensures 0.0 <= hsl.s + amount as real / 100.0 <= 1.0 ==> r.s == hsl.s + amount as real / 100.0
    ensures hsl.s + amount as real / 100.0 >= 1.0 ==> r.s == 1.0
    ensures hsl.s + amount as real / 100.0 <= 0.0 ==> r.s == 0.0
  {
    hsl.(s := Clamp(hsl.s + amount as real / 100.0, 0.0, 1.0))
  }

  /**
   * `hsl.h = (hsl.h + amount) % 360`, then one `+ 360` when negative
   * (app.js:166-167): whatever the amount, the new hue is the floored
   * remainder, in `[0, 360)`.
   */
  function ShiftedHue(h: real, amount: int): (r: real)
    ensures 0.0 <= r < 360.0
    ensures r == FlooredRem(h + amount as real, 360.0)
  {
    CorrectedRemIsFloored(h + amount as real, 360.0);
    var t := JsRem(h + amount as real, 360.0);
    if t < 0.0 then t + 360.0 else t
  }

  function WithHue(hsl: Hsl, amount: int): (r: Hsl)
    ensures r.s == hsl.s && r.l == hsl.l
    ensures r.h == ShiftedHue(hsl.h, amount)
  {
    hsl.(h := ShiftedHue(hsl.h, amount))
  }

  // Reference functions --------------------------------------------------------

  /** The HSL fields of a decoded colour. */
  function HslOfHex(hex: HexColor): (hsl: Hsl) {
    HslOf(HexToRgb(hex))
  }

  /** The colour spelled by `rgbToHex` for fields converted back with `hslToRgb`. */
  function HexOfHsl(hsl: Hsl): (out: HexColor)
    ensures IsCanonicalHex(out)
    ensures HexToRgb(out) == RgbOfHsl(hsl)
  {
    RgbRoundTrip(RgbOfHsl(hsl));
    RgbToHex(ToChannels(RgbOfHsl(hsl)))
  }

  /** `adjustLightness(hex, amount)` (app.js:152-156). */
  function Lightened(hex: HexColor, amount: int): (out: HexColor)
    ensures IsCanonicalHex(out)
  {
    HexOfHsl(WithLightness(HslOfHex(hex), amount))
  }

  /** `adjustSaturation(hex, amount)` (app.js:158-162). */
  function Saturated(hex: HexColor, amount: int): (out: HexColor)
    ensures IsCanonicalHex(out)
  {
    HexOfHsl(WithSaturation(HslOfHex(hex), amount))
  }

  /** `shiftHue(hex, amount)` (app.js:164-169). */
  function HueShifted(hex: HexColor, amount: int): (out: HexColor)
    ensures IsCanonicalHex(out)
  {
    HexOfHsl(WithHue(HslOfHex(hex), amount))
  }

  // The source's steps ----------------------------------------------------------

  /** `adjustLightness`: decode, convert, overwrite the lightness, convert back, encode. */
  method AdjustLightness(hex: HexColor, amount: int) returns (out: HexColor)
    ensures out == Lightened(hex, amount)
  {
    var hsl := RgbToHsl(HexToRgb(hex));
    hsl := hsl.(l := Clamp(hsl.l + amount as real / 100.0, 0.0, 1.0));
    assert hsl == WithLightness(HslOfHex(hex), amount);
    var rgb := HslToRgb(hsl);
    out := RgbToHex(ToChannels(rgb));
  }

  /** `adjustSaturation`: decode, convert, overwrite the saturation, convert back, encode. */
  method AdjustSaturation(hex: HexColor, amount: int) returns (out: HexColor)
    ensures out == Saturated(hex, amount)
  {
    var hsl := RgbToHsl(HexToRgb(hex));
    hsl := hsl.(s := Clamp(hsl.s + amount as real / 100.0, 0.0, 1.0));
    assert hsl == WithSaturation(HslOfHex(hex), amount);
    var rgb := HslToRgb(hsl);
    out := RgbToHex(ToChannels(rgb));
  }

  /** `shiftHue`: decode, convert, overwrite the hue and correct a negative one, convert back, encode. */
  method ShiftHue(hex: HexColor, amount: int) returns (out: HexColor)
    ensures out == HueShifted(hex, amount)
  {
    var hsl := RgbToHsl(HexToRgb(hex));
    ghost var target := WithHue(hsl, amount);
    hsl := hsl.(h := JsRem(hsl.h + amount as real, 360.0));
    if hsl.h < 0.0 {
      hsl := hsl.(h := hsl.h + 360.0);
    }
    assert hsl == target;
    var rgb := HslToRgb(hsl);
    out := RgbToHex(ToChannels(rgb));
  }

  // Canonical spellings ----------------------------------------------------------

  /** Two canonical spellings of the same colour are the same string. */
  lemma CanonicalUnique(x: HexColor, y: HexColor)
    requires IsCanonicalHex(x) && IsCanonicalHex(y)
    requires HexToRgb(x) == HexToRgb(y)
    ensures x == y
  {
    CanonicalIsNormal(x);
    CanonicalIsNormal(y);
  }

  /** Fields that convert back to the decoded colour spell its normalised form. */
  lemma HexOfHslNormal(hsl: Hsl, hex: HexColor)
    requires RgbOfHsl(hsl) == HexToRgb(hex)
    ensures HexOfHsl(hsl) == Normalized(hex)
  {
    CanonicalUnique(HexOfHsl(hsl), Normalized(hex));
  }

  // Colours without chroma ----------------------------------------------------------

  /** Fields without chroma convert to a grey whose level is the lightness scaled to a byte. */
  lemma AchromaticGrey(hsl: Hsl)
    requires Chroma(hsl) == 0.0
    ensures RgbOfHsl(hsl) == Rgb(To255(0.0, hsl.l), To255(0.0, hsl.l), To255(0.0, hsl.l))
  {
    assert MidComponent(hsl) == 0.0;
    assert hsl.l - Chroma(hsl) / 2.0 == hsl.l;
  }

  /** A grey's fields convert back to it whatever hue they carry. */
  lemma GreyAnyHue(c: Rgb, h: real)
    requires c.r == c.g == c.b
    ensures RgbOfHsl(HslOf(c).(h := h)) == c
  {
    var hsl := HslOf(c).(h := h);
    assert hsl.s == 0.0;
    AchromaticGrey(hsl);
    assert (0.0 + hsl.l) * 255.0 == c.r as real;
    ChannelByteOfByte(c.r);
  }

  // Properties of the adjustments ------------------------------------------------------

  /** Lightening by 100 or more gives white. */
  lemma LightenedToWhite(hex: HexColor, amount: int)
    requires amount >= 100
    ensures Lightened(hex, amount) == "#ffffff"
  {
    FullLightnessWhite(WithLightness(HslOfHex(hex), amount));
  }

  /** Full lightness is white, whatever the hue and saturation. */
  lemma FullLightnessWhite(hsl: Hsl)
    requires hsl.l == 1.0
    ensures HexOfHsl(hsl) == "#ffffff"
  {
    FullLightnessRgb(hsl);
    RgbToHexOfBytes(Rgb(255, 255, 255));
  }

  lemma FullLightnessRgb(hsl: Hsl)
    requires hsl.l == 1.0
    ensures RgbOfHsl(hsl) == Rgb(255, 255, 255)
  {
    AchromaticGrey(hsl);
    ChannelByteOfByte(255);
  }

  /** Darkening by 100 or more gives black. */
  lemma DarkenedToBlack(hex: HexColor, amount: int)
    requires amount <= -100
    ensures Lightened(hex, amount) == "#000000"
  {
    ZeroLightnessBlack(WithLightness(HslOfHex(hex), amount));
  }

  /** Zero lightness is black, whatever the hue and saturation. */
  lemma ZeroLightnessBlack(hsl: Hsl)
    requires hsl.l == 0.0
    ensures HexOfHsl(hsl) == "#000000"
  {
    ZeroLightnessRgb(hsl);
    RgbToHexOfBytes(Rgb(0, 0, 0));
  }

  lemma ZeroLightnessRgb(hsl: Hsl)
    requires hsl.l == 0.0
    ensures RgbOfHsl(hsl) == Rgb(0, 0, 0)
  {
    AchromaticGrey(hsl);
    ChannelByteOfByte(0);
  }

  /** Lightening by zero only normalises the spelling. */
  lemma LightenedByZero(hex: HexColor)
    ensures Lightened(hex, 0) == Normalized(hex)
  {
    var hsl := HslOfHex(hex);
    assert WithLightness(hsl, 0) == hsl;
    HslRoundTrip(HexToRgb(hex));
    HexOfHslNormal(hsl, hex);
  }

  /** Desaturating by 100 or more gives a grey. */
  lemma DesaturatedToGrey(hex: HexColor, amount: int)
    requires amount <= -100
    ensures var c := HexToRgb(Saturated(hex, amount)); c.r == c.g == c.b
  {
    var hsl := WithSaturation(HslOfHex(hex), amount);
    assert hsl.s == 0.0;
    assert Chroma(hsl) == 0.0;
    AchromaticGrey(hsl);
    assert HexToRgb(Saturated(hex, amount)) == RgbOfHsl(hsl);
  }

  /** Saturating by zero only normalises the spelling. */
  lemma SaturatedByZero(hex: HexColor)
    ensures Saturated(hex, 0) == Normalized(hex)
  {
    var hsl := HslOfHex(hex);
    assert WithSaturation(hsl, 0) == hsl;
    HslRoundTrip(HexToRgb(hex));
    HexOfHslNormal(hsl, hex);
  }

  /** Shifting the hue by zero only normalises the spelling. */
  lemma HueShiftedByZero(hex: HexColor)
    ensures HueShifted(hex, 0) == Normalized(hex)
  {
    var hsl := HslOfHex(hex);
    FlooredRemFirstPeriod(hsl.h, 360.0);
    assert WithHue(hsl, 0) == hsl;
    HslRoundTrip(HexToRgb(hex));
    HexOfHslNormal(hsl, hex);
  }

  /** Shifting the hue by a whole turn more changes nothing. */
  lemma HueShiftPeriodic(hex: HexColor, amount: int)
    ensures HueShifted(hex, amount + 360) == HueShifted(hex, amount)
  {
    var h := HslOfHex(hex).h;
    FlooredRemShift(h + amount as real, 360.0);
    assert h + (amount + 360) as real == h + amount as real + 360.0;
    assert WithHue(HslOfHex(hex), amount + 360) == WithHue(HslOfHex(hex), amount);
  }

  /** Shifting the hue of a grey only normalises the spelling. */
  lemma GreyHueShifted(hex: HexColor, amount: int)
    requires var c := HexToRgb(hex); c.r == c.g == c.b
    ensures HueShifted(hex, amount) == Normalized(hex)
  {
    var c := HexToRgb(hex);
    GreyAnyHue(c, ShiftedHue(HslOf(c).h, amount));
    assert WithHue(HslOfHex(hex), amount) == HslOf(c).(h := ShiftedHue(HslOf(c).h, amount));
    HexOfHslNormal(WithHue(HslOfHex(hex), amount), hex);
  }

  // Lightness of the adjustments ----------------------------------------------------

  /** A larger channel never rounds to a smaller byte. */
  lemma ChannelByteMonotone(x: real, y: real)
    requires x <= y
    ensures ChannelByte(x) <= ChannelByte(y)
  {
  }

  /** A share of a quantity in `[0, 1]` lies between zero and the quantity. */
  lemma ShareWithin(total: real, share: real)
    requires 0.0 <= total && 0.0 <= share <= 1.0
    ensures 0.0 <= total * share <= total
  {
  }

  /** Channels bounded by a reached top and a reached bottom have those as their extremes. */
  lemma ExtremesOf(c: Rgb, top: int, bottom: int)
    requires c.r <= top && c.g <= top && c.b <= top
    requires c.r == top || c.g == top || c.b == top
    requires bottom <= c.r && bottom <= c.g && bottom <= c.b
    requires c.r == bottom || c.g == bottom || c.b == bottom
    ensures MaxChannel(c) == top && MinChannel(c) == bottom
  {
  }

  /** One lifted channel lies between the lifted bottom and the lifted top. */
  lemma LiftedBetween(v: real, offset: real, top: real)
    requires 0.0 <= v <= top
    ensures ChannelByte(offset * 255.0) <= To255(v, offset) <= ChannelByte((top + offset) * 255.0)
    ensures v == 0.0 ==> To255(v, offset) == ChannelByte(offset * 255.0)
    ensures v == top ==> To255(v, offset) == ChannelByte((top + offset) * 255.0)
  {
    ChannelByteMonotone(offset * 255.0, (v + offset) * 255.0);
    ChannelByteMonotone((v + offset) * 255.0, (top + offset) * 255.0);
  }

  /**
   * Lifted channels spanning `[0, top]` and reaching both ends round to bytes
   * whose largest is the top lifted and whose smallest is the bottom lifted.
   */
  lemma LiftExtremes(base: Channels, offset: real, top: real)
    requires 0.0 <= base.r <= top && 0.0 <= base.g <= top && 0.0 <= base.b <= top
    requires base.r == top || base.g == top || base.b == top
    requires base.r == 0.0 || base.g == 0.0 || base.b == 0.0
    ensures MaxChannel(Lift(base, offset)) == ChannelByte((top + offset) * 255.0)
    ensures MinChannel(Lift(base, offset)) == ChannelByte(offset * 255.0)
  {
    LiftedBetween(base.r, offset, top);
    LiftedBetween(base.g, offset, top);
    LiftedBetween(base.b, offset, top);
    ExtremesOf(Lift(base, offset), ChannelByte((top + offset) * 255.0), ChannelByte(offset * 255.0));
  }

  /** In range, the chroma is at most twice the distance of the lightness from black and from white. */
  lemma ChromaWithin(hsl: Hsl)
    requires 0.0 <= hsl.s <= 1.0 && 0.0 <= hsl.l <= 1.0
    ensures 0.0 <= Chroma(hsl) && Chroma(hsl) / 2.0 <= hsl.l && Chroma(hsl) / 2.0 <= 1.0 - hsl.l
  {
    var room := 1.0 - Abs(2.0 * hsl.l - 1.0);
    assert room / 2.0 <= hsl.l && room / 2.0 <= 1.0 - hsl.l && 0.0 <= room by {
      if hsl.l <= 0.5 {
        assert room == 2.0 * hsl.l;
      } else {
        assert room == 2.0 - 2.0 * hsl.l;
      }
    }
    var c := Chroma(hsl);
    assert 0.0 <= c <= room by {
      ShareWithin(room, hsl.s);
    }
  }

  /** For a hue that is not negative, the middle component is a share of the chroma. */
  lemma MidWithin(hsl: Hsl)
    requires 0.0 <= hsl.h && 0.0 <= Chroma(hsl)
    ensures 0.0 <= MidComponent(hsl) <= Chroma(hsl)
  {
    var rem := JsRem(hsl.h / 60.0, 2.0);
    assert 0.0 <= rem < 2.0 by {
      assert 0.0 <= hsl.h / 60.0;
    }
    assert 0.0 <= MidShare(hsl) <= 1.0 by {
      assert MidShare(hsl) == 1.0 - Abs(rem - 1.0);
    }
    var c, share := Chroma(hsl), MidShare(hsl);
    ShareWithin(c, share);
    assert MidComponent(hsl) == c * share;
  }

  /** Every sector lays out the chroma, the middle component and zero. */
  lemma SectorSpan(k: int, c: real, x: real)
    requires 0 <= k < 6 && 0.0 <= x <= c
    ensures var ch := SectorChannels(k, c, x);
      && 0.0 <= ch.r <= c && 0.0 <= ch.g <= c && 0.0 <= ch.b <= c
      && (ch.r == c || ch.g == c || ch.b == c)
      && (ch.r == 0.0 || ch.g == 0.0 || ch.b == 0.0)
  {
  }

  /**
   * Lifted channels spanning `[0, top]` within the byte range have a lightness
   * within one rounding step of the middle of the span.
   */
  lemma LiftLightness(rgb: Rgb, base: Channels, offset: real, top: real, mid: real)
    requires rgb == Lift(base, offset)
    requires 0.0 <= base.r <= top && 0.0 <= base.g <= top && 0.0 <= base.b <= top
    requires base.r == top || base.g == top || base.b == top
    requires base.r == 0.0 || base.g == 0.0 || base.b == 0.0
    requires 0.0 <= offset && top + offset <= 1.0 && mid == offset + top / 2.0
    ensures mid - 1.0 / 510.0 <= LightnessOf(rgb) <= mid + 1.0 / 510.0
  {
    LiftExtremes(base, offset, top);
    ChannelByteBounds((top + offset) * 255.0);
    ChannelByteBounds(offset * 255.0);
  }

  /**
   * Fields in range convert to a colour whose lightness is theirs to within
   * one rounding step: the largest channel is `l + chroma / 2` and the
   * smallest `l - chroma / 2`, each rounded by at most half a unit.
   */
  lemma LightnessNearFields(hsl: Hsl)
    requires 0.0 <= hsl.h && 0.0 <= hsl.s <= 1.0 && 0.0 <= hsl.l <= 1.0
    ensures hsl.l - 1.0 / 510.0 <= LightnessOf(RgbOfHsl(hsl)) <= hsl.l + 1.0 / 510.0
  {
    var c, x := Chroma(hsl), MidComponent(hsl);
    var base := SectorChannels(Sector(hsl.h), c, x);
    var m := hsl.l - c / 2.0;
    RgbOfHslLifts(hsl, base, m);
    assert && 0.0 <= base.r <= c && 0.0 <= base.g <= c && 0.0 <= base.b <= c
           && (base.r == c || base.g == c || base.b == c)
           && (base.r == 0.0 || base.g == 0.0 || base.b == 0.0)
           && 0.0 <= m && c + m <= 1.0 by {
      ChromaWithin(hsl);
      MidWithin(hsl);
      SectorSpan(Sector(hsl.h), c, x);
    }
    LiftLightness(RgbOfHsl(hsl), base, m, c, hsl.l);
  }

  /** `hslToRgb` lifts the channels of the hue's sector by the lightness offset. */
  lemma RgbOfHslLifts(hsl: Hsl, base: Channels, offset: real)
    requires base == SectorChannels(Sector(hsl.h), Chroma(hsl), MidComponent(hsl))
    requires offset == hsl.l - Chroma(hsl) / 2.0
    ensures RgbOfHsl(hsl) == Lift(base, offset)
  {
  }

  /**
   * The lightness a colour has after `adjustLightness`, within one rounding
   * step of the clamped target, and so of the target itself when that is in range.
   */
  lemma LightenedNear(hex: HexColor, amount: int)
    ensures var l := WithLightness(HslOfHex(hex), amount).l;
      l - 1.0 / 510.0 <= LightnessOf(HexToRgb(Lightened(hex, amount))) <= l + 1.0 / 510.0
    ensures var t := HslOfHex(hex).l + amount as real / 100.0;
      0.0 <= t <= 1.0 ==> t - 1.0 / 510.0 <= LightnessOf(HexToRgb(Lightened(hex, amount))) <= t + 1.0 / 510.0
  {
    LightnessNearFields(WithLightness(HslOfHex(hex), amount));
  }

  /** A target at or below zero lightness gives black. */
  lemma ClampedToBlack(hex: HexColor, amount: int)
    requires HslOfHex(hex).l + amount as real / 100.0 <= 0.0
    ensures LightnessOf(HexToRgb(Lightened(hex, amount))) == 0.0
  {
    ZeroLightnessRgb(WithLightness(HslOfHex(hex), amount));
  }

  /** A target at or above full lightness gives white. */
  lemma ClampedToWhite(hex: HexColor, amount: int)
    requires HslOfHex(hex).l + amount as real / 100.0 >= 1.0
    ensures LightnessOf(HexToRgb(Lightened(hex, amount))) == 1.0
  {
    FullLightnessRgb(WithLightness(HslOfHex(hex), amount));
  }

  /**
   * `adjustLightness` is monotone: a smaller amount never gives a lighter
   * colour.
   */
  lemma LightenedMonotone(hex: HexColor, a1: int, a2: int)
    requires a1 <= a2
    ensures LightnessOf(HexToRgb(Lightened(hex, a1))) <= LightnessOf(HexToRgb(Lightened(hex, a2)))
  {
    var l := HslOfHex(hex).l;
    if l + a1 as real / 100.0 <= 0.0 {
      ClampedToBlack(hex, a1);
    } else if l + a2 as real / 100.0 >= 1.0 {
      ClampedToWhite(hex, a2);
    } else if a1 < a2 {
      UnclampedMonotone(hex, a1, a2);
    }
  }

  /**
   * Between the clamps, one point of amount moves the target lightness by
   * 1/100, more than the two rounding steps of 1/510 that could undo it.
   */
  lemma UnclampedMonotone(hex: HexColor, a1: int, a2: int)
    requires a1 < a2
    requires 0.0 < HslOfHex(hex).l + a1 as real / 100.0 && HslOfHex(hex).l + a2 as real / 100.0 < 1.0
    ensures LightnessOf(HexToRgb(Lightened(hex, a1))) <= LightnessOf(HexToRgb(Lightened(hex, a2)))
  {
    var l := HslOfHex(hex).l;
    var t1, t2 := l + a1 as real / 100.0, l + a2 as real / 100.0;
    assert t1 + 0.01 <= t2;
    LightenedNear(hex, a1);
    LightenedNear(hex, a2);
  }

  /** Darkening, as the hover and active shades do, never gives a lighter colour. */
  lemma DarkenedNotLighter(hex: HexColor, amount: int)
    requires amount <= 0
    ensures LightnessOf(HexToRgb(Lightened(hex, amount))) <= LightnessOf(HexToRgb(hex))
  {
    LightenedMonotone(hex, amount, 0);
    LightenedByZero(hex);
  }

  // Mixing -----------------------------------------------------------------------------

  /** One channel of `mixColors`: `a * (1 - w) + b * w`. */
  function MixChannel(a: Byte, b: Byte, w: real): (x: real)
    requires 0.0 <= w <= 1.0
    ensures a <= b ==> a as real <= x <= b as real
    ensures b <= a ==> b as real <= x <= a as real
    ensures w == 0.0 ==> x == a as real
    ensures w == 1.0 ==> x == b as real
  {
    var x := a as real * (1.0 - w) + b as real * w;
    MixWithin(a as real, b as real, w, x);
    x
  }

  /** A weighted mean of two numbers lies between them. */
  lemma MixWithin(a: real, b: real, w: real, x: real)
    requires 0.0 <= w <= 1.0 && x == a * (1.0 - w) + b * w
    ensures a <= b ==> a <= x <= b
    ensures b <= a ==> b <= x <= a
    ensures w == 0.0 ==> x == a
    ensures w == 1.0 ==> x == b
  {
    if a <= b {
      MeanBetween(a, b, w);
    } else {
      MeanBetween(b, a, w);
    }
  }

  /** Both weighted means of `lo <= hi` lie in `[lo, hi]`. */
  lemma MeanBetween(lo: real, hi: real, w: real)
    requires lo <= hi && 0.0 <= w <= 1.0
    ensures lo <= lo * (1.0 - w) + hi * w <= hi
    ensures lo <= hi * (1.0 - w) + lo * w <= hi
  {
    NonNegProduct(hi - lo, w);
    NonNegProduct(hi - lo, 1.0 - w);
    assert lo * (1.0 - w) + hi * w - lo == (hi - lo) * w;
    assert hi - (lo * (1.0 - w) + hi * w) == (hi - lo) * (1.0 - w);
    assert hi * (1.0 - w) + lo * w - lo == (hi - lo) * (1.0 - w);
    assert hi - (hi * (1.0 - w) + lo * w) == (hi - lo) * w;
  }

  lemma NonNegProduct(x: real, y: real)
    requires 0.0 <= x && 0.0 <= y
    ensures 0.0 <= x * y
  {
  }

  /**
   * `mixColors(colorA, colorB, weight)` (app.js:171-180): the weight is
   * clamped to `[0, 1]` and each channel moves that far from the first colour
   * towards the second.
   */
  function Mixed(a: HexColor, b: HexColor, weight: real): (out: HexColor)
    ensures IsCanonicalHex(out)
  {
    var w := Clamp(weight, 0.0, 1.0);
    var ca, cb := HexToRgb(a), HexToRgb(b);
    RgbToHex(Channels(MixChannel(ca.r, cb.r, w), MixChannel(ca.g, cb.g, w), MixChannel(ca.b, cb.b, w)))
  }

  /** A weight of zero or less gives the first colour, normalised. */
  lemma MixedAtZero(a: HexColor, b: HexColor, weight: real)
    requires weight <= 0.0
    ensures Mixed(a, b, weight) == Normalized(a)
  {
  }

  /** A weight of one or more gives the second colour, normalised. */
  lemma MixedAtOne(a: HexColor, b: HexColor, weight: real)
    requires weight >= 1.0
    ensures Mixed(a, b, weight) == Normalized(b)
  {
  }

  /** Mixing a colour with itself gives it back, normalised, at any weight. */
  lemma MixedWithSelf(a: HexColor, weight: real)
    ensures Mixed(a, a, weight) == Normalized(a)
  {
  }

  /** Rounding and clamping a value between two bytes stays between them. */
  lemma ChannelByteBetween(x: real, lo: Byte, hi: Byte)
    requires lo as real <= x <= hi as real
    ensures lo <= ChannelByte(x) <= hi
  {
    ChannelByteBounds(x);
  }

  /** Each channel of `m` lies between the same channel of `a` and of `b`. */
  predicate ChannelsBetween(m: Rgb, a: Rgb, b: Rgb) {
    && Min(a.r as real, b.r as real) <= m.r as real <= Max(a.r as real, b.r as real)
    && Min(a.g as real, b.g as real) <= m.g as real <= Max(a.g as real, b.g as real)
    && Min(a.b as real, b.b as real) <= m.b as real <= Max(a.b as real, b.b as real)
  }

  /** Every channel of a mix lies between the two colours' channels. */
  lemma MixedBetween(a: HexColor, b: HexColor, weight: real)
    ensures ChannelsBetween(HexToRgb(Mixed(a, b, weight)), HexToRgb(a), HexToRgb(b))
  {
    var w := Clamp(weight, 0.0, 1.0);
    var ca, cb := HexToRgb(a), HexToRgb(b);
    ChannelBetween(ca.r, cb.r, w);
    ChannelBetween(ca.g, cb.g, w);
    ChannelBetween(ca.b, cb.b, w);
  }

  lemma ChannelBetween(a: Byte, b: Byte, w: real)
    requires 0.0 <= w <= 1.0
    ensures var m := ChannelByte(MixChannel(a, b, w));
      Min(a as real, b as real) <= m as real <= Max(a as real, b as real)
  {
    if a <= b {
      ChannelByteBetween(MixChannel(a, b, w), a, b);
    } else {
      ChannelByteBetween(MixChannel(a, b, w), b, a);
    }
  }

  /** Swapping the colours and complementing the weight gives the same mix. */
  lemma MixedSymmetric(a: HexColor, b: HexColor, weight: real)
    ensures Mixed(a, b, weight) == Mixed(b, a, 1.0 - weight)
  {
    var w := Clamp(weight, 0.0, 1.0);
    assert Clamp(1.0 - weight, 0.0, 1.0) == 1.0 - w;
    var ca, cb := HexToRgb(a), HexToRgb(b);
    MixChannelSwap(ca.r, cb.r, w);
    MixChannelSwap(ca.g, cb.g, w);
    MixChannelSwap(ca.b, cb.b, w);
  }

  lemma MixChannelSwap(a: Byte, b: Byte, w: real)
    requires 0.0 <= w <= 1.0
    ensures MixChannel(a, b, w) == MixChannel(b, a, 1.0 - w)
  {
  }
}
