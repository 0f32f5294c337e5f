/**
 * The interactive states derived from one active colour in one theme
 * (`buildIntentPalette`, app.js:259-298): a solid base with darker hover and
 * active shades, a readable text colour on it, translucent `rgba` washes and
 * two opaque soft mixes with the theme's neutrals.
 */
module IntentPalette {
  import opened Optional
  import opened HexCodec
  import opened ColorMath
  import opened Adjust
  import opened Contrast
  import opened NeutralTint

  /** The record `buildIntentPalette` returns. */
  datatype Intent = Intent(
    base: HexColor,
    hover: HexColor,
    active: HexColor,
    contrast: HexColor,
    softHex: HexColor,
    softBorderHex: HexColor,
    soft: string,
    softHover: string,
    softActive: string)

  /**
   * `buildIntentPalette(hex, themeNeutrals, theme)`: nothing for a missing
   * colour, otherwise the intent of the colour.
   */
  function BuildIntentPalette(hex: Option<HexColor>, neutrals: Neutrals, theme: Theme, pow24: real -> real): (p: Option<Intent>)
    requires PowInUnit(pow24)
    ensures p.None? <==> hex.None?
    ensures p.Some? ==> p.value == IntentOf(hex.value, neutrals, theme, pow24)
  {
    match hex
    case None => None
    case Some(h) => Some(IntentOf(h, neutrals, theme, pow24))
  }

  /** A present colour always has an intent. */
  lemma PresentIntent(hex: HexColor, neutrals: Neutrals, theme: Theme, pow24: real -> real)
    requires PowInUnit(pow24)
    ensures BuildIntentPalette(Some(hex), neutrals, theme, pow24) == Some(IntentOf(hex, neutrals, theme, pow24))
  {
  }

  /**
   * The intent of a present colour (app.js:264-297): the base (unchanged in
   * the light theme, 8 points darker in the dark one), hover and active shades
   * darkened from the base, the readable text colour on the base, washes of
   * the base at increasing opacities, and the base mixed into the muted
   * surface and the border.
   */
  function IntentOf(hex: HexColor, neutrals: Neutrals, theme: Theme, pow24: real -> real): (p: Intent)
    requires PowInUnit(pow24)
    ensures IsCanonicalHex(p.base) && IsCanonicalHex(p.hover) && IsCanonicalHex(p.active)
    ensures IsCanonicalHex(p.softHex) && IsCanonicalHex(p.softBorderHex)
    ensures p.contrast == White || p.contrast == Ink
    ensures theme == Dark ==> p.contrast == White
    ensures theme == Light ==> (p.contrast == White <==> DarkEnough(RelativeLuminance(p.base, pow24)))
  {
    var light := theme == Light;
    var baseColor := if light then Lightened(hex, 0) else Lightened(hex, -8);
    var hoverColor := if light then Lightened(baseColor, -6) else Lightened(baseColor, -5);
    var activeColor := if light then Lightened(baseColor, -12) else Lightened(baseColor, -9);
    var contrastText := ReadableTextColor(baseColor, theme, pow24);
    var alphaBase: Alpha := if light then 14 else 22;
    var alphaHover: Alpha := if light then 22 else 28;
    var alphaActive: Alpha := if light then 28 else 34;
    var softBase := Mixed(neutrals.surfaceMuted, baseColor, if light then 0.12 else 0.18);
    var softBorder := Mixed(neutrals.border, baseColor, if light then 0.18 else 0.24);
    Intent(
      baseColor, hoverColor, activeColor, contrastText, softBase, softBorder,
      HexToRgba(baseColor, alphaBase), HexToRgba(baseColor, alphaHover), HexToRgba(baseColor, alphaActive))
  }

  /** In the light theme the base is the colour itself, only respelled canonically. */
  lemma LightIntentBase(hex: HexColor, neutrals: Neutrals, pow24: real -> real)
    requires PowInUnit(pow24)
    ensures IntentOf(hex, neutrals, Light, pow24).base == Normalized(hex)
  {
    LightenedByZero(hex);
  }

  /**
   * The soft fill and soft border lie, channel by channel, between the theme's
   * muted surface (resp. border) and the base.
   */
  lemma IntentSoftBetween(hex: HexColor, neutrals: Neutrals, theme: Theme, pow24: real -> real)
    requires PowInUnit(pow24)
    ensures var p := IntentOf(hex, neutrals, theme, pow24);
      && ChannelsBetween(HexToRgb(p.softHex), HexToRgb(neutrals.surfaceMuted), HexToRgb(p.base))
      && ChannelsBetween(HexToRgb(p.softBorderHex), HexToRgb(neutrals.border), HexToRgb(p.base))
  {
    var p := IntentOf(hex, neutrals, theme, pow24);
    MixedBetween(neutrals.surfaceMuted, p.base, if theme == Light then 0.12 else 0.18);
    MixedBetween(neutrals.border, p.base, if theme == Light then 0.18 else 0.24);
  }

  /**
   * The three washes are the base's channels at fixed opacities: 14%, 22%
   * and 28% in the light theme, 22%, 28% and 34% in the dark one, so they
   * grow from rest to hover to active and the dark theme's are the heavier.
   */
  lemma IntentWashes(hex: HexColor, neutrals: Neutrals, theme: Theme, pow24: real -> real)
    requires PowInUnit(pow24)
    ensures var p := IntentOf(hex, neutrals, theme, pow24);
      theme == Light ==>
        && p.soft == HexToRgba(p.base, 14)
        && p.softHover == HexToRgba(p.base, 22)
        && p.softActive == HexToRgba(p.base, 28)
    ensures var p := IntentOf(hex, neutrals, theme, pow24);
      theme == Dark ==>
        && p.soft == HexToRgba(p.base, 22)
        && p.softHover == HexToRgba(p.base, 28)
        && p.softActive == HexToRgba(p.base, 34)
  {
  }

  /**
   * The hover shade is no lighter than the base and the active shade no
   * lighter than the hover one, in either theme; in the dark theme the base
   * itself is no lighter than the colour it comes from.
   */
  lemma IntentShadesDarker(hex: HexColor, neutrals: Neutrals, theme: Theme, pow24: real -> real)
    requires PowInUnit(pow24)
    ensures var p := IntentOf(hex, neutrals, theme, pow24);
      && LightnessOf(HexToRgb(p.hover)) <= LightnessOf(HexToRgb(p.base))
      && LightnessOf(HexToRgb(p.active)) <= LightnessOf(HexToRgb(p.hover))
    ensures theme == Dark ==>
      LightnessOf(HexToRgb(IntentOf(hex, neutrals, theme, pow24).base)) <= LightnessOf(HexToRgb(hex))
  {
    var p := IntentOf(hex, neutrals, theme, pow24);
    if theme == Light {
      DarkenedNotLighter(p.base, -6);
      LightenedMonotone(p.base, -12, -6);
    } else {
      DarkenedNotLighter(hex, -8);
      DarkenedNotLighter(p.base, -5);
      LightenedMonotone(p.base, -9, -5);
    }
  }
}
