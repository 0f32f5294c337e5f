/**
 * How the palette mode and the seed colours the user supplied become the four
 * active colours (`computeActiveColors`, app.js:300-339).
 *
 * A seed the user left empty is `None`: the source tests each with `||`, and
 * the only falsy value a seed can hold is the empty string.
 */
module ModeResolver {
  import opened Optional
  import opened HexCodec
  import opened Adjust

  /** The seed colours of the form; any of them may be missing. */
  datatype Seeds = Seeds(
    accent: Option<HexColor>,
    primary: Option<HexColor>,
    secondary: Option<HexColor>,
    tertiary: Option<HexColor>)

  /** The four colours the palette is derived from. */
  datatype ActiveColors = ActiveColors(
    accent: HexColor,
    primary: HexColor,
    secondary: HexColor,
    tertiary: HexColor)

  const DefaultAccent: HexColor := "#3b82f6"

  // The fixed colours of the monochrome mode (app.js:307-313).
  const SlateDark: HexColor := "#1e293b"
  const SlateLight: HexColor := "#cbd5e1"
  const SlateLighter: HexColor := "#e2e8f0"

  const Monochrome: ActiveColors := ActiveColors(SlateDark, SlateDark, SlateLight, SlateLighter)

  /** `seed || fallback`: the seed when it was supplied. */
  function OrElse(seed: Option<HexColor>, fallback: HexColor): (c: HexColor)
    ensures seed.Some? ==> c == seed.value
    ensures seed.None? ==> c == fallback
  {
    match seed
    case Some(s) => s
    case None => fallback
  }

  /** `suppliedPrimary` (app.js:302): the primary seed, else the accent seed, else the default accent. */
  function SuppliedPrimary(seeds: Seeds): (p: HexColor)
    ensures seeds.primary.Some? ==> p == seeds.primary.value
    ensures seeds.primary.None? && seeds.accent.Some? ==> p == seeds.accent.value
    ensures seeds.primary.None? && seeds.accent.None? ==> p == DefaultAccent
  {
    OrElse(seeds.primary, OrElse(seeds.accent, DefaultAccent))
  }

  /** `suppliedSecondary` (app.js:303): the secondary seed, else the primary turned 35 degrees. */
  function SuppliedSecondary(seeds: Seeds): (c: HexColor)
    ensures seeds.secondary.Some? ==> c == seeds.secondary.value
    ensures seeds.secondary.None? ==> IsCanonicalHex(c) && c == HueShifted(SuppliedPrimary(seeds), 35)
  {
    OrElse(seeds.secondary, HueShifted(SuppliedPrimary(seeds), 35))
  }

  /** `suppliedTertiary` (app.js:304): the tertiary seed, else the secondary turned back 55 degrees. */
  function SuppliedTertiary(seeds: Seeds): (c: HexColor)
    ensures seeds.tertiary.Some? ==> c == seeds.tertiary.value
    ensures seeds.tertiary.None? ==> IsCanonicalHex(c) && c == HueShifted(SuppliedSecondary(seeds), -55)
  {
    OrElse(seeds.tertiary, HueShifted(SuppliedSecondary(seeds), -55))
  }

  /**
   * `computeActiveColors(mode, colors)`: fixed slates in the monochrome mode;
   * one colour and two lighter shades of it in the one-colour mode; two
   * colours and their even mix in the two-colour mode; and in the three-colour
   * mode, the default for any other mode string, the three supplied colours.
   * Outside the monochrome mode the accent is always the primary.
   */
  function ComputeActiveColors(mode: string, seeds: Seeds): (a: ActiveColors)
    ensures mode == "monochrome" ==> a == Monochrome
    ensures a.accent == a.primary
    ensures mode == "one-color" ==>
      && a.primary == OrElse(seeds.accent, SuppliedPrimary(seeds))
      && a.secondary == Saturated(Lightened(a.primary, 6), -25)
      && a.tertiary == Lightened(a.primary, 22)
      && IsCanonicalHex(a.secondary) && IsCanonicalHex(a.tertiary)
    ensures mode == "two-colors" ==>
      && a.primary == SuppliedPrimary(seeds) && a.secondary == SuppliedSecondary(seeds)
      && a.tertiary == Mixed(a.primary, a.secondary, 0.5)
      && IsCanonicalHex(a.tertiary)
    ensures mode !in {"monochrome", "one-color", "two-colors"} ==>
      a == ActiveColors(SuppliedPrimary(seeds), SuppliedPrimary(seeds), SuppliedSecondary(seeds), SuppliedTertiary(seeds))
  {
    if mode == "monochrome" then
      Monochrome
    else if mode == "one-color" then
      var accent := OrElse(seeds.accent, SuppliedPrimary(seeds));
      ActiveColors(accent, accent, Saturated(Lightened(accent, 6), -25), Lightened(accent, 22))
    else if mode == "two-colors" then
      var primary := SuppliedPrimary(seeds);
      var secondary := SuppliedSecondary(seeds);
      ActiveColors(primary, primary, secondary, Mixed(primary, secondary, 0.5))
    else
      var primary := SuppliedPrimary(seeds);
      ActiveColors(primary, primary, OrElse(seeds.secondary, SuppliedSecondary(seeds)), OrElse(seeds.tertiary, SuppliedTertiary(seeds)))
  }

  /** A mode string the resolver does not know behaves as the three-colour mode. */
  lemma UnknownModeIsThreeColors(mode: string, seeds: Seeds)
    requires mode !in {"monochrome", "one-color", "two-colors", "three-colors"}
    ensures ComputeActiveColors(mode, seeds) == ComputeActiveColors("three-colors", seeds)
  {
  }

  /** The monochrome mode ignores the seeds altogether. */
  lemma MonochromeIgnoresSeeds(s1: Seeds, s2: Seeds)
    ensures ComputeActiveColors("monochrome", s1) == ComputeActiveColors("monochrome", s2)
  {
  }

  /** In the three-colour mode every supplied primary, secondary and tertiary seed is used as given. */
  lemma ThreeColorsKeepSeeds(mode: string, seeds: Seeds)
    requires mode !in {"monochrome", "one-color", "two-colors"}
    ensures seeds.primary.Some? ==> ComputeActiveColors(mode, seeds).primary == seeds.primary.value
    ensures seeds.secondary.Some? ==> ComputeActiveColors(mode, seeds).secondary == seeds.secondary.value
    ensures seeds.tertiary.Some? ==> ComputeActiveColors(mode, seeds).tertiary == seeds.tertiary.value
  {
  }

  /**
   * The one-colour mode prefers the accent seed to the primary one; every
   * other mode but monochrome prefers the primary seed to the accent.
   */
  lemma SeedPreference(seeds: Seeds, mode: string)
    requires seeds.accent.Some? && seeds.primary.Some?
    ensures mode == "one-color" ==> ComputeActiveColors(mode, seeds).primary == seeds.accent.value
    ensures mode != "one-color" && mode != "monochrome" ==>
      ComputeActiveColors(mode, seeds).primary == seeds.primary.value
  {
  }

  /**
   * Without any seed every mode but monochrome starts from the default accent,
   * and the three-colour mode turns it by 35 and then by -55 degrees.
   */
  lemma NoSeeds(mode: string)
    requires mode != "monochrome"
    ensures ComputeActiveColors(mode, Seeds(None, None, None, None)).primary == DefaultAccent
    ensures mode !in {"one-color", "two-colors"} ==>
      var a := ComputeActiveColors(mode, Seeds(None, None, None, None));
      && a.secondary == HueShifted(DefaultAccent, 35)
      && a.tertiary == HueShifted(HueShifted(DefaultAccent, 35), -55)
  {
  }

  /** In the two-colour mode the tertiary lies, channel by channel, between the primary and the secondary. */
  lemma TwoColorsTertiaryBetween(seeds: Seeds)
    ensures var a := ComputeActiveColors("two-colors", seeds);
      ChannelsBetween(HexToRgb(a.tertiary), HexToRgb(a.primary), HexToRgb(a.secondary))
  {
    MixedBetween(SuppliedPrimary(seeds), SuppliedSecondary(seeds), 0.5);
  }

  /** A grey primary has no hue to turn: the derived secondary and tertiary are that grey. */
  lemma GreyPrimaryDerivesGrey(mode: string, seeds: Seeds)
    requires mode !in {"monochrome", "one-color", "two-colors"}
    requires seeds.secondary.None? && seeds.tertiary.None?
    requires var c := HexToRgb(SuppliedPrimary(seeds)); c.r == c.g == c.b
    ensures var a := ComputeActiveColors(mode, seeds);
      a.secondary == Normalized(a.primary) && a.tertiary == Normalized(a.primary)
  {
    var p := SuppliedPrimary(seeds);
    GreyHueShifted(p, 35);
    var s := HueShifted(p, 35);
    assert HexToRgb(s) == HexToRgb(p);
    GreyHueShifted(s, -55);
    CanonicalIsNormal(Normalized(p));
  }
}
