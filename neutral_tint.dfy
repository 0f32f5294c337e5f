/**
 * The neutral surfaces, borders and text colours of each theme, and how the
 * active colours tint them (`BASE_NEUTRALS`, `getTintWeights`,
 * `tintNeutralBase`, app.js:33-58 and 213-257).
 */
module NeutralTint {
  import opened HexCodec
  import opened Adjust
  import opened Contrast

  /** The ten neutral roles of a theme. */
  datatype Neutrals = Neutrals(
    background: HexColor,
    surface: HexColor,
    surfaceRaised: HexColor,
    surfaceMuted: HexColor,
    border: HexColor,
    borderSubtle: HexColor,
    borderStrong: HexColor,
    text: HexColor,
    textSecondary: HexColor,
    textMuted: HexColor)

  // `BASE_NEUTRALS.light` (app.js:34-45), one role per constant.
  const LightBackground: HexColor := "#fdfefe"
  const LightSurface: HexColor := "#ffffff"
  const LightSurfaceRaised: HexColor := "#f6f8fb"
  const LightSurfaceMuted: HexColor := "#eef2f7"
  const LightBorder: HexColor := "#dce3ef"
  const LightBorderSubtle: HexColor := "#edf1f8"
  const LightBorderStrong: HexColor := "#c5cfdd"
  const LightText: HexColor := "#0f172a"
  const LightTextSecondary: HexColor := "#4b5563"
  const LightTextMuted: HexColor := "#6b7280"

  // `BASE_NEUTRALS.dark` (app.js:46-57).
  const DarkBackground: HexColor := "#05070b"
  const DarkSurface: HexColor := "#090c11"
  const DarkSurfaceRaised: HexColor := "#0f141d"
  const DarkSurfaceMuted: HexColor := "#161c27"
  const DarkBorder: HexColor := "#1f2633"
  const DarkBorderSubtle: HexColor := "#171d27"
  const DarkBorderStrong: HexColor := "#2a323f"
  const DarkText: HexColor := "#f1f5f9"
  const DarkTextSecondary: HexColor := "#c7d2e2"
  const DarkTextMuted: HexColor := "#94a3b8"

  const BaseLight: Neutrals := Neutrals(
    LightBackground, LightSurface, LightSurfaceRaised, LightSurfaceMuted, LightBorder,
    LightBorderSubtle, LightBorderStrong, LightText, LightTextSecondary, LightTextMuted)

  const BaseDark: Neutrals := Neutrals(
    DarkBackground, DarkSurface, DarkSurfaceRaised, DarkSurfaceMuted, DarkBorder,
    DarkBorderSubtle, DarkBorderStrong, DarkText, DarkTextSecondary, DarkTextMuted)

  /** Every role is spelled as `rgbToHex` writes colours: `#` and six lower-case digits. */
  predicate AllCanonical(n: Neutrals) {
    && IsCanonicalHex(n.background) && IsCanonicalHex(n.surface)
    && IsCanonicalHex(n.surfaceRaised) && IsCanonicalHex(n.surfaceMuted)
    && IsCanonicalHex(n.border) && IsCanonicalHex(n.borderSubtle) && IsCanonicalHex(n.borderStrong)
    && IsCanonicalHex(n.text) && IsCanonicalHex(n.textSecondary) && IsCanonicalHex(n.textMuted)
  }

  /**
   * `BASE_NEUTRALS[theme]` (app.js:33-58): both base palettes are written in
   * the canonical spelling, so re-encoding any of their roles leaves it as is.
   */
  function BaseNeutrals(theme: Theme): (n: Neutrals)
    ensures AllCanonical(n)
  {
    if theme == Light then BaseLightCanonical(); BaseLight
    else BaseDarkCanonical(); BaseDark
  }

  /** Six lower-case digits after `#`, checked one by one, make a canonical spelling. */
  lemma SixLowerDigits(s: string)
    requires |s| == 7 && s[0] == '#'
    requires IsLowerHexDigit(s[1]) && IsLowerHexDigit(s[2]) && IsLowerHexDigit(s[3])
    requires IsLowerHexDigit(s[4]) && IsLowerHexDigit(s[5]) && IsLowerHexDigit(s[6])
    ensures IsCanonicalHex(s)
  {
  }

  lemma BaseLightCanonical()
    ensures AllCanonical(BaseLight)
  {
    SixLowerDigits(LightBackground);
    SixLowerDigits(LightSurface);
    SixLowerDigits(LightSurfaceRaised);
    SixLowerDigits(LightSurfaceMuted);
    SixLowerDigits(LightBorder);
    SixLowerDigits(LightBorderSubtle);
    SixLowerDigits(LightBorderStrong);
    SixLowerDigits(LightText);
    SixLowerDigits(LightTextSecondary);
    SixLowerDigits(LightTextMuted);
  }

  lemma BaseDarkCanonical()
    ensures AllCanonical(BaseDark)
  {
    SixLowerDigits(DarkBackground);
    SixLowerDigits(DarkSurface);
    SixLowerDigits(DarkSurfaceRaised);
    SixLowerDigits(DarkSurfaceMuted);
    SixLowerDigits(DarkBorder);
    SixLowerDigits(DarkBorderSubtle);
    SixLowerDigits(DarkBorderStrong);
    SixLowerDigits(DarkText);
    SixLowerDigits(DarkTextSecondary);
    SixLowerDigits(DarkTextMuted);
  }

  // Tint weights -------------------------------------------------------------------

  /** How strongly each theme is tinted. */
  datatype TintWeights = TintWeights(light: real, dark: real)

  /**
   * `getTintWeights(count)` (app.js:213-224): no tint without colours, then a
   * little more per colour up to three; the dark theme always gets more.
   */
  function GetTintWeights(count: nat): (w: TintWeights)
    ensures count == 0 <==> w.light == 0.0
    ensures count == 0 <==> w.dark == 0.0
    ensures 0.0 <= w.light <= w.dark <= 0.075
    ensures count >= 3 ==> w == TintWeights(0.058, 0.075)
  {
    if count == 0 then TintWeights(0.0, 0.0)
    else if count == 1 then TintWeights(0.035, 0.05)
    else if count == 2 then TintWeights(0.048, 0.065)
    else TintWeights(0.058, 0.075)
  }

  /** More colours never lower either weight. */
  lemma TintWeightsMonotone(m: nat, n: nat)
    requires m <= n
    ensures GetTintWeights(m).light <= GetTintWeights(n).light
    ensures GetTintWeights(m).dark <= GetTintWeights(n).dark
  {
  }

  // Per-field weights ------------------------------------------------------------------

  /** The weight each neutral role is tinted with; `surfaceMuted` shares `raised`, `textMuted` shares `textSecondary`. */
  datatype FieldWeights = FieldWeights(
    background: real,
    surface: real,
    raised: real,
    subtle: real,
    border: real,
    borderStrong: real,
    textSecondary: real)

  /** `baseline` (app.js:231-232): the theme's share of the weight, capped. */
  function Baseline(weight: real, theme: Theme): (b: real)
    ensures 0.0 <= b <= (if theme == Light then 0.08 else 0.12)
  {
    var scalar := if theme == Light then 0.4 else 0.5;
    Clamp(weight * scalar, 0.0, if theme == Light then 0.08 else 0.12)
  }

  /**
   * The per-role weights of app.js:233-243. Every weight lies between zero and
   * its role's ceiling, and the roles are graduated: secondary text is tinted
   * least, then borders, subtle borders, strong borders, surfaces and raised
   * surfaces.
   */
  function WeightsFor(weight: real, theme: Theme): (fw: FieldWeights)
    ensures theme == Light ==>
      && 0.0 <= fw.background <= 0.08 && 0.0 <= fw.surface <= 0.1 && 0.0 <= fw.raised <= 0.12
    ensures theme == Dark ==>
      && 0.0 <= fw.background <= 0.12 && 0.0 <= fw.surface <= 0.14 && 0.0 <= fw.raised <= 0.16
    ensures 0.0 <= fw.subtle <= 0.08 && 0.0 <= fw.border <= 0.06
    ensures 0.0 <= fw.borderStrong <= 0.1 && 0.0 <= fw.textSecondary <= 0.06
    ensures fw.textSecondary <= fw.border <= fw.subtle <= fw.borderStrong <= fw.surface <= fw.raised
  {
    var light := theme == Light;
    var baseline := Baseline(weight, theme);
    FieldWeights(
      Clamp(baseline * (if light then 0.65 else 0.8), 0.0, if light then 0.08 else 0.12),
      Clamp(baseline + (if light then 0.004 else 0.007), 0.0, if light then 0.1 else 0.14),
      Clamp(baseline + (if light then 0.008 else 0.012), 0.0, if light then 0.12 else 0.16),
      Clamp(baseline - 0.005, 0.0, 0.08),
      Clamp(baseline - 0.008, 0.0, 0.06),
      Clamp(baseline, 0.0, 0.1),
      Clamp(baseline - 0.01, 0.0, 0.06))
  }

  // Tinting -----------------------------------------------------------------------------

  /**
   * `tint(color, w)` (app.js:240-241): `colors.reduce` mixing the running
   * colour with each accent in turn, from the left.
   */
  function Tint(color: HexColor, colors: seq<HexColor>, w: real): (r: HexColor)
    ensures |colors| == 0 ==> r == color
    ensures |colors| > 0 ==> IsCanonicalHex(r)
    decreases |colors|
  {
    if |colors| == 0 then color
    else Tint(Mixed(color, colors[0], w), colors[1..], w)
  }

  /** The fold takes one more accent by mixing it into the result so far. */
  lemma {:induction false} TintSnoc(color: HexColor, colors: seq<HexColor>, x: HexColor, w: real)
    ensures Tint(color, colors + [x], w) == Mixed(Tint(color, colors, w), x, w)
    decreases |colors|
  {
    if |colors| == 0 {
      assert colors + [x] == [x];
    } else {
      assert (colors + [x])[1..] == colors[1..] + [x];
      TintSnoc(Mixed(color, colors[0], w), colors[1..], x, w);
    }
  }

  /** With weight zero or less, tinting only normalises the spelling. */
  lemma {:induction false} TintWithoutWeight(color: HexColor, colors: seq<HexColor>, w: real)
    requires |colors| > 0 && w <= 0.0
    ensures Tint(color, colors, w) == Normalized(color)
    decreases |colors|
  {
    MixedAtZero(color, colors[0], w);
    if |colors| > 1 {
      TintWithoutWeight(Normalized(color), colors[1..], w);
      CanonicalIsNormal(Normalized(color));
    }
  }

  /** With weight one or more, tinting gives the last accent, normalised. */
  lemma {:induction false} TintWithFullWeight(color: HexColor, colors: seq<HexColor>, w: real)
    requires |colors| > 0 && w >= 1.0
    ensures Tint(color, colors, w) == Normalized(colors[|colors| - 1])
    decreases |colors|
  {
    MixedAtOne(color, colors[0], w);
    if |colors| > 1 {
      TintWithFullWeight(Mixed(color, colors[0], w), colors[1..], w);
    }
  }

  /** One accent tints each channel to a value between the colour's and the accent's. */
  lemma TintOneBetween(color: HexColor, x: HexColor, w: real)
    ensures Tint(color, [x], w) == Mixed(color, x, w)
    ensures ChannelsBetween(HexToRgb(Tint(color, [x], w)), HexToRgb(color), HexToRgb(x))
  {
    assert [x][1..] == [];
    MixedBetween(color, x, w);
  }

  /**
   * `tintNeutralBase(basePalette, colors, weight, theme)` (app.js:226-257):
   * the base itself without colours or without weight; otherwise every role
   * but `text` folded towards the colours with its own weight.
   */
  function TintNeutralBase(base: Neutrals, colors: seq<HexColor>, weight: real, theme: Theme): (n: Neutrals)
    ensures n.text == base.text
    ensures |colors| == 0 || weight <= 0.0 ==> n == base
  {
    if |colors| == 0 || weight <= 0.0 then base
    else
      var fw := WeightsFor(weight, theme);
      Neutrals(
        Tint(base.background, colors, fw.background),
        Tint(base.surface, colors, fw.surface),
        Tint(base.surfaceRaised, colors, fw.raised),
        Tint(base.surfaceMuted, colors, fw.raised),
        Tint(base.border, colors, fw.border),
        Tint(base.borderSubtle, colors, fw.subtle),
        Tint(base.borderStrong, colors, fw.borderStrong),
        base.text,
        Tint(base.textSecondary, colors, fw.textSecondary),
        Tint(base.textMuted, colors, fw.textSecondary))
  }

  /** With colours and weight, every tinted role is spelled canonically. */
  lemma TintedCanonical(base: Neutrals, colors: seq<HexColor>, weight: real, theme: Theme)
    requires |colors| > 0 && weight > 0.0
    ensures var n := TintNeutralBase(base, colors, weight, theme);
      && IsCanonicalHex(n.background) && IsCanonicalHex(n.surface)
      && IsCanonicalHex(n.surfaceRaised) && IsCanonicalHex(n.surfaceMuted)
      && IsCanonicalHex(n.border) && IsCanonicalHex(n.borderSubtle) && IsCanonicalHex(n.borderStrong)
      && IsCanonicalHex(n.textSecondary) && IsCanonicalHex(n.textMuted)
  {
  }

  /** A role whose weight clamps to zero is only normalised, not tinted. */
  lemma UntintedRole(base: Neutrals, colors: seq<HexColor>, weight: real, theme: Theme)
    requires |colors| > 0 && weight > 0.0
    requires WeightsFor(weight, theme).textSecondary == 0.0
    ensures TintNeutralBase(base, colors, weight, theme).textSecondary == Normalized(base.textSecondary)
    ensures TintNeutralBase(base, colors, weight, theme).textMuted == Normalized(base.textMuted)
  {
    TintWithoutWeight(base.textSecondary, colors, 0.0);
    TintWithoutWeight(base.textMuted, colors, 0.0);
  }
}
