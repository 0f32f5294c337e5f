/**
 * The token maps of both themes (`generatePalette`, app.js:341-446): the
 * tinted neutrals, the intents of the three active colours with a fallback
 * for each token should an intent be missing, a focus ring, the status
 * colours pulled towards the primary, and the card borders.
 */
module Palette {
  import opened Optional
  import opened HexCodec
  import opened Adjust
  import opened Contrast
  import opened NeutralTint
  import opened IntentPalette
  import opened ModeResolver

  // `STATUS_BASE` (app.js:61-66).
  const StatusSuccess: HexColor := "#10b981"
  const StatusWarning: HexColor := "#f59e0b"
  const StatusDanger: HexColor := "#ef4444"
  const StatusInfo: HexColor := "#3b82f6"

  // The opacities of the focus ring (app.js:394 and 436).
  const LightFocusAlpha: Alpha := 40
  const DarkFocusAlpha: Alpha := 45

  // The opacities of the fallback washes at rest, on hover and when active
  // (app.js:376-389 and 418-431).
  const LightPrimaryWashes: (Alpha, Alpha, Alpha) := (12, 20, 26)
  const LightSecondaryWashes: (Alpha, Alpha, Alpha) := (12, 18, 22)
  const LightTertiaryWashes: (Alpha, Alpha, Alpha) := (14, 20, 26)
  const DarkPrimaryWashes: (Alpha, Alpha, Alpha) := (22, 28, 34)
  const DarkSecondaryWashes: (Alpha, Alpha, Alpha) := (18, 24, 30)
  const DarkTertiaryWashes: (Alpha, Alpha, Alpha) := (22, 28, 34)

  // The opacities of the outer and inner card borders (app.js:400-401 and 442-443).
  const LightCardAlphas: (Alpha, Alpha) := (12, 10)
  const DarkCardAlphas: (Alpha, Alpha) := (22, 20)

  /** The dark theme's fallback text colour on a primary fill (app.js:417). */
  const DarkPrimaryInk: HexColor := "#0d1214"

  /** The tokens of a primary colour (app.js:372-379 and 414-421). */
  datatype PrimaryTokens = PrimaryTokens(
    solid: HexColor,
    hover: HexColor,
    active: HexColor,
    contrast: HexColor,
    soft: string,
    softHover: string,
    softActive: string,
    softBorder: HexColor)

  /** The tokens of the secondary or the tertiary colour (app.js:380-393 and 422-435). */
  datatype AccentTokens = AccentTokens(
    soft: string,
    softHover: string,
    softActive: string,
    contrast: HexColor,
    solid: HexColor,
    solidHover: HexColor,
    solidActive: HexColor)

  /** The four status colours (app.js:396-399 and 438-441). */
  datatype StatusTokens = StatusTokens(success: HexColor, warning: HexColor, danger: HexColor, info: HexColor)

  /**
   * The forty tokens of one theme, grouped by role: the ten neutral roles,
   * the primary, secondary and tertiary groups, the focus ring, the caret
   * colour, the statuses and the two card borders.
   */
  datatype Tokens = Tokens(
    neutrals: Neutrals,
    primary: PrimaryTokens,
    secondary: AccentTokens,
    tertiary: AccentTokens,
    focusRing: string,
    selectCaret: HexColor,
    status: StatusTokens,
    cardBorder: string,
    cardBorderInner: string)

  /** The token maps `generatePalette` returns. */
  datatype Palette = Palette(light: Tokens, dark: Tokens)

  /**
   * `.filter(Boolean)` over colours: the non-empty ones, in order. A valid hex
   * colour is never empty, so nothing is dropped.
   */
  function Present(colors: seq<HexColor>): (kept: seq<HexColor>)
    ensures kept == colors
  {
    if |colors| == 0 then []
    else (if colors[0] != "" then [colors[0]] else []) + Present(colors[1..])
  }

  /** `colorPool` (app.js:343): the primary, secondary and tertiary that are present. */
  function ColorPool(active: ActiveColors): (pool: seq<HexColor>)
    ensures pool == [active.primary, active.secondary, active.tertiary]
  {
    Present([active.primary, active.secondary, active.tertiary])
  }

  /**
   * `influence` (app.js:357): how far the status colours are pulled towards
   * the primary; 0.08 without colours, three points more per colour on top of
   * 0.12 otherwise.
   */
  function Influence(count: nat): (w: real)
    ensures count == 0 ==> w == 0.08
    ensures count > 0 ==> 0.15 <= w && w == 0.12 + 0.03 * count as real
    ensures count == 3 ==> w == 0.21
  {
    if count > 0 then 0.12 + count as real * 0.03 else 0.08
  }

  /** `blendStatus` (app.js:358): a status colour mixed towards the primary. */
  function BlendStatus(status: HexColor, primary: HexColor, influence: real): (c: HexColor)
    ensures IsCanonicalHex(c)
    ensures ChannelsBetween(HexToRgb(c), HexToRgb(status), HexToRgb(primary))
  {
    MixedBetween(status, primary, influence);
    Mixed(status, primary, influence)
  }

  /** The four statuses blended towards the primary; the themes share them. */
  function Statuses(primary: HexColor, influence: real): (st: StatusTokens)
    ensures IsCanonicalHex(st.success) && IsCanonicalHex(st.warning)
    ensures IsCanonicalHex(st.danger) && IsCanonicalHex(st.info)
  {
    StatusTokens(
      BlendStatus(StatusSuccess, primary, influence),
      BlendStatus(StatusWarning, primary, influence),
      BlendStatus(StatusDanger, primary, influence),
      BlendStatus(StatusInfo, primary, influence))
  }

  /** `intent?.x || fallback.x` for every primary token: the intent's tokens when there is an intent. */
  function PrimaryOf(p: Option<Intent>, fallback: PrimaryTokens): (tk: PrimaryTokens)
    ensures p.None? ==> tk == fallback
    ensures p.Some? ==> tk.solid == p.value.base && tk.contrast == p.value.contrast
    ensures p.Some? ==> tk.hover == p.value.hover && tk.active == p.value.active
  {
    match p
    case None => fallback
    case Some(i) => PrimaryTokens(i.base, i.hover, i.active, i.contrast, i.soft, i.softHover, i.softActive, i.softBorderHex)
  }

  /** `intent?.x || fallback.x` for every secondary or tertiary token. */
  function AccentOf(p: Option<Intent>, fallback: AccentTokens): (tk: AccentTokens)
    ensures p.None? ==> tk == fallback
    ensures p.Some? ==> tk.solid == p.value.base && tk.contrast == p.value.contrast
    ensures p.Some? ==> tk.solidHover == p.value.hover && tk.solidActive == p.value.active
  {
    match p
    case None => fallback
    case Some(i) => AccentTokens(i.soft, i.softHover, i.softActive, i.contrast, i.base, i.hover, i.active)
  }

  /** The light theme's primary without an intent: the text colour, darkened for hover and active, under white text (app.js:372-379). */
  function LightPrimaryFallback(n: Neutrals): (tk: PrimaryTokens)
    ensures tk.solid == n.text && tk.contrast == White
    ensures IsCanonicalHex(tk.hover) && IsCanonicalHex(tk.active) && IsCanonicalHex(tk.softBorder)
    ensures ChannelsBetween(HexToRgb(tk.softBorder), HexToRgb(n.border), HexToRgb(n.text))
  {
    var washes := LightPrimaryWashes;
    MixedBetween(n.border, n.text, 0.25);
    PrimaryTokens(
      n.text, Lightened(n.text, -8), Lightened(n.text, -16), White,
      HexToRgba(n.text, washes.0), HexToRgba(n.text, washes.1), HexToRgba(n.text, washes.2),
      Mixed(n.border, n.text, 0.25))
  }

  /** The dark theme's primary without an intent: the text colour dimmed, under `#0d1214` text (app.js:414-421). */
  function DarkPrimaryFallback(n: Neutrals): (tk: PrimaryTokens)
    ensures tk.contrast == DarkPrimaryInk
    ensures IsCanonicalHex(tk.solid) && IsCanonicalHex(tk.hover) && IsCanonicalHex(tk.active)
    ensures IsCanonicalHex(tk.softBorder)
    ensures ChannelsBetween(HexToRgb(tk.softBorder), HexToRgb(n.border), HexToRgb(n.text))
  {
    var washes := DarkPrimaryWashes;
    MixedBetween(n.border, n.text, 0.3);
    PrimaryTokens(
      Lightened(n.text, -10), Lightened(n.text, -6), Lightened(n.text, -2), DarkPrimaryInk,
      HexToRgba(n.text, washes.0), HexToRgba(n.text, washes.1), HexToRgba(n.text, washes.2),
      Mixed(n.border, n.text, 0.3))
  }

  /**
   * A secondary or tertiary without an intent: washes and a solid of the
   * given neutral text role under the main text colour, the solid shifted by
   * `hover` and `active` points of lightness.
   */
  function AccentFallback(n: Neutrals, role: HexColor, washes: (Alpha, Alpha, Alpha), hover: int, active: int): (tk: AccentTokens)
    ensures tk.solid == role && tk.contrast == n.text
    ensures IsCanonicalHex(tk.solidHover) && IsCanonicalHex(tk.solidActive)
  {
    AccentTokens(
      HexToRgba(role, washes.0), HexToRgba(role, washes.1), HexToRgba(role, washes.2),
      n.text, role, Lightened(role, hover), Lightened(role, active))
  }

  /**
   * The light token map (app.js:361-402): the tinted neutrals, each intent's
   * tokens or its fallback, the focus ring on the accent, the caret in the
   * text colour, the blended statuses and the card borders.
   */
  function LightTokens(n: Neutrals, p: Option<Intent>, s: Option<Intent>, t: Option<Intent>,
                       focus: HexColor, primary: HexColor, influence: real): (tk: Tokens)
    ensures tk.neutrals == n && tk.selectCaret == n.text
    ensures tk.focusRing == HexToRgba(focus, LightFocusAlpha)
    ensures tk.status == Statuses(primary, influence)
  {
    Tokens(
      n,
      PrimaryOf(p, LightPrimaryFallback(n)),
      AccentOf(s, AccentFallback(n, n.textSecondary, LightSecondaryWashes, -6, -10)),
      AccentOf(t, AccentFallback(n, n.textMuted, LightTertiaryWashes, -6, -10)),
      HexToRgba(focus, LightFocusAlpha),
      n.text,
      Statuses(primary, influence),
      HexToRgba(n.border, LightCardAlphas.0),
      HexToRgba(n.borderSubtle, LightCardAlphas.1))
  }

  /**
   * The dark token map (app.js:403-444): as the light one, with the dark
   * theme's fallbacks (the secondary and tertiary solids lightened rather
   * than darkened), stronger washes and card borders, and a 45% focus ring.
   */
  function DarkTokens(n: Neutrals, p: Option<Intent>, s: Option<Intent>, t: Option<Intent>,
                      focus: HexColor, primary: HexColor, influence: real): (tk: Tokens)
    ensures tk.neutrals == n && tk.selectCaret == n.text
    ensures tk.focusRing == HexToRgba(focus, DarkFocusAlpha)
    ensures tk.status == Statuses(primary, influence)
  {
    Tokens(
      n,
      PrimaryOf(p, DarkPrimaryFallback(n)),
      AccentOf(s, AccentFallback(n, n.textSecondary, DarkSecondaryWashes, 8, 12)),
      AccentOf(t, AccentFallback(n, n.textMuted, DarkTertiaryWashes, 8, 12)),
      HexToRgba(focus, DarkFocusAlpha),
      n.text,
      Statuses(primary, influence),
      HexToRgba(n.border, DarkCardAlphas.0),
      HexToRgba(n.borderSubtle, DarkCardAlphas.1))
  }

  /**
   * `generatePalette(mode, colors)`: resolves the active colours, tints both
   * themes' neutrals with the pool of them, builds the intent of every active
   * colour in each theme and fills both token maps.
   */
  function GeneratePalette(mode: string, seeds: Seeds, pow24: real -> real): (pal: Palette)
    requires PowInUnit(pow24)
    ensures pal.light.neutrals.text == LightText && pal.light.selectCaret == LightText
    ensures pal.dark.neutrals.text == DarkText && pal.dark.selectCaret == DarkText
    ensures var active := ComputeActiveColors(mode, seeds);
      var pool := ColorPool(active);
      && pal.light.neutrals == TintNeutralBase(BaseLight, pool, GetTintWeights(|pool|).light, Light)
      && pal.dark.neutrals == TintNeutralBase(BaseDark, pool, GetTintWeights(|pool|).dark, Dark)
      && pal.light.status == Statuses(active.primary, Influence(|pool|))
      && pal.dark.status == Statuses(active.primary, Influence(|pool|))
  {
    var active := ComputeActiveColors(mode, seeds);
    var pool := ColorPool(active);
    var weights := GetTintWeights(|pool|);
    var lightN := TintNeutralBase(BaseLight, pool, weights.light, Light);
    var darkN := TintNeutralBase(BaseDark, pool, weights.dark, Dark);
    var influence := Influence(|pool|);
    Palette(
      LightTokens(lightN,
        BuildIntentPalette(Some(active.primary), lightN, Light, pow24),
        BuildIntentPalette(Some(active.secondary), lightN, Light, pow24),
        BuildIntentPalette(Some(active.tertiary), lightN, Light, pow24),
        active.accent, active.primary, influence),
      DarkTokens(darkN,
        BuildIntentPalette(Some(active.primary), darkN, Dark, pow24),
        BuildIntentPalette(Some(active.secondary), darkN, Dark, pow24),
        BuildIntentPalette(Some(active.tertiary), darkN, Dark, pow24),
        active.accent, active.primary, influence))
  }

  /**
   * Every palette is tinted by exactly three colours: both themes take the
   * heaviest tint weights and the statuses the influence 0.21.
   */
  lemma ThreeColorPool(active: ActiveColors)
    ensures |ColorPool(active)| == 3
    ensures GetTintWeights(|ColorPool(active)|) == TintWeights(0.058, 0.075)
    ensures Influence(|ColorPool(active)|) == 0.21
  {
  }

  /**
   * Each status colour is its base mixed towards the primary, so every
   * channel lies between the status base and the primary.
   */
  lemma StatusesBetween(primary: HexColor, influence: real)
    ensures var st := Statuses(primary, influence);
      && ChannelsBetween(HexToRgb(st.success), HexToRgb(StatusSuccess), HexToRgb(primary))
      && ChannelsBetween(HexToRgb(st.warning), HexToRgb(StatusWarning), HexToRgb(primary))
      && ChannelsBetween(HexToRgb(st.danger), HexToRgb(StatusDanger), HexToRgb(primary))
      && ChannelsBetween(HexToRgb(st.info), HexToRgb(StatusInfo), HexToRgb(primary))
  {
  }

  /**
   * With every intent present, as `generatePalette` always has them, the
   * light tokens use no fallback: each solid, shade, text colour and wash
   * comes from its intent.
   */
  lemma LightIntentTokens(n: Neutrals, p: Intent, s: Intent, t: Intent,
                          focus: HexColor, primary: HexColor, influence: real)
    ensures var tk := LightTokens(n, Some(p), Some(s), Some(t), focus, primary, influence);
      && tk.primary == PrimaryTokens(p.base, p.hover, p.active, p.contrast, p.soft, p.softHover, p.softActive, p.softBorderHex)
      && tk.secondary == AccentTokens(s.soft, s.softHover, s.softActive, s.contrast, s.base, s.hover, s.active)
      && tk.tertiary == AccentTokens(t.soft, t.softHover, t.softActive, t.contrast, t.base, t.hover, t.active)
  {
  }

  /** The same holds of the dark tokens. */
  lemma DarkIntentTokens(n: Neutrals, p: Intent, s: Intent, t: Intent,
                         focus: HexColor, primary: HexColor, influence: real)
    ensures var tk := DarkTokens(n, Some(p), Some(s), Some(t), focus, primary, influence);
      && tk.primary == PrimaryTokens(p.base, p.hover, p.active, p.contrast, p.soft, p.softHover, p.softActive, p.softBorderHex)
      && tk.secondary == AccentTokens(s.soft, s.softHover, s.softActive, s.contrast, s.base, s.hover, s.active)
      && tk.tertiary == AccentTokens(t.soft, t.softHover, t.softActive, t.contrast, t.base, t.hover, t.active)
  {
  }

  /**
   * How `generatePalette` fills the light token map: the light theme's tinted
   * neutrals and the light intent of every active colour.
   */
  lemma LightAssembly(mode: string, seeds: Seeds, pow24: real -> real)
    requires PowInUnit(pow24)
    ensures var active := ComputeActiveColors(mode, seeds);
      var pool := ColorPool(active);
      var n := TintNeutralBase(BaseLight, pool, GetTintWeights(|pool|).light, Light);
      GeneratePalette(mode, seeds, pow24).light
        == LightTokens(n, Some(IntentOf(active.primary, n, Light, pow24)), Some(IntentOf(active.secondary, n, Light, pow24)),
             Some(IntentOf(active.tertiary, n, Light, pow24)), active.accent, active.primary, Influence(|pool|))
  {
    var active := ComputeActiveColors(mode, seeds);
    var pool := ColorPool(active);
    var n := TintNeutralBase(BaseLight, pool, GetTintWeights(|pool|).light, Light);
    PresentIntent(active.primary, n, Light, pow24);
    PresentIntent(active.secondary, n, Light, pow24);
    PresentIntent(active.tertiary, n, Light, pow24);
  }

  /**
   * In every palette the light primary, secondary and tertiary groups are the
   * light intents of the active primary, secondary and tertiary colours,
   * built over the light theme's tinted neutrals; so the light primary solid
   * is the active primary itself, respelled canonically.
   */
  lemma LightIntentGroups(mode: string, seeds: Seeds, pow24: real -> real)
    requires PowInUnit(pow24)
    ensures var pal, active := GeneratePalette(mode, seeds, pow24), ComputeActiveColors(mode, seeds);
      var p := IntentOf(active.primary, pal.light.neutrals, Light, pow24);
      var s := IntentOf(active.secondary, pal.light.neutrals, Light, pow24);
      var t := IntentOf(active.tertiary, pal.light.neutrals, Light, pow24);
      && pal.light.primary == PrimaryTokens(p.base, p.hover, p.active, p.contrast, p.soft, p.softHover, p.softActive, p.softBorderHex)
      && pal.light.secondary == AccentTokens(s.soft, s.softHover, s.softActive, s.contrast, s.base, s.hover, s.active)
      && pal.light.tertiary == AccentTokens(t.soft, t.softHover, t.softActive, t.contrast, t.base, t.hover, t.active)
    ensures var pal, active := GeneratePalette(mode, seeds, pow24), ComputeActiveColors(mode, seeds);
      pal.light.primary.solid == Normalized(active.primary)
  {
    var active := ComputeActiveColors(mode, seeds);
    var pool := ColorPool(active);
    var n := TintNeutralBase(BaseLight, pool, GetTintWeights(|pool|).light, Light);
    var p := IntentOf(active.primary, n, Light, pow24);
    var s := IntentOf(active.secondary, n, Light, pow24);
    var t := IntentOf(active.tertiary, n, Light, pow24);
    LightAssembly(mode, seeds, pow24);
    LightIntentTokens(n, p, s, t, active.accent, active.primary, Influence(|pool|));
    LightIntentBase(active.primary, n, pow24);
  }

  /**
   * How `generatePalette` fills the dark token map: the dark theme's tinted
   * neutrals and the dark intent of every active colour.
   */
  lemma DarkAssembly(mode: string, seeds: Seeds, pow24: real -> real)
    requires PowInUnit(pow24)
    ensures var active := ComputeActiveColors(mode, seeds);
      var pool := ColorPool(active);
      var n := TintNeutralBase(BaseDark, pool, GetTintWeights(|pool|).dark, Dark);
      GeneratePalette(mode, seeds, pow24).dark
        == DarkTokens(n, Some(IntentOf(active.primary, n, Dark, pow24)), Some(IntentOf(active.secondary, n, Dark, pow24)),
             Some(IntentOf(active.tertiary, n, Dark, pow24)), active.accent, active.primary, Influence(|pool|))
  {
    var active := ComputeActiveColors(mode, seeds);
    var pool := ColorPool(active);
    var n := TintNeutralBase(BaseDark, pool, GetTintWeights(|pool|).dark, Dark);
    PresentIntent(active.primary, n, Dark, pow24);
    PresentIntent(active.secondary, n, Dark, pow24);
    PresentIntent(active.tertiary, n, Dark, pow24);
  }

  /**
   * The same holds of the dark groups, built from the dark intents over the
   * dark theme's neutrals.
   */
  lemma DarkIntentGroups(mode: string, seeds: Seeds, pow24: real -> real)
    requires PowInUnit(pow24)
    ensures var pal, active := GeneratePalette(mode, seeds, pow24), ComputeActiveColors(mode, seeds);
      var p := IntentOf(active.primary, pal.dark.neutrals, Dark, pow24);
      var s := IntentOf(active.secondary, pal.dark.neutrals, Dark, pow24);
      var t := IntentOf(active.tertiary, pal.dark.neutrals, Dark, pow24);
      && pal.dark.primary == PrimaryTokens(p.base, p.hover, p.active, p.contrast, p.soft, p.softHover, p.softActive, p.softBorderHex)
      && pal.dark.secondary == AccentTokens(s.soft, s.softHover, s.softActive, s.contrast, s.base, s.hover, s.active)
      && pal.dark.tertiary == AccentTokens(t.soft, t.softHover, t.softActive, t.contrast, t.base, t.hover, t.active)
  {
    var active := ComputeActiveColors(mode, seeds);
    var pool := ColorPool(active);
    var n := TintNeutralBase(BaseDark, pool, GetTintWeights(|pool|).dark, Dark);
    var p := IntentOf(active.primary, n, Dark, pow24);
    var s := IntentOf(active.secondary, n, Dark, pow24);
    var t := IntentOf(active.tertiary, n, Dark, pow24);
    DarkAssembly(mode, seeds, pow24);
    DarkIntentTokens(n, p, s, t, active.accent, active.primary, Influence(|pool|));
  }

  /**
   * In the dark theme the primary group, whatever the mode and seeds, carries
   * white text (and so, by the same two steps, do the other two groups).
   */
  lemma DarkPrimaryWhiteText(mode: string, seeds: Seeds, pow24: real -> real)
    requires PowInUnit(pow24)
    ensures GeneratePalette(mode, seeds, pow24).dark.primary.contrast == White
  {
    DarkIntentGroups(mode, seeds, pow24);
  }

  /**
   * Without intents the light tokens fall back on the neutrals: the primary
   * is the text colour under white text, the secondary and tertiary solids
   * are the secondary and muted text under the main text colour, darkened for
   * hover and active.
   */
  lemma LightFallbacks(n: Neutrals, focus: HexColor, primary: HexColor, influence: real)
    ensures var tk := LightTokens(n, None, None, None, focus, primary, influence);
      && tk.primary.solid == n.text && tk.primary.contrast == White
      && tk.primary.hover == Lightened(n.text, -8) && tk.primary.active == Lightened(n.text, -16)
      && tk.secondary.solid == n.textSecondary && tk.secondary.contrast == n.text
      && tk.secondary.solidHover == Lightened(n.textSecondary, -6)
      && tk.tertiary.solid == n.textMuted && tk.tertiary.contrast == n.text
      && tk.tertiary.solidHover == Lightened(n.textMuted, -6)
  {
  }

  /**
   * Without intents the dark tokens fall back on the neutrals too, but the
   * primary is the text colour dimmed by 10 points under `#0d1214`, and the
   * secondary and tertiary solids are lightened for hover and active.
   */
  lemma DarkFallbacks(n: Neutrals, focus: HexColor, primary: HexColor, influence: real)
    ensures var tk := DarkTokens(n, None, None, None, focus, primary, influence);
      && tk.primary.solid == Lightened(n.text, -10) && tk.primary.contrast == DarkPrimaryInk
      && tk.secondary.solid == n.textSecondary && tk.secondary.contrast == n.text
      && tk.secondary.solidHover == Lightened(n.textSecondary, 8)
      && tk.tertiary.solid == n.textMuted && tk.tertiary.contrast == n.text
      && tk.tertiary.solidHover == Lightened(n.textMuted, 8)
  {
  }

  /** Both themes show the same four status colours: `blendStatus` depends on the theme in nothing. */
  lemma SharedStatuses(mode: string, seeds: Seeds, pow24: real -> real)
    requires PowInUnit(pow24)
    ensures var pal := GeneratePalette(mode, seeds, pow24);
      pal.light.status == pal.dark.status
  {
  }

  /** The focus ring of either theme is the active primary, 40% opaque in the light theme and 45% in the dark. */
  lemma FocusOnPrimary(mode: string, seeds: Seeds, pow24: real -> real)
    requires PowInUnit(pow24)
    ensures var pal := GeneratePalette(mode, seeds, pow24);
      var active := ComputeActiveColors(mode, seeds);
      && pal.light.focusRing == HexToRgba(active.primary, LightFocusAlpha)
      && pal.dark.focusRing == HexToRgba(active.primary, DarkFocusAlpha)
  {
  }

  /**
   * How `generatePalette` tints the neutrals: each theme's base palette is
   * tinted by the three active colours at that theme's heaviest weight.
   */
  lemma NeutralsFromActive(mode: string, seeds: Seeds, pow24: real -> real)
    requires PowInUnit(pow24)
    ensures var pal, active := GeneratePalette(mode, seeds, pow24), ComputeActiveColors(mode, seeds);
      var pool := [active.primary, active.secondary, active.tertiary];
      && pal.light.neutrals == TintNeutralBase(BaseLight, pool, 0.058, Light)
      && pal.dark.neutrals == TintNeutralBase(BaseDark, pool, 0.075, Dark)
  {
    var active := ComputeActiveColors(mode, seeds);
    ThreeColorPool(active);
    assert GetTintWeights(|ColorPool(active)|) == TintWeights(0.058, 0.075);
  }

  /**
   * Both themes' statuses are the fixed bases pulled towards the active
   * primary with influence 0.21.
   */
  lemma StatusesFromActive(mode: string, seeds: Seeds, pow24: real -> real)
    requires PowInUnit(pow24)
    ensures var pal, active := GeneratePalette(mode, seeds, pow24), ComputeActiveColors(mode, seeds);
      && pal.light.status == Statuses(active.primary, 0.21)
      && pal.dark.status == Statuses(active.primary, 0.21)
  {
    var active := ComputeActiveColors(mode, seeds);
    ThreeColorPool(active);
  }

  /** In the monochrome mode the palette does not depend on the seeds. */
  lemma MonochromePalette(s1: Seeds, s2: Seeds, pow24: real -> real)
    requires PowInUnit(pow24)
    ensures GeneratePalette("monochrome", s1, pow24) == GeneratePalette("monochrome", s2, pow24)
  {
    MonochromeIgnoresSeeds(s1, s2);
  }

  /** An unknown mode gives the three-colour palette. */
  lemma UnknownModePalette(mode: string, seeds: Seeds, pow24: real -> real)
    requires PowInUnit(pow24)
    requires mode !in {"monochrome", "one-color", "two-colors", "three-colors"}
    ensures GeneratePalette(mode, seeds, pow24) == GeneratePalette("three-colors", seeds, pow24)
  {
    UnknownModeIsThreeColors(mode, seeds);
  }
}
