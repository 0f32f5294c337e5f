# basis-css colour engine in Dafny

basis-css's theme builder derives two complete token maps from a colour
mode and up to four seed colours: a light one and a dark one, about forty
CSS colour tokens each. The derivation has five stages:

- It resolves the active accent, primary, secondary and tertiary colours.
  The mode is monochrome, one colour, two colours or three colours.
  Missing seeds are derived by turning the hue, adjusting lightness and
  saturation, or mixing.
- It tints each theme's neutral surfaces, borders and text with those
  colours.
- It builds an *intent* (solid, hover, active, readable text colour,
  washes and soft mixes) for each active colour in each theme.
- It pulls four fixed status colours towards the primary.
- It lays everything out as the light and dark token maps.

Underneath sit these pieces:

- A hex/RGB codec.
- RGB↔HSL conversion.
- Lightness, saturation and hue adjustment.
- Linear mixing.
- The relative luminance and contrast rule that picks white or dark text.

The model follows `app.js` module by module:

| file | module | source |
|---|---|---|
| `option.dfy` | `Optional` | an absent seed or intent |
| `hex_codec.dfy` | `HexCodec` | `clamp`, `hexToRgb`, `rgbToHex`, `hexToRgba`, `hexToRgbString`, `isValidHexColor` |
| `color_math.dfy` | `ColorMath` | `rgbToHsl`, `hslToRgb` |
| `adjust.dfy` | `Adjust` | `adjustLightness`, `adjustSaturation`, `shiftHue`, `mixColors` |
| `contrast.dfy` | `Contrast` | `getRelativeLuminance`, `getReadableTextColor` |
| `neutral_tint.dfy` | `NeutralTint` | `BASE_NEUTRALS`, `getTintWeights`, `tintNeutralBase` |
| `intent_palette.dfy` | `IntentPalette` | `buildIntentPalette` |
| `mode_resolver.dfy` | `ModeResolver` | `computeActiveColors` |
| `palette.dfy` | `Palette` | `STATUS_BASE`, `generatePalette` |

Most of the source is expressions and calls, and it is modelled as
functions. The step-by-step procedures are Dafny methods:

- `rgbToHsl` and `hslToRgb`, with their `switch` and `if` chains.
- `adjustLightness`, `adjustSaturation` and `shiftHue`, which mutate the
  HSL record in place.

Each method is proved equal to a reference function (`HslOf`, `RgbOfHsl`,
`Lightened`, `Saturated`, `HueShifted`). The rest of the model uses those
functions.

Colour arithmetic is over exact reals. Channels are decoded as bytes.
JavaScript's `%` is modelled as the truncating remainder `JsRem`.
`Math.round` is modelled as `floor(x + 0.5)`.

The RGB→HSL→RGB round trip is proved exact (`HslRoundTrip`): every byte
colour survives conversion to HSL and back. No HSL→RGB→HSL round trip is
claimed, because HSL values that are not the image of a byte colour are
rounded on the way back.

The colour type is the set of strings that `isValidHexColor` accepts:
`#` and three or six hex digits. `hexToRgb` does not expand the
three-digit form. It parses the digits as one number and masks out three
bytes, so `#abc` decodes to red 0, green 0x0a, blue 0xbc. The model does
the same, and `ShortFormNotExpanded` states it.

## Model

| member | source | states |
|---|---|---|
| HexCodec.Clamp | app.js:70 | the result lies in `[lo, hi]`; it is the value itself inside the interval and the nearer bound outside it |
| HexCodec.ClampInt | app.js:83 | the integer clamp applied after rounding a channel agrees with `clamp` on the same values |
| HexCodec.Round | app.js:83 | `Math.round` lands within half a unit of its argument |
| HexCodec.ChannelByteBounds | app.js:83 | a channel written by `toHex` is within half a unit of an in-range value; below -0.5 it is 0, from 254.5 up it is 255 |
| HexCodec.ChannelByteOfByte | app.js:83 | a whole byte value is written unchanged |
| HexCodec.HexValue | app.js:74 | a run of n hex digits parses to a number below 16^n |
| HexCodec.IsValidHexColor | app.js:619-621 | every canonical lower-case `#rrggbb` string passes the check, so whatever `rgbToHex` writes is accepted again (with `DecodeBytes`); the body is the test itself: `#`, then three or six hex digits of either case |
| HexCodec.HexToRgb | app.js:72-80 | the three decoded bytes recombine to the parsed six-digit number; for three digits red is 0 and green/blue recombine to the parsed number |
| HexCodec.Hex2 | app.js:83 | `toHex` of a byte is its two lower-case hex digits, high nibble first (padded to two) |
| HexCodec.Base16Padded | app.js:83 | `toString(16)` padded by `padStart(2, '0')` gives exactly the two nibble digits |
| HexCodec.RgbToHex | app.js:82-85 | the output is a canonical `#rrggbb` string, and it decodes to the rounded, clamped channels |
| HexCodec.DecodeBytes | app.js:72-85 | the hex text of three bytes is a valid colour and decodes to exactly those bytes |
| HexCodec.RgbRoundTrip | app.js:72-85 | decoding after encoding a byte colour gives it back |
| HexCodec.Normalized | app.js:72-85 | re-encoding a colour yields the canonical spelling of the same three bytes |
| HexCodec.CanonicalIsNormal | app.js:72-85 | a lower-case six-digit colour is its own re-encoding |
| HexCodec.ShortFormNotExpanded | app.js:72-79 | `#xyz` decodes to red 0, green `x`, blue `yz`: the short form is not expanded |
| HexCodec.DecimalText | app.js:184 | a number is printed as a non-empty run of decimal digits with no leading zero |
| HexCodec.DecimalTextRoundTrip | app.js:184 | the printed digits read back as the number |
| HexCodec.AlphaText | app.js:184 | an opacity prints as `0`, `1`, or `0.` and at most two digits with no trailing zero, and those digits denote exactly the opacity |
| HexCodec.RgbStringReadsBack | app.js:187-190 | `hexToRgbString` is three decimal fields separated by `", "` that read back as red, green and blue |
| HexCodec.HexToRgbString | app.js:187-190 | computes `r, g, b` from the decoded channels; what the text means is stated by `RgbStringReadsBack` |
| HexCodec.RgbaReadsBack | app.js:182-185 | `hexToRgba` writes `rgba(`, three fields that read back as red, green and blue, `", "`, a number literal whose value is the opacity, and `)` |
| HexCodec.HexToRgba | app.js:182-185 | computes the `rgba(...)` text; what the text means is stated by `RgbaReadsBack` |
| ColorMath.Trunc | app.js:100 | truncation toward zero stays within one unit of its argument and on the same side of zero |
| ColorMath.JsRem | app.js:100 | JavaScript's `%` has magnitude below the divisor, takes the dividend's sign, and leaves a dividend inside `(-m, m)` unchanged |
| ColorMath.FlooredRem | app.js:166-167 | the floored remainder lies in `[0, m)` |
| ColorMath.CorrectedRemIsFloored | app.js:166-167 | `%` followed by "add `m` when negative" is the floored remainder for every dividend |
| ColorMath.FlooredRemShift | app.js:166-167 | the corrected remainder is periodic in the divisor |
| ColorMath.HueRatio | app.js:97-108 | the hue's within-sector ratio lies in `[-1, 1]`, is 0 for grey, and is negative exactly when the numerator is |
| ColorMath.HueOf | app.js:96-111 | the hue lies in `[0, 360)` and is 0 for a grey |
| ColorMath.LightnessOf | app.js:113 | the lightness lies in `[0, 1]` |
| ColorMath.SaturationOf | app.js:114 | the saturation lies in `[0, 1]` and is 0 exactly for a grey |
| ColorMath.HslOf | app.js:87-117 | all three HSL components are in range, and the saturation is 0 exactly when r = g = b |
| ColorMath.RgbToHsl | app.js:87-117 | the step-by-step conversion, with its `switch` on the maximum channel, computes the reference HSL |
| ColorMath.Sector | app.js:128-146 | every hue selects one of the six sectors of the `if` chain |
| ColorMath.SectorAt | app.js:128-142 | a hue in `[60k, 60(k+1))` selects sector k |
| ColorMath.RgbOfHsl | app.js:119-150 | the reference RGB of an HSL value: zero saturation gives a grey (r = g = b); `HslRoundTrip` ties it back to `HslOf` |
| ColorMath.HslToRgb | app.js:119-150 | the six-way `if` chain and `to255` compute the reference RGB of the HSL value |
| ColorMath.SectorMatches | app.js:96-111 | the sector `hslToRgb` picks for a colour's hue is the one its channel order dictates |
| ColorMath.RgbOfMatchingHsl | app.js:119-150 | any HSL value that agrees exactly with a byte colour's components converts back to that colour |
| ColorMath.HslRoundTrip | app.js:87-150 | `hslToRgb(rgbToHsl(c)) == c` for every byte colour |
| Adjust.WithLightness | app.js:154 | only the lightness changes; it becomes `l + amount/100` when that lies in `[0, 1]`, 1 when that reaches or passes 1, and 0 when it reaches or passes 0 |
| Adjust.WithSaturation | app.js:160 | only the saturation changes; it becomes `s + amount/100` when that lies in `[0, 1]`, 1 when that reaches or passes 1, and 0 when it reaches or passes 0 |
| Adjust.ShiftedHue | app.js:166-167 | the turned hue lies in `[0, 360)` and is the floored remainder of hue plus amount |
| Adjust.WithHue | app.js:166-167 | only the hue changes, to the turned hue |
| Adjust.HexOfHsl | app.js:155 | the encoded result is canonical and decodes to the HSL value's RGB |
| Adjust.Lightened | app.js:152-156 | `adjustLightness` always yields a canonical `#rrggbb` (the method `AdjustLightness` is proved to compute it; `LightenedToWhite`, `DarkenedToBlack`, `LightenedByZero` characterise it) |
| Adjust.Saturated | app.js:158-162 | `adjustSaturation` always yields a canonical `#rrggbb` (see `AdjustSaturation`, `DesaturatedToGrey`, `SaturatedByZero`) |
| Adjust.HueShifted | app.js:164-169 | `shiftHue` always yields a canonical `#rrggbb` (see `ShiftHue`, `HueShiftedByZero`, `HueShiftPeriodic`, `GreyHueShifted`) |
| Adjust.AdjustLightness | app.js:152-156 | decoding, mutating the lightness in place and re-encoding computes `Lightened` |
| Adjust.AdjustSaturation | app.js:158-162 | the same for the saturation and `Saturated` |
| Adjust.ShiftHue | app.js:164-169 | the same for the hue turn and `HueShifted` |
| Adjust.CanonicalUnique | app.js:82-85 | two canonical colours with the same bytes are the same string |
| Adjust.LightenedToWhite | app.js:152-156 | lightening by 100 or more always gives `#ffffff` |
| Adjust.DarkenedToBlack | app.js:152-156 | darkening by 100 or more always gives `#000000` |
| Adjust.LightenedByZero | app.js:152-156 | a zero adjustment only respells the colour canonically |
| Adjust.DesaturatedToGrey | app.js:158-162 | removing 100 or more points of saturation yields a grey |
| Adjust.SaturatedByZero | app.js:158-162 | a zero saturation change only respells the colour |
| Adjust.HueShiftedByZero | app.js:164-169 | a zero hue turn only respells the colour |
| Adjust.HueShiftPeriodic | app.js:164-169 | turning by `amount + 360` equals turning by `amount` |
| Adjust.GreyAnyHue | app.js:119-150 | a grey converts back to itself whatever hue it is given |
| Adjust.GreyHueShifted | app.js:164-169 | turning a grey's hue leaves the grey |
| Adjust.LightnessNearFields | app.js:119-150 | the colour `hslToRgb` builds from in-range fields has an HSL lightness within one rounding step (1/510) of the requested `l` |
| Adjust.LightenedNear | app.js:152-156 | after `adjustLightness` the colour's lightness is within 1/510 of the clamped target, and so of `l + amount/100` whenever that lies in `[0, 1]` |
| Adjust.ClampedToBlack | app.js:154 | a target lightness at or below 0 gives a colour of lightness 0 |
| Adjust.ClampedToWhite | app.js:154 | a target lightness at or above 1 gives a colour of lightness 1 |
| Adjust.UnclampedMonotone | app.js:152-156 | between the clamps a smaller amount never gives a lighter colour |
| Adjust.LightenedMonotone | app.js:152-156 | for every colour, a smaller amount never gives a lighter colour |
| Adjust.DarkenedNotLighter | app.js:152-156 | a zero or negative amount never makes a colour lighter than it was |
| Adjust.MixChannel | app.js:176-178 | a mixed channel lies between the two inputs; weight 0 gives the first and weight 1 the second |
| Adjust.Mixed | app.js:171-180 | the mix is a canonical colour |
| Adjust.MixedAtZero | app.js:172 | a weight at or below 0 clamps to the first colour |
| Adjust.MixedAtOne | app.js:172 | a weight at or above 1 clamps to the second colour |
| Adjust.MixedWithSelf | app.js:171-180 | a colour mixed with itself is itself |
| Adjust.MixedBetween | app.js:171-180 | every channel of the mix lies between the two inputs' channels |
| Adjust.MixedSymmetric | app.js:171-180 | mixing a into b by w equals mixing b into a by 1 - w |
| Contrast.ChannelLinear | app.js:194-197 | below the 0.03928 knee the channel is linear (`v / 12.92`); with a power in the unit interval the result is in `[0, 1]` |
| Contrast.RelativeLuminance | app.js:192-203 | the luminance lies in `[0, 1]` |
| Contrast.ContrastOrder | app.js:207-209 | white text wins exactly when `lum^2 + 0.1 lum < 0.05` |
| Contrast.ReadableTextColor | app.js:205-211 | the text colour is white or `#0b1011`; always white in the dark theme; in the light theme white exactly for a dark enough colour |
| Contrast.WhiteTextForDarker | app.js:205-211 | if a colour takes white text in the light theme, so does every colour of no greater luminance |
| Contrast.BlackGetsWhiteText | app.js:192-211 | black has luminance 0 and takes white text in the light theme |
| Contrast.WhiteGetsInkText | app.js:192-211 | white has luminance 1 and takes the dark text in the light theme (in the dark theme every colour takes white text) |
| NeutralTint.GetTintWeights | app.js:213-224 | no colours means no tint, and conversely; dark weights are at least the light ones, at most 0.075; three or more colours give (0.058, 0.075) |
| NeutralTint.TintWeightsMonotone | app.js:213-224 | more colours never give a lighter tint |
| NeutralTint.BaseNeutrals | app.js:33-58 | every role of both base palettes is written in the canonical `#rrggbb` spelling |
| NeutralTint.Baseline | app.js:231-232 | the baseline lies between 0 and the theme's cap (0.08 light, 0.12 dark) |
| NeutralTint.WeightsFor | app.js:233-243 | each role's weight is in `[0, its cap]`, and the roles are ordered: secondary text ≤ border ≤ subtle ≤ strong ≤ surface ≤ raised |
| NeutralTint.Tint | app.js:240-241 | no colours leaves the colour as given; otherwise the result is canonical |
| NeutralTint.TintSnoc | app.js:240-241 | the reduction is a left fold: one more colour mixes the previous result with it |
| NeutralTint.TintWithoutWeight | app.js:240-241 | a non-positive weight only respells the colour |
| NeutralTint.TintWithFullWeight | app.js:240-241 | full weight ends at the last accent |
| NeutralTint.TintOneBetween | app.js:240-241 | tinting with one colour is one mix, between the two colours channel by channel |
| NeutralTint.TintNeutralBase | app.js:226-257 | the text role is never tinted; no colours or no weight returns the base palette unchanged |
| NeutralTint.TintedCanonical | app.js:245-256 | with colours and weight every tinted role is a canonical colour |
| NeutralTint.UntintedRole | app.js:238 | a role whose weight clamps to 0 is only respelled |
| IntentPalette.BuildIntentPalette | app.js:259-262 | there is no intent exactly when there is no colour; otherwise it is the colour's intent |
| IntentPalette.IntentOf | app.js:264-297 | all shades and soft mixes are canonical; the text colour is white or `#0b1011`, white in the dark theme, in the light theme white exactly for a dark enough base |
| IntentPalette.LightIntentBase | app.js:264-267 | in the light theme the base is the colour itself, respelled |
| IntentPalette.IntentSoftBetween | app.js:284-285 | the soft fill and soft border lie between the muted surface (resp. border) and the base |
| IntentPalette.IntentWashes | app.js:280-282 | the washes are the base at 14%, 22% and 28% opacity in the light theme and at 22%, 28% and 34% in the dark one |
| IntentPalette.PresentIntent | app.js:259-262 | a present colour always has its intent |
| IntentPalette.IntentShadesDarker | app.js:264-277 | in both themes the hover shade is no lighter than the base and the active shade no lighter than the hover; in the dark theme the base is no lighter than the colour it comes from |
| ModeResolver.OrElse | app.js:302-304 | a supplied seed wins over its fallback |
| ModeResolver.SuppliedPrimary | app.js:302 | the primary seed if supplied, else the accent seed, else `#3b82f6` |
| ModeResolver.SuppliedSecondary | app.js:303 | the secondary seed if supplied, else the supplied primary turned by 35 degrees (a canonical colour) |
| ModeResolver.SuppliedTertiary | app.js:304 | the tertiary seed if supplied, else the supplied secondary turned by -55 degrees (a canonical colour) |
| ModeResolver.ComputeActiveColors | app.js:300-339 | monochrome gives the fixed slates; the accent is always the primary; one-colour takes the accent seed first, with secondary = primary lightened by 6 then desaturated by 25 and tertiary = primary lightened by 22; two-colour has tertiary = the even mix of primary and secondary; any other mode uses the supplied primary, secondary and tertiary |
| ModeResolver.UnknownModeIsThreeColors | app.js:330-331 | an unknown mode string resolves as `three-colors` |
| ModeResolver.MonochromeIgnoresSeeds | app.js:307-313 | monochrome does not depend on the seeds |
| ModeResolver.ThreeColorsKeepSeeds | app.js:330-337 | every supplied seed is used as given in three-colour mode |
| ModeResolver.SeedPreference | app.js:302-315 | one-colour mode prefers the accent seed; the other non-monochrome modes prefer the primary seed |
| ModeResolver.NoSeeds | app.js:301-304 | without seeds the primary is `#3b82f6`, and three-colour mode turns it by 35 and then -55 degrees |
| ModeResolver.TwoColorsTertiaryBetween | app.js:328 | the two-colour tertiary lies between primary and secondary |
| ModeResolver.GreyPrimaryDerivesGrey | app.js:303-304 | a grey primary derives its own grey as secondary and tertiary |
| Palette.Present | app.js:343 | `filter(Boolean)` keeps every valid colour |
| Palette.ColorPool | app.js:343 | the pool is primary, secondary, tertiary, in that order |
| Palette.Influence | app.js:357 | the status influence is 0.08 without colours and 0.12 + 0.03 per colour otherwise |
| Palette.BlendStatus | app.js:358 | a blended status is canonical and lies between its base and the primary |
| Palette.Statuses | app.js:396-399 | the four blended statuses are canonical |
| Palette.PrimaryOf | app.js:372-379 | an intent supplies the primary solid, shades and text; without one the fallback is used |
| Palette.AccentOf | app.js:380-393 | the same for the secondary and tertiary groups |
| Palette.LightPrimaryFallback | app.js:372-379 | without a primary intent the light primary is the text colour under white text, with canonical hover and active shades and a soft border between the border and the text colour |
| Palette.DarkPrimaryFallback | app.js:414-421 | without a primary intent the dark primary is a canonical shade of the text colour under `#0d1214`, with a soft border between the border and the text colour |
| Palette.AccentFallback | app.js:380-393 | without an intent a secondary or tertiary solid is its text role under the main text colour, with canonical hover and active shades |
| Palette.LightTokens | app.js:361-402 | the light map carries the tinted neutrals, the caret in the text colour, a 40% focus ring and the blended statuses |
| Palette.DarkTokens | app.js:403-444 | the dark map carries the tinted neutrals, the caret in the text colour, a 45% focus ring and the blended statuses |
| Palette.GeneratePalette | app.js:341-446 | both maps keep their theme's untinted text colour as text and caret; each theme's neutrals are its base palette tinted by the colour pool at that pool's weight, and both status groups are blended towards the active primary with the pool's influence |
| Palette.ThreeColorPool | app.js:343-357 | the pool always has three colours, so the tint weights are (0.058, 0.075) and the influence 0.21 |
| Palette.NeutralsFromActive | app.js:343-347 | the light neutrals are the light base tinted by primary, secondary and tertiary at 0.058, the dark ones the dark base at 0.075 |
| Palette.StatusesFromActive | app.js:357-358 | both themes' statuses are the fixed bases pulled towards the active primary with influence 0.21 |
| Palette.StatusesBetween | app.js:358 | each status lies between its fixed base and the primary |
| Palette.LightIntentTokens | app.js:372-393 | with intents present, every light primary, secondary and tertiary token comes from its intent |
| Palette.DarkIntentTokens | app.js:414-435 | the same for the dark map |
| Palette.LightAssembly | app.js:341-402 | the light map is built from the light tinted neutrals and the light intents of the active primary, secondary and tertiary |
| Palette.DarkAssembly | app.js:341-444 | the dark map is built from the dark tinted neutrals and the dark intents of the active primary, secondary and tertiary |
| Palette.LightIntentGroups | app.js:341-393 | for every mode and seeds, the light primary, secondary and tertiary groups are, token by token, the light intents of the active colours over the light neutrals; the light primary solid is the active primary, respelled |
| Palette.DarkIntentGroups | app.js:341-435 | the same for the dark groups, from the dark intents over the dark neutrals |
| Palette.DarkPrimaryWhiteText | app.js:403-417 | for every mode and seeds the dark primary's text colour is white |
| Palette.LightFallbacks | app.js:372-393 | without intents the light groups fall back on the text roles, with white on the primary and darker hovers |
| Palette.DarkFallbacks | app.js:414-435 | without intents the dark primary is the text dimmed by 10 under `#0d1214`, and the accent hovers are lighter |
| Palette.SharedStatuses | app.js:358-441 | both themes show the same status colours |
| Palette.FocusOnPrimary | app.js:356-436 | the focus ring is the active primary at 40% (light) and 45% (dark) |
| Palette.MonochromePalette | app.js:306-313 | a monochrome palette does not depend on the seeds |
| Palette.UnknownModePalette | app.js:330-331 | an unknown mode yields the three-colour palette |

## Left out

- Everything from app.js:448 on is not modelled, except `isValidHexColor` (app.js:619-621), which is `HexCodec.IsValidHexColor`. That covers reading the active scheme, writing CSS custom properties, DOM and event wiring, modals, clipboard, and framework-name and mode-description text. It is I/O around the engine.
- The `colorSystem` state object (app.js:4-12) is not modelled as state. Its mode and its seed colours are parameters of `ComputeActiveColors` and `GeneratePalette`, and the code that mutates the object is event wiring from app.js:448 on.
- `Math.pow(x, 2.4)` in `getRelativeLuminance` is a parameter `pow24`. Everything but one lemma assumes only that it maps `[0, 1]` into `[0, 1]` (`PowInUnit`). `WhiteGetsInkText` also assumes `pow24(1.0) == 1.0`, as the real power function has. Luminance results that need its other exact values are not stated.
- Colour arithmetic is over exact reals, not IEEE doubles. A rounding that lands differently on a .5 boundary under floating point is not modelled.
- The colour inputs are `#` plus 3 or 6 hex digits, the strings `isValidHexColor` accepts (app.js:619-621). An empty seed is an absent `Option`. Other strings never reach the engine: text input passes the validator, and pickers and constants give `#rrggbb`.
- Palette.GeneratePalette: passes every active colour to `buildIntentPalette` as present. `computeActiveColors` always yields non-empty colours, so the model leaves out the unreachable `|| '#2563eb'` (app.js:356) and `|| baseHex` (app.js:358) fallbacks. The token fallbacks are still modelled and characterised (`LightFallbacks`, `DarkFallbacks`).
- The token maps are grouped by role (`Tokens`) rather than flat forty-key objects. The values and their order are the same.
- HexCodec.HexToRgba: the opacity is in hundredths (0 to 100). Every opacity the engine writes has at most two decimals. Other JavaScript number formats are not modelled.
- HexCodec.HexToRgbString: it has no contract of its own. Its meaning is stated by `RgbStringReadsBack`; a contract on the function would burden every token map that uses it.
- HexCodec.HexToRgba: it has no contract of its own either. Its meaning is stated by `RgbaReadsBack`.
- ColorMath.HslToRgb: no HSL→RGB→HSL round trip is claimed, because such a trip is not exact for HSL values that no byte colour produces.
