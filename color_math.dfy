/**
 * Colour arithmetic (app.js:87-180): RGB <-> HSL conversion, lightness,
 * saturation and hue adjustment, and linear mixing. All of it is computed
 * over exact reals.
 */
module ColorMath {
  import opened HexCodec

  /** Hue in degrees, saturation and lightness as fractions. */
  datatype Hsl = Hsl(h: real, s: real, l: real)

  function Abs(x: real): (r: real) {
    if x < 0.0 then -x else x
  }

  function Max(x: real, y: real): (r: real) {
    if x < y then y else x
  }

  function Min(x: real, y: real): (r: real) {
    if x < y then x else y
  }

  // Remainders ---------------------------------------------------------------
  // Each nonlinear step sits in a lemma of its own: the solver handles one
  // product or quotient of unknowns at a time far better than several.

  /** Rounding toward zero, as JavaScript's `%` does with the quotient. */
  function Trunc(x: real): (t: int)
    ensures x >= 0.0 ==> t == x.Floor
    ensures -1.0 < x - t as real < 1.0
    ensures x >= 0.0 ==> 0.0 <= x - t as real
    ensures x <= 0.0 ==> x - t as real <= 0.0
    ensures -1.0 < x < 1.0 ==> t == 0
  {
    if x >= 0.0 then x.Floor else -((-x).Floor)
  }

  /** JavaScript's `x % m` for numbers: the remainder keeps the sign of `x`. */
  function JsRem(x: real, m: real): (r: real)
    requires m > 0.0
    ensures -m < r < m
    ensures x >= 0.0 ==> 0.0 <= r
    ensures x <= 0.0 ==> r <= 0.0
    ensures -m < x < m ==> r == x
  {
    JsRemBounds(x, m);
    x - m * Trunc(x / m) as real
  }

  lemma JsRemBounds(x: real, m: real)
    requires m > 0.0
    ensures -m < x - m * Trunc(x / m) as real < m
    ensures x >= 0.0 ==> 0.0 <= x - m * Trunc(x / m) as real
    ensures x <= 0.0 ==> x - m * Trunc(x / m) as real <= 0.0
    ensures -m < x < m ==> Trunc(x / m) == 0
  {
    var q := x / m;
    DivMul(x, m);
    if x >= 0.0 {
      DivNonNeg(x, m);
      RemainderWithin(x, m, q, Trunc(q) as real);
    } else {
      DivNonPos(x, m);
      RemainderWithinNeg(x, m, q, Trunc(q) as real);
    }
    if -m < x < m {
      DivAbove(x, m);
      DivBelow(x, m);
    }
  }

  /** With `x = q * m` and `t` within one above `q`, `x - m * t` lies in `(-m, 0]`. */
  lemma RemainderWithinNeg(x: real, m: real, q: real, t: real)
    requires m > 0.0 && q * m == x && t - 1.0 < q <= t
    ensures -m < x - m * t <= 0.0
  {
    var d := q - t;
    assert x - m * t == d * m;
    MulNonPos(d, m);
    MulAbove(d, m);
  }

  lemma RemainderIsScaled(x: real, m: real, t: real)
    requires m > 0.0
    ensures x - m * t == (x / m - t) * m
  {
    DivMul(x, m);
  }

  lemma DivMul(x: real, m: real)
    requires m > 0.0
    ensures (x / m) * m == x
  {
  }

  lemma DivBelow(x: real, m: real)
    requires m > 0.0 && x < m
    ensures x / m < 1.0
  {
  }

  lemma DivAbove(x: real, m: real)
    requires m > 0.0 && -m < x
    ensures -1.0 < x / m
  {
  }

  lemma DivNonNeg(x: real, m: real)
    requires m > 0.0 && 0.0 <= x
    ensures 0.0 <= x / m
  {
  }

  lemma DivNonPos(x: real, m: real)
    requires m > 0.0 && x <= 0.0
    ensures x / m <= 0.0
  {
  }

  lemma MulBelow(d: real, m: real)
    requires m > 0.0 && d < 1.0
    ensures d * m < m
  {
  }

  lemma MulAbove(d: real, m: real)
    requires m > 0.0 && -1.0 < d
    ensures -m < d * m
  {
  }

  lemma MulNonNeg(d: real, m: real)
    requires m > 0.0 && 0.0 <= d
    ensures 0.0 <= d * m
  {
  }

  lemma MulNonPos(d: real, m: real)
    requires m > 0.0 && d <= 0.0
    ensures d * m <= 0.0
  {
  }

  /** The floored remainder: always in `[0, m)`. */
  function FlooredRem(x: real, m: real): (r: real)
    requires m > 0.0
    ensures 0.0 <= r < m
  {
    FlooredRemBounds(x, m);
    x - m * (x / m).Floor as real
  }

  lemma FlooredRemBounds(x: real, m: real)
    requires m > 0.0
    ensures 0.0 <= x - m * (x / m).Floor as real < m
  {
    var q := x / m;
    DivMul(x, m);
    RemainderWithin(x, m, q, q.Floor as real);
  }

  /** With `x = q * m` and `t` within one below `q`, `x - m * t` lies in `[0, m)`. */
  lemma RemainderWithin(x: real, m: real, q: real, t: real)
    requires m > 0.0 && q * m == x && t <= q < t + 1.0
    ensures 0.0 <= x - m * t < m
  {
    var d := q - t;
    assert x - m * t == d * m;
    MulNonNeg(d, m);
    MulBelow(d, m);
  }

  /** `FlooredRem` on a known period: subtract whole multiples of `m`. */
  lemma FlooredRemAt(x: real, m: real, k: int)
    requires m > 0.0 && k as real * m <= x < (k + 1) as real * m
    ensures FlooredRem(x, m) == x - k as real * m
  {
    QuotientBetween(x, m, k as real);
    assert (x / m).Floor == k;
  }

  /** Within the first period `FlooredRem` changes nothing. */
  lemma FlooredRemFirstPeriod(x: real, m: real)
    requires 0.0 <= x < m
    ensures FlooredRem(x, m) == x
  {
    FlooredRemAt(x, m, 0);
  }

  /** The floored remainder has period `m`. */
  lemma FlooredRemShift(x: real, m: real)
    requires m > 0.0
    ensures FlooredRem(x + m, m) == FlooredRem(x, m)
  {
    var k := (x / m).Floor;
    var km := k as real * m;
    assert x - km == FlooredRem(x, m);
    assert (k + 1) as real * m == km + m;
    assert (k + 2) as real * m == km + m + m;
    FlooredRemAt(x, m, k);
    FlooredRemAt(x + m, m, k + 1);
  }

  lemma QuotientBetween(x: real, m: real, k: real)
    requires m > 0.0 && k * m <= x < (k + 1.0) * m
    ensures k <= x / m < k + 1.0
  {
    DivNonNeg(x - k * m, m);
    DivBelow(x - k * m, m);
    DivLinear(x, m, k);
  }

  lemma DivLinear(x: real, m: real, k: real)
    requires m > 0.0
    ensures (x - k * m) / m == x / m - k
  {
  }

  /**
   * JavaScript's `%` followed by one `+ m` when the remainder is negative
   * (app.js:166-167) is the floored remainder, for every `x`.
   */
  lemma CorrectedRemIsFloored(x: real, m: real)
    requires m > 0.0
    ensures (var t := JsRem(x, m); if t < 0.0 then t + m else t) == FlooredRem(x, m)
  {
    var q := x / m;
    if q >= 0.0 {
      assert Trunc(q) == q.Floor;
    } else {
      var n := (-q).Floor;
      assert Trunc(q) == -n;
      RemainderIsScaled(x, m, (-n) as real);
      if n as real == -q {
        assert q.Floor == -n;
      } else {
        assert q.Floor == -n - 1;
        MulBelow(q + n as real, m);
        MulAbove(q + n as real, m);
        assert -1.0 < q + n as real < 0.0;
        MulNonPos(q + n as real, m);
        MulNegative(q + n as real, m);
      }
    }
  }

  lemma MulNegative(d: real, m: real)
    requires m > 0.0 && d < 0.0
    ensures d * m < 0.0
  {
  }

  // RGB -> HSL -----------------------------------------------------------------

  function MaxChannel(c: Rgb): (m: Byte) {
    if c.r >= c.g && c.r >= c.b then c.r else if c.g >= c.b then c.g else c.b
  }

  function MinChannel(c: Rgb): (m: Byte) {
    if c.r <= c.g && c.r <= c.b then c.r else if c.g <= c.b then c.g else c.b
  }

  /** A quotient of two differences where the numerator is at most the denominator in size. */
  lemma RatioWithin(x: real, d: real)
    requires d > 0.0 && -d <= x <= d
    ensures -1.0 <= x / d <= 1.0
  {
    var q := x / d;
    assert x == q * d;
  }

  lemma RatioNegative(x: real, d: real)
    requires d > 0.0
    ensures x / d < 0.0 <==> x < 0.0
  {
    var q := x / d;
    assert x == q * d;
    if q < 0.0 {
      MulNegative(q, d);
    } else {
      MulNonNeg(q, d);
    }
  }

  lemma RatioOne(x: real, d: real)
    requires d > 0.0
    ensures x / d == 1.0 <==> x == d
  {
  }

  /** The channel that is neither the maximum nor the minimum (either of them when two tie). */
  function MidChannel(c: Rgb): (m: int) {
    c.r + c.g + c.b - MaxChannel(c) - MinChannel(c)
  }

  /**
   * The signed distance that places the hue inside the sector of the maximal
   * channel: green minus blue when red is maximal, blue minus red when green
   * is, red minus green otherwise (red is tested first, then green).
   */
  function HueNumerator(c: Rgb): (n: int)
    ensures -(MaxChannel(c) - MinChannel(c)) <= n <= MaxChannel(c) - MinChannel(c)
    ensures n == MidChannel(c) - MinChannel(c) || n == MinChannel(c) - MidChannel(c)
  {
    var mx := MaxChannel(c);
    if mx == c.r then c.g - c.b
    else if mx == c.g then c.b - c.r
    else c.r - c.g
  }

  /** The hue numerator as a fraction of the channel spread, in `[-1, 1]`; zero for a grey. */
  function HueRatio(c: Rgb): (q: real)
    ensures -1.0 <= q <= 1.0
    ensures MaxChannel(c) == MinChannel(c) ==> q == 0.0
    ensures q < 0.0 <==> HueNumerator(c) < 0
    ensures MaxChannel(c) != MinChannel(c) ==> (q == 1.0 <==> HueNumerator(c) == MaxChannel(c) - MinChannel(c))
  {
    if MaxChannel(c) == MinChannel(c) then 0.0
    else
      var d := (MaxChannel(c) - MinChannel(c)) as real;
      RatioWithin(HueNumerator(c) as real, d);
      RatioNegative(HueNumerator(c) as real, d);
      RatioOne(HueNumerator(c) as real, d);
      HueNumerator(c) as real / d
  }

  /** The hue ratio times the channel spread is the hue numerator. */
  lemma HueRatioSpread(c: Rgb)
    ensures HueRatio(c) * (MaxChannel(c) - MinChannel(c)) as real == HueNumerator(c) as real
  {
    if MaxChannel(c) != MinChannel(c) {
      DivMul(HueNumerator(c) as real, (MaxChannel(c) - MinChannel(c)) as real);
    }
  }

  /**
   * Hue in degrees on the integer channels: 60 times the hue ratio, offset by
   * 0, 120 or 240 degrees for a maximal red, green or blue channel, a negative
   * red-sector hue moved up by a full turn.
   */
  function HueOf(c: Rgb): (h: real)
    ensures 0.0 <= h < 360.0
    ensures MaxChannel(c) == MinChannel(c) ==> h == 0.0
  {
    var mx, mn := MaxChannel(c), MinChannel(c);
    if mx == mn then 0.0
    else if mx == c.r then
      var t := 60.0 * HueRatio(c);
      if t < 0.0 then t + 360.0 else t
    else if mx == c.g then
      60.0 * HueRatio(c) + 120.0
    else
      60.0 * HueRatio(c) + 240.0
  }

  /** Lightness: the mid-point of the largest and smallest channel. */
  function LightnessOf(c: Rgb): (l: real)
    ensures 0.0 <= l <= 1.0
  {
    (MaxChannel(c) + MinChannel(c)) as real / 510.0
  }

  /** The denominator of the saturation: twice the distance of the mid-point from black or white. */
  function SaturationRange(c: Rgb): (d: int) {
    var sum := MaxChannel(c) + MinChannel(c);
    if sum <= 255 then sum else 510 - sum
  }

  /** Saturation: the channel spread relative to the largest spread that lightness allows. */
  function SaturationOf(c: Rgb): (s: real)
    ensures 0.0 <= s <= 1.0
    ensures s == 0.0 <==> MaxChannel(c) == MinChannel(c)
  {
    var mx, mn := MaxChannel(c), MinChannel(c);
    if mx == mn then 0.0
    else
      var d, den := (mx - mn) as real, SaturationRange(c) as real;
      assert 0.0 < d <= den;
      RatioWithin(d, den);
      assert d / den > 0.0 by {
        if d / den <= 0.0 {
          assert d == (d / den) * den;
        }
      }
      d / den
  }

  /** The reference RGB -> HSL conversion. */
  function HslOf(c: Rgb): (hsl: Hsl)
    ensures 0.0 <= hsl.h < 360.0 && 0.0 <= hsl.s <= 1.0 && 0.0 <= hsl.l <= 1.0
    ensures hsl.s == 0.0 <==> c.r == c.g == c.b
  {
    Hsl(HueOf(c), SaturationOf(c), LightnessOf(c))
  }

  /** Scaling numerator and denominator alike leaves a quotient unchanged. */
  lemma RatioScale(x: real, d: real, k: real)
    requires d != 0.0 && k > 0.0
    ensures (x / k) / (d / k) == x / d
  {
    var q := x / d;
    assert x == q * d;
    assert x / k == q * (d / k);
  }

  /** Scaling every channel by 1/255 scales the extremes alike. */
  lemma ScaledExtremes(c: Rgb)
    ensures Max(Max(c.r as real / 255.0, c.g as real / 255.0), c.b as real / 255.0) == MaxChannel(c) as real / 255.0
    ensures Min(Min(c.r as real / 255.0, c.g as real / 255.0), c.b as real / 255.0) == MinChannel(c) as real / 255.0
  {
  }

  /** The denominator `1 - |2l - 1|` of the saturation, on the integer channels. */
  lemma SaturationDenominator(c: Rgb)
    ensures 1.0 - Abs(2.0 * LightnessOf(c) - 1.0) == SaturationRange(c) as real / 255.0
    ensures MaxChannel(c) != MinChannel(c) ==> SaturationRange(c) > 0
  {
  }

  /**
   * `rgbToHsl` (app.js:87-117), step by step: channels scaled to [0, 1], the
   * hue from the channel that is maximal (red first, then green), JavaScript's
   * `% 6` on the red sector, times 60, and `+ 360` once if negative.
   */
  method RgbToHsl(c: Rgb) returns (hsl: Hsl)
    ensures hsl == HslOf(c)
  {
    var nr, ng, nb := c.r as real / 255.0, c.g as real / 255.0, c.b as real / 255.0;
    var max := Max(Max(nr, ng), nb);
    var min := Min(Min(nr, ng), nb);
    var delta := max - min;
    assert max == MaxChannel(c) as real / 255.0 && min == MinChannel(c) as real / 255.0 by {
      ScaledExtremes(c);
    }
    ghost var d := (MaxChannel(c) - MinChannel(c)) as real;

    var h := 0.0;
    if delta != 0.0 {
      assert MaxChannel(c) != MinChannel(c);
      if max == nr {
        assert MaxChannel(c) == c.r;
        assert (ng - nb) / delta == HueRatio(c) by {
          RatioScale((c.g - c.b) as real, d, 255.0);
        }
        h := JsRem((ng - nb) / delta, 6.0);
        assert h == HueRatio(c);
      } else if max == ng {
        assert MaxChannel(c) != c.r && MaxChannel(c) == c.g;
        assert (nb - nr) / delta == HueRatio(c) by {
          RatioScale((c.b - c.r) as real, d, 255.0);
        }
        h := (nb - nr) / delta + 2.0;
      } else {
        assert MaxChannel(c) != c.r && MaxChannel(c) != c.g;
        assert (nr - ng) / delta == HueRatio(c) by {
          RatioScale((c.r - c.g) as real, d, 255.0);
        }
        h := (nr - ng) / delta + 4.0;
      }
      h := h * 60.0;
      if h < 0.0 {
        h := h + 360.0;
      }
    }
    assert h == HueOf(c);

    var l := (max + min) / 2.0;
    assert l == LightnessOf(c);
    var s := 0.0;
    if delta != 0.0 {
      ghost var range := SaturationRange(c) as real;
      assert 1.0 - Abs(2.0 * l - 1.0) == range / 255.0 && range > 0.0 by {
        SaturationDenominator(c);
      }
      s := delta / (1.0 - Abs(2.0 * l - 1.0));
      assert s == SaturationOf(c) by {
        RatioScale(d, range, 255.0);
      }
    }
    hsl := Hsl(h, s, l);
  }

  // HSL -> RGB -----------------------------------------------------------------

  /** Chroma: the channel spread that the saturation allows at this lightness. */
  function Chroma(hsl: Hsl): (c: real) {
    (1.0 - Abs(2.0 * hsl.l - 1.0)) * hsl.s
  }

  /**
   * The middle channel's share of the chroma: one at the hues of the primaries
   * and secondaries' edges, falling linearly to zero at their centres; the
   * remainder is JavaScript's, so a negative hue gives a negative remainder.
   */
  function MidShare(hsl: Hsl): (share: real) {
    1.0 - Abs(JsRem(hsl.h / 60.0, 2.0) - 1.0)
  }

  /**
   * The 60-degree sector a hue falls in. Every hue outside `[0, 360)` lands in
   * the last sector, as the final `else` of app.js:143-146 does.
   */
  function Sector(h: real): (k: int)
    ensures 0 <= k < 6
  {
    if 0.0 <= h < 360.0 then (h / 60.0).Floor else 5
  }

  lemma SectorAt(h: real, k: int)
    requires 0 <= k < 6 && 60.0 * k as real <= h < 60.0 * (k + 1) as real
    ensures Sector(h) == k
  {
  }

  /**
   * Which channel receives the chroma, which the middle share and which
   * nothing, sector by sector: red-yellow, yellow-green, green-cyan,
   * cyan-blue, blue-magenta, magenta-red.
   */
  function SectorChannels(k: int, chroma: real, mid: real): (ch: Channels)
    requires 0 <= k < 6
  {
    if k == 0 then Channels(chroma, mid, 0.0)
    else if k == 1 then Channels(mid, chroma, 0.0)
    else if k == 2 then Channels(0.0, chroma, mid)
    else if k == 3 then Channels(0.0, mid, chroma)
    else if k == 4 then Channels(mid, 0.0, chroma)
    else Channels(chroma, 0.0, mid)
  }

  /**
   * `hslToRgb` (app.js:119-150): the chroma goes to the dominant channel of
   * the hue's sector, the middle share of it to the next, nothing to the
   * last; all three are raised by the lightness offset and scaled to bytes.
   */
  function RgbOfHsl(hsl: Hsl): (rgb: Rgb)
    ensures hsl.s == 0.0 ==> rgb.r == rgb.g == rgb.b
  {
    NoChromaUnsaturated(hsl);
    Lift(SectorChannels(Sector(hsl.h), Chroma(hsl), MidComponent(hsl)), hsl.l - Chroma(hsl) / 2.0)
  }

  /** Without saturation there is no chroma, and so no middle component either. */
  lemma NoChromaUnsaturated(hsl: Hsl)
    ensures hsl.s == 0.0 ==> Chroma(hsl) == 0.0 && MidComponent(hsl) == 0.0
  {
  }

  /** The middle channel's part before the offset: its share of the chroma. */
  function MidComponent(hsl: Hsl): (x: real) {
    Chroma(hsl) * MidShare(hsl)
  }

  /**
   * `hslToRgb` as the source writes it: chroma, middle component and offset
   * first, then the channels assigned sector by sector, then each channel
   * offset, scaled, rounded and clamped.
   */
  method HslToRgb(hsl: Hsl) returns (rgb: Rgb)
    ensures rgb == RgbOfHsl(hsl)
  {
    var c := Chroma(hsl);
    var x := MidComponent(hsl);
    var m := hsl.l - c / 2.0;

    var r, g, b := 0.0, 0.0, 0.0;
    ghost var k: int;
    if 0.0 <= hsl.h && hsl.h < 60.0 {
      r, g := c, x;
      k := 0;
    } else if 60.0 <= hsl.h && hsl.h < 120.0 {
      r, g := x, c;
      k := 1;
    } else if 120.0 <= hsl.h && hsl.h < 180.0 {
      g, b := c, x;
      k := 2;
    } else if 180.0 <= hsl.h && hsl.h < 240.0 {
      g, b := x, c;
      k := 3;
    } else if 240.0 <= hsl.h && hsl.h < 300.0 {
      r, b := x, c;
      k := 4;
    } else {
      r, b := c, x;
      k := 5;
    }
    assert Sector(hsl.h) == k by {
      if 0.0 <= hsl.h < 360.0 {
        SectorAt(hsl.h, k);
      }
    }
    assert Channels(r, g, b) == SectorChannels(k, c, x);

    rgb := Rgb(To255(r, m), To255(g, m), To255(b, m));
    LiftSector(hsl, k, r, g, b, m, rgb);
  }

  /** Channels laid out for the hue's own sector, lifted by the offset, give `RgbOfHsl`. */
  lemma LiftSector(hsl: Hsl, k: int, r: real, g: real, b: real, m: real, rgb: Rgb)
    requires 0 <= k < 6 && Sector(hsl.h) == k
    requires Channels(r, g, b) == SectorChannels(k, Chroma(hsl), MidComponent(hsl))
    requires m == hsl.l - Chroma(hsl) / 2.0
    requires rgb == Rgb(To255(r, m), To255(g, m), To255(b, m))
    ensures rgb == RgbOfHsl(hsl)
  {
    assert rgb == Lift(Channels(r, g, b), m);
  }

  /** Fractional channels raised by `offset`, scaled to 255, rounded and clamped to bytes. */
  function Lift(base: Channels, offset: real): (rgb: Rgb) {
    Rgb(To255(base.r, offset), To255(base.g, offset), To255(base.b, offset))
  }

  /** One fractional channel raised by the offset `m`, scaled to 255, rounded and clamped (app.js:148). */
  function To255(n: real, m: real): (b: Byte) {
    ChannelByte((n + m) * 255.0)
  }

  // The round trip RGB -> HSL -> RGB ------------------------------------------
  // The facts that `HslOf` establishes are gathered in the predicate
  // `HslMatches`, stated without division, and the inverse direction is
  // proved from that predicate alone.

  /** `x * k == y`, kept behind a name so that the product is matched as a whole. */
  predicate Scaled(x: real, k: real, y: real) {
    x * k == y
  }

  /** The lightness of `c` times 510 is the sum of its largest and smallest channel. */
  predicate LightnessMatches(l: real, c: Rgb) {
    l * 510.0 == (MaxChannel(c) + MinChannel(c)) as real
  }

  /** The saturation of `c` times its saturation range is its channel spread. */
  predicate SaturationMatches(s: real, c: Rgb) {
    && 0.0 <= s <= 1.0
    && (MaxChannel(c) == MinChannel(c) ==> s == 0.0)
    && Scaled(s, SaturationRange(c) as real, (MaxChannel(c) - MinChannel(c)) as real)
  }

  /** The hue ratio of `c` times its channel spread is its hue numerator. */
  predicate RatioMatches(q: real, c: Rgb) {
    var mx, mn, n := MaxChannel(c), MinChannel(c), HueNumerator(c);
    && -1.0 <= q <= 1.0
    && (mx == mn ==> q == 0.0)
    && (q < 0.0 <==> n < 0)
    && (mx != mn ==> (q == 1.0 <==> n == mx - mn))
    && Scaled(q, (mx - mn) as real, n as real)
  }

  /** The hue of `c` in degrees, from its hue ratio and which channel is largest. */
  predicate HueMatches(h: real, c: Rgb, q: real) {
    var mx := MaxChannel(c);
    h == (if mx == c.r then (if q < 0.0 then 60.0 * q + 360.0 else 60.0 * q)
          else if mx == c.g then 60.0 * q + 120.0
          else 60.0 * q + 240.0)
  }

  /**
   * What `HslOf` computes, as division-free relations between the HSL fields,
   * the hue ratio `q` and the integer channels.
   */
  predicate HslMatches(hsl: Hsl, c: Rgb, q: real) {
    LightnessMatches(hsl.l, c) && SaturationMatches(hsl.s, c) && RatioMatches(q, c) && HueMatches(hsl.h, c, q)
  }

  lemma LightnessOfMatches(c: Rgb)
    ensures LightnessMatches(LightnessOf(c), c)
  {
    DivMul((MaxChannel(c) + MinChannel(c)) as real, 510.0);
  }

  lemma SaturationOfMatches(c: Rgb)
    ensures SaturationMatches(SaturationOf(c), c)
  {
    if MaxChannel(c) != MinChannel(c) {
      DivMul((MaxChannel(c) - MinChannel(c)) as real, SaturationRange(c) as real);
    }
  }

  lemma HueRatioMatches(c: Rgb)
    ensures RatioMatches(HueRatio(c), c)
  {
    HueRatioSpread(c);
  }

  lemma HueOfMatches(c: Rgb)
    ensures HueMatches(HueOf(c), c, HueRatio(c))
  {
  }

  lemma HslOfMatches(c: Rgb)
    ensures HslMatches(HslOf(c), c, HueRatio(c))
  {
    LightnessOfMatches(c);
    SaturationOfMatches(c);
    HueRatioMatches(c);
    HueOfMatches(c);
  }

  /** The sector a matching hue lands in, read off the channel order alone. */
  function SectorByOrder(c: Rgb): (k: int) {
    var n, d := HueNumerator(c), MaxChannel(c) - MinChannel(c);
    if MaxChannel(c) == c.r then (if n < 0 then 5 else if n == d && d != 0 then 1 else 0)
    else if MaxChannel(c) == c.g then (if n < 0 then 1 else if n == d then 3 else 2)
    else (if n < 0 then 3 else 4)
  }

  lemma SectorMatches(hsl: Hsl, c: Rgb, q: real)
    requires HslMatches(hsl, c, q)
    ensures Sector(hsl.h) == SectorByOrder(c)
  {
    var n, d := HueNumerator(c), MaxChannel(c) - MinChannel(c);
    var h := hsl.h;
    if MaxChannel(c) == c.r {
      if n < 0 {
        SectorAt(h, 5);
      } else if n == d && d != 0 {
        SectorAt(h, 1);
      } else {
        SectorAt(h, 0);
      }
    } else if MaxChannel(c) == c.g {
      if n < 0 {
        SectorAt(h, 1);
      } else if n == d {
        SectorAt(h, 3);
      } else {
        SectorAt(h, 2);
      }
    } else {
      if n < 0 {
        SectorAt(h, 3);
      } else {
        SectorAt(h, 4);
      }
    }
  }

  /** JavaScript's `y % 2` for a non-negative `y` within `[2k, 2k + 2)`. */
  lemma JsRemTwoAt(y: real, k: int)
    requires 0 <= k && 2.0 * k as real <= y < 2.0 * k as real + 2.0
    ensures JsRem(y, 2.0) == y - 2.0 * k as real
  {
    var q := y / 2.0;
    assert k as real <= q < k as real + 1.0;
    assert Trunc(q) == k;
  }

  /** At a matching hue, the middle share is the size of the hue ratio. */
  lemma MidShareMatches(hsl: Hsl, c: Rgb, q: real)
    requires HslMatches(hsl, c, q)
    ensures MidShare(hsl) == Abs(q)
  {
    var h := hsl.h;
    if MaxChannel(c) == c.r {
      if q < 0.0 {
        JsRemTwoAt(h / 60.0, 2);
      } else {
        JsRemTwoAt(h / 60.0, 0);
      }
    } else if MaxChannel(c) == c.g {
      if q < 0.0 {
        JsRemTwoAt(h / 60.0, 0);
      } else {
        JsRemTwoAt(h / 60.0, 1);
      }
    } else {
      if q < 0.0 {
        JsRemTwoAt(h / 60.0, 1);
      } else {
        JsRemTwoAt(h / 60.0, 2);
      }
    }
  }

  /** At a matching lightness, the chroma's first factor is the saturation range over 255. */
  lemma ChromaFactorMatches(l: real, c: Rgb)
    requires LightnessMatches(l, c)
    ensures (1.0 - Abs(2.0 * l - 1.0)) * 255.0 == SaturationRange(c) as real
  {
  }

  /** A chroma whose first factor and saturation scale to `den` and `d` is `d / 255`. */
  lemma ChromaScaled(hsl: Hsl, den: real, d: real)
    requires (1.0 - Abs(2.0 * hsl.l - 1.0)) * 255.0 == den
    requires Scaled(hsl.s, den, d)
    ensures Chroma(hsl) * 255.0 == d
  {
    assert Chroma(hsl) * 255.0 == hsl.s * ((1.0 - Abs(2.0 * hsl.l - 1.0)) * 255.0);
  }

  /** The chroma recovered from matching fields is the channel spread over 255. */
  lemma ChromaMatches(hsl: Hsl, c: Rgb, q: real)
    requires HslMatches(hsl, c, q)
    ensures Chroma(hsl) * 255.0 == (MaxChannel(c) - MinChannel(c)) as real
  {
    ChromaFactorMatches(hsl.l, c);
    ChromaScaled(hsl, SaturationRange(c) as real, (MaxChannel(c) - MinChannel(c)) as real);
  }

  /** A middle component whose share is `|q|` scales to `|n|` when `q` scales the chroma's `d` to `n`. */
  lemma MidScaled(hsl: Hsl, q: real, d: real, n: real)
    requires Chroma(hsl) * 255.0 == d && 0.0 <= d
    requires MidShare(hsl) == Abs(q)
    requires Scaled(q, d, n)
    ensures MidComponent(hsl) * 255.0 == Abs(n)
  {
    var ch := Chroma(hsl);
    assert MidComponent(hsl) * 255.0 == Abs(q) * (ch * 255.0);
    if q < 0.0 {
      assert Abs(q) * d == -n;
    }
  }

  /** The middle component recovered from matching fields is the middle channel's distance from the minimum. */
  lemma MidMatches(hsl: Hsl, c: Rgb, q: real)
    requires HslMatches(hsl, c, q)
    ensures MidComponent(hsl) * 255.0 == (MidChannel(c) - MinChannel(c)) as real
  {
    ChromaMatches(hsl, c, q);
    MidShareMatches(hsl, c, q);
    MidScaled(hsl, q, (MaxChannel(c) - MinChannel(c)) as real, HueNumerator(c) as real);
  }

  /** Fractional channels whose scaled values are whole bytes lift to exactly those bytes. */
  lemma LiftExact(base: Channels, offset: real, c: Rgb, low: int)
    requires offset * 255.0 == low as real
    requires base.r * 255.0 == (c.r - low) as real
    requires base.g * 255.0 == (c.g - low) as real
    requires base.b * 255.0 == (c.b - low) as real
    ensures Lift(base, offset) == c
  {
    assert (base.r + offset) * 255.0 == c.r as real;
    assert (base.g + offset) * 255.0 == c.g as real;
    assert (base.b + offset) * 255.0 == c.b as real;
    ChannelByteOfByte(c.r);
    ChannelByteOfByte(c.g);
    ChannelByteOfByte(c.b);
  }

  /** The lightness offset `l - C/2` scales to the smallest channel. */
  lemma OffsetMatches(l: real, chroma: real, c: Rgb)
    requires LightnessMatches(l, c)
    requires chroma * 255.0 == (MaxChannel(c) - MinChannel(c)) as real
    ensures (l - chroma / 2.0) * 255.0 == MinChannel(c) as real
  {
    assert (l - chroma / 2.0) * 510.0 == l * 510.0 - chroma * 255.0;
  }

  /** In the sector of the channel order, each channel's share is its distance from the minimum. */
  lemma SectorChannelsByOrder(c: Rgb, chroma: real, mid: real)
    requires chroma * 255.0 == (MaxChannel(c) - MinChannel(c)) as real
    requires mid * 255.0 == (MidChannel(c) - MinChannel(c)) as real
    ensures var base := SectorChannels(SectorByOrder(c), chroma, mid);
      && base.r * 255.0 == (c.r - MinChannel(c)) as real
      && base.g * 255.0 == (c.g - MinChannel(c)) as real
      && base.b * 255.0 == (c.b - MinChannel(c)) as real
  {
  }

  /** Fields that match integer channels convert back to exactly those channels. */
  lemma RgbOfMatchingHsl(hsl: Hsl, c: Rgb, q: real)
    requires HslMatches(hsl, c, q)
    ensures RgbOfHsl(hsl) == c
  {
    MatchingBase(hsl, c, q);
    LiftExact(SectorChannels(Sector(hsl.h), Chroma(hsl), MidComponent(hsl)), hsl.l - Chroma(hsl) / 2.0, c, MinChannel(c));
  }

  /** Matching fields put each channel's distance from the minimum in the sector's base, and the minimum in the offset. */
  lemma MatchingBase(hsl: Hsl, c: Rgb, q: real)
    requires HslMatches(hsl, c, q)
    ensures var base := SectorChannels(Sector(hsl.h), Chroma(hsl), MidComponent(hsl));
      && base.r * 255.0 == (c.r - MinChannel(c)) as real
      && base.g * 255.0 == (c.g - MinChannel(c)) as real
      && base.b * 255.0 == (c.b - MinChannel(c)) as real
      && (hsl.l - Chroma(hsl) / 2.0) * 255.0 == MinChannel(c) as real
  {
    var chroma, mid := Chroma(hsl), MidComponent(hsl);
    ChromaMatches(hsl, c, q);
    MidMatches(hsl, c, q);
    SectorMatches(hsl, c, q);
    SectorChannelsByOrder(c, chroma, mid);
    OffsetMatches(hsl.l, chroma, c);
  }

  /**
   * `hslToRgb` undoes `rgbToHsl` exactly: every byte triple survives the
   * trip through hue, saturation and lightness.
   */
  lemma HslRoundTrip(c: Rgb)
    ensures RgbOfHsl(HslOf(c)) == c
  {
    HslOfMatches(c);
    RgbOfMatchingHsl(HslOf(c), c, HueRatio(c));
  }
}
