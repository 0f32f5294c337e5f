/**
 * The hex/RGB codec of the colour engine (app.js:70-85, 182-190, 619-621):
 * validating, decoding and encoding `#rrggbb` strings and formatting
 * `rgba(...)` strings.
 */
module HexCodec {

  /** A colour channel as the decoder produces it. */
  type Byte = n: int | 0 <= n < 256

  /** An RGB triple with byte channels (what `hexToRgb` returns). */
  datatype Rgb = Rgb(r: Byte, g: Byte, b: Byte)

  /** Unrounded channels, as produced by interpolation before `rgbToHex` rounds them. */
  datatype Channels = Channels(r: real, g: real, b: real)

  /** The integer channels of `c`, read as reals. */
  function ToChannels(c: Rgb): (ch: Channels) {
    Channels(c.r as real, c.g as real, c.b as real)
  }

  // Clamping -------------------------------------------------------------------

  /** `clamp(value, min, max)`: `Math.min(Math.max(value, min), max)` (app.js:70). */
  function Clamp(v: real, lo: real, hi: real): (r: real)
    ensures r <= hi
    ensures lo <= hi ==> lo <= r
    ensures lo <= v <= hi ==> r == v
    ensures v <= lo <= hi ==> r == lo
    ensures lo <= hi <= v ==> r == hi
  {
    var atLeast := if v < lo then lo else v;
    if atLeast < hi then atLeast else hi
  }

  /**
   * `clamp` applied to an integer, as `rgbToHex` does after rounding
   * (app.js:83): on integers it is the same clamp, and its result an integer.
   */
  function ClampInt(v: int, lo: int, hi: int): (r: int)
    ensures r as real == Clamp(v as real, lo as real, hi as real)
  {
    var atLeast := if v < lo then lo else v;
    if atLeast < hi then atLeast else hi
  }

  /** `Math.round`: the nearest integer, halves rounded up. */
  function Round(x: real): (n: int)
    ensures x - 0.5 < n as real <= x + 0.5
  {
    (x + 0.5).Floor
  }

  /** One channel of `rgbToHex`: rounded, then clamped to 0..255 (app.js:83). */
  function ChannelByte(x: real): (n: Byte) {
    ClampInt(Round(x), 0, 255)
  }

  /** A channel in range rounds to its nearest byte; one beyond either end clamps to that end. */
  lemma ChannelByteBounds(x: real)
    ensures 0.0 <= x <= 255.0 ==> x - 0.5 < ChannelByte(x) as real <= x + 0.5
    ensures x < -0.5 ==> ChannelByte(x) == 0
    ensures x >= 254.5 ==> ChannelByte(x) == 255
  {
  }

  /** A whole byte is its own channel value. */
  lemma ChannelByteOfByte(n: Byte)
    ensures ChannelByte(n as real) == n
  {
  }

  // Hex digits -----------------------------------------------------------------

  predicate IsHexDigit(c: char) {
    '0' <= c <= '9' || 'a' <= c <= 'f' || 'A' <= c <= 'F'
  }

  predicate IsLowerHexDigit(c: char) {
    '0' <= c <= '9' || 'a' <= c <= 'f'
  }

  predicate AllHexDigits(s: string) {
    forall i :: 0 <= i < |s| ==> IsHexDigit(s[i])
  }

  /** The value of one hex digit, either case. */
  function DigitValue(c: char): (v: nat)
    requires IsHexDigit(c)
    ensures v < 16
  {
    if '0' <= c <= '9' then c as int - '0' as int
    else if 'a' <= c <= 'f' then c as int - 'a' as int + 10
    else c as int - 'A' as int + 10
  }

  /** The lower-case hex digit of `k`, as `Number.prototype.toString(16)` writes it. */
  function Digit(k: nat): (c: char)
    requires k < 16
    ensures IsLowerHexDigit(c) && DigitValue(c) == k
  {
    if k < 10 then ('0' as int + k) as char else ('a' as int + k - 10) as char
  }

  function Pow16(n: nat): (p: nat)
    ensures p >= 1
  {
    if n == 0 then 1 else 16 * Pow16(n - 1)
  }

  /** `parseInt(digits, 16)` for a run of hex digits, read from left to right. */
  function HexValue(digits: string): (v: nat)
    requires AllHexDigits(digits)
    ensures v < Pow16(|digits|)
  {
    if digits == [] then 0
    else HexValue(digits[..|digits| - 1]) * 16 + DigitValue(digits[|digits| - 1])
  }

  // Validation -----------------------------------------------------------------

  /**
   * `isValidHexColor` (app.js:619-621): `#` followed by exactly six or exactly
   * three hex digits of either case. Every string `rgbToHex` writes passes it.
   */
  predicate IsValidHexColor(s: string): (valid: bool)
    ensures IsCanonicalHex(s) ==> valid
  {
    |s| > 0 && s[0] == '#' && AllHexDigits(s[1..]) && (|s| - 1 == 6 || |s| - 1 == 3)
  }

  /**
   * The strings the engine is given: every colour that reaches it has passed
   * `isValidHexColor` (app.js:561) or comes from a colour picker or a constant
   * in `#rrggbb` form.
   */
  type HexColor = s: string | IsValidHexColor(s) witness "#000000"

  /** The form `rgbToHex` writes: `#` and six lower-case hex digits. */
  predicate IsCanonicalHex(s: string) {
    |s| == 7 && s[0] == '#' && forall i :: 1 <= i < 7 ==> IsLowerHexDigit(s[i])
  }

  // Decoding -------------------------------------------------------------------

  /**
   * `hexToRgb` (app.js:72-80): drop the `#`, parse the digits as one base-16
   * integer and take bits 16-23, 8-15 and 0-7 (`>> 16 & 255`, `>> 8 & 255`,
   * `& 255`). The three-digit form is not expanded: `#abc` is 0x000abc.
   */
  function HexToRgb(hex: HexColor): (c: Rgb)
    ensures |hex| == 7 ==> c.r * 0x1_0000 + c.g * 0x100 + c.b == HexValue(hex[1..])
    ensures |hex| == 4 ==> c.r == 0 && c.g * 0x100 + c.b == HexValue(hex[1..])
  {
    var v := HexValue(hex[1..]);
    ByteSplit(v, |hex| == 4);
    Rgb((v / 0x1_0000) % 0x100, (v / 0x100) % 0x100, v % 0x100)
  }

  /** The bytes of a 24-bit value put back together give the value; below 0x1000 the top byte is zero. */
  lemma ByteSplit(v: nat, short: bool)
    requires v < Pow16(if short then 3 else 6)
    ensures (v / 0x1_0000) % 0x100 * 0x1_0000 + (v / 0x100) % 0x100 * 0x100 + v % 0x100 == v
    ensures short ==> (v / 0x1_0000) % 0x100 == 0
  {
    assert Pow16(3) == 0x1000;
    assert Pow16(6) == 0x100_0000;
    var q, r := v / 0x100, v % 0x100;
    assert v == q * 0x100 + r;
    var hi, mid := q / 0x100, q % 0x100;
    assert q == hi * 0x100 + mid;
    assert v == hi * 0x1_0000 + (mid * 0x100 + r);
    assert 0 <= mid * 0x100 + r < 0x1_0000;
    assert v / 0x1_0000 == hi;
    assert hi < 0x100;
  }

  // Encoding -------------------------------------------------------------------

  /** `n.toString(16)` for a non-negative integer: no leading zeros. */
  function Base16(n: nat): (s: string)
    ensures |s| >= 1 && (n < 16 <==> |s| == 1)
    ensures forall i :: 0 <= i < |s| ==> IsLowerHexDigit(s[i])
  {
    if n < 16 then [Digit(n)] else Base16(n / 16) + [Digit(n % 16)]
  }

  /** `s.padStart(2, '0')`. */
  function PadStart2(s: string): (t: string)
    ensures |s| >= 2 ==> t == s
    ensures |s| < 2 ==> |t| == 2 && t[2 - |s|..] == s
  {
    if |s| >= 2 then s else seq(2 - |s|, _ => '0') + s
  }

  /** The two digits `toHex` writes for one rounded, clamped channel (app.js:83). */
  function Hex2(n: Byte): (s: string)
    ensures s == [Digit(n / 16), Digit(n % 16)]
  {
    Base16Padded(n);
    PadStart2(Base16(n))
  }

  lemma Base16Padded(n: Byte)
    ensures PadStart2(Base16(n)) == [Digit(n / 16), Digit(n % 16)]
  {
    if n < 16 {
      assert Base16(n) == [Digit(n)];
      assert Digit(0) == '0';
    } else {
      assert n / 16 < 16;
      assert Base16(n / 16) == [Digit(n / 16)];
    }
  }

  /**
   * `rgbToHex` (app.js:82-85): each channel rounded, clamped to 0..255 and
   * written as two lower-case hex digits. Decoding the result gives back
   * exactly the rounded, clamped channels.
   */
  function RgbToHex(c: Channels): (hex: HexColor)
    ensures IsCanonicalHex(hex)
    ensures HexToRgb(hex) == Rgb(ChannelByte(c.r), ChannelByte(c.g), ChannelByte(c.b))
  {
    var r, g, b := ChannelByte(c.r), ChannelByte(c.g), ChannelByte(c.b);
    SpelledCanonical(r, g, b);
    DecodeBytes(r, g, b);
    "#" + Hex2(r) + Hex2(g) + Hex2(b)
  }

  /** Three bytes spelled two digits each form a canonical `#rrggbb` string. */
  lemma SpelledCanonical(r: Byte, g: Byte, b: Byte)
    ensures IsCanonicalHex("#" + Hex2(r) + Hex2(g) + Hex2(b))
  {
  }

  lemma HexValueSnoc(s: string, c: char)
    requires AllHexDigits(s) && IsHexDigit(c)
    ensures AllHexDigits(s + [c])
    ensures HexValue(s + [c]) == HexValue(s) * 16 + DigitValue(c)
  {
    assert (s + [c])[..|s|] == s;
  }

  /** Appending the two digits of a byte shifts the parsed value by one byte. */
  lemma HexValueAppendByte(s: string, n: Byte)
    requires AllHexDigits(s)
    ensures AllHexDigits(s + Hex2(n))
    ensures HexValue(s + Hex2(n)) == HexValue(s) * 256 + n
  {
    var x, y := Digit(n / 16), Digit(n % 16);
    var a := HexValue(s);
    HexValueSnoc(s, x);
    HexValueSnoc(s + [x], y);
    assert s + [x] + [y] == s + Hex2(n);
    var hi, lo := n / 16, n % 16;
    assert n == hi * 16 + lo;
    assert (a * 16 + hi) * 16 + lo == a * 256 + n;
  }

  /** Division by 0x100 and 0x1_0000 takes a big-endian byte triple apart. */
  lemma SplitBytes(r: Byte, g: Byte, b: Byte)
    ensures var v := r * 0x1_0000 + g * 0x100 + b;
      (v / 0x1_0000) % 0x100 == r && (v / 0x100) % 0x100 == g && v % 0x100 == b
  {
    var v := r * 0x1_0000 + g * 0x100 + b;
    assert v / 0x1_0000 == r by {
      assert v == r * 0x1_0000 + (g * 0x100 + b) && 0 <= g * 0x100 + b < 0x1_0000;
    }
    assert v / 0x100 == r * 0x100 + g by {
      assert v == (r * 0x100 + g) * 0x100 + b;
    }
    assert (r * 0x100 + g) % 0x100 == g;
    assert v % 0x100 == b by {
      assert v == (r * 0x100 + g) * 0x100 + b;
    }
  }

  lemma {:induction false} DecodeBytes(r: Byte, g: Byte, b: Byte)
    ensures IsValidHexColor("#" + Hex2(r) + Hex2(g) + Hex2(b))
    ensures HexToRgb("#" + Hex2(r) + Hex2(g) + Hex2(b)) == Rgb(r, g, b)
  {
    var digits := Hex2(r) + Hex2(g) + Hex2(b);
    assert AllHexDigits(digits) && HexValue(digits) == r * 0x1_0000 + g * 0x100 + b by {
      HexValueAppendByte([], r);
      assert [] + Hex2(r) == Hex2(r);
      HexValueAppendByte(Hex2(r), g);
      HexValueAppendByte(Hex2(r) + Hex2(g), b);
    }
    var hex := "#" + digits;
    assert hex == "#" + Hex2(r) + Hex2(g) + Hex2(b);
    assert hex[1..] == digits;
    SplitBytes(r, g, b);
  }

  /** Hex digits of either case are read back as the lower-case digit they stand for. */
  lemma DigitOfValue(c: char)
    requires IsHexDigit(c)
    ensures Digit(DigitValue(c)) == if 'A' <= c <= 'F' then (c as int - 'A' as int + 'a' as int) as char else c
  {
  }

  // Round trips --------------------------------------------------------------

  /** For byte channels, encoding then decoding is the identity (app.js:72-85). */
  lemma RgbRoundTrip(c: Rgb)
    ensures HexToRgb(RgbToHex(ToChannels(c))) == c
  {
    ChannelByteOfByte(c.r);
    ChannelByteOfByte(c.g);
    ChannelByteOfByte(c.b);
  }

  /**
   * The spelling `rgbToHex` gives the colour `hex` decodes to. Mixing with
   * weight 0 or 1 returns this rather than the input string.
   */
  function Normalized(hex: HexColor): (n: HexColor)
    ensures IsCanonicalHex(n)
    ensures HexToRgb(n) == HexToRgb(hex)
  {
    RgbRoundTrip(HexToRgb(hex));
    RgbToHex(ToChannels(HexToRgb(hex)))
  }

  /** The two digits that spell a byte are read back as that byte's digits. */
  lemma Hex2OfDigits(x: char, y: char)
    requires IsLowerHexDigit(x) && IsLowerHexDigit(y)
    ensures DigitValue(x) * 16 + DigitValue(y) < 256
    ensures Hex2(DigitValue(x) * 16 + DigitValue(y)) == [x, y]
  {
    var n := DigitValue(x) * 16 + DigitValue(y);
    assert n / 16 == DigitValue(x) && n % 16 == DigitValue(y);
    DigitOfValue(x);
    DigitOfValue(y);
  }

  /** Encoding byte channels writes each byte's two digits. */
  lemma RgbToHexOfBytes(c: Rgb)
    ensures RgbToHex(ToChannels(c)) == "#" + Hex2(c.r) + Hex2(c.g) + Hex2(c.b)
  {
    ChannelByteOfByte(c.r);
    ChannelByteOfByte(c.g);
    ChannelByteOfByte(c.b);
  }

  /** A canonical string spells three bytes, two digits each. */
  lemma CanonicalSpelling(hex: string)
    requires IsCanonicalHex(hex)
    ensures forall i :: 1 <= i < 7 ==> IsHexDigit(hex[i])
    ensures hex == "#" + Hex2(DigitValue(hex[1]) * 16 + DigitValue(hex[2]))
                      + Hex2(DigitValue(hex[3]) * 16 + DigitValue(hex[4]))
                      + Hex2(DigitValue(hex[5]) * 16 + DigitValue(hex[6]))
  {
    assert IsLowerHexDigit(hex[1]) && IsLowerHexDigit(hex[2]) && IsLowerHexDigit(hex[3]);
    assert IsLowerHexDigit(hex[4]) && IsLowerHexDigit(hex[5]) && IsLowerHexDigit(hex[6]);
    Hex2OfDigits(hex[1], hex[2]);
    Hex2OfDigits(hex[3], hex[4]);
    Hex2OfDigits(hex[5], hex[6]);
    assert hex[1..3] == [hex[1], hex[2]];
    assert hex[3..5] == [hex[3], hex[4]];
    assert hex[5..7] == [hex[5], hex[6]];
    assert hex == [hex[0]] + hex[1..3] + hex[3..5] + hex[5..7];
  }

  /** A string already in `#rrggbb` lower-case form is its own normal form. */
  lemma {:induction false} CanonicalIsNormal(hex: HexColor)
    requires IsCanonicalHex(hex)
    ensures Normalized(hex) == hex
  {
    CanonicalSpelling(hex);
    var r := DigitValue(hex[1]) * 16 + DigitValue(hex[2]);
    var g := DigitValue(hex[3]) * 16 + DigitValue(hex[4]);
    var b := DigitValue(hex[5]) * 16 + DigitValue(hex[6]);
    var spelled := "#" + Hex2(r) + Hex2(g) + Hex2(b);
    calc {
      Normalized(hex);
      RgbToHex(ToChannels(HexToRgb(hex)));
      { DecodeBytes(r, g, b); assert hex == spelled; }
      RgbToHex(ToChannels(Rgb(r, g, b)));
      { RgbToHexOfBytes(Rgb(r, g, b)); }
      spelled;
    }
  }

  /**
   * The three-digit form that `isValidHexColor` accepts (app.js:620) is not
   * expanded by `hexToRgb` (app.js:72-79): `#xyz` decodes to red 0, green x
   * and blue yz, not to `#xxyyzz`.
   */
  lemma {:induction false} ShortFormNotExpanded(hex: HexColor)
    requires |hex| == 4
    ensures HexToRgb(hex) == Rgb(0, DigitValue(hex[1]), DigitValue(hex[2]) * 16 + DigitValue(hex[3]))
  {
    var x, y, z := hex[1], hex[2], hex[3];
    assert hex[1..] == [] + [x] + [y] + [z];
    HexValueSnoc([], x);
    HexValueSnoc([x], y);
    assert [] + [x] == [x] && [x] + [y] == [x, y];
    HexValueSnoc([x, y], z);
    assert [x, y] + [z] == hex[1..];
    var v := DigitValue(x) * 256 + DigitValue(y) * 16 + DigitValue(z);
    assert HexValue(hex[1..]) == v;
    SplitBytes(0, DigitValue(x), DigitValue(y) * 16 + DigitValue(z));
  }

  // Decimal and rgba text -----------------------------------------------------

  predicate IsDecDigit(c: char) {
    '0' <= c <= '9'
  }

  predicate AllDecDigits(s: string) {
    forall i :: 0 <= i < |s| ==> IsDecDigit(s[i])
  }

  /** The decimal digit for `k`. */
  function DecDigit(k: nat): (c: char)
    requires k < 10
    ensures IsDecDigit(c) && c as int - '0' as int == k
  {
    ('0' as int + k) as char
  }

  function DecValue(c: char): (v: nat)
    requires IsDecDigit(c)
    ensures v < 10
  {
    c as int - '0' as int
  }

  /** The value of a run of decimal digits, read from left to right. */
  function DigitsValue(s: string): (v: nat)
    requires AllDecDigits(s)
  {
    if s == [] then 0 else DigitsValue(s[..|s| - 1]) * 10 + DecValue(s[|s| - 1])
  }

  /** `${n}` for a non-negative integer: its shortest decimal spelling. */
  function DecimalText(n: nat): (s: string)
    ensures |s| >= 1 && AllDecDigits(s)
    ensures s[0] == '0' ==> n == 0
  {
    if n < 10 then [DecDigit(n)] else DecimalText(n / 10) + [DecDigit(n % 10)]
  }

  /** Reading back the decimal text of `n` gives `n`. */
  lemma {:induction false} DecimalTextRoundTrip(n: nat)
    ensures DigitsValue(DecimalText(n)) == n
  {
    if n >= 10 {
      DecimalTextRoundTrip(n / 10);
      var s := DecimalText(n);
      assert s[..|s| - 1] == DecimalText(n / 10);
    }
  }

  /**
   * An opacity in hundredths: every alpha the engine writes (0.1 to 0.45)
   * has at most two decimals.
   */
  type Alpha = a: nat | a <= 100

  function Pow10(n: nat): (p: nat)
    ensures p >= 1
  {
    if n == 0 then 1 else 10 * Pow10(n - 1)
  }

  /** The value of the digits after a decimal point. */
  function FractionValue(frac: string): (v: real)
    requires forall i :: 0 <= i < |frac| ==> IsDecDigit(frac[i])
  {
    DigitsValue(frac) as real / Pow10(|frac|) as real
  }

  /**
   * How JavaScript prints the number `a / 100`: `0` and `1` bare, otherwise
   * `0.` and the shortest run of fraction digits that denotes it.
   */
  function AlphaText(a: Alpha): (s: string)
    ensures a == 0 ==> s == "0"
    ensures a == 100 ==> s == "1"
    ensures 0 < a < 100 ==>
      && 3 <= |s| <= 4 && s[..2] == "0."
      && (forall i :: 2 <= i < |s| ==> IsDecDigit(s[i]))
      && FractionValue(s[2..]) == a as real / 100.0
      && s[|s| - 1] != '0'
  {
    if a == 0 then "0"
    else if a == 100 then "1"
    else if a % 10 == 0 then
      var s := "0." + [DecDigit(a / 10)];
      assert DigitsValue(s[2..]) == a / 10 by {
        assert s[2..] == [DecDigit(a / 10)];
        assert s[2..][..0] == [];
      }
      s
    else
      var s := "0." + [DecDigit(a / 10), DecDigit(a % 10)];
      assert DigitsValue(s[2..]) == a by {
        assert s[2..][..1] == [DecDigit(a / 10)];
        assert s[2..][..1][..0] == [];
        assert DigitsValue(s[2..][..1]) == a / 10;
        assert a == (a / 10) * 10 + a % 10;
      }
      s
  }

  /** `hexToRgbString` (app.js:187-190): the decoded channels as `r, g, b`. */
  function HexToRgbString(hex: HexColor): (s: string) {
    var c := HexToRgb(hex);
    DecimalText(c.r) + ", " + DecimalText(c.g) + ", " + DecimalText(c.b)
  }

  /**
   * The text `hexToRgbString` writes reads back as the decoded channels: three
   * runs of decimal digits separated by `", "`, whose values are red, green
   * and blue.
   */
  lemma RgbStringReadsBack(hex: HexColor)
    ensures var c := HexToRgb(hex);
      FieldsRead(HexToRgbString(hex), |DecimalText(c.r)|, |DecimalText(c.g)|, c.r, c.g, c.b)
  {
    var c := HexToRgb(hex);
    DecimalTextRoundTrip(c.r);
    DecimalTextRoundTrip(c.g);
    DecimalTextRoundTrip(c.b);
    JoinedFieldsRead(DecimalText(c.r), DecimalText(c.g), DecimalText(c.b), c.r, c.g, c.b);
  }

  /**
   * `s` holds three runs of decimal digits separated by `", "`, the first
   * `m` and the second `n` characters long, whose values are `x`, `y`, `z`.
   */
  predicate FieldsRead(s: string, m: nat, n: nat, x: nat, y: nat, z: nat) {
    var i, j := m, m + 2 + n;
    && j + 2 < |s|
    && s[i..i + 2] == ", " && s[j..j + 2] == ", "
    && AllDecDigits(s[..i]) && AllDecDigits(s[i + 2..j]) && AllDecDigits(s[j + 2..])
    && DigitsValue(s[..i]) == x && DigitsValue(s[i + 2..j]) == y && DigitsValue(s[j + 2..]) == z
  }

  lemma JoinedFieldsRead(a: string, b: string, c: string, x: nat, y: nat, z: nat)
    requires AllDecDigits(a) && AllDecDigits(b) && AllDecDigits(c) && |c| >= 1
    requires DigitsValue(a) == x && DigitsValue(b) == y && DigitsValue(c) == z
    ensures FieldsRead(a + ", " + b + ", " + c, |a|, |b|, x, y, z)
  {
    ThreeFields(a, b, c);
  }

  /** Three fields joined by `", "` are found again at their offsets. */
  lemma ThreeFields(a: string, b: string, c: string)
    ensures var s := a + ", " + b + ", " + c;
      var i, j := |a|, |a| + 2 + |b|;
      && |s| == j + 2 + |c|
      && s[..i] == a && s[i..i + 2] == ", " && s[i + 2..j] == b
      && s[j..j + 2] == ", " && s[j + 2..] == c
  {
  }

  /**
   * The text `hexToRgba` writes reads back as the decoded channels and the
   * opacity: `rgba(`, the three channel fields, `", "`, the opacity as a
   * decimal number, and `)`.
   */
  lemma RgbaReadsBack(hex: HexColor, alpha: Alpha)
    ensures var s, c := HexToRgba(hex, alpha), HexToRgb(hex);
      var k := |HexToRgbString(hex)|;
      && |s| == k + 8 + |AlphaText(alpha)|
      && s[..5] == "rgba(" && s[|s| - 1] == ')' && s[5 + k..7 + k] == ", "
      && FieldsRead(s[5..5 + k], |DecimalText(c.r)|, |DecimalText(c.g)|, c.r, c.g, c.b)
      && AlphaReads(s[7 + k..|s| - 1], alpha)
  {
    RgbStringReadsBack(hex);
    Wrapped(HexToRgbString(hex), AlphaText(alpha));
  }

  /** `t` is a JavaScript number literal whose value is `a` hundredths. */
  predicate AlphaReads(t: string, a: Alpha) {
    || (t == "0" && a == 0)
    || (t == "1" && a == 100)
    || (|t| >= 3 && t[..2] == "0." && (forall i :: 2 <= i < |t| ==> IsDecDigit(t[i]))
        && FractionValue(t[2..]) == a as real / 100.0)
  }

  /** The two parts of `rgba(x, y)` are found again at their offsets. */
  lemma Wrapped(x: string, y: string)
    ensures var s := "rgba(" + x + ", " + y + ")";
      && |s| == |x| + 8 + |y|
      && s[..5] == "rgba(" && s[5..5 + |x|] == x && s[5 + |x|..7 + |x|] == ", "
      && s[7 + |x|..|s| - 1] == y && s[|s| - 1] == ')'
  {
  }

  /**
   * `hexToRgba` (app.js:182-185): `rgba(r, g, b, alpha)` with the decoded
   * channels; the alpha is written as given, not clamped.
   */
  function HexToRgba(hex: HexColor, alpha: Alpha): (s: string) {
    "rgba(" + HexToRgbString(hex) + ", " + AlphaText(alpha) + ")"
  }
}
