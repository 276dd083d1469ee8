/**
 * Colour helpers: `adjustColor`, which shifts each channel of a `#rrggbb` colour by
 * the same amount, and `getContrastTextColor`, which picks dark or light text for a
 * background by its YIQ brightness.
 */
module Color {
  import opened Wrappers
  import opened JsString
  import opened JsNumber

  /** `Math.min(255, Math.max(0, v))`. */
  function Clamp(v: int): (r: int)
    ensures 0 <= r <= 255
    ensures 0 <= v <= 255 ==> r == v
    ensures v < 0 ==> r == 0
    ensures v > 255 ==> r == 255
  {
    if v < 0 then 0 else if v > 255 then 255 else v
  }

  datatype Rgb = Rgb(r: int, g: int, b: int)

  predicate IsChannels(c: Rgb)
  {
    0 <= c.r <= 255 && 0 <= c.g <= 255 && 0 <= c.b <= 255
  }

  /**
   * The number the shift operators see: `parseInt(hex.replace("#", ""), 16)`, where
   * NaN becomes 0 and larger values wrap to 32 bits (ToInt32).
   */
  function ColorNumber(hex: string): (w: int)
    ensures -0x8000_0000 <= w < 0x8000_0000
  {
    match ParseInt(ReplaceFirstChar(hex, '#'), Hex16)
    case None => 0
    case Some(n) => ToInt32(n)
  }

  /**
   * The three channels `adjustColor` computes: `num >> 16`, `(num >> 8) & 0xff` and
   * `num & 0xff`, each plus `amount` and clamped. An arithmetic right shift is floor
   * division by a power of two and `& 0xff` of a two's complement value is the
   * non-negative remainder modulo 256.
   */
  function AdjustedChannels(hex: string, amount: int): (c: Rgb)
    ensures IsChannels(c)
  {
    var w := ColorNumber(hex);
    Rgb(Clamp(w / 65536 + amount), Clamp((w / 256) % 256 + amount), Clamp(w % 256 + amount))
  }

  /** A colour written as `#` and two lower-case hex digits per channel. */
  function Hex6(c: Rgb): (h: string)
    requires IsChannels(c)
    ensures |h| == 7 && h[0] == '#' && AllLowerHex(h[1..])
  {
    HexTriple(c);
    "#" + FixedHex(c.r, 2) + FixedHex(c.g, 2) + FixedHex(c.b, 2)
  }

  /**
   * `adjustColor(hex, amount)`: the channels packed with `(r << 16) | (g << 8) | b` (the
   * three bit ranges are disjoint, so `|` adds them), then `toString(16).padStart(6, "0")`.
   * The result is the `#rrggbb` form of the adjusted channels.
   */
  function AdjustColor(hex: string, amount: int): (r: string)
    ensures r == Hex6(AdjustedChannels(hex, amount))
  {
    var c := AdjustedChannels(hex, amount);
    var packed := c.r * 65536 + c.g * 256 + c.b;
    PackedHex(c);
    "#" + PadStart(ToHex(packed), 6, '0')
  }

  lemma {:induction false} HexTriple(c: Rgb)
    requires IsChannels(c)
    ensures var t := "#" + FixedHex(c.r, 2) + FixedHex(c.g, 2) + FixedHex(c.b, 2);
      |t| == 7 && t[0] == '#' && AllLowerHex(t[1..])
  {
    var x, y, z := FixedHex(c.r, 2), FixedHex(c.g, 2), FixedHex(c.b, 2);
    FixedHexLower(c.r, 2);
    FixedHexLower(c.g, 2);
    FixedHexLower(c.b, 2);
    var t := "#" + x + y + z;
    assert t[1..] == x + y + z;
    assert forall i :: 0 <= i < 6 ==> (x + y + z)[i] == if i < 2 then x[i] else if i < 4 then y[i - 2] else z[i - 4];
  }

  /** Six hex digits of a packed colour are the three channels' two-digit forms. */
  lemma {:induction false} PackedHex(c: Rgb)
    requires IsChannels(c)
    ensures var n := c.r * 65536 + c.g * 256 + c.b;
      "#" + PadStart(ToHex(n), 6, '0') == "#" + FixedHex(c.r, 2) + FixedHex(c.g, 2) + FixedHex(c.b, 2)
  {
    var n := c.r * 65536 + c.g * 256 + c.b;
    var x, y, z := FixedHex(c.r, 2), FixedHex(c.g, 2), FixedHex(c.b, 2);
    PackedDigits(c);
    assert PadStart(ToHex(n), 6, '0') == x + y + z;
    assert "#" + (x + y + z) == "#" + x + y + z;
  }

  lemma {:induction false} PackedDigits(c: Rgb)
    requires IsChannels(c)
    ensures var n := c.r * 65536 + c.g * 256 + c.b;
      PadStart(ToHex(n), 6, '0') == FixedHex(c.r, 2) + FixedHex(c.g, 2) + FixedHex(c.b, 2)
  {
    var n := c.r * 65536 + c.g * 256 + c.b;
    assert Pow16(6) == 16777216 by {
      PowTwo();
      assert Pow16(4) == 256 * Pow16(2);
    }
    PadHex(n, 6);
    PowTwo();
    FixedHexSplit2(n, 4);
    DivModUnique(n, 256, c.r * 256 + c.g, c.b);
    var m := n / 256;
    FixedHexSplit2(m, 2);
    DivModUnique(m, 256, c.r, c.g);
    FixedHexMod(n, 2);
    FixedHexMod(m, 2);
  }

  /** The hex digits after the `#`, and their value as one number. */
  lemma {:induction false} Hex6Digits(c: Rgb)
    requires IsChannels(c)
    ensures var x, y, z := FixedHex(c.r, 2), FixedHex(c.g, 2), FixedHex(c.b, 2);
      ReplaceFirstChar(Hex6(c), '#') == x + y + z
      && AllDigits(x + y + z, 16)
      && HexValue(x + y + z) == c.r * 65536 + c.g * 256 + c.b
  {
    var x, y, z := FixedHex(c.r, 2), FixedHex(c.g, 2), FixedHex(c.b, 2);
    StripHex6(c);
    FixedHexLower(c.r, 2);
    FixedHexLower(c.g, 2);
    FixedHexLower(c.b, 2);
    LowerTriple(x, y, z);
    Hex6Value(c);
  }

  lemma {:induction false} Hex6Value(c: Rgb)
    requires IsChannels(c)
    ensures HexValue(FixedHex(c.r, 2) + FixedHex(c.g, 2) + FixedHex(c.b, 2)) == c.r * 65536 + c.g * 256 + c.b
  {
    var x, y, z := FixedHex(c.r, 2), FixedHex(c.g, 2), FixedHex(c.b, 2);
    ChannelValues(c);
    ValueAppend2(x, y);
    ValueAppend2(x + y, z);
  }

  lemma {:induction false} StripHex6(c: Rgb)
    requires IsChannels(c)
    ensures ReplaceFirstChar(Hex6(c), '#') == FixedHex(c.r, 2) + FixedHex(c.g, 2) + FixedHex(c.b, 2)
  {
    var s := FixedHex(c.r, 2) + FixedHex(c.g, 2) + FixedHex(c.b, 2);
    assert Hex6(c) == "#" + s;
    assert ("#" + s)[1..] == s;
  }

  lemma {:induction false} LowerTriple(x: string, y: string, z: string)
    requires AllLowerHex(x) && AllLowerHex(y) && AllLowerHex(z)
    ensures AllLowerHex(x + y + z) && AllDigits(x + y + z, 16)
  {
    LowerHexConcat(x, y);
    LowerHexConcat(x + y, z);
    LowerHexDigits(x + y + z);
  }

  /** Each two-digit part reads back as its channel. */
  lemma {:induction false} ChannelValues(c: Rgb)
    requires IsChannels(c)
    ensures HexValue(FixedHex(c.r, 2)) == c.r && HexValue(FixedHex(c.g, 2)) == c.g
         && HexValue(FixedHex(c.b, 2)) == c.b
  {
    PowTwo();
    FixedHexSmall(c.r, 2);
    FixedHexSmall(c.g, 2);
    FixedHexSmall(c.b, 2);
  }

  /** `adjustColor` reads back the number a `#rrggbb` colour packs. */
  lemma {:induction false} ReadHex6(c: Rgb)
    requires IsChannels(c)
    ensures ColorNumber(Hex6(c)) == c.r * 65536 + c.g * 256 + c.b
  {
    Hex6Digits(c);
    var s := FixedHex(c.r, 2) + FixedHex(c.g, 2) + FixedHex(c.b, 2);
    ParseIntDigits(s, Hex16);
  }

  /** Shifting and masking a packed colour gives back its channels. */
  lemma {:induction false} Unpack(r: int, g: int, b: int)
    requires 0 <= r < 256 && 0 <= g < 256 && 0 <= b < 256
    ensures var n := r * 65536 + g * 256 + b;
      n / 65536 == r && (n / 256) % 256 == g && n % 256 == b
  {
    var n := r * 65536 + g * 256 + b;
    DivModUnique(n, 65536, r, g * 256 + b);
    DivModUnique(n, 256, r * 256 + g, b);
    DivModUnique(r * 256 + g, 256, r, g);
  }

  /** Moving every channel by `amount`, clamped to 0..255. */
  function Shifted(c: Rgb, amount: int): (d: Rgb)
    ensures IsChannels(d)
  {
    Rgb(Clamp(c.r + amount), Clamp(c.g + amount), Clamp(c.b + amount))
  }

  /**
   * `adjustColor` on a `#rrggbb` colour moves each channel by `amount`, clamped to
   * 0..255, and writes the result in the same form.
   */
  lemma {:induction false} AdjustHex6(c: Rgb, amount: int)
    requires IsChannels(c)
    ensures AdjustColor(Hex6(c), amount) == Hex6(Shifted(c, amount))
  {
    ReadHex6(c);
    AdjustPacked(Hex6(c), c, amount);
  }

  /** A colour whose number packs the channels of `c` is adjusted channel by channel. */
  lemma {:induction false} AdjustPacked(hex: string, c: Rgb, amount: int)
    requires IsChannels(c) && ColorNumber(hex) == c.r * 65536 + c.g * 256 + c.b
    ensures AdjustedChannels(hex, amount) == Shifted(c, amount)
  {
    Unpack(c.r, c.g, c.b);
  }

  /** Adjusting by zero leaves a `#rrggbb` colour as it is. */
  lemma {:induction false} AdjustZero(c: Rgb)
    requires IsChannels(c)
    ensures AdjustColor(Hex6(c), 0) == Hex6(c)
  {
    AdjustHex6(c, 0);
    assert Shifted(c, 0) == c;
  }

  /** Every lower-case `#rrggbb` string is the `Hex6` form of its three channels. */
  lemma {:induction false} Hex6Onto(hex: string)
    requires |hex| == 7 && hex[0] == '#' && AllLowerHex(hex[1..])
    ensures var c := Rgb(HexValue(hex[1..3]), HexValue(hex[3..5]), HexValue(hex[5..]));
      IsChannels(c) && Hex6(c) == hex
  {
    var x, y, z := hex[1..3], hex[3..5], hex[5..];
    assert AllLowerHex(x) && AllLowerHex(y) && AllLowerHex(z);
    PowTwo();
    ValueBound(x);
    ValueBound(y);
    ValueBound(z);
    FixedHexOfValue(x);
    FixedHexOfValue(y);
    FixedHexOfValue(z);
    assert hex == "#" + x + y + z;
  }

  /** Dark text (for light backgrounds) and light text (for dark ones). */
  const DarkText := "#1a1a1a"
  const LightText := "#f5f5f5"

  /**
   * `getContrastTextColor(bgColor)`: the first `#` removed, three two-character slices
   * read with `parseInt(…, 16)`, and brightness `(299 r + 587 g + 114 b) / 1000`
   * compared with 128. A slice that does not parse makes the brightness NaN, and a
   * comparison with NaN is false, so the text is light.
   */
  function ContrastTextColor(bg: string): (r: string)
    ensures r == DarkText || r == LightText
  {
    var hex := ReplaceFirstChar(bg, '#');
    var r := ParseInt(Substr(hex, 0, 2), Hex16);
    var g := ParseInt(Substr(hex, 2, 2), Hex16);
    var b := ParseInt(Substr(hex, 4, 2), Hex16);
    if r.Some? && g.Some? && b.Some? && Brighter(r.value, g.value, b.value) then DarkText
    else LightText
  }

  /** `(r * 299 + g * 587 + b * 114) / 1000 > 128`, with the division cleared. */
  predicate Brighter(r: int, g: int, b: int)
  {
    r * 299 + g * 587 + b * 114 > 128000
  }

  /** On a `#rrggbb` colour the choice depends only on the weighted channel sum. */
  lemma {:induction false} ContrastHex6(c: Rgb)
    requires IsChannels(c)
    ensures ContrastTextColor(Hex6(c)) == if Brighter(c.r, c.g, c.b) then DarkText else LightText
  {
    StripHex6(c);
    Slices(FixedHex(c.r, 2), FixedHex(c.g, 2), FixedHex(c.b, 2));
    ReadChannel(c.r);
    ReadChannel(c.g);
    ReadChannel(c.b);
  }

  /** The three two-character slices of six characters are their three pairs. */
  lemma {:induction false} Slices(x: string, y: string, z: string)
    requires |x| == 2 && |y| == 2 && |z| == 2
    ensures var s := x + y + z;
      Substr(s, 0, 2) == x && Substr(s, 2, 2) == y && Substr(s, 4, 2) == z
  {
    var s := x + y + z;
    assert s[0..2] == x && s[2..4] == y && s[4..6] == z;
  }

  /** A channel's two digits read back as the channel. */
  lemma {:induction false} ReadChannel(v: int)
    requires 0 <= v < 256
    ensures ParseInt(FixedHex(v, 2), Hex16) == Some(v)
  {
    PowTwo();
    FixedHexLower(v, 2);
    FixedHexSmall(v, 2);
    ReadPair(FixedHex(v, 2));
  }

  lemma {:induction false} ReadPair(x: string)
    requires |x| == 2 && AllLowerHex(x)
    ensures ParseInt(x, Hex16) == Some(HexValue(x))
  {
    LowerHexDigits(x);
    ParseIntDigits(x, Hex16);
  }

  /** A colour whose first slice is not hex gets light text. */
  lemma {:induction false} ContrastUnparsed(bg: string)
    requires var t := TrimStart(Substr(ReplaceFirstChar(bg, '#'), 0, 2));
      t == [] || (!IsHexDigit(t[0]) && t[0] !in "+-")
    ensures ContrastTextColor(bg) == LightText
  {
    ParseIntNoDigits(Substr(ReplaceFirstChar(bg, '#'), 0, 2));
  }

  /** White gets dark text. */
  lemma {:induction false} ContrastWhite()
    ensures ContrastTextColor("#ffffff") == DarkText
  {
    ContrastGrey("ff", "ffffff");
  }

  /** Black gets light text. */
  lemma {:induction false} ContrastBlack()
    ensures ContrastTextColor("#000000") == LightText
  {
    ContrastGrey("00", "000000");
  }

  /** Mid grey, whose brightness is exactly 128, gets light text: the comparison is strict. */
  lemma {:induction false} ContrastMidGrey()
    ensures ContrastTextColor("#808080") == LightText
  {
    assert "#808080" == "#" + "808080";
    assert HexValue("80") == 128 by {
      assert "80"[..1] == "8" && "8"[..0] == [];
    }
    ContrastGrey("80", "808080");
  }

  /** A grey `#xxxxxx`: all three slices are the same two digits. */
  lemma {:induction false} ContrastGrey(x: string, s: string)
    requires |x| == 2 && AllLowerHex(x) && s == x + x + x
    ensures ContrastTextColor("#" + s) == if HexValue(x) * 1000 > 128000 then DarkText else LightText
  {
    assert ReplaceFirstChar("#" + s, '#') == s;
    Slices(x, x, x);
    ReadPair(x);
  }
}
