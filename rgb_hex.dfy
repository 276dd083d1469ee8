/**
 * `rgbToHex`: a computed CSS colour back to the `#rrggbb` form the colour inputs take.
 * Nothing or a transparent colour gives `null`; a `#` colour is kept; otherwise the
 * three channel numbers matched by `^rgba?\((\d+),\s*(\d+),\s*(\d+)` are written as
 * two or more lower-case hex digits each.
 */
module RgbHex {
  import opened Wrappers
  import opened JsString
  import opened JsNumber
  import opened Color

  /** The three digit runs the regular expression captures. */
  datatype Captures = Captures(red: string, green: string, blue: string)

  predicate IsDigitRun(s: string)
  {
    s != [] && AllDigits(s, 10)
  }

  lemma {:induction false} DigitRunDigits(s: string)
    ensures AllDigits(s[..DigitRun(s, 10)], 10)
    ensures DigitRun(s, 10) < |s| ==> !IsDecDigit(s[DigitRun(s, 10)])
  {
    if s != [] && IsDecDigit(s[0]) {
      DigitRunDigits(s[1..]);
      var n := DigitRun(s[1..], 10);
      assert s[..n + 1] == [s[0]] + s[1..][..n];
    }
  }

  /** `(\d+),` at the start of `t`: the digit run and what follows the comma. */
  function RunThenComma(t: string): (r: Option<(string, string)>)
    ensures r.Some? ==> IsDigitRun(r.value.0)
  {
    var n := DigitRun(t, 10);
    DigitRunDigits(t);
    if n == 0 || n == |t| || t[n] != ',' then None else Some((t[..n], t[n + 1..]))
  }

  /** `(\d+)` at the start of `t`: the longest digit run, since nothing follows it in the pattern. */
  function Run(t: string): (r: Option<string>)
    ensures r.Some? ==> IsDigitRun(r.value)
  {
    var n := DigitRun(t, 10);
    DigitRunDigits(t);
    if n == 0 then None else Some(t[..n])
  }

  /**
   * `(\d+),\s*(\d+),\s*(\d+)` at the start of `t`, `\s*` being `trimStart`. Digits, commas
   * and white space are disjoint, so the greedy runs are the only way to match.
   */
  function MatchChannels(t: string): (r: Option<Captures>)
    ensures r.Some? ==> IsDigitRun(r.value.red) && IsDigitRun(r.value.green) && IsDigitRun(r.value.blue)
  {
    match RunThenComma(t)
    case None => None
    case Some((red, rest1)) =>
      match RunThenComma(TrimStart(rest1))
      case None => None
      case Some((green, rest2)) =>
        match Run(TrimStart(rest2))
        case None => None
        case Some(blue) => Some(Captures(red, green, blue))
  }

  const RgbOpen: string := "rgb("
  const RgbaOpen: string := "rgba("

  /** The length of `rgba?\(` at the start of `s`, or 0 when it is not there. */
  function OpenLength(s: string): (n: nat)
    ensures n <= |s|
  {
    if StartsWith(s, RgbOpen) then |RgbOpen| else if StartsWith(s, RgbaOpen) then |RgbaOpen| else 0
  }

  /** `rgb.match(/^rgba?\((\d+),\s*(\d+),\s*(\d+)/)`. */
  function MatchRgb(s: string): (r: Option<Captures>)
    ensures r.Some? ==> IsDigitRun(r.value.red) && IsDigitRun(r.value.green) && IsDigitRun(r.value.blue)
  {
    var n := OpenLength(s);
    if n == 0 then None else MatchChannels(s[n..])
  }

  /** `parseInt(digits).toString(16).padStart(2, '0')`. */
  function HexPair(digits: string): (h: string)
    requires IsDigitRun(digits)
    ensures |h| >= 2 && AllLowerHex(h) && HexValue(h) == DecValue(digits)
  {
    ParseIntDigits(digits, Auto);
    var n: nat := ParseInt(digits, Auto).value;
    PaddedHex(n);
    PadStart(ToHex(n), 2, '0')
  }

  lemma {:induction false} PaddedHex(n: nat)
    ensures var h := PadStart(ToHex(n), 2, '0');
      |h| >= 2 && AllLowerHex(h) && HexValue(h) == n
  {
    var x := ToHex(n);
    ToHexLower(n);
    if |x| < 2 {
      var z: string := Fill(2 - |x|, '0');
      PadStartFill(x, 2, '0');
      LeadingZeros(2 - |x|, x);
      LowerHexConcat(z, x);
    }
  }

  /** `#${r}${g}${b}` for the three captured channels. */
  function HexOf(c: Captures): (h: string)
    requires IsDigitRun(c.red) && IsDigitRun(c.green) && IsDigitRun(c.blue)
    ensures |h| >= 7 && h[0] == '#' && AllLowerHex(h[1..])
  {
    var x, y, z := HexPair(c.red), HexPair(c.green), HexPair(c.blue);
    HashHex(x, y, z);
    "#" + x + y + z
  }

  lemma {:induction false} HashHex(x: string, y: string, z: string)
    requires AllLowerHex(x) && AllLowerHex(y) && AllLowerHex(z)
    ensures var h := "#" + x + y + z;
      |h| == 1 + |x| + |y| + |z| && h[0] == '#' && AllLowerHex(h[1..])
      && h[1..1 + |x|] == x && h[1 + |x|..1 + |x| + |y|] == y && h[1 + |x| + |y|..] == z
  {
    LowerHexConcat(x, y);
    LowerHexConcat(x + y, z);
    assert ("#" + x + y + z)[1..] == x + y + z;
  }

  const Transparent: string := "transparent"
  const TransparentBlack: string := "rgba(0, 0, 0, 0)"

  /**
   * `rgbToHex(rgb)`: `None` stands for `null`. Whatever colour comes out of a match is
   * `#` followed by lower-case hex digits.
   */
  function RgbToHex(rgb: string): (r: Option<string>)
    ensures r.Some? && !StartsWith(rgb, "#") ==>
      MatchRgb(rgb).Some? && |r.value| >= 7 && r.value[0] == '#' && AllLowerHex(r.value[1..])
  {
    if rgb == "" || rgb == Transparent || rgb == TransparentBlack then None
    else if StartsWith(rgb, "#") then Some(rgb)
    else
      match MatchRgb(rgb)
      case None => None
      case Some(c) => Some(HexOf(c))
  }

  /** Empty input and the two transparent forms give `null`; a `#` colour comes back as it is. */
  lemma {:induction false} SpecialColors(hash: string)
    requires StartsWith(hash, "#")
    ensures RgbToHex("") == None && RgbToHex(Transparent) == None && RgbToHex(TransparentBlack) == None
    ensures RgbToHex(hash) == Some(hash)
  {
    assert hash[0] == '#';
    assert Transparent[0] != '#' && TransparentBlack[0] != '#';
  }

  /** A colour that is neither `#…` nor starts with `rgb(` or `rgba(` gives `null`. */
  lemma {:induction false} NoMatchIsNull(s: string)
    requires !StartsWith(s, "#") && !StartsWith(s, RgbOpen) && !StartsWith(s, RgbaOpen)
    ensures RgbToHex(s) == None
  {
  }

  /** A digit run followed by something that is not a digit is read whole. */
  lemma {:induction false} DigitsThen(ds: string, rest: string)
    requires IsDigitRun(ds) && (rest == [] || !IsDecDigit(rest[0]))
    ensures DigitRun(ds + rest, 10) == |ds| && (ds + rest)[..|ds|] == ds && (ds + rest)[|ds|..] == rest
  {
    if |ds| > 1 {
      assert (ds + rest)[1..] == ds[1..] + rest;
      DigitsThen(ds[1..], rest);
    } else {
      assert (ds + rest)[1..] == rest;
    }
  }

  /** White space before a digit run is skipped by `\s*`. */
  lemma {:induction false} SkipWhite(w: string, x: string)
    requires AllWhite(w) && x != [] && IsDecDigit(x[0])
    ensures TrimStart(w + x) == x
  {
    TrimStartSkip(w, x);
  }

  lemma {:induction false} RunThenCommaOf(ds: string, rest: string)
    requires IsDigitRun(ds)
    ensures RunThenComma(ds + ("," + rest)) == Some((ds, rest))
  {
    DigitsThen(ds, "," + rest);
    assert ("," + rest)[1..] == rest;
  }

  lemma {:induction false} RunOf(ds: string, tail: string)
    requires IsDigitRun(ds) && (tail == [] || !IsDecDigit(tail[0]))
    ensures Run(ds + tail) == Some(ds)
  {
    DigitsThen(ds, tail);
  }

  /** The channel list after the opening parenthesis is matched digit run by digit run. */
  lemma {:induction false} MatchOf(r: string, w1: string, g: string, w2: string, b: string, tail: string)
    requires IsDigitRun(r) && IsDigitRun(g) && IsDigitRun(b)
    requires AllWhite(w1) && AllWhite(w2) && (tail == [] || !IsDecDigit(tail[0]))
    ensures MatchChannels(r + ("," + (w1 + (g + ("," + (w2 + (b + tail))))))) == Some(Captures(r, g, b))
  {
    var rest2 := w2 + (b + tail);
    var rest1 := w1 + (g + ("," + rest2));
    RunThenCommaOf(r, rest1);
    SkipWhite(w1, g + ("," + rest2));
    RunThenCommaOf(g, rest2);
    SkipWhite(w2, b + tail);
    RunOf(b, tail);
  }

  /** Both openings lead to the same channel matcher. */
  lemma {:induction false} MatchRgbOf(open: string, body: string)
    requires open == RgbOpen || open == RgbaOpen
    ensures MatchRgb(open + body) == MatchChannels(body)
  {
    var s := open + body;
    assert s[..|open|] == open && s[|open|..] == body;
    if open == RgbaOpen {
      assert s[3] == 'a';
    }
    assert OpenLength(s) == |open|;
  }

  /** A channel below 256 gives exactly its two-digit form. */
  lemma {:induction false} PairOf(ds: string)
    requires IsDigitRun(ds) && DecValue(ds) < 256
    ensures HexPair(ds) == FixedHex(DecValue(ds), 2)
  {
    ParseIntDigits(ds, Auto);
    PadHex(DecValue(ds), 2);
  }

  /** The channel numbers as a colour. */
  function Channels(c: Captures): Rgb
  {
    Rgb(DecValue(c.red), DecValue(c.green), DecValue(c.blue))
  }

  /** With every channel below 256, the hex form is the `#rrggbb` form of the colour. */
  lemma {:induction false} HexOfChannels(c: Captures)
    requires IsDigitRun(c.red) && IsDigitRun(c.green) && IsDigitRun(c.blue)
    requires IsChannels(Channels(c))
    ensures HexOf(c) == Hex6(Channels(c))
  {
    PairOf(c.red);
    PairOf(c.green);
    PairOf(c.blue);
  }

  /**
   * For `rgb(r,  g, b…` or `rgba(r, g, b…` with every channel below 256 the result is the
   * `#rrggbb` form of the three numbers, whose pairs read back as them. Only
   * `rgba(0, 0, 0, 0)` itself is turned away as transparent.
   */
  lemma {:induction false} RgbRoundTrip(open: string, r: string, w1: string, g: string, w2: string, b: string, tail: string)
    requires open == RgbOpen || open == RgbaOpen
    requires IsDigitRun(r) && IsDigitRun(g) && IsDigitRun(b)
    requires DecValue(r) < 256 && DecValue(g) < 256 && DecValue(b) < 256
    requires AllWhite(w1) && AllWhite(w2) && (tail == [] || !IsDecDigit(tail[0]))
    ensures var s := open + (r + ("," + (w1 + (g + ("," + (w2 + (b + tail)))))));
      var c := Rgb(DecValue(r), DecValue(g), DecValue(b));
      s != TransparentBlack ==>
        RgbToHex(s) == Some(Hex6(c)) && ColorNumber(Hex6(c)) == c.r * 65536 + c.g * 256 + c.b
  {
    var body := r + ("," + (w1 + (g + ("," + (w2 + (b + tail))))));
    var s := open + body;
    var c := Captures(r, g, b);
    ReadHex6(Channels(c));
    if s != TransparentBlack {
      assert s[0] == open[0] == 'r';
      MatchRgbOf(open, body);
      MatchOf(r, w1, g, w2, b, tail);
      HexOfChannels(c);
      Matched(s, c);
    }
  }

  /** A colour that is not one of the special forms and matches is converted. */
  lemma {:induction false} Matched(s: string, c: Captures)
    requires s != [] && s[0] == 'r' && s != TransparentBlack && MatchRgb(s) == Some(c)
    ensures RgbToHex(s) == Some(HexOf(c))
  {
    assert s != Transparent by {
      assert Transparent[0] != 'r';
    }
    assert !StartsWith(s, "#") by {
      assert s[..1][0] == 'r' && "#"[0] == '#';
    }
  }
}
