/**
 * The ECMAScript number conversions the core uses: `parseInt` (with radix 16 and
 * without a radix), `toString(16)`, `padStart`, decimal `toString`, `toFixed(2)`
 * of a whole percentage, and the ToInt32 conversion the shift operators apply.
 * Numbers are unbounded integers; the source's doubles agree with them on every
 * value below 2^53.
 */
module JsNumber {
  import opened Wrappers
  import opened JsString

  predicate IsDecDigit(c: char) { '0' <= c <= '9' }
  predicate IsHexDigit(c: char) { IsDecDigit(c) || 'a' <= c <= 'f' || 'A' <= c <= 'F' }
  predicate IsLowerHexDigit(c: char) { IsDecDigit(c) || 'a' <= c <= 'f' }

  /** The radixes the core uses: 10 and 16. */
  type Base = b: nat | b == 10 || b == 16 witness 10

  predicate IsDigitIn(c: char, base: Base)
  {
    if base == 10 then IsDecDigit(c) else IsHexDigit(c)
  }

  predicate AllDigits(s: string, base: Base)
  {
    forall i :: 0 <= i < |s| ==> IsDigitIn(s[i], base)
  }

  /** The value of a hex digit; other characters count as 0 and never occur where it is used. */
  function DigitValue(c: char): (v: nat)
    ensures v < 16
    ensures IsDecDigit(c) ==> v < 10
  {
    if IsDecDigit(c) then c as int - '0' as int
    else if 'a' <= c <= 'f' then c as int - 'a' as int + 10
    else if 'A' <= c <= 'F' then c as int - 'A' as int + 10
    else 0
  }

  /** The value of a hex digit string, most significant digit first. */
  function HexValue(s: string): nat
  {
    if s == [] then 0 else HexValue(s[..|s| - 1]) * 16 + DigitValue(s[|s| - 1])
  }

  /** The value of a decimal digit string, most significant digit first. */
  function DecValue(s: string): nat
  {
    if s == [] then 0 else DecValue(s[..|s| - 1]) * 10 + DigitValue(s[|s| - 1])
  }

  function Pow16(k: nat): (p: nat)
    ensures p >= 1
  {
    if k == 0 then 1 else 16 * Pow16(k - 1)
  }

  lemma {:induction false} ValueBound(s: string)
    ensures HexValue(s) < Pow16(|s|)
  {
    if s != [] {
      ValueBound(s[..|s| - 1]);
    }
  }

  /** Length of the longest prefix of `s` made of digits of `base`. */
  function DigitRun(s: string, base: Base): (n: nat)
    ensures n <= |s|
  {
    if s != [] && IsDigitIn(s[0], base) then 1 + DigitRun(s[1..], base) else 0
  }

  /** `parseInt(s, 16)` is `Hex16`; `parseInt(s)` with no radix is `Auto`. */
  datatype Radix = Auto | Hex16

  /** After leading white space, an optional sign and an optional `0x`: the text whose digits are read. */
  function Unsigned(s: string): string
  {
    var u := TrimStart(s);
    if u != [] && (u[0] == '-' || u[0] == '+') then u[1..] else u
  }

  predicate IsNegative(s: string)
  {
    var u := TrimStart(s);
    u != [] && u[0] == '-'
  }

  predicate HasHexPrefix(v: string)
  {
    |v| >= 2 && v[0] == '0' && (v[1] == 'x' || v[1] == 'X')
  }

  /**
   * `parseInt(s, radix)`: skips leading white space, reads an optional sign and, for radix 16
   * or no radix, an optional `0x`/`0X` (which switches to radix 16), then the longest run of
   * digits; no digit at all gives NaN, modelled as `None`.
   */
  function ParseInt(s: string, radix: Radix): Option<int>
  {
    var v := Unsigned(s);
    var prefixed := HasHexPrefix(v);
    var w := if prefixed then v[2..] else v;
    var base: Base := if prefixed || radix == Hex16 then 16 else 10;
    var n := DigitRun(w, base);
    if n == 0 then None
    else
      var x: int := if base == 16 then HexValue(w[..n]) else DecValue(w[..n]);
      if IsNegative(s) then Some(-x) else Some(x)
  }

  /** A string made only of digits is read whole, as it stands. */
  lemma {:induction false} ParseIntDigits(s: string, radix: Radix)
    requires s != []
    ensures radix == Hex16 && AllDigits(s, 16) ==> ParseInt(s, radix) == Some(HexValue(s))
    ensures radix == Auto && AllDigits(s, 10) ==> ParseInt(s, radix) == Some(DecValue(s))
  {
    var base: Base := if radix == Hex16 then 16 else 10;
    if AllDigits(s, base) {
      assert !IsWhite(s[0]);
      assert TrimStart(s) == s;
      assert Unsigned(s) == s;
      assert !HasHexPrefix(s);
      AllDigitsRun(s, base);
      assert s[..|s|] == s;
    }
  }

  /** No digit at all after the sign and prefix: NaN. */
  lemma {:induction false} ParseIntNoDigits(s: string)
    requires TrimStart(s) == [] || (!IsHexDigit(TrimStart(s)[0]) && TrimStart(s)[0] !in "+-")
    ensures ParseInt(s, Hex16) == None && ParseInt(s, Auto) == None
  {
  }

  lemma {:induction false} AllDigitsRun(s: string, base: Base)
    requires AllDigits(s, base)
    ensures DigitRun(s, base) == |s|
  {
    if s != [] {
      AllDigitsRun(s[1..], base);
    }
  }

  function HexChar(d: nat): (c: char)
    requires d < 16
    ensures IsLowerHexDigit(c) && DigitValue(c) == d
  {
    if d < 10 then ('0' as int + d) as char else ('a' as int + d - 10) as char
  }

  function DecChar(d: nat): (c: char)
    requires d < 10
    ensures IsDecDigit(c) && DigitValue(c) == d
  {
    ('0' as int + d) as char
  }

  predicate AllLowerHex(s: string)
  {
    forall i :: 0 <= i < |s| ==> IsLowerHexDigit(s[i])
  }

  /** `n.toString(16)` for a non-negative integer: lower-case digits, no leading zero. */
  function ToHex(n: nat): (r: string)
    ensures |r| >= 1 && HexValue(r) == n
  {
    if n < 16 then [HexChar(n)]
    else
      var r := ToHex(n / 16) + [HexChar(n % 16)];
      assert r[..|r| - 1] == ToHex(n / 16);
      r
  }

  /** Exactly `width` lower-case hex digits of `n` (the low ones). */
  function FixedHex(n: nat, width: nat): (r: string)
    ensures |r| == width
  {
    if width == 0 then ""
    else FixedHex(n / 16, width - 1) + [HexChar(n % 16)]
  }

  lemma {:induction false} ToHexLower(n: nat)
    ensures AllLowerHex(ToHex(n))
  {
    if n >= 16 {
      ToHexLower(n / 16);
    }
  }

  lemma {:induction false} FixedHexLower(n: nat, width: nat)
    ensures AllLowerHex(FixedHex(n, width))
  {
    if width > 0 {
      FixedHexLower(n / 16, width - 1);
    }
  }

  lemma {:induction false} LowerHexConcat(a: string, b: string)
    requires AllLowerHex(a) && AllLowerHex(b)
    ensures AllLowerHex(a + b)
  {
    assert forall i :: 0 <= i < |a + b| ==> (a + b)[i] == if i < |a| then a[i] else b[i - |a|];
  }

  lemma {:induction false} LowerHexDigits(s: string)
    requires AllLowerHex(s)
    ensures AllDigits(s, 16)
  {
  }

  /** The fixed-width form keeps the value modulo 16^width. */
  lemma {:induction false} FixedHexValue(n: nat, width: nat)
    ensures HexValue(FixedHex(n, width)) == n % Pow16(width)
  {
    if width > 0 {
      FixedHexValue(n / 16, width - 1);
      var r := FixedHex(n, width);
      assert r[..|r| - 1] == FixedHex(n / 16, width - 1);
      ModPowStep(n, width);
    }
  }

  lemma {:induction false} ModPowStep(n: nat, width: nat)
    requires width >= 1
    ensures (n / 16) % Pow16(width - 1) * 16 + n % 16 == n % Pow16(width)
    ensures (n / 16) / Pow16(width - 1) == n / Pow16(width)
  {
    var p := Pow16(width - 1);
    var m := n / 16;
    var q := m / p;
    var r := m % p;
    var low := r * 16 + n % 16;
    assert n == m * 16 + n % 16;
    assert m == q * p + r;
    assert m * 16 == q * (16 * p) + r * 16 by {
      assert m * 16 == (q * p + r) * 16;
    }
    assert low < 16 * p by {
      assert r <= p - 1;
      assert r * 16 <= (p - 1) * 16;
    }
    DivModUnique(n, 16 * p, q, low);
  }

  /** Euclidean division is unique. */
  lemma {:induction false} DivModUnique(n: int, d: int, a: int, b: int)
    requires d > 0 && n == a * d + b && 0 <= b < d
    ensures n % d == b && n / d == a
  {
    var q := n / d;
    var r := n % d;
    assert n == q * d + r;
    assert (a - q) * d == r - b;
    if a - q >= 1 {
      MulMonotone(a - q, d);
    } else if a - q <= -1 {
      MulMonotone(q - a, d);
    }
  }

  lemma {:induction false} MulMonotone(x: int, d: int)
    requires x >= 1 && d > 0
    ensures x * d >= d
  {
    assert x * d == (x - 1) * d + d;
    assert (x - 1) * d >= 0;
  }

  lemma {:induction false} ToHexLength(n: nat, width: nat)
    requires width >= 1 && n < Pow16(width)
    ensures |ToHex(n)| <= width
  {
    if n >= 16 {
      ToHexLength(n / 16, width - 1);
    }
  }

  /** Leading zeros do not change the value of a digit string. */
  lemma {:induction false} LeadingZeros(k: nat, x: string)
    ensures HexValue(Fill(k, '0') + x) == HexValue(x)
  {
    var z: string := Fill(k, '0');
    if x == [] {
      assert z + x == z;
      Zeros(k);
    } else {
      var init := x[..|x| - 1];
      LeadingZeros(k, init);
      assert (z + x)[..|z + x| - 1] == z + init;
    }
  }

  lemma {:induction false} Zeros(k: nat)
    ensures HexValue(Fill(k, '0')) == 0
  {
    if k > 0 {
      Zeros(k - 1);
      assert Fill(k, '0')[..k - 1] == Fill(k - 1, '0');
    }
  }

  /** `n.toString(16).padStart(width, "0")` is the `width`-digit form of `n` when it fits. */
  lemma {:induction false} PadHex(n: nat, width: nat)
    requires width >= 1 && n < Pow16(width)
    ensures PadStart(ToHex(n), width, '0') == FixedHex(n, width)
  {
    var x := ToHex(n);
    ToHexLength(n, width);
    ToHexLower(n);
    var z: string := Fill(width - |x|, '0');
    PadStartFill(x, width, '0');
    assert AllLowerHex(z);
    LowerHexConcat(z, x);
    LeadingZeros(width - |x|, x);
    FixedHexOfValue(z + x);
    assert |z + x| == width && HexValue(z + x) == n;
  }

  lemma {:induction false} HexCharOfDigit(c: char)
    requires IsLowerHexDigit(c)
    ensures HexChar(DigitValue(c)) == c
  {
  }

  /** A lower-case hex string of `width` digits is the `FixedHex` form of its value. */
  lemma {:induction false} FixedHexOfValue(s: string)
    requires AllLowerHex(s)
    ensures FixedHex(HexValue(s), |s|) == s
  {
    if s != [] {
      var init := s[..|s| - 1];
      var last := s[|s| - 1];
      assert AllLowerHex(init);
      FixedHexOfValue(init);
      FixedHexSnoc(HexValue(init), last, |init|);
      assert s == init + [last];
    }
  }

  /** One more digit `c` behind the digits of `n` is the fixed form of `n * 16 + c`. */
  lemma {:induction false} FixedHexSnoc(n: nat, c: char, width: nat)
    requires IsLowerHexDigit(c)
    ensures FixedHex(n * 16 + DigitValue(c), width + 1) == FixedHex(n, width) + [c]
  {
    DivModUnique(n * 16 + DigitValue(c), 16, n, DigitValue(c));
    HexCharOfDigit(c);
  }

  lemma {:induction false} FixedHexUnfold(n: nat, width: nat)
    requires width >= 1
    ensures FixedHex(n, width) == FixedHex(n / 16, width - 1) + [HexChar(n % 16)]
  {
  }

  /** Splitting off the last two digits: the digits before them are those of `n / 256`. */
  lemma {:induction false} FixedHexSplit2(n: nat, a: nat)
    ensures FixedHex(n, a + 2) == FixedHex(n / 256, a) + FixedHex(n, 2)
  {
    var q := n / 16;
    var d0, d1 := [HexChar(n % 16)], [HexChar(q % 16)];
    DivModUnique(n, 256, q / 16, (q % 16) * 16 + n % 16);
    assert FixedHex(n, a + 2) == FixedHex(q, a + 1) + d0;
    assert FixedHex(q, a + 1) == FixedHex(q / 16, a) + d1;
    assert FixedHex(n, 2) == FixedHex(q, 1) + d0;
    assert FixedHex(q, 1) == FixedHex(q / 16, 0) + d1 == d1;
    assert FixedHex(q / 16, a) + d1 + d0 == FixedHex(q / 16, a) + (d1 + d0);
  }

  /** A number that fits is written exactly. */
  lemma {:induction false} FixedHexSmall(n: nat, width: nat)
    requires n < Pow16(width)
    ensures HexValue(FixedHex(n, width)) == n
  {
    FixedHexValue(n, width);
    DivModUnique(n, Pow16(width), 0, n);
  }

  /** Only the low digits matter. */
  lemma {:induction false} FixedHexMod(n: nat, width: nat)
    ensures FixedHex(n, width) == FixedHex(n % Pow16(width), width)
  {
    FixedHexValue(n, width);
    FixedHexLower(n, width);
    FixedHexOfValue(FixedHex(n, width));
  }

  /** The value of a two-part hex string. */
  lemma {:induction false} ValueAppend(x: string, y: string)
    ensures HexValue(x + y) == HexValue(x) * Pow16(|y|) + HexValue(y)
  {
    var xy := x + y;
    if y == [] {
      assert xy == x;
    } else {
      var y0 := y[..|y| - 1];
      var d := DigitValue(y[|y| - 1]);
      ValueAppend(x, y0);
      assert xy[..|xy| - 1] == x + y0;
      assert xy[|xy| - 1] == y[|y| - 1];
      var p := Pow16(|y0|);
      var vx := HexValue(x);
      var v0 := HexValue(y0);
      assert HexValue(xy) == HexValue(x + y0) * 16 + d;
      assert HexValue(x + y0) == vx * p + v0;
      assert HexValue(y) == v0 * 16 + d;
      assert Pow16(|y|) == 16 * p;
      Distrib(vx, p, v0, d);
    }
  }

  /** The same, for a two-digit tail, with the power written out. */
  lemma {:induction false} ValueAppend2(x: string, y: string)
    requires |y| == 2
    ensures HexValue(x + y) == HexValue(x) * 256 + HexValue(y)
  {
    var xy := x + y;
    var x1 := x + y[..1];
    assert xy[..|xy| - 1] == x1 && xy[|xy| - 1] == y[1];
    assert x1[..|x1| - 1] == x && x1[|x1| - 1] == y[0];
    var y1 := y[..1];
    assert y1[..0] == [] && y1[0] == y[0];
    assert y[..|y| - 1] == y1 && y[|y| - 1] == y[1];
    assert HexValue(x1) == HexValue(x) * 16 + DigitValue(y[0]);
    assert HexValue(xy) == HexValue(x1) * 16 + DigitValue(y[1]);
    assert HexValue(y1) == DigitValue(y[0]);
    assert HexValue(y) == HexValue(y1) * 16 + DigitValue(y[1]);
  }

  lemma {:induction false} Distrib(a: int, p: int, v: int, d: int)
    ensures (a * p + v) * 16 + d == a * (16 * p) + (v * 16 + d)
  {
  }

  lemma {:induction false} PowTwo()
    ensures Pow16(2) == 256
  {
    assert Pow16(1) == 16;
  }

  /** Decimal `toString` of a non-negative integer. */
  function NatToString(n: nat): (r: string)
    ensures |r| >= 1 && AllDigits(r, 10) && DecValue(r) == n
    ensures n < 10 <==> |r| == 1
  {
    if n < 10 then [DecChar(n)]
    else
      var r := NatToString(n / 10) + [DecChar(n % 10)];
      assert r[..|r| - 1] == NatToString(n / 10);
      r
  }

  /** Decimal `toString` of an integer. */
  function IntToString(n: int): (r: string)
    ensures n >= 0 ==> r == NatToString(n)
    ensures n < 0 ==> r == "-" + NatToString(-n)
  {
    if n < 0 then "-" + NatToString(-n) else NatToString(n)
  }

  /** A run of decimal digits ends where the first non-digit starts. */
  lemma {:induction false} DecRunThen(ds: string, rest: string)
    requires ds != [] && AllDigits(ds, 10) && (rest == [] || !IsDecDigit(rest[0]))
    ensures DigitRun(ds + rest, 10) == |ds| && (ds + rest)[..|ds|] == ds
  {
    if |ds| > 1 {
      assert (ds + rest)[1..] == ds[1..] + rest;
      DecRunThen(ds[1..], rest);
    } else {
      assert (ds + rest)[1..] == rest;
    }
  }

  /** `parseInt` reads the decimal text of a whole number back, whatever follows that is no digit. */
  lemma {:induction false} ParseIntText(n: int, rest: string)
    requires rest == [] || (!IsDecDigit(rest[0]) && rest[0] != 'x' && rest[0] != 'X')
    ensures ParseInt(IntToString(n) + rest, Auto) == Some(n)
  {
    var ds := if n < 0 then NatToString(-n) else NatToString(n);
    var s := IntToString(n) + rest;
    var w := ds + rest;
    DecRunThen(ds, rest);
    assert IsDecDigit(w[0]) && !HasHexPrefix(w);
    if n < 0 {
      assert s == "-" + w;
      assert !IsWhite(s[0]);
      assert TrimStart(s) == s;
      assert Unsigned(s) == w && IsNegative(s);
    } else {
      assert s == w;
      assert !IsWhite(s[0]);
      assert TrimStart(s) == s;
      assert Unsigned(s) == w && !IsNegative(s);
    }
  }

  /** ToInt32: the value modulo 2^32, read as a signed 32-bit integer. */
  function ToInt32(v: int): (r: int)
    ensures -0x8000_0000 <= r < 0x8000_0000
    ensures (r - v) % 0x1_0000_0000 == 0
    ensures 0 <= v < 0x8000_0000 ==> r == v
  {
    var m := v % 0x1_0000_0000;
    if m >= 0x8000_0000 then m - 0x1_0000_0000 else m
  }

  /**
   * `(i / 100).toFixed(2)` for a whole number `i`: the quotient written with exactly two
   * decimals, and a minus sign when `i` is negative.
   */
  function ToFixed2(i: int): (r: string)
    ensures |r| >= 4 && r[|r| - 3] == '.'
    ensures AllDigits(r[|r| - 2..], 10)
    ensures i >= 0 ==> AllDigits(r[..|r| - 3] + r[|r| - 2..], 10)
                       && DecValue(r[..|r| - 3] + r[|r| - 2..]) == i
    ensures i < 0 <==> r[0] == '-'
  {
    var a := if i < 0 then -i else i;
    var whole := NatToString(a / 100);
    var frac := [DecChar(a % 100 / 10), DecChar(a % 10)];
    var sign := if i < 0 then "-" else "";
    var r := sign + whole + "." + frac;
    ToFixed2Digits(a);
    assert r[..|r| - 3] == sign + whole;
    assert r[0] == if i < 0 then '-' else whole[0];
    assert i >= 0 ==> r[..|r| - 3] + r[|r| - 2..] == whole + frac;
    assert r[|r| - 2..] == frac;
    r
  }

  lemma {:induction false} ValueSnoc(x: string, c: char)
    requires AllDigits(x, 10) && IsDecDigit(c)
    ensures AllDigits(x + [c], 10)
    ensures DecValue(x + [c]) == DecValue(x) * 10 + DigitValue(c)
  {
    assert (x + [c])[..|x|] == x;
  }

  lemma {:induction false} ToFixed2Digits(a: nat)
    ensures var ds := NatToString(a / 100) + [DecChar(a % 100 / 10), DecChar(a % 10)];
      AllDigits(ds, 10) && DecValue(ds) == a
  {
    var q := a / 100;
    var m := a % 100;
    var t := m / 10;
    var u := m % 10;
    var whole := NatToString(q);
    ValueSnoc(whole, DecChar(t));
    ValueSnoc(whole + [DecChar(t)], DecChar(u));
    assert a == 100 * q + m;
    assert m == 10 * t + u;
    DivModUnique(a, 10, 10 * q + t, u);
    assert whole + [DecChar(t)] + [DecChar(u)] == whole + [DecChar(a % 100 / 10), DecChar(a % 10)];
  }
}
