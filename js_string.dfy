/**
 * The ECMAScript string primitives the renderer and the editor helpers rely on:
 * `trim`, `startsWith`, `split` with a one-character separator, `join`, and a
 * global replace of one character.  Strings are sequences of Unicode scalar
 * values here; the source's strings are UTF-16 code units, which differ only for
 * characters outside the Basic Multilingual Plane.
 */
module JsString {

  /** WhiteSpace and LineTerminator code units: what `trim` removes and `\s` matches. */
  predicate IsWhite(c: char)
  {
    c == '\t' || c == '\n' || c == '\U{000B}' || c == '\U{000C}' || c == '\r' || c == ' ' ||
    c == '\U{00A0}' || c == '\U{1680}' || ('\U{2000}' <= c <= '\U{200A}') ||
    c == '\U{2028}' || c == '\U{2029}' || c == '\U{202F}' || c == '\U{205F}' ||
    c == '\U{3000}' || c == '\U{FEFF}'
  }

  /** The characters `.` refuses to match in a regular expression without the `s` flag. */
  predicate IsLineTerminator(c: char)
  {
    c == '\n' || c == '\r' || c == '\U{2028}' || c == '\U{2029}'
  }

  predicate StartsWith(s: string, prefix: string)
  {
    |prefix| <= |s| && s[..|prefix|] == prefix
  }

  predicate EndsWith(s: string, suffix: string)
  {
    |suffix| <= |s| && s[|s| - |suffix|..] == suffix
  }

  /** `trimStart`: drops the longest prefix of white space. */
  function TrimStart(s: string): (r: string)
    ensures |r| <= |s|
    ensures r == [] || !IsWhite(r[0])
    ensures r != [] ==> r[0] == s[|s| - |r|]
  {
    if s != [] && IsWhite(s[0]) then TrimStart(s[1..]) else s
  }

  /** What `trimStart` drops is white space. */
  lemma {:induction false} TrimStartWhite(s: string)
    ensures forall i :: 0 <= i < |s| - |TrimStart(s)| ==> IsWhite(s[i])
  {
    if s != [] && IsWhite(s[0]) {
      TrimStartWhite(s[1..]);
      forall i | 0 <= i < |s| - |TrimStart(s)|
        ensures IsWhite(s[i])
      {
        if i > 0 {
          assert s[i] == s[1..][i - 1];
        }
      }
    }
  }

  /** `trimEnd`: drops the longest suffix of white space. */
  function TrimEnd(s: string): (r: string)
    ensures |r| <= |s|
    ensures r == [] || !IsWhite(r[|r| - 1])
    ensures r != [] ==> r[0] == s[0]
    ensures r == [] ==> AllWhite(s)
  {
    if s != [] && IsWhite(s[|s| - 1]) then TrimEnd(s[..|s| - 1]) else s
  }

  /** `trim`: drops white space at both ends. */
  function Trim(s: string): (r: string)
    ensures IsTrimmed(r)
  {
    TrimEnd(TrimStart(s))
  }

  /** `trim` gives the empty string exactly on white space. */
  lemma {:induction false} TrimEmpty(s: string)
    ensures Trim(s) == [] <==> AllWhite(s)
  {
    var u := TrimStart(s);
    TrimStartWhite(s);
    assert TrimEnd(u) == [] ==> u == [];
  }

  predicate AllWhite(s: string)
  {
    forall i :: 0 <= i < |s| ==> IsWhite(s[i])
  }

  lemma {:induction false} TrimStartSkip(w: string, x: string)
    requires AllWhite(w)
    ensures TrimStart(w + x) == TrimStart(x)
  {
    if w != [] {
      assert (w + x)[0] == w[0] && (w + x)[1..] == w[1..] + x;
      assert AllWhite(w[1..]) by {
        assert forall i :: 0 <= i < |w| - 1 ==> w[1..][i] == w[i + 1];
      }
      TrimStartSkip(w[1..], x);
    } else {
      assert w + x == x;
    }
  }

  lemma {:induction false} TrimStartAppend(x: string, y: string)
    requires TrimStart(x) != []
    ensures TrimStart(x + y) == TrimStart(x) + y
  {
    var xy := x + y;
    assert x != [] && xy[0] == x[0];
    if IsWhite(x[0]) {
      var t := x[1..];
      assert xy[1..] == t + y;
      TrimStartAppend(t, y);
    } else {
      assert TrimStart(xy) == xy;
    }
  }

  lemma {:induction false} TrimEndSkip(x: string, w: string)
    requires AllWhite(w)
    ensures TrimEnd(x + w) == TrimEnd(x)
  {
    if w != [] {
      var w0 := w[..|w| - 1];
      assert (x + w)[..|x + w| - 1] == x + w0 && (x + w)[|x + w| - 1] == w[|w| - 1];
      assert AllWhite(w0) by {
        assert forall i :: 0 <= i < |w0| ==> w0[i] == w[i];
      }
      TrimEndSkip(x, w0);
    } else {
      assert x + w == x;
    }
  }

  /** White space added around a string is removed by `trim`. */
  lemma {:induction false} TrimPadded(pad1: string, line: string, pad2: string)
    requires AllWhite(pad1) && AllWhite(pad2)
    ensures Trim(pad1 + line + pad2) == Trim(line)
  {
    assert pad1 + line + pad2 == pad1 + (line + pad2);
    TrimStartSkip(pad1, line + pad2);
    if TrimStart(line) == [] {
      TrimStartWhite(line);
      TrimStartSkip(line, pad2);
      TrimStartSkip(pad2, []);
      assert pad2 + [] == pad2;
    } else {
      TrimStartAppend(line, pad2);
      TrimEndSkip(TrimStart(line), pad2);
    }
  }

  /** A string that `trim` leaves unchanged. */
  predicate IsTrimmed(s: string)
  {
    s == [] || (!IsWhite(s[0]) && !IsWhite(s[|s| - 1]))
  }

  lemma {:induction false} TrimOfTrimmed(s: string)
    requires IsTrimmed(s)
    ensures Trim(s) == s
  {
    if s != [] {
      assert TrimStart(s) == s;
      assert TrimEnd(s) == s;
    }
  }

  /** `parts.join(sep)`. */
  function Join(parts: seq<string>, sep: string): (r: string)
    ensures |parts| == 1 ==> r == parts[0]
  {
    if |parts| == 0 then ""
    else if |parts| == 1 then parts[0]
    else parts[0] + sep + Join(parts[1..], sep)
  }

  lemma {:induction false} JoinCons(x: string, rest: seq<string>, sep: string)
    requires rest != []
    ensures Join([x] + rest, sep) == x + sep + Join(rest, sep)
  {
    assert ([x] + rest)[1..] == rest;
  }

  /** Prepending a character to the first part prepends it to the joined string. */
  lemma {:induction false} JoinPrepend(c: char, parts: seq<string>, sep: string)
    requires parts != []
    ensures Join([[c] + parts[0]] + parts[1..], sep) == [c] + Join(parts, sep)
  {
    if |parts| > 1 {
      JoinCons(parts[0], parts[1..], sep);
      JoinCons([c] + parts[0], parts[1..], sep);
    }
  }

  /** `s.split(sep)` for a one-character separator: the pieces between separators. */
  function Split(s: string, sep: char): (r: seq<string>)
    ensures |r| == 1 + multiset(s)[sep]
    ensures forall k :: 0 <= k < |r| ==> sep !in r[k]
    ensures Join(r, [sep]) == s
  {
    if s == [] then [""]
    else
      var rest := Split(s[1..], sep);
      SplitCons(s, sep, rest);
      if s[0] == sep then [""] + rest else [[s[0]] + rest[0]] + rest[1..]
  }

  /** One more character in front of a split string: a new empty piece, or a longer first piece. */
  lemma {:induction false} SplitCons(s: string, sep: char, rest: seq<string>)
    requires s != []
    requires |rest| == 1 + multiset(s[1..])[sep]
    requires forall k :: 0 <= k < |rest| ==> sep !in rest[k]
    requires Join(rest, [sep]) == s[1..]
    ensures var r := if s[0] == sep then [""] + rest else [[s[0]] + rest[0]] + rest[1..];
      |r| == 1 + multiset(s)[sep]
      && (forall k :: 0 <= k < |r| ==> sep !in r[k])
      && Join(r, [sep]) == s
  {
    assert s == [s[0]] + s[1..];
    assert multiset(s) == multiset{s[0]} + multiset(s[1..]);
    if s[0] == sep {
      SplitAtSeparator(s[1..], sep, rest);
    } else {
      SplitBeforeSeparator(s[0], s[1..], sep, rest);
    }
  }

  lemma {:induction false} SplitAtSeparator(t: string, sep: char, rest: seq<string>)
    requires rest != [] && Join(rest, [sep]) == t
    requires forall k :: 0 <= k < |rest| ==> sep !in rest[k]
    ensures var r := [""] + rest;
      (forall k :: 0 <= k < |r| ==> sep !in r[k]) && Join(r, [sep]) == [sep] + t
  {
    JoinCons("", rest, [sep]);
    var r := [""] + rest;
    forall k | 0 <= k < |r|
      ensures sep !in r[k]
    {
      if k > 0 {
        assert r[k] == rest[k - 1];
      }
    }
  }

  lemma {:induction false} SplitBeforeSeparator(c: char, t: string, sep: char, rest: seq<string>)
    requires c != sep && rest != [] && Join(rest, [sep]) == t
    requires forall k :: 0 <= k < |rest| ==> sep !in rest[k]
    ensures var r := [[c] + rest[0]] + rest[1..];
      (forall k :: 0 <= k < |r| ==> sep !in r[k]) && Join(r, [sep]) == [c] + t
  {
    JoinPrepend(c, rest, [sep]);
    var r := [[c] + rest[0]] + rest[1..];
    forall k | 0 <= k < |r|
      ensures sep !in r[k]
    {
      if k > 0 {
        assert r[k] == rest[k];
      }
    }
  }

  /** Every occurrence of `c` replaced by `by`: a global replace of a one-character pattern. */
  function ReplaceAll(s: string, c: char, rep: string): (r: string)
    ensures c !in rep ==> c !in r
    ensures forall x :: x != c && x !in rep ==> (x in r <==> x in s)
  {
    if s == [] then ""
    else (if s[0] == c then rep else [s[0]]) + ReplaceAll(s[1..], c, rep)
  }

  lemma {:induction false} ReplaceAllConcat(a: string, b: string, c: char, rep: string)
    ensures ReplaceAll(a + b, c, rep) == ReplaceAll(a, c, rep) + ReplaceAll(b, c, rep)
  {
    if a == [] {
      assert a + b == b;
    } else {
      var h := if a[0] == c then rep else [a[0]];
      assert (a + b)[0] == a[0] && (a + b)[1..] == a[1..] + b;
      ReplaceAllConcat(a[1..], b, c, rep);
      calc {
        ReplaceAll(a + b, c, rep);
        h + ReplaceAll(a[1..] + b, c, rep);
        h + (ReplaceAll(a[1..], c, rep) + ReplaceAll(b, c, rep));
        (h + ReplaceAll(a[1..], c, rep)) + ReplaceAll(b, c, rep);
      }
    }
  }

  /** `String.prototype.replace` with a one-character string pattern: only the first occurrence. */
  function ReplaceFirstChar(s: string, c: char): (r: string)
    ensures c in s ==> |r| == |s| - 1 && multiset(r) == multiset(s) - multiset{c}
    ensures c !in s ==> r == s
  {
    if s == [] then ""
    else if s[0] == c then
      assert s == [s[0]] + s[1..];
      s[1..]
    else
      assert s == [s[0]] + s[1..];
      [s[0]] + ReplaceFirstChar(s[1..], c)
  }

  /** `s.substr(start, length)` for non-negative arguments. */
  function Substr(s: string, start: nat, length: nat): (r: string)
    ensures start + length <= |s| ==> r == s[start..start + length]
    ensures |r| <= length
  {
    var a := if start < |s| then start else |s|;
    var b := if a + length < |s| then a + length else |s|;
    s[a..b]
  }

  /** `str.repeat(n)`. */
  function Repeat(s: string, n: nat): (r: string)
    ensures |r| == n * |s|
  {
    if n == 0 then "" else s + Repeat(s, n - 1)
  }

  /** `k` copies of the character `c`. */
  function Fill(k: nat, c: char): (r: string)
    ensures |r| == k && forall i :: 0 <= i < k ==> r[i] == c
  {
    seq(k, _ => c)
  }

  /** `s.padStart(n, fill)` for a one-character fill. */
  function PadStart(s: string, n: nat, fill: char): (r: string)
    ensures |s| >= n ==> r == s
    ensures |s| < n ==> |r| == n && r[n - |s|..] == s && forall i :: 0 <= i < n - |s| ==> r[i] == fill
  {
    if |s| >= n then s else Fill(n - |s|, fill) + s
  }

  /** Padding a string no longer than `n` puts the fill in front of it. */
  lemma {:induction false} PadStartFill(s: string, n: nat, fill: char)
    requires |s| <= n
    ensures PadStart(s, n, fill) == Fill(n - |s|, fill) + s
  {
    if |s| == n {
      assert Fill(0, fill) + s == s;
    }
  }
}
