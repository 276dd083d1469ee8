/**
 * `formatHTML`: the pretty-printer of the code view. Every `><` is broken into two
 * lines, each line is trimmed and indented by two spaces per open element, with an
 * indent counter that a closing-tag line lowers before it is written and an opening-tag
 * line raises after it is written. The counter may go below zero; the indentation then
 * stays at zero.
 */
module FormatHtml {
  import opened JsString

  /** `html.replace(/></g, '>\n<')`: matches are found left to right and do not overlap. */
  function BreakTags(s: string): (r: string)
    ensures s != [] ==> r != [] && r[0] == s[0]
  {
    if |s| >= 2 && s[0] == '>' && s[1] == '<' then ">\n<" + BreakTags(s[2..])
    else if s == [] then ""
    else [s[0]] + BreakTags(s[1..])
  }

  /** Whether a `>` directly followed by `<` starts at position `i`. */
  predicate TagPairAt(s: string, i: int)
  {
    0 <= i && i + 1 < |s| && s[i] == '>' && s[i + 1] == '<'
  }

  /** Reference definition: every character is kept, and a line break follows each `>` of a `><`. */
  function Broken(s: string): string
  {
    if s == [] then "" else [s[0]] + (if TagPairAt(s, 0) then "\n" else "") + Broken(s[1..])
  }

  /** The number of `><` pairs. */
  function Pairs(s: string): nat
  {
    if s == [] then 0 else (if TagPairAt(s, 0) then 1 else 0) + Pairs(s[1..])
  }

  /** The global replace equals the character-by-character reference: two `><` never overlap. */
  lemma {:induction false} BreakTagsCharwise(s: string)
    ensures BreakTags(s) == Broken(s)
    decreases |s|
  {
    if TagPairAt(s, 0) {
      var t := s[1..];
      assert !TagPairAt(t, 0);
      assert t[1..] == s[2..];
      assert Broken(t) == "<" + Broken(s[2..]);
      BreakTagsCharwise(s[2..]);
      assert Broken(s) == ">" + "\n" + ("<" + Broken(s[2..]));
    } else if s != [] {
      BreakTagsCharwise(s[1..]);
    }
  }

  /** The replace adds exactly one character per `><` pair. */
  lemma {:induction false} BreakTagsLength(s: string)
    ensures |BreakTags(s)| == |s| + Pairs(s)
  {
    BreakTagsCharwise(s);
    BrokenLength(s);
  }

  lemma {:induction false} BrokenLength(s: string)
    ensures |Broken(s)| == |s| + Pairs(s)
  {
    if s != [] {
      BrokenLength(s[1..]);
    }
  }

  /** `t` with every line break removed. */
  function DropBreaks(t: string): string
  {
    if t == [] then "" else (if t[0] == '\n' then "" else [t[0]]) + DropBreaks(t[1..])
  }

  lemma {:induction false} DropBreaksConcat(a: string, b: string)
    ensures DropBreaks(a + b) == DropBreaks(a) + DropBreaks(b)
  {
    if a != [] {
      assert (a + b)[1..] == a[1..] + b;
      DropBreaksConcat(a[1..], b);
    } else {
      assert a + b == b;
    }
  }

  /** No `>` is directly followed by `<` any more. */
  predicate NoAdjacentTags(t: string)
  {
    forall i :: 0 <= i < |t| - 1 ==> !(t[i] == '>' && t[i + 1] == '<')
  }

  /** Breaking only inserts line breaks, and it leaves no `><` behind. */
  lemma {:induction false} BreakTagsSplits(s: string)
    ensures NoAdjacentTags(BreakTags(s))
    ensures DropBreaks(BreakTags(s)) == DropBreaks(s)
  {
    var r := BreakTags(s);
    if |s| >= 2 && s[0] == '>' && s[1] == '<' {
      var rest := BreakTags(s[2..]);
      BreakTagsSplits(s[2..]);
      assert r == ">\n<" + rest;
      forall i | 0 <= i < |r| - 1
        ensures !(r[i] == '>' && r[i + 1] == '<')
      {
        if i >= 3 {
          assert r[i] == rest[i - 3] && r[i + 1] == rest[i - 2];
        }
      }
      DropBreaksConcat(">\n<", rest);
      assert s == "><" + s[2..];
      DropBreaksConcat("><", s[2..]);
      assert DropBreaks(">\n<") == "><" == DropBreaks("><");
    } else if s != [] {
      var rest := BreakTags(s[1..]);
      BreakTagsSplits(s[1..]);
      assert r == [s[0]] + rest;
      forall i | 0 <= i < |r| - 1
        ensures !(r[i] == '>' && r[i + 1] == '<')
      {
        if i >= 1 {
          assert r[i] == rest[i - 1] && r[i + 1] == rest[i];
        } else {
          assert r[1] == rest[0] == s[1];
        }
      }
      DropBreaksConcat([s[0]], rest);
      assert s == [s[0]] + s[1..];
      DropBreaksConcat([s[0]], s[1..]);
    }
  }

  /** `.` in a regular expression without the `s` flag: anything but a line terminator. */
  predicate NoTerminator(t: string)
  {
    forall i :: 0 <= i < |t| ==> !IsLineTerminator(t[i])
  }

  /** `line.match(/^<\/(.*?)>$/)`: a closing tag on a line of its own. */
  predicate IsClosing(line: string)
  {
    |line| >= 3 && line[0] == '<' && line[1] == '/' && line[|line| - 1] == '>'
    && NoTerminator(line[2..|line| - 1])
  }

  /** `line.match(/^<[^/].*[^/]>$/)`: a line that is one tag, or starts and ends with tags. */
  predicate IsOpening(line: string)
  {
    |line| >= 4 && line[0] == '<' && line[1] != '/' && line[|line| - 2] != '/' && line[|line| - 1] == '>'
    && NoTerminator(line[2..|line| - 2])
  }

  /** The case folding of the `i` flag on the letters that matter here. */
  function Lower(c: char): char
  {
    if 'A' <= c <= 'Z' then (c as int + 32) as char else c
  }

  predicate StartsWithFolded(s: string, word: string)
  {
    |word| <= |s| && forall i :: 0 <= i < |word| ==> Lower(s[i]) == word[i]
  }

  /** `line.match(/^<(br|hr|img|input)/i)`: the elements that never have content. */
  predicate IsVoidStart(line: string)
  {
    line != [] && line[0] == '<'
    && (StartsWithFolded(line[1..], "br") || StartsWithFolded(line[1..], "hr")
        || StartsWithFolded(line[1..], "img") || StartsWithFolded(line[1..], "input"))
  }

  /** The counter as the trimmed line is written: one lower on a closing tag. */
  function IndentOf(indent: int, line: string): int
  {
    if IsClosing(line) then indent - 1 else indent
  }

  /** The counter after the trimmed line: one higher after an opening tag that can have content. */
  function IndentAfter(indent: int, line: string): int
  {
    IndentOf(indent, line) + (if IsOpening(line) && !IsVoidStart(line) then 1 else 0)
  }

  /** `Math.max(0, indent)`. */
  function Depth(indent: int): nat
  {
    if indent > 0 then indent else 0
  }

  const Tab: string := "  "

  /** `line.trim()` on every line. */
  function TrimAll(lines: seq<string>): (r: seq<string>)
    ensures |r| == |lines|
  {
    seq(|lines|, k requires 0 <= k < |lines| => Trim(lines[k]))
  }

  /** The lines written for the trimmed `lines` when the counter starts at `indent`. */
  function FormatLines(lines: seq<string>, indent: int): (r: seq<string>)
    ensures |r| == |lines|
  {
    if lines == [] then []
    else
      [Repeat(Tab, Depth(IndentOf(indent, lines[0]))) + lines[0]]
      + FormatLines(lines[1..], IndentAfter(indent, lines[0]))
  }

  /** The whole result of `formatHTML(html)`. */
  function Formatted(html: string): string
  {
    Join(FormatLines(TrimAll(Split(BreakTags(html), '\n')), 0), "\n")
  }

  /** The counter as it stands when line `k` of the trimmed `lines` is reached. */
  function IndentAt(lines: seq<string>, indent: int, k: nat): int
    requires k <= |lines|
  {
    if k == 0 then indent else IndentAt(lines[1..], IndentAfter(indent, lines[0]), k - 1)
  }

  /** The counter moves from one line to the next as `IndentAfter` says. */
  lemma {:induction false} IndentAtNext(lines: seq<string>, indent: int, k: nat)
    requires k < |lines|
    ensures IndentAt(lines, indent, k + 1) == IndentAfter(IndentAt(lines, indent, k), lines[k])
  {
    if k > 0 {
      IndentAtNext(lines[1..], IndentAfter(indent, lines[0]), k - 1);
      assert lines[1..][k - 1] == lines[k];
    }
  }

  /**
   * Line `k` is its trimmed input line behind two spaces per level of the counter reached
   * there, lowered first when the line is a closing tag.
   */
  lemma {:induction false} LineAt(lines: seq<string>, indent: int, k: nat)
    requires k < |lines|
    ensures FormatLines(lines, indent)[k]
            == Repeat(Tab, Depth(IndentOf(IndentAt(lines, indent, k), lines[k]))) + lines[k]
  {
    if k > 0 {
      LineAt(lines[1..], IndentAfter(indent, lines[0]), k - 1);
      assert lines[1..][k - 1] == lines[k];
    }
  }

  /** The spaces in front of a line are white, so trimming a written line gives back its text. */
  lemma {:induction false} TabsWhite(d: nat)
    ensures AllWhite(Repeat(Tab, d))
  {
    if d > 0 {
      TabsWhite(d - 1);
      var r := Repeat(Tab, d);
      assert r == Tab + Repeat(Tab, d - 1);
      forall i | 0 <= i < |r|
        ensures IsWhite(r[i])
      {
        if i >= 2 {
          assert r[i] == Repeat(Tab, d - 1)[i - 2];
        }
      }
    }
  }

  /** Indenting a line does not change what trimming it gives. */
  lemma {:induction false} TrimIndented(d: nat, t: string)
    ensures Trim(Repeat(Tab, d) + t) == Trim(t)
  {
    TabsWhite(d);
    TrimPadded(Repeat(Tab, d), t, "");
    assert Repeat(Tab, d) + t + "" == Repeat(Tab, d) + t;
  }

  /** Trimming a written line gives back its trimmed input line: the content is kept. */
  lemma {:induction false} WrittenLineTrims(lines: seq<string>, indent: int, k: nat)
    requires k < |lines|
    ensures Trim(FormatLines(TrimAll(lines), indent)[k]) == Trim(lines[k])
  {
    var t := TrimAll(lines);
    LineAt(t, indent, k);
    TrimIndented(Depth(IndentOf(IndentAt(t, indent, k), t[k])), t[k]);
    TrimOfTrimmed(t[k]);
  }

  /**
   * A line after an element that can have content is one step further in, and a closing
   * tag right after it is back at the opening tag's depth.
   */
  lemma {:induction false} ChildIndent(indent: int, open: string, next: string)
    requires IsOpening(open) && !IsVoidStart(open) && IndentOf(indent, open) >= 0
    ensures !IsClosing(next) ==> IndentOf(IndentAfter(indent, open), next) == IndentOf(indent, open) + 1
    ensures IsClosing(next) ==> IndentOf(IndentAfter(indent, open), next) == IndentOf(indent, open)
  {
  }

  /** A line that is no tag at all leaves the counter as it was. */
  lemma {:induction false} TextKeepsIndent(indent: int, line: string)
    requires line == [] || line[0] != '<'
    ensures IndentOf(indent, line) == indent && IndentAfter(indent, line) == indent
  {
  }

  /**
   * An element opened and closed on one line still matches the opening pattern, so the
   * lines after it are written one step further in.
   */
  lemma {:induction false} OneLineElementRaises(indent: int)
    ensures IndentOf(indent, "<p>x</p>") == indent
    ensures IndentAfter(indent, "<p>x</p>") == indent + 1
  {
    var line := "<p>x</p>";
    assert line[1] == 'p' && line[6] == 'p';
    assert !IsClosing(line);
    assert NoTerminator(line[2..6]);
    assert IsOpening(line);
    assert !StartsWithFolded(line[1..], "br") && !StartsWithFolded(line[1..], "hr");
    assert !StartsWithFolded(line[1..], "img") && !StartsWithFolded(line[1..], "input");
  }

  /** The `map` callback over all lines: each line is trimmed and written, then the counter moves on. */
  method FormatEach(lines: seq<string>) returns (written: seq<string>)
    ensures written == FormatLines(TrimAll(lines), 0)
  {
    ghost var trimmed := TrimAll(lines);
    var indent := 0;
    written := [];
    var i := 0;
    assert trimmed[0..] == trimmed;
    while i < |lines|
      invariant 0 <= i <= |lines|
      invariant FormatLines(trimmed, 0) == written + FormatLines(trimmed[i..], indent)
    {
      var line := TrimLine(lines, i);
      var result, next := WriteLine(indent, line);
      Snoc(written, trimmed[i..], indent);
      assert trimmed[i..][1..] == trimmed[i + 1..];
      written := written + [result];
      indent := next;
      i := i + 1;
    }
    assert trimmed[i..] == [];
  }

  /** `line.trim()` for line `i`. */
  method TrimLine(lines: seq<string>, i: nat) returns (line: string)
    requires i < |lines|
    ensures line == TrimAll(lines)[i]
  {
    line := Trim(lines[i]);
  }

  /** The body of the callback for one trimmed line: the line as written and the new counter. */
  method WriteLine(indent: int, line: string) returns (result: string, next: int)
    ensures result == Repeat(Tab, Depth(IndentOf(indent, line))) + line
    ensures next == IndentAfter(indent, line)
  {
    next := indent;
    if IsClosing(line) {
      next := next - 1;
    }
    result := Repeat(Tab, Depth(next)) + line;
    if IsOpening(line) && !IsVoidStart(line) {
      next := next + 1;
    }
  }

  /** One step of the loop in `FormatEach`: the first line joins what is written. */
  lemma {:induction false} Snoc(written: seq<string>, rest: seq<string>, indent: int)
    requires rest != []
    ensures written + FormatLines(rest, indent)
            == (written + [Repeat(Tab, Depth(IndentOf(indent, rest[0]))) + rest[0]])
               + FormatLines(rest[1..], IndentAfter(indent, rest[0]))
  {
  }

  /** `formatHTML(html)`: break the tags apart, write every line, join them again. */
  method Format(html: string) returns (formatted: string)
    ensures formatted == Formatted(html)
  {
    var lines := Split(BreakTags(html), '\n');
    var written := FormatEach(lines);
    formatted := Join(written, "\n");
  }
}
