/**
 * The inline-markup resolver behind `parseMarkdown` and `parseMarkdownForBubble`.
 *
 * The source escapes the text, then runs one global regular-expression replace per
 * markup form. Each match becomes a placeholder string (`__BOLD_0__`, …), and its HTML
 * is pushed onto a side table. A final loop puts every placeholder's HTML back, in
 * the order the placeholders were made.
 *
 * The working string is a sequence of pieces: a character of the user's (escaped)
 * text, a character of template markup, or a placeholder. A placeholder is one piece
 * rather than its ten or so characters. `Render` spells it out only where one is
 * left over in the output.
 */
module Markdown {
  import opened Wrappers
  import opened JsString
  import opened JsNumber
  import opened Escape
  import opened Config

  datatype Kind = Bold | Italic | Dialogue | DialogueKr

  datatype Piece = Text(c: char) | Markup(m: char) | Token(kind: Kind, id: nat)

  /** One entry of the `placeholders` table: the placeholder's kind and the HTML it stands for. */
  datatype Entry = Entry(kind: Kind, html: seq<Piece>)

  /** The working string and the table after some passes. */
  datatype Stash = Stash(result: seq<Piece>, placeholders: seq<Entry>)

  /**
   * The four patterns: `\*\*(.+?)\*\*` is `DoubleStar`; `\*([^*]+?)\*`, `"([^"]+)"` and
   * `“([^”]+)”` are `Between` an opening and a closing character.
   */
  datatype Pattern = DoubleStar | Between(open: char, close: char)

  /** One replace pass: what it matches, the HTML around the content, and whether the
   *  content has earlier placeholders put back before it is stored. */
  datatype Rule = Rule(kind: Kind, pattern: Pattern, pre: string, post: string, nested: bool)

  function Texts(s: string): (p: seq<Piece>)
    ensures |p| == |s|
  {
    seq(|s|, i requires 0 <= i < |s| => Text(s[i]))
  }

  function Markups(s: string): (p: seq<Piece>)
    ensures |p| == |s|
  {
    seq(|s|, i requires 0 <= i < |s| => Markup(s[i]))
  }

  function Label(k: Kind): string
  {
    match k
    case Bold => "BOLD"
    case Italic => "ITALIC"
    case Dialogue => "DIALOGUE"
    case DialogueKr => "DIALOGUE_KR"
  }

  /** The placeholder string the source writes, e.g. `__BOLD_0__`. */
  function TokenName(k: Kind, id: nat): string
  {
    "__" + Label(k) + "_" + NatToString(id) + "__"
  }

  function RenderPiece(x: Piece): string
  {
    match x
    case Text(c) => [c]
    case Markup(m) => [m]
    case Token(k, id) => TokenName(k, id)
  }

  /** The string a sequence of pieces stands for. */
  function Render(p: seq<Piece>): string
  {
    if p == [] then "" else RenderPiece(p[0]) + Render(p[1..])
  }

  // ---------------------------------------------------------------- matching

  /** `.` in a pattern without the `s` flag: anything but a line terminator. A
   *  placeholder's characters are letters, digits and `_`. */
  predicate Dot(x: Piece)
  {
    !(x.Text? && IsLineTerminator(x.c))
  }

  predicate StarsAt(s: seq<Piece>, j: int)
  {
    0 <= j && j + 1 < |s| && s[j] == Text('*') && s[j + 1] == Text('*')
  }

  /**
   * The lazy `(.+?)\*\*` from position `j` on: the first `**` at or after `j`, provided
   * every piece passed over on the way is a `.`.
   */
  function CloseStars(s: seq<Piece>, j: nat): (r: Option<nat>)
    requires j <= |s|
    ensures r.Some? ==> j <= r.value && StarsAt(s, r.value)
    ensures r.Some? ==> forall k :: j <= k < r.value ==> Dot(s[k]) && !StarsAt(s, k)
    decreases |s| - j
  {
    if j + 1 >= |s| then None
    else if StarsAt(s, j) then Some(j)
    else if !Dot(s[j]) then None
    else CloseStars(s, j + 1)
  }

  /** The first `c` at or after `j`. */
  function FindClose(s: seq<Piece>, c: char, j: nat): (r: Option<nat>)
    requires j <= |s|
    ensures r.Some? ==> j <= r.value < |s| && s[r.value] == Text(c)
    ensures r.Some? ==> forall k :: j <= k < r.value ==> s[k] != Text(c)
    ensures r.None? ==> forall k :: j <= k < |s| ==> s[k] != Text(c)
    decreases |s| - j
  {
    if j == |s| then None
    else if s[j] == Text(c) then Some(j)
    else FindClose(s, c, j + 1)
  }

  /** A match at the start of `s`: the content is `s[from..to]` and the whole match `s[..end]`. */
  datatype Span = Span(from: nat, to: nat, end: nat)

  /** Whether the pattern matches at the start of `s`, and where. */
  function MatchAt(s: seq<Piece>, p: Pattern): (m: Option<Span>)
    ensures m.Some? ==> 1 <= m.value.from < m.value.to < m.value.end <= |s|
    ensures m.Some? && p.DoubleStar? ==>
      m.value == Span(2, m.value.to, m.value.to + 2) && StarsAt(s, 0) && StarsAt(s, m.value.to)
      && (forall k :: 2 <= k < m.value.to ==> Dot(s[k]))
      && forall k :: 3 <= k < m.value.to ==> !StarsAt(s, k)
    ensures m.Some? && p.Between? ==>
      m.value == Span(1, m.value.to, m.value.to + 1) && s[0] == Text(p.open)
      && s[m.value.to] == Text(p.close) && forall k :: 1 <= k < m.value.to ==> s[k] != Text(p.close)
  {
    match p
    case DoubleStar =>
      if |s| >= 3 && StarsAt(s, 0) && Dot(s[2]) then
        match CloseStars(s, 3)
        case Some(j) => Some(Span(2, j, j + 2))
        case None => None
      else None
    case Between(o, c) =>
      if s != [] && s[0] == Text(o) then
        match FindClose(s, c, 1)
        case Some(j) => if j >= 2 then Some(Span(1, j, j + 1)) else None
        case None => None
      else None
  }

  /** The character a match must start with. */
  function Opening(p: Pattern): char
  {
    match p
    case DoubleStar => '*'
    case Between(o, _) => o
  }

  /** Nothing matches where the opening character is not. */
  lemma {:induction false} NoMatchWithoutOpening(s: seq<Piece>, p: Pattern)
    requires s != [] && s[0] != Text(Opening(p))
    ensures MatchAt(s, p).None?
  {
  }

  // ---------------------------------------------------------------- restoring

  /** `str.replace(placeholder, html)` with a string pattern: the first occurrence only. */
  function ReplaceFirst(s: seq<Piece>, x: Piece, rep: seq<Piece>): (r: seq<Piece>)
    ensures x !in s ==> r == s
  {
    if s == [] then []
    else if s[0] == x then rep + s[1..]
    else [s[0]] + ReplaceFirst(s[1..], x, rep)
  }

  /** The `placeholders.forEach(p => str = str.replace(p.placeholder, p.html))` loop, from entry `k` on. */
  function RestoreFrom(s: seq<Piece>, t: seq<Entry>, k: nat): seq<Piece>
    requires k <= |t|
    decreases |t| - k
  {
    if k == |t| then s
    else RestoreFrom(ReplaceFirst(s, Token(t[k].kind, k), t[k].html), t, k + 1)
  }

  function RestoreAll(s: seq<Piece>, t: seq<Entry>): seq<Piece>
  {
    RestoreFrom(s, t, 0)
  }

  /** The restoring loop. */
  method Restore(result0: seq<Piece>, placeholders: seq<Entry>) returns (result: seq<Piece>)
    ensures result == RestoreAll(result0, placeholders)
  {
    result := result0;
    for k := 0 to |placeholders|
      invariant RestoreFrom(result, placeholders, k) == RestoreAll(result0, placeholders)
    {
      var p := placeholders[k];
      result := ReplaceFirst(result, Token(p.kind, k), p.html);
    }
  }

  // ---------------------------------------------------------------- passes

  /**
   * One global replace: left to right, each match becomes a fresh placeholder whose
   * number is the table's length, and its HTML is appended to the table. A nested rule
   * first puts the placeholders already in the table back into the content. Scanning
   * resumes after the match; where nothing matches, one piece is copied.
   */
  function Scan(s: seq<Piece>, rule: Rule, t: seq<Entry>): (r: Stash)
    ensures |r.placeholders| >= |t| && r.placeholders[..|t|] == t
    ensures forall k :: |t| <= k < |r.placeholders| ==> r.placeholders[k].kind == rule.kind
    decreases |s|
  {
    if s == [] then Stash([], t)
    else
      match MatchAt(s, rule.pattern)
      case Some(m) =>
        var content := s[m.from..m.to];
        var inner := if rule.nested then RestoreAll(content, t) else content;
        var e := Entry(rule.kind, Markups(rule.pre) + inner + Markups(rule.post));
        var rest := Scan(s[m.end..], rule, t + [e]);
        assert rest.placeholders[..|t|] == (t + [e])[..|t|];
        Stash([Token(rule.kind, |t|)] + rest.result, rest.placeholders)
      case None =>
        var rest := Scan(s[1..], rule, t);
        Stash([s[0]] + rest.result, rest.placeholders)
  }

  /** The passes in order, each on the previous pass's result. */
  function Passes(st: Stash, rules: seq<Rule>): Stash
    decreases |rules|
  {
    if rules == [] then st
    else Passes(Scan(st.result, rules[0], st.placeholders), rules[1..])
  }

  /** Escape, run the passes, restore: the pieces the resolver returns. */
  function Resolve(text: string, rules: seq<Rule>): seq<Piece>
  {
    var st := Passes(Stash(Texts(EscapeHtml(text)), []), rules);
    RestoreAll(st.result, st.placeholders)
  }

  // ---------------------------------------------------------------- the two resolvers

  function BoldOpen(st: Settings): string
  {
    "<strong style=\"font-weight: bold; color: " + st.boldColor + ";\">"
  }

  function ItalicOpen(st: Settings): string
  {
    "<em style=\"font-style: italic; color: " + st.italicColor + ";\">"
  }

  function DialogueStyle(st: Settings): string
  {
    "color: " + st.dialogueColor + "; background: " + st.dialogueBgColor
    + "; padding: 0.1em 0.4em; border-radius: 4px;"
  }

  /** The opening of a dialogue span, up to and including its opening quote. */
  function SpanOpen(st: Settings, quote: char): string
  {
    "<span style=\"" + DialogueStyle(st) + "\">" + [quote]
  }

  /**
   * The passes of `parseMarkdown`. As written the italic pass stores its content as it
   * is (`italicNested == false`); the corrected form restores earlier placeholders in it
   * first, as the two quote passes do.
   */
  function MarkdownRules(st: Settings, italicNested: bool): seq<Rule>
  {
    [ Rule(Bold, DoubleStar, BoldOpen(st), "</strong>", false),
      Rule(Italic, Between('*', '*'), ItalicOpen(st), "</em>", italicNested),
      Rule(Dialogue, Between('"', '"'), SpanOpen(st, '"'), "\"</span>", true),
      Rule(DialogueKr, Between('\U{201C}', '\U{201D}'), SpanOpen(st, '\U{201C}'), "\U{201D}</span>", true) ]
  }

  const BubbleBoldOpen: string := "<strong style=\"font-weight: bold;\">"
  const BubbleItalicOpen: string := "<em style=\"font-style: italic;\">"

  /** The passes of `parseMarkdownForBubble`: bold and italic only, without colours. */
  function BubbleRules(italicNested: bool): seq<Rule>
  {
    [ Rule(Bold, DoubleStar, BubbleBoldOpen, "</strong>", false),
      Rule(Italic, Between('*', '*'), BubbleItalicOpen, "</em>", italicNested) ]
  }

  /** `parseMarkdown(text)` as written; the renderer uses this one. */
  function MarkdownHtml(text: string, st: Settings): string
  {
    Render(Resolve(text, MarkdownRules(st, false)))
  }

  /** `parseMarkdownForBubble(text)` as written. */
  function BubbleHtml(text: string): string
  {
    Render(Resolve(text, BubbleRules(false)))
  }

  /** `parseMarkdown(text)` with the italic content restored before it is stored. */
  function MarkdownHtmlCorrected(text: string, st: Settings): string
  {
    Render(Resolve(text, MarkdownRules(st, true)))
  }

  /** `parseMarkdownForBubble(text)` with the same correction. */
  function BubbleHtmlCorrected(text: string): string
  {
    Render(Resolve(text, BubbleRules(true)))
  }

  /** `parseMarkdown`: escape, four passes, then the restoring loop. */
  method ParseMarkdown(text: string, st: Settings) returns (html: string)
    ensures html == MarkdownHtml(text, st)
  {
    var rules := MarkdownRules(st, false);
    var s0 := Stash(Texts(EscapeHtml(text)), []);
    var s1 := Scan(s0.result, rules[0], s0.placeholders);
    var s2 := Scan(s1.result, rules[1], s1.placeholders);
    var s3 := Scan(s2.result, rules[2], s2.placeholders);
    var s4 := Scan(s3.result, rules[3], s3.placeholders);
    var r1 := rules[1..];
    var r2 := r1[1..];
    var r3 := r2[1..];
    assert r1[0] == rules[1] && r2[0] == rules[2] && r3[0] == rules[3] && r3[1..] == [];
    assert Passes(s3, r3) == s4;
    assert Passes(s2, r2) == s4;
    assert Passes(s1, r1) == s4;
    var result := Restore(s4.result, s4.placeholders);
    html := Render(result);
  }

  /** `parseMarkdownForBubble`: escape, the bold and italic passes, then the restoring loop. */
  method ParseMarkdownForBubble(text: string) returns (html: string)
    ensures html == BubbleHtml(text)
  {
    var rules := BubbleRules(false);
    var s0 := Stash(Texts(EscapeHtml(text)), []);
    var s1 := Scan(s0.result, rules[0], s0.placeholders);
    var s2 := Scan(s1.result, rules[1], s1.placeholders);
    var r1 := rules[1..];
    assert r1[0] == rules[1] && r1[1..] == [];
    assert Passes(s1, r1) == s2;
    var result := Restore(s2.result, s2.placeholders);
    html := Render(result);
  }
}
