/**
 * Whole-line cases of the resolver: a bold span, a quoted span, and the
 * leftover-placeholder defect of the italic pass on the line `*a**b**c*`.
 *
 * The bold pass turns `**b**` into a placeholder. As written, the italic pass then stores
 * `a`, that placeholder and `c` as its HTML without putting the bold HTML back, and the
 * restoring loop has already passed the bold entry when the italic HTML is put in: the
 * literal `__BOLD_0__` reaches the page. With the italic content restored first, the
 * bold HTML sits inside the italic HTML.
 */
module MarkdownCases {
  import opened Wrappers
  import opened JsString
  import opened JsNumber
  import opened Escape
  import opened Config
  import opened Markdown
  import opened MarkdownProps

  const NestedLine: string := "*a**b**c*"

  function BoldEntry(bp: string, bq: string): Entry
  {
    Entry(Bold, Markups(bp) + [Text('b')] + Markups(bq))
  }

  /** The italic content after the bold pass: restored or not. */
  function ItalicInner(bp: string, bq: string, nested: bool): seq<Piece>
  {
    if nested then [Text('a')] + BoldEntry(bp, bq).html + [Text('c')]
    else [Text('a'), Token(Bold, 0), Text('c')]
  }

  lemma {:induction false} BoldTail(b: Rule, t: seq<Entry>)
    requires b.pattern == DoubleStar
    ensures Scan([Text('c'), Text('*')], b, t) == Stash([Text('c'), Text('*')], t)
  {
    var p := [Text('c'), Text('*')];
    assert p[1..] == [Text('*')];
    assert Scan([], b, t) == Stash([], t);
    assert Scan(p[1..], b, t) == Stash([Text('*')], t);
  }

  lemma {:induction false} BoldMatch(bp: string, bq: string)
    ensures var b := Rule(Bold, DoubleStar, bp, bq, false);
      Scan([Text('*'), Text('*'), Text('b'), Text('*'), Text('*'), Text('c'), Text('*')], b, []) ==
        Stash([Token(Bold, 0), Text('c'), Text('*')], [BoldEntry(bp, bq)])
  {
    var b := Rule(Bold, DoubleStar, bp, bq, false);
    var r := [Text('*'), Text('*'), Text('b'), Text('*'), Text('*'), Text('c'), Text('*')];
    var t1 := [BoldEntry(bp, bq)];
    assert MatchAt(r, DoubleStar) == Some(Span(2, 3, 5));
    assert r[2..3] == [Text('b')];
    assert r[5..] == [Text('c'), Text('*')];
    BoldTail(b, t1);
    var e := Entry(Bold, Markups(bp) + r[2..3] + Markups(bq));
    assert e == BoldEntry(bp, bq);
    assert [] + [e] == t1;
  }

  /** Where nothing matches, a pass copies one piece and goes on. */
  lemma {:induction false} ScanCopy(x: Piece, s: seq<Piece>, rule: Rule, t: seq<Entry>)
    requires MatchAt([x] + s, rule.pattern).None?
    ensures Scan([x] + s, rule, t) == Stash([x] + Scan(s, rule, t).result, Scan(s, rule, t).placeholders)
  {
    assert ([x] + s)[1..] == s;
  }

  lemma {:induction false} SingleStar(s: seq<Piece>)
    requires |s| >= 2 && s[1] != Text('*')
    ensures MatchAt(s, DoubleStar).None?
  {
  }

  lemma {:induction false} NestedPieces()
    ensures Texts(NestedLine) == [Text('*')] + ([Text('a')] + Stars2())
  {
  }

  function Stars2(): seq<Piece>
  {
    [Text('*'), Text('*'), Text('b'), Text('*'), Text('*'), Text('c'), Text('*')]
  }

  lemma {:induction false} BoldPass(bp: string, bq: string)
    ensures var b := Rule(Bold, DoubleStar, bp, bq, false);
      Scan(Texts(NestedLine), b, []) ==
        Stash([Text('*')] + ([Text('a')] + [Token(Bold, 0), Text('c'), Text('*')]), [BoldEntry(bp, bq)])
  {
    var b := Rule(Bold, DoubleStar, bp, bq, false);
    var r := Stars2();
    BoldMatch(bp, bq);
    NoMatchWithoutOpening([Text('a')] + r, DoubleStar);
    ScanCopy(Text('a'), r, b, []);
    var ar := [Text('a')] + r;
    assert ([Text('*')] + ar)[1] == Text('a');
    SingleStar([Text('*')] + ar);
    ScanCopy(Text('*'), ar, b, []);
    NestedPieces();
  }

  lemma {:induction false} ItalicPass(bp: string, bq: string, ip: string, iq: string, nested: bool)
    ensures var i := Rule(Italic, Between('*', '*'), ip, iq, nested);
      Scan([Text('*'), Text('a'), Token(Bold, 0), Text('c'), Text('*')], i, [BoldEntry(bp, bq)]) ==
        Stash([Token(Italic, 1)],
              [BoldEntry(bp, bq), Entry(Italic, Markups(ip) + ItalicInner(bp, bq, nested) + Markups(iq))])
  {
    var q := [Text('*'), Text('a'), Token(Bold, 0), Text('c'), Text('*')];
    var content := q[1..4];
    assert content == [Text('a'), Token(Bold, 0), Text('c')];
    assert MatchAt(q, Between('*', '*')) == Some(Span(1, 4, 5));
    if nested {
      var t1 := [BoldEntry(bp, bq)];
      assert ReplaceFirst(content, Token(Bold, 0), t1[0].html) == ItalicInner(bp, bq, true);
      assert RestoreAll(content, t1) == RestoreFrom(ItalicInner(bp, bq, true), t1, 1);
    }
  }

  lemma {:induction false} FivePieces()
    ensures [Text('*')] + ([Text('a')] + [Token(Bold, 0), Text('c'), Text('*')])
      == [Text('*'), Text('a'), Token(Bold, 0), Text('c'), Text('*')]
  {
  }

  /** The two emphasis passes followed by any others leave one italic placeholder. */
  lemma {:induction false} NestedPasses(rest: seq<Rule>, bp: string, bq: string, ip: string, iq: string, nested: bool)
    ensures var rules := [Rule(Bold, DoubleStar, bp, bq, false), Rule(Italic, Between('*', '*'), ip, iq, nested)] + rest;
      Passes(Stash(Texts(NestedLine), []), rules) ==
        Stash([Token(Italic, 1)], [BoldEntry(bp, bq), Entry(Italic, Markups(ip) + ItalicInner(bp, bq, nested) + Markups(iq))])
  {
    var b := Rule(Bold, DoubleStar, bp, bq, false);
    var i := Rule(Italic, Between('*', '*'), ip, iq, nested);
    var s0 := Stash(Texts(NestedLine), []);
    BoldPass(bp, bq);
    FivePieces();
    ItalicPass(bp, bq, ip, iq, nested);
    PassesTwo(s0, b, i, rest);
    var s1 := Scan(s0.result, b, s0.placeholders);
    PassesPlain(Scan(s1.result, i, s1.placeholders), rest);
  }

  /** The first two passes, then the rest. */
  lemma {:induction false} PassesTwo(st: Stash, b: Rule, i: Rule, rest: seq<Rule>)
    ensures var s1 := Scan(st.result, b, st.placeholders);
      Passes(st, [b, i] + rest) == Passes(Scan(s1.result, i, s1.placeholders), rest)
  {
    var rules := [b, i] + rest;
    var r1 := rules[1..];
    assert rules[0] == b && r1[0] == i && r1[1..] == rest;
  }

  /**
   * The restoring loop on a second placeholder standing alone: the first entry finds
   * nothing to replace.
   */
  lemma {:induction false} NestedRestore(b: Entry, k: Kind, h: seq<Piece>)
    ensures RestoreAll([Token(k, 1)], [b, Entry(k, h)]) == h
  {
    var t2 := [b, Entry(k, h)];
    var x := [Token(k, 1)];
    assert Token(t2[0].kind, 0) !in x;
    assert RestoreFrom(x, t2, 0) == RestoreFrom(x, t2, 1);
    assert x[1..] == [];
    assert ReplaceFirst(x, Token(t2[1].kind, 1), t2[1].html) == h + [];
    assert RestoreFrom(x, t2, 1) == RestoreFrom(h, t2, 2);
  }

  lemma {:induction false} NestedResolve(rest: seq<Rule>, bp: string, bq: string, ip: string, iq: string, nested: bool)
    ensures var rules := [Rule(Bold, DoubleStar, bp, bq, false), Rule(Italic, Between('*', '*'), ip, iq, nested)] + rest;
      Resolve(NestedLine, rules) == Markups(ip) + ItalicInner(bp, bq, nested) + Markups(iq)
  {
    EscapeNothing(NestedLine);
    NestedPasses(rest, bp, bq, ip, iq, nested);
    NestedRestore(BoldEntry(bp, bq), Italic, Markups(ip) + ItalicInner(bp, bq, nested) + Markups(iq));
  }

  /** As written, the italic HTML holds the bold placeholder itself. */
  lemma {:induction false} LeakHtml(rest: seq<Rule>, bp: string, ip: string)
    ensures var rules := [Rule(Bold, DoubleStar, bp, "</strong>", false),
      Rule(Italic, Between('*', '*'), ip, "</em>", false)] + rest;
      Render(Resolve(NestedLine, rules)) == ip + "a__BOLD_0__c" + "</em>"
  {
    var inner := [Text('a'), Token(Bold, 0), Text('c')];
    NestedResolve(rest, bp, "</strong>", ip, "</em>", false);
    RenderNested(ip, "</em>", inner);
    RenderLeak();
  }

  /** Corrected, it holds the bold HTML. */
  lemma {:induction false} NestHtml(rest: seq<Rule>, bp: string, ip: string)
    ensures var rules := [Rule(Bold, DoubleStar, bp, "</strong>", false),
      Rule(Italic, Between('*', '*'), ip, "</em>", true)] + rest;
      Render(Resolve(NestedLine, rules)) == ip + ("a" + bp + "b" + "</strong>" + "c") + "</em>"
  {
    var inner := ItalicInner(bp, "</strong>", true);
    NestedResolve(rest, bp, "</strong>", ip, "</em>", true);
    RenderNested(ip, "</em>", inner);
    RenderInner(bp, "</strong>");
  }

  /** As written, `parseMarkdown` leaves the bold placeholder in the page. */
  lemma {:induction false} ItalicLeaksBold(st: Settings)
    ensures MarkdownHtml(NestedLine, st) == ItalicOpen(st) + "a__BOLD_0__c" + "</em>"
  {
    MarkdownSplit(st, false);
    LeakHtml(MarkdownRules(st, false)[2..], BoldOpen(st), ItalicOpen(st));
  }

  /** Corrected, the bold HTML is nested in the italic HTML. */
  lemma {:induction false} ItalicNestsBold(st: Settings)
    ensures MarkdownHtmlCorrected(NestedLine, st) == ItalicOpen(st) + ("a" + BoldOpen(st) + "b" + "</strong>" + "c") + "</em>"
  {
    MarkdownSplit(st, true);
    NestHtml(MarkdownRules(st, true)[2..], BoldOpen(st), ItalicOpen(st));
  }

  /** The bubble resolver has the same defect, and the same correction. */
  lemma {:induction false} BubbleLeaksBold()
    ensures BubbleHtml(NestedLine) == BubbleItalicOpen + "a__BOLD_0__c" + "</em>"
  {
    BubbleSplit(false);
    LeakHtml([], BubbleBoldOpen, BubbleItalicOpen);
  }

  lemma {:induction false} BubbleNestsBold()
    ensures BubbleHtmlCorrected(NestedLine) == BubbleItalicOpen + ("a" + BubbleBoldOpen + "b" + "</strong>" + "c") + "</em>"
  {
    BubbleSplit(true);
    NestHtml([], BubbleBoldOpen, BubbleItalicOpen);
  }

  lemma {:induction false} MarkdownSplit(st: Settings, nested: bool)
    ensures MarkdownRules(st, nested) ==
      [Rule(Bold, DoubleStar, BoldOpen(st), "</strong>", false),
       Rule(Italic, Between('*', '*'), ItalicOpen(st), "</em>", nested)] + MarkdownRules(st, nested)[2..]
  {
  }

  lemma {:induction false} BubbleSplit(nested: bool)
    ensures BubbleRules(nested) == [Rule(Bold, DoubleStar, BubbleBoldOpen, "</strong>", false),
      Rule(Italic, Between('*', '*'), BubbleItalicOpen, "</em>", nested)] + []
  {
  }

  lemma {:induction false} RenderNested(pre: string, post: string, inner: seq<Piece>)
    ensures Render(Markups(pre) + inner + Markups(post)) == pre + Render(inner) + post
  {
    RenderConcat(Markups(pre) + inner, Markups(post));
    RenderConcat(Markups(pre), inner);
    RenderMarkups(pre);
    RenderMarkups(post);
  }

  lemma {:induction false} RenderLeak()
    ensures Render([Text('a'), Token(Bold, 0), Text('c')]) == "a__BOLD_0__c"
  {
    var x := [Text('a'), Token(Bold, 0), Text('c')];
    assert x[1..] == [Token(Bold, 0), Text('c')] && x[1..][1..] == [Text('c')];
    RenderOne(Text('c'));
    assert TokenName(Bold, 0) == "__BOLD_0__" by {
      assert NatToString(0) == "0";
    }
    assert Render(x[1..]) == "__BOLD_0__" + "c";
    assert Render(x) == "a" + ("__BOLD_0__" + "c");
  }

  lemma {:induction false} RenderInner(bp: string, bq: string)
    ensures Render(ItalicInner(bp, bq, true)) == "a" + bp + "b" + bq + "c"
  {
    var b := BoldEntry(bp, bq).html;
    RenderConcat([Text('a')] + b, [Text('c')]);
    RenderConcat([Text('a')], b);
    RenderNested(bp, bq, [Text('b')]);
    RenderOne(Text('a'));
    RenderOne(Text('b'));
    RenderOne(Text('c'));
  }

  lemma {:induction false} RenderOne(x: Piece)
    requires x.Text?
    ensures Render([x]) == [x.c]
  {
    assert [x][1..] == [];
  }

  // ---------------------------------------------------------------- bold first

  /** The lazy close finds the first `**` after `j`. */
  lemma {:induction false} CloseStarsAt(s: seq<Piece>, j: nat, m: nat)
    requires j <= m && StarsAt(s, m)
    requires forall k :: j <= k < m ==> Dot(s[k]) && !StarsAt(s, k)
    ensures CloseStars(s, j) == Some(m)
    decreases m - j
  {
    if j < m {
      CloseStarsAt(s, j + 1, m);
    }
  }

  /** No `**` inside, not ending in `*`, no line break: what `(.+?)` takes between two `**`. */
  predicate BoldBody(x: string)
  {
    x != [] && x[|x| - 1] != '*'
    && (forall k :: 0 <= k < |x| ==> !IsLineTerminator(x[k]))
    && (forall k :: 0 <= k < |x| - 1 ==> !(x[k] == '*' && x[k + 1] == '*'))
  }

  lemma {:induction false} BoldMatchWhole(x: string, tail: string)
    requires BoldBody(x)
    ensures var p := Texts("**" + x + "**" + tail);
      MatchAt(p, DoubleStar) == Some(Span(2, |x| + 2, |x| + 4)) && p[2..|x| + 2] == Texts(x)
      && p[|x| + 4..] == Texts(tail)
  {
    var text := "**" + x + "**" + tail;
    var p := Texts(text);
    assert forall k :: 2 <= k < |x| + 2 ==> p[k] == Text(x[k - 2]);
    assert forall k :: |x| + 4 <= k < |p| ==> p[k] == Text(tail[k - |x| - 4]);
    assert p[|x| + 2] == Text('*') && p[|x| + 3] == Text('*');
    assert p[0] == Text('*') && p[1] == Text('*');
    forall k | 3 <= k < |x| + 2
      ensures Dot(p[k]) && !StarsAt(p, k)
    {
      if k < |x| + 1 {
        assert !(x[k - 2] == '*' && x[k - 1] == '*');
      }
    }
    CloseStarsAt(p, 3, |x| + 2);
  }

  lemma {:induction false} BoldScanWhole(x: string, bp: string)
    requires BoldBody(x)
    ensures Scan(Texts("**" + x + "**"), Rule(Bold, DoubleStar, bp, "</strong>", false), []) ==
      Stash([Token(Bold, 0)], [Entry(Bold, Markups(bp) + Texts(x) + Markups("</strong>"))])
  {
    var b := Rule(Bold, DoubleStar, bp, "</strong>", false);
    assert "**" + x + "**" + "" == "**" + x + "**";
    var p := Texts("**" + x + "**");
    BoldMatchWhole(x, "");
    var h := Markups(bp) + Texts(x) + Markups("</strong>");
    assert p[|x| + 4..] == [];
    assert Scan(p[|x| + 4..], b, [Entry(Bold, h)]) == Stash([], [Entry(Bold, h)]);
    assert [Token(Bold, 0)] + [] == [Token(Bold, 0)];
  }

  /** The first pass, then the rest. */
  lemma {:induction false} PassesOne(st: Stash, r: Rule, rest: seq<Rule>)
    ensures Passes(st, [r] + rest) == Passes(Scan(st.result, r, st.placeholders), rest)
  {
    var rules := [r] + rest;
    assert rules[0] == r && rules[1..] == rest;
  }

  /** A single placeholder restores to its entry. */
  lemma {:induction false} RestoreOne(k: Kind, h: seq<Piece>)
    ensures RestoreAll([Token(k, 0)], [Entry(k, h)]) == h
  {
    var x := [Token(k, 0)];
    var t := [Entry(k, h)];
    assert x[1..] == [];
    assert ReplaceFirst(x, Token(t[0].kind, 0), t[0].html) == h + [];
    assert RestoreFrom(x, t, 0) == RestoreFrom(h, t, 1);
  }

  /**
   * A line that is one bold span is one `<strong>` whatever stars it holds: the bold pass
   * runs first and takes the whole line, so no later pass sees its content.
   */
  lemma {:induction false} BoldWhole(x: string, bp: string, rest: seq<Rule>)
    requires BoldBody(x) && '&' !in x && '<' !in x && '>' !in x
    ensures Render(Resolve("**" + x + "**", [Rule(Bold, DoubleStar, bp, "</strong>", false)] + rest))
      == bp + x + "</strong>"
  {
    var text := "**" + x + "**";
    var b := Rule(Bold, DoubleStar, bp, "</strong>", false);
    var p := Texts(text);
    EscapeNothing(text);
    var h := Markups(bp) + Texts(x) + Markups("</strong>");
    BoldScanWhole(x, bp);
    PassesOne(Stash(p, []), b, rest);
    PassesPlain(Stash([Token(Bold, 0)], [Entry(Bold, h)]), rest);
    RestoreOne(Bold, h);
    RenderNested(bp, "</strong>", Texts(x));
    RenderTexts(x);
  }

  lemma {:induction false} MarkdownFirst(st: Settings, nested: bool)
    ensures MarkdownRules(st, nested) ==
      [Rule(Bold, DoubleStar, BoldOpen(st), "</strong>", false)] + MarkdownRules(st, nested)[1..]
  {
  }

  /** `**a*b*c**` and the like: one bold span holding the literal stars. */
  lemma {:induction false} MarkdownBoldFirst(x: string, st: Settings)
    requires BoldBody(x) && '&' !in x && '<' !in x && '>' !in x
    ensures MarkdownHtml("**" + x + "**", st) == BoldOpen(st) + x + "</strong>"
  {
    MarkdownFirst(st, false);
    BoldWhole(x, BoldOpen(st), MarkdownRules(st, false)[1..]);
  }

  lemma {:induction false} BubbleBoldFirst(x: string)
    requires BoldBody(x) && '&' !in x && '<' !in x && '>' !in x
    ensures BubbleHtml("**" + x + "**") == BubbleBoldOpen + x + "</strong>"
  {
    assert BubbleRules(false) == [Rule(Bold, DoubleStar, BubbleBoldOpen, "</strong>", false)] + BubbleRules(false)[1..];
    BoldWhole(x, BubbleBoldOpen, BubbleRules(false)[1..]);
  }

  // ---------------------------------------------------------------- quoted spans

  lemma {:induction false} FindCloseAt(s: seq<Piece>, c: char, j: nat, m: nat)
    requires j <= m < |s| && s[m] == Text(c)
    requires forall k :: j <= k < m ==> s[k] != Text(c)
    ensures FindClose(s, c, j) == Some(m)
    decreases m - j
  {
    if j < m {
      FindCloseAt(s, c, j + 1, m);
    }
  }

  lemma {:induction false} RestoreNone(s: seq<Piece>)
    ensures RestoreAll(s, []) == s
  {
  }

  /** A nested `Between` pass over a line that is one span from its first to its last piece. */
  lemma {:induction false} BetweenScanWhole(x: string, k: Kind, o: char, c: char, pre: string, post: string)
    requires x != [] && c !in x
    ensures Scan(Texts([o] + x + [c]), Rule(k, Between(o, c), pre, post, true), []) ==
      Stash([Token(k, 0)], [Entry(k, Markups(pre) + Texts(x) + Markups(post))])
  {
    var r := Rule(k, Between(o, c), pre, post, true);
    var p := Texts([o] + x + [c]);
    assert forall i :: 1 <= i < |x| + 1 ==> p[i] == Text(x[i - 1]);
    assert p[0] == Text(o) && p[|x| + 1] == Text(c);
    FindCloseAt(p, c, 1, |x| + 1);
    assert MatchAt(p, Between(o, c)) == Some(Span(1, |x| + 1, |x| + 2));
    assert p[1..|x| + 1] == Texts(x);
    RestoreNone(Texts(x));
    var h := Markups(pre) + Texts(x) + Markups(post);
    assert p[|x| + 2..] == [];
    assert Scan(p[|x| + 2..], r, [Entry(k, h)]) == Stash([], [Entry(k, h)]);
    assert [Token(k, 0)] + [] == [Token(k, 0)];
  }

  /** Text of a quoted line's content: no star, no quote of either kind, nothing to escape. */
  predicate QuoteBody(x: string)
  {
    x != [] && '*' !in x && '"' !in x && '\U{201C}' !in x && '\U{201D}' !in x
    && '&' !in x && '<' !in x && '>' !in x
  }

  lemma {:induction false} MarkdownParts(st: Settings)
    ensures var rules := MarkdownRules(st, false);
      rules == [rules[0], rules[1]] + ([rules[2]] + [rules[3]])
      && rules[0].pattern == DoubleStar && rules[1].pattern == Between('*', '*')
      && rules[2] == Rule(Dialogue, Between('"', '"'), SpanOpen(st, '"'), "\"</span>", true)
      && rules[3] == Rule(DialogueKr, Between('\U{201C}', '\U{201D}'), SpanOpen(st, '\U{201C}'), "\U{201D}</span>", true)
  {
  }

  /** Four passes of which the first two open with `*`: a straight-quoted line. */
  lemma {:induction false} QuotePasses(x: string, r0: Rule, r1: Rule, pre: string, post: string, r3: Rule)
    requires QuoteBody(x) && Opening(r0.pattern) == '*' && Opening(r1.pattern) == '*'
    ensures Passes(Stash(Texts("\"" + x + "\""), []), [r0, r1] + ([Rule(Dialogue, Between('"', '"'), pre, post, true)] + [r3]))
      == Stash([Token(Dialogue, 0)], [Entry(Dialogue, Markups(pre) + Texts(x) + Markups(post))])
  {
    var r2 := Rule(Dialogue, Between('"', '"'), pre, post, true);
    var p := Texts("\"" + x + "\"");
    assert Text('*') !in p;
    ScanPlain(p, r0, []);
    ScanPlain(p, r1, []);
    PassesTwo(Stash(p, []), r0, r1, [r2] + [r3]);
    BetweenScanWhole(x, Dialogue, '"', '"', pre, post);
    PassesOne(Stash(p, []), r2, [r3]);
    PassesPlain(Stash([Token(Dialogue, 0)], [Entry(Dialogue, Markups(pre) + Texts(x) + Markups(post))]), [r3]);
  }

  lemma {:induction false} QuoteResolve(x: string, r0: Rule, r1: Rule, pre: string, post: string, r3: Rule)
    requires QuoteBody(x) && Opening(r0.pattern) == '*' && Opening(r1.pattern) == '*'
    ensures Render(Resolve("\"" + x + "\"", [r0, r1] + ([Rule(Dialogue, Between('"', '"'), pre, post, true)] + [r3])))
      == pre + x + post
  {
    EscapeNothing("\"" + x + "\"");
    QuotePasses(x, r0, r1, pre, post, r3);
    RestoreOne(Dialogue, Markups(pre) + Texts(x) + Markups(post));
    RenderNested(pre, post, Texts(x));
    RenderTexts(x);
  }

  /** Four passes of which the first two open with `*` and the third with `"`: a curly-quoted line. */
  lemma {:induction false} CurlyPasses(x: string, r0: Rule, r1: Rule, r2: Rule, pre: string, post: string)
    requires QuoteBody(x) && Opening(r0.pattern) == '*' && Opening(r1.pattern) == '*'
    requires Opening(r2.pattern) == '"'
    ensures Passes(Stash(Texts("\U{201C}" + x + "\U{201D}"), []),
      [r0, r1] + ([r2] + [Rule(DialogueKr, Between('\U{201C}', '\U{201D}'), pre, post, true)]))
      == Stash([Token(DialogueKr, 0)], [Entry(DialogueKr, Markups(pre) + Texts(x) + Markups(post))])
  {
    var r3 := Rule(DialogueKr, Between('\U{201C}', '\U{201D}'), pre, post, true);
    var p := Texts("\U{201C}" + x + "\U{201D}");
    assert Text('*') !in p && Text('"') !in p;
    ScanPlain(p, r0, []);
    ScanPlain(p, r1, []);
    ScanPlain(p, r2, []);
    PassesTwo(Stash(p, []), r0, r1, [r2] + [r3]);
    PassesOne(Stash(p, []), r2, [r3]);
    BetweenScanWhole(x, DialogueKr, '\U{201C}', '\U{201D}', pre, post);
    PassesOne(Stash(p, []), r3, []);
  }

  lemma {:induction false} CurlyResolve(x: string, r0: Rule, r1: Rule, r2: Rule, pre: string, post: string)
    requires QuoteBody(x) && Opening(r0.pattern) == '*' && Opening(r1.pattern) == '*'
    requires Opening(r2.pattern) == '"'
    ensures Render(Resolve("\U{201C}" + x + "\U{201D}",
      [r0, r1] + ([r2] + [Rule(DialogueKr, Between('\U{201C}', '\U{201D}'), pre, post, true)])))
      == pre + x + post
  {
    EscapeNothing("\U{201C}" + x + "\U{201D}");
    CurlyPasses(x, r0, r1, r2, pre, post);
    RestoreOne(DialogueKr, Markups(pre) + Texts(x) + Markups(post));
    RenderNested(pre, post, Texts(x));
    RenderTexts(x);
  }

  /** A straight-quoted line is one dialogue span, the quote characters kept inside it. */
  lemma {:induction false} MarkdownQuote(x: string, st: Settings)
    requires QuoteBody(x)
    ensures MarkdownHtml("\"" + x + "\"", st) == SpanOpen(st, '"') + x + "\"</span>"
  {
    var rules := MarkdownRules(st, false);
    MarkdownParts(st);
    QuoteResolve(x, rules[0], rules[1], SpanOpen(st, '"'), "\"</span>", rules[3]);
  }

  /** The same for a line in curly quotes, which the last pass takes. */
  lemma {:induction false} MarkdownCurlyQuote(x: string, st: Settings)
    requires QuoteBody(x)
    ensures MarkdownHtml("\U{201C}" + x + "\U{201D}", st) == SpanOpen(st, '\U{201C}') + x + "\U{201D}</span>"
  {
    var rules := MarkdownRules(st, false);
    MarkdownParts(st);
    CurlyResolve(x, rules[0], rules[1], rules[2], SpanOpen(st, '\U{201C}'), "\U{201D}</span>");
  }

  /** The bold pass over `"**x**"`: one bold placeholder between the quotes. */
  lemma {:induction false} QuotedBoldPass(x: string, b: Rule)
    requires BoldBody(x) && b.pattern == DoubleStar && b.kind == Bold
    ensures Scan(Texts("\"**" + x + "**\""), b, []) ==
      Stash([Text('"'), Token(Bold, 0), Text('"')], [Entry(Bold, Markups(b.pre) + Texts(x) + Markups(b.post))])
  {
    var p := Texts("\"**" + x + "**\"");
    var q := Texts("**" + x + "**" + "\"");
    assert p == [Text('"')] + q;
    BoldMatchWhole(x, "\"");
    var e := Entry(Bold, Markups(b.pre) + Texts(x) + Markups(b.post));
    assert q[|x| + 4..] == [Text('"')];
    ScanPlain([Text('"')], b, [e]);
    assert Scan(q, b, []) == Stash([Token(Bold, 0), Text('"')], [e]);
    assert p[0] == Text('"');
    ScanCopy(Text('"'), q, b, []);
  }

  /** The nested dialogue pass over `"`, a placeholder, `"`: the placeholder is put back. */
  lemma {:induction false} QuotedBoldDialogue(e: Entry, r: Rule)
    requires r.pattern == Between('"', '"') && r.nested && r.kind == Dialogue && e.kind == Bold
    ensures Scan([Text('"'), Token(Bold, 0), Text('"')], r, [e]) ==
      Stash([Token(Dialogue, 1)], [e, Entry(Dialogue, Markups(r.pre) + e.html + Markups(r.post))])
  {
    var s := [Text('"'), Token(Bold, 0), Text('"')];
    FindCloseAt(s, '"', 1, 2);
    assert MatchAt(s, r.pattern) == Some(Span(1, 2, 3));
    assert s[1..2] == [Token(Bold, 0)];
    RestoreOne(Bold, e.html);
    var d := Entry(Dialogue, Markups(r.pre) + e.html + Markups(r.post));
    assert s[3..] == [];
    assert Scan(s[3..], r, [e, d]) == Stash([], [e, d]);
    assert [Token(Dialogue, 1)] + [] == [Token(Dialogue, 1)];
  }

  function QuotedBoldEntry(x: string, bp: string): Entry
  {
    Entry(Bold, Markups(bp) + Texts(x) + Markups("</strong>"))
  }

  /** The four passes over `"**x**"`: one dialogue placeholder, the bold HTML inside its entry. */
  lemma {:induction false} QuotedBoldPasses(x: string, st: Settings)
    requires BoldBody(x)
    ensures var e := QuotedBoldEntry(x, BoldOpen(st));
      Passes(Stash(Texts("\"**" + x + "**\""), []), MarkdownRules(st, false)) ==
        Stash([Token(Dialogue, 1)], [e, Entry(Dialogue, Markups(SpanOpen(st, '"')) + e.html + Markups("\"</span>"))])
  {
    var rules := MarkdownRules(st, false);
    MarkdownParts(st);
    var r0, r1, r2, r3 := rules[0], rules[1], rules[2], rules[3];
    var st0 := Stash(Texts("\"**" + x + "**\""), []);
    QuotedBoldPass(x, r0);
    var e := QuotedBoldEntry(x, BoldOpen(st));
    var s1 := Stash([Text('"'), Token(Bold, 0), Text('"')], [e]);
    ScanPlain(s1.result, r1, s1.placeholders);
    PassesTwo(st0, r0, r1, [r2] + [r3]);
    QuotedBoldDialogue(e, r2);
    var d := Entry(Dialogue, Markups(SpanOpen(st, '"')) + e.html + Markups("\"</span>"));
    PassesOne(s1, r2, [r3]);
    var s3 := Stash([Token(Dialogue, 1)], [e, d]);
    ScanPlain(s3.result, r3, s3.placeholders);
    PassesOne(s3, r3, []);
  }

  /**
   * Bold inside quotes comes out nested as written: the dialogue pass restores the bold
   * placeholder in its content before storing it, so no placeholder is left.
   */
  lemma {:induction false} MarkdownQuotedBold(x: string, st: Settings)
    requires BoldBody(x) && QuoteBody(x)
    ensures MarkdownHtml("\"**" + x + "**\"", st)
      == SpanOpen(st, '"') + (BoldOpen(st) + x + "</strong>") + "\"</span>"
  {
    var text := "\"**" + x + "**\"";
    EscapeNothing(text);
    QuotedBoldPasses(x, st);
    var e := QuotedBoldEntry(x, BoldOpen(st));
    var h := Markups(SpanOpen(st, '"')) + e.html + Markups("\"</span>");
    NestedRestore(e, Dialogue, h);
    RenderNested(SpanOpen(st, '"'), "\"</span>", e.html);
    RenderNested(BoldOpen(st), "</strong>", Texts(x));
    RenderTexts(x);
  }

  // ---------------------------------------------------------------- unmatched markers

  /** `c` occurs at most once. */
  predicate Lone(text: string, c: char)
  {
    forall i, j :: 0 <= i < j < |text| ==> !(text[i] == c && text[j] == c)
  }

  /** Nothing in `text` can complete the pattern. */
  predicate Unmatched(text: string, p: Pattern)
  {
    match p
    case DoubleStar => Lone(text, '*')
    case Between(o, c) => if o == c then Lone(text, o) else c !in text
  }

  lemma {:induction false} NoMatchUnmatched(text: string, p: Pattern, i: nat)
    requires i < |text| && Unmatched(text, p)
    ensures MatchAt(Texts(text)[i..], p).None?
  {
    var s := Texts(text)[i..];
    assert forall k :: 0 <= k < |s| ==> s[k] == Text(text[i + k]);
  }

  /** The pattern matches nowhere in the text's pieces. */
  predicate Idle(text: string, p: Pattern)
  {
    forall i :: 0 <= i < |text| ==> MatchAt(Texts(text)[i..], p).None?
  }

  lemma {:induction false} UnmatchedIdle(text: string, p: Pattern)
    requires Unmatched(text, p)
    ensures Idle(text, p)
  {
    forall i | 0 <= i < |text|
      ensures MatchAt(Texts(text)[i..], p).None?
    {
      NoMatchUnmatched(text, p, i);
    }
  }

  lemma {:induction false} PassesIdle(text: string, rules: seq<Rule>)
    requires forall i :: 0 <= i < |rules| ==> Idle(text, rules[i].pattern)
    ensures Passes(Stash(Texts(text), []), rules) == Stash(Texts(text), [])
    decreases |rules|
  {
    if rules != [] {
      ScanNoMatch(Texts(text), rules[0], []);
      PassesIdle(text, rules[1..]);
    }
  }

  /** Markers that cannot be closed stay literal text. */
  lemma {:induction false} ResolveIdle(text: string, rules: seq<Rule>)
    requires '&' !in text && '<' !in text && '>' !in text
    requires forall i :: 0 <= i < |rules| ==> Idle(text, rules[i].pattern)
    ensures Render(Resolve(text, rules)) == text
  {
    EscapeNothing(text);
    PassesIdle(text, rules);
    RenderTexts(text);
  }

  lemma {:induction false} ResolveUnmatched(text: string, rules: seq<Rule>)
    requires '&' !in text && '<' !in text && '>' !in text
    requires forall i :: 0 <= i < |rules| ==> Unmatched(text, rules[i].pattern)
    ensures Render(Resolve(text, rules)) == text
  {
    forall i | 0 <= i < |rules|
      ensures Idle(text, rules[i].pattern)
    {
      UnmatchedIdle(text, rules[i].pattern);
    }
    ResolveIdle(text, rules);
  }

  /**
   * After an opening `**` with no other `*`, neither emphasis pattern matches: the bold
   * pattern finds no closing `**`, and the italic pattern, which needs a non-empty
   * content, finds its closing `*` right after its opening one, or none at all.
   */
  lemma {:induction false} StarsIdle(x: string)
    requires '*' !in x
    ensures Idle("**" + x, DoubleStar) && Idle("**" + x, Between('*', '*'))
  {
    var p := Texts("**" + x);
    assert p[0] == Text('*') && p[1] == Text('*');
    assert forall k :: 2 <= k < |p| ==> p[k] == Text(x[k - 2]) && p[k] != Text('*');
    forall i | 0 <= i < |p|
      ensures MatchAt(p[i..], DoubleStar).None? && MatchAt(p[i..], Between('*', '*')).None?
    {
      var q := p[i..];
      if i == 0 {
        assert q == p;
        if |p| >= 3 {
          var c := CloseStars(p, 3);
          assert c.Some? ==> StarsAt(p, c.value);
        }
        FindCloseAt(p, '*', 1, 1);
      } else if i == 1 {
        assert q[0] == Text('*') && (|q| > 1 ==> q[1] != Text('*'));
        assert forall k :: 1 <= k < |q| ==> q[k] == p[k + 1];
      } else {
        assert q[0] == p[i];
        NoMatchWithoutOpening(q, DoubleStar);
        NoMatchWithoutOpening(q, Between('*', '*'));
      }
    }
  }

  /** `**` with no closing `**` stays literal in `parseMarkdown`. */
  lemma {:induction false} MarkdownStarsUnclosed(x: string, st: Settings)
    requires '&' !in x && '<' !in x && '>' !in x && '*' !in x
    requires Lone(x, '"') && '\U{201D}' !in x
    ensures MarkdownHtml("**" + x, st) == "**" + x
  {
    var text := "**" + x;
    var rules := MarkdownRules(st, false);
    MarkdownParts(st);
    StarsIdle(x);
    assert Lone(text, '"') by {
      forall i, j | 0 <= i < j < |text|
        ensures !(text[i] == '"' && text[j] == '"')
      {
        if 2 <= i {
          assert text[i] == x[i - 2] && text[j] == x[j - 2];
        }
      }
    }
    UnmatchedIdle(text, rules[2].pattern);
    UnmatchedIdle(text, rules[3].pattern);
    ResolveIdle(text, rules);
  }

  /** `**` with no closing `**` stays literal in `parseMarkdownForBubble`. */
  lemma {:induction false} BubbleStarsUnclosed(x: string)
    requires '&' !in x && '<' !in x && '>' !in x && '*' !in x
    ensures BubbleHtml("**" + x) == "**" + x
  {
    StarsIdle(x);
    ResolveIdle("**" + x, BubbleRules(false));
  }

  /**
   * An unmatched `*` or quote stays literal: with at most one `*`, at most one `"`
   * and no closing curly quote, `parseMarkdown` only escapes. An unclosed `**` is
   * `MarkdownStarsUnclosed`.
   */
  lemma {:induction false} MarkdownUnmatched(text: string, st: Settings)
    requires '&' !in text && '<' !in text && '>' !in text
    requires Lone(text, '*') && Lone(text, '"') && '\U{201D}' !in text
    ensures MarkdownHtml(text, st) == text
  {
    MarkdownParts(st);
    ResolveUnmatched(text, MarkdownRules(st, false));
  }

  lemma {:induction false} BubbleUnmatched(text: string)
    requires '&' !in text && '<' !in text && '>' !in text && Lone(text, '*')
    ensures BubbleHtml(text) == text
  {
    ResolveUnmatched(text, BubbleRules(false));
  }
}
