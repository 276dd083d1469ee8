/**
 * `getParagraphStyle` and `generateBubbleHTML`: the HTML fragment for one parsed
 * transcript line. Narration becomes a paragraph through the full resolver; a user or
 * AI line becomes a chat bubble through the bold-and-italic resolver, optionally with a
 * name tag.
 */
module Bubbles {
  import opened JsString
  import opened Escape
  import opened Color
  import opened Config
  import opened LineParse
  import opened Markdown

  const ParagraphStyleStart: string := "margin: 0 0 1.2em 0; text-align: "
  const ParagraphStyleEnd: string := "; word-break: keep-all;"

  /** `getParagraphStyle()`: only the alignment comes from the settings. */
  function ParagraphStyle(st: Settings): string
  {
    ParagraphStyleStart + st.textAlign + ParagraphStyleEnd
  }

  /** The paragraph style depends on the alignment setting and on nothing else. */
  lemma {:induction false} ParagraphStyleAlign(a: Settings, b: Settings)
    ensures ParagraphStyle(a) == ParagraphStyle(b) <==> a.textAlign == b.textAlign
  {
    if ParagraphStyle(a) == ParagraphStyle(b) {
      MiddleUnique(ParagraphStyleStart, a.textAlign, b.textAlign, ParagraphStyleEnd);
    }
  }

  /** Equal strings with the same prefix and suffix have the same middle. */
  lemma {:induction false} MiddleUnique(pre: string, x: string, y: string, post: string)
    requires pre + x + post == pre + y + post
    ensures x == y
  {
    var s := pre + x + post;
    assert |x| == |y|;
    assert x == s[|pre|..|pre| + |x|];
    assert y == (pre + y + post)[|pre|..|pre| + |y|];
  }

  /** Four spaces in front of every fragment of the code output, none in the preview. */
  function Indent(isForCode: bool): string
  {
    if isForCode then "    " else ""
  }

  /** JavaScript's `name || fallback` on a string. */
  function OrDefault(name: string, fallback: string): string
  {
    if name == "" then fallback else name
  }

  function BubblePadding(st: Settings): string
  {
    st.bubblePadding + "em " + st.bubblePaddingWide + "em"
  }

  function BubbleRadius(st: Settings): string
  {
    st.bubbleRadius + "px"
  }

  const AiBubbleStart: string := "display: block; margin: 0 0 1em 0; padding: "
  const UserBubbleStart: string := "display: block; padding: "
  const BubbleBackground: string := "; background: "
  const BubbleColor: string := "; color: "
  const BubbleRadiusStart: string := "; border-radius: "
  const BubbleRest: string := "; max-width: 85%; text-align: left; word-break: keep-all;"

  function AiBubbleStyle(st: Settings): string
  {
    var radius := BubbleRadius(st);
    AiBubbleStart + BubblePadding(st) + BubbleBackground + st.aiBubbleColor
    + BubbleColor + ContrastTextColor(st.aiBubbleColor) + BubbleRadiusStart + radius + " " + radius + " "
    + radius + " 0.25em" + BubbleRest
  }

  function UserBubbleStyle(st: Settings): string
  {
    var radius := BubbleRadius(st);
    UserBubbleStart + BubblePadding(st) + BubbleBackground + st.userBubbleColor
    + BubbleColor + ContrastTextColor(st.userBubbleColor) + BubbleRadiusStart + radius + " " + radius
    + " 0.25em " + radius + BubbleRest
  }

  const AiNametagStyle: string :=
    "display: block; margin-bottom: 0.375em; font-size: 0.75em; font-weight: 600; opacity: 0.7;"

  const UserNametagStyle: string :=
    "display: block; margin-bottom: 0.375em; font-size: 0.75em; font-weight: 600; opacity: 0.7; text-align: right;"

  const UserWrapperStyle: string := "display: flex; justify-content: flex-end; margin: 0 0 1em 0;"

  /** The name tag: the name escaped inside a styled span. */
  function NameTag(style: string, name: string): string
  {
    "<span style=\"" + style + "\">" + EscapeHtml(name) + "</span>"
  }

  function DivOpen(style: string): string
  {
    "<div style=\"" + style + "\">"
  }

  /** A styled `div` around some HTML. */
  function Div(style: string, inner: string): string
  {
    DivOpen(style) + inner + "</div>"
  }

  /** An AI bubble: one styled `div`, the name tag (when shown) in front of the content. */
  function AiFragment(bubbleStyle: string, tag: string, show: bool, content: string): string
  {
    if show then Div(bubbleStyle, tag + content) else Div(bubbleStyle, content)
  }

  /** A user bubble: the same inside a wrapper `div` that pushes it to the right. */
  function UserFragment(wrapperStyle: string, bubbleStyle: string, tag: string, show: bool, content: string): string
  {
    Div(wrapperStyle, AiFragment(bubbleStyle, tag, show, content))
  }

  /** The fragment without its indentation. */
  function Fragment(p: ParsedLine, st: Settings): string
  {
    match p.kind
    case Ai =>
      AiFragment(AiBubbleStyle(st), NameTag(AiNametagStyle, OrDefault(st.charName, "AI")), st.showNametag,
        BubbleHtml(p.content))
    case User =>
      UserFragment(UserWrapperStyle, UserBubbleStyle(st), NameTag(UserNametagStyle, OrDefault(st.userName, "User")),
        st.showNametag, BubbleHtml(p.content))
    case Narration =>
      "<p style=\"" + ParagraphStyle(st) + "\">" + MarkdownHtml(p.content, st) + "</p>"
  }

  /** `generateBubbleHTML(parsed, isForCode)`: every kind of fragment is indented alike. */
  function BubbleHtmlLine(p: ParsedLine, st: Settings, isForCode: bool): string
  {
    Indent(isForCode) + Fragment(p, st)
  }

  /** The name tag the bubble would carry: the speaker's name, or `AI`/`User` when it is empty. */
  function SpeakerTag(p: ParsedLine, st: Settings): string
  {
    if p.kind == User then NameTag(UserNametagStyle, OrDefault(st.userName, "User"))
    else NameTag(AiNametagStyle, OrDefault(st.charName, "AI"))
  }

  /** Inserting `t` in front of `m` in `x + (y + m + z)` lands right after `x + y`. */
  lemma {:induction false} InsertAfter(x: string, y: string, t: string, m: string, z: string)
    ensures var off := x + (y + m + z);
      var a := x + y;
      |a| <= |off| && off[..|a|] == a && x + (y + (t + m) + z) == off[..|a|] + t + off[|a|..]
  {
    var off := x + (y + m + z);
    var a := x + y;
    assert off == a + (m + z);
    assert off[..|a|] == a && off[|a|..] == m + z;
    assert x + (y + (t + m) + z) == a + t + (m + z);
  }

  /** In an AI bubble the tag goes right after the opening `div`. */
  lemma {:induction false} AiTagSplit(i: string, bs: string, tag: string, content: string)
    ensures var off := i + AiFragment(bs, tag, false, content);
      var a := i + DivOpen(bs);
      |a| <= |off| && off[..|a|] == a && i + AiFragment(bs, tag, true, content) == off[..|a|] + tag + off[|a|..]
  {
    InsertAfter(i, DivOpen(bs), tag, content, "</div>");
  }

  /** In a user bubble the tag goes right after the two opening `div`s. */
  lemma {:induction false} UserTagSplit(i: string, ws: string, bs: string, tag: string, content: string)
    ensures var off := i + UserFragment(ws, bs, tag, false, content);
      var a := i + DivOpen(ws) + DivOpen(bs);
      |a| <= |off| && off[..|a|] == a && i + UserFragment(ws, bs, tag, true, content) == off[..|a|] + tag + off[|a|..]
  {
    var o := DivOpen(ws);
    var b := DivOpen(bs);
    var z := "</div>";
    InsertAfter(i + o, b, tag, content, z + z);
    assert i + UserFragment(ws, bs, tag, false, content) == (i + o) + (b + content + (z + z));
    assert i + UserFragment(ws, bs, tag, true, content) == (i + o) + (b + (tag + content) + (z + z));
  }

  /**
   * Turning the name tag on in an AI bubble inserts the speaker's tag right after the
   * opening `div` and changes nothing else.
   */
  lemma {:induction false} AiNametagInsert(p: ParsedLine, st: Settings, isForCode: bool)
    requires p.kind == Ai
    ensures var off := BubbleHtmlLine(p, st.(showNametag := false), isForCode);
      var on := BubbleHtmlLine(p, st.(showNametag := true), isForCode);
      var a := Indent(isForCode) + DivOpen(AiBubbleStyle(st));
      |a| <= |off| && on == off[..|a|] + SpeakerTag(p, st) + off[|a|..] && off[..|a|] == a
  {
    var i := Indent(isForCode);
    var bs := AiBubbleStyle(st);
    var tag := SpeakerTag(p, st);
    var content := BubbleHtml(p.content);
    assert AiBubbleStyle(st.(showNametag := false)) == bs == AiBubbleStyle(st.(showNametag := true));
    assert BubbleHtmlLine(p, st.(showNametag := false), isForCode) == i + AiFragment(bs, tag, false, content);
    assert BubbleHtmlLine(p, st.(showNametag := true), isForCode) == i + AiFragment(bs, tag, true, content);
    AiTagSplit(i, bs, tag, content);
  }

  /** The same for a user bubble, where the tag follows the wrapper and the bubble `div`. */
  lemma {:induction false} UserNametagInsert(p: ParsedLine, st: Settings, isForCode: bool)
    requires p.kind == User
    ensures var off := BubbleHtmlLine(p, st.(showNametag := false), isForCode);
      var on := BubbleHtmlLine(p, st.(showNametag := true), isForCode);
      var a := Indent(isForCode) + DivOpen(UserWrapperStyle) + DivOpen(UserBubbleStyle(st));
      |a| <= |off| && on == off[..|a|] + SpeakerTag(p, st) + off[|a|..] && off[..|a|] == a
  {
    var i := Indent(isForCode);
    var bs := UserBubbleStyle(st);
    var tag := SpeakerTag(p, st);
    var content := BubbleHtml(p.content);
    assert UserBubbleStyle(st.(showNametag := false)) == bs == UserBubbleStyle(st.(showNametag := true));
    assert BubbleHtmlLine(p, st.(showNametag := false), isForCode) == i + UserFragment(UserWrapperStyle, bs, tag, false, content);
    assert BubbleHtmlLine(p, st.(showNametag := true), isForCode) == i + UserFragment(UserWrapperStyle, bs, tag, true, content);
    UserTagSplit(i, UserWrapperStyle, bs, tag, content);
  }

  /** Narration ignores the name-tag switch and both names. */
  lemma {:induction false} NarrationIgnoresNames(p: ParsedLine, st: Settings, isForCode: bool, show: bool, charName: string, userName: string)
    requires p.kind == Narration
    ensures BubbleHtmlLine(p, st, isForCode)
      == BubbleHtmlLine(p, st.(showNametag := show, charName := charName, userName := userName), isForCode)
  {
    var st' := st.(showNametag := show, charName := charName, userName := userName);
    assert ParagraphStyle(st') == ParagraphStyle(st);
    assert MarkdownRules(st', false) == MarkdownRules(st, false);
  }

  /** The name in a tag is escaped: the tag holds no `<` or `>` beyond its own markup. */
  lemma {:induction false} NameTagEscaped(style: string, name: string)
    ensures var e := EscapeHtml(name);
      NameTag(style, name) == "<span style=\"" + style + "\">" + e + "</span>"
      && '<' !in e && '>' !in e
  {
  }

  /** `x + y` is a prefix of `x + (y + m + z)`. */
  lemma {:induction false} PrefixOf(x: string, y: string, m: string, z: string)
    ensures var r := x + (y + m + z);
      |x + y| <= |r| && r[..|x + y|] == x + y
  {
    var r := x + (y + m + z);
    assert r == (x + y) + (m + z);
  }

  /** Every user bubble starts with the wrapper `div`. */
  lemma {:induction false} UserPrefix(i: string, ws: string, bs: string, tag: string, show: bool, content: string)
    ensures var r := i + UserFragment(ws, bs, tag, show, content);
      var w := i + DivOpen(ws);
      |w| <= |r| && r[..|w|] == w
  {
    PrefixOf(i, DivOpen(ws), AiFragment(bs, tag, show, content), "</div>");
  }

  lemma {:induction false} Assoc(a: string, b: string, c: string)
    ensures a + (b + c) == a + b + c
  {
  }

  /** A bubble written out: opening `div`s, the tag when shown, the content, closing `div`s. */
  lemma {:induction false} AiShape(i: string, bs: string, tag: string, show: bool, content: string)
    ensures i + AiFragment(bs, tag, show, content)
      == i + DivOpen(bs) + (if show then tag else "") + content + "</div>"
  {
    var t := if show then tag else "";
    var b, z := DivOpen(bs), "</div>";
    assert AiFragment(bs, tag, show, content) == b + (t + content) + z;
    Assoc(b, t, content);
    Assoc(i, b + t + content, z);
    Assoc(i, b + t, content);
    Assoc(i, b, t);
  }

  lemma {:induction false} UserShape(i: string, ws: string, bs: string, tag: string, show: bool, content: string)
    ensures i + UserFragment(ws, bs, tag, show, content)
      == i + DivOpen(ws) + DivOpen(bs) + (if show then tag else "") + content + "</div></div>"
  {
    var t := if show then tag else "";
    var o, z := DivOpen(ws), "</div>";
    var j := i + o;
    AiShape(j, bs, tag, show, content);
    var inner := AiFragment(bs, tag, show, content);
    var flat := j + DivOpen(bs) + t + content;
    assert j + inner == flat + z;
    assert i + UserFragment(ws, bs, tag, show, content) == i + (o + inner + z);
    Assoc(o, inner, z);
    Assoc(i, o, inner + z);
    Assoc(j, inner, z);
    assert "</div></div>" == z + z;
    Assoc(flat, z, z);
  }

  /**
   * A line written with the `<` marker renders as a right-aligned user bubble: the
   * wrapper `div`, the bubble `div`, the user's tag when tags are shown, the text after
   * the marker through the bubble resolver, and both closing tags.
   */
  lemma {:induction false} UserLineBubble(line: string, st: Settings, isForCode: bool)
    requires Trim(line) != [] && Trim(line)[0] == '<'
    ensures var r := BubbleHtmlLine(ParseLine(line), st, isForCode);
      var w := Indent(isForCode) + DivOpen(UserWrapperStyle);
      |w| <= |r| && r[..|w|] == w
    ensures BubbleHtmlLine(ParseLine(line), st, isForCode)
      == Indent(isForCode) + DivOpen(UserWrapperStyle) + DivOpen(UserBubbleStyle(st))
        + (if st.showNametag then NameTag(UserNametagStyle, OrDefault(st.userName, "User")) else "")
        + BubbleHtml(Trim(Trim(line)[1..])) + "</div></div>"
  {
    var p := ParseLine(line);
    ParseLineCases(line);
    var tag := NameTag(UserNametagStyle, OrDefault(st.userName, "User"));
    var content := BubbleHtml(p.content);
    assert BubbleHtmlLine(p, st, isForCode)
      == Indent(isForCode) + UserFragment(UserWrapperStyle, UserBubbleStyle(st), tag, st.showNametag, content);
    UserPrefix(Indent(isForCode), UserWrapperStyle, UserBubbleStyle(st), tag, st.showNametag, content);
    UserShape(Indent(isForCode), UserWrapperStyle, UserBubbleStyle(st), tag, st.showNametag, content);
  }

  /**
   * A line written with the `>` marker renders as an AI bubble: the bubble `div`, the
   * character's tag when tags are shown, the text after the marker through the bubble
   * resolver, and the closing tag.
   */
  lemma {:induction false} AiLineBubble(line: string, st: Settings, isForCode: bool)
    requires Trim(line) != [] && Trim(line)[0] == '>'
    ensures BubbleHtmlLine(ParseLine(line), st, isForCode)
      == Indent(isForCode) + DivOpen(AiBubbleStyle(st))
        + (if st.showNametag then NameTag(AiNametagStyle, OrDefault(st.charName, "AI")) else "")
        + BubbleHtml(Trim(Trim(line)[1..])) + "</div>"
  {
    var p := ParseLine(line);
    ParseLineCases(line);
    var tag := NameTag(AiNametagStyle, OrDefault(st.charName, "AI"));
    var content := BubbleHtml(p.content);
    assert BubbleHtmlLine(p, st, isForCode)
      == Indent(isForCode) + AiFragment(AiBubbleStyle(st), tag, st.showNametag, content);
    AiShape(Indent(isForCode), AiBubbleStyle(st), tag, st.showNametag, content);
  }

  /** A line without a marker renders as a paragraph around the full resolver's output, as written. */
  lemma {:induction false} NarrationParagraph(line: string, st: Settings, isForCode: bool)
    requires Trim(line) == [] || Trim(line)[0] !in "<>"
    ensures BubbleHtmlLine(ParseLine(line), st, isForCode)
      == Indent(isForCode) + ("<p style=\"" + ParagraphStyle(st) + "\">" + MarkdownHtml(Trim(line), st) + "</p>")
  {
    ParseLineCases(line);
    assert ParseLine(line) == ParsedLine(Narration, Trim(line));
  }
}
