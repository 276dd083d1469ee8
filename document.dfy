/**
 * `generateHTML`: the whole exported document. Blocks whose text is blank are dropped;
 * the rest are split into lines, blank lines are dropped, and each line becomes a
 * fragment. A block is wrapped in a foldable `<details>` section, in a labelled section
 * when there are several blocks, or not at all. An optional header with the character
 * name and badges comes first, and everything sits in one container `div` whose style is
 * a list of declarations with an optional border and shadow.
 */
module Document {
  import opened JsString
  import opened JsNumber
  import opened Escape
  import opened Color
  import opened Config
  import opened LineParse
  import opened Blocks
  import opened Bubbles

  // ----- Lines of a block -----

  /** Drops one carriage return at the end of a piece. */
  function DropCr(p: string): (r: string)
    ensures '\n' !in p ==> '\n' !in r
  {
    if p != [] && p[|p| - 1] == '\r' then p[..|p| - 1] else p
  }

  /** Every piece but the last was followed by `\n`, so a `\r` before that `\n` goes with it. */
  function DropCrs(ps: seq<string>): (r: seq<string>)
    ensures |r| == |ps|
  {
    if |ps| <= 1 then ps else [DropCr(ps[0])] + DropCrs(ps[1..])
  }

  /** `s.split(/\r?\n/)`. */
  function SplitLines(s: string): (r: seq<string>)
    ensures |r| == 1 + multiset(s)['\n']
  {
    DropCrs(Split(s, '\n'))
  }

  /** `filter(line => line.trim() !== "")`. */
  function NonBlank(ls: seq<string>): (r: seq<string>)
    ensures forall l :: l in r <==> l in ls && Trim(l) != ""
  {
    if ls == [] then []
    else if Trim(ls[0]) == "" then NonBlank(ls[1..])
    else [ls[0]] + NonBlank(ls[1..])
  }

  /** Filtering distributes over concatenation: order and repeats are kept. */
  lemma {:induction false} NonBlankConcat(a: seq<string>, b: seq<string>)
    ensures NonBlank(a + b) == NonBlank(a) + NonBlank(b)
  {
    if a == [] {
      assert a + b == b;
    } else {
      assert (a + b)[0] == a[0] && (a + b)[1..] == a[1..] + b;
      NonBlankConcat(a[1..], b);
    }
  }

  /** A single line is kept iff its trimmed text is non-empty. */
  lemma {:induction false} NonBlankOne(l: string)
    ensures NonBlank([l]) == if Trim(l) != "" then [l] else []
  {
    assert [l][1..] == [];
  }

  /** Each non-blank line is kept as often as it occurs; blank lines never are. */
  lemma {:induction false} NonBlankCount(ls: seq<string>)
    ensures forall l :: multiset(NonBlank(ls))[l] == if Trim(l) == "" then 0 else multiset(ls)[l]
  {
    if ls != [] {
      NonBlankCount(ls[1..]);
      assert ls == [ls[0]] + ls[1..];
    }
  }

  /** The lines of a block that are rendered. */
  function BlockLines(content: string): seq<string>
  {
    NonBlank(SplitLines(content))
  }

  /** One code fragment per line, in order. */
  function RenderLines(ls: seq<string>, st: Settings): (r: seq<string>)
    ensures |r| == |ls|
  {
    if ls == [] then [] else [BubbleHtmlLine(ParseLine(ls[0]), st, true)] + RenderLines(ls[1..], st)
  }

  /** `linesHTML`: the fragments joined by newlines. */
  function LinesHtml(content: string, st: Settings): string
  {
    Join(RenderLines(BlockLines(content), st), "\n")
  }

  // ----- Shapes -----

  /**
   * An element written as `open` (which ends inside a `style="` attribute), the style,
   * the end of the opening tag and a line break, the inner HTML and the closing text.
   */
  function Element(open: string, style: string, inner: string, close: string): string
  {
    open + style + "\">\n" + inner + close
  }

  /** The opening tag comes first, the inner HTML right after it, the closing text last. */
  lemma {:induction false} ElementShape(open: string, style: string, inner: string, close: string)
    ensures var r := Element(open, style, inner, close);
      var head := open + style + "\">\n";
      |head| <= |r| && r[..|head|] == head && r[|head|..] == inner + close
      && StartsWith(r, open) && EndsWith(r, close) && r != ""
  {
    var r := Element(open, style, inner, close);
    var head := open + style + "\">\n";
    assert r == head + (inner + close);
    assert r[..|open|] == open;
    assert r == (head + inner) + close;
  }

  lemma {:induction false} PrefixOfThree(a: string, b: string, c: string)
    ensures StartsWith(a + b + c, a)
  {
    assert (a + b + c)[..|a|] == a;
  }

  /** `t` occurs in `s`. */
  predicate Contains(s: string, t: string)
  {
    exists i :: 0 <= i <= |s| && StartsWith(s[i..], t)
  }

  lemma {:induction false} ContainsSecond(p: string, t: string, a: string, c: string)
    ensures Contains(p + t + a + c, t)
  {
    var s := p + t + a + c;
    assert s == p + (t + (a + c));
    assert s[|p|..] == t + (a + c);
    assert s[|p|..][..|t|] == t;
  }

  lemma {:induction false} ContainsAfter(p: string, x: string, t: string)
    requires Contains(x, t)
    ensures Contains(p + x, t)
  {
    var i :| 0 <= i <= |x| && StartsWith(x[i..], t);
    assert (p + x)[|p| + i..] == x[i..];
  }

  // ----- Header -----

  const HeaderStyleStart: string := "margin-bottom: 1.5em; padding: 1.5em; background: linear-gradient(135deg, "
  const HeaderStyleBorder: string := " 100%); border-radius: 16px; border: 1px solid "

  function HeaderStyle(st: Settings): string
  {
    HeaderStyleStart + AdjustColor(st.bgColor, 12) + " 0%, " + AdjustColor(st.bgColor, 6) + HeaderStyleBorder
    + AdjustColor(st.bgColor, 25) + "40;"
  }

  const TitleStyleStart: string := "margin: 0; font-size: 1.5em; font-weight: 800; color: "
  const TitleStyleEnd: string := "; letter-spacing: -0.02em;"

  function TitleStyle(st: Settings): string
  {
    TitleStyleStart + st.charColor + TitleStyleEnd
  }

  const ParagraphOpen: string := "    <p style=\""
  const LinkStyle: string := "\" target=\"_blank\" style=\"color: inherit; text-decoration: none; transition: opacity 0.2s;\">"

  /** The character name, linked when a link is set; nothing without a name. */
  function TitleHtml(st: Settings): string
  {
    if st.charName == "" then ""
    else if st.charLink != "" then
      ParagraphOpen + TitleStyle(st) + "\"><a href=\"" + st.charLink + LinkStyle + st.charName + "</a></p>\n"
    else ParagraphOpen + TitleStyle(st) + "\">" + st.charName + "</p>\n"
  }

  const BadgeStart: string := "<span style=\"display: inline-block; margin: 0 8px 8px 0; padding: 6px 12px; background: "
  const BadgeRest: string :=
    "; border-radius: 20px; font-size: 0.75em; font-weight: 600; color: #fff; line-height: 1.2; text-align: center; box-sizing: border-box;\">"

  /** A filled badge (model and prompt names). */
  function Badge(background: string, text: string): string
  {
    BadgeStart + background + BadgeRest + text + "</span>"
  }

  const OutlineStart: string :=
    "<span style=\"display: inline-block; margin: 0 8px 8px 0; padding: 5px 11px; background: transparent; border: 1px solid "
  const OutlineMiddle: string := "; border-radius: 20px; font-size: 0.75em; font-weight: 600; color: "
  const OutlineRest: string := "; line-height: 1.2; text-align: center; box-sizing: border-box;\">"

  /** An outlined badge (the sub-model name). */
  function OutlineBadge(color: string, text: string): string
  {
    OutlineStart + color + OutlineMiddle + color + OutlineRest + text + "</span>"
  }

  /** The badges pushed onto `tags`, in the order model, prompt, sub-model. */
  function Tags(st: Settings): (r: seq<string>)
    ensures |r| == (if st.aiModel != "" then 1 else 0) + (if st.promptName != "" then 1 else 0)
                   + (if st.subModel != "" then 1 else 0)
    ensures st.aiModel != "" ==> r[0] == Badge(st.badgeModelColor, st.aiModel)
    ensures st.promptName != "" ==> r[if st.aiModel != "" then 1 else 0] == Badge(st.badgePromptColor, st.promptName)
    ensures st.subModel != "" ==> r[|r| - 1] == OutlineBadge(st.badgeSubColor, st.subModel)
  {
    var none: seq<string> := [];
    var model := if st.aiModel != "" then none + [Badge(st.badgeModelColor, st.aiModel)] else none;
    var prompt := if st.promptName != "" then model + [Badge(st.badgePromptColor, st.promptName)] else model;
    if st.subModel != "" then prompt + [OutlineBadge(st.badgeSubColor, st.subModel)] else prompt
  }

  const InnerDivOpen: string := "    <div style=\""
  const MarginTop: string := "margin-top: 1em;"

  /** The badge row, pushed down by a margin when a name stands above it. */
  function TagsHtml(tags: seq<string>, st: Settings): string
  {
    if |tags| > 0 then
      InnerDivOpen + (if st.charName != "" then MarginTop else "") + "\">" + Join(tags, "") + "</div>\n"
    else ""
  }

  predicate HasHeader(st: Settings)
  {
    st.charName != "" || st.aiModel != "" || st.promptName != "" || st.subModel != ""
  }

  const OuterDivOpen: string := "  <div style=\""
  const OuterDivClose: string := "  </div>\n"

  /** `headerHTML`. */
  function HeaderHtml(st: Settings): string
  {
    if HasHeader(st) then Element(OuterDivOpen, HeaderStyle(st), TitleHtml(st) + TagsHtml(Tags(st), st), OuterDivClose)
    else ""
  }

  /** The header is emitted exactly when a name, a model, a prompt or a sub-model is set. */
  lemma {:induction false} HeaderPresent(st: Settings)
    ensures HeaderHtml(st) != "" <==> HasHeader(st)
    ensures HasHeader(st) ==> StartsWith(HeaderHtml(st), OuterDivOpen)
  {
    if HasHeader(st) {
      ElementShape(OuterDivOpen, HeaderStyle(st), TitleHtml(st) + TagsHtml(Tags(st), st), OuterDivClose);
    }
  }

  /** A header without a name has no title and no margin above its badges. */
  lemma {:induction false} NamelessHeader(st: Settings)
    requires st.charName == "" && HasHeader(st)
    ensures TitleHtml(st) == ""
    ensures TagsHtml(Tags(st), st) == InnerDivOpen + "\">" + Join(Tags(st), "") + "</div>\n"
  {
  }

  // ----- Sections -----

  const DetailsBorder: string := " 0; border: 1px solid "
  const DetailsRest: string := "; border-radius: 12px; overflow: hidden;"

  function DetailsSectionStyle(index: nat, st: Settings): string
  {
    "margin: " + (if index > 0 then "1.5em" else "0") + DetailsBorder + AdjustColor(st.bgColor, 30) + DetailsRest
  }

  const SummaryStart: string := "padding: 1em 1.25em; background: "
  const SummaryMiddle: string := "; cursor: pointer; font-weight: 600; font-size: 1.1em; color: "
  const SummaryRest: string := "; list-style: none; display: flex; align-items: center; gap: 0.5em;"

  function SummaryStyle(st: Settings): string
  {
    SummaryStart + AdjustColor(st.bgColor, 10) + SummaryMiddle + st.charColor + SummaryRest
  }

  const PaddingTop: string := "padding-top: 1.5em; "
  const BorderTopStart: string := "border-top: 1px solid "

  /** The top border that separates a labelled section from the one before it. */
  function BorderTop(index: nat, st: Settings): string
  {
    if index > 0 then PaddingTop + BorderTopStart + AdjustColor(st.bgColor, 25) + ";" else ""
  }

  function LabelledSectionStyle(index: nat, st: Settings): string
  {
    "margin: " + (if index > 0 then "2em" else "0") + " 0 0 0; " + BorderTop(index, st)
  }

  const LabelStyleStart: string :=
    "margin: 0 0 1em 0; font-size: 0.75em; font-weight: 600; text-transform: uppercase; letter-spacing: 0.1em; color: "

  function LabelStyle(st: Settings): string
  {
    LabelStyleStart + AdjustColor(st.textColor, -60) + ";"
  }

  const SummaryOpen: string := "    <summary style=\""
  const SummaryClose: string := "</summary>\n"

  /** The summary line of a foldable section: the escaped title behind a triangle. */
  function Summary(b: Block, st: Settings): string
  {
    SummaryOpen + SummaryStyle(st) + "\">▼ " + EscapeHtml(b.title) + SummaryClose
  }

  /** The label of a section: the escaped title. */
  function Label(b: Block, st: Settings): string
  {
    ParagraphOpen + LabelStyle(st) + "\">" + EscapeHtml(b.title) + "</p>\n"
  }

  const DetailsOpen: string := "  <details open style=\""
  const DetailsBody: string := "    <div style=\"padding: 1.25em;\">\n"
  const DetailsClose: string := "\n    </div>\n  </details>"
  const SectionClose: string := "\n  </div>"

  /** The HTML of the block at `index` among `count` blocks with content. */
  function SectionHtml(b: Block, index: nat, count: nat, st: Settings): string
  {
    var linesHtml := LinesHtml(b.content, st);
    if b.collapsible then
      Element(DetailsOpen, DetailsSectionStyle(index, st), Summary(b, st) + (DetailsBody + linesHtml), DetailsClose)
    else if count > 1 then
      Element(OuterDivOpen, LabelledSectionStyle(index, st), Label(b, st) + linesHtml, SectionClose)
    else linesHtml
  }

  /** A foldable block is an open `<details>` element whose summary holds the escaped title. */
  lemma {:induction false} CollapsibleSection(b: Block, index: nat, count: nat, st: Settings)
    requires b.collapsible
    ensures var r := SectionHtml(b, index, count, st);
      var head := DetailsOpen + DetailsSectionStyle(index, st) + "\">\n";
      StartsWith(r, head) && StartsWith(r[|head|..], Summary(b, st)) && EndsWith(r, DetailsClose)
  {
    var sum, lines := Summary(b, st), LinesHtml(b.content, st);
    ElementShape(DetailsOpen, DetailsSectionStyle(index, st), sum + (DetailsBody + lines), DetailsClose);
    PrefixOfThree(sum, DetailsBody + lines, DetailsClose);
  }

  /** A single block without folding is left bare: no label and no section wrapper. */
  lemma {:induction false} SingleBlockBare(b: Block, st: Settings)
    requires !b.collapsible
    ensures SectionHtml(b, 0, 1, st) == LinesHtml(b.content, st)
  {
  }

  /** With several blocks, a block without folding is a section whose label is the escaped title. */
  lemma {:induction false} LabelledSection(b: Block, index: nat, count: nat, st: Settings)
    requires !b.collapsible && count > 1
    ensures var r := SectionHtml(b, index, count, st);
      var head := OuterDivOpen + LabelledSectionStyle(index, st) + "\">\n";
      StartsWith(r, head) && StartsWith(r[|head|..], Label(b, st)) && EndsWith(r, SectionClose)
  {
    var lab, lines := Label(b, st), LinesHtml(b.content, st);
    ElementShape(OuterDivOpen, LabelledSectionStyle(index, st), lab + lines, SectionClose);
    PrefixOfThree(lab, lines, SectionClose);
  }

  /** Only a section after the first is separated by a top border. */
  lemma {:induction false} BorderTopAfterFirst(index: nat, st: Settings)
    ensures Contains(LabelledSectionStyle(index, st), BorderTopStart) <==> index > 0
  {
    var s := LabelledSectionStyle(index, st);
    if index > 0 {
      ContainsSecond(PaddingTop, BorderTopStart, AdjustColor(st.bgColor, 25), ";");
      ContainsAfter("margin: " + "2em" + " 0 0 0; ", BorderTop(index, st), BorderTopStart);
    } else {
      assert |s| == 17 < |BorderTopStart|;
    }
  }

  // ----- Blocks -----

  /** `logBlocks.filter(b => b.content.trim() !== "")`. */
  function Contentful(bs: seq<Block>): (r: seq<Block>)
    ensures forall b :: b in r <==> b in bs && Trim(b.content) != ""
  {
    if bs == [] then []
    else if Trim(bs[0].content) == "" then Contentful(bs[1..])
    else [bs[0]] + Contentful(bs[1..])
  }

  /** Filtering distributes over concatenation: the blocks keep their order. */
  lemma {:induction false} ContentfulConcat(a: seq<Block>, b: seq<Block>)
    ensures Contentful(a + b) == Contentful(a) + Contentful(b)
  {
    if a == [] {
      assert a + b == b;
    } else {
      assert (a + b)[0] == a[0] && (a + b)[1..] == a[1..] + b;
      ContentfulConcat(a[1..], b);
    }
  }

  /** A single block is kept iff its trimmed content is non-empty. */
  lemma {:induction false} ContentfulOne(b: Block)
    ensures Contentful([b]) == if Trim(b.content) != "" then [b] else []
  {
    assert [b][1..] == [];
  }

  /** The sections of the blocks from position `index` on. */
  function RenderBlocks(bs: seq<Block>, index: nat, count: nat, st: Settings): (r: seq<string>)
    ensures |r| == |bs|
  {
    if bs == [] then [] else [SectionHtml(bs[0], index, count, st)] + RenderBlocks(bs[1..], index + 1, count, st)
  }

  /** `blocksHTML`. */
  function BlocksHtml(cs: seq<Block>, st: Settings): string
  {
    Join(RenderBlocks(cs, 0, |cs|, st), "\n")
  }

  // ----- Container -----

  /** One declaration `prop: value` of the container's inline style. */
  datatype Declaration = Declaration(prop: string, value: string)

  function DeclarationText(d: Declaration): string
  {
    d.prop + ": " + d.value
  }

  function DeclarationTexts(ds: seq<Declaration>): (r: seq<string>)
    ensures |r| == |ds|
    ensures forall k :: 0 <= k < |ds| ==> r[k] == DeclarationText(ds[k])
  {
    if ds == [] then [] else [DeclarationText(ds[0])] + DeclarationTexts(ds[1..])
  }

  /** The declarations every container has. */
  function BaseDeclarations(st: Settings): seq<Declaration>
  {
    [Declaration("max-width", st.containerWidth + "px"), Declaration("margin", "0 auto"),
     Declaration("padding", st.containerPadding + "em"), Declaration("background", st.bgColor),
     Declaration("color", st.textColor), Declaration("font-family", st.fontFamily),
     Declaration("font-size", st.fontSize + "px"), Declaration("line-height", st.lineHeight),
     Declaration("letter-spacing", st.letterSpacing + "em"), Declaration("border-radius", st.borderRadius + "px"),
     Declaration("box-sizing", "border-box")]
  }

  function BorderDeclaration(st: Settings): Declaration
  {
    Declaration("border", IntToString(st.borderWidth) + "px solid " + st.borderColor)
  }

  const ShadowStart: string := "0 4px 24px rgba(0, 0, 0, "

  /** The shadow's opacity is `(shadowIntensity / 100).toFixed(2)`. */
  function ShadowDeclaration(st: Settings): Declaration
  {
    Declaration("box-shadow", ShadowStart + ToFixed2(st.shadowIntensity) + ")")
  }

  /** `containerStyleParts` after the optional pushes. */
  function ContainerDeclarations(st: Settings): seq<Declaration>
  {
    var base := BaseDeclarations(st);
    var bordered := if st.borderWidth > 0 then base + [BorderDeclaration(st)] else base;
    if st.boxShadow then bordered + [ShadowDeclaration(st)] else bordered
  }

  /** Some declaration of the list sets the property `prop`. */
  predicate Declares(ds: seq<Declaration>, prop: string)
  {
    exists k :: 0 <= k < |ds| && ds[k].prop == prop
  }

  /** No declaration every container has sets `border` or `box-shadow`. */
  lemma {:induction false} BaseDeclares(st: Settings)
    ensures !Declares(BaseDeclarations(st), "border") && !Declares(BaseDeclarations(st), "box-shadow")
  {
    var ds := BaseDeclarations(st);
    forall k | 0 <= k < |ds|
      ensures ds[k].prop != "border" && ds[k].prop != "box-shadow"
    {
      if k == 3 {
        assert ds[k].prop[1] != "box-shadow"[1];
      } else if k == 10 {
        assert ds[k].prop[5] != "box-shadow"[5];
      }
    }
  }

  /** A border is declared exactly when its width is positive. */
  lemma {:induction false} BorderDeclared(st: Settings)
    ensures Declares(ContainerDeclarations(st), "border") <==> st.borderWidth > 0
  {
    var ds := ContainerDeclarations(st);
    BaseDeclares(st);
    if st.borderWidth > 0 {
      assert ds[11] == BorderDeclaration(st);
    }
  }

  /** A shadow is declared exactly when it is switched on, whatever its intensity. */
  lemma {:induction false} ShadowDeclared(st: Settings)
    ensures Declares(ContainerDeclarations(st), "box-shadow") <==> st.boxShadow
  {
    var ds := ContainerDeclarations(st);
    BaseDeclares(st);
    if st.boxShadow {
      assert ds[|ds| - 1] == ShadowDeclaration(st);
    }
  }

  /** A shadow of intensity 0 is still written out, with opacity `0.00`. */
  lemma {:induction false} ShadowZero(st: Settings)
    requires st.boxShadow && st.shadowIntensity == 0
    ensures var ds := ContainerDeclarations(st);
      ds[|ds| - 1] == Declaration("box-shadow", ShadowStart + "0.00)")
  {
    assert NatToString(0) == "0";
    assert ToFixed2(0) == "0.00";
  }

  /** `containerStyle`. */
  function ContainerStyle(st: Settings): string
  {
    Join(DeclarationTexts(ContainerDeclarations(st)), "; ")
  }

  // ----- Document -----

  const ContainerOpen: string := "<div style=\""
  const ContainerClose: string := "\n</div>"

  /** The document for the block list: empty when no block has content. */
  function DocumentHtml(blocks: seq<Block>, st: Settings): string
  {
    var cs := Contentful(blocks);
    if cs == [] then ""
    else Element(ContainerOpen, ContainerStyle(st), HeaderHtml(st) + BlocksHtml(cs, st), ContainerClose)
  }

  /** No block has content exactly when every block is blank. */
  lemma {:induction false} ContentfulEmpty(blocks: seq<Block>)
    ensures Contentful(blocks) == [] <==> forall k :: 0 <= k < |blocks| ==> AllWhite(blocks[k].content)
  {
    forall k | 0 <= k < |blocks|
      ensures Trim(blocks[k].content) == "" <==> AllWhite(blocks[k].content)
    {
      TrimEmpty(blocks[k].content);
    }
    var cs := Contentful(blocks);
    if cs != [] {
      assert cs[0] in blocks;
    } else {
      forall k | 0 <= k < |blocks|
        ensures Trim(blocks[k].content) == ""
      {
        assert blocks[k] !in cs;
      }
    }
  }

  /** The document is empty exactly when every block is blank. */
  lemma {:induction false} DocumentEmpty(blocks: seq<Block>, st: Settings)
    ensures DocumentHtml(blocks, st) == "" <==> forall k :: 0 <= k < |blocks| ==> AllWhite(blocks[k].content)
  {
    ContentfulEmpty(blocks);
    var cs := Contentful(blocks);
    if cs != [] {
      ElementShape(ContainerOpen, ContainerStyle(st), HeaderHtml(st) + BlocksHtml(cs, st), ContainerClose);
    }
  }

  /** A blank line of a block renders as nothing: only lines with text are classified. */
  lemma {:induction false} BlankLinesDropped(content: string)
    ensures forall l :: l in BlockLines(content) <==> l in SplitLines(content) && !AllWhite(l)
    ensures forall l :: multiset(BlockLines(content))[l] == if AllWhite(l) then 0 else multiset(SplitLines(content))[l]
  {
    NonBlankCount(SplitLines(content));
    forall l
      ensures Trim(l) == "" <==> AllWhite(l)
    {
      TrimEmpty(l);
    }
  }

  /** The header of `generateHTML()`: the badges are pushed onto `tags` one by one. */
  method BuildHeader(st: Settings) returns (headerHtml: string)
    ensures headerHtml == HeaderHtml(st)
  {
    headerHtml := "";
    if HasHeader(st) {
      var tags: seq<string> := [];
      if st.aiModel != "" {
        tags := tags + [Badge(st.badgeModelColor, st.aiModel)];
      }
      if st.promptName != "" {
        tags := tags + [Badge(st.badgePromptColor, st.promptName)];
      }
      if st.subModel != "" {
        tags := tags + [OutlineBadge(st.badgeSubColor, st.subModel)];
      }
      headerHtml := Element(OuterDivOpen, HeaderStyle(st), TitleHtml(st) + TagsHtml(tags, st), OuterDivClose);
    }
  }

  /** The container style of `generateHTML()`: the optional declarations are pushed in turn. */
  method BuildContainerStyle(st: Settings) returns (style: string)
    ensures style == ContainerStyle(st)
  {
    var parts := BaseDeclarations(st);
    if st.borderWidth > 0 {
      parts := parts + [BorderDeclaration(st)];
    }
    if st.boxShadow {
      parts := parts + [ShadowDeclaration(st)];
    }
    style := Join(DeclarationTexts(parts), "; ");
  }

  /** `generateHTML()`: nothing when every block is blank, else the container. */
  method GenerateHtml(blocks: seq<Block>, st: Settings) returns (html: string)
    ensures html == DocumentHtml(blocks, st)
    ensures html == "" <==> forall k :: 0 <= k < |blocks| ==> AllWhite(blocks[k].content)
  {
    DocumentEmpty(blocks, st);
    var blocksWithContent := Contentful(blocks);
    if blocksWithContent == [] {
      return "";
    }
    var headerHtml := BuildHeader(st);
    var blocksHtml := BlocksHtml(blocksWithContent, st);
    var containerStyle := BuildContainerStyle(st);
    html := Element(ContainerOpen, containerStyle, headerHtml + blocksHtml, ContainerClose);
  }
}
