# logstudio core in Dafny

logstudio is a browser tool that turns a role-play chat transcript into one piece of
inline-styled HTML that can be pasted into other sites. The transcript is a list of
blocks. Each line of a block is one of three kinds:
- a user line, written with a leading `<`;
- an AI line, written with a leading `>`;
- narration, anything else.

A small markup language applies inside a line: `**bold**`, `*italic*`, `"dialogue"` and
`“dialogue”`. A settings record controls every colour, size and switch. The tool also
has a small rich-text editor page with a few string utilities of its own.

This project models the parts of both that hold real logic, in the form the code has.

**From `main.js`:**
- The escape helpers, `adjustColor` and the contrast test `getContrastTextColor`:
  modules `Escape` and `Color`.
- The line classifier `parseLine`: module `LineParse`.
- The markup resolvers `parseMarkdown` and `parseMarkdownForBubble`: modules `Markdown`,
  `MarkdownProps` and `MarkdownCases`.
  - They are methods that run the placeholder passes and the restoring loop.
  - Each regular expression is an explicit left-to-right scanner.
  - The renderer uses both resolvers as written. The variant with the italic pass
    corrected (`MarkdownHtmlCorrected`, `BubbleHtmlCorrected`) serves only the
    findings below.
- The per-line fragment builder `generateBubbleHTML` and `getParagraphStyle`:
  module `Bubbles`.
- The document composer `generateHTML`: module `Document`.
  - It is a method that fills the `tags` and `containerStyleParts` arrays.
  - Its specification functions are proved to have the promised properties.
- The block list: class `Blocks.BlockList`, with fields `blocks` and `counter`.
  - Operations: create, remove, update, and the drag-and-drop reorder.
- The user-preset list: class `Presets.PresetStore`.
  - Operations: upsert by name, delete by name, load.
- The settings record: an immutable value, `Config.Settings`.

**From `post.js`:**
- `rgbToHex`: module `RgbHex`.
- The indentation pretty-printer `formatHTML`: module `FormatHtml`.
  - It is a loop over the lines that updates an indent counter.
- The colour-stop step of `buildGradientString`: module `Gradient`.
  - A push loop, then a stable sort by the parsed position.
- The r×c table markup loop of the insert-table button: module `Table`.

**Shared JavaScript built-ins:**
- `JsString` holds `trim`, `split`, `join`, `replace` and `padStart`.
- `JsNumber` holds `parseInt` (white space, sign, `0x` prefix, longest digit prefix),
  `toString(16)`, decimal printing, `toFixed(2)` on hundredths, and `ToInt32` for
  the `>>` and `&` operators.

## What the code does not do

The code has these limits, and the model keeps them:
- The line classifier knows only `<`, `>` and narration. There are no heading or divider
  lines, and no `<<`/`>>` markers.
- The markup resolver has no image extraction and no single-quote highlighting.
- The container background is a flat colour only.
- Numbers from the settings are not clamped.
- A shadow of intensity 0 is still written out, as `rgba(0, 0, 0, 0.00)`. It is not
  omitted; see `Document.ShadowZero`.

## Model

| member | source | states |
|---|---|---|
| Escape.EscapeHtml | main.js:17-22 | The three replaces, `&` first, equal an escape character by character. The result holds no `<` and no `>`. |
| Escape.UnescapeEscape | main.js:754-759 | Decoding `&amp;`, `&lt;` and `&gt;` in the escaped text gives back the input exactly. So the escape loses nothing. |
| Escape.EscapeAmpersands | main.js:17-22 | Every `&` in the escaped text starts one of `&amp;`, `&lt;` and `&gt;`. |
| Escape.EscapeKeeps | main.js:17-22 | A character other than `&`, `;`, `<`, `>` and the letters of the entity names is in the output iff it is in the input. |
| Escape.EscapeNothing | main.js:17-22 | Text without `&`, `<` and `>` is unchanged. |
| Escape.EscapeAttr | main.js:119-121 | The two replaces equal an escape character by character, and the result holds no `"` and no `'`. |
| Escape.UnescapeEscapeAttr | main.js:119-121 | For text without `&`, decoding `&quot;` and `&#39;` gives back the input. |
| Color.Clamp | main.js:433-435 | `Math.min(255, Math.max(0, v))` lies in 0..255, keeps values in range, and maps values below to 0 and values above to 255. |
| Color.ColorNumber | main.js:432 | `parseInt(hex.replace("#", ""), 16)` after the 32-bit conversion of `>>` and `&` stays within the signed 32-bit range. |
| Color.AdjustColor | main.js:431-437 | The result is always `#` and six lower-case hex digits, whatever the input: NaN reads as 0 and each channel is clamped. |
| Color.ReadHex6 | main.js:431-437 | A `#rrggbb` written from channels reads back as `r·65536 + g·256 + b`. |
| Color.AdjustHex6 | main.js:431-437 | Adjusting a lower-case `#rrggbb` by `amount` gives each channel plus `amount`, clamped to 0..255. |
| Color.AdjustZero | main.js:431-437 | Amount 0 on a lower-case `#rrggbb` gives back the same colour. |
| Color.Hex6Onto | main.js:431-437 | Every lower-case `#rrggbb` string is the writing of its own three channels, so `AdjustZero` covers all such strings. |
| Color.ContrastTextColor | main.js:541-549 | The result is always `#1a1a1a` or `#f5f5f5`. |
| Color.ContrastHex6 | main.js:541-549 | For a `#rrggbb` colour the dark text is chosen iff `299r + 587g + 114b > 128000`, in integers with no division. |
| Color.ContrastUnparsed | main.js:541-549 | When the red pair does not parse as hex, the brightness is NaN and the light text is chosen. |
| Color.ContrastGrey | main.js:541-549 | A grey `#xxxxxx` gets dark text iff `x·1000 > 128000`, so a brightness of exactly 128 gets the light text. |
| Color.ContrastWhite | main.js:541-549 | White gets the dark text. |
| Color.ContrastBlack | main.js:541-549 | Black gets the light text. |
| Color.ContrastMidGrey | main.js:541-549 | `#808080`, brightness exactly 128, gets the light text. |
| LineParse.ParseLine | main.js:514-538 | The payload never has white space at either end. |
| LineParse.ParseLineCases | main.js:514-538 | Exactly one kind for every line. User iff the trimmed line starts with `<`; AI iff it starts with `>`. Narration iff it is empty or starts with neither. The payload is the trimmed text after the marker, or the whole trimmed line for narration. |
| LineParse.ParseUnparse | main.js:514-538 | Writing the marker of the parsed kind in front of the payload and parsing again gives the same record. |
| LineParse.ParseMarked | main.js:514-538 | A marker followed by trimmed content parses to that kind and that content. |
| LineParse.ParseUnmarked | main.js:532-536 | A trimmed line that starts with neither marker is narration holding the whole line. |
| LineParse.ParsePadded | main.js:515 | White space around a line does not change how it parses. |
| Markdown.CloseStars | main.js:452 | The lazy `(.+?)\*\*` stops at the first `**` after at least one character that is not a line terminator. |
| Markdown.FindClose | main.js:462-487 | The scanner for `[^c]+c` finds the first closing character, or reports that there is none. |
| Markdown.MatchAt | main.js:452-469 | A match is an opening delimiter, a non-empty body and the closing delimiter. For the quote and italic patterns the body holds no closing character. For bold the body holds no line terminator, and the closing `**` is the first one after the body's first character: on `****a**` the body is `**a`. |
| Markdown.Scan | main.js:452-498 | One replace pass only appends to the side table, and only entries of its own kind. |
| Markdown.Restore | main.js:501-503 | The restoring loop replaces each entry's token, first occurrence only, in creation order. |
| Markdown.ParseMarkdown | main.js:440-506 | The method runs escape, the bold, italic, straight-quote and curly-quote passes, and the restore loop, as written: the italic pass stores its content without restoring earlier tokens. Its result is `MarkdownHtml`, the as-written resolver proved about in `MarkdownProps` and `MarkdownCases`. |
| Markdown.ParseMarkdownForBubble | main.js:552-591 | The same for the bubble variant as written: escape, bold, italic, restore. Its result is `BubbleHtml`. |
| MarkdownProps.MarkdownNoPlaceholders | main.js:462-503 | With the italic pass corrected to restore earlier tokens, as the quote passes do, no placeholder token survives the full resolver, whatever the text. |
| MarkdownProps.BubbleNoPlaceholders | main.js:573-590 | With the same correction, no placeholder token survives the bubble resolver. |
| MarkdownProps.ResolveCleanAsWritten | main.js:452-503 | When the first pass is the bold pass and every pass after the second restores earlier tokens, text without `**` leaves no token: the bold pass stores nothing for the non-restoring italic pass to capture. |
| MarkdownProps.MarkdownNoPlaceholdersAsWritten | main.js:440-506 | As written, no placeholder token survives the full resolver for text without `**`. |
| MarkdownProps.BubbleNoPlaceholdersAsWritten | main.js:552-591 | As written, no placeholder token survives the bubble resolver for text without `**`. |
| MarkdownProps.ResolveSafe | main.js:442-445 | For any list of passes, no `<` or `>` from the user's text reaches the output as text; angle brackets come only from the stored markup. |
| MarkdownProps.MarkdownPlain | main.js:440-506 | A line without `*`, `"` or `“` comes out escaped and otherwise unchanged. |
| MarkdownProps.BubblePlain | main.js:552-591 | A line without `*` comes out of the bubble resolver escaped and otherwise unchanged: quotes stay literal. |
| MarkdownProps.BubbleEmphasisOnly | main.js:562-590 | The bubble resolver stores only bold and italic HTML, never a dialogue span. |
| MarkdownProps.RenderTexts | main.js:442-445 | Plain text pieces render as the text itself. |
| MarkdownCases.MarkdownBoldFirst | main.js:452-469 | `**x**` where `x` holds a lone `*` pair gives one bold span around the literal `x`: italics do not apply inside bold. |
| MarkdownCases.BubbleBoldFirst | main.js:563-580 | The same for the bubble variant. |
| MarkdownCases.MarkdownQuote | main.js:472-484 | `"x"` becomes a dialogue span that keeps both quote characters around `x`. |
| MarkdownCases.MarkdownCurlyQuote | main.js:487-498 | `“x”` becomes a dialogue span that keeps both curly quotes around `x`. |
| MarkdownCases.MarkdownQuotedBold | main.js:472-484 | As written, `"**x**"` becomes a dialogue span holding the bold span around `x`: the quote pass restores the bold token in its content, so none is left. |
| MarkdownCases.MarkdownStarsUnclosed | main.js:452-469 | An opening `**` followed by text with no `*`, at most one `"` and no `”` stays literal: neither emphasis pattern matches. |
| MarkdownCases.BubbleStarsUnclosed | main.js:563-580 | The same for the bubble variant, for text after the `**` without `*`. |
| MarkdownCases.MarkdownUnmatched | main.js:440-506 | With at most one `*`, at most one `"` and no `”`, the line comes out as it is: an unmatched `*` or quote stays literal. |
| MarkdownCases.BubbleUnmatched | main.js:552-591 | With at most one `*`, the bubble resolver leaves the line as it is. |
| MarkdownCases.ItalicLeaksBold | main.js:462-469 | As written, `*a**b**c*` renders as an italic span holding the literal token `__BOLD_0__`. |
| MarkdownCases.ItalicNestsBold | main.js:462-469 | With the italic pass restoring earlier tokens, as the quote passes do (`MarkdownHtmlCorrected`), `*a**b**c*` renders as italic `a`, bold `b`, `c`. |
| MarkdownCases.BubbleLeaksBold | main.js:573-580 | As written, the bubble variant leaks `__BOLD_0__` on the same input. |
| MarkdownCases.BubbleNestsBold | main.js:573-580 | The corrected bubble variant nests the bold span inside the italic one. |
| Bubbles.ParagraphStyleAlign | main.js:509-511 | Two settings give the same paragraph style iff their text alignment is the same. |
| Bubbles.AiNametagInsert | main.js:599-610 | For an AI line, the name-tag switch inserts the speaker's tag right after the bubble's opening `div` and changes nothing else. |
| Bubbles.UserNametagInsert | main.js:611-623 | The same for a user line, after the wrapper and bubble `div`s. |
| Bubbles.NameTagEscaped | main.js:607-620 | The name in a tag is HTML-escaped and holds no `<` or `>`. |
| Bubbles.NarrationIgnoresNames | main.js:624-629 | Narration does not depend on the name-tag switch or on either name. |
| Bubbles.UserLineBubble | main.js:611-623 | A line written with `<` renders as the wrapper `div`, the user bubble `div`, the user's name tag when tags are shown, the bubble resolver's output (as written) for the text after the marker, and both closing tags. |
| Bubbles.AiLineBubble | main.js:599-610 | A line written with `>` renders as the AI bubble `div`, the character's name tag when tags are shown, the bubble resolver's output (as written) for the text after the marker, and the closing tag. |
| Bubbles.NarrationParagraph | main.js:624-629 | A line without a marker renders as a paragraph holding `parseMarkdown`'s output, as written, for the trimmed line. |
| Document.Tags | main.js:663-673 | There is one badge per non-empty model, prompt and sub-model name, in that order: the model badge first, the prompt badge right after it (or first without a model), and the sub-model badge last. |
| Document.HeaderPresent | main.js:642-681 | The header is emitted iff one of charName, aiModel, promptName or subModel is non-empty. |
| Document.NamelessHeader | main.js:651-678 | Without a character name there is no title and the badge row has no top margin. |
| Document.CollapsibleSection | main.js:692-702 | A foldable block is an open `<details>` element whose summary holds the escaped title. |
| Document.SingleBlockBare | main.js:703-715 | A single block without folding is left bare: no label and no wrapper. |
| Document.LabelledSection | main.js:705-712 | With several contentful blocks, a block without folding is a section labelled with its escaped title. |
| Document.BorderTopAfterFirst | main.js:706 | A labelled section has a top border iff it is not the first. |
| Document.Contentful | main.js:635 | The kept blocks are exactly those whose trimmed content is non-empty. |
| Document.ContentfulConcat | main.js:635 | The filter of a concatenation is the concatenation of the filters, so the kept blocks keep their order and their repeats. |
| Document.ContentfulOne | main.js:635 | One block is kept iff its trimmed content is non-empty; with `ContentfulConcat` this fixes the whole result. |
| Document.BaseDeclares | main.js:720-732 | The fixed container declarations hold neither a border nor a shadow. |
| Document.BorderDeclared | main.js:734-737 | The container style declares a border iff borderWidth > 0. |
| Document.ShadowDeclared | main.js:739-743 | The container style declares a shadow iff boxShadow is on. |
| Document.ShadowZero | main.js:739-743 | With intensity 0 the shadow is still written, with opacity `0.00`. |
| Document.NonBlank | main.js:685 | The kept lines are exactly those whose trimmed text is non-empty. |
| Document.NonBlankConcat | main.js:685 | The filter of a concatenation is the concatenation of the filters: lines keep their order and their repeats. |
| Document.NonBlankOne | main.js:685 | One line is kept iff its trimmed text is non-empty; with `NonBlankConcat` this fixes the whole result. |
| Document.NonBlankCount | main.js:685 | A non-blank line is kept exactly as many times as it occurs, a blank one never. |
| Document.BlankLinesDropped | main.js:685 | A line of a block is rendered iff it is one of the `\r?\n`-separated lines and is not all white space, and it is rendered as many times as it occurs among them. |
| Document.DocumentEmpty | main.js:635-639 | The document is `""` iff every block's content is white space only. |
| Document.BuildHeader | main.js:642-681 | The method that pushes the badges and builds the header computes the header function. |
| Document.BuildContainerStyle | main.js:720-745 | The method that pushes the declarations and joins them computes the container style. |
| Document.GenerateHtml | main.js:633-752 | `generateHTML` computes the document function, whose lines go through the resolvers as written, and returns `""` iff no block has content. |
| Blocks.DefaultTitle | main.js:131 | The title is never empty, and a given non-empty title is kept. |
| JsArray.FirstIndex | main.js:213-214 | `findIndex` on a key: the index of the first element with that key, or -1 iff there is none. `Blocks.FindIndex` (by id) and `Presets.FindName` (by name, main.js:73) are its two uses. |
| Blocks.WithoutId | main.js:144 | The kept blocks are exactly those with another id. |
| Blocks.MovedPermutation | main.js:213-227 | The reordered list is a permutation of the old one. |
| Blocks.MovedKeepsOrder | main.js:213-227 | The dragged block is at the insert index, and taking it out again gives the old list without it: the others keep their relative order. |
| Blocks.MovedBesideTarget | main.js:218-227 | The dragged block ends right above the target when dropped on its upper half, else right below it. |
| Blocks.MovedUnique | main.js:213-227 | Reordering keeps block ids distinct and below the counter. |
| Blocks.WithoutUnique | main.js:144 | Removing keeps block ids distinct and below the counter. |
| Blocks.BlockList.constructor | main.js:124-125 | The list starts empty with the counter at 0. |
| Blocks.BlockList.Create | main.js:127-141 | A block with the old counter as id and the default title is appended, and the counter grows by one. It is then found at the end of the list. |
| Blocks.BlockList.Remove | main.js:143-148 | The list becomes the old list without blocks of that id, and no such block is found any more. |
| Blocks.BlockList.Update | main.js:150-157 | The first block with that id gets the given fields and nothing else changes; an unknown id changes nothing. |
| Blocks.BlockList.Drop | main.js:204-231 | With a drag in progress onto another block whose ids are both found, the list is reordered as `Moved` says; otherwise it is unchanged. |
| Presets.SaveThenLoad | main.js:63-117 | Loading a name right after saving it gives the saved settings. |
| Presets.SaveKeepsOthers | main.js:64-85 | Saving one name does not change what any other name loads. |
| Presets.SaveDistinct | main.js:73-78 | Upserting keeps preset names distinct. |
| Presets.DeleteThenLoad | main.js:96-104 | After deleting a name, loading it finds nothing. |
| Presets.DeleteKeepsOthers | main.js:96-104 | Deleting one name does not change what any other name loads. |
| Presets.PresetStore.constructor | main.js:87-94 | The store starts with no presets. |
| Presets.PresetStore.Save | main.js:64-85 | The list becomes the upsert of the new preset, and distinct names stay distinct. |
| Presets.PresetStore.Delete | main.js:96-104 | The list becomes the old list without presets of that name. |
| Presets.PresetStore.Load | main.js:106-117 | Something is found iff a preset of that name exists, and it is that preset's settings. |
| RgbHex.RgbToHex | post.js:152-163 | A result for input not starting with `#` comes from a match and is `#` plus lower-case hex digits. |
| RgbHex.SpecialColors | post.js:153-154 | Empty input, `transparent` and `rgba(0, 0, 0, 0)` give null, and a `#` colour comes back as it is. |
| RgbHex.NoMatchIsNull | post.js:156-157 | Input that starts with neither `#` nor `rgb(`/`rgba(` gives null. |
| RgbHex.RgbRoundTrip | post.js:156-162 | For `rgb(r, g, b…` or `rgba(…` with channels 0..255, the result is `#` and six lower-case hex digits whose pairs read back as r, g and b. |
| RgbHex.Matched | post.js:156-162 | Whenever the pattern matches, the result is the hex writing of the three captures. |
| RgbHex.HexPair | post.js:159-161 | `parseInt(d).toString(16).padStart(2, '0')` has at least two lower-case hex digits whose value is the decimal value of `d`. |
| RgbHex.MatchRgbOf | post.js:156 | `rgb(` and `rgba(` are both accepted as the opening. |
| Gradient.KeyOfStop | post.js:258-263 | The sort key read back from a stop's text is the stop's position, when the position is a decimal whole number and the colour has no space. |
| Gradient.SortSorted | post.js:258-263 | Sorting texts that all have a key leaves no text after one with a smaller key. |
| Gradient.SortStable | post.js:258-263 | The sort keeps texts of equal key in their original order. |
| Gradient.InsertSorted | post.js:258-263 | Inserting into a sorted sequence of keyed texts keeps it sorted. |
| Gradient.InsertWithKey | post.js:258-263 | Inserting adds the text behind those of its own key and moves no other text of that key. |
| Gradient.GradientStops | post.js:245-264 | `linear-gradient(dir, …)` holds exactly the stops' texts, each once, in non-decreasing position order. Stops of equal position keep the editor's order. |
| Gradient.CollectTexts | post.js:250-256 | The `forEach` pushes one `color pos%` text per stop, in order. |
| Gradient.BuildGradient | post.js:245-264 | The method computes the gradient string the lemmas are about. |
| Table.DimensionOfNumber | post.js:809-810 | A non-zero whole number written in decimal gives that many rows or columns. |
| Table.DimensionFallback | post.js:809-810 | An answer `parseInt` reads as NaN or 0 gives 3. |
| Table.NonNumericAnswer | post.js:809-810 | An answer that does not start with a digit or sign after white space gives 3. |
| Table.DataRows | post.js:813-824 | The rows are one header row followed by identical data rows. |
| Table.TableClosedForm | post.js:812-825 | With r > 0 the table is one row of c `<th>` cells, then r - 1 rows of c `<td>` cells, then `</table><p><br></p>`. With r <= 0 it has no rows. |
| Table.NothingWithoutAnswers | post.js:805-808 | Nothing is inserted iff a prompt was cancelled or answered with nothing. |
| Table.AppendRow | post.js:814-823 | The inner loop appends one row of c cells for row i. |
| Table.BuildTable | post.js:812-825 | The nested loops build exactly the table markup of r×c cells. |
| Table.InsertTable | post.js:804-825 | The handler computes the inserted markup from the two answers. |
| FormatHtml.BreakTags | post.js:903 | The first character is kept. |
| FormatHtml.BreakTagsSplits | post.js:903 | After the replace no `><` is left, and the output and the input agree once every line break is removed from both. |
| FormatHtml.BreakTagsCharwise | post.js:903 | The global replace equals writing every character of the input in order, with a line break after each `>` that is directly followed by `<`. |
| FormatHtml.BreakTagsLength | post.js:903 | The output is longer than the input by exactly the number of `><` pairs. |
| FormatHtml.LineAt | post.js:906-916 | Output line k is its trimmed input line behind two spaces per level of max(0, indent). The indent is the one the lines before it leave. |
| FormatHtml.WrittenLineTrims | post.js:906-916 | Trimming an output line gives the trimmed input line: content is kept. |
| FormatHtml.ChildIndent | post.js:908-914 | The line after an opening tag that is not `br`, `hr`, `img` or `input` is indented one level deeper, unless it is a closing tag. |
| FormatHtml.TextKeepsIndent | post.js:908-914 | A line that does not start with `<` leaves the indent as it is. |
| FormatHtml.OneLineElementRaises | post.js:912-914 | A one-line element such as `<p>x</p>` matches the opening-tag pattern and raises the indent for the lines after it. |
| FormatHtml.WriteLine | post.js:907-915 | One step: decrement before a closing tag, write at max(0, indent), increment after an opening non-void tag. |
| FormatHtml.FormatEach | post.js:905-916 | The loop over the lines, with its indent counter, writes exactly the formatted lines. |
| FormatHtml.Format | post.js:897-919 | `formatHTML` computes the formatted text the lemmas are about. |
| JsNumber.ParseIntText | main.js:432 | `parseInt` of a decimal integer's text followed by a non-digit reads back that integer. |
| JsString.TrimPadded | main.js:515 | Trimming removes white space added on either side of an already trimmed text. |

## Left out

- Local storage, `saveToStorage`/`loadFromStorage` and `getUserPresets`' JSON reading are I/O. The preset store starts empty, and `Date.now()` is the parameter `now` of `Save`.
- The DOM is left out: rendering the block list, drag events and bounding boxes, tabs, dropdowns, toolbars, popovers, modals, toasts, theme presets and the settings sync functions. The drop handler gets `isAbove` and the dragged id as parameters.
- `updatePreview` builds the live preview with the DOM. It differs from `generateHTML` and is not modelled.
- The collapse toggle of a block in the editor is DOM wiring and is not modelled.
- `prompt`, `document.execCommand` and the toast of the insert-table button are I/O. The answers are parameters (`None` for a cancelled prompt), and the markup is returned.
- The gradient stops are given as values and are not read from the page. `addGradientStop` and the gradient preview are UI and are not modelled.
- Floating point is left out. Settings the renderer only prints are kept as the text JavaScript prints for them, including `bubblePadding * 1.25`. `shadowIntensity / 100` is computed in hundredths.
- `parseInt` is modelled on unbounded integers. JavaScript rounds a result above 2^53 to the nearest double, which the model does not do. A colour's six hex digits stay far below that; a table size typed above 2^53 is read exactly here and rounded in the source.
- `String.prototype.replace` with a string replacement interprets `$&` and similar patterns. The restore loop's stored HTML is inserted literally instead.
- Placeholder tokens are opaque in the model. User text that literally contains `__BOLD_0__` or similar cannot collide with a token, so the model neither shows nor rules out that collision.
- Markup built from character names, links and badge texts in the header is not escaped in the code. The model copies that and claims no escaping for it.
- The `i` flag of `formatHTML`'s void-tag test folds ASCII letters only.
- `.` in `formatHTML`'s patterns is modelled as "not a line terminator". After the split on `\n` only `\r`, U+2028 and U+2029 can still occur.
- `rgbToHex` of `null` or `undefined` is not modelled: inputs are strings.
- Strings are sequences of Unicode scalar values. JavaScript strings are UTF-16 code units, so a character outside the Basic Multilingual Plane, one surrogate pair there, is one character here; `trim`, indexing and lengths differ only for such characters.
- Gradient.GradientStops: stated only for stops whose colour has no space and whose position is a decimal whole number. For other stops the comparator returns NaN, which ECMAScript leaves implementation-defined. The model then keeps the order of the editor.
- Document.RenderLines: states only that every kept line gives one fragment. The shape of each fragment is stated by `Bubbles.UserLineBubble`, `Bubbles.AiLineBubble` and `Bubbles.NarrationParagraph`.
- Color.ColorNumber: states only the 32-bit range. Its value on a valid colour is stated by `Color.ReadHex6`.
- RgbHex.RgbToHex: its own contract is one direction only. The converse is stated by `RgbHex.Matched` and `RgbHex.RgbRoundTrip`.

## Findings

| source | as written | input that shows it | evidently intended | confidence | as-written member | corrected member |
|---|---|---|---|---|---|---|
| main.js:462-469 | The italic pass stores its content without putting back the tokens of the bold spans inside it. The restore loop then runs in creation order, so the bold token is restored before the italic HTML that holds it is inserted, and it is never replaced. | `*a**b**c*` renders as `<em …>a__BOLD_0__c</em>` | Bold nested in italics renders as a bold span inside the italic span, as the quote passes do for their content at main.js:475-478 | not executed | MarkdownCases.ItalicLeaksBold | MarkdownCases.ItalicNestsBold |
| main.js:573-580 | The same in the bubble variant. | `*a**b**c*` renders as `<em …>a__BOLD_0__c</em>` | A bold span inside the italic span | not executed | MarkdownCases.BubbleLeaksBold | MarkdownCases.BubbleNestsBold |

The renderer and `generateHTML` keep the resolvers as written. The corrected ones are
used only by the corrected members above and by `MarkdownProps.MarkdownNoPlaceholders`
and `MarkdownProps.BubbleNoPlaceholders`.
