/**
 * `parseLine`: one transcript line is a user line (`<` marker), an AI line (`>`
 * marker) or narration (no marker).
 */
module LineParse {
  import opened JsString

  datatype LineType = User | Ai | Narration

  datatype ParsedLine = ParsedLine(kind: LineType, content: string)

  /**
   * The line is trimmed; a leading `<` is tested before a leading `>`, and the marker's
   * payload is the rest of the line, trimmed again.
   */
  function ParseLine(line: string): (p: ParsedLine)
    ensures IsTrimmed(p.content)
  {
    Classify(Trim(line))
  }

  /** The test for a marker on a line that is already trimmed. */
  function Classify(trimmed: string): (p: ParsedLine)
    requires IsTrimmed(trimmed)
    ensures IsTrimmed(p.content)
  {
    if trimmed != [] && trimmed[0] == '<' then ParsedLine(User, Trim(trimmed[1..]))
    else if trimmed != [] && trimmed[0] == '>' then ParsedLine(Ai, Trim(trimmed[1..]))
    else ParsedLine(Narration, trimmed)
  }

  /**
   * Every line has exactly one kind: user iff the trimmed line starts with `<`, AI iff it
   * starts with `>`, narration iff it is empty or starts with neither; the payload is the
   * trimmed rest after a marker and the whole trimmed line otherwise.
   */
  lemma {:induction false} ParseLineCases(line: string)
    ensures var p := ParseLine(line); var t := Trim(line);
      && (p.kind == User <==> t != [] && t[0] == '<')
      && (p.kind == Ai <==> t != [] && t[0] == '>')
      && (p.kind == Narration <==> t == [] || t[0] !in "<>")
      && (p.kind != Narration ==> p.content == Trim(t[1..]))
      && (p.kind == Narration ==> p.content == t)
  {
  }

  /** The marker a line of each kind is written with. */
  function Marker(kind: LineType): string
  {
    match kind
    case User => "<"
    case Ai => ">"
    case Narration => ""
  }

  /**
   * Classification loses nothing: writing a parsed line back with its marker and
   * parsing it again gives the same kind and content.
   */
  lemma {:induction false} ParseUnparse(line: string)
    ensures var p := ParseLine(line);
      ParseLine(Marker(p.kind) + p.content) == p
  {
    var t := Trim(line);
    var p := Classify(t);
    if p.kind == Narration {
      ClassifyNarration(t);
      assert Marker(p.kind) + p.content == t;
      ParseUnmarked(t);
    } else {
      ParseMarked(p.kind, p.content);
    }
  }

  /** What is classified as narration starts with no marker and is kept whole. */
  lemma {:induction false} ClassifyNarration(t: string)
    requires IsTrimmed(t) && Classify(t).kind == Narration
    ensures Classify(t).content == t && (t == [] || t[0] !in "<>")
  {
  }

  /** A trimmed line without a marker is narration holding the whole line. */
  lemma {:induction false} ParseUnmarked(content: string)
    requires IsTrimmed(content) && (content == [] || content[0] !in "<>")
    ensures ParseLine(content) == ParsedLine(Narration, content)
  {
    TrimOfTrimmed(content);
    ClassifyUnmarked(content);
  }

  lemma {:induction false} ClassifyUnmarked(t: string)
    requires IsTrimmed(t) && (t == [] || t[0] !in "<>")
    ensures Classify(t) == ParsedLine(Narration, t)
  {
  }

  lemma {:induction false} ParseMarked(kind: LineType, content: string)
    requires kind != Narration && IsTrimmed(content)
    ensures ParseLine(Marker(kind) + content) == ParsedLine(kind, content)
  {
    var m := if kind == User then '<' else '>';
    assert Marker(kind) == [m];
    TrimMarked(m, content);
    ClassifyMarked(kind, m, content);
  }

  /** A marker followed by trimmed content is itself trimmed. */
  lemma {:induction false} TrimMarked(marker: char, content: string)
    requires IsTrimmed(content) && !IsWhite(marker)
    ensures Trim([marker] + content) == [marker] + content
  {
    var u := [marker] + content;
    assert IsTrimmed(u) by {
      assert u[0] == marker;
      if content != [] {
        assert u[|u| - 1] == content[|content| - 1];
      }
    }
    TrimOfTrimmed(u);
  }

  /** A trimmed line that starts with a marker is classified by it. */
  lemma {:induction false} ClassifyMarked(kind: LineType, marker: char, content: string)
    requires kind != Narration && marker == (if kind == User then '<' else '>')
    requires IsTrimmed(content)
    ensures Classify([marker] + content) == ParsedLine(kind, content)
  {
    var u := [marker] + content;
    assert u[0] == marker && u[1..] == content;
    TrimOfTrimmed(content);
  }

  /** White space around a line does not change how it is read. */
  lemma {:induction false} ParsePadded(pad1: string, line: string, pad2: string)
    requires AllWhite(pad1) && AllWhite(pad2)
    ensures ParseLine(pad1 + line + pad2) == ParseLine(line)
  {
    TrimPadded(pad1, line, pad2);
  }
}
