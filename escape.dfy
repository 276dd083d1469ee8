/**
 * HTML escaping: `escapeHTML` / `escapeHTMLContent` for text and `escapeAttr`
 * for attribute values. Each is a chain of global replacements; the model keeps
 * the chain and proves it equal to a character-by-character reference.
 */
module Escape {
  import opened JsString

  /** How `escapeHTML` writes one character. */
  function EscapeChar(c: char): string
  {
    if c == '&' then "&amp;" else if c == '<' then "&lt;" else if c == '>' then "&gt;" else [c]
  }

  /** Reference definition: every character escaped on its own. */
  function EscapeChars(s: string): string
  {
    if s == [] then [] else EscapeChar(s[0]) + EscapeChars(s[1..])
  }

  /**
   * `escapeHTML(str)`: replace every `&`, then every `<`, then every `>`. Replacing `&`
   * first is what keeps the entities written by the later passes intact.
   */
  function EscapeHtml(s: string): (r: string)
    ensures r == EscapeChars(s)
    ensures '<' !in r && '>' !in r
  {
    EscapeHtmlCharwise(s);
    NoAngles(s);
    ReplaceAll(ReplaceAll(ReplaceAll(s, '&', "&amp;"), '<', "&lt;"), '>', "&gt;")
  }

  /** Escaping adds and removes no character other than those of the three entities. */
  lemma {:induction false} EscapeKeeps(s: string, c: char)
    requires c !in "&;<>amplgt"
    ensures c in EscapeHtml(s) <==> c in s
  {
    var a := ReplaceAll(s, '&', "&amp;");
    var b := ReplaceAll(a, '<', "&lt;");
    assert c in a <==> c in s;
    assert c in b <==> c in a;
    assert c in ReplaceAll(b, '>', "&gt;") <==> c in b;
  }

  /** Text without `&`, `<` or `>` is left as it is. */
  lemma {:induction false} EscapeNothing(s: string)
    requires '&' !in s && '<' !in s && '>' !in s
    ensures EscapeHtml(s) == s
  {
    Untouched(s, '&', "&amp;");
    Untouched(s, '<', "&lt;");
    Untouched(s, '>', "&gt;");
  }

  lemma {:induction false} EscapeHtmlCharwise(s: string)
    ensures ReplaceAll(ReplaceAll(ReplaceAll(s, '&', "&amp;"), '<', "&lt;"), '>', "&gt;") == EscapeChars(s)
  {
    if s != [] {
      var c := s[0];
      var rest := s[1..];
      assert s == [c] + rest;
      EscapeHtmlCharwise(rest);
      var a1 := ReplaceAll([c], '&', "&amp;");
      var b1 := ReplaceAll(rest, '&', "&amp;");
      ReplaceAllConcat([c], rest, '&', "&amp;");
      var a2 := ReplaceAll(a1, '<', "&lt;");
      var b2 := ReplaceAll(b1, '<', "&lt;");
      ReplaceAllConcat(a1, b1, '<', "&lt;");
      ReplaceAllConcat(a2, b2, '>', "&gt;");
      SingleEscape(c);
    }
  }

  lemma {:induction false} SingleEscape(c: char)
    ensures ReplaceAll(ReplaceAll(ReplaceAll([c], '&', "&amp;"), '<', "&lt;"), '>', "&gt;") == EscapeChar(c)
  {
    ReplaceOne(c, '&', "&amp;");
    if c == '&' {
      Untouched("&amp;", '<', "&lt;");
      Untouched("&amp;", '>', "&gt;");
    } else {
      ReplaceOne(c, '<', "&lt;");
      if c == '<' {
        Untouched("&lt;", '>', "&gt;");
      } else {
        ReplaceOne(c, '>', "&gt;");
      }
    }
  }

  lemma {:induction false} ReplaceOne(c: char, x: char, rep: string)
    ensures ReplaceAll([c], x, rep) == if c == x then rep else [c]
  {
    assert [c][1..] == [];
  }

  /** Replacing a character that does not occur changes nothing. */
  lemma {:induction false} Untouched(s: string, c: char, rep: string)
    requires c !in s
    ensures ReplaceAll(s, c, rep) == s
  {
    if s != [] {
      Untouched(s[1..], c, rep);
    }
  }

  lemma {:induction false} NoAngles(s: string)
    ensures '<' !in EscapeChars(s) && '>' !in EscapeChars(s)
  {
    if s != [] {
      NoAngles(s[1..]);
    }
  }

  /** `t` starts with one of the three entities `escapeHTML` writes. */
  predicate StartsWithEntity(t: string)
  {
    (|t| >= 5 && t[..5] == "&amp;") || (|t| >= 4 && (t[..4] == "&lt;" || t[..4] == "&gt;"))
  }

  /** Every `&` in `r` starts an entity. */
  predicate AmpersandsAreEntities(r: string)
  {
    forall i :: 0 <= i < |r| && r[i] == '&' ==> StartsWithEntity(r[i..])
  }

  lemma {:induction false} EntityPrefix(e: string, r: string)
    requires StartsWithEntity(e)
    ensures StartsWithEntity(e + r)
  {
    var t := e + r;
    if |e| >= 5 && e[..5] == "&amp;" {
      assert t[..5] == e[..5];
    } else {
      assert t[..4] == e[..4];
    }
  }

  /** The only `&` one character is escaped to is the first of an entity. */
  lemma {:induction false} EscapeCharEntity(c: char, i: nat)
    requires i < |EscapeChar(c)| && EscapeChar(c)[i] == '&'
    ensures i == 0 && StartsWithEntity(EscapeChar(c))
  {
    if c == '&' {
      assert EscapeChar(c)[..5] == "&amp;";
    } else if c == '<' {
      assert EscapeChar(c)[..4] == "&lt;";
    } else if c == '>' {
      assert EscapeChar(c)[..4] == "&gt;";
    }
  }

  /**
   * Every `&` in escaped text starts an entity: a `&` of the input is written as `&amp;`,
   * and no other `&` is left as it was.
   */
  lemma {:induction false} EscapeAmpersands(s: string)
    ensures AmpersandsAreEntities(EscapeHtml(s))
  {
    EscapeCharsAmpersands(s);
  }

  lemma {:induction false} EscapeCharsAmpersands(s: string)
    ensures AmpersandsAreEntities(EscapeChars(s))
  {
    if s != [] {
      var e, rest := EscapeChar(s[0]), EscapeChars(s[1..]);
      EscapeCharsAmpersands(s[1..]);
      var r := e + rest;
      assert r == EscapeChars(s);
      forall i | 0 <= i < |r| && r[i] == '&'
        ensures StartsWithEntity(r[i..])
      {
        if i < |e| {
          EscapeCharEntity(s[0], i);
          assert r[i..] == e + rest;
          EntityPrefix(e, rest);
        } else {
          assert rest[i - |e|] == r[i] == '&';
          assert r[i..] == rest[i - |e|..];
        }
      }
    }
  }

  /** Reads the entities `escapeHTML` writes back into characters; anything else is copied. */
  function Unescape(s: string): (r: string)
    decreases |s|
  {
    if s == [] then []
    else if |s| >= 5 && s[..5] == "&amp;" then "&" + Unescape(s[5..])
    else if |s| >= 4 && s[..4] == "&lt;" then "<" + Unescape(s[4..])
    else if |s| >= 4 && s[..4] == "&gt;" then ">" + Unescape(s[4..])
    else [s[0]] + Unescape(s[1..])
  }

  /** Escaping loses nothing: the text is recovered from the markup. */
  lemma {:induction false} UnescapeEscape(s: string)
    ensures Unescape(EscapeHtml(s)) == s
  {
    UnescapeChars(s);
  }

  lemma {:induction false} UnescapeChars(s: string)
    ensures Unescape(EscapeChars(s)) == s
  {
    if s != [] {
      UnescapeChars(s[1..]);
      UnescapeHead(s[0], EscapeChars(s[1..]));
      assert s == [s[0]] + s[1..];
    }
  }

  lemma {:induction false} UnescapeHead(c: char, t: string)
    ensures Unescape(EscapeChar(c) + t) == [c] + Unescape(t)
  {
    if c == '&' {
      UnescapeEntity("&amp;", t);
    } else if c == '<' {
      UnescapeEntity("&lt;", t);
    } else if c == '>' {
      UnescapeEntity("&gt;", t);
    } else {
      UnescapePlain(c, t);
    }
  }

  lemma {:induction false} UnescapePlain(c: char, t: string)
    requires c != '&'
    ensures Unescape([c] + t) == [c] + Unescape(t)
  {
    var e := [c] + t;
    assert e[0] == c && e[1..] == t;
  }

  lemma {:induction false} UnescapeEntity(x: string, t: string)
    requires x == "&amp;" || x == "&lt;" || x == "&gt;"
    ensures Unescape(x + t) == Unescape(x) + Unescape(t)
  {
    var e := x + t;
    assert e[..|x|] == x && e[|x|..] == t;
    assert e[1] == x[1];
  }

  /** How `escapeAttr` writes one character. */
  function EscapeAttrChar(c: char): string
  {
    if c == '"' then "&quot;" else if c == '\'' then "&#39;" else [c]
  }

  function EscapeAttrChars(s: string): string
  {
    if s == [] then [] else EscapeAttrChar(s[0]) + EscapeAttrChars(s[1..])
  }

  /** `escapeAttr(str)`: every `"` becomes `&quot;`, then every `'` becomes `&#39;`. */
  function EscapeAttr(s: string): (r: string)
    ensures r == EscapeAttrChars(s)
    ensures '"' !in r && '\'' !in r
  {
    EscapeAttrCharwise(s);
    NoQuotes(s);
    ReplaceAll(ReplaceAll(s, '"', "&quot;"), '\'', "&#39;")
  }

  lemma {:induction false} EscapeAttrCharwise(s: string)
    ensures ReplaceAll(ReplaceAll(s, '"', "&quot;"), '\'', "&#39;") == EscapeAttrChars(s)
  {
    if s != [] {
      var c := s[0];
      var rest := s[1..];
      assert s == [c] + rest;
      EscapeAttrCharwise(rest);
      var a1 := ReplaceAll([c], '"', "&quot;");
      var b1 := ReplaceAll(rest, '"', "&quot;");
      ReplaceAllConcat([c], rest, '"', "&quot;");
      ReplaceAllConcat(a1, b1, '\'', "&#39;");
      ReplaceOne(c, '"', "&quot;");
      if c == '"' {
        Untouched("&quot;", '\'', "&#39;");
      } else {
        ReplaceOne(c, '\'', "&#39;");
      }
    }
  }

  lemma {:induction false} NoQuotes(s: string)
    ensures '"' !in EscapeAttrChars(s) && '\'' !in EscapeAttrChars(s)
  {
    if s != [] {
      NoQuotes(s[1..]);
    }
  }

  function UnescapeAttr(s: string): string
    decreases |s|
  {
    if s == [] then []
    else if |s| >= 6 && s[..6] == "&quot;" then "\"" + UnescapeAttr(s[6..])
    else if |s| >= 5 && s[..5] == "&#39;" then "'" + UnescapeAttr(s[5..])
    else [s[0]] + UnescapeAttr(s[1..])
  }

  /**
   * Attribute escaping is reversible on text without `&`. (It does not escape `&`, so
   * a literal `&quot;` in the text reads back as a quote.)
   */
  lemma {:induction false} UnescapeEscapeAttr(s: string)
    requires '&' !in s
    ensures UnescapeAttr(EscapeAttr(s)) == s
  {
    UnescapeAttrChars(s);
  }

  lemma {:induction false} UnescapeAttrChars(s: string)
    requires '&' !in s
    ensures UnescapeAttr(EscapeAttrChars(s)) == s
  {
    if s != [] {
      UnescapeAttrChars(s[1..]);
      UnescapeAttrHead(s[0], EscapeAttrChars(s[1..]));
      assert s == [s[0]] + s[1..];
    }
  }

  lemma {:induction false} UnescapeAttrHead(c: char, t: string)
    requires c != '&'
    ensures UnescapeAttr(EscapeAttrChar(c) + t) == [c] + UnescapeAttr(t)
  {
    if c == '"' {
      UnescapeQuot(t);
    } else if c == '\'' {
      UnescapeApos(t);
    } else {
      var e := [c] + t;
      assert e[0] == c && e[1..] == t;
    }
  }

  lemma {:induction false} UnescapeQuot(t: string)
    ensures UnescapeAttr("&quot;" + t) == "\"" + UnescapeAttr(t)
  {
    var e := "&quot;" + t;
    assert e[..6] == "&quot;" && e[6..] == t;
  }

  lemma {:induction false} UnescapeApos(t: string)
    ensures UnescapeAttr("&#39;" + t) == "'" + UnescapeAttr(t)
  {
    var e := "&#39;" + t;
    assert e[1] == '#';
    assert e[..5] == "&#39;" && e[5..] == t;
  }
}
