/**
 * What the resolver guarantees: with every pass after the first restoring earlier
 * placeholders in its content, no placeholder reaches the output; as written, where
 * the italic pass does not restore, the same holds for text without `**`; whatever the passes,
 * no raw `<` or `>` of the user's text does; and text without markup characters comes
 * out escaped and otherwise unchanged.
 */
module MarkdownProps {
  import opened Wrappers
  import opened JsString
  import opened Escape
  import opened Config
  import opened Markdown

  predicate TokenFree(s: seq<Piece>)
  {
    forall i :: 0 <= i < |s| ==> !s[i].Token?
  }

  /** Every placeholder in `s` names an entry of `t`, numbered `lo` or higher, of its own kind. */
  predicate Refers(s: seq<Piece>, t: seq<Entry>, lo: nat)
  {
    forall i :: 0 <= i < |s| && s[i].Token? ==> lo <= s[i].id < |t| && t[s[i].id].kind == s[i].kind
  }

  /** No placeholder occurs twice. */
  predicate Distinct(s: seq<Piece>)
  {
    forall i, j :: 0 <= i < j < |s| && s[i].Token? ==> s[i] != s[j]
  }

  /** No entry's HTML holds a placeholder. */
  predicate CleanTable(t: seq<Entry>)
  {
    forall k :: 0 <= k < |t| ==> TokenFree(t[k].html)
  }

  /** The invariant of the working string and its table. */
  predicate Consistent(st: Stash)
  {
    Refers(st.result, st.placeholders, 0) && Distinct(st.result) && CleanTable(st.placeholders)
  }

  // ---------------------------------------------------------------- restoring clears

  /** Replacing the one occurrence of a placeholder by placeholder-free HTML removes it. */
  lemma {:induction false} ReplaceFirstTokens(s: seq<Piece>, x: Piece, rep: seq<Piece>)
    requires x.Token? && Distinct(s) && TokenFree(rep)
    ensures var r := ReplaceFirst(s, x, rep);
      Distinct(r) && x !in r && forall i :: 0 <= i < |r| && r[i].Token? ==> r[i] in s
  {
    if s != [] {
      var tail := s[1..];
      assert Distinct(tail) by {
        forall i, j | 0 <= i < j < |tail| && tail[i].Token?
          ensures tail[i] != tail[j]
        {
          assert tail[i] == s[i + 1] && tail[j] == s[j + 1];
        }
      }
      assert forall y :: y in tail ==> y in s;
      if s[0] == x {
        var r := rep + tail;
        assert x !in tail by {
          forall j | 0 <= j < |tail|
            ensures tail[j] != x
          {
            assert s[0] != s[j + 1];
          }
        }
        assert forall i :: |rep| <= i < |r| ==> r[i] == tail[i - |rep|];
      } else {
        ReplaceFirstTokens(tail, x, rep);
        var r' := ReplaceFirst(tail, x, rep);
        var r := [s[0]] + r';
        assert s[0].Token? ==> s[0] !in r' by {
          if s[0].Token? {
            forall i | 0 <= i < |r'| && r'[i].Token?
              ensures r'[i] != s[0]
            {
              var j :| 0 <= j < |tail| && tail[j] == r'[i];
              assert s[0] != s[j + 1];
            }
          }
        }
        assert forall i :: 1 <= i < |r| ==> r[i] == r'[i - 1];
      }
    }
  }

  /** The restoring loop from entry `k` leaves no placeholder numbered `k` or higher behind. */
  lemma {:induction false} RestoreClears(s: seq<Piece>, t: seq<Entry>, k: nat)
    requires k <= |t| && Refers(s, t, k) && Distinct(s) && CleanTable(t)
    ensures TokenFree(RestoreFrom(s, t, k))
    decreases |t| - k
  {
    if k < |t| {
      var x := Token(t[k].kind, k);
      var s' := ReplaceFirst(s, x, t[k].html);
      ReplaceFirstTokens(s, x, t[k].html);
      assert Refers(s', t, k + 1) by {
        forall i | 0 <= i < |s'| && s'[i].Token?
          ensures k + 1 <= s'[i].id < |t| && t[s'[i].id].kind == s'[i].kind
        {
          var j :| 0 <= j < |s| && s[j] == s'[i];
        }
      }
      RestoreClears(s', t, k + 1);
    }
  }

  // ---------------------------------------------------------------- passes keep the invariant

  lemma {:induction false} SliceKeeps(s: seq<Piece>, t: seq<Entry>, a: nat, b: nat)
    requires a <= b <= |s| && Refers(s, t, 0) && Distinct(s)
    ensures Refers(s[a..b], t, 0) && Distinct(s[a..b])
    ensures TokenFree(s) ==> TokenFree(s[a..b])
  {
    var u := s[a..b];
    assert forall i :: 0 <= i < |u| ==> u[i] == s[a + i];
    assert Distinct(u) by {
      forall i, j | 0 <= i < j < |u| && u[i].Token?
        ensures u[i] != u[j]
      {
        assert u[i] == s[a + i] && u[j] == s[a + j];
      }
    }
  }

  lemma {:induction false} MarkupsFree(s: string)
    ensures TokenFree(Markups(s))
  {
  }

  /** The placeholders of `out` come from `s` or are numbered `n` or higher. */
  predicate FromOrNew(out: seq<Piece>, s: seq<Piece>, n: nat)
  {
    forall i :: 0 <= i < |out| && out[i].Token? ==> out[i] in s || out[i].id >= n
  }

  /** One pass keeps the invariant, given that its content is restored or cannot hold a placeholder. */
  lemma {:induction false} ScanConsistent(s: seq<Piece>, rule: Rule, t: seq<Entry>)
    requires Consistent(Stash(s, t)) && (rule.nested || TokenFree(s))
    ensures var r := Scan(s, rule, t);
      Consistent(r) && FromOrNew(r.result, s, |t|)
    decreases |s|
  {
    if s != [] {
      match MatchAt(s, rule.pattern)
      case Some(m) =>
        var e := MatchEntry(s, rule, t, m);
        var t1 := t + [e];
        var tail := s[m.end..];
        MatchTail(s, rule, t, m);
        ScanConsistent(tail, rule, t1);
        MatchStep(s, rule, t, m);
      case None =>
        var tail := s[1..];
        SliceKeeps(s, t, 1, |s|);
        assert tail == s[1..|s|];
        ScanConsistent(tail, rule, t);
        CopyStep(s, rule, t);
    }
  }

  /** The entry a match adds. */
  function MatchEntry(s: seq<Piece>, rule: Rule, t: seq<Entry>, m: Span): Entry
    requires m.from <= m.to <= |s|
  {
    var content := s[m.from..m.to];
    Entry(rule.kind, Markups(rule.pre) + (if rule.nested then RestoreAll(content, t) else content)
                     + Markups(rule.post))
  }

  /** A match: the new entry is clean and the rest of the string is consistent with the longer table. */
  lemma {:induction false} MatchTail(s: seq<Piece>, rule: Rule, t: seq<Entry>, m: Span)
    requires Consistent(Stash(s, t)) && (rule.nested || TokenFree(s))
    requires m.from <= m.to <= m.end <= |s|
    ensures var t1 := t + [MatchEntry(s, rule, t, m)];
      Consistent(Stash(s[m.end..], t1)) && (rule.nested || TokenFree(s[m.end..]))
  {
    var content := s[m.from..m.to];
    SliceKeeps(s, t, m.from, m.to);
    if rule.nested {
      RestoreClears(content, t, 0);
    }
    var e := MatchEntry(s, rule, t, m);
    MarkupsFree(rule.pre);
    MarkupsFree(rule.post);
    assert TokenFree(e.html);
    var t1 := t + [e];
    var tail := s[m.end..];
    SliceKeeps(s, t, m.end, |s|);
    assert tail == s[m.end..|s|];
    assert Refers(tail, t1, 0) by {
      forall i | 0 <= i < |tail| && tail[i].Token?
        ensures tail[i].id < |t1| && t1[tail[i].id].kind == tail[i].kind
      {
        assert t1[tail[i].id] == t[tail[i].id];
      }
    }
  }

  /** A match: the fresh placeholder is numbered past everything the rest of the string holds. */
  lemma {:induction false} MatchStep(s: seq<Piece>, rule: Rule, t: seq<Entry>, m: Span)
    requires s != [] && MatchAt(s, rule.pattern) == Some(m)
    requires Consistent(Stash(s, t)) && (rule.nested || TokenFree(s))
    requires var t1 := t + [MatchEntry(s, rule, t, m)];
      var r := Scan(s[m.end..], rule, t1);
      Consistent(r) && FromOrNew(r.result, s[m.end..], |t1|)
    ensures var r := Scan(s, rule, t);
      Consistent(r) && FromOrNew(r.result, s, |t|)
  {
    var t1 := t + [MatchEntry(s, rule, t, m)];
    var tail := s[m.end..];
    var rest := Scan(tail, rule, t1);
    var x := Token(rule.kind, |t|);
    assert Scan(s, rule, t) == Stash([x] + rest.result, rest.placeholders);
    assert rest.placeholders[|t|] == t1[|t|];
    RefersBelow(tail, t);
    FreshAbsent(x, rest.result, tail, |t1|);
    Prepend(x, rest.result, rest.placeholders);
    FromOrNewCons(x, rest.result, tail, s, |t|, |t1|);
  }

  /** No match: the copied piece does not occur again in the rest of the result. */
  lemma {:induction false} CopyStep(s: seq<Piece>, rule: Rule, t: seq<Entry>)
    requires s != [] && MatchAt(s, rule.pattern).None?
    requires Consistent(Stash(s, t))
    requires var r := Scan(s[1..], rule, t);
      Consistent(r) && FromOrNew(r.result, s[1..], |t|)
    ensures var r := Scan(s, rule, t);
      Consistent(r) && FromOrNew(r.result, s, |t|)
  {
    var tail := s[1..];
    var rest := Scan(tail, rule, t);
    var x := s[0];
    assert Scan(s, rule, t) == Stash([x] + rest.result, rest.placeholders);
    if x.Token? {
      HeadAbsent(s);
      OldAbsent(x, rest.result, tail, |t|);
      assert rest.placeholders[..|t|] == t;
      assert rest.placeholders[x.id] == t[x.id];
    }
    Prepend(x, rest.result, rest.placeholders);
    FromOrNewCons(x, rest.result, tail, s, |t|, |t|);
  }

  /** The placeholders of a string consistent with `t` are numbered below `|t|`. */
  lemma {:induction false} RefersBelow(s: seq<Piece>, t: seq<Entry>)
    requires Refers(s, t, 0)
    ensures forall y :: y in s && y.Token? ==> y.id < |t|
  {
  }

  lemma {:induction false} HeadAbsent(s: seq<Piece>)
    requires s != [] && s[0].Token? && Distinct(s)
    ensures s[0] !in s[1..]
  {
    forall j | 0 <= j < |s| - 1
      ensures s[1..][j] != s[0]
    {
      assert s[1..][j] == s[j + 1];
    }
  }

  lemma {:induction false} FreshAbsent(x: Piece, r: seq<Piece>, tail: seq<Piece>, n: nat)
    requires x.Token? && x.id < n && FromOrNew(r, tail, n)
    requires forall y :: y in tail && y.Token? ==> y.id < x.id
    ensures x !in r
  {
  }

  lemma {:induction false} OldAbsent(x: Piece, r: seq<Piece>, tail: seq<Piece>, n: nat)
    requires x.Token? && x.id < n && FromOrNew(r, tail, n) && x !in tail
    ensures x !in r
  {
  }

  /** Putting a piece in front keeps the invariant when the piece is a new placeholder or a text piece. */
  lemma {:induction false} Prepend(x: Piece, r: seq<Piece>, tab: seq<Entry>)
    requires Refers(r, tab, 0) && Distinct(r)
    requires x.Token? ==> x.id < |tab| && tab[x.id].kind == x.kind && x !in r
    ensures Refers([x] + r, tab, 0) && Distinct([x] + r)
  {
    var out := [x] + r;
    forall i, j | 0 <= i < j < |out| && out[i].Token?
      ensures out[i] != out[j]
    {
      assert out[j] == r[j - 1];
      if i > 0 {
        assert out[i] == r[i - 1];
      }
    }
    forall i | 0 <= i < |out| && out[i].Token?
      ensures out[i].id < |tab| && tab[out[i].id].kind == out[i].kind
    {
      if i > 0 {
        assert out[i] == r[i - 1];
      }
    }
  }

  lemma {:induction false} FromOrNewCons(x: Piece, r: seq<Piece>, tail: seq<Piece>, s: seq<Piece>, n: nat, n1: nat)
    requires FromOrNew(r, tail, n1) && n <= n1
    requires forall y :: y in tail ==> y in s
    requires x.Token? ==> x in s || x.id >= n
    ensures FromOrNew([x] + r, s, n)
  {
    var out := [x] + r;
    forall i | 0 <= i < |out| && out[i].Token?
      ensures out[i] in s || out[i].id >= n
    {
      if i > 0 {
        assert out[i] == r[i - 1];
      }
    }
  }

  /** The passes keep the invariant when every pass after the first restores its content. */
  lemma {:induction false} PassesConsistent(st: Stash, rules: seq<Rule>)
    requires Consistent(st)
    requires rules != [] ==> rules[0].nested || TokenFree(st.result)
    requires forall i :: 1 <= i < |rules| ==> rules[i].nested
    ensures Consistent(Passes(st, rules))
    decreases |rules|
  {
    if rules != [] {
      ScanConsistent(st.result, rules[0], st.placeholders);
      PassesConsistent(Scan(st.result, rules[0], st.placeholders), rules[1..]);
    }
  }

  /**
   * No placeholder reaches the output when every pass after the first restores
   * earlier placeholders in its content before storing it.
   */
  lemma {:induction false} ResolveClean(text: string, rules: seq<Rule>)
    requires forall i :: 1 <= i < |rules| ==> rules[i].nested
    ensures TokenFree(Resolve(text, rules))
  {
    var st0 := Stash(Texts(EscapeHtml(text)), []);
    PassesConsistent(st0, rules);
    var st := Passes(st0, rules);
    RestoreClears(st.result, st.placeholders, 0);
  }

  /** `parseMarkdown`, corrected: no placeholder is left in its output. */
  lemma {:induction false} MarkdownNoPlaceholders(text: string, st: Settings)
    ensures TokenFree(Resolve(text, MarkdownRules(st, true)))
  {
    ResolveClean(text, MarkdownRules(st, true));
  }

  /** `parseMarkdownForBubble`, corrected: no placeholder is left in its output. */
  lemma {:induction false} BubbleNoPlaceholders(text: string)
    ensures TokenFree(Resolve(text, BubbleRules(true)))
  {
    ResolveClean(text, BubbleRules(true));
  }

  /** No two `*` next to each other. */
  predicate NoDoubleStar(s: string)
  {
    forall i :: 0 <= i < |s| - 1 ==> !(s[i] == '*' && s[i + 1] == '*')
  }

  /** Only `*` is escaped to a string holding `*`, and then to `*` alone. */
  lemma {:induction false} EscapeCharStar(c: char)
    ensures EscapeChar(c) != [] && NoDoubleStar(EscapeChar(c))
    ensures c != '*' ==> '*' !in EscapeChar(c)
  {
  }

  /** The first character written for a non-empty text is the first written for its first character. */
  lemma {:induction false} EscapeCharsHead(s: string)
    requires s != []
    ensures EscapeChars(s) != [] && EscapeChars(s)[0] == EscapeChar(s[0])[0]
  {
    EscapeCharStar(s[0]);
  }

  /** Escaping creates no `**`: the entities hold no `*`. */
  lemma {:induction false} EscapeNoDoubleStar(s: string)
    requires NoDoubleStar(s)
    ensures NoDoubleStar(EscapeChars(s))
  {
    if s != [] {
      var c, rest := s[0], s[1..];
      var e, r := EscapeChar(c), EscapeChars(rest);
      assert NoDoubleStar(rest) by {
        forall i | 0 <= i < |rest| - 1
          ensures !(rest[i] == '*' && rest[i + 1] == '*')
        {
          assert rest[i] == s[i + 1] && rest[i + 1] == s[i + 2];
        }
      }
      EscapeNoDoubleStar(rest);
      EscapeCharStar(c);
      var out := e + r;
      assert out == EscapeChars(s);
      forall i | 0 <= i < |out| - 1
        ensures !(out[i] == '*' && out[i + 1] == '*')
      {
        if i + 1 < |e| {
          assert out[i] == e[i] && out[i + 1] == e[i + 1];
        } else if i >= |e| {
          assert out[i] == r[i - |e|] && out[i + 1] == r[i - |e| + 1];
        } else if out[i] == '*' {
          assert e[i] == '*';
          assert c == '*' && e == "*";
          assert rest != [] && out[i + 1] == r[0];
          EscapeCharsHead(rest);
          EscapeCharStar(rest[0]);
          assert s[1] == rest[0];
        }
      }
    }
  }

  /** A pass where nothing matches anywhere copies its input. */
  lemma {:induction false} ScanNoMatch(s: seq<Piece>, rule: Rule, t: seq<Entry>)
    requires forall i :: 0 <= i < |s| ==> MatchAt(s[i..], rule.pattern).None?
    ensures Scan(s, rule, t) == Stash(s, t)
    decreases |s|
  {
    if s != [] {
      assert s[0..] == s;
      forall i | 0 <= i < |s| - 1
        ensures MatchAt(s[1..][i..], rule.pattern).None?
      {
        assert s[1..][i..] == s[i + 1..];
      }
      ScanNoMatch(s[1..], rule, t);
      assert [s[0]] + s[1..] == s;
    }
  }

  /** Over text without `**` the bold pass finds nothing. */
  lemma {:induction false} BoldPassIdle(e: string, rule: Rule, t: seq<Entry>)
    requires rule.pattern == DoubleStar && NoDoubleStar(e)
    ensures Scan(Texts(e), rule, t) == Stash(Texts(e), t)
  {
    var p := Texts(e);
    forall i | 0 <= i < |p|
      ensures MatchAt(p[i..], DoubleStar).None?
    {
      if i + 1 < |p| {
        assert p[i..][0] == Text(e[i]) && p[i..][1] == Text(e[i + 1]);
      }
    }
    ScanNoMatch(p, rule, t);
  }

  /**
   * As written, no placeholder is left when the text has no `**`: the bold pass then
   * stores nothing, so the italic pass, the one that does not restore its content,
   * has no placeholder to capture.
   */
  lemma {:induction false} ResolveCleanAsWritten(text: string, rules: seq<Rule>)
    requires rules != [] && rules[0].pattern == DoubleStar && NoDoubleStar(text)
    requires forall i :: 2 <= i < |rules| ==> rules[i].nested
    ensures TokenFree(Resolve(text, rules))
  {
    var e := EscapeHtml(text);
    EscapeNoDoubleStar(text);
    var st0 := Stash(Texts(e), []);
    BoldPassIdle(e, rules[0], []);
    assert Passes(st0, rules) == Passes(st0, rules[1..]);
    PassesConsistent(st0, rules[1..]);
    var st := Passes(st0, rules);
    RestoreClears(st.result, st.placeholders, 0);
  }

  /** `parseMarkdown` as written: no placeholder is left in the output of text without `**`. */
  lemma {:induction false} MarkdownNoPlaceholdersAsWritten(text: string, st: Settings)
    requires NoDoubleStar(text)
    ensures TokenFree(Resolve(text, MarkdownRules(st, false)))
  {
    ResolveCleanAsWritten(text, MarkdownRules(st, false));
  }

  /** `parseMarkdownForBubble` as written: the same. */
  lemma {:induction false} BubbleNoPlaceholdersAsWritten(text: string)
    requires NoDoubleStar(text)
    ensures TokenFree(Resolve(text, BubbleRules(false)))
  {
    ResolveCleanAsWritten(text, BubbleRules(false));
  }

  // ---------------------------------------------------------------- escaping survives

  /** No text piece is a raw `<` or `>`. */
  predicate SafeText(s: seq<Piece>)
  {
    forall i :: 0 <= i < |s| && s[i].Text? ==> s[i].c != '<' && s[i].c != '>'
  }

  predicate SafeTable(t: seq<Entry>)
  {
    forall k :: 0 <= k < |t| ==> SafeText(t[k].html)
  }

  lemma {:induction false} ReplaceFirstSafe(s: seq<Piece>, x: Piece, rep: seq<Piece>)
    requires SafeText(s) && SafeText(rep)
    ensures SafeText(ReplaceFirst(s, x, rep))
  {
    if s != [] {
      var tail := s[1..];
      assert forall i :: 0 <= i < |tail| ==> tail[i] == s[i + 1];
      if s[0] == x {
        var r := rep + tail;
        assert forall i :: |rep| <= i < |r| ==> r[i] == tail[i - |rep|];
      } else {
        ReplaceFirstSafe(tail, x, rep);
        var r := [s[0]] + ReplaceFirst(tail, x, rep);
        assert forall i :: 1 <= i < |r| ==> r[i] == ReplaceFirst(tail, x, rep)[i - 1];
      }
    }
  }

  lemma {:induction false} RestoreSafe(s: seq<Piece>, t: seq<Entry>, k: nat)
    requires k <= |t| && SafeText(s) && SafeTable(t)
    ensures SafeText(RestoreFrom(s, t, k))
    decreases |t| - k
  {
    if k < |t| {
      ReplaceFirstSafe(s, Token(t[k].kind, k), t[k].html);
      RestoreSafe(ReplaceFirst(s, Token(t[k].kind, k), t[k].html), t, k + 1);
    }
  }

  lemma {:induction false} SafeSlice(s: seq<Piece>, a: nat, b: nat)
    requires a <= b <= |s| && SafeText(s)
    ensures SafeText(s[a..b])
  {
    assert forall i :: 0 <= i < b - a ==> s[a..b][i] == s[a + i];
  }

  lemma {:induction false} SafeConcat(a: seq<Piece>, b: seq<Piece>)
    requires SafeText(a) && SafeText(b)
    ensures SafeText(a + b)
  {
    assert forall i :: |a| <= i < |a + b| ==> (a + b)[i] == b[i - |a|];
  }

  lemma {:induction false} ScanSafe(s: seq<Piece>, rule: Rule, t: seq<Entry>)
    requires SafeText(s) && SafeTable(t)
    ensures var r := Scan(s, rule, t);
      SafeText(r.result) && SafeTable(r.placeholders)
    decreases |s|
  {
    if s != [] {
      match MatchAt(s, rule.pattern)
      case Some(m) =>
        var content := s[m.from..m.to];
        SafeSlice(s, m.from, m.to);
        if rule.nested {
          RestoreSafe(content, t, 0);
        }
        var e := MatchEntry(s, rule, t, m);
        var inner := if rule.nested then RestoreAll(content, t) else content;
        SafeConcat(Markups(rule.pre), inner);
        SafeConcat(Markups(rule.pre) + inner, Markups(rule.post));
        var t1 := t + [e];
        assert SafeTable(t1) by {
          assert forall k :: 0 <= k < |t| ==> t1[k] == t[k];
        }
        SafeSlice(s, m.end, |s|);
        assert s[m.end..] == s[m.end..|s|];
        ScanSafe(s[m.end..], rule, t1);
        var rest := Scan(s[m.end..], rule, t1);
        assert Scan(s, rule, t) == Stash([Token(rule.kind, |t|)] + rest.result, rest.placeholders);
        SafeConcat([Token(rule.kind, |t|)], rest.result);
      case None =>
        SafeSlice(s, 1, |s|);
        assert s[1..] == s[1..|s|];
        ScanSafe(s[1..], rule, t);
        var rest := Scan(s[1..], rule, t);
        assert Scan(s, rule, t) == Stash([s[0]] + rest.result, rest.placeholders);
        SafeConcat([s[0]], rest.result);
    }
  }

  lemma {:induction false} PassesSafe(st: Stash, rules: seq<Rule>)
    requires SafeText(st.result) && SafeTable(st.placeholders)
    ensures var r := Passes(st, rules); SafeText(r.result) && SafeTable(r.placeholders)
    decreases |rules|
  {
    if rules != [] {
      ScanSafe(st.result, rules[0], st.placeholders);
      PassesSafe(Scan(st.result, rules[0], st.placeholders), rules[1..]);
    }
  }

  /**
   * Whatever the passes, and even where placeholders are left over, every `<` and `>`
   * in the output is markup: the user's own are escaped.
   */
  lemma {:induction false} ResolveSafe(text: string, rules: seq<Rule>)
    ensures SafeText(Resolve(text, rules))
  {
    var e := EscapeHtml(text);
    var st0 := Stash(Texts(e), []);
    assert SafeText(Texts(e)) by {
      forall i | 0 <= i < |e|
        ensures e[i] != '<' && e[i] != '>'
      {
        assert e[i] in e;
      }
    }
    PassesSafe(st0, rules);
    var st := Passes(st0, rules);
    RestoreSafe(st.result, st.placeholders, 0);
  }

  // ---------------------------------------------------------------- plain text

  /** A pass over a string without its opening character changes nothing. */
  lemma {:induction false} ScanPlain(s: seq<Piece>, rule: Rule, t: seq<Entry>)
    requires Text(Opening(rule.pattern)) !in s
    ensures Scan(s, rule, t) == Stash(s, t)
    decreases |s|
  {
    if s != [] {
      NoMatchWithoutOpening(s, rule.pattern);
      assert forall y :: y in s[1..] ==> y in s;
      ScanPlain(s[1..], rule, t);
      assert [s[0]] + s[1..] == s;
    }
  }

  lemma {:induction false} PassesPlain(st: Stash, rules: seq<Rule>)
    requires forall i :: 0 <= i < |rules| ==> Text(Opening(rules[i].pattern)) !in st.result
    ensures Passes(st, rules) == st
    decreases |rules|
  {
    if rules != [] {
      ScanPlain(st.result, rules[0], st.placeholders);
      PassesPlain(st, rules[1..]);
    }
  }

  lemma {:induction false} RenderTexts(s: string)
    ensures Render(Texts(s)) == s
  {
    if s != [] {
      assert Texts(s)[1..] == Texts(s[1..]);
      RenderTexts(s[1..]);
    }
  }

  lemma {:induction false} RenderConcat(a: seq<Piece>, b: seq<Piece>)
    ensures Render(a + b) == Render(a) + Render(b)
  {
    if a != [] {
      assert (a + b)[1..] == a[1..] + b;
      RenderConcat(a[1..], b);
    } else {
      assert a + b == b;
    }
  }

  lemma {:induction false} RenderMarkups(s: string)
    ensures Render(Markups(s)) == s
  {
    if s != [] {
      assert Markups(s)[1..] == Markups(s[1..]);
      RenderMarkups(s[1..]);
    }
  }

  /** A character absent from the escaped text is absent from its pieces. */
  lemma {:induction false} TextsAbsent(e: string, c: char)
    requires c !in e
    ensures Text(c) !in Texts(e)
  {
  }

  lemma {:induction false} MarkdownOpenings(st: Settings)
    ensures var rules := MarkdownRules(st, false);
      |rules| == 4 && Opening(rules[0].pattern) == '*' && Opening(rules[1].pattern) == '*'
      && Opening(rules[2].pattern) == '"' && Opening(rules[3].pattern) == '\U{201C}'
  {
  }

  /** Text holding none of the rules' opening characters is only escaped. */
  lemma {:induction false} ResolvePlain(text: string, rules: seq<Rule>)
    requires forall i :: 0 <= i < |rules| ==>
      Opening(rules[i].pattern) !in text && Opening(rules[i].pattern) !in "&;<>amplgt"
    ensures Render(Resolve(text, rules)) == EscapeHtml(text)
  {
    var e := EscapeHtml(text);
    forall i | 0 <= i < |rules|
      ensures Text(Opening(rules[i].pattern)) !in Texts(e)
    {
      EscapeKeeps(text, Opening(rules[i].pattern));
      TextsAbsent(e, Opening(rules[i].pattern));
    }
    PassesPlain(Stash(Texts(e), []), rules);
    RenderTexts(e);
  }

  /** A line without `*`, `"` or `“` comes out of `parseMarkdown` escaped and otherwise as it is. */
  lemma {:induction false} MarkdownPlain(text: string, st: Settings)
    requires '*' !in text && '"' !in text && '\U{201C}' !in text
    ensures MarkdownHtml(text, st) == EscapeHtml(text)
  {
    var rules := MarkdownRules(st, false);
    MarkdownOpenings(st);
    var cs := ['*', '*', '"', '\U{201C}'];
    assert forall i :: 0 <= i < |rules| ==> Opening(rules[i].pattern) == cs[i];
    assert forall i :: 0 <= i < |cs| ==> cs[i] !in text && cs[i] !in "&;<>amplgt";
    ResolvePlain(text, rules);
  }

  /**
   * A line without `*` comes out of `parseMarkdownForBubble` escaped and otherwise as it is:
   * quotes in particular pass through untouched.
   */
  lemma {:induction false} BubblePlain(text: string)
    requires '*' !in text
    ensures BubbleHtml(text) == EscapeHtml(text)
  {
    ResolvePlain(text, BubbleRules(false));
  }

  /** The bubble resolver only ever stores bold and italic HTML: no dialogue span. */
  lemma {:induction false} BubbleEmphasisOnly(text: string, italicNested: bool)
    ensures var st := Passes(Stash(Texts(EscapeHtml(text)), []), BubbleRules(italicNested));
      forall k :: 0 <= k < |st.placeholders| ==> st.placeholders[k].kind in {Bold, Italic}
  {
    var rules := BubbleRules(italicNested);
    var s0 := Stash(Texts(EscapeHtml(text)), []);
    var s1 := Scan(s0.result, rules[0], s0.placeholders);
    var s2 := Scan(s1.result, rules[1], s1.placeholders);
    var r1 := rules[1..];
    assert r1[0] == rules[1] && r1[1..] == [];
    assert Passes(s1, r1) == s2;
    assert forall k :: 0 <= k < |s1.placeholders| ==> s2.placeholders[k] == s1.placeholders[k];
  }
}
