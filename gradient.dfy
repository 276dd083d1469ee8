/**
 * The colour-stop step of `buildGradientString`: every stop of the gradient editor is
 * written as `color pos%`, the texts are ordered by the number read back from their
 * second word, and they are joined into a `linear-gradient(...)` value. The stops are
 * given as values instead of being read from the page.
 */
module Gradient {
  import opened Wrappers
  import opened JsString
  import opened JsNumber

  /** One stop of the editor: the values of its colour input and of its position input. */
  datatype Stop = Stop(color: string, pos: string)

  /** `${color} ${pos}%`. */
  function StopText(s: Stop): string
  {
    s.color + " " + s.pos + "%"
  }

  /** The texts of all stops, in the order they appear in the editor. */
  function Texts(stops: seq<Stop>): (r: seq<string>)
    ensures |r| == |stops|
  {
    seq(|stops|, k requires 0 <= k < |stops| => StopText(stops[k]))
  }

  /** `parseInt(a.split(' ')[1])`: the sort key; a missing second word or no digits is NaN. */
  function Key(t: string): Option<int>
  {
    var parts := Split(t, ' ');
    if |parts| < 2 then None else ParseInt(parts[1], Auto)
  }

  /**
   * The comparator `posA - posB` is positive: `a` goes after `b`. A NaN difference
   * counts as zero, so a text without a key is never moved past another.
   */
  predicate Greater(key: string -> Option<int>, a: string, b: string)
  {
    key(a).Some? && key(b).Some? && key(a).value > key(b).value
  }

  /** `x` placed into `s` from the right, past every element the comparator puts after it. */
  function Insert(key: string -> Option<int>, x: string, s: seq<string>): (r: seq<string>)
    ensures multiset(r) == multiset(s) + multiset{x}
  {
    if s == [] then [x]
    else if Greater(key, s[|s| - 1], x) then
      assert s == s[..|s| - 1] + [s[|s| - 1]];
      Insert(key, x, s[..|s| - 1]) + [s[|s| - 1]]
    else s + [x]
  }

  /**
   * `colorStops.sort(...)` with the comparator that compares `key`s: the stable sort that
   * ECMAScript requires, written as insertion sort.
   */
  function SortBy(key: string -> Option<int>, xs: seq<string>): (r: seq<string>)
    ensures multiset(r) == multiset(xs)
  {
    if xs == [] then []
    else
      assert xs == xs[..|xs| - 1] + [xs[|xs| - 1]];
      Insert(key, xs[|xs| - 1], SortBy(key, xs[..|xs| - 1]))
  }

  /** The whole result of `buildGradientString` for the chosen direction and stops. */
  function GradientString(direction: string, stops: seq<Stop>): string
  {
    "linear-gradient(" + direction + ", " + Join(SortBy(Key, Texts(stops)), ", ") + ")"
  }

  /** Every text has a numeric key. */
  predicate AllKeyed(key: string -> Option<int>, s: seq<string>)
  {
    forall k :: 0 <= k < |s| ==> key(s[k]).Some?
  }

  /** No text comes after one its key puts behind it. */
  predicate Sorted(key: string -> Option<int>, s: seq<string>)
  {
    forall i, j :: 0 <= i < j < |s| ==> !Greater(key, s[i], s[j])
  }

  /** The texts whose key is `v`, in their order in `s`. */
  function WithKey(key: string -> Option<int>, s: seq<string>, v: int): seq<string>
  {
    if s == [] then []
    else WithKey(key, s[..|s| - 1], v) + (if key(s[|s| - 1]) == Some(v) then [s[|s| - 1]] else [])
  }

  // ---------------------------------------------------------------------------
  // Reading the key back

  /** A string without the separator is not split. */
  lemma {:induction false} SplitNone(b: string, sep: char)
    requires sep !in b
    ensures Split(b, sep) == [b]
  {
    if b != [] {
      SplitNone(b[1..], sep);
      assert [b[0]] + b[1..] == b;
    }
  }

  /** Splitting at the only separator gives the two sides. */
  lemma {:induction false} SplitTwo(a: string, b: string, sep: char)
    requires sep !in a && sep !in b
    ensures Split(a + [sep] + b, sep) == [a, b]
  {
    if a == [] {
      SplitStep(sep, b, sep);
      assert a + [sep] + b == [sep] + b;
      SplitNone(b, sep);
    } else {
      var c, a' := a[0], a[1..];
      assert a == [c] + a';
      SplitTwo(a', b, sep);
      SplitTwoCons(c, a', b, sep);
      assert [c] + (a' + [sep] + b) == a + [sep] + b;
    }
  }

  /** A character other than the separator in front joins the first side. */
  lemma {:induction false} SplitTwoCons(c: char, a: string, b: string, sep: char)
    requires c != sep && Split(a + [sep] + b, sep) == [a, b]
    ensures Split([c] + (a + [sep] + b), sep) == [[c] + a, b]
  {
    var t := a + [sep] + b;
    SplitStep(c, t, sep);
    assert Split(t, sep)[1..] == [b];
  }

  /** Splitting a string with one more character in front. */
  lemma {:induction false} SplitStep(c: char, t: string, sep: char)
    ensures var rest := Split(t, sep);
      Split([c] + t, sep) == if c == sep then [""] + rest else [[c] + rest[0]] + rest[1..]
  {
    var s := [c] + t;
    assert s[0] == c && s[1..] == t;
  }

  /**
   * The key of a stop's text is its position when the position is a whole number written
   * in decimal and the colour has no space in it.
   */
  lemma {:induction false} KeyOfStop(s: Stop, n: int)
    requires ' ' !in s.color && s.pos == IntToString(n)
    ensures Key(StopText(s)) == Some(n)
  {
    var num := s.pos + "%";
    assert ' ' !in num by {
      if n < 0 {
        assert num == "-" + NatToString(-n) + "%";
      }
    }
    assert StopText(s) == s.color + [' '] + num;
    SplitTwo(s.color, num, ' ');
    ParseIntText(n, "%");
  }

  // ---------------------------------------------------------------------------
  // The sort

  /** Inserting into a sorted sequence of keyed texts keeps it sorted. */
  lemma {:induction false} InsertSorted(key: string -> Option<int>, x: string, s: seq<string>)
    requires Sorted(key, s) && AllKeyed(key, s) && key(x).Some?
    ensures Sorted(key, Insert(key, x, s))
  {
    var r := Insert(key, x, s);
    if s != [] {
      var init, last := s[..|s| - 1], s[|s| - 1];
      if Greater(key, last, x) {
        assert Sorted(key, init) && AllKeyed(key, init);
        InsertSorted(key, x, init);
        var front := Insert(key, x, init);
        assert r == front + [last];
        forall i | 0 <= i < |front|
          ensures !Greater(key, front[i], last)
        {
          assert front[i] in multiset(init) + multiset{x};
          if front[i] != x {
            var k :| 0 <= k < |init| && init[k] == front[i];
            assert s[k] == init[k];
          }
        }
      } else {
        forall i | 0 <= i < |s|
          ensures !Greater(key, s[i], x)
        {
          if i < |s| - 1 {
            assert !Greater(key, s[i], last);
          }
        }
      }
    }
  }

  /** The sorted texts of keyed texts are in non-decreasing key order. */
  lemma {:induction false} SortSorted(key: string -> Option<int>, xs: seq<string>)
    requires AllKeyed(key, xs)
    ensures Sorted(key, SortBy(key, xs))
  {
    if xs != [] {
      var init := xs[..|xs| - 1];
      assert AllKeyed(key, init);
      SortSorted(key, init);
      var sorted := SortBy(key, init);
      forall k | 0 <= k < |sorted|
        ensures key(sorted[k]).Some?
      {
        assert sorted[k] in multiset(init);
      }
      InsertSorted(key, xs[|xs| - 1], sorted);
    }
  }

  /** Appending a text adds it to the texts of its key. */
  lemma {:induction false} WithKeySnoc(key: string -> Option<int>, s: seq<string>, e: string, v: int)
    ensures WithKey(key, s + [e], v) == WithKey(key, s, v) + (if key(e) == Some(v) then [e] else [])
  {
    assert (s + [e])[..|s|] == s;
  }

  /** Inserting `x` adds it behind the texts of its own key and moves no other text of that key. */
  lemma {:induction false} InsertWithKey(key: string -> Option<int>, x: string, s: seq<string>, v: int)
    ensures WithKey(key, Insert(key, x, s), v) == WithKey(key, s, v) + (if key(x) == Some(v) then [x] else [])
  {
    if s == [] {
      WithKeySnoc(key, [], x, v);
      assert [] + [x] == [x];
    } else {
      var init, last := s[..|s| - 1], s[|s| - 1];
      assert s == init + [last];
      WithKeySnoc(key, init, last, v);
      if Greater(key, last, x) {
        InsertWithKey(key, x, init, v);
        WithKeySnoc(key, Insert(key, x, init), last, v);
      } else {
        WithKeySnoc(key, s, x, v);
      }
    }
  }

  /** The sort is stable: the texts of every key keep their order. */
  lemma {:induction false} SortStable(key: string -> Option<int>, xs: seq<string>, v: int)
    ensures WithKey(key, SortBy(key, xs), v) == WithKey(key, xs, v)
  {
    if xs != [] {
      var init := xs[..|xs| - 1];
      SortStable(key, init, v);
      InsertWithKey(key, xs[|xs| - 1], SortBy(key, init), v);
    }
  }

  /** The stops' colours have no space and their positions are the decimal texts of `positions`. */
  predicate WellFormed(stops: seq<Stop>, positions: seq<int>)
  {
    |positions| == |stops|
    && forall k :: 0 <= k < |stops| ==> ' ' !in stops[k].color && stops[k].pos == IntToString(positions[k])
  }

  /** Every stop's text is keyed by the stop's position. */
  lemma {:induction false} TextKeys(stops: seq<Stop>, positions: seq<int>)
    requires WellFormed(stops, positions)
    ensures AllKeyed(Key, Texts(stops))
    ensures forall k :: 0 <= k < |stops| ==> Key(Texts(stops)[k]) == Some(positions[k])
  {
    forall k | 0 <= k < |stops|
      ensures Key(Texts(stops)[k]) == Some(positions[k])
    {
      KeyOfStop(stops[k], positions[k]);
    }
  }

  /**
   * `buildGradientString` holds exactly the stops' texts, each once, in non-decreasing
   * position order, with stops of equal position in the order of the editor.
   */
  lemma {:induction false} GradientStops(direction: string, stops: seq<Stop>, positions: seq<int>)
    requires WellFormed(stops, positions)
    ensures var r := SortBy(Key, Texts(stops));
      GradientString(direction, stops) == "linear-gradient(" + direction + ", " + Join(r, ", ") + ")"
      && multiset(r) == multiset(Texts(stops))
      && AllKeyed(Key, r) && Sorted(Key, r)
      && (forall v :: WithKey(Key, r, v) == WithKey(Key, Texts(stops), v))
  {
    var ts := Texts(stops);
    TextKeys(stops, positions);
    SortSorted(Key, ts);
    var r := SortBy(Key, ts);
    forall k | 0 <= k < |r|
      ensures Key(r[k]).Some?
    {
      assert r[k] in multiset(ts);
    }
    forall v {
      SortStable(Key, ts, v);
    }
  }

  /** The `forEach` of `buildGradientString`: one text is pushed per stop, in order. */
  method CollectTexts(stops: seq<Stop>) returns (colorStops: seq<string>)
    ensures colorStops == Texts(stops)
  {
    colorStops := [];
    for i := 0 to |stops|
      invariant |colorStops| == i
      invariant forall k :: 0 <= k < i ==> colorStops[k] == StopText(stops[k])
    {
      colorStops := colorStops + [StopText(stops[i])];
    }
  }

  /** `buildGradientString`: the texts are collected, sorted, and joined behind the direction. */
  method BuildGradient(direction: string, stops: seq<Stop>) returns (gradient: string)
    ensures gradient == GradientString(direction, stops)
  {
    var colorStops := CollectTexts(stops);
    colorStops := SortBy(Key, colorStops);
    gradient := "linear-gradient(" + direction + ", " + Join(colorStops, ", ") + ")";
  }
}
