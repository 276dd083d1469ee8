/**
 * The user's saved presets: `saveUserPreset` replaces the first preset with the same
 * name or appends a new one, `deleteUserPreset` drops every preset with the name, and
 * `loadUserPreset` looks a preset up by name. The list is a field updated in place; the
 * browser storage it is read from and written to is not part of this model, and the
 * clock reading `Date.now()` is a parameter.
 */
module Presets {
  import opened Wrappers
  import opened Config
  import JsArray

  /** A named snapshot of the settings. */
  datatype Preset = Preset(name: string, createdAt: int, settings: Settings)

  function PresetName(p: Preset): string
  {
    p.name
  }

  /** `findIndex(p => p.name === name)`. */
  function FindName(ps: seq<Preset>, name: string): int
  {
    JsArray.FirstIndex(ps, PresetName, name)
  }

  /** `find(p => p.name === name)`, reduced to the settings `loadUserPreset` copies. */
  function Lookup(ps: seq<Preset>, name: string): Option<Settings>
  {
    var i := FindName(ps, name);
    if i < 0 then None else Some(ps[i].settings)
  }

  /** The list after saving `p`: the first preset of that name is overwritten, or `p` is appended. */
  function Upserted(ps: seq<Preset>, p: Preset): (r: seq<Preset>)
    ensures |r| == if FindName(ps, p.name) < 0 then |ps| + 1 else |ps|
  {
    var i := FindName(ps, p.name);
    if i >= 0 then ps[i := p] else ps + [p]
  }

  /** `filter(p => p.name !== name)`. */
  function WithoutName(ps: seq<Preset>, name: string): (r: seq<Preset>)
    ensures forall p :: p in r <==> p in ps && p.name != name
  {
    if ps == [] then []
    else if ps[0].name == name then WithoutName(ps[1..], name)
    else [ps[0]] + WithoutName(ps[1..], name)
  }

  /** No two presets share a name. */
  predicate DistinctNames(ps: seq<Preset>)
  {
    forall k, m :: 0 <= k < m < |ps| ==> ps[k].name != ps[m].name
  }

  /** After a save, loading the name gives the saved settings. */
  lemma {:induction false} SaveThenLoad(ps: seq<Preset>, p: Preset)
    ensures Lookup(Upserted(ps, p), p.name) == Some(p.settings)
  {
    var i := FindName(ps, p.name);
    var r := Upserted(ps, p);
    var j := FindName(r, p.name);
    if i >= 0 {
      assert r[i] == p;
      assert forall k :: 0 <= k < i ==> r[k] == ps[k];
      assert j == i;
    } else {
      assert r[|ps|] == p;
      assert forall k :: 0 <= k < |ps| ==> r[k] == ps[k];
      assert j == |ps|;
    }
  }

  /** A save leaves what every other name loads unchanged. */
  lemma {:induction false} SaveKeepsOthers(ps: seq<Preset>, p: Preset, name: string)
    requires name != p.name
    ensures Lookup(Upserted(ps, p), name) == Lookup(ps, name)
  {
    var r := Upserted(ps, p);
    var i := FindName(ps, name);
    var j := FindName(r, name);
    assert forall k :: 0 <= k < |ps| ==> (r[k].name == name <==> ps[k].name == name);
    assert forall k :: 0 <= k < |ps| && ps[k].name == name ==> r[k] == ps[k];
    if i >= 0 {
      assert j == i;
    } else {
      assert j == -1;
    }
  }

  /** Saving by name never creates a second preset of the same name. */
  lemma {:induction false} SaveDistinct(ps: seq<Preset>, p: Preset)
    requires DistinctNames(ps)
    ensures DistinctNames(Upserted(ps, p))
  {
    var i := FindName(ps, p.name);
    var r := Upserted(ps, p);
    forall k, m | 0 <= k < m < |r|
      ensures r[k].name != r[m].name
    {
      if i < 0 && m == |ps| {
        assert r[k] == ps[k];
      }
    }
  }

  /** After a delete the name loads nothing. */
  lemma {:induction false} DeleteThenLoad(ps: seq<Preset>, name: string)
    ensures Lookup(WithoutName(ps, name), name) == None
  {
    var r := WithoutName(ps, name);
    forall k | 0 <= k < |r|
      ensures r[k].name != name
    {
      assert r[k] in r;
    }
  }

  /** A delete leaves what every other name loads unchanged. */
  lemma {:induction false} DeleteKeepsOthers(ps: seq<Preset>, name: string, other: string)
    requires name != other
    ensures Lookup(WithoutName(ps, name), other) == Lookup(ps, other)
  {
    if ps != [] {
      DeleteKeepsOthers(ps[1..], name, other);
      var tail := WithoutName(ps[1..], name);
      if ps[0].name != name {
        var r := [ps[0]] + tail;
        assert r[1..] == tail;
        if ps[0].name != other {
          assert FindName(r, other) == (if FindName(tail, other) < 0 then -1 else FindName(tail, other) + 1);
        }
      }
    }
  }

  /** The presets the user saved. */
  class PresetStore {
    var presets: seq<Preset>

    constructor()
      ensures presets == []
    {
      presets := [];
    }

    /** `saveUserPreset(name)` at time `now`, with the current settings. */
    method Save(name: string, now: int, st: Settings)
      modifies this
      ensures presets == Upserted(old(presets), Preset(name, now, st))
      ensures DistinctNames(old(presets)) ==> DistinctNames(presets)
    {
      var preset := Preset(name, now, st);
      var existingIndex := FindName(presets, name);
      if existingIndex >= 0 {
        presets := presets[existingIndex := preset];
      } else {
        presets := presets + [preset];
      }
      if DistinctNames(old(presets)) {
        SaveDistinct(old(presets), preset);
      }
    }

    /** `deleteUserPreset(name)`. */
    method Delete(name: string)
      modifies this
      ensures presets == WithoutName(old(presets), name)
    {
      presets := WithoutName(presets, name);
    }

    /** `loadUserPreset(name)`: the settings of the first preset with the name, if any. */
    method Load(name: string) returns (found: Option<Settings>)
      ensures found == Lookup(presets, name)
      ensures found.Some? <==> exists k :: 0 <= k < |presets| && presets[k].name == name
    {
      var i := FindName(presets, name);
      if i >= 0 {
        found := Some(presets[i].settings);
      } else {
        found := None;
      }
    }
  }
}
