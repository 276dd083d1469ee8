/**
 * The list of log blocks the user edits: `createLogBlock`, `removeLogBlock`,
 * `updateLogBlock` and the drop handler that moves a dragged block next to the block
 * it was dropped on. The list and the id counter are fields updated in place; the
 * list operations they perform are specified by functions on sequences.
 */
module Blocks {
  import opened Wrappers
  import opened JsNumber
  import JsArray

  /** One block of transcript text with its title and folding options. */
  datatype Block = Block(id: int, title: string, content: string, collapsible: bool, collapsed: bool)

  /** The fields an update record may carry; `Object.assign` overwrites the present ones. */
  datatype BlockUpdate = BlockUpdate(
    title: Option<string>, content: Option<string>, collapsible: Option<bool>, collapsed: Option<bool>)

  function Pick<T>(o: Option<T>, current: T): T
  {
    if o.Some? then o.value else current
  }

  /** `Object.assign(block, updates)`: the id is never among the updated fields. */
  function Apply(b: Block, u: BlockUpdate): Block
  {
    b.(title := Pick(u.title, b.title), content := Pick(u.content, b.content),
       collapsible := Pick(u.collapsible, b.collapsible), collapsed := Pick(u.collapsed, b.collapsed))
  }

  /** `title || \`블록 ${id + 1}\``: an empty title is replaced by a numbered one. */
  function DefaultTitle(title: string, id: nat): (r: string)
    ensures r != ""
    ensures title != "" ==> r == title
  {
    if title == "" then "블록 " + NatToString(id + 1) else title
  }

  function BlockId(b: Block): int
  {
    b.id
  }

  /** `findIndex(b => b.id === id)`. */
  function FindIndex(bs: seq<Block>, id: int): int
  {
    JsArray.FirstIndex(bs, BlockId, id)
  }

  /** `filter(b => b.id !== id)`. */
  function WithoutId(bs: seq<Block>, id: int): (r: seq<Block>)
    ensures forall b :: b in r <==> b in bs && b.id != id
    ensures |r| <= |bs|
  {
    if bs == [] then []
    else if bs[0].id == id then WithoutId(bs[1..], id)
    else [bs[0]] + WithoutId(bs[1..], id)
  }

  /** A list without the id is left as it is, and the blocks that stay keep their order. */
  lemma {:induction false} WithoutAbsent(bs: seq<Block>, id: int)
    requires forall k :: 0 <= k < |bs| ==> bs[k].id != id
    ensures WithoutId(bs, id) == bs
  {
    if bs != [] {
      WithoutAbsent(bs[1..], id);
    }
  }

  /** Filtering distributes over concatenation, so the relative order of the kept blocks is kept. */
  lemma {:induction false} WithoutConcat(a: seq<Block>, b: seq<Block>, id: int)
    ensures WithoutId(a + b, id) == WithoutId(a, id) + WithoutId(b, id)
  {
    if a == [] {
      assert a + b == b;
    } else {
      assert (a + b)[0] == a[0] && (a + b)[1..] == a[1..] + b;
      WithoutConcat(a[1..], b, id);
    }
  }

  /** `splice(i, 1)`: the list without position `i`. */
  function Removed<T>(s: seq<T>, i: nat): (r: seq<T>)
    requires i < |s|
    ensures |r| == |s| - 1
    ensures multiset(r) + multiset{s[i]} == multiset(s)
  {
    assert s == s[..i] + [s[i]] + s[i + 1..];
    s[..i] + s[i + 1..]
  }

  /** `splice(i, 0, x)`: the list with `x` placed at position `i`. */
  function Inserted<T>(s: seq<T>, i: nat, x: T): (r: seq<T>)
    requires i <= |s|
    ensures |r| == |s| + 1 && r[i] == x
    ensures multiset(r) == multiset(s) + multiset{x}
  {
    assert s == s[..i] + s[i..];
    s[..i] + [x] + s[i..]
  }

  /**
   * Where the drop handler reinserts the dragged block, once it has been taken out:
   * a block coming from above shifts the target one place up.
   */
  function InsertIndex(dragged: nat, target: nat, isAbove: bool): int
  {
    if dragged < target then (if isAbove then target - 1 else target)
    else (if isAbove then target else target + 1)
  }

  /** The list after the dragged block at `d` is dropped on the block at `t`. */
  function Moved(s: seq<Block>, d: nat, t: nat, isAbove: bool): (r: seq<Block>)
    requires d < |s| && t < |s| && d != t
    ensures 0 <= InsertIndex(d, t, isAbove) < |s| && |r| == |s|
  {
    Inserted(Removed(s, d), InsertIndex(d, t, isAbove), s[d])
  }

  /** A move only reorders: the same blocks, as many times each. */
  lemma {:induction false} MovedPermutation(s: seq<Block>, d: nat, t: nat, isAbove: bool)
    requires d < |s| && t < |s| && d != t
    ensures multiset(Moved(s, d, t, isAbove)) == multiset(s)
  {
    var rest := Removed(s, d);
    assert multiset(Inserted(rest, InsertIndex(d, t, isAbove), s[d])) == multiset(rest) + multiset{s[d]};
  }

  /**
   * Every block other than the dragged one keeps its relative order: taking the dragged
   * block back out of the new list gives the old list without it.
   */
  lemma {:induction false} MovedKeepsOrder(s: seq<Block>, d: nat, t: nat, isAbove: bool)
    requires d < |s| && t < |s| && d != t
    ensures var j := InsertIndex(d, t, isAbove);
      0 <= j < |s| && Moved(s, d, t, isAbove)[j] == s[d] && Removed(Moved(s, d, t, isAbove), j) == Removed(s, d)
  {
    var j := InsertIndex(d, t, isAbove);
    var rest := Removed(s, d);
    var r := Moved(s, d, t, isAbove);
    assert r == rest[..j] + [s[d]] + rest[j..];
    assert r[..j] == rest[..j] && r[j + 1..] == rest[j..];
    assert rest == rest[..j] + rest[j..];
  }

  /** The dragged block lands right above the target when dropped on its upper half, else right below. */
  lemma {:induction false} MovedBesideTarget(s: seq<Block>, d: nat, t: nat, isAbove: bool)
    requires d < |s| && t < |s| && d != t
    ensures var r := Moved(s, d, t, isAbove);
      var j := InsertIndex(d, t, isAbove);
      r[j] == s[d]
      && (isAbove ==> j + 1 < |r| && r[j + 1] == s[t])
      && (!isAbove ==> 1 <= j && r[j - 1] == s[t])
  {
    var j := InsertIndex(d, t, isAbove);
    var rest := Removed(s, d);
    var r := Moved(s, d, t, isAbove);
    assert r == rest[..j] + [s[d]] + rest[j..];
    var tr := if d < t then t - 1 else t;
    assert rest[tr] == s[t];
  }

  /** Ids of the blocks are distinct and below the counter. */
  predicate UniqueIds(bs: seq<Block>, counter: nat)
  {
    (forall k :: 0 <= k < |bs| ==> 0 <= bs[k].id < counter)
    && (forall k, m :: 0 <= k < m < |bs| ==> bs[k].id != bs[m].id)
  }

  /** Where the `x`th block of the list without position `d` came from. */
  function RestSource(x: nat, d: nat): nat
  {
    if x < d then x else x + 1
  }

  /** Where the `k`th block after the move came from, when the dragged block went to `j`. */
  function MovedSource(k: nat, d: nat, j: nat): nat
  {
    if k < j then RestSource(k, d) else if k == j then d else RestSource(k - 1, d)
  }

  /** Every block of the new list is the old block at `MovedSource`. */
  lemma {:induction false} MovedAt(s: seq<Block>, d: nat, t: nat, isAbove: bool, k: nat)
    requires d < |s| && t < |s| && d != t && k < |s|
    ensures var j := InsertIndex(d, t, isAbove);
      MovedSource(k, d, j) < |s| && Moved(s, d, t, isAbove)[k] == s[MovedSource(k, d, j)]
  {
    var j := InsertIndex(d, t, isAbove);
    var rest := Removed(s, d);
    var r := Moved(s, d, t, isAbove);
    assert r == rest[..j] + [s[d]] + rest[j..];
    if k < j {
      assert r[k] == rest[k];
    } else if k > j {
      assert r[k] == rest[k - 1];
    }
  }

  /**
   * The source map is one-to-one, and it keeps the order of every block other than the
   * dragged one: nothing is duplicated or lost, and the others keep their relative order.
   */
  lemma {:induction false} MovedSourceOrder(d: nat, j: nat, k: nat, m: nat)
    requires k < m
    ensures MovedSource(k, d, j) != MovedSource(m, d, j)
    ensures k != j && m != j ==> MovedSource(k, d, j) < MovedSource(m, d, j)
  {
  }

  /** A move keeps the ids distinct and below the counter. */
  lemma {:induction false} MovedUnique(s: seq<Block>, counter: nat, d: nat, t: nat, isAbove: bool)
    requires UniqueIds(s, counter) && d < |s| && t < |s| && d != t
    ensures UniqueIds(Moved(s, d, t, isAbove), counter)
  {
    var r := Moved(s, d, t, isAbove);
    forall k | 0 <= k < |r|
      ensures 0 <= r[k].id < counter
    {
      MovedAt(s, d, t, isAbove, k);
    }
    forall k, m | 0 <= k < m < |r|
      ensures r[k].id != r[m].id
    {
      MovedAt(s, d, t, isAbove, k);
      MovedAt(s, d, t, isAbove, m);
      MovedSourceOrder(d, InsertIndex(d, t, isAbove), k, m);
    }
  }

  /** Filtering keeps the ids distinct and below the counter. */
  lemma {:induction false} WithoutUnique(bs: seq<Block>, id: int, counter: nat)
    requires UniqueIds(bs, counter)
    ensures UniqueIds(WithoutId(bs, id), counter)
  {
    if bs != [] {
      var tail := WithoutId(bs[1..], id);
      WithoutUnique(bs[1..], id, counter);
      if bs[0].id != id {
        ConsUnique(bs[0], tail, bs[1..], counter);
      }
    }
  }

  /** A block whose id is fresh with respect to a list stays unique in front of any part of it. */
  lemma {:induction false} ConsUnique(b: Block, tail: seq<Block>, rest: seq<Block>, counter: nat)
    requires UniqueIds(tail, counter) && 0 <= b.id < counter
    requires forall x :: x in tail ==> x in rest
    requires forall k :: 0 <= k < |rest| ==> rest[k].id != b.id
    ensures UniqueIds([b] + tail, counter)
  {
    var r := [b] + tail;
    forall m | 0 < m < |r|
      ensures r[0].id != r[m].id
    {
      assert r[m] == tail[m - 1];
      assert r[m] in rest;
    }
  }

  /** The editor's blocks and the counter new ids are drawn from. */
  class BlockList {
    var blocks: seq<Block>
    var counter: nat

    predicate Valid()
      reads this
    {
      UniqueIds(blocks, counter)
    }

    constructor()
      ensures Valid() && blocks == [] && counter == 0
    {
      blocks := [];
      counter := 0;
    }

    /** `createLogBlock(title, content, collapsible)`: appends a block under the next id. */
    method Create(title: string, content: string, collapsible: bool) returns (b: Block)
      requires Valid()
      modifies this
      ensures Valid()
      ensures b == Block(old(counter), DefaultTitle(title, old(counter)), content, collapsible, false)
      ensures counter == old(counter) + 1 && blocks == old(blocks) + [b]
      ensures FindIndex(blocks, b.id) == |old(blocks)|
    {
      var id := counter;
      counter := counter + 1;
      b := Block(id, DefaultTitle(title, id), content, collapsible, false);
      assert forall k :: 0 <= k < |blocks| ==> blocks[k].id != id;
      blocks := blocks + [b];
      assert blocks[|blocks| - 1].id == id;
    }

    /** `removeLogBlock(id)`: keeps every block with another id, in order. */
    method Remove(id: int)
      requires Valid()
      modifies this
      ensures Valid()
      ensures blocks == WithoutId(old(blocks), id) && counter == old(counter)
      ensures FindIndex(blocks, id) == -1
    {
      WithoutUnique(blocks, id, counter);
      blocks := WithoutId(blocks, id);
      assert forall k :: 0 <= k < |blocks| ==> blocks[k] in blocks;
    }

    /** `updateLogBlock(id, updates)`: the first block with the id takes the updated fields. */
    method Update(id: int, u: BlockUpdate)
      requires Valid()
      modifies this
      ensures Valid() && counter == old(counter)
      ensures var i := FindIndex(old(blocks), id);
        blocks == if i < 0 then old(blocks) else old(blocks)[i := Apply(old(blocks)[i], u)]
    {
      var i := FindIndex(blocks, id);
      if i >= 0 {
        blocks := blocks[i := Apply(blocks[i], u)];
      }
    }

    /**
     * The drop handler: with a drag in progress onto another block, the dragged block is
     * spliced out and spliced back in next to the target.
     */
    method Drop(draggedId: Option<int>, targetId: int, isAbove: bool)
      requires Valid()
      modifies this
      ensures Valid() && counter == old(counter)
      ensures var d := if draggedId.Some? then FindIndex(old(blocks), draggedId.value) else -1;
        var t := FindIndex(old(blocks), targetId);
        blocks == if draggedId.None? || draggedId.value == targetId || d < 0 || t < 0 then old(blocks)
                  else Moved(old(blocks), d, t, isAbove)
    {
      if draggedId.None? || draggedId.value == targetId {
        return;
      }
      var draggedIndex := FindIndex(blocks, draggedId.value);
      var targetIndex := FindIndex(blocks, targetId);
      if draggedIndex != -1 && targetIndex != -1 {
        var draggedBlock := blocks[draggedIndex];
        MovedUnique(blocks, counter, draggedIndex, targetIndex, isAbove);
        ghost var expected := Moved(blocks, draggedIndex, targetIndex, isAbove);
        blocks := Removed(blocks, draggedIndex);
        var insertIndex := InsertIndex(draggedIndex, targetIndex, isAbove);
        blocks := Inserted(blocks, insertIndex, draggedBlock);
        assert blocks == expected;
      }
    }
  }
}
