/** Reading traversals of the trie: the leaves of a key range, from left to right. */
module TrieRead {
  import opened TrieShape

  /** One call of the visitor: a leaf, and the part of its keys that lies in the range. */
  datatype Visit = Visit(slot: Slot, key: nat, size: nat)

  /** The visits cover key..key+size without gap, and each ends where its leaf or the whole range
      ends. */
  ghost predicate Tiles(m: Mem, vs: seq<Visit>, key: nat, size: nat, end: nat) {
    && (forall i :: 0 <= i < |vs| ==>
          && Leaf(m, vs[i].slot) && vs[i].size > 0 && Lo(vs[i].slot) <= vs[i].key
          && vs[i].key + vs[i].size <= Lo(vs[i].slot) + BlockSize(vs[i].slot.level)
          && (vs[i].key + vs[i].size == Lo(vs[i].slot) + BlockSize(vs[i].slot.level) || vs[i].key + vs[i].size == end))
    && (forall i :: 0 <= i < |vs| - 1 ==> vs[i].key + vs[i].size == vs[i + 1].key)
    && (if vs == [] then size == 0 else vs[0].key == key && vs[|vs| - 1].key + vs[|vs| - 1].size == key + size)
  }

  lemma TilesAppend(m: Mem, a: seq<Visit>, b: seq<Visit>, key: nat, n: nat, len: nat, end: nat)
    requires Tiles(m, a, key, n, end) && Tiles(m, b, key + n, len, end) && len > 0
    ensures Tiles(m, a + b, key, n + len, end)
  {
    var vs := a + b;
    forall i | 0 <= i < |vs| - 1 ensures vs[i].key + vs[i].size == vs[i + 1].key {
      if i >= |a| {
        assert vs[i] == b[i - |a|] && vs[i + 1] == b[i + 1 - |a|];
      }
    }
  }

  /** The leaves of slot s in the range key..key+size. */
  method VisitSlot(m: Mem, s: Slot, key: nat, size: nat, ghost end: nat) returns (vs: seq<Visit>)
    requires Shape(m) && s in m && size > 0
    requires Lo(s) <= key && key + size <= Lo(s) + BlockSize(s.level)
    requires key + size == Lo(s) + BlockSize(s.level) || key + size == end
    ensures Tiles(m, vs, key, size, end)
    decreases 4 - s.level
  {
    hide Tiles, Shape, Lo, BlockSize, SlotFor;
    if m[s] != Forest {
      vs := [Visit(s, key, size)];
      TilesOne(m, s, key, size, end);
    } else {
      vs := [];
      var n := 0;
      TilesNone(m, key, end);
      while n < size
        invariant n <= size && Tiles(m, vs, key, n, end)
      {
        ForestChild(m, s, key + n);
        var t := SlotFor(s.level + 1, key + n);
        var room := Lo(t) + BlockSize(t.level) - (key + n);
        var len := if size - n < room then size - n else room;
        LastChildEnds(s, t, key + n);
        var more := VisitSlot(m, t, key + n, len, end);
        TilesAppend(m, vs, more, key, n, len, end);
        vs := vs + more;
        n := n + len;
      }
    }
  }

  lemma TilesNone(m: Mem, key: nat, end: nat)
    ensures Tiles(m, [], key, 0, end)
  {
  }

  lemma TilesOne(m: Mem, s: Slot, key: nat, size: nat, end: nat)
    requires Leaf(m, s) && size > 0 && Lo(s) <= key && key + size <= Lo(s) + BlockSize(s.level)
    requires key + size == Lo(s) + BlockSize(s.level) || key + size == end
    ensures Tiles(m, [Visit(s, key, size)], key, size, end)
  {
  }

  lemma ForestChild(m: Mem, s: Slot, k: nat)
    requires Shape(m) && s in m && m[s] == Forest && InSlot(s, k)
    ensures s.level < 4 && SlotFor(s.level + 1, k) in m && InSlot(SlotFor(s.level + 1, k), k)
    ensures SlotFor(s.level + 1, k).level == s.level + 1
  {
    ChildFor(s, k);
    var t := SlotFor(s.level + 1, k);
    assert Child(s, t.index - s.index * 16) in m;
  }

  /** A child never reaches beyond its parent. */
  lemma LastChildEnds(s: Slot, t: Slot, k: nat)
    requires s.level < 4 && InSlot(s, k) && t == SlotFor(s.level + 1, k)
    ensures Lo(t) + BlockSize(t.level) <= Lo(s) + BlockSize(s.level)
  {
    ChildFor(s, k);
    ChildInside(s, t.index - s.index * 16, Lo(t) + BlockSize(t.level) - 1);
  }

  /** The leaves of the range start..start+size. */
  method Traverse(m: Mem, start: nat, size: nat) returns (vs: seq<Visit>)
    requires Shape(m) && size > 0 && start + size <= 0x1_0000_0000
    ensures Tiles(m, vs, start, size, start + size)
  {
    hide Tiles;
    var block, index := start / 65536, start % 65536;
    var last := (start + (size - 1)) / 65536;
    vs := [];
    var n := 0;
    TilesNone(m, start, start + size);
    while block < last
      invariant 0 <= block <= last && 0 <= n < size && 0 <= index < 65536 && start + n == block * 65536 + index
      invariant Tiles(m, vs, start, n, start + size)
      decreases last - block
    {
      var len := 65536 - index;
      assert block < FANOUT_TOP;
      var more := VisitSlot(m, Slot(0, block), start + n, len, start + size);
      TilesAppend(m, vs, more, start, n, len, start + size);
      vs := vs + more;
      n, block, index := n + len, block + 1, 0;
    }
    assert block < FANOUT_TOP;
    var more := VisitSlot(m, Slot(0, block), start + n, size - n, start + size);
    TilesAppend(m, vs, more, start, n, size - n, start + size);
    vs := vs + more;
  }

  /* ------------------------------------------------------------ what a traversal meets */

  lemma {:induction false} KeysGrow(m: Mem, vs: seq<Visit>, key: nat, size: nat, end: nat, i: nat, j: nat)
    requires Tiles(m, vs, key, size, end) && i < j < |vs|
    ensures vs[i].key + vs[i].size <= vs[j].key
    decreases j
  {
    if i < j - 1 {
      KeysGrow(m, vs, key, size, end, i, j - 1);
    }
  }

  /** No leaf is visited twice. */
  lemma VisitedOnce(m: Mem, vs: seq<Visit>, key: nat, size: nat, i: nat, j: nat)
    requires Tiles(m, vs, key, size, key + size) && i < j < |vs|
    ensures vs[i].slot != vs[j].slot
  {
    KeysGrow(m, vs, key, size, key + size, i, j);
    if j + 1 < |vs| {
      KeysGrow(m, vs, key, size, key + size, j, |vs| - 1);
    }
  }

  /** Every key of the range is met. */
  lemma {:induction false} KeyVisited(m: Mem, vs: seq<Visit>, key: nat, size: nat, end: nat, k: nat) returns (i: nat)
    requires Tiles(m, vs, key, size, end) && key <= k < key + size
    ensures i < |vs| && vs[i].key <= k < vs[i].key + vs[i].size
  {
    i := 0;
    while vs[i].key + vs[i].size <= k
      invariant i < |vs| && vs[i].key <= k
      decreases |vs| - i
    {
      if i == |vs| - 1 {
        assert false;
      }
      i := i + 1;
    }
  }

  /** Every leaf with a key in the range is visited. */
  lemma LeafVisited(m: Mem, vs: seq<Visit>, key: nat, size: nat, end: nat, s: Slot, k: nat) returns (i: nat)
    requires Shape(m) && Tiles(m, vs, key, size, end) && Leaf(m, s) && InSlot(s, k) && key <= k < key + size
    ensures i < |vs| && vs[i].slot == s
  {
    i := KeyVisited(m, vs, key, size, end, k);
    LeavesDisjoint(m, s, vs[i].slot, k);
  }
}
