/** The shape of the trie that maps 32-bit keys to values: 65536 top slots of 65536 keys each,
    then forests of 16 slots down to single keys.  A slot is addressed by its level and its
    index at that level, so its address says which keys it covers.

    Pointers to forests are not needed in the model, because the children of a slot have addresses
    of their own: a slot either is a forest, and then its sixteen children exist, or a leaf, and
    then nothing exists below it.  Two leaves never share a key. */
module TrieShape {
  import opened Pointers

  const FANOUT_TOP: nat := 65536

  datatype Slot = Slot(level: nat, index: nat)

  /** Keys covered by one slot of a level; level 4 is the last. */
  function BlockSize(level: nat): nat {
    if level == 0 then 65536
    else if level == 1 then 4096
    else if level == 2 then 256
    else if level == 3 then 16
    else 1
  }

  function Lo(s: Slot): nat {
    if s.level == 0 then s.index * 65536
    else if s.level == 1 then s.index * 4096
    else if s.level == 2 then s.index * 256
    else if s.level == 3 then s.index * 16
    else s.index
  }

  function SlotFor(level: nat, key: nat): Slot {
    Slot(level,
      if level == 0 then key / 65536
      else if level == 1 then key / 4096
      else if level == 2 then key / 256
      else if level == 3 then key / 16
      else key)
  }

  predicate SlotOk(s: Slot) {
    s.level <= 4 && Lo(s) + BlockSize(s.level) <= 0x1_0000_0000
  }

  predicate InSlot(s: Slot, k: nat) {
    Lo(s) <= k < Lo(s) + BlockSize(s.level)
  }

  function Child(s: Slot, j: nat): Slot {
    Slot(s.level + 1, s.index * 16 + j)
  }

  function Parent(s: Slot): Slot
    requires s.level > 0
  {
    Slot(s.level - 1, s.index / 16)
  }

  /** Every key lies in a slot of the top level. */
  lemma InTopSlot(k: nat)
    requires k < 0x1_0000_0000
    ensures SlotFor(0, k) == Slot(0, k / 65536) && k / 65536 < FANOUT_TOP
    ensures InSlot(SlotFor(0, k), k) && SlotOk(SlotFor(0, k))
  {
    assert k / 65536 * 65536 <= k < k / 65536 * 65536 + 65536;
  }

  lemma InSlotUnique(s: Slot, k: nat)
    requires s.level <= 4 && InSlot(s, k)
    ensures s == SlotFor(s.level, k)
  {
  }

  lemma ChildInside(s: Slot, j: nat, k: nat)
    requires s.level < 4 && j < 16 && InSlot(Child(s, j), k)
    ensures InSlot(s, k) && Parent(Child(s, j)) == s
    ensures SlotOk(s) ==> SlotOk(Child(s, j))
  {
  }

  /** A key of a slot lies in exactly one of its children. */
  lemma ChildFor(s: Slot, k: nat)
    requires s.level < 4 && InSlot(s, k)
    ensures var c := SlotFor(s.level + 1, k);
            && InSlot(c, k) && Parent(c) == s && 0 <= c.index - s.index * 16 < 16
            && c == Child(s, c.index - s.index * 16)
  {
  }

  lemma ParentInside(c: Slot, k: nat)
    requires 0 < c.level <= 4 && InSlot(c, k)
    ensures InSlot(Parent(c), k)
  {
  }

  /* ------------------------------------------------------------ trees in memory */

  /** What a slot holds: nothing, a value, a forest of sixteen child slots, or (while values
      are being collected) the address of the previous slot with the same value. */
  datatype Tree = Null | Val(p: Ptr) | Forest | Link(next: Slot)

  type Mem = map<Slot, Tree>

  predicate Leaf(m: Mem, s: Slot) {
    s in m && !m[s].Forest?
  }

  /** The top slots are there, children exist exactly below forests. */
  ghost predicate Shape(m: Mem) {
    && (forall i :: 0 <= i < FANOUT_TOP ==> Slot(0, i) in m)
    && (forall s :: s in m ==> SlotOk(s))
    && (forall s :: s in m && s.level > 0 ==> Parent(s) in m && m[Parent(s)] == Forest)
    && (forall s :: s in m && m[s] == Forest ==> s.level < 4)
    && (forall s, j :: s in m && m[s] == Forest && 0 <= j < 16 ==> Child(s, j) in m)
  }

  /** Two different leaves share no key. */
  lemma {:induction false} AncestorsAreForests(m: Mem, s: Slot, level: nat, k: nat)
    requires Shape(m) && s in m && InSlot(s, k) && level < s.level
    ensures SlotFor(level, k) in m && m[SlotFor(level, k)] == Forest
    decreases s.level
  {
    ParentInside(s, k);
    if level == s.level - 1 {
      InSlotUnique(Parent(s), k);
    } else {
      AncestorsAreForests(m, Parent(s), level, k);
    }
  }

  lemma LeavesDisjoint(m: Mem, s: Slot, t: Slot, k: nat)
    requires Shape(m) && Leaf(m, s) && Leaf(m, t) && InSlot(s, k) && InSlot(t, k)
    ensures s == t
  {
    InSlotUnique(s, k);
    InSlotUnique(t, k);
    if s.level < t.level {
      AncestorsAreForests(m, t, s.level, k);
    } else if t.level < s.level {
      AncestorsAreForests(m, s, t.level, k);
    }
  }

  /** The sixteen slots of the forest below s. */
  function Children(s: Slot): set<Slot> {
    set j: nat | j < 16 :: Child(s, j)
  }

  /** Turn a leaf into a forest whose sixteen slots hold what the leaf held. */
  function Split(m: Mem, s: Slot): (m': Mem)
    requires s in m
  {
    (map c | c in Children(s) :: m[s]) + m[s := Forest]
  }

  lemma ChildrenNew(m: Mem, s: Slot, j: nat)
    requires Shape(m) && Leaf(m, s) && s.level < 4 && j < 16
    ensures Child(s, j) !in m
  {
    assert Parent(Child(s, j)) == s;
  }

  lemma SplitAt(m: Mem, s: Slot)
    requires Shape(m) && Leaf(m, s) && s.level < 4
    ensures Split(m, s).Keys == m.Keys + Children(s) && m.Keys !! Children(s)
    ensures Split(m, s)[s] == Forest
    ensures forall t :: t in m && t != s ==> Split(m, s)[t] == m[t]
    ensures forall c :: c in Children(s) ==> Split(m, s)[c] == m[s]
  {
    forall c | c in Children(s) ensures c !in m {
      var j: nat :| j < 16 && c == Child(s, j);
      ChildrenNew(m, s, j);
    }
  }

  lemma ChildrenOk(s: Slot)
    requires s.level < 4
    ensures forall c :: c in Children(s) ==> (SlotOk(s) ==> SlotOk(c)) && c.level > 0 && Parent(c) == s
    ensures forall j :: 0 <= j < 16 ==> Child(s, j) in Children(s)
  {
    forall c | c in Children(s) ensures (SlotOk(s) ==> SlotOk(c)) && c.level > 0 && Parent(c) == s {
      var j: nat :| j < 16 && c == Child(s, j);
      ChildInside(s, j, Lo(c));
    }
  }

  lemma SplitShape(m: Mem, s: Slot)
    requires Shape(m) && Leaf(m, s) && s.level < 4
    ensures Shape(Split(m, s))
  {
    hide Split, Children, SlotOk;
    SplitAt(m, s);
    ChildrenOk(s);
    var m' := Split(m, s);
    forall t | t in m' && t.level > 0 ensures Parent(t) in m' && m'[Parent(t)] == Forest {
      if t in m {
        assert m[Parent(t)] == Forest;
      }
    }
  }

  /* ------------------------------------------------------------ counting the holders of a value */

  function Holders(m: Mem, p: Ptr): set<Slot> {
    set s | s in m && m[s] == Val(p)
  }

  lemma {:induction false} ChildrenCard(s: Slot, n: nat)
    ensures |set j: nat | j < n :: Child(s, j)| == n
  {
    var c := set j: nat | j < n :: Child(s, j);
    if n > 0 {
      ChildrenCard(s, n - 1);
      var d := set j: nat | j < n - 1 :: Child(s, j);
      assert c == d + {Child(s, n - 1)};
      assert Child(s, n - 1) !in d;
    } else {
      assert c == {};
    }
  }

  lemma HoldersSplit(m: Mem, s: Slot, p: Ptr)
    requires Shape(m) && Leaf(m, s) && s.level < 4
    ensures |Holders(Split(m, s), p)| == |Holders(m, p)| + if m[s] == Val(p) then 15 else 0
  {
    hide Split;
    SplitAt(m, s);
    var before, after := Holders(m, p), Holders(Split(m, s), p);
    if m[s] == Val(p) {
      assert after == (before - {s}) + Children(s);
      ChildrenCard(s, 16);
      assert (before - {s}) !! Children(s);
    } else {
      assert after == before;
    }
  }

  lemma HoldersUpdate(m: Mem, s: Slot, t: Tree, p: Ptr)
    requires s in m
    ensures |Holders(m[s := t], p)| + (if m[s] == Val(p) then 1 else 0) ==
            |Holders(m, p)| + (if t == Val(p) then 1 else 0)
  {
    var before, after := Holders(m, p), Holders(m[s := t], p);
    if t == Val(p) {
      assert after == before + {s};
    } else {
      assert after == before - {s};
    }
  }
}
