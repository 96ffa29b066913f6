/** The trie that maps ranges of fact ids to owner sets.

    An insertion first takes the slots of its ranges out, threading those that hold the same value
    into one list whose head the value remembers; then it asks once per value for the new one, and
    follows the list to store it. */
module TrieArray {
  import opened SetVectors
  import opened Pointers
  import opened TrieShape
  import opened TrieCollect
  import opened TrieUnlink
  import S = SetU32

  datatype Range = Range(start: nat, finish: nat)

  ghost predicate InRanges(rs: seq<Range>, k: nat) {
    exists i :: 0 <= i < |rs| && rs[i].start <= k <= rs[i].finish
  }

  /** Sorted, non-overlapping ranges; a range may be empty. */
  predicate AscendingRanges(rs: seq<Range>) {
    forall i, j :: 0 <= i < j < |rs| ==>
      rs[i].start <= rs[j].start && rs[i].finish <= rs[j].finish && rs[i].finish < rs[j].start
  }

  /** The last key fits in 32 bits, which is what an insertion checks. */
  predicate Fits(rs: seq<Range>) {
    rs == [] || rs[|rs| - 1].finish < 0x1_0000_0000
  }

  predicate SortedRanges(rs: seq<Range>) {
    (forall i :: 0 <= i < |rs| ==> rs[i].finish < 0x1_0000_0000) && AscendingRanges(rs)
  }

  lemma FitsSorted(rs: seq<Range>)
    requires AscendingRanges(rs)
    ensures SortedRanges(rs) <==> Fits(rs)
  {
  }

  ghost function KeyRange(key: nat, size: nat): iset<nat> {
    iset k: nat | InKeys(key, size, k)
  }

  predicate InKeys(key: nat, size: nat, k: nat) {
    key <= k < key + size
  }

  lemma KeyRangeSplit(key: nat, a: nat, b: nat)
    ensures KeyRange(key, a) + KeyRange(key + a, b) == KeyRange(key, a + b)
  {
    assert forall k: nat :: InKeys(key, a + b, k) <==> InKeys(key, a, k) || InKeys(key + a, b, k);
  }

  /* ------------------------------------------------------------ before and after an insertion */

  /** Outside of an insertion: every leaf holds exactly the units of its keys, and every value is
      referenced once per leaf. */
  ghost predicate Settled(m: Mem, h: Cells, base: nat -> set<nat>) {
    && Shape(m) && CellsOk(h)
    && (forall s :: Leaf(m, s) ==> !m[s].Link?)
    && (forall s :: s in m && m[s].Val? ==> m[s].p in h)
    && (forall s, k :: Leaf(m, s) && InSlot(s, k) ==> TreeUnits(h, m[s]) == base(k))
    && (forall p :: p in h ==> 0 < h[p].refs == |Holders(m, p)| && h[p].link == None)
  }

  /** What a key points to. */
  ghost function PtrOf(m: Mem, k: nat): Ptr {
    if exists s :: Leaf(m, s) && InSlot(s, k) then
      var s :| Leaf(m, s) && InSlot(s, k);
      PtrAt(m, map[], s)
    else NULL
  }

  lemma PtrOfLeaf(m: Mem, s: Slot, k: nat)
    requires Shape(m) && Leaf(m, s) && InSlot(s, k)
    ensures PtrOf(m, k) == PtrAt(m, map[], s)
  {
    forall t | Leaf(m, t) && InSlot(t, k) ensures t == s {
      LeavesDisjoint(m, s, t, k);
    }
  }

  /** Every key lies in some leaf. */
  lemma {:induction false} Covered(m: Mem, s: Slot, k: nat) returns (leaf: Slot)
    requires Shape(m) && s in m && InSlot(s, k)
    ensures Leaf(m, leaf) && InSlot(leaf, k)
    decreases 4 - s.level
  {
    if m[s] == Forest {
      ChildFor(s, k);
      var c := SlotFor(s.level + 1, k);
      assert Child(s, c.index - s.index * 16) in m;
      leaf := Covered(m, c, k);
    } else {
      leaf := s;
    }
  }

  lemma CoveredTop(m: Mem, k: nat) returns (leaf: Slot)
    requires Shape(m) && k < 0x1_0000_0000
    ensures Leaf(m, leaf) && InSlot(leaf, k)
  {
    InTopSlot(k);
    leaf := Covered(m, SlotFor(0, k), k);
  }

  ghost function StartHist(m: Mem): Hist {
    Hist(map[], map[], iset{}, (k: nat) => PtrOf(m, k))
  }

  lemma SettledCollecting(m: Mem, h: Cells, base: nat -> set<nat>)
    requires Settled(m, h, base)
    ensures Collecting(Coll(m, h, None, []), StartHist(m))
  {
    hide WF, Members, UnitsOf, TreeUnits;
    var c, g := Coll(m, h, None, []), StartHist(m);
    assert Content(c, g) by {
      forall s, k | Leaf(c.m, s) && InSlot(s, k)
        ensures (s in g.was <==> k in g.D) && g.orig(k) == PtrAt(c.m, g.was, s)
      {
        PtrOfLeaf(m, s, k);
      }
    }
  }

  /** Collecting changes counts and links, never a set. */
  ghost predicate SameSets(h: Cells, h': Cells) {
    h'.Keys == h.Keys && forall p :: p in h ==> h'[p].set_ == h[p].set_
  }

  lemma CollectedProgress(m0: Mem, h0: Cells, base: nat -> set<nat>, c: Coll, g: Hist, unit: nat)
    requires Settled(m0, h0, base) && SameSets(h0, c.h) && g.orig == StartHist(m0).orig && CellsOk(c.h)
    requires Shape(c.m) && Content(c, g) && Leaves(c, g)
    requires forall s :: s in g.was ==> g.was[s] == NULL || g.was[s] in c.h
    ensures Progress(c.m, c.h, g.was, g.D, base, unit)
  {
    hide WF, Members, Settled, SameSets, Shape, UnitsOf, CellsOk;
    forall s, k | Leaf(c.m, s) && InSlot(s, k)
      ensures if s in g.was then k in g.D && base(k) == UnitsOf(c.h, g.was[s])
              else TreeUnits(c.h, c.m[s]) == Target(base, g.D, unit, k)
    {
      OrigUnits(m0, h0, base, c, g, s, k);
      NullUnits(c.h);
      if s !in g.was {
        assert k !in g.D;
        assert base(k) + {} == base(k);
      }
    }
  }

  lemma NullUnits(h: Cells)
    requires CellsOk(h)
    ensures UnitsOf(h, NULL) == {}
  {
  }

  lemma CollectedUnlinking(m0: Mem, h0: Cells, base: nat -> set<nat>, c: Coll, g: Hist, unit: nat)
    requires Settled(m0, h0, base) && Collecting(c, g) && SameSets(h0, c.h) && g.orig == StartHist(m0).orig
    ensures Unlinking(c, g, base, unit)
  {
    hide WF, Members, Content, ChainOk, Counts, Values, Leaves, Shape, Progress;
    CollectedProgress(m0, h0, base, c, g, unit);
  }

  lemma OrigUnits(m0: Mem, h0: Cells, base: nat -> set<nat>, c: Coll, g: Hist, s: Slot, k: nat)
    requires Settled(m0, h0, base) && SameSets(h0, c.h) && g.orig == StartHist(m0).orig && CellsOk(c.h)
    requires Shape(c.m) && Content(c, g) && Leaf(c.m, s) && InSlot(s, k)
    ensures var p := PtrAt(c.m, g.was, s); (p == NULL || p in c.h) && base(k) == UnitsOf(c.h, p)
  {
    hide WF, Members;
    var l := CoveredTop(m0, k);
    PtrOfLeaf(m0, l, k);
    assert g.orig(k) == PtrAt(m0, map[], l);
    assert TreeUnits(h0, m0[l]) == base(k);
  }

  /** Before any insertion. */
  ghost function Nobody(): nat -> set<nat> {
    (k: nat) => {}
  }

  /** The units of every key after inserting one more unit for some ranges. */
  ghost function Inserted(base: nat -> set<nat>, rs: seq<Range>, unit: nat): nat -> set<nat> {
    (k: nat) => base(k) + if InRanges(rs, k) then {unit} else {}
  }

  lemma UnlinkedSettled(c: Coll, g: Hist, base: nat -> set<nat>, unit: nat, rs: seq<Range>)
    requires Unlinking(c, g, base, unit) && g.chains == map[]
    requires forall k: nat :: k in g.D <==> InRanges(rs, k)
    ensures Settled(c.m, c.h, Inserted(base, rs, unit)) && c.nullLink == None
  {
    hide WF, Members, UnitsOf, TreeUnits, Shape;
    assert g.was == map[];
  }

  /* ------------------------------------------------------------ visiting slots */

  /** Slots stay, and forests stay forests. */
  ghost predicate Kept(m: Mem, m': Mem) {
    forall t :: t in m ==> t in m' && (m[t] == Forest ==> m'[t] == Forest)
  }

  /** The keys from `key` on have been taken out, and nothing else. */
  ghost predicate Taken(c: Coll, g: Hist, c': Coll, g': Hist, key: nat, size: nat) {
    && Collecting(c', g') && g'.D == g.D + KeyRange(key, size) && g'.orig == g.orig
    && SameSets(c.h, c'.h) && Kept(c.m, c'.m)
  }

  lemma TakenNothing(c: Coll, g: Hist, key: nat)
    requires Collecting(c, g)
    ensures Taken(c, g, c, g, key, 0)
  {
    assert KeyRange(key, 0) == iset{};
  }

  lemma TakenThen(c: Coll, g: Hist, c1: Coll, g1: Hist, c2: Coll, g2: Hist, key: nat, a: nat, b: nat)
    requires Taken(c, g, c1, g1, key, a) && Taken(c1, g1, c2, g2, key + a, b)
    ensures Taken(c, g, c2, g2, key, a + b)
  {
    hide Collecting;
    KeyRangeSplit(key, a, b);
    assert g.D + KeyRange(key, a) + KeyRange(key + a, b) == g.D + (KeyRange(key, a) + KeyRange(key + a, b));
  }

  /** A slot that lies in the range as a whole. */
  lemma WholeSlot(s: Slot, key: nat, size: nat)
    requires size == BlockSize(s.level) && Lo(s) <= key && key + size <= Lo(s) + BlockSize(s.level)
    ensures KeysOf(s) == KeyRange(key, size)
  {
    assert forall k: nat :: InSlot(s, k) <==> InKeys(key, size, k);
  }

  /** A slot with a key that is still to do is not threaded yet. */
  lemma NotThreaded(c: Coll, g: Hist, s: Slot, key: nat)
    requires Content(c, g) && Leaf(c.m, s) && InSlot(s, key) && key !in g.D
    ensures s !in g.was
  {
  }

  lemma TakenSlot(c: Coll, g: Hist, s: Slot, key: nat, size: nat)
    requires Collecting(c, g) && Leaf(c.m, s) && size == BlockSize(s.level) > 0
    requires Lo(s) <= key && key + size <= Lo(s) + BlockSize(s.level) && key !in g.D
    ensures CanLink(c, g, s) && Taken(c, g, LinkLeaf(c, s), Threaded(c, g, s), key, size)
  {
    hide Content, Chains, Values, Heads, Counts, Leaves, Shape;
    NotThreaded(c, g, s, key);
    LinkCollecting(c, g, s);
    hide Collecting;
    WholeSlot(s, key, size);
  }

  lemma SplitKept(c: Coll, g: Hist, s: Slot)
    requires Collecting(c, g) && Leaf(c.m, s) && s !in g.was && s.level < 4
    ensures (c.m[s].Val? ==> c.m[s].p in c.h) && Collecting(SplitLeaf(c, s), g)
    ensures SameSets(c.h, SplitLeaf(c, s).h) && Kept(c.m, SplitLeaf(c, s).m)
    ensures s in SplitLeaf(c, s).m && SplitLeaf(c, s).m[s] == Forest
  {
    hide Content, Chains, Values, Heads, Counts, Leaves, Split;
    SplitCollecting(c, g, s);
    SplitAt(c.m, s);
  }

  lemma SlotFacts(c: Coll, g: Hist, s: Slot, key: nat)
    requires Collecting(c, g) && s in c.m && InSlot(s, key) && key !in g.D
    ensures s.level <= 4 && (Leaf(c.m, s) ==> s !in g.was)
  {
    hide Chains, Values, Heads, Counts, Leaves;
    assert SlotOk(s);
    if Leaf(c.m, s) {
      NotThreaded(c, g, s, key);
    }
  }

  lemma LinkReady(c: Coll, g: Hist, s: Slot)
    requires CanLink(c, g, s)
    ensures c.m[s].Val? ==> c.m[s].p in c.h && c.h[c.m[s].p].refs > 0
  {
  }

  lemma KeptSame(c: Coll)
    ensures SameSets(c.h, c.h) && Kept(c.m, c.m)
  {
  }

  lemma TakenAfterSplit(c: Coll, c1: Coll, g: Hist, c2: Coll, g2: Hist, key: nat, size: nat)
    requires SameSets(c.h, c1.h) && Kept(c.m, c1.m) && Taken(c1, g, c2, g2, key, size)
    ensures Taken(c, g, c2, g2, key, size)
  {
    hide Collecting;
  }

  class TrieArray {
    var m: Mem
    var h: Cells
    var brk: Ptr
    var minkey: nat
    var maxkey: nat
    // scratch of an insertion: the list of slots without value, and the values seen
    var nullLink: Option<Slot>
    var values: seq<Ptr>

    function C(): Coll
      reads this
    {
      Coll(m, h, nullLink, values)
    }

    /** Take out the keys key..key+size of slot s: thread the slot when it lies in the range as a
        whole, else split it and go down. */
    method Visit(s: Slot, key: nat, size: nat, ghost g: Hist) returns (ghost g': Hist)
      requires Collecting(C(), g) && s in m && size > 0
      requires Lo(s) <= key && key + size <= Lo(s) + BlockSize(s.level)
      requires forall k :: InKeys(key, size, k) ==> k !in g.D
      modifies this`m, this`h, this`nullLink, this`values
      ensures Taken(old(C()), g, C(), g', key, size)
      decreases 4 - s.level, 1
    {
      hide Collecting, Taken, SameSets, Kept, CanLink, LinkLeaf, SplitLeaf, Threaded;
      ghost var c0 := C();
      assert InKeys(key, size, key);
      SlotFacts(c0, g, s, key);
      g' := g;
      if m[s] != Forest && size == BlockSize(s.level) {
        TakenSlot(c0, g, s, key, size);
        LinkReady(c0, g, s);
        var c := LinkLeaf(C(), s);
        m, h, nullLink, values := c.m, c.h, c.nullLink, c.values;
        g' := Threaded(c0, g, s);
      } else {
        if m[s] != Forest {
          SplitKept(c0, g, s);
          var c := SplitLeaf(C(), s);
          m, h, nullLink, values := c.m, c.h, c.nullLink, c.values;
        } else {
          KeptSame(c0);
        }
        ghost var c1 := C();
        g' := VisitChildren(s, key, size, g);
        TakenAfterSplit(c0, c1, g, C(), g', key, size);
      }
    }

    method VisitChildren(s: Slot, key: nat, size: nat, ghost g: Hist) returns (ghost g': Hist)
      requires Collecting(C(), g) && s in m && m[s] == Forest && size > 0
      requires Lo(s) <= key && key + size <= Lo(s) + BlockSize(s.level)
      requires forall k :: InKeys(key, size, k) ==> k !in g.D
      modifies this`m, this`h, this`nullLink, this`values
      ensures Taken(old(C()), g, C(), g', key, size)
      decreases 4 - s.level, 0
    {
      hide Collecting, Taken, Shape;
      g' := g;
      var n := 0;
      TakenNothing(C(), g, key);
      while n < size
        invariant n <= size && Taken(old(C()), g, C(), g', key, n)
      {
        ghost var c1, g1 := C(), g';
        TakenFacts(old(C()), g, c1, g1, key, n, s);
        ChildPresent(c1, g1, s, key + n);
        var t := SlotFor(s.level + 1, key + n);
        var room := Lo(t) + BlockSize(t.level) - (key + n);
        var len := if size - n < room then size - n else room;
        StillToDo(g.D, g1.D, key, size, n, len);
        g' := Visit(t, key + n, len, g1);
        TakenThen(old(C()), g, c1, g1, C(), g', key, n, len);
        n := n + len;
      }
    }

    /** Take out the keys start..start+size, top block by top block. */
    method Traverse(start: nat, size: nat, ghost g: Hist) returns (ghost g': Hist)
      requires Collecting(C(), g) && size > 0 && start + size <= 0x1_0000_0000
      requires forall k :: InKeys(start, size, k) ==> k !in g.D
      modifies this`m, this`h, this`nullLink, this`values
      ensures Taken(old(C()), g, C(), g', start, size)
    {
      hide Collecting, Taken, Shape;
      var block, index := start / 65536, start % 65536;
      var last := (start + (size - 1)) / 65536;
      g' := g;
      var n := 0;
      TakenNothing(C(), g, start);
      while block < last
        invariant 0 <= block <= last && 0 <= n < size && 0 <= index < 65536 && start + n == block * 65536 + index
        invariant Taken(old(C()), g, C(), g', start, n)
        decreases last - block
      {
        ghost var c1, g1 := C(), g';
        var len := 65536 - index;
        TopPresent(old(C()), g, c1, g1, start, n, block);
        StillToDo(g.D, g1.D, start, size, n, len);
        g' := Visit(Slot(0, block), start + n, len, g1);
        TakenThen(old(C()), g, c1, g1, C(), g', start, n, len);
        n, block, index := n + len, block + 1, 0;
      }
      ghost var c1, g1 := C(), g';
      TopPresent(old(C()), g, c1, g1, start, n, block);
      StillToDo(g.D, g1.D, start, size, n, size - n);
      g' := Visit(Slot(0, block), start + n, size - n, g1);
      TakenThen(old(C()), g, c1, g1, C(), g', start, n, size - n);
    }

    /** The values met in the given ranges are taken out of the trie, list by list. */
    method CollectRanges(rs: seq<Range>, ghost g: Hist) returns (ghost g': Hist)
      requires Collecting(C(), g) && g.D == iset{} && SortedRanges(rs)
      modifies this`m, this`h, this`nullLink, this`values
      ensures Collecting(C(), g') && g'.orig == g.orig && SameSets(old(h), h)
      ensures forall k: nat :: k in g'.D <==> InRanges(rs, k)
    {
      hide Collecting, Taken;
      g' := g;
      var i := 0;
      while i < |rs|
        invariant i <= |rs| && Collecting(C(), g') && g'.orig == g.orig && SameSets(old(h), h)
        invariant forall k: nat :: k in g'.D <==> InRanges(rs[..i], k)
      {
        RangesStep(rs, i);
        if rs[i].start <= rs[i].finish {
          ghost var c1, g1 := C(), g';
          RangeStillToDo(rs, i, g1.D);
          g' := Traverse(rs[i].start, rs[i].finish - rs[i].start + 1, g1);
          TakenSets(c1, g1, C(), g', rs[i].start, rs[i].finish - rs[i].start + 1);
        }
        i := i + 1;
      }
      assert rs[..|rs|] == rs;
    }

    /** Store the updated value in all slots of a list, undoing the links. */
    method Walk(head: Slot, upd: Ptr, ghost ch: seq<Slot>) returns (n: nat)
      requires |ch| > 0 && head == ch[0] && (forall i :: 0 <= i < |ch| ==> ch[i] in m)
      requires forall i, j :: 0 <= i < j < |ch| ==> ch[i] != ch[j]
      requires (forall i :: 0 <= i < |ch| - 1 ==> m[ch[i]] == Link(ch[i + 1])) && m[ch[|ch| - 1]] == Null
      modifies this`m
      ensures m == Stamp(old(m), ch, upd) && n == |ch|
    {
      n := 0;
      var tree := Some(head);
      while tree.Some?
        invariant n <= |ch| && tree == (if n < |ch| then Some(ch[n]) else None)
        invariant m.Keys == old(m).Keys
        invariant forall s :: s in m ==> m[s] == if s in ch[..n] then Val(upd) else old(m)[s]
        decreases |ch| - n
      {
        var slot := tree.value;
        assert slot !in ch[..n] && m[slot] == old(m)[slot];
        tree := if m[slot].Link? then Some(m[slot].next) else None;
        m := m[slot := Val(upd)];
        assert ch[..n + 1] == ch[..n] + [slot];
        n := n + 1;
      }
      assert ch[..|ch|] == ch;
    }

    /** The value for one more unit: the old value itself when nothing else refers to it, else a
        copy.  The answer records that p has been asked for. */
    method Updated(p: Ptr, unit: nat, asked: seq<Ptr>) returns (upd: Ptr, asked': seq<Ptr>)
      requires CellsOk(h) && CellsGood(h, brk, unit) && unit < 0x1_0000_0000
      requires p == NULL || (p in h && h[p].refs > 0)
      modifies this`h, this`brk
      ensures CellsOk(h) && CellsGood(h, brk, unit) && TrieUnlink.Updated(old(h), h, p, upd, 1, unit)
      ensures asked' == asked + [p]
    {
      hide WF, Members;
      asked' := asked + [p];
      if p != NULL && h[p].refs == 1 {
        var v := WithUnit(h[p].set_, unit);
        upd := p;
        h := h[p := Cell(v, 1, None)];
      } else {
        S.EmptyWF();
        var v := WithUnit(if p == NULL then EMPTY else h[p].set_, unit);
        upd := brk;
        if p != NULL {
          h := h[p := h[p].(refs := h[p].refs - 1, link := None)];
        }
        h, brk := h[upd := Cell(v, 1, None)], brk + 1;
      }
    }

    /** Compute the new value of one list and store it in all its slots. */
    method Unlink(p: Ptr, unit: nat, asked: seq<Ptr>, ghost g: Hist, ghost base: nat -> set<nat>)
      returns (asked': seq<Ptr>, ghost g': Hist)
      requires Unlinking(C(), g, base, unit) && p in g.chains && unit < 0x1_0000_0000
      requires CellsGood(h, brk, unit)
      modifies this`m, this`h, this`brk, this`nullLink
      ensures Unlinking(C(), g', base, unit) && CellsGood(h, brk, unit)
      ensures g' == Unthreaded(g, p) && asked' == asked + [p]
    {
      hide Unlinking, CellsOk, CellsGood, TrieUnlink.Updated, Stamp, Unthreaded;
      ghost var c, ch := C(), g.chains[p];
      ListFacts(c, g, base, unit, p);
      var head := if p == NULL then nullLink.value else h[p].link.value;
      if p == NULL {
        nullLink := None;
      }
      var upd;
      upd, asked' := Updated(p, unit, asked);
      var n := Walk(head, upd, ch);
      UpdatedInHeap(c.h, h, p, upd, unit);
      Used(c.h, h, p, upd, unit, n, brk);
      h := h[upd := h[upd].(refs := h[upd].refs + (n - 1))];
      StampUnlinking(c, g, p, upd, h, base, unit);
      g' := Unthreaded(g, p);
    }

    /** The trie stores the units `base` of every key, none above `last`. */
    ghost predicate Valid(base: nat -> set<nat>, last: nat)
      reads this
    {
      && Settled(m, h, base) && CellsGood(h, brk, last) && nullLink == None
      && maxkey < 0x1_0000_0000 && forall k: nat :: base(k) != {} ==> minkey <= k <= maxkey
    }

    constructor ()
      ensures Valid(Nobody(), 0) && minkey == 0xFFFF_FFFF_FFFF_FFFF && maxkey == 0
    {
      m := map i: nat | i < 65536 :: Slot(0, i) := Null;
      h, brk, nullLink, values := map[], 1, None, [];
      minkey, maxkey := 0xFFFF_FFFF_FFFF_FFFF, 0;
    }

    /** Give the keys of the ranges one more unit, unless a key is too large.  Each previous value
        (null included) is looked at once, and the answer says which ones were. */
    method Insert(rs: seq<Range>, unit: nat, ghost base: nat -> set<nat>, ghost last: nat) returns (ok: bool, asked: seq<Ptr>)
      requires Valid(base, last) && last <= unit < 0x1_0000_0000 && AscendingRanges(rs)
      modifies this
      ensures ok <==> Fits(rs)
      ensures ok ==> Valid(Inserted(base, rs, unit), unit)
      ensures rs == [] ==> minkey == old(minkey) && maxkey == old(maxkey)
      ensures rs != [] ==> minkey == (if rs[0].start < old(minkey) then rs[0].start else old(minkey))
      ensures rs != [] ==>
                maxkey == (if old(maxkey) < rs[|rs| - 1].finish then rs[|rs| - 1].finish else old(maxkey))
      ensures forall i, j :: 0 <= i < j < |asked| ==> asked[i] != asked[j]
      ensures ok ==> forall p :: p in asked <==> exists k: nat :: InRanges(rs, k) && PtrOf(old(m), k) == p
    {
      hide Settled, CellsGood, Unlinking, Collecting, SameSets, PtrOf;
      FitsSorted(rs);
      ok := true;
      SettledOk(m, h, base);
      GoodLater(h, brk, last, unit);
      asked := [];
      if rs == [] {
        InsertedNothing(m, h, base, unit);
      } else {
        if Fits(rs) {
          BoundsGrow(base, rs, unit, minkey, maxkey);
        }
        minkey := if rs[0].start < minkey then rs[0].start else minkey;
        maxkey := if maxkey < rs[|rs| - 1].finish then rs[|rs| - 1].finish else maxkey;
        if maxkey >= 0x1_0000_0000 {
          return false, [];
        }
        asked := InsertRanges(rs, unit, base);
      }
    }

    method InsertRanges(rs: seq<Range>, unit: nat, ghost base: nat -> set<nat>) returns (asked: seq<Ptr>)
      requires Settled(m, h, base) && CellsOk(h) && CellsGood(h, brk, unit) && nullLink == None
      requires unit < 0x1_0000_0000 && SortedRanges(rs)
      modifies this`m, this`h, this`brk, this`nullLink, this`values
      ensures Settled(m, h, Inserted(base, rs, unit)) && CellsOk(h) && CellsGood(h, brk, unit) && nullLink == None
      ensures forall i, j :: 0 <= i < j < |asked| ==> asked[i] != asked[j]
      ensures forall p :: p in asked <==> exists k: nat :: InRanges(rs, k) && PtrOf(old(m), k) == p
    {
      hide Settled, CellsGood, Unlinking, Collecting, SameSets, PtrOf, CellsOk;
      ghost var m0, h0 := m, h;
      values := [];
      SettledOk(m, h, base);
      SettledCollecting(m, h, base);
      ghost var g := CollectRanges(rs, StartHist(m));
      CollectedUnlinking(m0, h0, base, C(), g, unit);
      SameSetsGood(h0, h, brk, unit);
      CollectedValues(C(), g);
      AskedOnce(m0, C(), g, rs, if nullLink.Some? then [NULL] + values else values);
      asked, g := UnlinkAll(unit, g, base);
      UnlinkedSettled(C(), g, base, unit, rs);
      SettledOk(m, h, Inserted(base, rs, unit));
    }

    /** Store the new values, list by list: first the slots without value, then the values in the
        order they were met. */
    method UnlinkAll(unit: nat, ghost g: Hist, ghost base: nat -> set<nat>) returns (asked: seq<Ptr>, ghost g': Hist)
      requires Unlinking(C(), g, base, unit) && unit < 0x1_0000_0000
      requires CellsOk(h) && CellsGood(h, brk, unit)
      requires forall i, j :: 0 <= i < j < |values| ==> values[i] != values[j]
      requires nullLink.Some? <==> NULL in g.chains
      requires forall p :: p in g.chains && p != NULL <==> p in values
      modifies this`m, this`h, this`brk, this`nullLink
      ensures Unlinking(C(), g', base, unit) && CellsOk(h) && CellsGood(h, brk, unit)
      ensures g'.chains == map[] && g'.D == g.D
      ensures asked == if old(nullLink).Some? then [NULL] + values else values
    {
      hide CellsGood, Unlinking, CellsOk, ToUnlink;
      g' := g;
      asked := [];
      if nullLink.Some? {
        asked, g' := Unlink(NULL, unit, asked, g', base);
      }
      ghost var first := asked;
      UnlinkingOk(C(), g', base, unit);
      ToUnlinkAll(C(), g, g', base, unit, brk, values);
      var j := 0;
      while j < |values|
        invariant j <= |values| && ToUnlink(C(), g', g.D, base, unit, brk, values, j) && asked == first + values[..j]
      {
        assert values[..j + 1] == values[..j] + [values[j]];
        asked, g' := UnlinkNth(unit, j, asked, g', g.D, base);
        j := j + 1;
      }
      assert values[..|values|] == values;
      ToUnlinkNone(C(), g', g.D, base, unit, brk, values);
    }

    method UnlinkNth(unit: nat, j: nat, asked: seq<Ptr>, ghost g: Hist, ghost D: iset<nat>, ghost base: nat -> set<nat>)
      returns (asked': seq<Ptr>, ghost g': Hist)
      requires j < |values| && ToUnlink(C(), g, D, base, unit, brk, values, j) && unit < 0x1_0000_0000
      modifies this`m, this`h, this`brk, this`nullLink
      ensures ToUnlink(C(), g', D, base, unit, brk, values, j + 1) && asked' == asked + [values[j]]
    {
      hide CellsGood, Unlinking, CellsOk, Unthreaded;
      DropHead(values, j);
      UnthreadedFacts(g, values[j]);
      asked', g' := Unlink(values[j], unit, asked, g, base);
      UnlinkingOk(C(), g', base, unit);
    }
  }

  /** The lists of the values from number j on are still there. */
  ghost predicate ToUnlink(c: Coll, g: Hist, D: iset<nat>, base: nat -> set<nat>, unit: nat, brk: Ptr, values: seq<Ptr>, j: nat) {
    && j <= |values| && (forall i, k :: 0 <= i < k < |values| ==> values[i] != values[k])
    && Unlinking(c, g, base, unit) && CellsOk(c.h) && CellsGood(c.h, brk, unit)
    && g.D == D && forall p :: p in g.chains <==> p in values[j..]
  }

  lemma ToUnlinkAll(c: Coll, g: Hist, g': Hist, base: nat -> set<nat>, unit: nat, brk: Ptr, values: seq<Ptr>)
    requires Unlinking(c, g', base, unit) && CellsOk(c.h) && CellsGood(c.h, brk, unit)
    requires forall i, j :: 0 <= i < j < |values| ==> values[i] != values[j]
    requires forall p :: p in g.chains && p != NULL <==> p in values
    requires g' == if NULL in g.chains then Unthreaded(g, NULL) else g
    ensures ToUnlink(c, g', g.D, base, unit, brk, values, 0)
  {
    hide CellsGood, Unlinking, CellsOk;
    assert values[0..] == values;
  }

  lemma ToUnlinkNone(c: Coll, g: Hist, D: iset<nat>, base: nat -> set<nat>, unit: nat, brk: Ptr, values: seq<Ptr>)
    requires ToUnlink(c, g, D, base, unit, brk, values, |values|)
    ensures Unlinking(c, g, base, unit) && CellsOk(c.h) && CellsGood(c.h, brk, unit) && g.chains == map[] && g.D == D
  {
    hide CellsGood, Unlinking, CellsOk;
  }

  lemma UnthreadedFacts(g: Hist, p: Ptr)
    requires p in g.chains
    ensures Unthreaded(g, p).D == g.D && forall q :: q in Unthreaded(g, p).chains <==> q in g.chains && q != p
  {
  }

  lemma DropHead(s: seq<Ptr>, j: nat)
    requires j < |s| && forall i, k :: 0 <= i < k < |s| ==> s[i] != s[k]
    ensures s[j] in s[j..] && forall p :: p in s[j + 1..] <==> p in s[j..] && p != s[j]
  {
    assert s[j..] == [s[j]] + s[j + 1..];
    assert s[j] !in s[j + 1..];
  }

  lemma UnlinkingOk(c: Coll, g: Hist, base: nat -> set<nat>, unit: nat)
    requires Unlinking(c, g, base, unit)
    ensures CellsOk(c.h)
  {
  }

  lemma SettledOk(m: Mem, h: Cells, base: nat -> set<nat>)
    requires Settled(m, h, base)
    ensures CellsOk(h) && Shape(m)
  {
  }

  lemma GoodLater(h: Cells, brk: Ptr, last: nat, unit: nat)
    requires CellsOk(h) && CellsGood(h, brk, last) && last <= unit
    ensures CellsGood(h, brk, unit)
  {
  }

  lemma SameSetsGood(h: Cells, h': Cells, brk: Ptr, unit: nat)
    requires CellsOk(h) && CellsGood(h, brk, unit) && SameSets(h, h')
    ensures CellsOk(h') && CellsGood(h', brk, unit)
  {
    hide WF, Members;
  }

  lemma InsertedNothing(m: Mem, h: Cells, base: nat -> set<nat>, unit: nat)
    requires Settled(m, h, base)
    ensures Settled(m, h, Inserted(base, [], unit))
    ensures forall k: nat :: Inserted(base, [], unit)(k) == base(k)
  {
    hide WF, Members, Shape;
    assert forall k: nat :: base(k) + {} == base(k);
  }

  lemma BoundsGrow(base: nat -> set<nat>, rs: seq<Range>, unit: nat, minkey: nat, maxkey: nat)
    requires rs != [] && SortedRanges(rs)
    requires maxkey < 0x1_0000_0000 && forall k: nat :: base(k) != {} ==> minkey <= k <= maxkey
    ensures var lo := if rs[0].start < minkey then rs[0].start else minkey;
            var hi := if maxkey < rs[|rs| - 1].finish then rs[|rs| - 1].finish else maxkey;
            hi < 0x1_0000_0000 && forall k: nat :: Inserted(base, rs, unit)(k) != {} ==> lo <= k <= hi
  {
    var lo := if rs[0].start < minkey then rs[0].start else minkey;
    var hi := if maxkey < rs[|rs| - 1].finish then rs[|rs| - 1].finish else maxkey;
    forall k: nat | Inserted(base, rs, unit)(k) != {} ensures lo <= k <= hi {
      if InRanges(rs, k) {
        var i :| 0 <= i < |rs| && rs[i].start <= k <= rs[i].finish;
        assert rs[0].start <= rs[i].start && rs[i].finish <= rs[|rs| - 1].finish;
      }
    }
  }

  lemma CollectedValues(c: Coll, g: Hist)
    requires Collecting(c, g)
    ensures forall i, j :: 0 <= i < j < |c.values| ==> c.values[i] != c.values[j]
    ensures c.nullLink.Some? <==> NULL in g.chains
    ensures forall p :: p in g.chains && p != NULL <==> p in c.values
  {
    hide Content, Counts, Leaves, Shape;
    if NULL in g.chains {
      assert ChainOk(c.m, g.was, g.chains[NULL], NULL);
    }
  }

  lemma ChainedKey(c: Coll, g: Hist, p: Ptr) returns (k: nat)
    requires Collecting(c, g) && p in g.chains
    ensures k in g.D && g.orig(k) == p
  {
    hide Values, Heads, Counts, Shape;
    assert ChainOk(c.m, g.was, g.chains[p], p);
    var s := g.chains[p][0];
    k := Lo(s);
    assert Leaf(c.m, s) && InSlot(s, k);
  }

  lemma KeyChained(c: Coll, g: Hist, k: nat)
    requires Collecting(c, g) && k in g.D && k < 0x1_0000_0000
    ensures g.orig(k) in g.chains
  {
    hide Values, Heads, Counts, ChainOk;
    var s := CoveredTop(c.m, k);
    assert g.orig(k) == PtrAt(c.m, g.was, s);
  }

  /** A value is asked for exactly when some key of the ranges held it. */
  lemma ValueMet(m0: Mem, c: Coll, g: Hist, rs: seq<Range>, p: Ptr)
    requires Shape(m0) && Collecting(c, g) && g.orig == StartHist(m0).orig && SortedRanges(rs)
    requires forall k: nat :: k in g.D <==> InRanges(rs, k)
    ensures p in g.chains <==> exists k: nat :: InRanges(rs, k) && PtrOf(m0, k) == p
  {
    hide Collecting, PtrOf, Shape;
    if p in g.chains {
      var k := ChainedKey(c, g, p);
      assert InRanges(rs, k) && PtrOf(m0, k) == p;
    }
    if k: nat :| InRanges(rs, k) && PtrOf(m0, k) == p {
      KeyChained(c, g, k);
    }
  }

  lemma AskedOnce(m0: Mem, c: Coll, g: Hist, rs: seq<Range>, asked: seq<Ptr>)
    requires Shape(m0) && Collecting(c, g) && g.orig == StartHist(m0).orig && SortedRanges(rs)
    requires forall k: nat :: k in g.D <==> InRanges(rs, k)
    requires asked == if c.nullLink.Some? then [NULL] + c.values else c.values
    ensures forall i, j :: 0 <= i < j < |asked| ==> asked[i] != asked[j]
    ensures forall p :: p in asked <==> exists k: nat :: InRanges(rs, k) && PtrOf(m0, k) == p
  {
    hide Collecting, PtrOf, Shape;
    CollectedValues(c, g);
    assert NULL !in c.values;
    forall p ensures p in asked <==> exists k: nat :: InRanges(rs, k) && PtrOf(m0, k) == p {
      ValueMet(m0, c, g, rs, p);
    }
  }

  /** All sets are non-empty, hold no unit above the current one, and live below the break. */
  ghost predicate CellsGood(h: Cells, brk: Ptr, unit: nat)
    requires CellsOk(h)
  {
    brk > 0 && forall p :: p in h ==> p < brk && UnitsOf(h, p) != {} && forall x :: x in UnitsOf(h, p) ==> x <= unit
  }

  method WithUnit(v: Vecs, unit: nat) returns (w: Vecs)
    requires WF(v) && unit < 0x1_0000_0000 && forall x :: x in Members(v) ==> x <= unit
    ensures WF(w) && Members(w) == Members(v) + {unit}
  {
    hide WF, Members;
    var s := new S.SetU32.Copy(v);
    s.Append(unit);
    w := s.V();
  }

  lemma ListFacts(c: Coll, g: Hist, base: nat -> set<nat>, unit: nat, p: Ptr)
    requires Unlinking(c, g, base, unit) && p in g.chains
    ensures CellsOk(c.h) && (p == NULL || (p in c.h && c.h[p].refs > 0))
    ensures var ch := g.chains[p];
            && |ch| > 0 && (forall i :: 0 <= i < |ch| ==> ch[i] in c.m)
            && (forall i, j :: 0 <= i < j < |ch| ==> ch[i] != ch[j])
            && (forall i :: 0 <= i < |ch| - 1 ==> c.m[ch[i]] == Link(ch[i + 1])) && c.m[ch[|ch| - 1]] == Null
            && (if p == NULL then c.nullLink == Some(ch[0]) else c.h[p].link == Some(ch[0]))
  {
    hide WF, Members, Shape, Progress;
    assert ChainOk(c.m, g.was, g.chains[p], p);
  }

  lemma UpdatedInHeap(h: Cells, h': Cells, p: Ptr, upd: Ptr, unit: nat)
    requires CellsOk(h) && CellsOk(h') && (p == NULL || p in h) && TrieUnlink.Updated(h, h', p, upd, 1, unit)
    ensures upd in h' && h'[upd].refs == 1
  {
  }

  /** Counting the remaining slots of the list. */
  lemma Used(h: Cells, h': Cells, p: Ptr, upd: Ptr, unit: nat, n: nat, brk: Ptr)
    requires CellsOk(h) && CellsOk(h') && (p == NULL || p in h) && TrieUnlink.Updated(h, h', p, upd, 1, unit) && n > 0
    requires upd in h' && h'[upd].refs == 1 && CellsGood(h', brk, unit)
    ensures var h'' := h'[upd := h'[upd].(refs := h'[upd].refs + (n - 1))];
            CellsOk(h'') && CellsGood(h'', brk, unit) && TrieUnlink.Updated(h, h'', p, upd, n, unit)
  {
    hide WF, Members;
    var h'' := h'[upd := h'[upd].(refs := h'[upd].refs + (n - 1))];
    assert h''.Keys == h'.Keys;
    assert forall q :: q in h' ==> h''[q].set_ == h'[q].set_;
  }

  lemma TopPresent(c: Coll, g: Hist, c': Coll, g': Hist, key: nat, n: nat, block: nat)
    requires Collecting(c, g) && Taken(c, g, c', g', key, n) && block < 65536
    ensures Collecting(c', g') && Slot(0, block) in c'.m && g'.D == g.D + KeyRange(key, n)
  {
    hide Content, Chains, Values, Heads, Counts, Leaves;
    assert Slot(0, block) in c.m;
    TakenFacts(c, g, c', g', key, n, Slot(0, block));
  }

  lemma TakenSets(c: Coll, g: Hist, c': Coll, g': Hist, key: nat, n: nat)
    requires Taken(c, g, c', g', key, n)
    ensures Collecting(c', g') && g'.orig == g.orig && SameSets(c.h, c'.h)
    ensures forall k: nat :: k in g'.D <==> k in g.D || key <= k < key + n
  {
    hide Collecting;
    assert forall k: nat :: k in KeyRange(key, n) <==> InKeys(key, n, k);
  }

  lemma RangesStep(rs: seq<Range>, i: nat)
    requires i < |rs|
    ensures forall k: nat :: InRanges(rs[..i + 1], k) <==> InRanges(rs[..i], k) || rs[i].start <= k <= rs[i].finish
  {
    forall k: nat ensures InRanges(rs[..i + 1], k) <==> InRanges(rs[..i], k) || rs[i].start <= k <= rs[i].finish {
      var a, b := rs[..i], rs[..i + 1];
      if InRanges(b, k) {
        var j :| 0 <= j < |b| && b[j].start <= k <= b[j].finish;
        if j < i {
          assert a[j] == b[j];
        }
      }
      if InRanges(a, k) {
        var j :| 0 <= j < |a| && a[j].start <= k <= a[j].finish;
        assert b[j] == a[j];
      }
      if rs[i].start <= k <= rs[i].finish {
        assert b[i] == rs[i];
      }
    }
  }

  lemma RangeStillToDo(rs: seq<Range>, i: nat, D: iset<nat>)
    requires SortedRanges(rs) && i < |rs| && rs[i].start <= rs[i].finish
    requires forall k: nat :: k in D <==> InRanges(rs[..i], k)
    ensures forall k :: InKeys(rs[i].start, rs[i].finish - rs[i].start + 1, k) ==> k !in D
  {
    var a := rs[..i];
    assert forall j :: 0 <= j < |a| ==> a[j] == rs[j] && a[j].finish < rs[i].start;
  }

  lemma TakenFacts(c: Coll, g: Hist, c': Coll, g': Hist, key: nat, n: nat, s: Slot)
    requires Taken(c, g, c', g', key, n) && s in c.m
    ensures Collecting(c', g') && g'.D == g.D + KeyRange(key, n) && g'.orig == g.orig && SameSets(c.h, c'.h)
    ensures s in c'.m && (c.m[s] == Forest ==> c'.m[s] == Forest)
  {
    hide Collecting;
  }

  lemma ChildPresent(c: Coll, g: Hist, s: Slot, k: nat)
    requires Collecting(c, g) && s in c.m && c.m[s] == Forest && InSlot(s, k)
    ensures s.level < 4 && SlotFor(s.level + 1, k) in c.m && InSlot(SlotFor(s.level + 1, k), k)
  {
    hide Content, Chains, Values, Heads, Counts, Leaves;
    ChildFor(s, k);
    var t := SlotFor(s.level + 1, k);
    assert Child(s, t.index - s.index * 16) in c.m;
  }

  lemma StillToDo(D: iset<nat>, D1: iset<nat>, key: nat, size: nat, n: nat, len: nat)
    requires D1 == D + KeyRange(key, n) && n + len <= size
    requires forall k :: InKeys(key, size, k) ==> k !in D
    ensures forall k :: InKeys(key + n, len, k) ==> k !in D1
  {
    forall k | InKeys(key + n, len, k) ensures k !in D1 {
      assert InKeys(key, size, k);
      assert !InKeys(key, n, k);
    }
  }
}
