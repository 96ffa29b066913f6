/** Turning the trie into a plain table of facts: reference counts move from leaves to slots.

    A traversal visits leaves that tile the keys; each fills its stretch of the table with its value
    and raises the count of that value by the number of slots, less the one for the leaf. */
module Flattening {
  import opened SetVectors
  import opened Pointers
  import opened Usets
  import opened TrieShape
  import opened TrieRead
  import opened RefCounts
  import opened Collection
  import T = TrieArray

  /* ------------------------------------------------------------ filling a stretch of the table */

  function Filled(fs: seq<Ptr>, key: nat, n: nat, v: Ptr): (r: seq<Ptr>)
    requires key + n <= |fs|
    ensures |r| == |fs| && forall i :: 0 <= i < |fs| ==> r[i] == if key <= i < key + n then v else fs[i]
  {
    if n == 0 then fs else Filled(fs, key, n - 1, v)[key + n - 1 := v]
  }

  lemma {:induction false} FilledCount(fs: seq<Ptr>, key: nat, n: nat, v: Ptr, p: Ptr)
    requires key + n <= |fs| && p != NULL && forall i :: key <= i < key + n ==> fs[i] == NULL
    ensures Count(Filled(fs, key, n, v), p) == Count(fs, p) + if v == p then n else 0
  {
    if n > 0 {
      FilledCount(fs, key, n - 1, v, p);
      CountUpdate(Filled(fs, key, n - 1, v), key + n - 1, v, p);
    }
  }

  lemma {:induction false} NullCount(fs: seq<Ptr>, p: Ptr)
    requires p != NULL && forall i :: 0 <= i < |fs| ==> fs[i] == NULL
    ensures Count(fs, p) == 0
  {
    CountMember(fs, p);
  }

  method Fill(facts: array<Ptr>, key: nat, size: nat, v: Ptr)
    requires key + size <= facts.Length
    modifies facts
    ensures facts[..] == Filled(old(facts[..]), key, size, v)
  {
    var j := 0;
    while j < size
      invariant j <= size && facts[..] == Filled(old(facts[..]), key, j, v)
    {
      ghost var before := facts[..];
      facts[key + j] := v;
      assert facts[..] == before[key + j := v];
      j := j + 1;
    }
  }

  /* ------------------------------------------------------------ leaves still to be counted */

  ghost predicate Before(vs: seq<Visit>, i: nat, s: Slot) {
    exists j :: 0 <= j < i && j < |vs| && vs[j].slot == s
  }

  ghost function Rest(m: Mem, vs: seq<Visit>, i: nat, p: Ptr): set<Slot> {
    set s | s in Holders(m, p) && !Before(vs, i, s)
  }

  lemma RestNext(m: Mem, vs: seq<Visit>, key: nat, size: nat, i: nat, p: Ptr)
    requires Tiles(m, vs, key, size, key + size) && i < |vs|
    ensures |Rest(m, vs, i, p)| == |Rest(m, vs, i + 1, p)| + if m[vs[i].slot] == Val(p) then 1 else 0
  {
    var s := vs[i].slot;
    forall j | 0 <= j < i ensures vs[j].slot != s {
      VisitedOnce(m, vs, key, size, j, i);
    }
    assert !Before(vs, i, s) && Before(vs, i + 1, s);
    var a, b := Rest(m, vs, i, p), Rest(m, vs, i + 1, p);
    forall r | r != s ensures Before(vs, i, r) <==> Before(vs, i + 1, r) {
      if Before(vs, i + 1, r) {
        var j :| 0 <= j < i + 1 && j < |vs| && vs[j].slot == r;
      }
      if Before(vs, i, r) {
        var j :| 0 <= j < i && j < |vs| && vs[j].slot == r;
      }
    }
    if m[s] == Val(p) {
      assert a == b + {s};
    } else {
      assert a == b;
    }
  }

  /** A set is counted once per slot filled so far and once per leaf still to come. */
  ghost predicate Counting(m: Mem, vs: seq<Visit>, i: nat, h: Heap, fs: seq<Ptr>) {
    && NULL !in h && (forall s :: s in m && m[s].Val? ==> m[s].p in h)
    && forall p :: p in h ==> 0 < h[p].refs == Count(fs, p) + |Rest(m, vs, i, p)|
  }

  function LeafPtr(m: Mem, s: Slot): Ptr
    requires s in m
  {
    if m[s].Val? then m[s].p else NULL
  }

  /** The effect of one visit on the counts. */
  function Counted(h: Heap, p: Ptr, size: nat): Heap
    requires (p != NULL ==> p in h) && size > 0
  {
    if p == NULL then h else h[p := h[p].(refs := h[p].refs + (size - 1))]
  }

  lemma CountingNext(m: Mem, vs: seq<Visit>, key: nat, size: nat, i: nat, h: Heap, fs: seq<Ptr>)
    requires Tiles(m, vs, key, size, key + size) && i < |vs| && Counting(m, vs, i, h, fs) && vs[i].slot in m
    requires vs[i].key + vs[i].size <= |fs| && vs[i].size > 0
    requires forall k :: vs[i].key <= k < vs[i].key + vs[i].size ==> fs[k] == NULL
    ensures var p := LeafPtr(m, vs[i].slot);
            (p != NULL ==> p in h)
            && Counting(m, vs, i + 1, Counted(h, p, vs[i].size), Filled(fs, vs[i].key, vs[i].size, p))
  {
    hide Rest, Tiles;
    var v := vs[i];
    var p := LeafPtr(m, v.slot);
    assert m[v.slot].Val? ==> m[v.slot].p in h;
    var h' := Counted(h, p, v.size);
    forall q | q in h' ensures 0 < h'[q].refs == Count(Filled(fs, v.key, v.size, p), q) + |Rest(m, vs, i + 1, q)| {
      RestNext(m, vs, key, size, i, q);
      FilledCount(fs, v.key, v.size, p, q);
      assert m[v.slot] == Val(q) <==> p == q;
    }
  }

  /** The table holds the pointers of the keys lo..hi and nothing else. */
  ghost predicate Holds(m: Mem, fs: seq<Ptr>, lo: nat, hi: nat) {
    forall k :: 0 <= k < |fs| ==> fs[k] == if lo <= k < hi then T.PtrOf(m, k) else NULL
  }

  lemma HoldsNext(m: Mem, fs: seq<Ptr>, lo: nat, v: Visit)
    requires Shape(m) && Holds(m, fs, lo, v.key) && lo <= v.key && v.key + v.size <= |fs|
    requires Leaf(m, v.slot) && Lo(v.slot) <= v.key && v.key + v.size <= Lo(v.slot) + BlockSize(v.slot.level)
    ensures Holds(m, Filled(fs, v.key, v.size, LeafPtr(m, v.slot)), lo, v.key + v.size)
  {
    hide Shape, T.PtrOf;
    forall k | v.key <= k < v.key + v.size ensures T.PtrOf(m, k) == LeafPtr(m, v.slot) {
      T.PtrOfLeaf(m, v.slot, k);
    }
  }

  /* ------------------------------------------------------------ the traversal */

  ghost predicate SameButRefs(h: Heap, h': Heap) {
    h'.Keys == h.Keys && forall p :: p in h ==> h'[p] == h[p].(refs := h'[p].refs)
  }

  lemma CollectedBounds(m: Mem, h: Heap, t: set<Ptr>, base: nat -> set<nat>, minkey: nat, maxkey: nat, s: Slot)
    requires Collected(m, h, t, base) && s in m && m[s].Val? && Shape(m)
    requires forall k: nat :: base(k) != {} ==> minkey <= k <= maxkey
    ensures InSlot(s, Lo(s)) && minkey <= Lo(s) <= maxkey
  {
    hide WF, Members, Fresh;
    assert SlotOk(s) && Leaf(m, s);
    assert InSlot(s, Lo(s));
  }

  lemma CountingStart(m: Mem, vs: seq<Visit>, h: Heap, t: set<Ptr>, base: nat -> set<nat>, fs: seq<Ptr>)
    requires Collected(m, h, t, base) && forall i :: 0 <= i < |fs| ==> fs[i] == NULL
    ensures Counting(m, vs, 0, h, fs)
  {
    hide WF, Members, Fresh, NonEmpty, LeafUnits;
    forall p | p in h ensures Count(fs, p) == 0 && Rest(m, vs, 0, p) == Holders(m, p) {
      NullCount(fs, p);
      assert forall s :: !Before(vs, 0, s);
    }
  }

  /** All leaves with a value have been visited. */
  lemma RestNone(m: Mem, vs: seq<Visit>, h: Heap, t: set<Ptr>, base: nat -> set<nat>, minkey: nat, maxkey: nat, p: Ptr)
    requires Shape(m) && Collected(m, h, t, base)
    requires forall k: nat :: base(k) != {} ==> minkey <= k <= maxkey
    requires minkey <= maxkey ==> Tiles(m, vs, minkey, maxkey - minkey + 1, maxkey + 1)
    ensures Rest(m, vs, |vs|, p) == {}
  {
    hide Collected, Tiles, Shape;
    forall s | s in Holders(m, p) ensures Before(vs, |vs|, s) {
      CollectedBounds(m, h, t, base, minkey, maxkey, s);
      var j := LeafVisited(m, vs, minkey, maxkey - minkey + 1, maxkey + 1, s, Lo(s));
    }
  }

  /** The table is complete: each fact holds the units of its key, and counts are exact. */
  ghost predicate Flat(h: Heap, t: set<Ptr>, fs: seq<Ptr>, base: nat -> set<nat>) {
    && Forgotten(h, t, fs, [], []) && (forall k :: 0 <= k < |fs| ==> Owners(h, fs)[k] == base(k))
    && forall k: nat :: base(k) != {} ==> k < |fs|
  }

  lemma FlatRefs(m: Mem, vs: seq<Visit>, h: Heap, t: set<Ptr>, base: nat -> set<nat>, minkey: nat, maxkey: nat,
                 h': Heap, fs: seq<Ptr>)
    requires Shape(m) && Collected(m, h, t, base) && SameButRefs(h, h') && Counting(m, vs, |vs|, h', fs)
    requires forall k: nat :: base(k) != {} ==> minkey <= k <= maxkey
    requires minkey <= maxkey ==> Tiles(m, vs, minkey, maxkey - minkey + 1, maxkey + 1)
    ensures Refs(h', fs, [], [])
  {
    hide Tiles, Shape, Rest, HeapOk, LeafUnits, NonEmpty;
    forall p | p in h' ensures 0 < h'[p].refs == Count(fs, p) {
      RestNone(m, vs, h, t, base, minkey, maxkey, p);
    }
    assert forall p :: Count([], p) == 0;
  }

  lemma FlatSets(m: Mem, h: Heap, t: set<Ptr>, base: nat -> set<nat>, h': Heap)
    requires Collected(m, h, t, base) && SameButRefs(h, h')
    ensures HeapOk(h') && h'.Keys == t && AllOr(h')
    ensures forall p :: p in h' ==> h'[p].link == NULL
  {
    hide WF, Members, LeafUnits, LeavesIn;
  }

  lemma KeyUnits(m: Mem, h: Heap, t: set<Ptr>, base: nat -> set<nat>, h': Heap, k: nat)
    requires Shape(m) && Collected(m, h, t, base) && SameButRefs(h, h') && HeapOk(h') && k < 0x1_0000_0000
    ensures var p := T.PtrOf(m, k); (p == NULL || p in h') && Units(h', p) == base(k)
  {
    hide WF, Members, NonEmpty, Fresh, Shape, T.PtrOf;
    var s := T.CoveredTop(m, k);
    T.PtrOfLeaf(m, s, k);
    assert LeafPtr(m, s) == NULL || m[s].p in h;
  }

  lemma FlatOwners(m: Mem, h: Heap, t: set<Ptr>, base: nat -> set<nat>, minkey: nat, h': Heap, fs: seq<Ptr>)
    requires Shape(m) && Collected(m, h, t, base) && SameButRefs(h, h') && HeapOk(h')
    requires |fs| <= 0x1_0000_0000 && Holds(m, fs, minkey, |fs|)
    requires forall k: nat :: base(k) != {} ==> minkey <= k
    ensures Slots(h', fs) && forall k :: 0 <= k < |fs| ==> Owners(h', fs)[k] == base(k)
  {
    hide Collected, SameButRefs, HeapOk, Shape, Units, T.PtrOf;
    forall k | 0 <= k < |fs| ensures (fs[k] == NULL || fs[k] in h') && Units(h', fs[k]) == base(k) {
      if minkey <= k {
        KeyUnits(m, h, t, base, h', k);
      } else {
        NullUnits(h');
      }
    }
  }

  lemma NullUnits(h: Heap)
    requires HeapOk(h)
    ensures Units(h, NULL) == {}
  {
  }

  lemma FlatDone(m: Mem, vs: seq<Visit>, h: Heap, t: set<Ptr>, base: nat -> set<nat>, minkey: nat, maxkey: nat,
                 h': Heap, fs: seq<Ptr>)
    requires Shape(m) && Collected(m, h, t, base) && SameButRefs(h, h') && Counting(m, vs, |vs|, h', fs)
    requires forall k: nat :: base(k) != {} ==> minkey <= k <= maxkey
    requires minkey <= maxkey ==> Tiles(m, vs, minkey, maxkey - minkey + 1, maxkey + 1)
    requires |fs| == (if minkey <= maxkey then maxkey + 1 else 0) && maxkey < 0x1_0000_0000
    requires Holds(m, fs, minkey, |fs|)
    ensures Flat(h', t, fs, base)
  {
    hide Tiles, Shape, Collected, SameButRefs, Counting, Holds, HeapOk, Refs, AllOr, Owners, Slots;
    FlatRefs(m, vs, h, t, base, minkey, maxkey, h', fs);
    FlatSets(m, h, t, base, h');
    FlatOwners(m, h, t, base, minkey, h', fs);
  }

  /** Fill in the facts of one leaf and count them. */
  method VisitLeaf(u: Usets, facts: array<Ptr>, m: Mem, v: Visit)
    requires u.Valid() && v.slot in m && (m[v.slot].Val? ==> m[v.slot].p in u.heap && m[v.slot].p != NULL)
    requires v.key + v.size <= facts.Length && v.size > 0
    modifies u`heap, facts
    ensures u.Valid() && (LeafPtr(m, v.slot) != NULL ==> LeafPtr(m, v.slot) in old(u.heap))
    ensures u.heap == Counted(old(u.heap), LeafPtr(m, v.slot), v.size)
    ensures facts[..] == Filled(old(facts[..]), v.key, v.size, LeafPtr(m, v.slot))
  {
    hide Good;
    var p := LeafPtr(m, v.slot);
    Fill(facts, v.key, v.size, p);
    if p != NULL {
      u.Use(p, v.size - 1);
    }
  }

  lemma VisitFacts(m: Mem, vs: seq<Visit>, lo: nat, size: nat, i: nat, h: Heap, fs: seq<Ptr>, n: nat)
    requires Tiles(m, vs, lo, size, lo + size) && i < |vs| && Counting(m, vs, i, h, fs) && |fs| == lo + size
    requires Holds(m, fs, lo, n) && n == vs[i].key
    ensures var v := vs[i];
            && Leaf(m, v.slot) && Lo(v.slot) <= v.key && v.key + v.size <= Lo(v.slot) + BlockSize(v.slot.level)
            && v.size > 0 && lo <= v.key && v.key + v.size <= |fs|
            && (m[v.slot].Val? ==> m[v.slot].p in h && m[v.slot].p != NULL)
            && (forall k :: v.key <= k < v.key + v.size ==> fs[k] == NULL)
            && (i + 1 < |vs| ==> vs[i + 1].key == v.key + v.size) && (i + 1 == |vs| ==> v.key + v.size == lo + size)
  {
    hide Rest, T.PtrOf;
    if i > 0 {
      KeysGrow(m, vs, lo, size, lo + size, 0, i);
    }
    if i + 1 < |vs| {
      KeysGrow(m, vs, lo, size, lo + size, i, |vs| - 1);
    }
  }

  /** The table of all facts up to the largest owned one. */
  method Flatten(u: Usets, a: T.TrieArray, ghost base: nat -> set<nat>) returns (facts: array<Ptr>)
    requires u.Valid() && Shape(a.m) && Collected(a.m, u.heap, u.table, base) && a.maxkey < 0x1_0000_0000
    requires forall k: nat :: base(k) != {} ==> a.minkey <= k <= a.maxkey
    modifies u`heap
    ensures u.Valid() && fresh(facts) && Flat(u.heap, u.table, facts[..], base)
    ensures facts.Length == if a.maxkey < a.minkey then 0 else a.maxkey + 1
  {
    hide Tiles, Shape, Collected, SameButRefs, Counting, Holds, HeapOk, Flat, Good;
    ghost var h0 := u.heap;
    var vs := [];
    SameRefs(h0);
    if a.maxkey < a.minkey {
      facts := new Ptr[0];
      CountingStart(a.m, vs, h0, u.table, base, facts[..]);
      HoldsNone(a.m, facts[..], a.minkey, 0);
    } else {
      facts := new Ptr[a.maxkey + 1](i => NULL);
      vs := Traverse(a.m, a.minkey, a.maxkey - a.minkey + 1);
      CountingStart(a.m, vs, h0, u.table, base, facts[..]);
      HoldsNone(a.m, facts[..], a.minkey, a.minkey);
      FillAll(u, facts, a.m, vs, a.minkey, a.maxkey - a.minkey + 1);
    }
    FlatDone(a.m, vs, h0, u.table, base, a.minkey, a.maxkey, u.heap, facts[..]);
  }

  method FillAll(u: Usets, facts: array<Ptr>, m: Mem, vs: seq<Visit>, lo: nat, size: nat)
    requires u.Valid() && Shape(m) && size > 0 && Tiles(m, vs, lo, size, lo + size) && facts.Length == lo + size
    requires Counting(m, vs, 0, u.heap, facts[..]) && Holds(m, facts[..], lo, lo)
    modifies u`heap, facts
    ensures u.Valid() && SameButRefs(old(u.heap), u.heap)
    ensures Counting(m, vs, |vs|, u.heap, facts[..]) && Holds(m, facts[..], lo, lo + size)
  {
    hide Tiles, Shape, Counting, Holds, Good, SameButRefs;
    ghost var h0, n: nat := u.heap, lo;
    FirstVisit(m, vs, lo, size);
    SameRefs(h0);
    var i := 0;
    while i < |vs|
      invariant i <= |vs| && u.Valid() && SameButRefs(h0, u.heap)
      invariant Counting(m, vs, i, u.heap, facts[..]) && Holds(m, facts[..], lo, n)
      invariant n == if i < |vs| then vs[i].key else lo + size
    {
      ghost var h, fs := u.heap, facts[..];
      VisitFacts(m, vs, lo, size, i, h, fs, n);
      CountingNext(m, vs, lo, size, i, h, fs);
      HoldsNext(m, fs, lo, vs[i]);
      VisitLeaf(u, facts, m, vs[i]);
      CountedRefs(h0, h, LeafPtr(m, vs[i].slot), vs[i].size);
      n := vs[i].key + vs[i].size;
      i := i + 1;
    }
  }

  lemma SameRefs(h: Heap)
    ensures SameButRefs(h, h)
  {
  }

  lemma CountedRefs(h0: Heap, h: Heap, p: Ptr, size: nat)
    requires SameButRefs(h0, h) && (p != NULL ==> p in h) && size > 0
    ensures SameButRefs(h0, Counted(h, p, size))
  {
  }

  lemma HoldsNone(m: Mem, fs: seq<Ptr>, lo: nat, hi: nat)
    requires hi <= lo && forall i :: 0 <= i < |fs| ==> fs[i] == NULL
    ensures Holds(m, fs, lo, hi)
  {
  }

  lemma FirstVisit(m: Mem, vs: seq<Visit>, lo: nat, size: nat)
    requires Tiles(m, vs, lo, size, lo + size) && size > 0
    ensures |vs| > 0 && vs[0].key == lo
  {
  }
}
