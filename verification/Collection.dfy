/** Moving the sets of the trie into the hash-consed table: every leaf ends up pointing to the one
    stored copy of its set, and duplicates are freed.

    The first visit of a set stores it, or finds its stored copy and hands over all references at
    once; either way the set remembers the stored copy in its link.  Every visited leaf then moves
    to the stored copy and gives up its own reference, so that a duplicate goes with its last leaf.
    In between, a stored set is counted by all leaves that link to it, whether they have moved yet
    or not. */
module Collection {
  import opened SetVectors
  import opened Pointers
  import opened Usets
  import opened TrieShape
  import opened TrieRead
  import T = TrieArray
  import C = TrieCollect
  import TrieUnlink

  /** The leaves whose set is stored, or will be found stored, as p. */
  ghost function LinkedTo(m: Mem, h: Heap, p: Ptr): set<Slot> {
    set s | s in m && m[s].Val? && m[s].p in h && h[m[s].p].link == p
  }

  ghost predicate LeavesIn(m: Mem, h: Heap) {
    && (forall s :: Leaf(m, s) ==> !m[s].Link?)
    && (forall s :: s in m && m[s].Val? ==> m[s].p in h)
  }

  /** A link leads to the stored copy of the same set; stored sets link to themselves. */
  ghost predicate Canonical(h: Heap, t: set<Ptr>) {
    && NULL !in h
    && (forall p :: p in h ==> (p in t <==> h[p].link == p))
    && (forall p :: p in h && h[p].link != NULL ==> h[p].link in t && h[p].link in h && SameExp(h[h[p].link], h[p]))
  }

  /** A set outside of the table is counted by its own leaves, a stored one by all leaves that
      link to it. */
  ghost predicate LeafCounts(m: Mem, h: Heap, t: set<Ptr>) {
    && (forall p :: p in h && p !in t ==> 0 < h[p].refs == |Holders(m, p)|)
    && (forall p :: p in h && p in t ==> 0 < h[p].refs == |LinkedTo(m, h, p)|)
  }

  /** The units of each leaf, which collecting never changes. */
  ghost predicate LeafUnits(m: Mem, h: Heap, base: nat -> set<nat>)
    requires HeapOk(h) && LeavesIn(m, h)
  {
    forall s, k :: Leaf(m, s) && InSlot(s, k) ==> Units(h, if m[s].Val? then m[s].p else NULL) == base(k)
  }

  ghost predicate Fresh(h: Heap) {
    forall p :: p in h ==> h[p].op == Or && h[p].id == None
  }

  ghost predicate NonEmpty(h: Heap)
    requires HeapOk(h)
  {
    forall p :: p in h ==> Units(h, p) != {}
  }

  ghost predicate Moving(m: Mem, h: Heap, t: set<Ptr>, base: nat -> set<nat>) {
    && HeapOk(h) && LeavesIn(m, h) && Canonical(h, t) && LeafCounts(m, h, t) && LeafUnits(m, h, base)
    && Fresh(h) && NonEmpty(h)
  }

  /* ------------------------------------------------------------ a set is seen for the first time */

  function SetLinkTo(h: Heap, e: Ptr, p: Ptr): Heap
    requires e in h
  {
    h[e := h[e].(link := p)]
  }

  /** Counts and links may change; what the sets say does not. */
  ghost predicate SameExps(h: Heap, h': Heap) {
    h'.Keys == h.Keys && forall p :: p in h ==> SameExp(h'[p], h[p]) && h'[p].id == h[p].id
  }

  lemma RestKept(m: Mem, h: Heap, h': Heap, base: nat -> set<nat>)
    requires HeapOk(h) && LeavesIn(m, h) && LeafUnits(m, h, base) && Fresh(h) && NonEmpty(h) && SameExps(h, h')
    ensures HeapOk(h') && LeavesIn(m, h') && LeafUnits(m, h', base) && Fresh(h') && NonEmpty(h')
  {
    hide WF, Members;
  }

  /** It is new: it becomes the stored copy. */
  lemma StoreCounts(m: Mem, h: Heap, t: set<Ptr>, e: Ptr)
    requires LeavesIn(m, h) && Canonical(h, t) && LeafCounts(m, h, t) && e in h && h[e].link == NULL
    ensures LeafCounts(m, SetLinkTo(h, e, e), t + {e})
  {
    var h' := SetLinkTo(h, e, e);
    assert e !in t;
    assert LinkedTo(m, h', e) == Holders(m, e);
    forall p | p in h && p in t ensures LinkedTo(m, h', p) == LinkedTo(m, h, p) {
    }
  }

  lemma Store(m: Mem, h: Heap, t: set<Ptr>, e: Ptr, base: nat -> set<nat>)
    requires Moving(m, h, t, base) && e in h && h[e].link == NULL
    ensures Moving(m, SetLinkTo(h, e, e), t + {e}, base)
  {
    hide LeafCounts, HeapOk, LeavesIn, LeafUnits, Fresh, NonEmpty, Canonical;
    StoreCounts(m, h, t, e);
    RestKept(m, h, SetLinkTo(h, e, e), base);
    StoreCanonical(h, t, e);
  }

  lemma StoreCanonical(h: Heap, t: set<Ptr>, e: Ptr)
    requires Canonical(h, t) && e in h && h[e].link == NULL
    ensures Canonical(SetLinkTo(h, e, e), t + {e})
  {
  }

  function Joined(h: Heap, e: Ptr, p: Ptr): Heap
    requires e in h && p in h
  {
    SetLinkTo(h[p := h[p].(refs := h[p].refs + h[e].refs)], e, p)
  }

  lemma JoinLinks(m: Mem, h: Heap, t: set<Ptr>, e: Ptr, p: Ptr, q: Ptr)
    requires LeavesIn(m, h) && Canonical(h, t) && e in h && h[e].link == NULL && p in t && p in h && q in t && q in h
    ensures LinkedTo(m, Joined(h, e, p), q) == LinkedTo(m, h, q) + if q == p then Holders(m, e) else {}
    ensures LinkedTo(m, h, p) !! Holders(m, e)
  {
    var h' := Joined(h, e, p);
    assert e != p && q != NULL;
    forall s ensures s in LinkedTo(m, h', q) <==> s in LinkedTo(m, h, q) || (q == p && s in Holders(m, e)) {
      if s in m && m[s].Val? && m[s].p != e {
        assert h'[m[s].p].link == h[m[s].p].link;
      }
    }
  }

  /** The same set is stored already as p: p takes over all references of the newcomer. */
  lemma JoinCounts(m: Mem, h: Heap, t: set<Ptr>, e: Ptr, p: Ptr)
    requires LeavesIn(m, h) && Canonical(h, t) && LeafCounts(m, h, t)
    requires e in h && h[e].link == NULL && p in t && p in h
    ensures e != p && LeafCounts(m, Joined(h, e, p), t)
  {
    hide LinkedTo, Holders, LeavesIn;
    assert e !in t;
    forall q | q in h && q in t
      ensures |LinkedTo(m, Joined(h, e, p), q)| == |LinkedTo(m, h, q)| + if q == p then h[e].refs else 0
    {
      JoinLinks(m, h, t, e, p, q);
    }
  }

  lemma Join(m: Mem, h: Heap, t: set<Ptr>, e: Ptr, p: Ptr, base: nat -> set<nat>)
    requires Moving(m, h, t, base) && e in h && h[e].link == NULL && p in t && p in h && SameExp(h[p], h[e])
    ensures e != p && Moving(m, Joined(h, e, p), t, base)
  {
    hide LeafCounts, HeapOk, LeavesIn, LeafUnits, Fresh, NonEmpty, Canonical;
    JoinCounts(m, h, t, e, p);
    RestKept(m, h, Joined(h, e, p), base);
    JoinCanonical(h, t, e, p);
  }

  lemma JoinCanonical(h: Heap, t: set<Ptr>, e: Ptr, p: Ptr)
    requires Canonical(h, t) && e in h && h[e].link == NULL && p in t && p in h && SameExp(h[p], h[e])
    ensures Canonical(Joined(h, e, p), t)
  {
  }

  /* ------------------------------------------------------------ a leaf moves to the stored copy */

  function DropEntry(h: Heap, e: Ptr): Heap
    requires e in h && h[e].refs > 0
  {
    if h[e].refs == 1 then h - {e} else h[e := h[e].(refs := h[e].refs - 1)]
  }

  lemma HeldCount(m: Mem, h: Heap, t: set<Ptr>, s: Slot, e: Ptr)
    requires LeafCounts(m, h, t) && s in m && m[s] == Val(e) && e in h && e !in t
    ensures h[e].refs > 0
    ensures h[e].refs == 1 ==> forall r :: r in m && m[r] == Val(e) ==> r == s
  {
    if h[e].refs == 1 {
      forall r | r in m && m[r] == Val(e) ensures r == s {
        if r != s {
          assert {r, s} <= Holders(m, e);
          TwoOfOne(Holders(m, e), r, s);
        }
      }
    }
  }

  lemma TwoOfOne(a: set<Slot>, r: Slot, s: Slot)
    requires r in a && s in a && r != s
    ensures |a| > 1
  {
    assert a == {r, s} + (a - {r, s});
  }

  lemma MoveLinks(m: Mem, h: Heap, t: set<Ptr>, s: Slot, e: Ptr, p: Ptr, q: Ptr)
    requires LeavesIn(m, h) && Canonical(h, t) && q in t
    requires Leaf(m, s) && m[s] == Val(e) && e in h && e !in t && h[e].link == p && p != NULL && h[e].refs > 0
    requires h[e].refs == 1 ==> forall r :: r in m && m[r] == Val(e) ==> r == s
    ensures LinkedTo(m[s := Val(p)], DropEntry(h, e), q) == LinkedTo(m, h, q)
  {
    var m', h' := m[s := Val(p)], DropEntry(h, e);
    assert p in t && p in h && h[p].link == p && p in h';
    forall r ensures r in LinkedTo(m', h', q) <==> r in LinkedTo(m, h, q) {
      if r in m && r != s && m[r].Val? {
        assert m[r].p in h' && h'[m[r].p].link == h[m[r].p].link;
      }
    }
  }

  lemma MoveCounts(m: Mem, h: Heap, t: set<Ptr>, s: Slot, e: Ptr, p: Ptr)
    requires LeavesIn(m, h) && Canonical(h, t) && LeafCounts(m, h, t)
    requires Leaf(m, s) && m[s] == Val(e) && e in h && e !in t && h[e].link == p && p != NULL
    ensures h[e].refs > 0 && LeafCounts(m[s := Val(p)], DropEntry(h, e), t)
  {
    hide LinkedTo, LeavesIn;
    HeldCount(m, h, t, s, e);
    var m', h' := m[s := Val(p)], DropEntry(h, e);
    assert p in t;
    forall q | q in h' && q !in t ensures 0 < h'[q].refs == |Holders(m', q)| {
      HoldersUpdate(m, s, Val(p), q);
    }
    forall q | q in h' && q in t ensures LinkedTo(m', h', q) == LinkedTo(m, h, q) {
      MoveLinks(m, h, t, s, e, p, q);
    }
  }

  lemma MoveHeap(m: Mem, h: Heap, t: set<Ptr>, s: Slot, e: Ptr, p: Ptr)
    requires HeapOk(h) && LeavesIn(m, h) && Canonical(h, t) && Fresh(h) && NonEmpty(h)
    requires Leaf(m, s) && m[s] == Val(e) && e in h && e !in t && h[e].link == p && p != NULL && h[e].refs > 0
    requires h[e].refs == 1 ==> forall r :: r in m && m[r] == Val(e) ==> r == s
    ensures var m', h' := m[s := Val(p)], DropEntry(h, e);
            HeapOk(h') && LeavesIn(m', h') && Canonical(h', t) && Fresh(h') && NonEmpty(h')
  {
    hide WF, Members;
    assert p in t && p in h && p != e;
  }

  lemma MoveUnits(m: Mem, h: Heap, t: set<Ptr>, s: Slot, e: Ptr, p: Ptr, base: nat -> set<nat>)
    requires HeapOk(h) && LeavesIn(m, h) && LeafUnits(m, h, base) && Leaf(m, s) && m[s] == Val(e)
    requires e in h && p in h && p != e && SameExp(h[p], h[e]) && h[e].refs > 0
    requires HeapOk(DropEntry(h, e)) && LeavesIn(m[s := Val(p)], DropEntry(h, e))
    ensures LeafUnits(m[s := Val(p)], DropEntry(h, e), base)
  {
    hide WF, Members;
    var m', h' := m[s := Val(p)], DropEntry(h, e);
    forall r, k | Leaf(m', r) && InSlot(r, k)
      ensures Units(h', if m'[r].Val? then m'[r].p else NULL) == base(k)
    {
      assert Leaf(m, r);
    }
  }

  lemma Move(m: Mem, h: Heap, t: set<Ptr>, s: Slot, e: Ptr, p: Ptr, base: nat -> set<nat>)
    requires Moving(m, h, t, base) && Leaf(m, s) && m[s] == Val(e) && e in h && h[e].link == p && p != NULL && p != e
    ensures h[e].refs > 0 && Moving(m[s := Val(p)], DropEntry(h, e), t, base)
  {
    hide HeapOk, LeavesIn, LeafUnits, Fresh, NonEmpty, LeafCounts;
    assert e !in t;
    HeldCount(m, h, t, s, e);
    MoveCounts(m, h, t, s, e, p);
    MoveHeap(m, h, t, s, e, p);
    MoveUnits(m, h, t, s, e, p, base);
  }

  /* ------------------------------------------------------------ the traversal */

  lemma EntryFacts(m: Mem, h: Heap, t: set<Ptr>, base: nat -> set<nat>, s: Slot)
    requires Moving(m, h, t, base) && s in m && m[s].Val?
    ensures m[s].p in h && h[m[s].p].id == None && (m[s].p in t <==> h[m[s].p].link == m[s].p)
    ensures h[m[s].p].link != NULL ==> h[m[s].p].link in t
    ensures h[m[s].p].link == NULL ==> m[s].p !in t
  {
    hide HeapOk, LeafUnits, NonEmpty, LeafCounts;
  }

  /** Look up or store a set that has not been met before, and remember the stored copy. */
  method StoreEntry(u: Usets, ghost m: Mem, e: Ptr, ghost base: nat -> set<nat>)
    requires u.Valid() && Moving(m, u.heap, u.table, base)
    requires e in u.heap && u.heap[e].link == NULL && u.heap[e].id == None && e !in u.table
    modifies u
    ensures u.Valid() && Moving(m, u.heap, u.table, base) && e in u.heap && u.heap[e].link != NULL
    ensures old(u.table) <= u.table && u.given == old(u.given)
  {
    hide Good, Moving, HeapOk;
    ghost var h, t := u.heap, u.table;
    var p := u.Add(e);
    if p == e {
      Store(m, h, t, e, base);
    } else {
      Join(m, h, t, e, p, base);
    }
    GoodFacts(u.heap, u.table, u.firstId, u.given, u.brk);
    assert p != NULL by {
      NullFree(u.heap);
    }
    u.SetLink(e, p);
  }

  lemma NullFree(h: Heap)
    requires HeapOk(h)
    ensures NULL !in h
  {
  }

  /** Let one leaf point to the stored copy of its set. */
  method MoveLeaf(u: Usets, m: Mem, s: Slot, ghost base: nat -> set<nat>) returns (m': Mem)
    requires u.Valid() && Moving(m, u.heap, u.table, base) && Leaf(m, s)
    modifies u
    ensures u.Valid() && Moving(m', u.heap, u.table, base) && m'.Keys == m.Keys
    ensures forall r :: r in m && r != s ==> m'[r] == m[r]
    ensures !m[s].Val? ==> m'[s] == m[s]
    ensures m[s].Val? ==> m'[s].Val? && m'[s].p in u.table
    ensures old(u.table) <= u.table && u.given == old(u.given)
  {
    hide Good, Moving;
    m' := m;
    if m[s].Val? {
      var e := m[s].p;
      EntryFacts(m, u.heap, u.table, base, s);
      if u.heap[e].link == NULL {
        StoreEntry(u, m, e, base);
      }
      EntryFacts(m, u.heap, u.table, base, s);
      var p := u.heap[e].link;
      if p != e {
        Move(m, u.heap, u.table, s, e, p, base);
        u.Release(e);
        m' := m[s := Val(p)];
      }
    }
  }

  /** The values of the trie as sets that are in no table yet. */
  function Entries(h: C.Cells): (r: Heap)
    ensures r.Keys == h.Keys
  {
    map p | p in h :: Uset(Or, h[p].set_, h[p].refs, None, NULL)
  }

  lemma StartMoving(m: Mem, h: C.Cells, base: nat -> set<nat>, brk: Ptr, last: nat)
    requires T.Settled(m, h, base) && T.CellsGood(h, brk, last)
    ensures Moving(m, Entries(h), {}, base)
  {
    hide WF, Members, Shape;
  }

  /** What one visit may change: a leaf with a value gets another value. */
  ghost predicate Revalued(m: Mem, m': Mem) {
    m'.Keys == m.Keys && forall s :: s in m ==> (m[s].Val? && m'[s].Val?) || m'[s] == m[s]
  }

  lemma RevaluedShape(m: Mem, m': Mem)
    requires Shape(m) && Revalued(m, m')
    ensures Shape(m')
  {
  }

  ghost predicate Stored(m: Mem, t: set<Ptr>, s: Slot) {
    s in m && m[s].Val? ==> m[s].p in t
  }

  /** A leaf with a value has owned keys, and these lie within the bounds. */
  lemma ValueInBounds(m: Mem, h: Heap, t: set<Ptr>, base: nat -> set<nat>, minkey: nat, maxkey: nat, s: Slot)
    requires Moving(m, h, t, base) && s in m && m[s].Val? && Shape(m)
    requires forall k: nat :: base(k) != {} ==> minkey <= k <= maxkey
    ensures InSlot(s, Lo(s)) && minkey <= Lo(s) <= maxkey
  {
    hide WF, Members, LeafCounts, Canonical, Fresh;
    assert SlotOk(s) && Leaf(m, s);
    assert InSlot(s, Lo(s));
  }

  /** Visiting every leaf of the bounds stores every value. */
  lemma AllStored(m0: Mem, vs: seq<Visit>, m: Mem, h: Heap, t: set<Ptr>, base: nat -> set<nat>, minkey: nat, maxkey: nat)
    requires Shape(m0) && Revalued(m0, m) && Moving(m, h, t, base)
    requires forall k: nat :: base(k) != {} ==> minkey <= k <= maxkey
    requires minkey <= maxkey ==> Tiles(m0, vs, minkey, maxkey - minkey + 1, maxkey + 1)
    requires forall j :: 0 <= j < |vs| ==> Stored(m, t, vs[j].slot)
    ensures forall s :: s in m ==> Stored(m, t, s)
  {
    hide Moving, Tiles, Shape;
    RevaluedShape(m0, m);
    forall s | s in m ensures Stored(m, t, s) {
      if m[s].Val? {
        ValueInBounds(m, h, t, base, minkey, maxkey, s);
        assert Leaf(m0, s);
        var j := LeafVisited(m0, vs, minkey, maxkey - minkey + 1, maxkey + 1, s, Lo(s));
        assert Stored(m, t, vs[j].slot);
      }
    }
  }

  /** Every leaf points into the table, which holds nothing else, and a set is referenced once
      per leaf. */
  ghost predicate Collected(m: Mem, h: Heap, t: set<Ptr>, base: nat -> set<nat>) {
    && HeapOk(h) && LeavesIn(m, h) && LeafUnits(m, h, base) && Fresh(h) && NonEmpty(h) && h.Keys == t
    && forall p :: p in h ==> 0 < h[p].refs == |Holders(m, p)| && h[p].link == NULL
  }

  lemma StoredCounts(m: Mem, h: Heap, t: set<Ptr>)
    requires t <= h.Keys && Canonical(h, t) && LeafCounts(m, h, t) && LeavesIn(m, h)
    requires forall s :: s in m ==> Stored(m, t, s)
    ensures h.Keys == t && forall p :: p in h ==> 0 < h[p].refs == |Holders(m, p)|
  {
    forall p | p in h ensures p in t && 0 < h[p].refs == |Holders(m, p)| {
      forall s | s in Holders(m, p) ensures p in t {
        assert Stored(m, t, s);
      }
      assert p !in t ==> Holders(m, p) == {};
      assert LinkedTo(m, h, p) == Holders(m, p) by {
        forall s | s in m && m[s].Val? ensures h[m[s].p].link == m[s].p {
          assert Stored(m, t, s);
        }
      }
    }
  }

  /** Only links differ. */
  ghost predicate Relinked(h: Heap, h': Heap) {
    h'.Keys == h.Keys && forall p :: p in h ==> h'[p] == h[p].(link := h'[p].link)
  }

  method ResetLinks(u: Usets)
    requires u.Valid()
    modifies u`heap
    ensures u.Valid() && Relinked(old(u.heap), u.heap)
    ensures forall p :: p in u.table ==> p in u.heap && u.heap[p].link == NULL
  {
    hide Good, Resetting;
    GoodFacts(u.heap, u.table, u.firstId, u.given, u.brk);
    var todo := u.table;
    ResetStart(u.heap, u.table);
    while todo != {}
      invariant u.Valid() && Resetting(old(u.heap), u.heap, u.table, todo)
      decreases todo
    {
      var p :| p in todo;
      ResetNext(old(u.heap), u.heap, u.table, todo, p);
      u.SetLink(p, NULL);
      todo := todo - {p};
    }
    ResetDone(old(u.heap), u.heap, u.table);
  }

  /** Only links have changed, and those of sets no longer to do are null. */
  ghost predicate Resetting(h0: Heap, h: Heap, t: set<Ptr>, todo: set<Ptr>) {
    Relinked(h0, h) && todo <= t <= h.Keys && forall p :: p in t && p !in todo ==> h[p].link == NULL
  }

  lemma ResetStart(h: Heap, t: set<Ptr>)
    requires t <= h.Keys
    ensures Resetting(h, h, t, t)
  {
  }

  lemma ResetNext(h0: Heap, h: Heap, t: set<Ptr>, todo: set<Ptr>, p: Ptr)
    requires Resetting(h0, h, t, todo) && p in todo
    ensures p in h && Resetting(h0, h[p := h[p].(link := NULL)], t, todo - {p})
  {
  }

  lemma ResetDone(h0: Heap, h: Heap, t: set<Ptr>)
    requires Resetting(h0, h, t, {})
    ensures Relinked(h0, h) && forall p :: p in t ==> p in h && h[p].link == NULL
  {
  }

  lemma CollectedUnlinked(m: Mem, h: Heap, h': Heap, t: set<Ptr>, base: nat -> set<nat>)
    requires Moving(m, h, t, base) && Relinked(h, h') && h.Keys == t
    requires forall p :: p in h ==> 0 < h[p].refs == |Holders(m, p)|
    requires forall p :: p in t ==> p in h' && h'[p].link == NULL
    ensures Collected(m, h', t, base)
  {
    hide HeapOk, LeavesIn, LeafUnits, Fresh, NonEmpty, LeafCounts, Canonical;
    RestKept(m, h, h', base);
  }

  /** Move the sets of the trie into a table; the trie afterwards points to the stored copies. */
  method CollectUsets(first: nat, a: T.TrieArray, ghost base: nat -> set<nat>, ghost last: nat) returns (u: Usets)
    requires a.Valid(base, last) && first < WORD
    modifies a`m, a`h
    ensures fresh(u) && u.Valid() && u.firstId == first && u.given == []
    ensures Shape(a.m) && Collected(a.m, u.heap, u.table, base)
  {
    hide T.Settled, T.CellsGood, Moving, Collected, Shape, Tiles, Good, LeafCounts, Canonical, LeavesIn, Stored, Revalued, HeapOk;
    T.SettledOk(a.m, a.h, base);
    StartMoving(a.m, a.h, base, a.brk, last);
    ghost var m0 := a.m;
    RevaluedSame(m0);
    EntriesOk(a.h, a.brk, last);
    u := new Usets.Over(first, Entries(a.h), a.brk);
    a.h := map[];
    var vs := [];
    if a.minkey <= a.maxkey {
      vs := Traverse(a.m, a.minkey, a.maxkey - a.minkey + 1);
    }
    var i := 0;
    while i < |vs|
      invariant i <= |vs| && u.Valid() && Moving(a.m, u.heap, u.table, base) && u.given == []
      invariant Revalued(m0, a.m)
      invariant forall j :: 0 <= j < i ==> Stored(a.m, u.table, vs[j].slot)
    {
      TilesLeaf(m0, a.m, vs, a.minkey, a.maxkey - a.minkey + 1, a.maxkey + 1, i);
      ghost var m1, t1 := a.m, u.table;
      var m := MoveLeaf(u, a.m, vs[i].slot, base);
      MoveStored(m0, vs, i, m1, t1, m, u.table);
      a.m := m;
      i := i + 1;
    }
    AllStored(m0, vs, a.m, u.heap, u.table, base, a.minkey, a.maxkey);
    MovingFacts(a.m, u.heap, u.table, base);
    GoodFacts(u.heap, u.table, u.firstId, u.given, u.brk);
    StoredCounts(a.m, u.heap, u.table);
    ghost var h1 := u.heap;
    ResetLinks(u);
    CollectedUnlinked(a.m, h1, u.heap, u.table, base);
    RevaluedShape(m0, a.m);
  }

  lemma MoveStored(m0: Mem, vs: seq<Visit>, i: nat, m: Mem, t: set<Ptr>, m': Mem, t': set<Ptr>)
    requires Revalued(m0, m) && i < |vs| && vs[i].slot in m && forall j :: 0 <= j < i ==> Stored(m, t, vs[j].slot)
    requires m'.Keys == m.Keys && t <= t'
    requires forall r :: r in m && r != vs[i].slot ==> m'[r] == m[r]
    requires var s := vs[i].slot; if m[s].Val? then m'[s].Val? && m'[s].p in t' else m'[s] == m[s]
    ensures Revalued(m0, m') && forall j :: 0 <= j < i + 1 ==> Stored(m', t', vs[j].slot)
  {
    forall j | 0 <= j < i + 1 ensures Stored(m', t', vs[j].slot) {
      if j < i && vs[j].slot != vs[i].slot {
        assert Stored(m, t, vs[j].slot);
      }
    }
  }

  lemma EntriesOk(h: C.Cells, brk: Ptr, last: nat)
    requires TrieUnlink.CellsOk(h) && T.CellsGood(h, brk, last)
    ensures var e := Entries(h); HeapOk(e) && brk > 0 && forall p :: p in e ==> p < brk && e[p].id == None
  {
  }

  lemma TilesLeaf(m0: Mem, m: Mem, vs: seq<Visit>, key: nat, size: nat, end: nat, i: nat)
    requires Tiles(m0, vs, key, size, end) && i < |vs| && Revalued(m0, m)
    ensures Leaf(m, vs[i].slot)
  {
  }

  lemma RevaluedSame(m: Mem)
    ensures Revalued(m, m)
  {
  }

  lemma MovingFacts(m: Mem, h: Heap, t: set<Ptr>, base: nat -> set<nat>)
    requires Moving(m, h, t, base)
    ensures HeapOk(h) && LeavesIn(m, h) && Canonical(h, t) && LeafCounts(m, h, t)
  {
  }
}
