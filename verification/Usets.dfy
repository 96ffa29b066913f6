/** Hash-consed, reference-counted owner sets.

    The C++ heap is modelled explicitly: a pointer is a number, `heap` maps the addresses that
    are allocated to what they hold, and freeing an object removes its address.  Every use of a
    pointer therefore has to be shown to hit an allocated object. */
module Usets {
  import opened Blocks
  import opened SetVectors
  import opened Pointers
  import S = SetU32

  datatype SetOp = Or | And

  /** A set expression with its reference count, its id once promoted, and the scratch pointer
      the ownership algorithms use. */
  datatype Uset = Uset(op: SetOp, set_: Vecs, refs: nat, id: Option<nat>, link: Ptr)

  type Heap = map<Ptr, Uset>

  predicate SameExp(a: Uset, b: Uset) {
    a.op == b.op && a.set_ == b.set_
  }

  ghost predicate HeapOk(h: Heap) {
    NULL !in h && forall p :: p in h ==> WF(h[p].set_)
  }

  ghost predicate Unique(h: Heap, table: set<Ptr>)
    requires table <= h.Keys
  {
    forall p, q :: p in table && q in table && SameExp(h[p], h[q]) ==> p == q
  }

  /** Ids are 32-bit numbers, and the largest one says that there is no id. */
  const WORD: nat := 0x1_0000_0000
  const INVALID_USET: nat := 0xFFFF_FFFF

  function AsId(n: nat): Option<nat> {
    if n == INVALID_USET then None else Some(n)
  }

  /** The id of p after these promotions, in this order: the one its last promotion gave it. */
  function LastId(first: nat, given: seq<Ptr>, p: Ptr): Option<nat> {
    if given == [] then None
    else
      var n := |given| - 1;
      if given[n] == p then AsId((first + n) % WORD) else LastId(first, given[..n], p)
  }

  lemma {:induction false} NotGiven(first: nat, given: seq<Ptr>, p: Ptr)
    requires p !in given
    ensures LastId(first, given, p) == None
  {
    if given != [] {
      NotGiven(first, given[..|given| - 1], p);
    }
  }

  /** As long as ids have not run out, every promoted set has the id of one of its promotions. */
  lemma {:induction false} GivenHasId(first: nat, given: seq<Ptr>, p: Ptr)
    requires first + |given| <= INVALID_USET
    ensures match LastId(first, given, p)
            case None => p !in given
            case Some(id) => first <= id < first + |given| && given[id - first] == p
  {
    if given != [] {
      var n := |given| - 1;
      GivenHasId(first, given[..n], p);
      assert given == given[..n] + [given[n]];
    }
  }

  /** Sets have the ids of their promotions, and were promoted only while they had none. */
  ghost predicate IdsGiven(h: Heap, table: set<Ptr>, first: nat, given: seq<Ptr>) {
    && (forall j :: 0 <= j < |given| ==> given[j] in table && LastId(first, given[..j], given[j]) == None)
    && (forall p :: p in h ==> h[p].id == LastId(first, given, p))
  }

  /** Every set in the table is allocated and stored once, and ids are those of promotions. */
  ghost predicate Good(h: Heap, table: set<Ptr>, first: nat, given: seq<Ptr>, brk: Ptr) {
    && HeapOk(h) && table <= h.Keys && Unique(h, table) && IdsGiven(h, table, first, given)
    && brk > 0 && forall p :: p in h ==> p < brk
  }

  lemma GoodFacts(h: Heap, t: set<Ptr>, first: nat, given: seq<Ptr>, brk: Ptr)
    requires Good(h, t, first, given, brk)
    ensures t <= h.Keys && brk !in h && HeapOk(h)
    ensures forall p :: p in given ==> p in t
    ensures forall p :: p in h && h[p].id.Some? ==> p in given
  {
    forall p | p in h && h[p].id.Some? ensures p in given {
      if p !in given {
        NotGiven(first, given, p);
      }
    }
  }

  /* What each elementary change of the heap keeps. */

  lemma GoodCell(h: Heap, t: set<Ptr>, first: nat, given: seq<Ptr>, brk: Ptr, p: Ptr, c: Uset)
    requires Good(h, t, first, given, brk) && p in h && SameExp(c, h[p]) && c.id == h[p].id
    ensures Good(h[p := c], t, first, given, brk)
  {
    hide WF, LastId;
    var h' := h[p := c];
    assert h'.Keys == h.Keys;
  }

  lemma GoodAlloc(h: Heap, t: set<Ptr>, first: nat, given: seq<Ptr>, brk: Ptr, c: Uset)
    requires Good(h, t, first, given, brk) && WF(c.set_) && c.id == None
    ensures Good(h[brk := c], t, first, given, brk + 1)
  {
    hide WF, LastId;
    NotGiven(first, given, brk);
  }

  lemma GoodFree(h: Heap, t: set<Ptr>, first: nat, given: seq<Ptr>, brk: Ptr, p: Ptr)
    requires Good(h, t, first, given, brk) && p in h && p !in given
    ensures Good(h - {p}, t - {p}, first, given, brk)
  {
    hide WF, LastId;
  }

  lemma GoodEnter(h: Heap, t: set<Ptr>, first: nat, given: seq<Ptr>, brk: Ptr, p: Ptr)
    requires Good(h, t, first, given, brk) && p in h
    requires forall q :: q in t ==> !SameExp(h[q], h[p])
    ensures Good(h, t + {p}, first, given, brk)
  {
    hide WF, LastId;
  }

  lemma LastIdSnoc(first: nat, given: seq<Ptr>, p: Ptr, q: Ptr)
    ensures LastId(first, given + [p], q) == if p == q then AsId((first + |given|) % WORD) else LastId(first, given, q)
  {
    assert (given + [p])[..|given|] == given;
  }

  lemma GoodPromote(h: Heap, t: set<Ptr>, first: nat, given: seq<Ptr>, brk: Ptr, p: Ptr)
    requires Good(h, t, first, given, brk) && p in t && p in h && h[p].id == None
    ensures Good(Promoted(h, first, given, p), t, first, given + [p], brk)
  {
    hide WF, LastId;
    var h', given' := Promoted(h, first, given, p), given + [p];
    assert h'.Keys == h.Keys;
    forall q | q in h' ensures h'[q].id == LastId(first, given', q) {
      LastIdSnoc(first, given, p, q);
    }
    forall j | 0 <= j < |given'| ensures given'[j] in t && LastId(first, given'[..j], given'[j]) == None {
      assert given'[..j] == given[..j];
      assert j == |given| ==> given[..j] == given;
    }
  }

  /** The next id for p, and one more reference. */
  function Promoted(h: Heap, first: nat, given: seq<Ptr>, p: Ptr): Heap
    requires p in h
  {
    h[p := h[p].(id := AsId((first + |given|) % WORD), refs := h[p].refs + 1)]
  }

  /** The units of a set; nobody owns what a null pointer describes. */
  ghost function Units(h: Heap, p: Ptr): set<nat>
    requires HeapOk(h) && (p == NULL || p in h)
  {
    if p == NULL then {} else Members(h[p].set_)
  }

  /** What `add` promises: one more reference to a set that was or now is in the table. */
  ghost predicate Referenced(h: Heap, h': Heap, r: Ptr) {
    && r in h' && h'.Keys == h.Keys + {r}
    && (forall q :: q in h && q != r ==> h'[q] == h[q])
    && (if r in h then h'[r] == h[r].(refs := h[r].refs + 1)
        else h'[r].op == Or && h'[r].refs == 1 && h'[r].id == None && h'[r].link == NULL)
  }

  class Usets {
    var heap: Heap
    var table: set<Ptr>
    const firstId: nat
    var nextId: nat
    var promoted: nat
    var brk: Ptr
    /** The sets in the order of their promotions. */
    ghost var given: seq<Ptr>

    ghost predicate Valid()
      reads this
    {
      Good(heap, table, firstId, given, brk) && firstId < WORD && promoted == |given| && nextId == (firstId + |given|) % WORD
    }

    constructor (first: nat)
      requires first < WORD
      ensures Valid() && heap == map[] && table == {} && firstId == first && given == []
    {
      heap, table, firstId, nextId, promoted, brk, given := map[], {}, first, first, 0, 1, [];
    }

    /** An empty table over a heap that holds sets which are not in any table yet. */
    constructor Over(first: nat, heap: Heap, brk: Ptr)
      requires first < WORD && HeapOk(heap) && brk > 0 && forall p :: p in heap ==> p < brk && heap[p].id == None
      ensures Valid() && this.heap == heap && table == {} && firstId == first && given == []
    {
      this.heap, table, firstId, nextId, promoted, this.brk, given := heap, {}, first, first, 0, brk, [];
    }

    /** Put an entry into the table, or find the entry that already holds the same set and give
        it the references of the newcomer. */
    method Add(entry: Ptr) returns (p: Ptr)
      requires Valid() && entry in heap && entry !in table && heap[entry].id == None
      modifies this
      ensures Valid() && given == old(given) && brk == old(brk)
      ensures p in table && p in heap && SameExp(heap[p], old(heap)[entry])
      ensures p == entry ==> heap == old(heap) && table == old(table) + {entry}
      ensures p != entry ==> && p in old(table) && p in old(heap) && table == old(table)
                             && heap == old(heap)[p := old(heap)[p].(refs := old(heap)[p].refs + old(heap)[entry].refs)]
    {
      hide Good;
      GoodFacts(heap, table, firstId, given, brk);
      if q :| q in table && SameExp(heap[q], heap[entry]) {
        p := q;
        var c := heap[p].(refs := heap[p].refs + heap[entry].refs);
        GoodCell(heap, table, firstId, given, brk, p, c);
        heap := heap[p := c];
      } else {
        GoodEnter(heap, table, firstId, given, brk, entry);
        table := table + {entry};
        p := entry;
      }
    }

    /** Allocate an entry for a set that is referenced once and add it; a duplicate is freed. */
    method AddSet(set_: Vecs) returns (p: Ptr)
      requires Valid() && WF(set_)
      modifies this
      ensures Valid() && given == old(given)
      ensures Referenced(old(heap), heap, p) && table == old(table) + {p}
      ensures heap[p].op == Or && heap[p].set_ == set_
      ensures p in old(heap) ==> p in old(table)
    {
      hide Good, HeapOk;
      ghost var before, t := heap, table;
      GoodFacts(heap, table, firstId, given, brk);
      var entry := brk;
      var c := Uset(Or, set_, 1, None, NULL);
      GoodAlloc(heap, table, firstId, given, brk, c);
      heap, brk := heap[entry := c], brk + 1;
      p := Add(entry);
      if p != entry {
        GoodFree(heap, table, firstId, given, brk, entry);
        heap := heap - {entry};
        assert heap == before[p := before[p].(refs := before[p].refs + 1)];
        assert table - {entry} == table;
      }
    }

    method Use(p: Ptr, n: nat := 1)
      requires Valid() && p in heap
      modifies this`heap
      ensures Valid() && heap == old(heap)[p := old(heap)[p].(refs := old(heap)[p].refs + n)]
    {
      hide Good;
      var c := heap[p].(refs := heap[p].refs + n);
      GoodCell(heap, table, firstId, given, brk, p, c);
      heap := heap[p := c];
    }

    /** Give up one reference and free the set with its last one. */
    method Drop(p: Ptr)
      requires Valid() && p in table && p in heap && heap[p].refs != 0
      requires heap[p].refs == 1 ==> p !in given
      modifies this`heap, this`table
      ensures Valid()
      ensures old(heap)[p].refs > 1 ==>
                heap == old(heap)[p := old(heap)[p].(refs := old(heap)[p].refs - 1)] && table == old(table)
      ensures old(heap)[p].refs == 1 ==> heap == old(heap) - {p} && table == old(table) - {p}
    {
      hide Good;
      var c := heap[p].(refs := heap[p].refs - 1);
      GoodCell(heap, table, firstId, given, brk, p, c);
      heap := heap[p := c];
      if heap[p].refs == 0 {
        GoodFree(heap, table, firstId, given, brk, p);
        table := table - {p};
        heap := heap - {p};
        assert heap == old(heap) - {p};
      }
    }

    /** Give up one reference to a set that is not in the table. */
    method Release(p: Ptr)
      requires Valid() && p in heap && p !in table && heap[p].refs > 0 && heap[p].id == None
      modifies this`heap
      ensures Valid()
      ensures old(heap)[p].refs > 1 ==> heap == old(heap)[p := old(heap)[p].(refs := old(heap)[p].refs - 1)]
      ensures old(heap)[p].refs == 1 ==> heap == old(heap) - {p}
    {
      hide Good;
      GoodFacts(heap, table, firstId, given, brk);
      var c := heap[p].(refs := heap[p].refs - 1);
      GoodCell(heap, table, firstId, given, brk, p, c);
      heap := heap[p := c];
      if c.refs == 0 {
        GoodFree(heap, table, firstId, given, brk, p);
        heap := heap - {p};
        assert heap == old(heap) - {p} && table - {p} == table;
      }
    }

    method SetLink(p: Ptr, q: Ptr)
      requires Valid() && p in heap
      modifies this`heap
      ensures Valid() && heap == old(heap)[p := old(heap)[p].(link := q)]
    {
      hide Good;
      var c := heap[p].(link := q);
      GoodCell(heap, table, firstId, given, brk, p, c);
      heap := heap[p := c];
    }

    /** Give a set that has none the next id, and one more reference.  After 2^32 - 1 the ids start
        again at 0, and a set that is given 2^32 - 1 counts as one that has none. */
    method Promote(p: Ptr)
      requires Valid() && p in table && p in heap
      modifies this`heap, this`nextId, this`promoted, this`given
      ensures Valid()
      ensures old(heap)[p].id.Some? ==> heap == old(heap) && given == old(given)
      ensures old(heap)[p].id == None ==>
                && heap == old(heap)[p := old(heap)[p].(id := AsId(old(nextId)), refs := old(heap)[p].refs + 1)]
                && given == old(given) + [p]
      ensures p in given
    {
      hide Good;
      GoodFacts(heap, table, firstId, given, brk);
      if heap[p].id == None {
        GoodPromote(heap, table, firstId, given, brk, p);
        heap := heap[p := heap[p].(id := AsId(nextId), refs := heap[p].refs + 1)];
        nextId := (nextId + 1) % WORD;
        promoted := promoted + 1;
        given := given + [p];
      }
    }

    /** The union of two sets, hash-consed, with one more reference. */
    method Merge(left: Ptr, right: Ptr) returns (p: Ptr)
      requires Valid() && left in table && right in table && left in heap && right in heap
      requires heap[left].op == Or && heap[right].op == Or
      modifies this
      ensures Valid() && given == old(given)
      ensures Referenced(old(heap), heap, p) && table == old(table) + {p} && heap[p].op == Or
      ensures p in old(heap) ==> p in old(table)
      ensures Members(heap[p].set_) == Members(old(heap)[left].set_) + Members(old(heap)[right].set_)
    {
      hide WF, Members, Good;
      GoodFacts(heap, table, firstId, given, brk);
      var set_ := new S.SetU32();
      var res := set_.Merge(heap[left].set_, heap[right].set_, left == right);
      match res {
        case IsLeft =>
          Use(left);
          p := left;
        case IsRight =>
          Use(right);
          p := right;
        case IsResult =>
          p := AddSet(set_.V());
      }
    }
  }

  /** The table holds each set of units once: hash-consing by the vectors is hash-consing by
      what the sets denote. */
  lemma EachSetOnce(u: Usets, p: Ptr, q: Ptr)
    requires u.Valid() && p in u.table && q in u.table
    requires u.heap[p].op == u.heap[q].op && Members(u.heap[p].set_) == Members(u.heap[q].set_)
    ensures p == q
  {
    Canonicity(u.heap[p].set_, u.heap[q].set_);
  }
}
