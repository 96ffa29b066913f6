/** From units and their facts to slices. */
module Ownership {
  // Fill the trie, hash-cons the sets, flatten, complete over references, export, and evaluate.
  import opened Pointers
  import opened Usets
  import opened Reachability
  import opened RefCounts
  import opened Promotions
  import V = SetVectors
  import T = TrieArray
  import Collection
  import Flattening
  import Completion
  import SetReaders
  import Slicing
  import Facts

  /** A unit and the facts it owns directly. */
  datatype UnitFacts = UnitFacts(unit: nat, ids: seq<T.Range>)

  const MAX_UNIT: nat := 0xFFFF_FFFF
  const MAX_KEY: nat := 0xFFFF_FFFF

  /** What the iterator over units gives: 32-bit units, each with sorted ranges. */
  predicate Given(data: seq<UnitFacts>) {
    forall i :: 0 <= i < |data| ==> T.AscendingRanges(data[i].ids) && data[i].unit <= MAX_UNIT
  }

  /** What is checked on the way: units ascend, and keys fit in 32 bits. */
  predicate Passes(data: seq<UnitFacts>) {
    && (forall i :: 0 <= i < |data| ==> T.Fits(data[i].ids))
    && (forall i, j :: 0 <= i < j < |data| ==> data[i].unit <= data[j].unit)
  }

  predicate Ordered(data: seq<UnitFacts>) {
    Given(data) && Passes(data)
  }

  /** Unit v owns fact k directly. */
  ghost predicate Listed(data: seq<UnitFacts>, k: nat, v: nat) {
    exists i :: 0 <= i < |data| && data[i].unit == v && T.InRanges(data[i].ids, k)
  }

  /** Unit v owns fact k: it owns some fact directly from which references lead to k. */
  ghost predicate Owned(data: seq<UnitFacts>, g: Graph, k: nat, v: nat) {
    exists a :: Listed(data, a, v) && Reaches(g, a, k)
  }

  ghost function Raw(data: seq<UnitFacts>): nat -> set<nat> {
    if data == [] then T.Nobody()
    else
      var n := |data| - 1;
      T.Inserted(Raw(data[..n]), data[n].ids, data[n].unit)
  }

  /** What the trie accumulates is the set of units listed for each fact. */
  lemma {:induction false} RawIsListed(data: seq<UnitFacts>, k: nat, v: nat)
    ensures v in Raw(data)(k) <==> Listed(data, k, v)
  {
    if data != [] {
      var n := |data| - 1;
      var init := data[..n];
      RawIsListed(init, k, v);
      if Listed(data, k, v) {
        var i :| 0 <= i < |data| && data[i].unit == v && T.InRanges(data[i].ids, k);
        if i < n {
          assert init[i] == data[i];
        }
      }
      if Listed(init, k, v) {
        var i :| 0 <= i < |init| && init[i].unit == v && T.InRanges(init[i].ids, k);
        assert data[i] == init[i];
      }
    }
  }

  function LastUnit(data: seq<UnitFacts>): nat {
    if data == [] then 0 else data[|data| - 1].unit
  }

  /** The first id that is free for sets, as a 32-bit number. */
  function NumUnits(data: seq<UnitFacts>): nat {
    (LastUnit(data) + 1) % 0x1_0000_0000
  }

  /** The least start and the largest finish of what the units list. */
  function MinKey(data: seq<UnitFacts>): nat {
    if data == [] then 0xFFFF_FFFF_FFFF_FFFF
    else
      var n := |data| - 1;
      var ids, m := data[n].ids, MinKey(data[..n]);
      if ids != [] && ids[0].start < m then ids[0].start else m
  }

  function MaxKey(data: seq<UnitFacts>): nat {
    if data == [] then 0
    else
      var n := |data| - 1;
      var ids, m := data[n].ids, MaxKey(data[..n]);
      if ids != [] && m < ids[|ids| - 1].finish then ids[|ids| - 1].finish else m
  }

  /** How many slots the table of facts has. */
  function TableSize(data: seq<UnitFacts>): nat {
    if MaxKey(data) < MinKey(data) then 0 else MaxKey(data) + 1
  }

  lemma {:induction false} KeysBetween(data: seq<UnitFacts>, i: nat)
    requires i < |data| && data[i].ids != []
    ensures MinKey(data) <= data[i].ids[0].start && data[i].ids[|data[i].ids| - 1].finish <= MaxKey(data)
  {
    var n := |data| - 1;
    if i < n {
      KeysBetween(data[..n], i);
    }
  }

  lemma {:induction false} MaxKeyFrom(data: seq<UnitFacts>) returns (i: nat)
    requires MaxKey(data) > 0
    ensures i < |data| && data[i].ids != [] && data[i].ids[|data[i].ids| - 1].finish == MaxKey(data)
  {
    var n := |data| - 1;
    var ids := data[n].ids;
    if ids != [] && MaxKey(data[..n]) < ids[|ids| - 1].finish {
      i := n;
    } else {
      i := MaxKeyFrom(data[..n]);
    }
  }

  /** A table of facts has at most 2^32 slots. */
  lemma SizeFits(data: seq<UnitFacts>)
    requires Passes(data)
    ensures TableSize(data) <= WORD
  {
    if MaxKey(data) > 0 {
      var i := MaxKeyFrom(data);
      assert T.Fits(data[i].ids);
    }
  }

  /** When no range is empty, the table has 2^32 slots exactly when a unit lists the largest key. */
  lemma TableFull(data: seq<UnitFacts>)
    requires Ordered(data) && forall i, k :: 0 <= i < |data| && 0 <= k < |data[i].ids| ==> data[i].ids[k].start <= data[i].ids[k].finish
    ensures TableSize(data) == WORD <==> exists v :: Listed(data, MAX_KEY, v)
  {
    if TableSize(data) == WORD {
      var i := MaxKeyFrom(data);
      var ids := data[i].ids;
      assert ids[|ids| - 1].start <= WORD - 1 <= ids[|ids| - 1].finish;
      assert T.InRanges(ids, MAX_KEY);
      assert Listed(data, MAX_KEY, data[i].unit);
    }
    if v :| Listed(data, MAX_KEY, v) {
      var i :| 0 <= i < |data| && data[i].unit == v && T.InRanges(data[i].ids, MAX_KEY);
      ListedSize(data, i);
    }
  }

  lemma ListedSize(data: seq<UnitFacts>, i: nat)
    requires Ordered(data) && i < |data| && T.InRanges(data[i].ids, MAX_KEY)
    ensures TableSize(data) == WORD
  {
    var ids := data[i].ids;
    var k :| 0 <= k < |ids| && ids[k].start <= WORD - 1 <= ids[k].finish;
    KeysBetween(data, i);
    assert ids[k].finish <= ids[|ids| - 1].finish && ids[0].start <= ids[k].start;
    SizeFits(data);
  }

  /** Insert the ranges of all units; the answer is false where a check fails. */
  method FillOwnership(data: seq<UnitFacts>) returns (ok: bool, a: T.TrieArray, numUnits: nat)
    requires Given(data)
    ensures fresh(a) && (ok <==> Passes(data))
    ensures ok ==> a.Valid(Raw(data), LastUnit(data)) && numUnits == NumUnits(data)
    ensures ok ==> a.minkey == MinKey(data) && a.maxkey == MaxKey(data)
  {
    hide T.Settled, T.CellsGood, T.AscendingRanges, T.Fits;
    a := new T.TrieArray();
    ok, numUnits := true, 0;
    var lastUnit, maxUnit := 0, 0;
    var i := 0;
    assert data[..0] == [];
    while i < |data|
      invariant i <= |data| && fresh(a) && lastUnit == maxUnit == LastUnit(data[..i]) && Passes(data[..i])
      invariant a.Valid(Raw(data[..i]), LastUnit(data[..i])) && a.minkey == MinKey(data[..i]) && a.maxkey == MaxKey(data[..i])
    {
      assert data[..i + 1][..i] == data[..i];
      PassesNext(data, i);
      if data[i].unit < lastUnit {
        return false, a, 0;
      }
      var asked;
      ok, asked := a.Insert(data[i].ids, data[i].unit, Raw(data[..i]), LastUnit(data[..i]));
      if !ok {
        return;
      }
      maxUnit := if maxUnit < data[i].unit then data[i].unit else maxUnit;
      lastUnit := data[i].unit;
      i := i + 1;
    }
    assert data[..|data|] == data;
    ok := true;
    numUnits := (maxUnit + 1) % 0x1_0000_0000;
  }

  lemma PassesNext(data: seq<UnitFacts>, i: nat)
    requires i < |data| && Passes(data[..i])
    ensures Passes(data[..i + 1]) <==> LastUnit(data[..i]) <= data[i].unit && T.Fits(data[i].ids)
    ensures Passes(data) ==> Passes(data[..i + 1])
  {
    var a, b := data[..i], data[..i + 1];
    assert b == a + [data[i]] && (forall j :: 0 <= j < i ==> a[j] == data[j] == b[j]) && b[i] == data[i];
    assert forall j :: 0 <= j < i ==> a[j].unit <= LastUnit(a);
    if Passes(b) && i > 0 {
      assert b[i - 1].unit <= b[i].unit;
    }
  }

  /* ------------------------------------------------------------ owner intervals */

  /** From this fact on, up to the next entry, facts have this owner set. */
  datatype Interval = Interval(start: nat, owner: Option<nat>)

  /** The last interval that starts at or before id decides. */
  function GetOwner(owners: seq<Interval>, id: nat): Option<nat> {
    if owners == [] then None
    else
      var n := |owners| - 1;
      if owners[n].start <= id then owners[n].owner else GetOwner(owners[..n], id)
  }

  predicate OwnerIs(h: Heap, p: Ptr, owner: Option<nat>) {
    if p == NULL then owner == None else p in h && owner == h[p].id
  }

  /** The intervals give the owners of the facts below i; neighbours differ. */
  ghost predicate Encodes(owners: seq<Interval>, h: Heap, fs: seq<Ptr>, i: nat) {
    && (forall k :: Facts.LOWEST <= k < i && k < |fs| ==> OwnerIs(h, fs[k], GetOwner(owners, k)))
    && (forall k :: 0 <= k < Facts.LOWEST ==> GetOwner(owners, k) == None)
    && (forall j :: 0 <= j < |owners| ==> Facts.LOWEST <= owners[j].start < i)
    && (forall j :: 0 < j < |owners| ==> owners[j - 1].start < owners[j].start && owners[j - 1].owner != owners[j].owner)
  }

  function Current(owners: seq<Interval>): Option<nat> {
    if owners == [] then None else owners[|owners| - 1].owner
  }

  lemma EncodesSame(owners: seq<Interval>, h: Heap, fs: seq<Ptr>, i: nat)
    requires Encodes(owners, h, fs, i) && Facts.LOWEST <= i < |fs| && OwnerIs(h, fs[i], Current(owners))
    ensures Encodes(owners, h, fs, i + 1)
  {
    assert GetOwner(owners, i) == Current(owners);
  }

  lemma EncodesNew(owners: seq<Interval>, h: Heap, fs: seq<Ptr>, i: nat, owner: Option<nat>)
    requires Encodes(owners, h, fs, i) && Facts.LOWEST <= i < |fs| && OwnerIs(h, fs[i], owner) && owner != Current(owners)
    ensures Encodes(owners + [Interval(i, owner)], h, fs, i + 1)
  {
    hide GetOwner;
    forall k: nat ensures GetOwner(owners + [Interval(i, owner)], k) == if i <= k then owner else GetOwner(owners, k) {
      GetOwnerSnoc(owners, Interval(i, owner), k);
    }
  }

  lemma GetOwnerSnoc(owners: seq<Interval>, e: Interval, k: nat)
    ensures GetOwner(owners + [e], k) == if e.start <= k then e.owner else GetOwner(owners, k)
  {
    assert (owners + [e])[..|owners|] == owners;
  }

  /** A 32-bit index that counts up from the lowest id gets past all facts exactly when there are
      fewer than 2^32; otherwise it starts again at 0 for ever. */
  lemma IndexEnds(size: nat)
    ensures (exists t: nat :: Index32(t) >= size) <==> size < WORD
  {
    if size < WORD {
      assert Index32(WORD - 1 - Facts.LOWEST) == WORD - 1;
    }
  }

  /** The index after t rounds. */
  function Index32(t: nat): nat {
    (Facts.LOWEST + t) % WORD
  }

  /** Run-length encode the owners of all facts; None stands for a loop that does not end. */
  method Intervals(h: Heap, facts: array<Ptr>) returns (r: Option<seq<Interval>>)
    requires Slots(h, facts[..])
    ensures r.Some? <==> exists t: nat :: Index32(t) >= facts.Length
    ensures r.Some? ==> Encodes(r.value, h, facts[..], if Facts.LOWEST <= facts.Length then facts.Length else Facts.LOWEST)
  {
    hide Encodes, Index32;
    IndexEnds(facts.Length);
    if facts.Length >= WORD {
      return None;
    }
    var owners := [];
    var current := None;
    EncodesNone(h, facts[..]);
    var i := Facts.LOWEST;
    while i < facts.Length
      invariant Facts.LOWEST <= i && (Facts.LOWEST <= facts.Length ==> i <= facts.Length)
      invariant Encodes(owners, h, facts[..], i) && current == Current(owners)
      invariant facts.Length < Facts.LOWEST ==> i == Facts.LOWEST
    {
      assert facts[..][i] == NULL || facts[..][i] in h;
      var id := if facts[i] == NULL then None else h[facts[i]].id;
      if id != current {
        EncodesNew(owners, h, facts[..], i, id);
        owners := owners + [Interval(i, id)];
        current := id;
      } else {
        EncodesSame(owners, h, facts[..], i);
      }
      i := (i + 1) % WORD;
    }
    r := Some(owners);
  }

  lemma EncodesNone(h: Heap, fs: seq<Ptr>)
    ensures Encodes([], h, fs, Facts.LOWEST)
  {
  }

  /* ------------------------------------------------------------ exporting the sets */

  /** The list describes the set p. */
  ghost predicate Exported(h: Heap, p: Ptr, e: Slicing.Expr)
    requires HeapOk(h) && p in h
  {
    e.op == h[p].op && Slicing.Ascending(e.elems) && forall x :: x in e.elems <==> x in Units(h, p)
  }

  method ExportSet(h: Heap, p: Ptr) returns (e: Slicing.Expr)
    requires HeapOk(h) && p in h
    ensures Exported(h, p, e)
  {
    hide V.WF, V.Members;
    var elems := SetReaders.Foreach(h[p].set_);
    e := Slicing.Expr(h[p].op, elems);
    forall x ensures x in elems <==> x in Units(h, p) {
      assert x in elems <==> x in V.SetOf(elems);
    }
  }

  /** Every set that has an id is at the position of that id, unless ids have been used twice, and
      the positions that are left hold an empty list. */
  ghost predicate AllExported(u: Usets, sets: seq<Slicing.Expr>)
    requires u.Valid() && HeapOk(u.heap)
    reads u
  {
    && |sets| == u.promoted
    && (u.promoted <= WORD ==> forall p :: p in u.heap && u.heap[p].id.Some? ==> ExportedAt(u, sets, p))
    && (forall j :: 0 <= j < |sets| ==> sets[j] == Slicing.Expr(Or, []) || exists p :: p in u.given && p in u.heap && Exported(u.heap, p, sets[j]))
  }

  ghost predicate ExportedAt(u: Usets, sets: seq<Slicing.Expr>, p: Ptr)
    requires u.Valid() && HeapOk(u.heap) && p in u.heap && u.heap[p].id.Some?
    reads u
  {
    var j := Position(u.firstId, u.heap[p].id.value);
    j < |sets| && Exported(u.heap, p, sets[j])
  }

  lemma PositionInside(u: Usets, p: Ptr)
    requires u.Valid() && p in u.heap && u.heap[p].id.Some?
    ensures Position(u.firstId, u.heap[p].id.value) < u.promoted
  {
    hide HeapOk, Unique, LastId, Position;
    var j := PositionAt(u.firstId, u.given, p);
  }

  lemma PositionsApart(u: Usets, p: Ptr, q: Ptr)
    requires u.Valid() && p in u.heap && u.heap[p].id.Some? && q in u.heap && u.heap[q].id.Some? && u.promoted <= WORD
    requires Position(u.firstId, u.heap[p].id.value) == Position(u.firstId, u.heap[q].id.value)
    ensures p == q
  {
    hide HeapOk, Unique, LastId, Position;
    DistinctPositions(u.firstId, u.given, p, q);
  }

  /** One list per promotion; a set that has an id is written at its position, in 32-bit numbers. */
  method ToEliasFano(u: Usets) returns (sets: seq<Slicing.Expr>)
    requires u.Valid() && HeapOk(u.heap)
    ensures AllExported(u, sets)
  {
    hide Good, HeapOk, Exported, Position;
    GoodFacts(u.heap, u.table, u.firstId, u.given, u.brk);
    var out := new Slicing.Expr[u.promoted](i => Slicing.Expr(Or, []));
    var todo := u.table;
    while todo != {}
      invariant todo <= u.table && u.Valid() && HeapOk(u.heap)
      invariant u.promoted <= WORD ==>
                  forall p :: p in u.table && p !in todo && u.heap[p].id.Some? ==> ExportedAt(u, out[..], p)
      invariant forall j :: 0 <= j < out.Length ==>
                  out[j] == Slicing.Expr(Or, []) || exists p :: p in u.given && p in u.heap && Exported(u.heap, p, out[j])
      decreases todo
    {
      var p :| p in todo;
      if u.heap[p].id.Some? {
        var e := ExportSet(u.heap, p);
        PositionInside(u, p);
        forall q | q in u.heap && u.heap[q].id.Some? && u.promoted <= WORD && q != p
          ensures Position(u.firstId, u.heap[q].id.value) != Position(u.firstId, u.heap[p].id.value)
        {
          if Position(u.firstId, u.heap[q].id.value) == Position(u.firstId, u.heap[p].id.value) {
            PositionsApart(u, p, q);
          }
        }
        out[Position(u.firstId, u.heap[p].id.value)] := e;
      }
      todo := todo - {p};
    }
    sets := out[..];
  }

  /* ------------------------------------------------------------ the whole computation */

  datatype Computed = Computed(firstId: nat, sets: seq<Slicing.Expr>, owners: seq<Interval>)

  /** A check fails, the loop over the facts does not end, or there is a result. */
  datatype Outcome = CheckFails | NeverReturns | Returns(o: Computed)

  /** Every fact of the database below n has the set of exactly those units that own it, facts
      from n on are not owned at all, and every set is there for some fact. */
  ghost predicate Describes(o: Computed, data: seq<UnitFacts>, g: Graph, n: nat) {
    && o.firstId == NumUnits(data) && (forall j :: 0 <= j < |o.sets| ==> UnitSet(o.sets[j], LastUnit(data)))
    && (forall i :: i in g && Facts.LOWEST <= i < n ==> FactDescribed(o, data, g, i))
    && (forall i, v :: n <= i ==> !Owned(data, g, i, v))
    && (forall j :: 0 <= j < |o.sets| ==> SetUsed(o.sets[j], data, g, n))
    && (forall j, k :: 0 <= j < k < |o.sets| ==> o.sets[j].elems != o.sets[k].elems)
  }

  /** A set of units that asks for any of them. */
  ghost predicate UnitList(e: Slicing.Expr, last: nat) {
    e.op == Or && Slicing.Ascending(e.elems) && forall k :: 0 <= k < |e.elems| ==> e.elems[k] <= last
  }

  ghost predicate UnitSet(e: Slicing.Expr, last: nat) {
    UnitList(e, last) && e.elems != []
  }

  /** The sets mention only units below the first set id exactly when there is none, or the unit
      count has not wrapped around. */
  lemma WellFormedWhen(o: Computed, data: seq<UnitFacts>)
    requires Ordered(data) && o.firstId == NumUnits(data)
    requires forall j :: 0 <= j < |o.sets| ==> UnitList(o.sets[j], LastUnit(data))
    requires LastUnit(data) == MAX_UNIT ==> forall j :: 0 <= j < |o.sets| ==> o.sets[j].elems != []
    ensures Slicing.WellFormed(o.sets, o.firstId) <==> o.sets == [] || LastUnit(data) < MAX_UNIT
  {
    assert LastUnit(data) <= MAX_UNIT;
    if o.sets != [] && LastUnit(data) == MAX_UNIT {
      assert UnitList(o.sets[0], LastUnit(data));
      assert o.sets[0].elems[0] >= o.firstId + 0;
    }
  }

  ghost predicate SetDescribes(e: Slicing.Expr, data: seq<UnitFacts>, g: Graph, i: nat) {
    forall v :: v in e.elems <==> Owned(data, g, i, v)
  }

  ghost predicate SetUsed(e: Slicing.Expr, data: seq<UnitFacts>, g: Graph, n: nat) {
    exists i :: i in g && i < n && SetDescribes(e, data, g, i)
  }

  ghost predicate FactDescribed(o: Computed, data: seq<UnitFacts>, g: Graph, i: nat) {
    var owner := GetOwner(o.owners, i);
    if owner == None then forall v :: !Owned(data, g, i, v)
    else o.firstId <= owner.value < o.firstId + |o.sets| && SetDescribes(o.sets[owner.value - o.firstId], data, g, i)
  }

  /* How many ids are needed. */

  /** The units that own fact k, as a set. */
  ghost function OwnersOf(data: seq<UnitFacts>, g: Graph, k: nat): (r: set<nat>)
    ensures forall v :: v in r <==> Owned(data, g, k, v)
  {
    hide T.InRanges, Reaches;
    set v | v in (set i | 0 <= i < |data| :: data[i].unit) && Owned(data, g, k, v)
  }

  /** The different sets of owners that facts of the database have. */
  ghost function OwnerSets(data: seq<UnitFacts>, g: Graph): set<set<nat>> {
    set k | k in g && OwnersOf(data, g, k) != {} :: OwnersOf(data, g, k)
  }

  /** There are enough 32-bit ids after the units, the one that says "none" left out. */
  ghost predicate IdsSuffice(data: seq<UnitFacts>, g: Graph) {
    NumUnits(data) + |OwnerSets(data, g)| <= INVALID_USET
  }

  /** All ids of facts are such. */
  predicate FromLowest(g: Graph) {
    forall f :: f in g ==> Facts.LOWEST <= f
  }

  lemma OwnedIff(data: seq<UnitFacts>, g: Graph, raw: seq<set<nat>>, i: nat, v: nat)
    requires forall k :: 0 <= k < |raw| ==> raw[k] == Raw(data)(k)
    requires forall k: nat :: Raw(data)(k) != {} ==> k < |raw|
    ensures TransitivelyOwns(g, raw, i, v) <==> Owned(data, g, i, v)
  {
    if TransitivelyOwns(g, raw, i, v) {
      var a :| 0 <= a < |raw| && v in raw[a] && Reaches(g, a, i);
      RawIsListed(data, a, v);
    }
    if Owned(data, g, i, v) {
      var a :| Listed(data, a, v) && Reaches(g, a, i);
      RawIsListed(data, a, v);
    }
  }

  lemma OwnedBelow(data: seq<UnitFacts>, g: Graph, i: nat, v: nat)
    requires Ordered(data) && Owned(data, g, i, v)
    ensures v <= LastUnit(data)
  {
    hide Reaches, T.InRanges, Given, T.Fits;
    var a :| Listed(data, a, v) && Reaches(g, a, i);
    var j :| 0 <= j < |data| && data[j].unit == v && T.InRanges(data[j].ids, a);
  }

  /** Paths never go up. */
  lemma ReachesDown(g: Graph, a: nat, i: nat)
    requires Backward(g) && Reaches(g, a, i)
    ensures i <= a
  {
    var p :| Path(g, p) && p[0] == a && p[|p| - 1] == i;
    PathIsVia(g, a + 1, p);
  }

  lemma OwnedInTable(data: seq<UnitFacts>, g: Graph, n: nat, i: nat, v: nat)
    requires Backward(g) && Owned(data, g, i, v) && forall k: nat :: Raw(data)(k) != {} ==> k < n
    ensures i < n
  {
    var a :| Listed(data, a, v) && Reaches(g, a, i);
    RawIsListed(data, a, v);
    ReachesDown(g, a, i);
  }

  /** The state after completion, in terms of the units of each fact. */
  ghost predicate Complete(u: Usets, fs: seq<Ptr>, data: seq<UnitFacts>, g: Graph)
    reads u
  {
    && u.Valid() && HeapOk(u.heap) && Slots(u.heap, fs) && Completion.PromotedAre(u.given, fs, g, 0) && AllOr(u.heap)
    && u.table == u.heap.Keys
    && UnitsAre(u.heap, fs, data, g)
    && (forall k: nat :: Raw(data)(k) != {} ==> k < |fs|)
  }

  method ComputeSets(data: seq<UnitFacts>, g: Graph) returns (ok: bool, u: Usets, facts: array<Ptr>)
    requires Given(data) && Backward(g)
    ensures fresh(u) && fresh(facts) && (ok <==> Passes(data))
    ensures ok ==> u.firstId == NumUnits(data) && Complete(u, facts[..], data, g) && facts.Length == TableSize(data)
  {
    hide Good, HeapOk, Slots, AllOr, Completion.PromotedAre, Forgotten, Flattening.Flat, Collection.Collected, T.Settled,
      T.CellsGood, TransitivelyOwns, Owned, UnitsAre, Raw;
    var a, numUnits;
    ok, a, numUnits := FillOwnership(data);
    if !ok {
      u := new Usets(0);
      facts := new Ptr[0];
      return;
    }
    ghost var base := Raw(data);
    u := Collection.CollectUsets(numUnits, a, base, LastUnit(data));
    facts := Flattening.Flatten(u, a, base);
    ghost var raw := FlatFacts(u, facts[..], base);
    Completion.CompleteOwnership(u, facts, g, raw);
    Completion.ForgottenFacts(u.heap, u.table, facts[..], [], u.given);
    UnitsOwned(u.heap, facts[..], data, g, raw);
  }

  lemma UnitsOwned(h: Heap, fs: seq<Ptr>, data: seq<UnitFacts>, g: Graph, raw: seq<set<nat>>)
    requires HeapOk(h) && Slots(h, fs) && |fs| == |raw|
    requires forall i, v :: 0 <= i < |fs| ==> (v in Owners(h, fs)[i] <==> TransitivelyOwns(g, raw, i, v))
    requires forall k :: 0 <= k < |raw| ==> raw[k] == Raw(data)(k)
    requires forall k: nat :: Raw(data)(k) != {} ==> k < |raw|
    ensures UnitsAre(h, fs, data, g)
  {
    hide HeapOk, Units, TransitivelyOwns, Owned, Raw;
    forall i, v | 0 <= i < |fs| ensures v in Units(h, fs[i]) <==> Owned(data, g, i, v) {
      OwnedIff(data, g, raw, i, v);
      assert Owners(h, fs)[i] == Units(h, fs[i]);
    }
  }

  ghost predicate UnitsAre(h: Heap, fs: seq<Ptr>, data: seq<UnitFacts>, g: Graph)
    requires HeapOk(h) && Slots(h, fs)
  {
    forall i, v :: 0 <= i < |fs| ==> (v in Units(h, fs[i]) <==> Owned(data, g, i, v))
  }

  lemma FlatFacts(u: Usets, fs: seq<Ptr>, base: nat -> set<nat>) returns (raw: seq<set<nat>>)
    requires u.Valid() && Flattening.Flat(u.heap, u.table, fs, base) && u.given == []
    ensures Completion.Settled(u, fs) && HeapOk(u.heap) && Slots(u.heap, fs) && raw == Owners(u.heap, fs)
    ensures |raw| == |fs| && forall k :: 0 <= k < |raw| ==> raw[k] == base(k)
    ensures forall k: nat :: base(k) != {} ==> k < |raw|
  {
    hide Good, HeapOk, Refs, AllOr;
    raw := Owners(u.heap, fs);
  }

  /** Promotions are those of valid sets. */
  lemma Givens(u: Usets, fs: seq<Ptr>, data: seq<UnitFacts>, g: Graph)
    requires Complete(u, fs, data, g)
    ensures u.Valid() && HeapOk(u.heap) && Slots(u.heap, fs) && FreshGiven(u.firstId, u.given) && u.promoted == |u.given| <= |fs|
    ensures forall p :: p in u.given ==> p in u.heap && u.heap[p].id == LastId(u.firstId, u.given, p)
    ensures u.firstId < WORD
  {
    hide HeapOk, Unique, LastId, UnitsAre, AllOr;
  }

  /** Every promoted set is the owner set of some fact of the database. */
  lemma GivenFrom(u: Usets, fs: seq<Ptr>, data: seq<UnitFacts>, g: Graph, p: Ptr) returns (i: nat)
    requires Complete(u, fs, data, g) && p in u.given
    ensures p in u.heap && i in g && i < |fs| && fs[i] == p && HeapOk(u.heap) && Units(u.heap, p) == OwnersOf(data, g, i) != {}
  {
    hide Good, HeapOk, Owned, Units, Raw;
    GoodFacts(u.heap, u.table, u.firstId, u.given, u.brk);
    i :| 0 <= i < |fs| && i in g && fs[i] == p;
    assert forall v :: v in Units(u.heap, p) <==> Owned(data, g, i, v);
  }

  /** The owners of every owned fact of the database have been promoted. */
  lemma OwnedGiven(u: Usets, fs: seq<Ptr>, data: seq<UnitFacts>, g: Graph, k: nat)
    requires Complete(u, fs, data, g) && Backward(g) && k in g && OwnersOf(data, g, k) != {}
    ensures k < |fs| && fs[k] in u.given && HeapOk(u.heap) && fs[k] in u.heap && Units(u.heap, fs[k]) == OwnersOf(data, g, k)
  {
    hide Good, HeapOk, Owned, Raw, AllOr, V.Members, V.WF;
    var v :| v in OwnersOf(data, g, k);
    OwnedBounded(u, fs, data, g, k, v);
    assert forall v :: v in Units(u.heap, fs[k]) <==> Owned(data, g, k, v);
    assert v in Units(u.heap, fs[k]);
  }

  ghost function UnitSets(h: Heap, ps: set<Ptr>): set<set<nat>>
    requires HeapOk(h) && ps <= h.Keys
  {
    set p | p in ps :: Units(h, p)
  }

  lemma {:induction false} UnitSetsCard(u: Usets, fs: seq<Ptr>, data: seq<UnitFacts>, g: Graph, ps: set<Ptr>)
    requires Complete(u, fs, data, g) && HeapOk(u.heap) && ps <= u.heap.Keys
    ensures |UnitSets(u.heap, ps)| == |ps|
    decreases ps
  {
    hide Complete, Units, HeapOk;
    if ps != {} {
      var p :| p in ps;
      var rest := ps - {p};
      UnitSetsCard(u, fs, data, g, rest);
      if Units(u.heap, p) in UnitSets(u.heap, rest) {
        var q :| q in rest && Units(u.heap, q) == Units(u.heap, p);
        SameUnitsSame(u, fs, data, g, p, q);
      }
      assert UnitSets(u.heap, ps) == UnitSets(u.heap, rest) + {Units(u.heap, p)};
    }
  }

  lemma OwnerSetsGiven(u: Usets, fs: seq<Ptr>, data: seq<UnitFacts>, g: Graph)
    requires Complete(u, fs, data, g) && Backward(g)
    ensures HeapOk(u.heap) && Ptrs(u.given) <= u.heap.Keys && OwnerSets(data, g) == UnitSets(u.heap, Ptrs(u.given))
  {
    hide Complete, Units, HeapOk, OwnersOf;
    Givens(u, fs, data, g);
    forall x | x in OwnerSets(data, g) ensures x in UnitSets(u.heap, Ptrs(u.given)) {
      var k :| k in g && OwnersOf(data, g, k) != {} && OwnersOf(data, g, k) == x;
      OwnedGiven(u, fs, data, g, k);
    }
    forall p | p in Ptrs(u.given) ensures Units(u.heap, p) in OwnerSets(data, g) {
      var i := GivenFrom(u, fs, data, g, p);
    }
  }

  /** Ids suffice exactly when they have not run out. */
  lemma SufficeWhen(u: Usets, fs: seq<Ptr>, data: seq<UnitFacts>, g: Graph)
    requires Complete(u, fs, data, g) && Backward(g) && u.firstId == NumUnits(data)
    ensures IdsSuffice(data, g) <==> u.firstId + u.promoted <= INVALID_USET
    ensures u.promoted == 0 <==> OwnerSets(data, g) == {}
  {
    hide Complete, UnitSets, HeapOk, OwnerSets, NumUnits;
    Givens(u, fs, data, g);
    OwnerSetsGiven(u, fs, data, g);
    UnitSetsCard(u, fs, data, g, Ptrs(u.given));
    PromotedCard(u.firstId, u.given);
    if u.given != [] {
      assert u.given[0] in Ptrs(u.given);
    }
  }

  /** Without running out, every exported set is the owner set of some fact of the database. */
  lemma ExportedFrom(u: Usets, fs: seq<Ptr>, data: seq<UnitFacts>, g: Graph, sets: seq<Slicing.Expr>, j: nat)
    returns (p: Ptr, i: nat)
    requires Complete(u, fs, data, g) && u.Valid() && HeapOk(u.heap) && AllExported(u, sets) && j < |sets|
    requires u.firstId + u.promoted <= INVALID_USET
    ensures p == u.given[j] && p in u.heap && Exported(u.heap, p, sets[j])
    ensures i in g && i < |fs| && SetDescribes(sets[j], data, g, i)
  {
    hide Complete, Good, HeapOk, Owned, Units, LastId;
    Givens(u, fs, data, g);
    DenseIds(u.firstId, u.given, j);
    p := u.given[j];
    assert u.heap[p].id == Some(u.firstId + j);
    assert ExportedAt(u, sets, p);
    assert Position(u.firstId, u.firstId + j) == j;
    i := GivenFrom(u, fs, data, g, p);
  }

  lemma SetsWellFormed(u: Usets, fs: seq<Ptr>, data: seq<UnitFacts>, g: Graph, sets: seq<Slicing.Expr>)
    requires Complete(u, fs, data, g) && u.Valid() && HeapOk(u.heap) && AllExported(u, sets) && Ordered(data)
    requires u.firstId + u.promoted <= INVALID_USET
    ensures forall j :: 0 <= j < |sets| ==> sets[j].elems != [] && SetUsed(sets[j], data, g, |fs|)
  {
    hide Complete, AllExported, Owned, Units, Ordered, Good;
    forall j | 0 <= j < |sets| ensures sets[j].elems != [] && SetUsed(sets[j], data, g, |fs|) {
      var p, i := ExportedFrom(u, fs, data, g, sets, j);
      OrSet(u, fs, data, g, p);
      NotEmpty(u.heap, p, sets[j]);
    }
  }

  /** What is exported mentions units only. */
  lemma SetsOfUnits(u: Usets, fs: seq<Ptr>, data: seq<UnitFacts>, g: Graph, sets: seq<Slicing.Expr>)
    requires Complete(u, fs, data, g) && u.Valid() && HeapOk(u.heap) && AllExported(u, sets) && Ordered(data)
    ensures forall j :: 0 <= j < |sets| ==> UnitList(sets[j], LastUnit(data))
  {
    hide Complete, Owned, Units, LastUnit, Ordered, Good, ExportedAt, HeapOk;
    forall j | 0 <= j < |sets| ensures UnitList(sets[j], LastUnit(data)) {
      if sets[j] != Slicing.Expr(Or, []) {
        var p :| p in u.given && p in u.heap && Exported(u.heap, p, sets[j]);
        OrSet(u, fs, data, g, p);
        forall k | 0 <= k < |sets[j].elems| ensures sets[j].elems[k] <= LastUnit(data) {
          assert sets[j].elems[k] in sets[j].elems;
          UnitBelow(u, fs, data, g, p, sets[j].elems[k]);
        }
      }
    }
  }

  lemma UnitBelow(u: Usets, fs: seq<Ptr>, data: seq<UnitFacts>, g: Graph, p: Ptr, v: nat)
    requires Complete(u, fs, data, g) && Ordered(data) && p in u.given && p in u.heap && HeapOk(u.heap) && v in Units(u.heap, p)
    ensures v <= LastUnit(data)
  {
    hide Complete, HeapOk, Owned, Units, Ordered, LastUnit;
    var i := GivenFrom(u, fs, data, g, p);
    OwnedBelow(data, g, i, v);
  }

  lemma OrSet(u: Usets, fs: seq<Ptr>, data: seq<UnitFacts>, g: Graph, p: Ptr)
    requires Complete(u, fs, data, g) && p in u.heap
    ensures HeapOk(u.heap) && u.heap[p].op == Or && Units(u.heap, p) != {}
  {
    hide Good, Units, UnitsAre, Completion.PromotedAre, Slots;
  }

  lemma NotEmpty(h: Heap, p: Ptr, e: Slicing.Expr)
    requires HeapOk(h) && p in h && Units(h, p) != {} && Exported(h, p, e)
    ensures e.elems != []
  {
    hide HeapOk, Units;
    var x :| x in Units(h, p);
    assert x in e.elems;
  }

  lemma SetsDistinct(u: Usets, fs: seq<Ptr>, data: seq<UnitFacts>, g: Graph, sets: seq<Slicing.Expr>, j: nat, k: nat)
    requires Complete(u, fs, data, g) && u.Valid() && HeapOk(u.heap) && AllExported(u, sets) && j < k < |sets|
    requires u.firstId + u.promoted <= INVALID_USET
    ensures sets[j].elems != sets[k].elems
  {
    hide Complete, AllExported, Units, Good, HeapOk;
    Givens(u, fs, data, g);
    PromotedOnce(u.firstId, u.given);
    SetsCount(u, sets);
    var p, i := ExportedFrom(u, fs, data, g, sets, j);
    var q, i' := ExportedFrom(u, fs, data, g, sets, k);
    if sets[j].elems == sets[k].elems {
      assert Units(u.heap, p) == Units(u.heap, q);
      SameUnitsSame(u, fs, data, g, p, q);
    }
  }

  lemma SameUnitsSame(u: Usets, fs: seq<Ptr>, data: seq<UnitFacts>, g: Graph, p: Ptr, q: Ptr)
    requires Complete(u, fs, data, g) && p in u.heap && q in u.heap && Units(u.heap, p) == Units(u.heap, q)
    ensures p == q
  {
    hide Good, UnitsAre, Completion.PromotedAre, Slots, V.Members, V.WF;
    EachSetOnce(u, p, q);
  }

  lemma FactsDescribed(u: Usets, fs: seq<Ptr>, data: seq<UnitFacts>, g: Graph, o: Computed, i: nat)
    requires Complete(u, fs, data, g) && u.Valid() && HeapOk(u.heap) && AllExported(u, o.sets) && o.firstId == u.firstId
    requires i in g && Facts.LOWEST <= i < |fs| && OwnerIs(u.heap, fs[i], GetOwner(o.owners, i))
    requires u.firstId + u.promoted <= INVALID_USET
    ensures FactDescribed(o, data, g, i)
  {
    hide Good, AllOr, Owned, GetOwner, V.Members, V.WF, LastId;
    assert forall v :: v in Units(u.heap, fs[i]) <==> Owned(data, g, i, v);
    if fs[i] != NULL {
      Givens(u, fs, data, g);
      GivenHasId(u.firstId, u.given, fs[i]);
      assert ExportedAt(u, o.sets, fs[i]);
    }
  }

  /** When ids have run out, some owned fact of the database has no owner, or one that is no set. */
  lemma FactLost(u: Usets, fs: seq<Ptr>, data: seq<UnitFacts>, g: Graph, o: Computed) returns (i: nat)
    requires Complete(u, fs, data, g) && o.firstId == u.firstId && |fs| < WORD && FromLowest(g)
    requires Encodes(o.owners, u.heap, fs, if Facts.LOWEST <= |fs| then |fs| else Facts.LOWEST)
    requires INVALID_USET < u.firstId + u.promoted
    ensures Lost(o, data, g, i) && i < |fs|
  {
    hide Complete, Encodes, GetOwner, LastId, Units, FreshGiven, HeapOk, Good;
    Givens(u, fs, data, g);
    RunsOut(u.firstId, u.given);
    i := GivenFrom(u, fs, data, g, u.given[INVALID_USET - u.firstId]);
    EncodesAt(o.owners, u.heap, fs, i);
  }

  /** Fact i of the database is owned, but the result does not lead to a set for it. */
  ghost predicate Lost(o: Computed, data: seq<UnitFacts>, g: Graph, i: nat) {
    && i in g && Facts.LOWEST <= i && OwnersOf(data, g, i) != {}
    && (GetOwner(o.owners, i) == None || GetOwner(o.owners, i).value < o.firstId)
  }

  lemma LostNotDescribed(o: Computed, data: seq<UnitFacts>, g: Graph, i: nat)
    requires Lost(o, data, g, i)
    ensures !FactDescribed(o, data, g, i)
  {
    hide GetOwner, Owned;
    var v :| v in OwnersOf(data, g, i);
    assert Owned(data, g, i, v);
  }

  /** Compute the owner sets and the owner of every fact. */
  method ComputeOwnership(data: seq<UnitFacts>, g: Graph) returns (r: Outcome)
    requires Given(data) && Backward(g)
    ensures r.CheckFails? <==> !Passes(data)
    ensures r.NeverReturns? <==> Passes(data) && TableSize(data) == WORD
    ensures r.Returns? && IdsSuffice(data, g) ==> Describes(r.o, data, g, TableSize(data))
    ensures r.Returns? && !IdsSuffice(data, g) && FromLowest(g) ==> exists i: nat :: Lost(r.o, data, g, i) && i < TableSize(data)
    ensures r.Returns? ==> r.o.firstId == NumUnits(data) && (r.o.sets == [] <==> OwnerSets(data, g) == {})
    ensures r.Returns? ==> (Slicing.WellFormed(r.o.sets, r.o.firstId) <==> OwnerSets(data, g) == {} || LastUnit(data) < MAX_UNIT)
    ensures r.Returns? && FromLowest(g) ==> (Usable(r.o, data, g) <==> Enough(data, g))
  {
    hide Complete, Encodes, AllExported, Owned, Slicing.WellFormed, GetOwner, NumUnits,
      Given, Passes, LastUnit, Describes, IdsSuffice, Lost, OwnerSets, TableSize, UnitList, Good, HeapOk, Usable, Enough;
    var ok, u, facts := ComputeSets(data, g);
    if !ok {
      return CheckFails;
    }
    CompleteFacts(u, facts[..], data, g);
    SizeFits(data);
    IndexEnds(facts.Length);
    var owners := Intervals(u.heap, facts);
    if owners.None? {
      return NeverReturns;
    }
    var sets := ToEliasFano(u);
    var o := Computed(u.firstId, sets, owners.value);
    r := Returns(o);
    SufficeWhen(u, facts[..], data, g);
    SetsOfUnits(u, facts[..], data, g, sets);
    SetsCount(u, sets);
    if IdsSuffice(data, g) {
      AllDescribed(u, facts[..], data, g, o);
    } else if FromLowest(g) {
      var i := FactLost(u, facts[..], data, g, o);
    }
    Wrapped(u, facts[..], data, g);
    if LastUnit(data) == MAX_UNIT {
      SetsWellFormed(u, facts[..], data, g, sets);
    }
    WellFormedWhen(o, data);
    if FromLowest(g) {
      UsableWhen(o, data, g);
    }
  }

  lemma SetsCount(u: Usets, sets: seq<Slicing.Expr>)
    requires u.Valid() && HeapOk(u.heap) && AllExported(u, sets)
    ensures |sets| == u.promoted
  {
  }

  /** When the unit count wraps around, ids do not. */
  lemma Wrapped(u: Usets, fs: seq<Ptr>, data: seq<UnitFacts>, g: Graph)
    requires Complete(u, fs, data, g) && u.firstId == NumUnits(data) && |fs| < WORD
    ensures LastUnit(data) == MAX_UNIT ==> u.firstId + u.promoted <= INVALID_USET
  {
    hide Complete, HeapOk, Good;
    Givens(u, fs, data, g);
  }

  /** With enough ids, everything is as it should be. */
  lemma AllDescribed(u: Usets, fs: seq<Ptr>, data: seq<UnitFacts>, g: Graph, o: Computed)
    requires Complete(u, fs, data, g) && u.Valid() && HeapOk(u.heap) && AllExported(u, o.sets)
    requires Ordered(data) && Backward(g) && |fs| == TableSize(data) && o.firstId == u.firstId == NumUnits(data)
    requires u.firstId + u.promoted <= INVALID_USET
    requires Encodes(o.owners, u.heap, fs, if Facts.LOWEST <= |fs| then |fs| else Facts.LOWEST)
    ensures Describes(o, data, g, TableSize(data))
  {
    hide Complete, Encodes, AllExported, FactDescribed, SetUsed, SetDescribes, Owned, GetOwner, NumUnits, Ordered, UnitList,
      LastUnit, Good, HeapOk, TableSize;
    SetsOfUnits(u, fs, data, g, o.sets);
    SetsWellFormed(u, fs, data, g, o.sets);
    forall i | i in g && Facts.LOWEST <= i < |fs| ensures FactDescribed(o, data, g, i) {
      EncodesAt(o.owners, u.heap, fs, i);
      FactsDescribed(u, fs, data, g, o, i);
    }
    forall i, v | |fs| <= i ensures !Owned(data, g, i, v) {
      if Owned(data, g, i, v) {
        OwnedBounded(u, fs, data, g, i, v);
      }
    }
    forall j, k | 0 <= j < k < |o.sets| ensures o.sets[j].elems != o.sets[k].elems {
      SetsDistinct(u, fs, data, g, o.sets, j, k);
    }
  }

  /** A result is usable when it describes every fact and can be sliced. */
  ghost predicate Usable(o: Computed, data: seq<UnitFacts>, g: Graph) {
    Describes(o, data, g, TableSize(data)) && Slicing.WellFormed(o.sets, o.firstId)
  }

  /** What the computation has to be given for a usable result: nothing is owned, or units and sets
      together leave the largest 32-bit number free. */
  ghost predicate Enough(data: seq<UnitFacts>, g: Graph) {
    OwnerSets(data, g) == {} || LastUnit(data) + 1 + |OwnerSets(data, g)| <= INVALID_USET
  }

  lemma UsableWhen(o: Computed, data: seq<UnitFacts>, g: Graph)
    requires Ordered(data) && (IdsSuffice(data, g) ==> Describes(o, data, g, TableSize(data)))
    requires !IdsSuffice(data, g) ==> exists i: nat :: Lost(o, data, g, i) && i < TableSize(data)
    requires Slicing.WellFormed(o.sets, o.firstId) <==> OwnerSets(data, g) == {} || LastUnit(data) < MAX_UNIT
    ensures Describes(o, data, g, TableSize(data)) <==> IdsSuffice(data, g)
    ensures Usable(o, data, g) <==> Enough(data, g)
  {
    hide Slicing.WellFormed, OwnerSets, TableSize, Lost, FactDescribed, UnitSet, SetUsed, Owned;
    assert LastUnit(data) <= MAX_UNIT;
    if !IdsSuffice(data, g) {
      var i: nat :| Lost(o, data, g, i) && i < TableSize(data);
      LostFacts(o, data, g, i);
      LostNotDescribed(o, data, g, i);
    }
  }

  lemma LostFacts(o: Computed, data: seq<UnitFacts>, g: Graph, i: nat)
    requires Lost(o, data, g, i)
    ensures i in g && Facts.LOWEST <= i
  {
  }

  /** The largest key: the computation does not return. */
  lemma LargestKey()
    ensures var data := [UnitFacts(0, [T.Range(0xFFFF_FFFF, 0xFFFF_FFFF)])];
            Ordered(data) && TableSize(data) == WORD
  {
    var data := [UnitFacts(0, [T.Range(0xFFFF_FFFF, 0xFFFF_FFFF)])];
    assert data[..0] == [];
  }

  /** The largest unit but one, with a single fact: the only set gets the id that says "none". */
  lemma LargestUnit()
    ensures var data, g := [UnitFacts(0xFFFF_FFFE, [T.Range(1024, 1024)])], map[1024 := []];
            Ordered(data) && FromLowest(g) && TableSize(data) < WORD && !IdsSuffice(data, g) && !Enough(data, g)
  {
    hide OwnersOf, Owned;
    var data, g: Graph := [UnitFacts(0xFFFF_FFFE, [T.Range(1024, 1024)])], map[1024 := []];
    assert data[..0] == [];
    assert data[0].ids[0].start <= 1024 <= data[0].ids[0].finish;
    assert Listed(data, 1024, 0xFFFF_FFFE);
    OwnsItself(data, g, 1024, 0xFFFF_FFFE);
    assert OwnersOf(data, g, 1024) in OwnerSets(data, g);
  }

  /** Who lists a fact owns it. */
  lemma OwnsItself(data: seq<UnitFacts>, g: Graph, k: nat, v: nat)
    requires Listed(data, k, v)
    ensures Owned(data, g, k, v)
  {
    hide Listed;
    assert Path(g, [k]) && [k][0] == k;
  }

  lemma CompleteFacts(u: Usets, fs: seq<Ptr>, data: seq<UnitFacts>, g: Graph)
    requires Complete(u, fs, data, g)
    ensures u.Valid() && HeapOk(u.heap) && Slots(u.heap, fs)
  {
  }

  lemma EncodesAt(owners: seq<Interval>, h: Heap, fs: seq<Ptr>, i: nat)
    requires Encodes(owners, h, fs, if Facts.LOWEST <= |fs| then |fs| else Facts.LOWEST) && Facts.LOWEST <= i < |fs|
    ensures OwnerIs(h, fs[i], GetOwner(owners, i))
  {
  }

  lemma OwnedBounded(u: Usets, fs: seq<Ptr>, data: seq<UnitFacts>, g: Graph, i: nat, v: nat)
    requires Complete(u, fs, data, g) && Backward(g) && Owned(data, g, i, v)
    ensures i < |fs|
  {
    hide Good, UnitsAre, Completion.PromotedAre, Slots, HeapOk, Owned, AllOr;
    OwnedInTable(data, g, |fs|, i, v);
  }

  /* ------------------------------------------------------------ slices */

  predicate Closed(g: Graph) {
    forall f, k :: f in g && 0 <= k < |g[f]| ==> g[f][k] in g
  }

  /** A database: facts have ids from Facts.LOWEST on and refer to earlier facts of the database. */
  predicate Database(g: Graph) {
    Backward(g) && Closed(g) && forall f :: f in g ==> Facts.LOWEST <= f
  }

  /** Whether the slice shows fact i. */
  ghost predicate Visible(o: Computed, members: seq<bool>, i: nat) {
    var owner := GetOwner(o.owners, i);
    && (owner.Some? ==> o.firstId <= owner.value < o.firstId + |members|)
    && Slicing.VisibleFact(members, o.firstId, owner)
  }

  ghost predicate IsSlice(o: Computed, members: seq<bool>, units: seq<nat>, exclude: bool) {
    && |members| == |o.sets|
    && (units != [] ==> Slicing.WellFormed(o.sets, o.firstId))
    && forall i :: 0 <= i < |members| ==>
         members[i] == if units == [] then exclude else Slicing.Sees(o.sets, o.firstId, units, exclude, i)
  }

  /** Some unit that the slice shows owns fact i. */
  ghost predicate Shown(data: seq<UnitFacts>, g: Graph, units: seq<nat>, exclude: bool, i: nat) {
    exists v :: Owned(data, g, i, v) && Slicing.UnitVisible(units, exclude, v)
  }

  /** An Or-set of units is visible exactly when one of its units is. */
  lemma OrSees(o: Computed, units: seq<nat>, exclude: bool, j: nat)
    requires j < |o.sets| && o.sets[j].op == Or
    requires forall k :: 0 <= k < |o.sets[j].elems| ==> o.sets[j].elems[k] < o.firstId
    ensures Slicing.Sees(o.sets, o.firstId, units, exclude, j) <==>
            exists v :: v in o.sets[j].elems && Slicing.UnitVisible(units, exclude, v)
  {
    var es := o.sets[j].elems;
    assert forall k :: 0 <= k < |es| ==>
        Slicing.SeesMember(o.sets, o.firstId, units, exclude, j, es[k]) == Slicing.UnitVisible(units, exclude, es[k]);
    if v :| v in es && Slicing.UnitVisible(units, exclude, v) {
      var k :| 0 <= k < |es| && es[k] == v;
      assert Slicing.SeesMember(o.sets, o.firstId, units, exclude, j, es[k]);
    }
  }

  /** A fact is visible in a slice exactly when a unit the slice shows owns it. */
  lemma VisibleIsShown(o: Computed, data: seq<UnitFacts>, g: Graph, n: nat, members: seq<bool>, units: seq<nat>,
                       exclude: bool, i: nat)
    requires Ordered(data) && Describes(o, data, g, n) && IsSlice(o, members, units, exclude)
    requires i in g && Facts.LOWEST <= i < n
    ensures Visible(o, members, i) <==> Shown(data, g, units, exclude, i)
  {
    hide Owned, Slicing.Sees, GetOwner, NumUnits, LastUnit, Slicing.WellFormed, SetUsed, Ordered;
    assert FactDescribed(o, data, g, i);
    var owner := GetOwner(o.owners, i);
    if owner.Some? {
      var j := owner.value - o.firstId;
      assert UnitSet(o.sets[j], LastUnit(data));
      assert o.sets[j].elems[0] in o.sets[j].elems;
      if units != [] {
        UnitsBelow(o, data, j);
        OrSees(o, units, exclude, j);
      }
    }
  }

  lemma UnitsBelow(o: Computed, data: seq<UnitFacts>, j: nat)
    requires Ordered(data) && o.firstId == NumUnits(data) && Slicing.WellFormed(o.sets, o.firstId) && j < |o.sets|
    requires forall j :: 0 <= j < |o.sets| ==> UnitSet(o.sets[j], LastUnit(data))
    ensures forall k :: 0 <= k < |o.sets[j].elems| ==> o.sets[j].elems[k] < o.firstId
  {
    WellFormedWhen(o, data);
  }

  /** What a fact reaches belongs to the database. */
  lemma {:induction false} PathInside(g: Graph, p: seq<nat>)
    requires Closed(g) && Path(g, p) && p[0] in g
    ensures p[|p| - 1] in g
    decreases |p|
  {
    var e := |p| - 1;
    if e > 0 {
      var q := p[..e];
      assert forall k :: 0 <= k < |q| - 1 ==> Edge(g, p[k], p[k + 1]);
      PathInside(g, q);
      assert Edge(g, p[e - 1], p[e]);
    }
  }

  /** A slice has no dangling references: with a fact, everything it refers to is visible. */
  lemma NothingDangles(o: Computed, data: seq<UnitFacts>, g: Graph, n: nat, members: seq<bool>, units: seq<nat>,
                       exclude: bool, i: nat, j: nat)
    requires Ordered(data) && Database(g) && Describes(o, data, g, n) && IsSlice(o, members, units, exclude)
    requires i in g && i < n && Visible(o, members, i) && Reaches(g, i, j)
    ensures j in g && Visible(o, members, j)
  {
    hide Describes, IsSlice, Visible, Ordered;
    ReachesDown(g, i, j);
    var p :| Path(g, p) && p[0] == i && p[|p| - 1] == j;
    PathInside(g, p);
    VisibleIsShown(o, data, g, n, members, units, exclude, i);
    VisibleIsShown(o, data, g, n, members, units, exclude, j);
    var v :| Owned(data, g, i, v) && Slicing.UnitVisible(units, exclude, v);
    var a :| Listed(data, a, v) && Reaches(g, a, i);
    ReachesTransitive(g, a, i, j);
  }

  /** Units to ask for exist only when the unit count has not wrapped around. */
  lemma UnitsFit(data: seq<UnitFacts>, units: seq<nat>)
    requires Ordered(data) && forall k :: 0 <= k < |units| ==> units[k] < NumUnits(data)
    ensures units == [] || LastUnit(data) < MAX_UNIT
  {
    assert LastUnit(data) <= MAX_UNIT;
    if units != [] {
      assert units[0] < NumUnits(data);
    }
  }

  /** Facts that the result has lost are not visible in any slice. */
  lemma LostInvisible(o: Computed, data: seq<UnitFacts>, g: Graph, members: seq<bool>, i: nat)
    requires Lost(o, data, g, i)
    ensures !Visible(o, members, i) && Shown(data, g, [], true, i)
  {
    hide GetOwner, Owned;
    var v :| v in OwnersOf(data, g, i);
    assert Owned(data, g, i, v) && Slicing.UnitVisible([], true, v);
  }

  /** The slice shows exactly the facts that it should show. */
  ghost predicate Shows(o: Computed, members: seq<bool>, data: seq<UnitFacts>, g: Graph, units: seq<nat>, exclude: bool) {
    forall i :: i in g && i < TableSize(data) ==> (Visible(o, members, i) <==> Shown(data, g, units, exclude, i))
  }

  lemma LostNotShown(o: Computed, data: seq<UnitFacts>, g: Graph, members: seq<bool>, i: nat)
    requires Lost(o, data, g, i) && i < TableSize(data)
    ensures !Shows(o, members, data, g, [], true)
  {
    hide Lost, Visible, Shown, TableSize;
    LostInvisible(o, data, g, members, i);
    LostFacts(o, data, g, i);
  }

  /** The slice has no dangling references. */
  ghost predicate Sealed(o: Computed, members: seq<bool>, data: seq<UnitFacts>, g: Graph) {
    forall i, j :: i in g && i < TableSize(data) && Visible(o, members, i) && Reaches(g, i, j) ==> j in g && Visible(o, members, j)
  }

  lemma SliceRight(o: Computed, data: seq<UnitFacts>, g: Graph, members: seq<bool>, units: seq<nat>, exclude: bool)
    requires Ordered(data) && Database(g) && Describes(o, data, g, TableSize(data)) && IsSlice(o, members, units, exclude)
    ensures Shows(o, members, data, g, units, exclude) && Sealed(o, members, data, g)
  {
    hide Ordered, Reaches, Visible, Shown, Describes, IsSlice, TableSize;
    forall i | i in g && i < TableSize(data) ensures Visible(o, members, i) <==> Shown(data, g, units, exclude, i) {
      VisibleIsShown(o, data, g, TableSize(data), members, units, exclude, i);
    }
    forall i, j | i in g && i < TableSize(data) && Visible(o, members, i) && Reaches(g, i, j)
      ensures j in g && Visible(o, members, j)
    {
      NothingDangles(o, data, g, TableSize(data), members, units, exclude, i, j);
    }
  }

  /** The whole way from units and references to a slice.  With enough ids the slice shows what it
      should; without, the slice that should show everything does not. */
  method SliceOf(data: seq<UnitFacts>, g: Graph, units: seq<nat>, exclude: bool) returns (r: Outcome, members: array<bool>)
    requires Given(data) && Database(g) && Slicing.Sorted(units)
    requires forall k :: 0 <= k < |units| ==> units[k] < NumUnits(data)
    ensures r.CheckFails? <==> !Passes(data)
    ensures r.NeverReturns? <==> Passes(data) && TableSize(data) == WORD
    ensures r.Returns? ==> IsSlice(r.o, members[..], units, exclude) && r.o.firstId == NumUnits(data)
    ensures r.Returns? ==> (Usable(r.o, data, g) <==> Enough(data, g))
    ensures r.Returns? && IdsSuffice(data, g) ==>
              Shows(r.o, members[..], data, g, units, exclude) && Sealed(r.o, members[..], data, g)
    ensures r.Returns? && units == [] && exclude ==>
              (Shows(r.o, members[..], data, g, units, exclude) <==> IdsSuffice(data, g))
  {
    hide Given, Passes, Shows, Sealed, Describes, IdsSuffice, Lost, OwnerSets, TableSize, Slicing.WellFormed, Usable, Enough, NumUnits,
      LastUnit, Slicing.Sees;
    r := ComputeOwnership(data, g);
    if !r.Returns? {
      members := new bool[0];
      return;
    }
    UnitsFit(data, units);
    var o := r.o;
    members := Slicing.Slice(o.sets, o.firstId, units, exclude);
    assert IsSlice(o, members[..], units, exclude);
    if IdsSuffice(data, g) {
      SliceRight(o, data, g, members[..], units, exclude);
    } else {
      var i: nat :| Lost(o, data, g, i) && i < TableSize(data);
      LostNotShown(o, data, g, members[..], i);
    }
  }
}
