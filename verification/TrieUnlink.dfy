/** The second half of an insertion: for each list, compute the new value once and store it in
    every slot of the list.

    While lists are being undone, a slot that is still on a list stands for the units its keys
    had before, and every other leaf already holds the final units of its keys.  Each list that is
    walked moves its slots from the first kind to the second; the counts of the old and the new
    value follow from the number of slots on the list and of slots that still hold the value. */
module TrieUnlink {
  import opened SetVectors
  import opened Pointers
  import opened TrieShape
  import opened TrieCollect

  ghost predicate CellsOk(h: Cells) {
    NULL !in h && forall p :: p in h ==> WF(h[p].set_)
  }

  ghost function UnitsOf(h: Cells, p: Ptr): set<nat>
    requires CellsOk(h) && (p == NULL || p in h)
  {
    if p == NULL then {} else Members(h[p].set_)
  }

  ghost function TreeUnits(h: Cells, t: Tree): set<nat>
    requires CellsOk(h) && (t.Val? ==> t.p in h)
  {
    if t.Val? then UnitsOf(h, t.p) else {}
  }

  /** What every key will hold in the end. */
  ghost function Target(base: nat -> set<nat>, D: iset<nat>, unit: nat, k: nat): set<nat> {
    base(k) + if k in D then {unit} else {}
  }

  /** A threaded slot still stands for the old units of its keys; every other leaf already holds
      the final ones. */
  ghost predicate Progress(m: Mem, h: Cells, was: map<Slot, Ptr>, D: iset<nat>, base: nat -> set<nat>, unit: nat)
    requires CellsOk(h)
  {
    && (forall s :: s in was ==> Leaf(m, s) && !m[s].Val? && (was[s] == NULL || was[s] in h))
    && (forall s :: Leaf(m, s) && s !in was ==> !m[s].Link?)
    && (forall s :: s in m && m[s].Val? ==> m[s].p in h)
    && (forall s, k :: Leaf(m, s) && InSlot(s, k) ==>
          if s in was then k in D && base(k) == UnitsOf(h, was[s])
          else TreeUnits(h, m[s]) == Target(base, D, unit, k))
  }

  ghost predicate Unlinking(c: Coll, g: Hist, base: nat -> set<nat>, unit: nat) {
    && Shape(c.m) && CellsOk(c.h) && Progress(c.m, c.h, g.was, g.D, base, unit)
    && Chains(c, g) && Heads(c, g) && Counts(c, g)
  }

  /** Write a value into every slot of a list. */
  function Stamp(m: Mem, ch: seq<Slot>, p: Ptr): Mem {
    map s | s in m :: if s in ch then Val(p) else m[s]
  }

  ghost function Unthreaded(g: Hist, p: Ptr): Hist
    requires p in g.chains
  {
    g.(chains := g.chains - {p}, was := map s | s in g.was && s !in g.chains[p] :: g.was[s])
  }

  lemma StampShape(m: Mem, ch: seq<Slot>, p: Ptr)
    requires Shape(m) && forall i :: 0 <= i < |ch| ==> Leaf(m, ch[i])
    ensures Shape(Stamp(m, ch, p))
  {
  }

  lemma {:induction false} SlotsCard(ch: seq<Slot>)
    requires forall i, j :: 0 <= i < j < |ch| ==> ch[i] != ch[j]
    ensures |set s | s in ch| == |ch|
  {
    if ch != [] {
      var n := |ch| - 1;
      SlotsCard(ch[..n]);
      assert ch == ch[..n] + [ch[n]];
      assert (set s | s in ch) == (set s | s in ch[..n]) + {ch[n]};
      assert ch[n] !in ch[..n];
    } else {
      assert (set s | s in ch) == {};
    }
  }

  lemma StampHolders(m: Mem, ch: seq<Slot>, p: Ptr, q: Ptr)
    requires forall i, j :: 0 <= i < j < |ch| ==> ch[i] != ch[j]
    requires forall i :: 0 <= i < |ch| ==> ch[i] in m && !m[ch[i]].Val?
    ensures |Holders(Stamp(m, ch, p), q)| == |Holders(m, q)| + if q == p then |ch| else 0
  {
    var before, after, slots := Holders(m, q), Holders(Stamp(m, ch, p), q), set s | s in ch;
    SlotsCard(ch);
    forall s ensures s in after <==> s in before || (q == p && s in slots) {
      if s in ch {
        assert !m[s].Val?;
      }
    }
    if q == p {
      assert after == before + slots;
      assert before !! slots;
    } else {
      assert after == before;
    }
  }

  /** The lists of the other values are not disturbed. */
  lemma StampChains(c: Coll, g: Hist, p: Ptr, upd: Ptr, h': Cells)
    requires Chains(c, g) && p in g.chains
    ensures Chains(c.(m := Stamp(c.m, g.chains[p], upd), h := h'), Unthreaded(g, p))
  {
    var ch, g' := g.chains[p], Unthreaded(g, p);
    var m' := Stamp(c.m, ch, upd);
    assert ChainOk(c.m, g.was, ch, p);
    forall q | q in g'.chains ensures ChainOk(m', g'.was, g'.chains[q], q) {
      var other := g.chains[q];
      assert ChainOk(c.m, g.was, other, q);
      assert forall i :: 0 <= i < |other| ==> other[i] !in ch;
    }
    forall s | s in g'.was ensures g'.was[s] in g'.chains && s in g'.chains[g'.was[s]] {
      assert s in g.chains[g.was[s]];
    }
  }

  /** What the new cells must satisfy when the list of p has been given the value upd. */
  ghost predicate Updated(h: Cells, h': Cells, p: Ptr, upd: Ptr, n: nat, unit: nat)
    requires CellsOk(h) && CellsOk(h') && (p == NULL || p in h)
  {
    && upd in h' && h'[upd].link == None && h'[upd].refs == n && UnitsOf(h', upd) == UnitsOf(h, p) + {unit}
    && (if upd == p then h[p].refs == 1 else upd !in h)
    && h'.Keys == h.Keys + {upd}
    && (forall q :: q in h && q != upd && q != p ==> h'[q] == h[q])
    && (p != NULL && p != upd ==> h[p].refs > 1 && h'[p] == h[p].(refs := h[p].refs - 1, link := None))
  }

  lemma UpdatedUnits(h: Cells, h': Cells, p: Ptr, upd: Ptr, n: nat, unit: nat, q: Ptr)
    requires CellsOk(h) && CellsOk(h') && (p == NULL || p in h) && Updated(h, h', p, upd, n, unit)
    requires (q == NULL || q in h) && q != upd
    ensures (q == NULL || q in h') && UnitsOf(h', q) == UnitsOf(h, q)
  {
    hide WF, Members;
  }

  /** The slots of a list are leaves that hold no value. */
  lemma ChainSlots(c: Coll, g: Hist, p: Ptr)
    requires Chains(c, g) && p in g.chains && forall s :: s in g.was ==> Leaf(c.m, s) && !c.m[s].Val?
    ensures forall i, j :: 0 <= i < j < |g.chains[p]| ==> g.chains[p][i] != g.chains[p][j]
    ensures forall i :: 0 <= i < |g.chains[p]| ==>
              g.chains[p][i] in g.was && g.was[g.chains[p][i]] == p
              && Leaf(c.m, g.chains[p][i]) && !c.m[g.chains[p][i]].Val?
    ensures |g.chains[p]| > 0
  {
    assert ChainOk(c.m, g.was, g.chains[p], p);
  }

  lemma StampCounts(c: Coll, g: Hist, p: Ptr, upd: Ptr, h': Cells, unit: nat)
    requires Chains(c, g) && Counts(c, g) && p in g.chains
    requires CellsOk(c.h) && CellsOk(h') && (p == NULL || p in c.h)
    requires Updated(c.h, h', p, upd, |g.chains[p]|, unit)
    requires forall s :: s in g.was ==> Leaf(c.m, s) && !c.m[s].Val?
    requires forall s :: s in c.m && c.m[s].Val? ==> c.m[s].p in c.h
    requires forall r :: r in g.chains ==> r == NULL || r in c.h
    ensures Counts(c.(m := Stamp(c.m, g.chains[p], upd), h := h'), Unthreaded(g, p))
  {
    hide WF, Members, Stamp, UnitsOf, Chains, Leaf;
    var ch := g.chains[p];
    ChainSlots(c, g, p);
    forall q | q in h'
      ensures 0 < h'[q].refs == |Holders(Stamp(c.m, ch, upd), q)| + if q in g.chains && q != p then 1 else 0
    {
      StampCount(c, g, p, upd, h', unit, q);
    }
  }

  lemma StampCount(c: Coll, g: Hist, p: Ptr, upd: Ptr, h': Cells, unit: nat, q: Ptr)
    requires Chains(c, g) && Counts(c, g) && p in g.chains
    requires CellsOk(c.h) && CellsOk(h') && (p == NULL || p in c.h)
    requires Updated(c.h, h', p, upd, |g.chains[p]|, unit)
    requires forall s :: s in g.was ==> Leaf(c.m, s) && !c.m[s].Val?
    requires forall s :: s in c.m && c.m[s].Val? ==> c.m[s].p in c.h
    requires forall r :: r in g.chains ==> r == NULL || r in c.h
    requires q in h'
    ensures 0 < h'[q].refs == |Holders(Stamp(c.m, g.chains[p], upd), q)| + if q in g.chains && q != p then 1 else 0
  {
    hide WF, Members, Stamp, UnitsOf, Chains;
    var ch := g.chains[p];
    ChainSlots(c, g, p);
    StampHolders(c.m, ch, upd, q);
    if q == upd {
      NoHolders(c, g, p, upd);
    }
  }

  lemma StampHeads(c: Coll, g: Hist, p: Ptr, upd: Ptr, m': Mem, h': Cells, unit: nat)
    requires Heads(c, g) && p in g.chains && CellsOk(c.h) && CellsOk(h') && (p == NULL || p in c.h)
    requires Updated(c.h, h', p, upd, |g.chains[p]|, unit)
    ensures Heads(c.(m := m', h := h', nullLink := if p == NULL then None else c.nullLink), Unthreaded(g, p))
  {
    hide WF, Members, UnitsOf;
  }

  /** Before it is stored, the new value is held by no slot. */
  lemma NoHolders(c: Coll, g: Hist, p: Ptr, upd: Ptr)
    requires Counts(c, g) && p in g.chains && forall s :: s in c.m && c.m[s].Val? ==> c.m[s].p in c.h
    requires if upd == p then p in c.h && c.h[p].refs == 1 else upd !in c.h
    ensures |Holders(c.m, upd)| == 0
  {
    if upd != p {
      assert Holders(c.m, upd) == {};
    }
  }

  lemma StampProgressAt(c: Coll, g: Hist, p: Ptr, upd: Ptr, h': Cells, base: nat -> set<nat>, unit: nat, s: Slot, k: nat)
    requires Chains(c, g) && p in g.chains && CellsOk(c.h) && CellsOk(h') && (p == NULL || p in c.h)
    requires Progress(c.m, c.h, g.was, g.D, base, unit) && Updated(c.h, h', p, upd, |g.chains[p]|, unit)
    requires Leaf(c.m, s) && InSlot(s, k) && (c.m[s].Val? ==> c.m[s].p != upd)
    ensures if s in g.was && s !in g.chains[p] then
              k in g.D && (g.was[s] == NULL || g.was[s] in h') && base(k) == UnitsOf(h', g.was[s])
            else
              var t := if s in g.chains[p] then Val(upd) else c.m[s];
              (t.Val? ==> t.p in h') && TreeUnits(h', t) == Target(base, g.D, unit, k)
  {
    hide WF, Members, UnitsOf, Chains;
    ChainSlots(c, g, p);
    var ch := g.chains[p];
    if s in g.was && s !in ch {
      OtherList(c, g, p, upd, s);
      UpdatedUnits(c.h, h', p, upd, |ch|, unit, g.was[s]);
    } else if s !in ch && c.m[s].Val? {
      UpdatedUnits(c.h, h', p, upd, |ch|, unit, c.m[s].p);
    }
  }

  lemma StampProgress(c: Coll, g: Hist, p: Ptr, upd: Ptr, h': Cells, base: nat -> set<nat>, unit: nat)
    requires Chains(c, g) && Counts(c, g) && p in g.chains
    requires CellsOk(c.h) && CellsOk(h') && (p == NULL || p in c.h)
    requires Progress(c.m, c.h, g.was, g.D, base, unit) && Updated(c.h, h', p, upd, |g.chains[p]|, unit)
    ensures Progress(Stamp(c.m, g.chains[p], upd), h', Unthreaded(g, p).was, g.D, base, unit)
  {
    hide WF, Members, UnitsOf, Chains, Counts, TreeUnits, Target, InSlot;
    var ch, was' := g.chains[p], Unthreaded(g, p).was;
    var m, m' := c.m, Stamp(c.m, g.chains[p], upd);
    ChainSlots(c, g, p);
    NoHolders(c, g, p, upd);
    assert forall s :: s in m && m[s] == Val(upd) ==> s in Holders(m, upd);
    forall s, k | Leaf(m', s) && InSlot(s, k)
      ensures if s in was' then k in g.D && (was'[s] == NULL || was'[s] in h') && base(k) == UnitsOf(h', was'[s])
              else (m'[s].Val? ==> m'[s].p in h') && TreeUnits(h', m'[s]) == Target(base, g.D, unit, k)
    {
      assert Leaf(m, s);
      StampProgressAt(c, g, p, upd, h', base, unit, s, k);
    }
  }

  lemma OtherList(c: Coll, g: Hist, p: Ptr, upd: Ptr, s: Slot)
    requires Chains(c, g) && p in g.chains && s in g.was && s !in g.chains[p]
    requires (g.was[s] == NULL || g.was[s] in c.h) && NULL !in c.h && upd != NULL
    requires upd == p || upd !in c.h
    ensures g.was[s] != upd
  {
    assert s in g.chains[g.was[s]];
  }

  lemma StampUnlinking(c: Coll, g: Hist, p: Ptr, upd: Ptr, h': Cells, base: nat -> set<nat>, unit: nat)
    requires Unlinking(c, g, base, unit) && p in g.chains && CellsOk(h') && (p == NULL || p in c.h)
    requires Updated(c.h, h', p, upd, |g.chains[p]|, unit)
    ensures Unlinking(c.(m := Stamp(c.m, g.chains[p], upd), h := h', nullLink := if p == NULL then None else c.nullLink),
                      Unthreaded(g, p), base, unit)
  {
    hide WF, Members, UnitsOf, Stamp, Updated, Counts, Chains, Heads, Shape, CellsOk, Leaf;
    ProgressFacts(c.m, c.h, g.was, g.D, base, unit);
    ChainSlots(c, g, p);
    HeadsFacts(c, g);
    StampShape(c.m, g.chains[p], upd);
    StampProgress(c, g, p, upd, h', base, unit);
    StampChains(c, g, p, upd, h');
    StampCounts(c, g, p, upd, h', unit);
    StampHeads(c, g, p, upd, Stamp(c.m, g.chains[p], upd), h', unit);
    var r := if p == NULL then None else c.nullLink;
    CountsIgnoreRoot(c.(m := Stamp(c.m, g.chains[p], upd), h := h'), Unthreaded(g, p), r);
    ChainsIgnoreRoot(c.(m := Stamp(c.m, g.chains[p], upd), h := h'), Unthreaded(g, p), r);
  }

  lemma HeadsFacts(c: Coll, g: Hist)
    requires Heads(c, g)
    ensures forall r :: r in g.chains ==> r == NULL || r in c.h
  {
  }

  lemma ProgressFacts(m: Mem, h: Cells, was: map<Slot, Ptr>, D: iset<nat>, base: nat -> set<nat>, unit: nat)
    requires CellsOk(h) && Progress(m, h, was, D, base, unit)
    ensures forall s :: s in was ==> Leaf(m, s) && !m[s].Val?
    ensures forall s :: s in m && m[s].Val? ==> m[s].p in h
  {
  }

  lemma ChainsIgnoreRoot(c: Coll, g: Hist, r: Option<Slot>)
    requires Chains(c, g)
    ensures Chains(c.(nullLink := r), g)
  {
  }

  lemma CountsIgnoreRoot(c: Coll, g: Hist, r: Option<Slot>)
    requires Counts(c, g)
    ensures Counts(c.(nullLink := r), g)
  {
  }
}
