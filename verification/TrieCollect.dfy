/** The first half of an insertion into the trie: every slot of the inserted ranges is taken out
    and threaded onto a list per previous value.  The lists live in the slots themselves, with
    the value's `link` field as their root.

    A slot that lies in a range only in part is split into sixteen slots first, and the value it
    held gains fifteen references; a slot that lies in a range as a whole gives up its reference,
    except for one that stands for the whole list.  The proof remembers which slots are on which
    list, what each of them held, and which keys have been dealt with. */
module TrieCollect {
  import opened SetVectors
  import opened Pointers
  import opened TrieShape

  /** A reference-counted value: its set, its count, and the root of its list of slots. */
  datatype Cell = Cell(set_: Vecs, refs: nat, link: Option<Slot>)

  type Cells = map<Ptr, Cell>

  /** The mutable state of an insertion. */
  datatype Coll = Coll(m: Mem, h: Cells, nullLink: Option<Slot>, values: seq<Ptr>)

  /** What the proof remembers: the list of each value, the value each threaded slot held, the
      keys dealt with, and what every key held at the start. */
  datatype Hist = Hist(chains: map<Ptr, seq<Slot>>, was: map<Slot, Ptr>, D: iset<nat>, orig: nat -> Ptr)

  ghost function PtrAt(m: Mem, was: map<Slot, Ptr>, s: Slot): Ptr
    requires s in m
  {
    if s in was then was[s] else if m[s].Val? then m[s].p else NULL
  }

  /** A key has been dealt with exactly when its slot is threaded, and its slot knows what the
      key held. */
  ghost predicate Content(c: Coll, g: Hist) {
    forall s, k :: Leaf(c.m, s) && InSlot(s, k) ==> (s in g.was <==> k in g.D) && g.orig(k) == PtrAt(c.m, g.was, s)
  }

  ghost predicate Leaves(c: Coll, g: Hist) {
    && (forall s :: s in g.was ==> Leaf(c.m, s) && !c.m[s].Val?)
    && (forall s :: Leaf(c.m, s) && s !in g.was ==> !c.m[s].Link?)
    && (forall s :: s in c.m && c.m[s].Val? ==> c.m[s].p in c.h)
  }

  ghost predicate ChainOk(m: Mem, was: map<Slot, Ptr>, ch: seq<Slot>, p: Ptr) {
    && |ch| > 0
    && (forall i, j :: 0 <= i < j < |ch| ==> ch[i] != ch[j])
    && (forall i :: 0 <= i < |ch| ==> ch[i] in was && was[ch[i]] == p && ch[i] in m)
    && (forall i :: 0 <= i < |ch| - 1 ==> m[ch[i]] == Link(ch[i + 1]))
    && m[ch[|ch| - 1]] == Null
  }

  ghost predicate Chains(c: Coll, g: Hist) {
    && (forall p :: p in g.chains ==> ChainOk(c.m, g.was, g.chains[p], p))
    && (forall s :: s in g.was ==> g.was[s] in g.chains && s in g.chains[g.was[s]])
  }

  ghost function Head(chains: map<Ptr, seq<Slot>>, p: Ptr): Option<Slot> {
    if p in chains && |chains[p]| > 0 then Some(chains[p][0]) else None
  }

  ghost predicate Heads(c: Coll, g: Hist) {
    && c.nullLink == Head(g.chains, NULL) && NULL !in c.h
    && (forall p :: p in c.h ==> c.h[p].link == Head(g.chains, p))
    && (forall p :: p in g.chains ==> p == NULL || p in c.h)
  }

  ghost predicate Values(c: Coll, g: Hist) {
    && (forall i, j :: 0 <= i < j < |c.values| ==> c.values[i] != c.values[j])
    && (forall p :: p in c.values <==> p in g.chains && p != NULL)
  }

  /** A value is counted once per slot that still holds it, and once for its whole list. */
  ghost predicate Counts(c: Coll, g: Hist) {
    forall p :: p in c.h ==> 0 < c.h[p].refs == |Holders(c.m, p)| + if p in g.chains then 1 else 0
  }

  ghost predicate Collecting(c: Coll, g: Hist) {
    Shape(c.m) && Content(c, g) && Leaves(c, g) && Chains(c, g) && Heads(c, g) && Values(c, g) && Counts(c, g)
  }

  /* ------------------------------------------------------------ taking out a whole slot */

  function LinkTo(prev: Option<Slot>): Tree {
    if prev.None? then Null else Link(prev.value)
  }

  /** Thread a slot whose keys are all inserted. */
  function LinkLeaf(c: Coll, s: Slot): Coll
    requires s in c.m && (c.m[s].Val? ==> c.m[s].p in c.h && c.h[c.m[s].p].refs > 0)
  {
    if c.m[s].Val? then
      var p := c.m[s].p;
      var prev := c.h[p].link;
      Coll(c.m[s := LinkTo(prev)],
           c.h[p := c.h[p].(link := Some(s), refs := if prev.None? then c.h[p].refs else c.h[p].refs - 1)],
           c.nullLink,
           if prev.None? then c.values + [p] else c.values)
    else
      c.(m := c.m[s := LinkTo(c.nullLink)], nullLink := Some(s))
  }

  ghost function KeysOf(s: Slot): iset<nat> {
    iset k: nat | InSlot(s, k)
  }

  ghost function Threaded(c: Coll, g: Hist, s: Slot): Hist
    requires s in c.m
  {
    var p := PtrAt(c.m, g.was, s);
    Hist(g.chains[p := [s] + (if p in g.chains then g.chains[p] else [])], g.was[s := p], g.D + KeysOf(s), g.orig)
  }

  ghost predicate CanLink(c: Coll, g: Hist, s: Slot) {
    && Leaf(c.m, s) && s !in g.was && !c.m[s].Link?
    && (c.m[s].Val? ==> c.m[s].p in c.h && c.h[c.m[s].p].refs > 0 && c.m[s].p != NULL)
  }

  lemma LinkContent(c: Coll, g: Hist, s: Slot)
    requires Shape(c.m) && Content(c, g) && CanLink(c, g, s)
    ensures Content(LinkLeaf(c, s), Threaded(c, g, s))
  {
    var c', g' := LinkLeaf(c, s), Threaded(c, g, s);
    forall t, k | Leaf(c'.m, t) && InSlot(t, k)
      ensures (t in g'.was <==> k in g'.D) && g'.orig(k) == PtrAt(c'.m, g'.was, t)
    {
      assert Leaf(c.m, t);
      if t != s && InSlot(s, k) {
        LeavesDisjoint(c.m, s, t, k);
      }
    }
  }

  lemma LinkLeaves(c: Coll, g: Hist, s: Slot)
    requires Leaves(c, g) && CanLink(c, g, s)
    ensures Leaves(LinkLeaf(c, s), Threaded(c, g, s))
  {
  }

  lemma LinkShape(m: Mem, s: Slot, t: Tree)
    requires Shape(m) && Leaf(m, s) && !t.Forest?
    ensures Shape(m[s := t])
  {
  }

  lemma ChainCons(m: Mem, was: map<Slot, Ptr>, ch: seq<Slot>, p: Ptr, s: Slot)
    requires ChainOk(m, was, ch, p) && s in m && s !in was
    ensures ChainOk(m[s := Link(ch[0])], was[s := p], [s] + ch, p)
  {
    var m', ch' := m[s := Link(ch[0])], [s] + ch;
    assert forall i :: 1 <= i < |ch'| ==> ch'[i] == ch[i - 1];
    assert forall i :: 0 <= i < |ch| ==> ch[i] != s;
    forall i | 0 <= i < |ch'| - 1 ensures m'[ch'[i]] == Link(ch'[i + 1]) {
      if i > 0 {
        assert m[ch[i - 1]] == Link(ch[i]);
      }
    }
  }

  /** The list of the slot's own value grows at the front. */
  lemma LinkOwnChain(c: Coll, g: Hist, s: Slot)
    requires Chains(c, g) && Heads(c, g) && CanLink(c, g, s)
    ensures var c', g' := LinkLeaf(c, s), Threaded(c, g, s);
            var p := PtrAt(c.m, g.was, s);
            ChainOk(c'.m, g'.was, g'.chains[p], p)
  {
    hide ChainOk;
    var p := PtrAt(c.m, g.was, s);
    if p in g.chains {
      assert ChainOk(c.m, g.was, g.chains[p], p);
      ChainNonEmpty(c.m, g.was, g.chains[p], p);
      ChainCons(c.m, g.was, g.chains[p], p, s);
    } else {
      ChainNew(c.m, g.was, p, s);
    }
  }

  lemma ChainNonEmpty(m: Mem, was: map<Slot, Ptr>, ch: seq<Slot>, p: Ptr)
    requires ChainOk(m, was, ch, p)
    ensures |ch| > 0
  {
  }

  lemma ChainNew(m: Mem, was: map<Slot, Ptr>, p: Ptr, s: Slot)
    requires s in m
    ensures ChainOk(m[s := Null], was[s := p], [s] + [], p)
  {
    assert [s] + [] == [s];
  }

  lemma ChainKept(m: Mem, m': Mem, was: map<Slot, Ptr>, ch: seq<Slot>, p: Ptr)
    requires ChainOk(m, was, ch, p) && forall s :: s in was && s in m ==> s in m' && m'[s] == m[s]
    ensures ChainOk(m', was, ch, p)
  {
  }

  lemma LinkChains(c: Coll, g: Hist, s: Slot)
    requires Chains(c, g) && Heads(c, g) && CanLink(c, g, s)
    ensures Chains(LinkLeaf(c, s), Threaded(c, g, s))
  {
    hide Heads;
    var c', g' := LinkLeaf(c, s), Threaded(c, g, s);
    var p := PtrAt(c.m, g.was, s);
    LinkOwnChain(c, g, s);
    forall q | q in g'.chains && q != p ensures ChainOk(c'.m, g'.was, g'.chains[q], q) {
      assert ChainOk(c.m, g.was, g.chains[q], q);
      assert s !in g.chains[q];
    }
    forall t | t in g'.was ensures g'.was[t] in g'.chains && t in g'.chains[g'.was[t]] {
      if t != s {
        assert t in g.chains[g.was[t]];
      }
    }
  }

  lemma LinkHeads(c: Coll, g: Hist, s: Slot)
    requires Heads(c, g) && CanLink(c, g, s)
    ensures Heads(LinkLeaf(c, s), Threaded(c, g, s))
  {
  }

  lemma LinkValues(c: Coll, g: Hist, s: Slot)
    requires Values(c, g) && Heads(c, g) && Chains(c, g) && CanLink(c, g, s)
    ensures Values(LinkLeaf(c, s), Threaded(c, g, s))
  {
    var p := PtrAt(c.m, g.was, s);
    if p in g.chains {
      assert ChainOk(c.m, g.was, g.chains[p], p);
    }
  }

  lemma LinkCounts(c: Coll, g: Hist, s: Slot)
    requires Counts(c, g) && Heads(c, g) && Chains(c, g) && CanLink(c, g, s)
    ensures Counts(LinkLeaf(c, s), Threaded(c, g, s))
  {
    var c', g' := LinkLeaf(c, s), Threaded(c, g, s);
    var p := PtrAt(c.m, g.was, s);
    if p in g.chains {
      assert ChainOk(c.m, g.was, g.chains[p], p);
    }
    forall q | q in c'.h ensures 0 < c'.h[q].refs == |Holders(c'.m, q)| + if q in g'.chains then 1 else 0 {
      HoldersUpdate(c.m, s, c'.m[s], q);
    }
  }

  lemma LinkCollecting(c: Coll, g: Hist, s: Slot)
    requires Collecting(c, g) && Leaf(c.m, s) && s !in g.was
    ensures CanLink(c, g, s) && Collecting(LinkLeaf(c, s), Threaded(c, g, s))
  {
    hide Content, Chains, Values;
    assert CanLink(c, g, s);
    LinkContent(c, g, s);
    LinkLeaves(c, g, s);
    LinkChains(c, g, s);
    LinkHeads(c, g, s);
    LinkValues(c, g, s);
    LinkCounts(c, g, s);
    LinkShape(c.m, s, LinkLeaf(c, s).m[s]);
  }

  /* ------------------------------------------------------------ splitting a slot */

  function SplitLeaf(c: Coll, s: Slot): Coll
    requires s in c.m && (c.m[s].Val? ==> c.m[s].p in c.h)
  {
    c.(m := Split(c.m, s),
       h := if c.m[s].Val? then c.h[c.m[s].p := c.h[c.m[s].p].(refs := c.h[c.m[s].p].refs + 15)] else c.h)
  }

  lemma SplitContent(c: Coll, g: Hist, s: Slot)
    requires Shape(c.m) && Content(c, g) && Leaves(c, g) && Leaf(c.m, s) && s !in g.was && s.level < 4
    ensures Content(SplitLeaf(c, s), g)
  {
    hide Split;
    SplitAt(c.m, s);
    var c' := SplitLeaf(c, s);
    forall t, k | Leaf(c'.m, t) && InSlot(t, k)
      ensures (t in g.was <==> k in g.D) && g.orig(k) == PtrAt(c'.m, g.was, t)
    {
      if t in c.m {
        assert Leaf(c.m, t);
      } else {
        var j: nat :| j < 16 && t == Child(s, j);
        ChildInside(s, j, k);
        assert Leaf(c.m, s) && InSlot(s, k);
        assert t !in g.was;
      }
    }
  }

  lemma SplitLeaves(c: Coll, g: Hist, s: Slot)
    requires Leaves(c, g) && Heads(c, g) && Values(c, g)
    requires Shape(c.m) && Leaf(c.m, s) && s !in g.was && s.level < 4
    ensures Leaves(SplitLeaf(c, s), g) && Heads(SplitLeaf(c, s), g) && Values(SplitLeaf(c, s), g)
  {
    hide Split, Shape;
    SplitAt(c.m, s);
  }

  lemma SplitChains(c: Coll, g: Hist, s: Slot)
    requires Shape(c.m) && Leaf(c.m, s) && s !in g.was && s.level < 4
    requires Chains(c, g) && (c.m[s].Val? ==> c.m[s].p in c.h)
    ensures Chains(SplitLeaf(c, s), g)
  {
    hide Split, Shape, ChainOk;
    SplitAt(c.m, s);
    forall p | p in g.chains ensures ChainOk(SplitLeaf(c, s).m, g.was, g.chains[p], p) {
      ChainKept(c.m, SplitLeaf(c, s).m, g.was, g.chains[p], p);
    }
  }

  lemma SplitCounts(c: Coll, g: Hist, s: Slot)
    requires Leaves(c, g) && Counts(c, g) && Shape(c.m) && Leaf(c.m, s) && s.level < 4
    ensures Counts(SplitLeaf(c, s), g)
  {
    hide Split, Shape;
    forall q | q in SplitLeaf(c, s).h
      ensures |Holders(Split(c.m, s), q)| == |Holders(c.m, q)| + if c.m[s] == Val(q) then 15 else 0
    {
      HoldersSplit(c.m, s, q);
    }
  }

  lemma SplitCollecting(c: Coll, g: Hist, s: Slot)
    requires Collecting(c, g) && Leaf(c.m, s) && s !in g.was && s.level < 4
    ensures (c.m[s].Val? ==> c.m[s].p in c.h) && Collecting(SplitLeaf(c, s), g)
  {
    hide Content, Chains, Values, Heads, Counts, Shape;
    SplitContent(c, g, s);
    SplitLeaves(c, g, s);
    SplitChains(c, g, s);
    SplitCounts(c, g, s);
    SplitShape(c.m, s);
  }
}
