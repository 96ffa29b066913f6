/** What the reference counts, the link memo and the fact table mean while ownership is being
    completed, and what each pointer operation does to that meaning. */
module RefCounts {
  import opened Blocks
  import opened SetVectors
  import opened Pointers
  import opened Usets

  /* ------------------------------------------------------------ counting pointers */

  function Count(s: seq<Ptr>, p: Ptr): nat {
    if s == [] then 0 else Count(s[..|s| - 1], p) + (if s[|s| - 1] == p then 1 else 0)
  }

  lemma {:induction false} CountUpdate(s: seq<Ptr>, i: nat, q: Ptr, p: Ptr)
    requires i < |s|
    ensures Count(s[i := q], p) + (if s[i] == p then 1 else 0) == Count(s, p) + (if q == p then 1 else 0)
  {
    var n := |s| - 1;
    if i == n {
      assert s[i := q][..n] == s[..n];
    } else {
      assert s[i := q][..n] == s[..n][i := q];
      CountUpdate(s[..n], i, q, p);
    }
  }

  lemma CountSnoc(s: seq<Ptr>, q: Ptr, p: Ptr)
    ensures Count(s + [q], p) == Count(s, p) + (if q == p then 1 else 0)
  {
    assert (s + [q])[..|s|] == s;
  }

  lemma {:induction false} CountMember(s: seq<Ptr>, p: Ptr)
    ensures Count(s, p) > 0 <==> p in s
  {
    if s != [] {
      CountMember(s[..|s| - 1], p);
      assert s == s[..|s| - 1] + [s[|s| - 1]];
    }
  }

  lemma {:induction false} CountCons(q: Ptr, s: seq<Ptr>, p: Ptr)
    ensures Count([q] + s, p) == (if q == p then 1 else 0) + Count(s, p)
  {
    if s == [] {
      assert [q] + s == [] + [q];
      CountSnoc([], q, p);
    } else {
      var n := |s| - 1;
      CountCons(q, s[..n], p);
      assert ([q] + s)[..n + 1] == [q] + s[..n];
    }
  }

  /* ------------------------------------------------------------ the meaning of the counts */

  /** Every slot of the fact table is null or points to an allocated set. */
  ghost predicate Slots(h: Heap, fs: seq<Ptr>) {
    forall i :: 0 <= i < |fs| ==> fs[i] == NULL || fs[i] in h
  }

  /** A set is referenced once per fact slot, once per entry of `touched`, and once for each time
      it was promoted; nothing unreferenced is allocated. */
  ghost predicate Refs(h: Heap, fs: seq<Ptr>, touched: seq<Ptr>, gs: seq<Ptr>) {
    && (forall k :: 0 <= k < |gs| ==> gs[k] in h)
    && forall p :: p in h ==> 0 < h[p].refs == Count(fs, p) + Count(touched, p) + Count(gs, p)
  }

  /** The link of a set, while not null, is the union of that set with the units s. */
  ghost predicate Links(h: Heap, touched: seq<Ptr>, s: set<nat>)
    requires HeapOk(h)
  {
    && (forall p :: p in h && h[p].link != NULL ==>
          p in touched && h[p].link in h && Units(h, h[p].link) == Units(h, p) + s)
    && (forall k :: 0 <= k < |touched| ==> touched[k] in h && h[touched[k]].link != NULL)
    && (forall j, k :: 0 <= j < k < |touched| ==> touched[j] != touched[k])
  }

  /** Every set says "any of these units", and names at least one. */
  ghost predicate AllOr(h: Heap)
    requires HeapOk(h)
  {
    forall p :: p in h ==> h[p].op == Or && Units(h, p) != {}
  }

  ghost predicate Inner(h: Heap, table: set<Ptr>, fs: seq<Ptr>, touched: seq<Ptr>, gs: seq<Ptr>, s: set<nat>) {
    HeapOk(h) && table == h.Keys && AllOr(h) && Slots(h, fs) && Refs(h, fs, touched, gs) && Links(h, touched, s)
  }

  /** The units that own each fact, read off the fact table. */
  ghost function Owners(h: Heap, fs: seq<Ptr>): (r: seq<set<nat>>)
    requires HeapOk(h) && Slots(h, fs)
    ensures |r| == |fs| && forall i :: 0 <= i < |fs| ==> r[i] == Units(h, fs[i])
  {
    seq(|fs|, i requires 0 <= i < |fs| => Units(h, fs[i]))
  }

  /** All sets of h are still there, with the same elements and ids. */
  ghost predicate Grown(h: Heap, h': Heap) {
    forall p :: p in h ==> p in h' && SameExp(h'[p], h[p]) && h'[p].id == h[p].id
  }

  lemma GrownUnits(h: Heap, h': Heap, p: Ptr)
    requires HeapOk(h) && HeapOk(h') && Grown(h, h') && (p == NULL || p in h)
    ensures Units(h', p) == Units(h, p)
  {
  }

  lemma OwnersUpdate(h: Heap, fs: seq<Ptr>, h': Heap, id: nat, q: Ptr)
    requires HeapOk(h) && HeapOk(h') && Slots(h, fs) && Grown(h, h') && id < |fs| && q in h'
    ensures Slots(h', fs[id := q])
    ensures Owners(h', fs[id := q]) == Owners(h, fs)[id := Units(h', q)]
  {
    hide WF, Units, HeapOk;
    forall i | 0 <= i < |fs| && i != id ensures Units(h', fs[i]) == Units(h, fs[i]) {
      GrownUnits(h, h', fs[i]);
    }
  }

  /** Sets that did not change keep what their links mean. */
  lemma LinksKept(h: Heap, h': Heap, touched: seq<Ptr>, s: set<nat>)
    requires HeapOk(h) && HeapOk(h') && Links(h, touched, s) && Grown(h, h')
    requires forall p :: p in h' && h'[p].link != NULL ==> p in h
    requires forall p :: p in h ==> h'[p].link == h[p].link
    ensures Links(h', touched, s)
  {
    hide WF, Units, HeapOk;
    forall p | p in h && h[p].link != NULL && h[p].link in h ensures Units(h', h[p].link) == Units(h', p) + s {
      GrownUnits(h, h', p);
      GrownUnits(h, h', h[p].link);
    }
  }

  lemma {:induction false} CountBound(s: seq<Ptr>, p: Ptr)
    ensures Count(s, p) <= |s|
    ensures (forall i, j :: 0 <= i < j < |s| ==> s[i] != s[j]) ==> Count(s, p) <= 1
  {
    if s != [] {
      var n := |s| - 1;
      CountBound(s[..n], p);
      CountMember(s[..n], p);
    }
  }

  /** Counts stay small: one per slot of the table, and at most two more as long as no set is
      promoted twice. */
  lemma CountsFit(h: Heap, t: set<Ptr>, fs: seq<Ptr>, touched: seq<Ptr>, gs: seq<Ptr>, s: set<nat>, p: Ptr)
    requires Inner(h, t, fs, touched, gs, s) && p in h && forall i, j :: 0 <= i < j < |gs| ==> gs[i] != gs[j]
    ensures h[p].refs <= |fs| + 2
  {
    hide HeapOk, AllOr, Slots, Units;
    CountBound(fs, p);
    CountBound(touched, p);
    CountBound(gs, p);
  }

  /* ------------------------------------------------------------ the three ways to add the set */

  function Bumped(h: Heap, p: Ptr): Heap
    requires p in h
  {
    h[p := h[p].(refs := h[p].refs + 1)]
  }

  lemma BumpedOk(h: Heap, p: Ptr)
    requires HeapOk(h) && AllOr(h) && p in h
    ensures HeapOk(Bumped(h, p)) && AllOr(Bumped(h, p)) && Grown(h, Bumped(h, p)) && Bumped(h, p).Keys == h.Keys
  {
    hide WF, Members;
  }

  lemma RefsAssign(h: Heap, fs: seq<Ptr>, touched: seq<Ptr>, gs: seq<Ptr>, q: Ptr, id: nat)
    requires Refs(h, fs, touched, gs) && NULL !in h && q in h && id < |fs| && fs[id] == NULL
    ensures Refs(Bumped(h, q), fs[id := q], touched, gs)
  {
    forall p | p in h ensures Count(fs[id := q], p) == Count(fs, p) + (if p == q then 1 else 0) {
      CountUpdate(fs, id, q, p);
    }
  }

  /** The referenced fact had no owner: it gets the set itself. */
  lemma AssignSet(h: Heap, t: set<Ptr>, fs: seq<Ptr>, touched: seq<Ptr>, gs: seq<Ptr>, set_: Ptr, id: nat)
    requires set_ in h && HeapOk(h) && Inner(h, t, fs, touched, gs, Units(h, set_))
    requires id < |fs| && fs[id] == NULL
    ensures var h' := Bumped(h, set_);
            && Inner(h', t, fs[id := set_], touched, gs, Units(h, set_)) && Grown(h, h')
            && Owners(h', fs[id := set_]) == Owners(h, fs)[id := Owners(h, fs)[id] + Units(h, set_)]
  {
    hide WF, Members, Refs, Links, Grown;
    var h' := Bumped(h, set_);
    BumpedOk(h, set_);
    RefsAssign(h, fs, touched, gs, set_, id);
    LinksKept(h, h', touched, Units(h, set_));
    OwnersUpdate(h, fs, h', id, set_);
    GrownUnits(h, h', set_);
    assert Owners(h, fs)[id] == {};
    assert {} + Units(h, set_) == Units(h, set_);
  }

  function Lowered(h: Heap, p: Ptr): Heap
    requires p in h && h[p].refs > 0
  {
    h[p := h[p].(refs := h[p].refs - 1)]
  }

  lemma LoweredOk(h: Heap, p: Ptr)
    requires HeapOk(h) && AllOr(h) && p in h && h[p].refs > 0
    ensures HeapOk(Lowered(h, p)) && AllOr(Lowered(h, p)) && Grown(h, Lowered(h, p)) && Lowered(h, p).Keys == h.Keys
  {
    hide WF, Members;
  }

  lemma RefsFollow(h: Heap, fs: seq<Ptr>, touched: seq<Ptr>, gs: seq<Ptr>, id: nat, added: Ptr)
    requires Refs(h, fs, touched, gs) && id < |fs| && fs[id] in h && fs[id] in touched && added in h
    ensures Bumped(h, added)[fs[id]].refs > 1
    ensures Refs(Lowered(Bumped(h, added), fs[id]), fs[id := added], touched, gs)
  {
    var me := fs[id];
    CountMember(fs, me);
    CountMember(touched, me);
    forall p | p in h
      ensures Count(fs[id := added], p) + (if p == me then 1 else 0) == Count(fs, p) + (if p == added then 1 else 0)
    {
      CountUpdate(fs, id, added, p);
    }
  }

  /** The union is already known: the slot moves from the old set to the linked one. */
  lemma FollowLink(h: Heap, t: set<Ptr>, fs: seq<Ptr>, touched: seq<Ptr>, gs: seq<Ptr>, s: set<nat>, id: nat)
    requires Inner(h, t, fs, touched, gs, s)
    requires id < |fs| && fs[id] != NULL && h[fs[id]].link != NULL
    ensures var me, added := fs[id], h[fs[id]].link;
            && added in h && Bumped(h, added)[me].refs > 1
            && var h' := Lowered(Bumped(h, added), me);
            && Inner(h', t, fs[id := added], touched, gs, s) && Grown(h, h')
            && Owners(h', fs[id := added]) == Owners(h, fs)[id := Owners(h, fs)[id] + s]
  {
    hide WF, Members, Refs, Units;
    var me, added := fs[id], h[fs[id]].link;
    RefsFollow(h, fs, touched, gs, id, added);
    BumpedOk(h, added);
    LoweredOk(Bumped(h, added), me);
    var h' := Lowered(Bumped(h, added), me);
    LinksKept(h, h', touched, s);
    OwnersUpdate(h, fs, h', id, added);
    GrownUnits(h, h', added);
    assert Owners(h, fs)[id] == Units(h, me);
  }

  lemma RefsRememberAt(h: Heap, fs: seq<Ptr>, touched: seq<Ptr>, gs: seq<Ptr>, id: nat, h1: Heap, p: Ptr, q: Ptr)
    requires Refs(h, fs, touched, gs) && Slots(h, fs) && Referenced(h, h1, p) && id < |fs| && fs[id] in h
    requires p != NULL && (forall k :: 0 <= k < |touched| ==> touched[k] in h) && q in h1
    ensures 0 < h1[q].refs == Count(fs[id := p], q) + Count(touched + [fs[id]], q) + Count(gs, q)
  {
    CountUpdate(fs, id, p, q);
    CountSnoc(touched, fs[id], q);
    if q !in h {
      CountMember(fs, q);
      CountMember(touched, q);
      CountMember(gs, q);
    }
  }

  lemma RefsRemember(h: Heap, fs: seq<Ptr>, touched: seq<Ptr>, gs: seq<Ptr>, id: nat, h1: Heap, p: Ptr)
    requires Refs(h, fs, touched, gs) && Slots(h, fs) && Referenced(h, h1, p) && id < |fs| && fs[id] in h
    requires p != NULL && forall k :: 0 <= k < |touched| ==> touched[k] in h
    ensures fs[id] in h1
    ensures Refs(h1[fs[id] := h1[fs[id]].(link := p)], fs[id := p], touched + [fs[id]], gs)
  {
    assert fs[id] in h1;
    forall q | q in h1
      ensures 0 < h1[q].refs == Count(fs[id := p], q) + Count(touched + [fs[id]], q) + Count(gs, q)
    {
      RefsRememberAt(h, fs, touched, gs, id, h1, p, q);
    }
  }

  /** The heap with the union p remembered in the link of me. */
  function Remembered(h1: Heap, me: Ptr, p: Ptr): Heap
    requires me in h1
  {
    h1[me := h1[me].(link := p)]
  }

  lemma RememberHeap(h: Heap, h1: Heap, me: Ptr, p: Ptr)
    requires HeapOk(h1) && Referenced(h, h1, p) && SameRef(h, h1, p) && me in h
    ensures me in h1 && HeapOk(Remembered(h1, me, p)) && Grown(h, Remembered(h1, me, p))
    ensures Remembered(h1, me, p).Keys == h.Keys + {p}
  {
    hide WF;
    assert me in h1;
  }

  /** A set that is referenced once more is the same set. */
  ghost predicate SameRef(h: Heap, h1: Heap, p: Ptr) {
    p in h ==> p in h1 && SameExp(h1[p], h[p]) && h1[p].id == h[p].id
  }

  lemma LinksRemember(h: Heap, touched: seq<Ptr>, s: set<nat>, h1: Heap, me: Ptr, p: Ptr)
    requires HeapOk(h) && HeapOk(h1) && Links(h, touched, s) && Referenced(h, h1, p)
    requires me in h && h[me].link == NULL && Units(h1, p) == Units(h, me) + s
    ensures me in h1
    ensures var h' := Remembered(h1, me, p);
            HeapOk(h') && Grown(h, h') && h'.Keys == h.Keys + {p} && Links(h', touched + [me], s)
  {
    hide HeapOk, Units;
    assert SameRef(h, h1, p);
    RememberHeap(h, h1, me, p);
    NullFree(h1);
    var h' := Remembered(h1, me, p);
    assert me !in touched;
    forall k | 0 <= k < |touched| ensures touched[k] in h' && h'[touched[k]].link != NULL {
      assert touched[k] != me && touched[k] in h;
    }
    GrownUnits(h, h', me);
    SameCellUnits(h1, h', p);
    forall q | q in h' && h'[q].link != NULL && q != me
      ensures q in h && h'[q].link == h[q].link && h'[q].link in h' && Units(h', h'[q].link) == Units(h', q) + s
    {
      assert q in h;
      GrownUnits(h, h', q);
      GrownUnits(h, h', h[q].link);
    }
  }

  lemma SameCellUnits(h: Heap, h': Heap, p: Ptr)
    requires HeapOk(h) && HeapOk(h') && p in h && p in h' && h'[p].set_ == h[p].set_
    ensures Units(h', p) == Units(h, p)
  {
  }

  lemma RememberOr(h: Heap, h': Heap, p: Ptr)
    requires HeapOk(h) && HeapOk(h') && AllOr(h) && Grown(h, h') && h'.Keys == h.Keys + {p}
    requires p in h' && h'[p].op == Or && Units(h', p) != {}
    ensures AllOr(h')
  {
    hide HeapOk, Units;
    forall q | q in h' ensures h'[q].op == Or && Units(h', q) != {} {
      if q != p {
        GrownUnits(h, h', q);
      }
    }
  }

  /** A new union p has been computed: it is remembered in the link of the old set, whose slot
      reference moves to `touched`. */
  lemma RememberUnion(h: Heap, t: set<Ptr>, fs: seq<Ptr>, touched: seq<Ptr>, gs: seq<Ptr>, s: set<nat>, id: nat, h1: Heap, p: Ptr)
    requires Inner(h, t, fs, touched, gs, s) && HeapOk(h1) && Referenced(h, h1, p)
    requires id < |fs| && fs[id] != NULL && h[fs[id]].link == NULL
    requires h1[p].op == Or && Units(h1, p) == Units(h, fs[id]) + s
    ensures fs[id] in h1
    ensures var me := fs[id];
            var h' := h1[me := h1[me].(link := p)];
            && Inner(h', t + {p}, fs[id := p], touched + [me], gs, s) && Grown(h, h')
            && Owners(h', fs[id := p]) == Owners(h, fs)[id := Owners(h, fs)[id] + s]
  {
    hide HeapOk, Refs, Units, Links, AllOr, Grown;
    var me := fs[id];
    LinkedSlots(h, touched, s, fs, id);
    NullFree(h1);
    RefsRemember(h, fs, touched, gs, id, h1, p);
    LinksRemember(h, touched, s, h1, me, p);
    var h' := Remembered(h1, me, p);
    OwnersUpdate(h, fs, h', id, p);
    SameCellUnits(h1, h', p);
    assert Owners(h, fs)[id] == Units(h, me);
    UnionNotEmpty(h, me, s, Units(h1, p));
    RememberOr(h, h', p);
  }

  lemma LinkedSlots(h: Heap, touched: seq<Ptr>, s: set<nat>, fs: seq<Ptr>, id: nat)
    requires HeapOk(h) && Links(h, touched, s) && Slots(h, fs) && id < |fs| && fs[id] != NULL
    ensures fs[id] in h && forall k :: 0 <= k < |touched| ==> touched[k] in h
  {
    hide WF;
  }

  lemma NullFree(h: Heap)
    requires HeapOk(h)
    ensures NULL !in h
  {
  }

  lemma UnionNotEmpty(h: Heap, me: Ptr, s: set<nat>, u: set<nat>)
    requires HeapOk(h) && AllOr(h) && me in h && u == Units(h, me) + s
    ensures u != {}
  {
    hide HeapOk, Units;
    var x :| x in Units(h, me);
  }

  /* ------------------------------------------------------------ resetting the links */

  /** As Inner, once the links are being cleared and no longer mean anything. */
  ghost predicate Forgotten(h: Heap, table: set<Ptr>, fs: seq<Ptr>, touched: seq<Ptr>, gs: seq<Ptr>) {
    && HeapOk(h) && table == h.Keys && AllOr(h) && Slots(h, fs) && Refs(h, fs, touched, gs)
    && (forall p :: p in h ==> (h[p].link != NULL <==> p in touched))
    && (forall k :: 0 <= k < |touched| ==> touched[k] in h)
    && (forall j, k :: 0 <= j < k < |touched| ==> touched[j] != touched[k])
  }

  lemma InnerForgotten(h: Heap, t: set<Ptr>, fs: seq<Ptr>, touched: seq<Ptr>, gs: seq<Ptr>, s: set<nat>)
    requires Inner(h, t, fs, touched, gs, s)
    ensures Forgotten(h, t, fs, touched, gs)
  {
    hide WF, Refs, Units;
  }

  lemma InnerStarts(h: Heap, t: set<Ptr>, fs: seq<Ptr>, gs: seq<Ptr>, s: set<nat>)
    requires Forgotten(h, t, fs, [], gs)
    ensures Inner(h, t, fs, [], gs, s)
  {
    hide WF, Refs, Units;
  }

  function Cleared(h: Heap, p: Ptr): Heap
    requires p in h
  {
    h[p := h[p].(link := NULL)]
  }

  lemma RefsForget(h: Heap, fs: seq<Ptr>, touched: seq<Ptr>, gs: seq<Ptr>)
    requires Refs(h, fs, touched, gs) && touched != [] && touched[0] in h && touched[0] !in touched[1..]
    ensures var p := touched[0];
            && h[p].refs > 0 && (h[p].refs == 1 ==> p !in gs && p !in fs)
            && (h[p].refs > 1 ==> Refs(Lowered(Cleared(h, p), p), fs, touched[1..], gs))
            && (h[p].refs == 1 ==> Refs(Cleared(h, p) - {p}, fs, touched[1..], gs))
  {
    var p := touched[0];
    assert touched == [p] + touched[1..];
    forall q ensures Count(touched, q) == (if q == p then 1 else 0) + Count(touched[1..], q) {
      CountCons(p, touched[1..], q);
    }
    CountMember(fs, p);
    CountMember(touched[1..], p);
    CountMember(gs, p);
  }

  /** Clearing the first link drops the reference `touched` held; the set goes when that was the
      last one. */
  lemma ForgetLink(h: Heap, t: set<Ptr>, fs: seq<Ptr>, touched: seq<Ptr>, gs: seq<Ptr>)
    requires Forgotten(h, t, fs, touched, gs) && touched != []
    ensures var p := touched[0];
            && p in h && h[p].refs > 0 && (h[p].refs == 1 ==> p !in gs)
            && (h[p].refs > 1 ==> Forgotten(Lowered(Cleared(h, p), p), t, fs, touched[1..], gs))
            && (h[p].refs == 1 ==> Forgotten(Cleared(h, p) - {p}, t - {p}, fs, touched[1..], gs))
  {
    hide WF, Refs, AllOr, HeapOk;
    var p := touched[0];
    assert touched == [p] + touched[1..];
    assert p !in touched[1..];
    RefsForget(h, fs, touched, gs);
    assert forall k :: 0 <= k < |touched[1..]| ==> touched[1..][k] == touched[k + 1];
    ClearedOk(h, p);
  }

  lemma ClearedOk(h: Heap, p: Ptr)
    requires HeapOk(h) && AllOr(h) && p in h
    ensures HeapOk(Cleared(h, p)) && AllOr(Cleared(h, p)) && HeapOk(Cleared(h, p) - {p}) && AllOr(Cleared(h, p) - {p})
    ensures h[p].refs > 0 ==> HeapOk(Lowered(Cleared(h, p), p)) && AllOr(Lowered(Cleared(h, p), p))
  {
    hide WF, Members;
  }

  /** What survives keeps its units. */
  lemma OwnersKept(h: Heap, h': Heap, fs: seq<Ptr>)
    requires HeapOk(h) && HeapOk(h') && Slots(h, fs) && Slots(h', fs)
    requires forall p :: p in h && p in h' ==> h'[p].set_ == h[p].set_
    ensures Owners(h', fs) == Owners(h, fs)
  {
    hide WF;
    assert forall i :: 0 <= i < |fs| ==> Units(h', fs[i]) == Units(h, fs[i]);
  }
}
