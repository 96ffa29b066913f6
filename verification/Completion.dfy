/** Completing ownership. */
module Completion {
  // One backwards pass over the facts gives every fact the units of all facts that refer to it,
  // directly or through others.
  import opened SetVectors
  import opened Pointers
  import opened Usets
  import opened RefCounts
  import opened Reachability

  /** Between two facts: valid sets, exact reference counts, and no link in use. */
  ghost predicate Settled(u: Usets, fs: seq<Ptr>)
    reads u
  {
    u.Valid() && Forgotten(u.heap, u.table, fs, [], u.given)
  }

  /** Add the units s to the facts rs, one after the other. */
  ghost function Spread(o: seq<set<nat>>, s: set<nat>, rs: seq<nat>): (r: seq<set<nat>>)
    requires forall k :: 0 <= k < |rs| ==> rs[k] < |o|
    ensures |r| == |o|
  {
    if rs == [] then o
    else
      var n := |rs| - 1;
      var p := Spread(o, s, rs[..n]);
      p[rs[n] := p[rs[n]] + s]
  }

  lemma {:induction false} SpreadAt(o: seq<set<nat>>, s: set<nat>, rs: seq<nat>, i: nat)
    requires (forall k :: 0 <= k < |rs| ==> rs[k] < |o|) && i < |o|
    ensures Spread(o, s, rs)[i] == if i in rs then o[i] + s else o[i]
  {
    if rs != [] {
      var n := |rs| - 1;
      SpreadAt(o, s, rs[..n], i);
      assert rs == rs[..n] + [rs[n]];
    }
  }

  /** One reference has been dealt with: the owners of fact id have gained the units s. */
  ghost predicate Advanced(h: Heap, fs: seq<Ptr>, h': Heap, fs': seq<Ptr>, s: set<nat>, id: nat) {
    && HeapOk(h) && HeapOk(h') && Slots(h, fs) && Slots(h', fs') && id < |fs| == |fs'|
    && Grown(h, h') && fs' == fs[id := fs'[id]]
    && Owners(h', fs') == Owners(h, fs)[id := Owners(h, fs)[id] + s]
  }

  lemma InnerFacts(h: Heap, t: set<Ptr>, fs: seq<Ptr>, touched: seq<Ptr>, gs: seq<Ptr>, s: set<nat>)
    requires Inner(h, t, fs, touched, gs, s)
    ensures HeapOk(h) && t == h.Keys && Slots(h, fs) && forall p :: p in h ==> h[p].op == Or
  {
    hide WF, Refs, Links, Units;
  }

  /** The fact had no owner so far: it gets the set itself. */
  method TakeSet(u: Usets, facts: array<Ptr>, set_: Ptr, id: nat, ghost touched: seq<Ptr>)
    requires u.Valid() && HeapOk(u.heap) && set_ in u.heap && id < facts.Length && facts[id] == NULL
    requires Inner(u.heap, u.table, facts[..], touched, u.given, Units(u.heap, set_))
    modifies u, facts
    ensures u.Valid() && u.given == old(u.given) && Inner(u.heap, u.table, facts[..], touched, u.given, Units(old(u.heap), set_))
    ensures Advanced(old(u.heap), old(facts[..]), u.heap, facts[..], Units(old(u.heap), set_), id)
  {
    hide Inner, Good, HeapOk, Units, Grown;
    ghost var h, t, fs := u.heap, u.table, facts[..];
    InnerFacts(h, t, fs, touched, u.given, Units(h, set_));
    AssignSet(h, t, fs, touched, u.given, set_, id);
    u.Use(set_);
    facts[id] := set_;
    assert facts[..] == fs[id := set_];
    InnerFacts(u.heap, u.table, facts[..], touched, u.given, Units(h, set_));
  }

  /** This union is already known: the slot moves to the linked set. */
  method TakeLinked(u: Usets, facts: array<Ptr>, id: nat, ghost touched: seq<Ptr>, ghost s: set<nat>)
    requires u.Valid() && Inner(u.heap, u.table, facts[..], touched, u.given, s) && id < facts.Length
    requires facts[id] != NULL && facts[id] in u.heap && u.heap[facts[id]].link != NULL
    modifies u, facts
    ensures u.Valid() && u.given == old(u.given) && Inner(u.heap, u.table, facts[..], touched, u.given, s)
    ensures Advanced(old(u.heap), old(facts[..]), u.heap, facts[..], s, id)
  {
    hide Inner, Good, HeapOk, Units, Grown;
    ghost var h, t, fs := u.heap, u.table, facts[..];
    InnerFacts(h, t, fs, touched, u.given, s);
    var me := facts[id];
    var added := u.heap[me].link;
    FollowLink(h, t, fs, touched, u.given, s, id);
    u.Use(added);
    u.Drop(me);
    facts[id] := added;
    assert facts[..] == fs[id := added];
    InnerFacts(u.heap, u.table, facts[..], touched, u.given, s);
  }

  /** Compute the union and remember it in the link of the old set. */
  method TakeUnion(u: Usets, facts: array<Ptr>, set_: Ptr, id: nat, touched: seq<Ptr>) returns (touched': seq<Ptr>)
    requires u.Valid() && HeapOk(u.heap) && set_ in u.heap && id < facts.Length
    requires Inner(u.heap, u.table, facts[..], touched, u.given, Units(u.heap, set_))
    requires facts[id] != NULL && facts[id] in u.heap && u.heap[facts[id]].link == NULL
    modifies u, facts
    ensures u.Valid() && u.given == old(u.given) && Inner(u.heap, u.table, facts[..], touched', u.given, Units(old(u.heap), set_))
    ensures Advanced(old(u.heap), old(facts[..]), u.heap, facts[..], Units(old(u.heap), set_), id)
  {
    hide Inner, Good, HeapOk, Units, Grown;
    ghost var h, t, fs, s := u.heap, u.table, facts[..], Units(u.heap, set_);
    InnerFacts(h, t, fs, touched, u.given, s);
    var me := facts[id];
    var p := MergeUnits(u, me, set_);
    RememberUnion(h, t, fs, touched, u.given, s, id, u.heap, p);
    u.SetLink(me, p);
    touched' := touched + [me];
    facts[id] := p;
    assert facts[..] == fs[id := p];
    InnerFacts(u.heap, u.table, facts[..], touched', u.given, s);
  }

  /** Add the set of the current fact to what is known about one fact it refers to. */
  method AddToReference(u: Usets, facts: array<Ptr>, set_: Ptr, id: nat, touched: seq<Ptr>) returns (touched': seq<Ptr>)
    requires u.Valid() && HeapOk(u.heap) && set_ in u.heap && id < facts.Length
    requires Inner(u.heap, u.table, facts[..], touched, u.given, Units(u.heap, set_))
    modifies u, facts
    ensures u.Valid() && u.given == old(u.given) && Inner(u.heap, u.table, facts[..], touched', u.given, Units(old(u.heap), set_))
    ensures Advanced(old(u.heap), old(facts[..]), u.heap, facts[..], Units(old(u.heap), set_), id)
  {
    hide Inner, Good, HeapOk, Units, Advanced;
    ghost var s := Units(u.heap, set_);
    InnerFacts(u.heap, u.table, facts[..], touched, u.given, s);
    touched' := touched;
    if facts[id] == NULL {
      TakeSet(u, facts, set_, id, touched);
    } else if u.heap[facts[id]].link != NULL {
      TakeLinked(u, facts, id, touched, s);
    } else {
      touched' := TakeUnion(u, facts, set_, id, touched);
    }
  }

  /** Usets.Merge, in terms of units. */
  method MergeUnits(u: Usets, left: Ptr, right: Ptr) returns (p: Ptr)
    requires u.Valid() && left in u.table && right in u.table && left in u.heap && right in u.heap
    requires u.heap[left].op == Or && u.heap[right].op == Or && HeapOk(u.heap)
    modifies u
    ensures u.Valid() && HeapOk(u.heap) && u.given == old(u.given)
    ensures Referenced(old(u.heap), u.heap, p) && u.table == old(u.table) + {p} && u.heap[p].op == Or
    ensures Units(u.heap, p) == Units(old(u.heap), left) + Units(old(u.heap), right)
  {
    hide Good;
    p := u.Merge(left, right);
    GoodFacts(u.heap, u.table, u.firstId, u.given, u.brk);
  }

  /* ------------------------------------------------------------ one fact */

  /** Resetting links frees only sets that nothing refers to any more. */
  ghost predicate Pruned(h: Heap, h': Heap) {
    forall p :: p in h' ==> p in h && SameExp(h'[p], h[p])
  }

  lemma ForgottenFacts(h: Heap, t: set<Ptr>, fs: seq<Ptr>, touched: seq<Ptr>, gs: seq<Ptr>)
    requires Forgotten(h, t, fs, touched, gs)
    ensures HeapOk(h) && t == h.Keys && Slots(h, fs) && AllOr(h) && NULL !in h
  {
    hide WF, Refs, AllOr;
  }

  method ResetOne(u: Usets, touched: seq<Ptr>, ghost fs: seq<Ptr>)
    requires u.Valid() && Forgotten(u.heap, u.table, fs, touched, u.given) && touched != []
    modifies u
    ensures u.Valid() && u.given == old(u.given)
    ensures Forgotten(u.heap, u.table, fs, touched[1..], u.given) && Pruned(old(u.heap), u.heap)
  {
    hide Good, Forgotten, HeapOk, Slots, AllOr;
    var p := touched[0];
    ForgetLink(u.heap, u.table, fs, touched, u.given);
    ForgottenFacts(u.heap, u.table, fs, touched, u.given);
    u.SetLink(p, NULL);
    u.Drop(p);
  }

  /** Reset the link fields and give up the references `touched` held. */
  method ResetLinks(u: Usets, touched: seq<Ptr>, ghost fs: seq<Ptr>)
    requires u.Valid() && Forgotten(u.heap, u.table, fs, touched, u.given)
    modifies u
    ensures Settled(u, fs) && u.given == old(u.given) && Pruned(old(u.heap), u.heap)
  {
    hide Good, Forgotten;
    var k := 0;
    while k < |touched|
      invariant k <= |touched|
      invariant u.Valid() && u.given == old(u.given)
      invariant Forgotten(u.heap, u.table, fs, touched[k..], u.given) && Pruned(old(u.heap), u.heap)
    {
      assert touched[k..][1..] == touched[k + 1..];
      ResetOne(u, touched[k..], fs);
      k := k + 1;
    }
    assert touched[k..] == [];
  }

  lemma ForgottenPromote(h: Heap, t: set<Ptr>, fs: seq<Ptr>, gs: seq<Ptr>, p: Ptr, id: Option<nat>)
    requires Forgotten(h, t, fs, [], gs) && p in h
    ensures Forgotten(h[p := h[p].(id := id, refs := h[p].refs + 1)], t, fs, [], gs + [p])
  {
    hide WF, Members;
    var h' := h[p := h[p].(id := id, refs := h[p].refs + 1)];
    assert h'.Keys == h.Keys;
    forall q | q in h ensures Count(gs + [p], q) == Count(gs, q) + if q == p then 1 else 0 {
      CountSnoc(gs, p, q);
    }
  }

  /** The set has been promoted, now or before. */
  ghost predicate GivenMore(gs: seq<Ptr>, gs': seq<Ptr>, p: Ptr) {
    (gs' == gs || gs' == gs + [p]) && p in gs'
  }

  /** Promote the set of a fact. */
  method PromoteOwner(u: Usets, set_: Ptr, ghost fs: seq<Ptr>)
    requires Settled(u, fs) && set_ in u.heap
    modifies u
    ensures Settled(u, fs) && GivenMore(old(u.given), u.given, set_)
    ensures u.heap.Keys == old(u.heap.Keys)
    ensures forall p :: p in u.heap ==> SameExp(u.heap[p], old(u.heap)[p])
  {
    hide Good, Forgotten, HeapOk, Slots, AllOr;
    ForgottenFacts(u.heap, u.table, fs, [], u.given);
    if u.heap[set_].id == None {
      ForgottenPromote(u.heap, u.table, fs, u.given, set_, AsId(u.nextId));
    }
    u.Promote(set_);
  }

  /** The whole effect of one fact on the table of owners. */
  ghost predicate FactDone(h: Heap, fs: seq<Ptr>, gs: seq<Ptr>, h': Heap, fs': seq<Ptr>, gs': seq<Ptr>, id: nat, rs: seq<nat>) {
    && HeapOk(h) && HeapOk(h') && Slots(h, fs) && Slots(h', fs') && id < |fs| == |fs'|
    && (forall k :: 0 <= k < |rs| ==> rs[k] < |fs|)
    && Owners(h', fs') == Spread(Owners(h, fs), Owners(h, fs)[id], rs)
    && (forall i :: 0 <= i < |fs| && i !in rs ==> fs'[i] == fs[i])
    && if fs[id] == NULL then gs' == gs else GivenMore(gs, gs', fs[id])
  }

  /** Add the set of fact id to all facts it refers to. */
  method SpreadSet(u: Usets, facts: array<Ptr>, set_: Ptr, rs: seq<nat>) returns (touched: seq<Ptr>)
    requires u.Valid() && HeapOk(u.heap) && set_ in u.heap
    requires Inner(u.heap, u.table, facts[..], [], u.given, Units(u.heap, set_)) && Slots(u.heap, facts[..])
    requires forall k :: 0 <= k < |rs| ==> rs[k] < facts.Length
    modifies u, facts
    ensures u.Valid() && Inner(u.heap, u.table, facts[..], touched, u.given, Units(old(u.heap), set_))
    ensures HeapOk(u.heap) && Slots(u.heap, facts[..])
    ensures Grown(old(u.heap), u.heap) && u.given == old(u.given)
    ensures Owners(u.heap, facts[..]) == Spread(Owners(old(u.heap), old(facts[..])), Units(old(u.heap), set_), rs)
    ensures forall i :: 0 <= i < facts.Length && i !in rs ==> facts[i] == old(facts[i])
  {
    hide Inner, Good, HeapOk, Units, Slots;
    ghost var h, fs, s := u.heap, facts[..], Units(u.heap, set_);
    touched := [];
    var j := 0;
    assert rs[..0] == [];
    while j < |rs|
      invariant j <= |rs| && u.Valid() && HeapOk(u.heap) && set_ in u.heap && Units(u.heap, set_) == s
      invariant Inner(u.heap, u.table, facts[..], touched, u.given, s) && Slots(u.heap, facts[..])
      invariant Grown(h, u.heap) && u.given == old(u.given)
      invariant Owners(u.heap, facts[..]) == Spread(Owners(h, fs), s, rs[..j])
      invariant forall i :: 0 <= i < facts.Length && i !in rs[..j] ==> facts[i] == fs[i]
    {
      assert rs[..j + 1][..j] == rs[..j] && rs[..j + 1] == rs[..j] + [rs[j]];
      ghost var h1 := u.heap;
      touched := AddToReference(u, facts, set_, rs[j], touched);
      GrownUnits(h1, u.heap, set_);
      j := j + 1;
    }
    assert rs[..|rs|] == rs;
  }

  method CompleteFact(u: Usets, facts: array<Ptr>, id: nat, rs: seq<nat>)
    requires Settled(u, facts[..]) && id < facts.Length && forall k :: 0 <= k < |rs| ==> rs[k] < facts.Length
    modifies u, facts
    ensures Settled(u, facts[..]) && FactDone(old(u.heap), old(facts[..]), old(u.given), u.heap, facts[..], u.given, id, rs)
  {
    hide Forgotten, Good, Units, Inner, HeapOk, Slots, AllOr;
    ghost var h, fs := u.heap, facts[..];
    ForgottenFacts(h, u.table, fs, [], u.given);
    var set_ := facts[id];
    if set_ == NULL {
      NullOwnsNothing(h, fs, id);
      SpreadNothing(Owners(h, fs), rs);
    } else {
      SlotAllocated(h, fs, id);
      PromoteOwner(u, set_, fs);
      ghost var h1, s := u.heap, Owners(h, fs)[id];
      ForgottenFacts(h1, u.table, fs, [], u.given);
      OwnersKept(h, h1, fs);
      InnerStarts(h1, u.table, fs, u.given, s);
      var touched := SpreadSet(u, facts, set_, rs);
      ghost var h2 := u.heap;
      InnerForgotten(h2, u.table, facts[..], touched, u.given, s);
      ForgottenFacts(h2, u.table, facts[..], touched, u.given);
      ResetLinks(u, touched, facts[..]);
      ForgottenFacts(u.heap, u.table, facts[..], [], u.given);
      OwnersKept(h2, u.heap, facts[..]);
    }
  }

  lemma SlotAllocated(h: Heap, fs: seq<Ptr>, id: nat)
    requires Slots(h, fs) && id < |fs| && fs[id] != NULL
    ensures fs[id] in h
  {
  }

  lemma NullOwnsNothing(h: Heap, fs: seq<Ptr>, id: nat)
    requires HeapOk(h) && Slots(h, fs) && id < |fs| && fs[id] == NULL
    ensures Owners(h, fs)[id] == {}
  {
  }

  lemma {:induction false} SpreadNothing(o: seq<set<nat>>, rs: seq<nat>)
    requires forall k :: 0 <= k < |rs| ==> rs[k] < |o|
    ensures Spread(o, {}, rs) == o
  {
    if rs != [] {
      SpreadNothing(o, rs[..|rs| - 1]);
      assert o[rs[|rs| - 1]] + {} == o[rs[|rs| - 1]];
    }
  }

  /* ------------------------------------------------------------ the backwards pass */

  /** The owners known when the facts from k up have been visited. */
  ghost predicate OwnersAre(o: seq<set<nat>>, g: Graph, raw: seq<set<nat>>, k: nat) {
    |o| == |raw| && forall i, u :: 0 <= i < |o| ==> (u in o[i] <==> Owns(g, raw, k, i, u))
  }

  lemma OwnersVisit(o: seq<set<nat>>, o': seq<set<nat>>, g: Graph, raw: seq<set<nat>>, k: nat)
    requires Backward(g) && k < |raw| && OwnersAre(o, g, raw, k + 1)
    requires if k in g then
               (forall j :: 0 <= j < |g[k]| ==> g[k][j] < |o|) && o' == Spread(o, o[k], g[k])
             else o' == o
    ensures OwnersAre(o', g, raw, k)
  {
    forall i, u | 0 <= i < |o| ensures u in o'[i] <==> Owns(g, raw, k, i, u) {
      OwnsVisit(g, raw, k, i, u);
      if k in g {
        SpreadAt(o, o[k], g[k], i);
      }
    }
  }

  /** The sets promoted so far are exactly the owners of the visited facts of the database, and no
      fact has led to two promotions. */
  ghost predicate PromotedAre(gs: seq<Ptr>, fs: seq<Ptr>, g: Graph, k: nat) {
    && k <= |fs| && |gs| <= |fs| - k
    && (forall i :: k <= i < |fs| && i in g && fs[i] != NULL ==> fs[i] in gs)
    && (forall p :: p in gs ==> p != NULL && exists i :: k <= i < |fs| && i in g && fs[i] == p)
  }

  lemma PromotedVisit(h: Heap, fs: seq<Ptr>, gs: seq<Ptr>, h': Heap, fs': seq<Ptr>, gs': seq<Ptr>, g: Graph, k: nat)
    requires Backward(g) && k in g && k < |fs| && PromotedAre(gs, fs, g, k + 1)
    requires FactDone(h, fs, gs, h', fs', gs', k, g[k])
    ensures PromotedAre(gs', fs', g, k)
  {
    hide HeapOk, Slots, Owners, Spread;
    forall i | k <= i < |fs| ensures fs'[i] == fs[i] {
      assert i !in g[k];
    }
    forall p | p in gs' ensures p != NULL && exists i :: k <= i < |fs'| && i in g && fs'[i] == p {
      if p == fs[k] {
        assert fs'[k] == p;
      } else {
        var i :| k + 1 <= i < |fs| && i in g && fs[i] == p;
        assert fs'[i] == p;
      }
    }
  }

  /** Visit all facts from the largest id down.  The graph holds the facts of the database and
      their references; `raw` is what the table says before. */
  method CompleteOwnership(u: Usets, facts: array<Ptr>, g: Graph, ghost raw: seq<set<nat>>)
    requires Settled(u, facts[..]) && Backward(g) && HeapOk(u.heap) && Slots(u.heap, facts[..])
    requires raw == Owners(u.heap, facts[..])
    requires u.given == []
    modifies u, facts
    ensures Settled(u, facts[..]) && HeapOk(u.heap) && Slots(u.heap, facts[..])
    ensures forall i, v :: 0 <= i < facts.Length ==>
              (v in Owners(u.heap, facts[..])[i] <==> TransitivelyOwns(g, raw, i, v))
    ensures PromotedAre(u.given, facts[..], g, 0)
  {
    hide Forgotten, Good, Units, HeapOk, Slots, AllOr, OwnersAre, PromotedAre, FactDone;
    OwnersStart(g, raw);
    PromotedStart(facts[..], g);
    var k := facts.Length;
    while k > 0
      invariant 0 <= k <= facts.Length && Settled(u, facts[..]) && HeapOk(u.heap) && Slots(u.heap, facts[..])
      invariant OwnersAre(Owners(u.heap, facts[..]), g, raw, k)
      invariant PromotedAre(u.given, facts[..], g, k)
    {
      k := k - 1;
      VisitFact(u, facts, g, raw, k);
    }
    OwnersDone(Owners(u.heap, facts[..]), g, raw);
  }

  method VisitFact(u: Usets, facts: array<Ptr>, g: Graph, ghost raw: seq<set<nat>>, k: nat)
    requires Settled(u, facts[..]) && Backward(g) && HeapOk(u.heap) && Slots(u.heap, facts[..])
    requires k < facts.Length && OwnersAre(Owners(u.heap, facts[..]), g, raw, k + 1)
    requires PromotedAre(u.given, facts[..], g, k + 1)
    modifies u, facts
    ensures Settled(u, facts[..]) && HeapOk(u.heap) && Slots(u.heap, facts[..])
    ensures OwnersAre(Owners(u.heap, facts[..]), g, raw, k)
    ensures PromotedAre(u.given, facts[..], g, k)
  {
    hide Forgotten, Good, Units, HeapOk, Slots, AllOr, PromotedAre;
    ghost var h, fs, gs := u.heap, facts[..], u.given;
    if k in g {
      CompleteFact(u, facts, k, g[k]);
      ForgottenFacts(u.heap, u.table, facts[..], [], u.given);
      PromotedVisit(h, fs, gs, u.heap, facts[..], u.given, g, k);
    } else {
      PromotedSkip(gs, fs, g, k);
    }
    OwnersVisit(Owners(h, fs), Owners(u.heap, facts[..]), g, raw, k);
  }

  lemma OwnersStart(g: Graph, raw: seq<set<nat>>)
    ensures OwnersAre(raw, g, raw, |raw|)
  {
    forall i, v | 0 <= i < |raw| ensures v in raw[i] <==> Owns(g, raw, |raw|, i, v) {
      OwnsNone(g, raw, i, v);
    }
  }

  lemma PromotedStart(fs: seq<Ptr>, g: Graph)
    ensures PromotedAre([], fs, g, |fs|)
  {
  }

  lemma OwnersDone(o: seq<set<nat>>, g: Graph, raw: seq<set<nat>>)
    requires Backward(g) && OwnersAre(o, g, raw, 0)
    ensures forall i, v :: 0 <= i < |o| ==> (v in o[i] <==> TransitivelyOwns(g, raw, i, v))
  {
    forall i, v | 0 <= i < |o| ensures v in o[i] <==> TransitivelyOwns(g, raw, i, v) {
      OwnsAll(g, raw, i, v);
    }
  }

  lemma PromotedSkip(gs: seq<Ptr>, fs: seq<Ptr>, g: Graph, k: nat)
    requires PromotedAre(gs, fs, g, k + 1) && k !in g
    ensures PromotedAre(gs, fs, g, k)
  {
    forall p | p in gs ensures exists i :: k <= i < |fs| && i in g && fs[i] == p {
      var i :| k + 1 <= i < |fs| && i in g && fs[i] == p;
    }
  }

  /** When every owned fact is in the database, the sets that remain are exactly the promoted
      ones: each describes the owners of at least one fact.  They have ids unless these ran out. */
  lemma OnlyPromotedRemain(u: Usets, fs: seq<Ptr>, g: Graph, p: Ptr)
    requires Settled(u, fs) && PromotedAre(u.given, fs, g, 0) && p in u.heap
    requires forall i :: 0 <= i < |fs| && fs[i] != NULL ==> i in g
    ensures p in u.given && (u.firstId + u.promoted <= INVALID_USET ==> u.heap[p].id.Some?)
  {
    hide HeapOk, AllOr, LastId, Unique;
    CountMember(fs, p);
    CountMember(u.given, p);
    ForgottenFacts(u.heap, u.table, fs, [], u.given);
    if u.firstId + u.promoted <= INVALID_USET {
      GivenHasId(u.firstId, u.given, p);
    }
  }
}
