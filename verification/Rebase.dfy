/** Renumbering a buffer of facts after the server has assigned ids to a prefix of it. */
module Rebase {
  import opened Pointers
  import opened Facts
  import opened Batch

  function MaxItem(items: seq<nat>): (m: nat)
    requires items != []
    ensures m in items && forall k :: 0 <= k < |items| ==> items[k] <= m
  {
    var n := |items| - 1;
    if n == 0 then items[0]
    else
      var m := MaxItem(items[..n]);
      assert items == items[..n] + [items[n]];
      if m < items[n] then items[n] else m
  }

  /** The first id above the range of the substitution and everything it maps to. */
  function FirstFreeId(first: nat, items: seq<nat>): (r: nat)
    ensures first + |items| <= r && forall id: nat :: id < first + |items| ==> Subst(first, items, id) < r
    ensures r == first + |items| || exists k :: 0 <= k < |items| && r == items[k] + 1
  {
    var finish := first + |items|;
    if items == [] then finish
    else if MaxItem(items) + 1 > finish then MaxItem(items) + 1 else finish
  }

  /** Ids in the substitution follow it, later ids are shifted behind everything it maps to. */
  function NewId(first: nat, items: seq<nat>, id: nat): nat {
    var finish := first + |items|;
    if id < finish then Subst(first, items, id) else id + (FirstFreeId(first, items) - finish)
  }

  function Renaming(first: nat, items: seq<nat>): nat -> nat {
    (id: nat) => NewId(first, items, id)
  }

  function RenamedFact(first: nat, items: seq<nat>, f: Fact): Fact {
    Fact(f.pid, Clause(MapRefs(f.clause.key, Renaming(first, items)), MapRefs(f.clause.value, Renaming(first, items))))
  }

  function RenamedFacts(first: nat, items: seq<nat>, fs: seq<Fact>): (r: seq<Fact>)
    ensures |r| == |fs| && forall k :: 0 <= k < |fs| ==> r[k] == RenamedFact(first, items, fs[k])
  {
    seq(|fs|, k requires 0 <= k < |fs| => RenamedFact(first, items, fs[k]))
  }

  /** The number of facts whose ids lie below id. */
  function LowerBound(start: nat, size: nat, id: nat): (r: nat)
    ensures r <= size
  {
    if id <= start then 0 else if id - start < size then id - start else size
  }

  predicate KeysFit(fs: seq<Fact>) {
    forall k :: 0 <= k < |fs| ==> ByteSize(fs[k].clause.key) <= MAX_KEY_SIZE
  }

  datatype Inserted = Inserted(id: nat, fact: Fact)

  /** What goes to the global store. */
  ghost predicate IsGlobal(buf: seq<Fact>, start: nat, first: nat, items: seq<nat>, global: seq<Inserted>) {
    && |global| <= |buf|
    && forall k :: 0 <= k < |global| ==> global[k] == Inserted(Subst(first, items, start + k), RenamedFact(first, items, buf[k]))
  }

  /** Split a buffer at the end of the substitution: facts the server knows go to the global
      store under their new ids, the rest forms a new buffer.  The answer is false where the
      original aborts. */
  method Rebase(buf: FactSet, first: nat, items: seq<nat>) returns (ok: bool, local: FactSet, global: seq<Inserted>)
    requires buf.Valid() && FirstFreeId(first, items) != INVALID
    ensures fresh(local) && local.Valid() && local.start == FirstFreeId(first, items)
    ensures var split := LowerBound(buf.start, |buf.facts|, first + |items|);
            var tail := RenamedFacts(first, items, buf.facts[split..]);
            && |global| == split && IsGlobal(buf.facts, buf.start, first, items, global)
            && (ok <==> DistinctKeys(tail) && KeysFit(tail))
            && (ok ==> local.facts == tail)
  {
    hide RenamedFact, FirstFreeId, ByteSize, MapRefs;
    var split := LowerBound(buf.start, |buf.facts|, first + |items|);
    global := InsertGlobal(buf, first, items, split);
    local := new FactSet(FirstFreeId(first, items));
    ok := DefineTail(local, RenamedFacts(first, items, buf.facts[split..]));
  }

  method InsertGlobal(buf: FactSet, first: nat, items: seq<nat>, split: nat) returns (global: seq<Inserted>)
    requires split <= |buf.facts|
    ensures |global| == split && IsGlobal(buf.facts, buf.start, first, items, global)
  {
    hide RenamedFact, Subst;
    global := [];
    var k := 0;
    while k < split
      invariant k <= split && |global| == k && IsGlobal(buf.facts, buf.start, first, items, global)
    {
      global := global + [Inserted(Subst(first, items, buf.start + k), RenamedFact(first, items, buf.facts[k]))];
      k := k + 1;
    }
  }

  /** Define the renamed facts one after the other, expecting each to get the next id. */
  method DefineTail(local: FactSet, tail: seq<Fact>) returns (ok: bool)
    requires local.Valid() && local.facts == []
    modifies local
    ensures local.Valid() && (ok <==> DistinctKeys(tail) && KeysFit(tail)) && (ok ==> local.facts == tail)
  {
    hide ByteSize, DistinctKeys, IsDefine;
    var expected := local.start;
    var j := 0;
    while j < |tail|
      invariant j <= |tail| && local.Valid() && local.facts == tail[..j] && expected == local.start + j
      invariant KeysFit(tail[..j])
    {
      var r := local.Define(tail[j]);
      if r != Defined(expected) {
        NotAppended(local.start, tail, j, r, local.facts);
        return false;
      }
      Appended(local.start, tail, j, local.facts);
      expected := expected + 1;
      j := j + 1;
    }
    assert tail[..|tail|] == tail;
    ValidDistinct(local);
    ok := true;
  }

  lemma Appended(start: nat, tail: seq<Fact>, j: nat, fs': seq<Fact>)
    requires j < |tail| && IsDefine(start, tail[..j], tail[j], Defined(start + j), fs') && KeysFit(tail[..j])
    ensures fs' == tail[..j + 1] && KeysFit(tail[..j + 1])
  {
    hide ByteSize;
    assert tail[..j + 1] == tail[..j] + [tail[j]];
  }

  /** A definition that does not append has met a key that is too long or known. */
  lemma NotAppended(start: nat, tail: seq<Fact>, k: nat, r: Outcome, fs': seq<Fact>)
    requires k < |tail| && IsDefine(start, tail[..k], tail[k], r, fs') && r != Defined(start + k)
    ensures !(DistinctKeys(tail) && KeysFit(tail))
  {
    hide ByteSize;
    var fs := tail[..k];
    match r {
      case KeyTooLarge =>
      case Redefined =>
        var i :| 0 <= i < |fs| && SameKey(fs[i], tail[k]) && fs[i].clause.value != tail[k].clause.value;
        assert SameKey(tail[i], tail[k]);
      case Defined(id) =>
        if id < start + k {
          assert fs' == fs && fs'[id - start] == tail[id - start];
          assert SameKey(tail[id - start], tail[k]);
        }
    }
  }

  /* ------------------------------------------------------------ what rebasing does to a reference */

  /** Ids before the range of the substitution stay, ids in it become items, and later ids keep
      their distance from its end behind the first free id. */
  lemma NewIdIs(first: nat, items: seq<nat>, id: nat)
    ensures id < first ==> NewId(first, items, id) == id
    ensures first <= id < first + |items| ==> NewId(first, items, id) == items[id - first]
    ensures first + |items| <= id ==> NewId(first, items, id) - FirstFreeId(first, items) == id - (first + |items|)
  {
    hide FirstFreeId;
  }

  /** How token t of a fact appears in the renamed fact. */
  ghost predicate TokenKept(first: nat, items: seq<nat>, t: Token, r: Token) {
    match t
    case Plain(_) => r == t
    case Ref(id, pid) =>
      && (id < first ==> r == t)
      && (first <= id < first + |items| ==> r == Ref(items[id - first], pid))
      && (first + |items| <= id ==> r == Ref(FirstFreeId(first, items) + (id - (first + |items|)), pid))
  }

  ghost predicate FactKept(first: nat, items: seq<nat>, f: Fact, r: Fact) {
    && r.pid == f.pid && |r.clause.key| == |f.clause.key| && |r.clause.value| == |f.clause.value|
    && (forall k :: 0 <= k < |f.clause.key| ==> TokenKept(first, items, f.clause.key[k], r.clause.key[k]))
    && (forall k :: 0 <= k < |f.clause.value| ==> TokenKept(first, items, f.clause.value[k], r.clause.value[k]))
  }

  lemma RenamedKeeps(first: nat, items: seq<nat>, f: Fact)
    ensures FactKept(first, items, f, RenamedFact(first, items, f))
  {
    hide FirstFreeId, NewId;
    forall ts: seq<Token>, k | 0 <= k < |ts| ensures TokenKept(first, items, ts[k], MapRefs(ts, Renaming(first, items))[k]) {
      if ts[k].Ref? {
        NewIdIs(first, items, ts[k].id);
      }
    }
  }

  /** Where every fact of a buffer is after rebasing, and what has become of it: a fact below the end
      of the substitution is in the global store, under its own id if that is outside of the
      substitution and else under its item; the others are in the new buffer, in order. */
  lemma RebasedFacts(start: nat, fs: seq<Fact>, first: nat, items: seq<nat>, global: seq<Inserted>, k: nat)
    requires |global| == LowerBound(start, |fs|, first + |items|) && IsGlobal(fs, start, first, items, global) && k < |fs|
    ensures k < |global| <==> start + k < first + |items|
    ensures k < |global| ==> FactKept(first, items, fs[k], global[k].fact)
    ensures k < |global| ==> global[k].id == if start + k < first then start + k else items[start + k - first]
    ensures k >= |global| ==> FactKept(first, items, fs[k], RenamedFacts(first, items, fs[|global|..])[k - |global|])
  {
    hide FirstFreeId, RenamedFact, FactKept;
    RenamedKeeps(first, items, fs[k]);
    if k >= |global| {
      assert fs[|global|..][k - |global|] == fs[k];
    }
  }

  /* ------------------------------------------------------------ when the renaming is faithful */

  ghost predicate Mentions(f: Fact, id: nat) {
    exists k :: 0 <= k < |f.clause.key| && f.clause.key[k].Ref? && f.clause.key[k].id == id
  }

  /** The substitution is one-to-one on the ids below its end that the keys mention. */
  ghost predicate OneToOne(first: nat, items: seq<nat>, fs: seq<Fact>) {
    forall i, j, a: nat, b: nat ::
      (&& 0 <= i < |fs| && 0 <= j < |fs| && Mentions(fs[i], a) && Mentions(fs[j], b)
       && a < first + |items| && b < first + |items| && Subst(first, items, a) == Subst(first, items, b)) ==> a == b
  }

  /** Shifted ids clash with no substituted id, so one-to-one below the end is one-to-one. */
  lemma NewIdInjective(first: nat, items: seq<nat>, a: nat, b: nat)
    requires NewId(first, items, a) == NewId(first, items, b)
    ensures a == b || (a < first + |items| && b < first + |items| && Subst(first, items, a) == Subst(first, items, b))
  {
  }

  lemma TokensSame(first: nat, items: seq<nat>, f: Fact, g: Fact, fs: seq<Fact>, i: nat, j: nat)
    requires i < |fs| && j < |fs| && f == fs[i] && g == fs[j] && OneToOne(first, items, fs)
    requires MapRefs(f.clause.key, Renaming(first, items)) == MapRefs(g.clause.key, Renaming(first, items))
    ensures f.clause.key == g.clause.key
  {
    hide NewId, FirstFreeId;
    var s, t, rho := f.clause.key, g.clause.key, Renaming(first, items);
    assert |s| == |t|;
    forall k | 0 <= k < |s| ensures s[k] == t[k] {
      assert MapRefs(s, rho)[k] == MapRefs(t, rho)[k];
      if s[k].Ref? && t[k].Ref? {
        assert Mentions(f, s[k].id) && Mentions(g, t[k].id);
        NewIdInjective(first, items, s[k].id, t[k].id);
      }
    }
  }

  /** A substitution that is one-to-one on what the tail mentions keeps its keys apart. */
  lemma OneToOneDistinct(first: nat, items: seq<nat>, fs: seq<Fact>)
    requires DistinctKeys(fs) && OneToOne(first, items, fs)
    ensures DistinctKeys(RenamedFacts(first, items, fs))
  {
    hide Renaming, OneToOne, MapRefs;
    var rs := RenamedFacts(first, items, fs);
    forall i, j | 0 <= i < j < |fs| ensures !SameKey(rs[i], rs[j]) {
      assert !SameKey(fs[i], fs[j]);
      if SameKey(rs[i], rs[j]) {
        TokensSame(first, items, fs[i], fs[j], fs, i, j);
      }
    }
  }

  /** Conversely, two ids that become one make two different facts clash, and the check fail. */
  lemma CollapsedIds(first: nat, items: seq<nat>, a: nat, b: nat, pid: nat, q: nat)
    requires a != b && NewId(first, items, a) == NewId(first, items, b)
    ensures var fs := [Fact(pid, Clause([Ref(a, q)], [])), Fact(pid, Clause([Ref(b, q)], []))];
            DistinctKeys(fs) && !DistinctKeys(RenamedFacts(first, items, fs))
  {
    hide NewId;
    var fs := [Fact(pid, Clause([Ref(a, q)], [])), Fact(pid, Clause([Ref(b, q)], []))];
    assert fs[0].clause.key[0] != fs[1].clause.key[0];
    var rs := RenamedFacts(first, items, fs);
    assert SameKey(rs[0], rs[1]);
  }

  predicate FollowsAt(start: nat, first: nat, items: seq<nat>, split: nat, k: nat) {
    NewId(first, items, start + k) == FirstFreeId(first, items) + k - split
  }

  /** The new buffer numbers its facts as the renaming does exactly when the substitution does
      not end before the buffer starts. */
  lemma IdsFollow(start: nat, size: nat, first: nat, items: seq<nat>)
    ensures var split := LowerBound(start, size, first + |items|);
            (forall k :: split <= k < size ==> FollowsAt(start, first, items, split, k))
            <==> split == size || start <= first + |items|
  {
    var split := LowerBound(start, size, first + |items|);
    if split < size && first + |items| < start {
      assert !FollowsAt(start, first, items, split, split);
    }
  }

  /** Ids stay apart: old facts below the new buffer, its own facts from its start on. */
  lemma NoClash(first: nat, items: seq<nat>, id: nat)
    ensures id < first + |items| <==> NewId(first, items, id) < FirstFreeId(first, items)
  {
  }

  /* ------------------------------------------------------------ references */

  function Tokens(f: Fact): seq<Token> {
    f.clause.key + f.clause.value
  }

  /** References point to smaller ids. */
  predicate Backward(start: nat, fs: seq<Fact>) {
    forall k, t :: 0 <= k < |fs| && 0 <= t < |Tokens(fs[k])| && Tokens(fs[k])[t].Ref? ==> Tokens(fs[k])[t].id < start + k
  }

  lemma RenamedTokens(first: nat, items: seq<nat>, f: Fact)
    ensures Tokens(RenamedFact(first, items, f)) == MapRefs(Tokens(f), Renaming(first, items))
  {
    hide NewId;
  }

  /** References of the new buffer still point backwards. */
  lemma BackwardKept(start: nat, fs: seq<Fact>, first: nat, items: seq<nat>)
    requires Backward(start, fs) && start <= first + |items|
    ensures var split := LowerBound(start, |fs|, first + |items|);
            Backward(FirstFreeId(first, items), RenamedFacts(first, items, fs[split..]))
  {
    hide FirstFreeId, RenamedFact;
    var split := LowerBound(start, |fs|, first + |items|);
    var rs := RenamedFacts(first, items, fs[split..]);
    forall k, t | 0 <= k < |rs| && 0 <= t < |Tokens(rs[k])| && Tokens(rs[k])[t].Ref?
      ensures Tokens(rs[k])[t].id < FirstFreeId(first, items) + k
    {
      RenamedTokens(first, items, fs[split + k]);
      var id := Tokens(fs[split + k])[t].id;
      NoClash(first, items, id);
      assert id < start + (split + k);
    }
  }

  /** Where a fact of the buffer is found after rebasing: its new id leads to the renamed fact. */
  ghost predicate Found(start: nat, fs: seq<Fact>, first: nat, items: seq<nat>, global: seq<Inserted>, local: seq<Fact>, id: nat)
    requires start <= id < start + |fs|
  {
    var g := RenamedFact(first, items, fs[id - start]);
    if id < first + |items| then Inserted(NewId(first, items, id), g) in global
    else LookupIn(FirstFreeId(first, items), local, NewId(first, items, id)) == Some(g)
  }

  /** The reference graph is preserved: what a reference led to before, its renaming leads to
      afterwards. */
  lemma ReferencesFollow(start: nat, fs: seq<Fact>, first: nat, items: seq<nat>, global: seq<Inserted>, id: nat)
    requires start <= first + |items| && start <= id < start + |fs|
    requires |global| == LowerBound(start, |fs|, first + |items|) && IsGlobal(fs, start, first, items, global)
    ensures Found(start, fs, first, items, global, RenamedFacts(first, items, fs[|global|..]), id)
    ensures Tokens(RenamedFact(first, items, fs[id - start])) == MapRefs(Tokens(fs[id - start]), Renaming(first, items))
  {
    hide RenamedFact, FirstFreeId;
    RenamedTokens(first, items, fs[id - start]);
    if id < first + |items| {
      assert global[id - start] == Inserted(NewId(first, items, id), RenamedFact(first, items, fs[id - start]));
    } else {
      NoClash(first, items, id);
      assert fs[|global|..][id - start - |global|] == fs[id - start];
    }
  }

  /** A reference taken for a name still gets the item of the id it spells; without names, or
      when no reference spells a name, this always holds. */
  predicate NamesHarmless(e: Env, items: seq<nat>, k: nat, ts: seq<Token>)
    requires EnvOk(e) && k <= |e.batch|
  {
    var m := IdMap(e, k);
    forall t :: 0 <= t < |ts| && ts[t].Ref? && ts[t].id in m ==> Subst(e.first, items, m[ts[t].id]) == Subst(e.first, items, ts[t].id)
  }

  /** What a client caches after rebasing is what the server stores: for a fact of a batch the
      server has accepted, the client keeps a fact under the same id, and it is the same fact
      exactly when the names were harmless. */
  lemma CacheAgrees(e: Env, server: seq<Fact>, items: seq<nat>, fs: seq<Fact>, global: seq<Inserted>, k: nat)
    requires Settled(e, server, items) && e.batch <= fs && Backward(e.first, fs)
    requires |global| == LowerBound(e.first, |fs|, e.first + |items|) && IsGlobal(fs, e.first, e.first, items, global)
    requires k < |e.batch|
    ensures k < |global| && global[k].id == items[k]
    ensures var f, c := FactIn(e.base, e.start, server, items[k]), fs[k].clause;
            && f.Some? && f.value.pid == global[k].fact.pid
            && (f.value.clause.key == global[k].fact.clause.key <==> NamesHarmless(e, items, k, c.key))
            && ((f.value.clause.value == global[k].fact.clause.value <==> NamesHarmless(e, items, k, c.value))
                || (c.value == [] && items[k] < e.start))
  {
    SettledMeans(e, server, items, k);
    hide Settled;
    var rho := Renaming(e.first, items);
    var c := fs[k].clause;
    assert forall t :: 0 <= t < |c.key| ==> Tokens(fs[k])[t] == c.key[t];
    assert forall t :: 0 <= t < |c.value| ==> Tokens(fs[k])[|c.key| + t] == c.value[t];
    SameMaps(e, items, k, c.key);
    SameMaps(e, items, k, c.value);
    assert RenamedFact(e.first, items, fs[k]).clause == Clause(MapRefs(c.key, rho), MapRefs(c.value, rho));
  }

  lemma SameMaps(e: Env, items: seq<nat>, k: nat, ts: seq<Token>)
    requires EnvOk(e) && |items| == |e.batch| && k < |e.batch|
    requires forall t :: 0 <= t < |ts| && ts[t].Ref? ==> ts[t].id < e.first + |items|
    ensures MapRefs(ts, (id: nat) => RealId(e, items, k, id)) == MapRefs(ts, Renaming(e.first, items)) <==> NamesHarmless(e, items, k, ts)
  {
    hide FirstFreeId;
    var a, b := MapRefs(ts, (id: nat) => RealId(e, items, k, id)), MapRefs(ts, Renaming(e.first, items));
    if a == b {
      forall t | 0 <= t < |ts| && ts[t].Ref? && ts[t].id in IdMap(e, k)
        ensures Subst(e.first, items, IdMap(e, k)[ts[t].id]) == Subst(e.first, items, ts[t].id)
      {
        assert a[t] == b[t];
      }
    }
  }
}
