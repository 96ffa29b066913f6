/** Defining a batch of facts that were numbered by somebody else. */
module Batch {
  import opened Pointers
  import opened Facts

  datatype Error =
    | InvalidBaseId | InvalidFact(id: nat) | WrongType(id: nat) | KeyTooLong | InvalidRedefinition(pid: nat)
    | InvalidPredicate(pid: nat)

  /** Ids first..first+|items| become the items, all other ids stay. */
  function Subst(first: nat, items: seq<nat>, id: nat): nat {
    if first <= id < first + |items| then items[id - first] else id
  }

  /** Everything that stays the same during a batch: the base, where new facts start, the known
      predicates, and the batch with its names. */
  datatype Env = Env(base: Option<Base>, start: nat, inventory: set<nat>, first: nat, names: Option<seq<nat>>, batch: seq<Fact>)

  predicate EnvOk(e: Env) {
    && (e.base.Some? ==> BaseOk(e.base.value)) && e.start != INVALID
    && (e.names.Some? ==> |e.names.value| == |e.batch|)
  }

  /** The names given to the first i facts; a later fact may take over a name. */
  function IdMap(e: Env, i: nat): map<nat, nat>
    requires EnvOk(e) && i <= |e.batch|
  {
    if i == 0 || e.names.None? then map[]
    else
      var m := IdMap(e, i - 1);
      if e.names.value[i - 1] != INVALID then m[e.names.value[i - 1] := e.first + i - 1] else m
  }

  /** The substitution while fact i is being defined: later items are still invalid. */
  function SoFar(items: seq<nat>, i: nat): (r: seq<nat>)
    requires i <= |items|
    ensures |r| == |items| && forall j :: 0 <= j < |r| ==> r[j] == if j < i then items[j] else INVALID
  {
    items[..i] + seq(|items| - i, _ => INVALID)
  }

  function Resolve(e: Env, i: nat, id: nat): nat
    requires EnvOk(e) && i <= |e.batch|
  {
    var m := IdMap(e, i);
    if id in m then m[id] else id
  }

  function RealId(e: Env, items: seq<nat>, i: nat, id: nat): nat
    requires EnvOk(e) && i <= |e.batch|
  {
    Subst(e.first, items, Resolve(e, i, id))
  }

  datatype Renamed = Renamed(tokens: seq<Token>, maxRef: nat) | Rejected(error: Error)

  /** Replace every reference, checking that the fact it now names exists and has the right type. */
  function Rename(e: Env, fs: seq<Fact>, items: seq<nat>, i: nat, ts: seq<Token>): (r: Renamed)
    requires EnvOk(e) && i <= |e.batch|
    ensures r.Renamed? ==> |r.tokens| == |ts|
  {
    if ts == [] then Renamed([], INVALID)
    else
      var n := |ts| - 1;
      var r := Rename(e, fs, items, i, ts[..n]);
      if r.Rejected? then r
      else if ts[n].Plain? then r.(tokens := r.tokens + [ts[n]])
      else
        var actual := RealId(e, items, i, ts[n].id);
        var f := FactIn(e.base, e.start, fs, actual);
        if f.None? then Rejected(InvalidFact(ts[n].id))
        else if f.value.pid != ts[n].pid then Rejected(WrongType(ts[n].id))
        else Renamed(r.tokens + [Ref(actual, ts[n].pid)], if actual > r.maxRef then actual else r.maxRef)
  }

  function RenameFact(e: Env, fs: seq<Fact>, items: seq<nat>, i: nat): Renamed
    requires EnvOk(e) && i < |e.batch| && |items| == |e.batch|
  {
    var c := e.batch[i].clause;
    Rename(e, fs, SoFar(items, i), i, c.key + c.value)
  }

  /** The fact to define for fact i of the batch. */
  function RealFact(e: Env, i: nat, r: Renamed): Fact
    requires i < |e.batch| && r.Renamed? && |e.batch[i].clause.key| <= |r.tokens|
  {
    var k := |e.batch[i].clause.key|;
    Fact(e.batch[i].pid, Clause(r.tokens[..k], r.tokens[k..]))
  }

  /* ------------------------------------------------------------ facts that are there already */

  /** f is there under this id. */
  predicate Present(e: Env, fs: seq<Fact>, f: Fact, maxRef: nat, id: nat)
    requires EnvOk(e)
  {
    if BaseHas(e.base, e.start, f, maxRef) then
      id == e.base.value.keys[KeyOf(f)] && (f.clause.value == [] || e.base.value.facts[id].clause.value == f.clause.value)
    else
      e.start <= id < e.start + |fs| && fs[id - e.start] == f && ByteSize(f.clause.key) <= MAX_KEY_SIZE
  }

  lemma DefinePresent(e: Env, fs: seq<Fact>, f: Fact, maxRef: nat, id: nat, r: Outcome, fs': seq<Fact>)
    requires EnvOk(e) && DistinctKeys(fs) && Present(e, fs, f, maxRef, id)
    requires IsStackedDefine(e.base, e.start, fs, f, maxRef, r, fs')
    ensures r == Defined(id) && fs' == fs
  {
    if !BaseHas(e.base, e.start, f, maxRef) {
      DefineAgain(e.start, fs, f, id, fs, r, fs');
    }
  }

  lemma DefinedPresent(e: Env, fs: seq<Fact>, f: Fact, maxRef: nat, r: Outcome, fs': seq<Fact>)
    requires EnvOk(e) && IsStackedDefine(e.base, e.start, fs, f, maxRef, r, fs') && r.Defined?
    ensures Present(e, fs', f, maxRef, r.id) && fs <= fs' && r.id != INVALID
  {
  }

  /** Facts of the batch up to n are there, each under its item. */
  ghost predicate FactDone(e: Env, fs: seq<Fact>, items: seq<nat>, i: nat)
    requires EnvOk(e) && i < |e.batch| && |items| == |e.batch|
  {
    && e.batch[i].pid in e.inventory
    && var r := RenameFact(e, fs, items, i);
    r.Renamed? && Present(e, fs, RealFact(e, i, r), r.maxRef, items[i])
  }

  ghost predicate DoneTo(e: Env, fs: seq<Fact>, items: seq<nat>, n: nat) {
    && EnvOk(e) && LOWEST <= e.first && |items| == |e.batch| && n <= |e.batch|
    && forall i :: 0 <= i < n ==> FactDone(e, fs, items, i)
  }

  /** The whole batch is there, and items are its ids. */
  ghost predicate Settled(e: Env, fs: seq<Fact>, items: seq<nat>) {
    DoneTo(e, fs, items, |e.batch|)
  }

  lemma {:induction false} RenameGrows(e: Env, fs: seq<Fact>, fs': seq<Fact>, items: seq<nat>, i: nat, ts: seq<Token>)
    requires EnvOk(e) && i <= |e.batch| && fs <= fs' && Rename(e, fs, items, i, ts).Renamed?
    ensures Rename(e, fs', items, i, ts) == Rename(e, fs, items, i, ts)
  {
    if ts != [] {
      RenameGrows(e, fs, fs', items, i, ts[..|ts| - 1]);
    }
  }

  lemma FactDoneGrows(e: Env, fs: seq<Fact>, fs': seq<Fact>, items: seq<nat>, items': seq<nat>, i: nat)
    requires EnvOk(e) && i < |e.batch| && |items| == |items'| == |e.batch| && fs <= fs'
    requires FactDone(e, fs, items, i) && items[..i + 1] == items'[..i + 1]
    ensures FactDone(e, fs', items', i)
  {
    assert items[i] == items[..i + 1][i] && items'[i] == items'[..i + 1][i];
    assert items[..i] == items[..i + 1][..i] && items'[..i] == items'[..i + 1][..i];
    assert SoFar(items, i) == SoFar(items', i);
    var c := e.batch[i].clause;
    RenameGrows(e, fs, fs', SoFar(items, i), i, c.key + c.value);
  }

  /** A batch that is there stays there, under the same ids, however the set grows. */
  lemma SettledGrows(e: Env, fs: seq<Fact>, fs': seq<Fact>, items: seq<nat>)
    requires Settled(e, fs, items) && fs <= fs'
    ensures Settled(e, fs', items)
  {
    forall i | 0 <= i < |e.batch| ensures FactDone(e, fs', items, i) {
      FactDoneGrows(e, fs, fs', items, items, i);
    }
  }

  lemma DoneToGrows(e: Env, fs: seq<Fact>, fs': seq<Fact>, items: seq<nat>, items': seq<nat>, n: nat)
    requires DoneTo(e, fs, items, n) && fs <= fs' && |items'| == |items| && items[..n] == items'[..n]
    ensures DoneTo(e, fs', items', n)
  {
    forall i | 0 <= i < n ensures FactDone(e, fs', items', i) {
      assert items[..i + 1] == items[..n][..i + 1] && items'[..i + 1] == items'[..n][..i + 1];
      FactDoneGrows(e, fs, fs', items, items', i);
    }
  }

  predicate Agree(a: seq<nat>, b: seq<nat>, n: nat) {
    |a| == |b| && n <= |a| && a[..n] == b[..n]
  }

  /* ------------------------------------------------------------ defining a batch */

  datatype Result = Done(items: seq<nat>) | Failed(error: Error)

  /** Fact i cannot be defined, and why. */
  ghost predicate FailsAt(e: Env, fs: seq<Fact>, items: seq<nat>, i: nat, error: Error)
    requires EnvOk(e) && i < |e.batch| && |items| == |e.batch|
  {
    if e.batch[i].pid !in e.inventory then error == InvalidPredicate(e.batch[i].pid)
    else
      var r := RenameFact(e, fs, items, i);
      if r.Rejected? then error == r.error
      else
        var f := RealFact(e, i, r);
        match error
        case KeyTooLong => IsStackedDefine(e.base, e.start, fs, f, r.maxRef, KeyTooLarge, fs)
        case InvalidRedefinition(p) => p == e.batch[i].pid && IsStackedDefine(e.base, e.start, fs, f, r.maxRef, Redefined, fs)
        case _ => false
  }

  ghost predicate Failure(e: Env, fs: seq<Fact>, error: Error)
    requires EnvOk(e)
  {
    if e.first < LOWEST then error == InvalidBaseId
    else exists items, i: nat :: DoneTo(e, fs, items, i) && i < |e.batch| && FailsAt(e, fs, items, i, error)
  }

  ghost predicate EnvOf(e: Env, t: Target)
    reads t, t.set_
  {
    e.base == t.base && e.start == t.set_.start && t.Valid() && EnvOk(e)
  }

  /** Define one fact of the batch. */
  method DefineFact(t: Target, e: Env, items: seq<nat>, i: nat) returns (r: Result)
    requires EnvOf(e, t) && i < |e.batch| && DoneTo(e, t.set_.facts, items, i)
    requires forall j :: i <= j < |items| ==> items[j] == INVALID
    modifies t.set_
    ensures t.Valid() && old(t.set_.facts) <= t.set_.facts
    ensures r.Done? ==> && |r.items| == |items| && r.items[..i] == items[..i]
                        && (forall j :: i + 1 <= j < |items| ==> r.items[j] == INVALID)
                        && DoneTo(e, t.set_.facts, r.items, i + 1)
    ensures r.Failed? ==> t.set_.facts == old(t.set_.facts) && FailsAt(e, t.set_.facts, items, i, r.error)
    ensures forall all :: Settled(e, old(t.set_.facts), all) && Agree(all, items, i) ==>
              t.set_.facts == old(t.set_.facts) && r.Done? && r.items[i] == all[i]
    ensures NoneShadowed(e.base, e.start, old(t.set_.facts)) ==> NoneShadowed(e.base, e.start, t.set_.facts)
  {
    hide IsDefine, DoneTo, DistinctKeys, Present, Shadowed, Rename;
    ghost var fs := t.set_.facts;
    ValidDistinct(t.set_);
    DoneFacts(e, fs, items, i);
    forall all | Settled(e, fs, all) && Agree(all, items, i)
      ensures |all| == |e.batch| && FactDone(e, fs, all, i) && SoFar(items, i) == SoFar(all, i)
    {
      DoneAt(e, fs, all, |e.batch|, i);
    }
    if e.batch[i].pid !in e.inventory {
      return Failed(InvalidPredicate(e.batch[i].pid));
    }
    var ren := RenameFact(e, t.set_.facts, items, i);
    if ren.Rejected? {
      return Failed(ren.error);
    }
    var f := RealFact(e, i, ren);
    var out := t.Define(f, ren.maxRef);
    if NoneShadowed(e.base, e.start, fs) {
      StillUnshadowed(e, fs, items, i, ren, out, t.set_.facts);
    }
    forall all | Settled(e, fs, all) && Agree(all, items, i) ensures out == Defined(all[i]) && t.set_.facts == fs {
      DefinePresent(e, fs, f, ren.maxRef, all[i], out, t.set_.facts);
    }
    match out {
      case KeyTooLarge => 
        Unchanged(e, fs, f, ren.maxRef, out, t.set_.facts);
        r := Failed(KeyTooLong);
      case Redefined =>
        Unchanged(e, fs, f, ren.maxRef, out, t.set_.facts);
        r := Failed(InvalidRedefinition(e.batch[i].pid));
      case Defined(id) =>
        DefinedPresent(e, fs, f, ren.maxRef, out, t.set_.facts);
        r := Done(items[i := id]);
        DoneNext(e, fs, t.set_.facts, items, i, id, ren);
    }
  }

  lemma Unchanged(e: Env, fs: seq<Fact>, f: Fact, maxRef: nat, r: Outcome, fs': seq<Fact>)
    requires EnvOk(e) && IsStackedDefine(e.base, e.start, fs, f, maxRef, r, fs') && !r.Defined?
    ensures fs' == fs
  {
  }

  lemma DoneFacts(e: Env, fs: seq<Fact>, items: seq<nat>, n: nat)
    requires DoneTo(e, fs, items, n)
    ensures EnvOk(e) && |items| == |e.batch| && n <= |e.batch|
  {
  }

  lemma DoneAt(e: Env, fs: seq<Fact>, items: seq<nat>, n: nat, i: nat)
    requires DoneTo(e, fs, items, n) && i < n
    ensures |items| == |e.batch| && FactDone(e, fs, items, i)
  {
  }

  lemma DoneNext(e: Env, fs: seq<Fact>, fs': seq<Fact>, items: seq<nat>, i: nat, id: nat, ren: Renamed)
    requires DoneTo(e, fs, items, i) && i < |e.batch| && fs <= fs' && e.batch[i].pid in e.inventory
    requires ren == RenameFact(e, fs, items, i) && ren.Renamed? && Present(e, fs', RealFact(e, i, ren), ren.maxRef, id)
    ensures DoneTo(e, fs', items[i := id], i + 1)
  {
    hide Present;
    var items' := items[i := id];
    assert items'[..i] == items[..i];
    DoneToGrows(e, fs, fs', items, items', i);
    assert FactDone(e, fs', items', i) by {
      assert SoFar(items', i) == SoFar(items, i);
      var c := e.batch[i].clause;
      RenameGrows(e, fs, fs', SoFar(items, i), i, c.key + c.value);
    }
  }

  /** Define all facts of a batch, renaming their references as their own ids become known. */
  method DefineUntrustedBatch(t: Target, e: Env) returns (r: Result)
    requires EnvOf(e, t)
    modifies t.set_
    ensures t.Valid() && old(t.set_.facts) <= t.set_.facts
    ensures r.Done? ==> Settled(e, t.set_.facts, r.items)
    ensures r.Failed? ==> Failure(e, t.set_.facts, r.error) && forall all :: !Settled(e, t.set_.facts, all)
    ensures NoneShadowed(e.base, e.start, old(t.set_.facts)) ==> NoneShadowed(e.base, e.start, t.set_.facts)
    ensures forall all :: Settled(e, old(t.set_.facts), all) ==> r == Done(all) && t.set_.facts == old(t.set_.facts)
  {
    hide DoneTo, FailsAt, Shadowed;
    if e.first < LOWEST {
      NotSettled(e, t.set_.facts);
      return Failed(InvalidBaseId);
    }
    var items: seq<nat> := seq(|e.batch|, _ => INVALID);
    DoneNone(e, t.set_.facts, items);
    var i := 0;
    while i < |e.batch|
      invariant i <= |e.batch| && t.Valid() && old(t.set_.facts) <= t.set_.facts
      invariant |items| == |e.batch| && forall j :: i <= j < |items| ==> items[j] == INVALID
      invariant DoneTo(e, t.set_.facts, items, i)
      invariant NoneShadowed(e.base, e.start, old(t.set_.facts)) ==> NoneShadowed(e.base, e.start, t.set_.facts)
      invariant forall all :: Settled(e, old(t.set_.facts), all) ==>
                  Agree(all, items, i) && t.set_.facts == old(t.set_.facts)
    {
      ghost var before := items;
      var step := DefineFact(t, e, items, i);
      if step.Failed? {
        NeverSettled(t, e, step.error);
        return step;
      }
      items := step.items;
      SameTo(before, items, i);
      i := i + 1;
    }
    assert items[..|items|] == items;
    forall all | Settled(e, old(t.set_.facts), all) ensures all == items {
      assert all[..|items|] == all;
    }
    r := Done(items);
  }

  lemma NeverSettled(t: Target, e: Env, error: Error)
    requires EnvOf(e, t) && Failure(e, t.set_.facts, error)
    ensures forall all :: !Settled(e, t.set_.facts, all)
  {
    hide Failure, Settled, DistinctKeys;
    ValidDistinct(t.set_);
    forall all ensures !Settled(e, t.set_.facts, all) {
      FailsForAll(e, t.set_.facts, error, all);
    }
  }

  lemma SameTo(before: seq<nat>, items: seq<nat>, i: nat)
    requires i < |items| == |before| && items[..i] == before[..i]
    ensures forall all: seq<nat> :: Agree(all, before, i) && all[i] == items[i] ==> Agree(all, items, i + 1)
  {
    forall all: seq<nat> | Agree(all, before, i) && all[i] == items[i]
      ensures Agree(all, items, i + 1)
    {
      assert all[..i + 1] == all[..i] + [all[i]] && items[..i + 1] == items[..i] + [items[i]];
    }
  }

  lemma NotSettled(e: Env, fs: seq<Fact>)
    requires e.first < LOWEST
    ensures forall all :: !Settled(e, fs, all)
  {
  }

  lemma DoneNone(e: Env, fs: seq<Fact>, items: seq<nat>)
    requires EnvOk(e) && LOWEST <= e.first && |items| == |e.batch|
    ensures DoneTo(e, fs, items, 0)
    ensures forall all :: Settled(e, fs, all) ==> Agree(all, items, 0)
  {
  }

  /** Sending a batch again, even after other facts have been defined, succeeds with the same
      substitution and defines nothing new. */
  method Resend(t: Target, e: Env, between: seq<(Fact, nat)>) returns (first: Result, second: Result, ghost mid: seq<Fact>)
    requires EnvOf(e, t)
    modifies t.set_
    ensures t.Valid() && old(t.set_.facts) <= mid <= t.set_.facts
    ensures first.Done? ==> second == first && t.set_.facts == mid && Settled(e, mid, first.items)
  {
    hide Settled, Failure;
    first := DefineUntrustedBatch(t, e);
    ghost var fs := t.set_.facts;
    var k := 0;
    while k < |between|
      invariant k <= |between| && t.Valid() && fs <= t.set_.facts
    {
      ghost var fs1 := t.set_.facts;
      var out := t.Define(between[k].0, between[k].1);
      DefineKeeps(e, fs1, between[k].0, between[k].1, out, t.set_.facts);
      k := k + 1;
    }
    if first.Done? {
      SettledGrows(e, fs, t.set_.facts, first.items);
    }
    mid := t.set_.facts;
    second := DefineUntrustedBatch(t, e);
  }

  lemma DefineKeeps(e: Env, fs: seq<Fact>, f: Fact, maxRef: nat, r: Outcome, fs': seq<Fact>)
    requires EnvOk(e) && IsStackedDefine(e.base, e.start, fs, f, maxRef, r, fs')
    ensures fs <= fs'
  {
  }

  /* ------------------------------------------------------------ what a substitution means */

  /** Rename all references of some tokens. */
  function MapRefs(ts: seq<Token>, f: nat -> nat): (r: seq<Token>)
    ensures |r| == |ts| && forall k :: 0 <= k < |ts| ==> r[k] == if ts[k].Plain? then ts[k] else Ref(f(ts[k].id), ts[k].pid)
  {
    seq(|ts|, k requires 0 <= k < |ts| => if ts[k].Plain? then ts[k] else Ref(f(ts[k].id), ts[k].pid))
  }

  /** Renaming replaces ids and nothing else, and every new id names a fact of the right type. */
  lemma {:induction false} RenameAt(e: Env, fs: seq<Fact>, items: seq<nat>, i: nat, ts: seq<Token>, k: nat)
    requires EnvOk(e) && i <= |e.batch| && k < |ts| && Rename(e, fs, items, i, ts).Renamed?
    ensures var t := Rename(e, fs, items, i, ts).tokens[k];
            if ts[k].Plain? then t == ts[k]
            else
              && t == Ref(RealId(e, items, i, ts[k].id), ts[k].pid)
              && FactIn(e.base, e.start, fs, t.id).Some? && FactIn(e.base, e.start, fs, t.id).value.pid == ts[k].pid
  {
    var n := |ts| - 1;
    if k < n {
      assert ts[..n][k] == ts[k];
      RenameAt(e, fs, items, i, ts[..n], k);
    }
  }

  lemma InvalidMissing(e: Env, fs: seq<Fact>)
    requires EnvOk(e)
    ensures FactIn(e.base, e.start, fs, INVALID).None?
  {
  }

  /** A reference that is accepted names an earlier fact of the batch or one outside of it. */
  lemma ResolvedAt(e: Env, fs: seq<Fact>, items: seq<nat>, i: nat, id: nat)
    requires EnvOk(e) && i < |e.batch| && |items| == |e.batch|
    requires FactIn(e.base, e.start, fs, RealId(e, SoFar(items, i), i, id)).Some?
    ensures RealId(e, SoFar(items, i), i, id) == RealId(e, items, i, id)
  {
    InvalidMissing(e, fs);
  }

  /** The fact a stacked lookup finds for item i. */
  ghost predicate Stands(e: Env, fs: seq<Fact>, items: seq<nat>, i: nat)
    requires EnvOk(e) && i < |e.batch| && |items| == |e.batch|
  {
    var c := e.batch[i].clause;
    var sigma := (id: nat) => RealId(e, items, i, id);
    var f := FactIn(e.base, e.start, fs, items[i]);
    && f.Some? && f.value.pid == e.batch[i].pid && f.value.clause.key == MapRefs(c.key, sigma)
    && (f.value.clause.value == MapRefs(c.value, sigma) || (c.value == [] && items[i] < e.start))
  }

  /** Every item names the fact of the batch with its references replaced by items. */
  lemma SettledMeans(e: Env, fs: seq<Fact>, items: seq<nat>, i: nat)
    requires Settled(e, fs, items) && i < |e.batch|
    ensures Stands(e, fs, items, i)
  {
    hide Rename, MapRefs;
    assert FactDone(e, fs, items, i);
    RenamedAs(e, fs, items, i);
    NoValue(e.batch[i].clause.value, (id: nat) => RealId(e, items, i, id));
  }

  lemma NoValue(ts: seq<Token>, sigma: nat -> nat)
    ensures MapRefs(ts, sigma) == [] <==> ts == []
  {
  }

  /* ------------------------------------------------------------ names, ids and references */

  /** Of the facts before fact i, j is the last one that was given this name. */
  predicate NamedLast(e: Env, i: nat, id: nat, j: nat)
    requires EnvOk(e) && i <= |e.batch|
  {
    && e.names.Some? && id != INVALID && j < i && e.names.value[j] == id
    && forall l :: j < l < i ==> e.names.value[l] != id
  }

  predicate Unnamed(e: Env, i: nat, id: nat)
    requires EnvOk(e) && i <= |e.batch|
  {
    e.names.None? || id == INVALID || forall l :: 0 <= l < i ==> e.names.value[l] != id
  }

  lemma {:induction false} IdMapIs(e: Env, i: nat, id: nat)
    requires EnvOk(e) && i <= |e.batch|
    ensures id in IdMap(e, i) <==> !Unnamed(e, i, id)
    ensures forall j :: 0 <= j < i && NamedLast(e, i, id, j) ==> id in IdMap(e, i) && IdMap(e, i)[id] == e.first + j
  {
    if i > 0 && e.names.Some? {
      IdMapIs(e, i - 1, id);
      assert forall j :: 0 <= j < i - 1 && NamedLast(e, i, id, j) ==> NamedLast(e, i - 1, id, j);
    }
  }

  /** What an id of the batch stands for: the item of the fact that was last given it as a name, the
      item of its own place in the batch, or, for all other ids, itself. */
  lemma RealIdIs(e: Env, items: seq<nat>, i: nat, id: nat)
    requires EnvOk(e) && i <= |e.batch| == |items|
    ensures forall j :: 0 <= j < i && NamedLast(e, i, id, j) ==> RealId(e, items, i, id) == items[j]
    ensures Unnamed(e, i, id) && e.first <= id < e.first + |items| ==> RealId(e, items, i, id) == items[id - e.first]
    ensures Unnamed(e, i, id) && !(e.first <= id < e.first + |items|) ==> RealId(e, items, i, id) == id
  {
    hide IdMap;
    IdMapIs(e, i, id);
  }

  /** The tokens ts became rs when fact i was defined. */
  ghost predicate Stood(e: Env, items: seq<nat>, i: nat, ts: seq<Token>, rs: seq<Token>)
    requires EnvOk(e) && i <= |e.batch| == |items|
  {
    && |rs| == |ts|
    && forall k :: 0 <= k < |ts| ==> StoodAt(e, items, i, ts[k], rs[k])
  }

  ghost predicate StoodAt(e: Env, items: seq<nat>, i: nat, t: Token, r: Token)
    requires EnvOk(e) && i <= |e.batch| == |items|
  {
    match t
    case Plain(_) => r == t
    case Ref(id, pid) =>
      && (forall j :: 0 <= j < i && NamedLast(e, i, id, j) ==> r == Ref(items[j], pid))
      && (Unnamed(e, i, id) && e.first <= id < e.first + |items| ==> r == Ref(items[id - e.first], pid))
      && (Unnamed(e, i, id) && !(e.first <= id < e.first + |items|) ==> r == t)
  }

  lemma MapStood(e: Env, items: seq<nat>, i: nat, ts: seq<Token>)
    requires EnvOk(e) && i <= |e.batch| == |items|
    ensures Stood(e, items, i, ts, MapRefs(ts, (id: nat) => RealId(e, items, i, id)))
  {
    hide RealId;
    var rs := MapRefs(ts, (id: nat) => RealId(e, items, i, id));
    forall k | 0 <= k < |ts| ensures StoodAt(e, items, i, ts[k], rs[k]) {
      if ts[k].Ref? {
        RealIdIs(e, items, i, ts[k].id);
      }
    }
  }

  /** What is stored for fact i of an accepted batch: its predicate, and its key and value with
      nothing changed but references to named facts and to facts of the batch. */
  lemma StoredAs(e: Env, fs: seq<Fact>, items: seq<nat>, i: nat)
    requires Settled(e, fs, items) && i < |e.batch|
    ensures var f, c := FactIn(e.base, e.start, fs, items[i]), e.batch[i].clause;
            && |items| == |e.batch| && f.Some? && f.value.pid == e.batch[i].pid && Stood(e, items, i, c.key, f.value.clause.key)
            && (Stood(e, items, i, c.value, f.value.clause.value) || (c.value == [] && items[i] < e.start))
  {
    hide Stood, RealId;
    SettledMeans(e, fs, items, i);
    hide Settled;
    MapStood(e, items, i, e.batch[i].clause.key);
    MapStood(e, items, i, e.batch[i].clause.value);
  }

  /* ------------------------------------------------------------ what is accepted and what fails */

  /** The reference leads to a fact, of the predicate it should have. */
  predicate GoodRef(e: Env, fs: seq<Fact>, items: seq<nat>, i: nat, t: Token)
    requires EnvOk(e) && i <= |e.batch|
  {
    t.Ref? ==> var f := FactIn(e.base, e.start, fs, RealId(e, items, i, t.id)); f.Some? && f.value.pid == t.pid
  }

  /** Renaming succeeds exactly when all references are good; otherwise the first one that is not is
      reported, with what is wrong about it. */
  lemma {:induction false} RenameWhen(e: Env, fs: seq<Fact>, items: seq<nat>, i: nat, ts: seq<Token>)
    requires EnvOk(e) && i <= |e.batch|
    ensures Rename(e, fs, items, i, ts).Renamed? <==> forall k :: 0 <= k < |ts| ==> GoodRef(e, fs, items, i, ts[k])
    ensures Rename(e, fs, items, i, ts).Rejected? ==>
              exists k :: 0 <= k < |ts| && FirstBad(e, fs, items, i, ts, k, Rename(e, fs, items, i, ts).error)
  {
    hide RealId, FactIn;
    if ts != [] {
      var n := |ts| - 1;
      RenameWhen(e, fs, items, i, ts[..n]);
      assert forall k :: 0 <= k < n ==> ts[..n][k] == ts[k];
      var r := Rename(e, fs, items, i, ts[..n]);
      if r.Rejected? {
        var k :| 0 <= k < n && FirstBad(e, fs, items, i, ts[..n], k, r.error);
        assert FirstBad(e, fs, items, i, ts, k, r.error);
      } else if !GoodRef(e, fs, items, i, ts[n]) {
        assert FirstBad(e, fs, items, i, ts, n, Rename(e, fs, items, i, ts).error);
      }
    }
  }

  ghost predicate FirstBad(e: Env, fs: seq<Fact>, items: seq<nat>, i: nat, ts: seq<Token>, k: nat, error: Error)
    requires EnvOk(e) && i <= |e.batch| && k < |ts|
  {
    && (forall l :: 0 <= l < k ==> GoodRef(e, fs, items, i, ts[l])) && ts[k].Ref?
    && var f := FactIn(e.base, e.start, fs, RealId(e, items, i, ts[k].id));
       if f.None? then error == InvalidFact(ts[k].id) else f.value.pid != ts[k].pid && error == WrongType(ts[k].id)
  }

  /** The number that renaming reports is the largest id it has put in, or invalid if there is none. */
  lemma {:induction false} MaxRefIs(e: Env, fs: seq<Fact>, items: seq<nat>, i: nat, ts: seq<Token>)
    requires EnvOk(e) && i <= |e.batch| && Rename(e, fs, items, i, ts).Renamed?
    ensures IsMaxRef(Rename(e, fs, items, i, ts).tokens, Rename(e, fs, items, i, ts).maxRef)
  {
    hide RealId, FactIn;
    if ts != [] {
      var n := |ts| - 1;
      MaxRefIs(e, fs, items, i, ts[..n]);
      var r, s := Rename(e, fs, items, i, ts[..n]), Rename(e, fs, items, i, ts);
      assert forall k :: 0 <= k < n ==> s.tokens[k] == r.tokens[k];
      if s.maxRef == r.maxRef && r.maxRef != INVALID {
        var k :| 0 <= k < n && r.tokens[k].Ref? && r.tokens[k].id == r.maxRef;
        assert s.tokens[k].Ref? && s.tokens[k].id == s.maxRef;
      } else if s.maxRef != r.maxRef {
        assert s.tokens[n].Ref? && s.tokens[n].id == s.maxRef;
      }
    }
  }

  ghost predicate IsMaxRef(ts: seq<Token>, m: nat) {
    && (forall k :: 0 <= k < |ts| && ts[k].Ref? ==> ts[k].id <= m)
    && (m == INVALID || exists k :: 0 <= k < |ts| && ts[k].Ref? && ts[k].id == m)
  }

  /* ------------------------------------------------------------ the base comes first */

  /** All references lead below the boundary. */
  ghost predicate RefsBelow(ts: seq<Token>, start: nat) {
    forall k :: 0 <= k < |ts| && ts[k].Ref? ==> ts[k].id < start
  }

  /** The base holds the key below the boundary. */
  ghost predicate InBase(base: Option<Base>, start: nat, k: Key) {
    base.Some? && k in base.value.keys && base.value.keys[k] < start
  }

  /** A fact of an accepted batch that the base could hold, and whose key it holds, is the base's. */
  lemma BaseFirst(e: Env, fs: seq<Fact>, items: seq<nat>, i: nat, key: seq<Token>, value: seq<Token>)
    requires Settled(e, fs, items) && i < |e.batch|
    requires key == MapRefs(e.batch[i].clause.key, (id: nat) => RealId(e, items, i, id))
    requires value == MapRefs(e.batch[i].clause.value, (id: nat) => RealId(e, items, i, id))
    requires RefsBelow(key + value, e.start) && InBase(e.base, e.start, (e.batch[i].pid, key))
    ensures items[i] == e.base.value.keys[(e.batch[i].pid, key)]
  {
    hide Rename, MapRefs;
    assert FactDone(e, fs, items, i);
    var c := e.batch[i].clause;
    var r := RenameFact(e, fs, items, i);
    MaxRefIs(e, fs, SoFar(items, i), i, c.key + c.value);
    RenamedAs(e, fs, items, i);
    assert r.tokens == key + value;
    assert r.maxRef < e.start;
  }

  /** What fact i of the batch became. */
  lemma RenamedAs(e: Env, fs: seq<Fact>, items: seq<nat>, i: nat)
    requires EnvOk(e) && i < |e.batch| == |items| && RenameFact(e, fs, items, i).Renamed?
    ensures var c, sigma := e.batch[i].clause, (id: nat) => RealId(e, items, i, id);
            var r := RenameFact(e, fs, items, i);
            && r.tokens == MapRefs(c.key, sigma) + MapRefs(c.value, sigma)
            && RealFact(e, i, r) == Fact(e.batch[i].pid, Clause(MapRefs(c.key, sigma), MapRefs(c.value, sigma)))
  {
    hide Rename;
    var c := e.batch[i].clause;
    var ts := c.key + c.value;
    var r := RenameFact(e, fs, items, i);
    var sigma := (id: nat) => RealId(e, items, i, id);
    forall k | 0 <= k < |ts| ensures r.tokens[k] == if ts[k].Plain? then ts[k] else Ref(sigma(ts[k].id), ts[k].pid) {
      RenameAt(e, fs, SoFar(items, i), i, ts, k);
      if ts[k].Ref? {
        ResolvedAt(e, fs, items, i, ts[k].id);
      }
    }
    assert r.tokens[..|c.key|] == MapRefs(c.key, sigma);
    assert r.tokens[|c.key|..] == MapRefs(c.value, sigma);
  }

  /** No fact of the set that the base could hold has a key that the base holds. */
  ghost predicate NoneShadowed(base: Option<Base>, start: nat, fs: seq<Fact>) {
    forall j :: 0 <= j < |fs| ==> !Shadowed(base, start, fs[j])
  }

  ghost predicate Shadowed(base: Option<Base>, start: nat, f: Fact) {
    RefsBelow(f.clause.key + f.clause.value, start) && InBase(base, start, KeyOf(f))
  }

  /** What is added although the base was asked is not in the base. */
  lemma StillUnshadowed(e: Env, fs: seq<Fact>, items: seq<nat>, i: nat, ren: Renamed, r: Outcome, fs': seq<Fact>)
    requires EnvOk(e) && i < |e.batch| == |items| && NoneShadowed(e.base, e.start, fs)
    requires ren == RenameFact(e, fs, items, i) && ren.Renamed?
    requires IsStackedDefine(e.base, e.start, fs, RealFact(e, i, ren), ren.maxRef, r, fs')
    ensures NoneShadowed(e.base, e.start, fs')
  {
    hide Rename;
    var c := e.batch[i].clause;
    var f := RealFact(e, i, ren);
    MaxRefIs(e, fs, SoFar(items, i), i, c.key + c.value);
    assert f.clause.key + f.clause.value == ren.tokens;
    if Shadowed(e.base, e.start, f) {
      assert ren.maxRef < e.start;
      assert BaseHas(e.base, e.start, f, ren.maxRef);
    }
  }

  /* ------------------------------------------------------------ failing means that nothing would do */

  lemma PresentOnce(e: Env, fs: seq<Fact>, f: Fact, maxRef: nat, a: nat, b: nat)
    requires EnvOk(e) && DistinctKeys(fs) && Present(e, fs, f, maxRef, a) && Present(e, fs, f, maxRef, b)
    ensures a == b
  {
    if !BaseHas(e.base, e.start, f, maxRef) {
      DistinctAt(fs, a - e.start, b - e.start);
    }
  }

  lemma {:induction false} DoneOnce(e: Env, fs: seq<Fact>, a: seq<nat>, b: seq<nat>, n: nat)
    requires DistinctKeys(fs) && DoneTo(e, fs, a, n) && DoneTo(e, fs, b, n)
    ensures a[..n] == b[..n]
    decreases n
  {
    hide Present, DistinctKeys, Rename;
    if n > 0 {
      DoneOnce(e, fs, a, b, n - 1);
      assert SoFar(a, n - 1) == SoFar(b, n - 1);
      assert FactDone(e, fs, a, n - 1) && FactDone(e, fs, b, n - 1);
      var r := RenameFact(e, fs, a, n - 1);
      PresentOnce(e, fs, RealFact(e, n - 1, r), r.maxRef, a[n - 1], b[n - 1]);
      assert a[..n] == a[..n - 1] + [a[n - 1]] && b[..n] == b[..n - 1] + [b[n - 1]];
    }
  }

  /** A batch that fails has no place in the set: no substitution settles it. */
  lemma FailsForAll(e: Env, fs: seq<Fact>, error: Error, all: seq<nat>)
    requires EnvOk(e) && DistinctKeys(fs) && Failure(e, fs, error)
    ensures !Settled(e, fs, all)
  {
    hide DistinctKeys, Rename, Present, IsStackedDefine;
    if Settled(e, fs, all) {
      var items, i: nat :| DoneTo(e, fs, items, i) && i < |e.batch| && FailsAt(e, fs, items, i, error);
      DoneOnce(e, fs, items, all, i);
      assert SoFar(items, i) == SoFar(all, i);
      assert FactDone(e, fs, all, i);
      var r := RenameFact(e, fs, all, i);
      FailsNot(e, fs, items, i, all, error);
    }
  }

  lemma FailsNot(e: Env, fs: seq<Fact>, items: seq<nat>, i: nat, all: seq<nat>, error: Error)
    requires EnvOk(e) && DistinctKeys(fs) && i < |e.batch| == |items| == |all| && RenameFact(e, fs, items, i) == RenameFact(e, fs, all, i)
    requires FactDone(e, fs, all, i)
    ensures !FailsAt(e, fs, items, i, error)
  {
    hide DistinctKeys, Rename, Present, IsStackedDefine;
    var r := RenameFact(e, fs, all, i);
    var f := RealFact(e, i, r);
    if IsStackedDefine(e.base, e.start, fs, f, r.maxRef, KeyTooLarge, fs) {
      DefinePresent(e, fs, f, r.maxRef, all[i], KeyTooLarge, fs);
    }
    if IsStackedDefine(e.base, e.start, fs, f, r.maxRef, Redefined, fs) {
      DefinePresent(e, fs, f, r.maxRef, all[i], Redefined, fs);
    }
  }
}
