/** Facts, sets of facts, and stacking a set of new facts on a base.

    The bytes of a clause are modelled as tokens: plain bytes, and references to facts of a given
    predicate.  Walking a clause along the type of its predicate is what finds the references. */
module Facts {
  import opened Pointers
  import opened NatCodec

  const INVALID: nat := 0
  const LOWEST: nat := 1024
  const MAX_KEY_SIZE: nat := 0xFFF_FFFF

  datatype Token = Plain(b: int) | Ref(id: nat, pid: nat)

  datatype Clause = Clause(key: seq<Token>, value: seq<Token>)

  datatype Fact = Fact(pid: nat, clause: Clause)

  function TokenSize(t: Token): nat {
    if t.Plain? then 1 else if t.id <= MAX64 then SizeOf(t.id) else 9
  }

  function ByteSize(s: seq<Token>): nat {
    if s == [] then 0 else ByteSize(s[..|s| - 1]) + TokenSize(s[|s| - 1])
  }

  /** The bytes of a clause: references are packed numbers. */
  ghost function Encoded(s: seq<Token>): seq<int>
    requires forall k :: 0 <= k < |s| && s[k].Ref? ==> s[k].id <= MAX64
  {
    if s == [] then []
    else
      var n := |s| - 1;
      Encoded(s[..n]) + if s[n].Plain? then [s[n].b] else StoreNat(s[n].id)
  }

  /** The size of a clause is the number of its bytes. */
  lemma {:induction false} SizeOfBytes(s: seq<Token>)
    requires forall k :: 0 <= k < |s| && s[k].Ref? ==> s[k].id <= MAX64
    ensures ByteSize(s) == |Encoded(s)|
  {
    hide StoreNat, SizeOf;
    if s != [] {
      var n := |s| - 1;
      SizeOfBytes(s[..n]);
      if s[n].Ref? {
        StoreIs(s[n].id);
      }
    }
  }

  predicate SameKey(f: Fact, g: Fact) {
    f.pid == g.pid && f.clause.key == g.clause.key
  }

  /** Facts are identified by their predicate and key. */
  predicate DistinctKeys(fs: seq<Fact>) {
    forall i, j :: 0 <= i < j < |fs| ==> !SameKey(fs[i], fs[j])
  }

  type Key = (nat, seq<Token>)

  function KeyOf(f: Fact): Key {
    (f.pid, f.clause.key)
  }

  datatype Outcome = Defined(id: nat) | Redefined | KeyTooLarge

  /** What it means to define f: it is found, clashes with what is there, or is added at the end. */
  ghost predicate IsDefine(start: nat, fs: seq<Fact>, f: Fact, r: Outcome, fs': seq<Fact>) {
    match r
    case KeyTooLarge => ByteSize(f.clause.key) > MAX_KEY_SIZE && fs' == fs
    case Redefined =>
      ByteSize(f.clause.key) <= MAX_KEY_SIZE && fs' == fs
      && exists i :: 0 <= i < |fs| && SameKey(fs[i], f) && fs[i].clause.value != f.clause.value
    case Defined(id) =>
      && ByteSize(f.clause.key) <= MAX_KEY_SIZE && start <= id < start + |fs'|
      && SameKey(fs'[id - start], f) && fs'[id - start].clause.value == f.clause.value
      && (if id < start + |fs| then fs' == fs
          else fs' == fs + [f] && forall i :: 0 <= i < |fs| ==> !SameKey(fs[i], f))
  }

  /** The index leads to every fact by its key. */
  ghost predicate IndexOk(facts: seq<Fact>, keys: map<Key, nat>) {
    && (forall i :: 0 <= i < |facts| ==> KeyOf(facts[i]) in keys && keys[KeyOf(facts[i])] == i)
    && (forall k :: k in keys ==> keys[k] < |facts| && KeyOf(facts[keys[k]]) == k)
  }

  lemma IndexAppend(facts: seq<Fact>, keys: map<Key, nat>, f: Fact)
    requires IndexOk(facts, keys) && forall i :: 0 <= i < |facts| ==> !SameKey(facts[i], f)
    ensures KeyOf(f) !in keys && IndexOk(facts + [f], keys[KeyOf(f) := |facts|])
  {
    forall k | k in keys ensures k != KeyOf(f) {
      assert !SameKey(facts[keys[k]], f);
    }
  }

  /** Every fact carries the id of its place. */
  ghost predicate Numbered(start: nat, facts: seq<Fact>, ids: seq<nat>) {
    |ids| == |facts| && forall i :: 0 <= i < |ids| ==> ids[i] == start + i
  }

  class FactSet {
    const start: nat
    var facts: seq<Fact>
    // the id that each fact carries
    var ids: seq<nat>
    // index into facts, per predicate and key
    var keys: map<Key, nat>

    /** Facts are found by key. */
    ghost predicate Linked()
      reads this
    {
      start != INVALID && IndexOk(facts, keys) && |ids| == |facts|
    }

    ghost predicate Valid()
      reads this
    {
      Linked() && Numbered(start, facts, ids)
    }

    constructor (start: nat)
      requires start != INVALID
      ensures Valid() && this.start == start && facts == []
    {
      this.start, facts, ids, keys := start, [], [], map[];
    }

    function FirstFreeId(): nat
      reads this
    {
      start + |facts|
    }

    function FactById(id: nat): Option<Fact>
      reads this
    {
      LookupIn(start, facts, id)
    }

    /** The id that the fact with this key carries. */
    method IdByKey(k: Key) returns (id: Option<nat>)
      requires Linked()
      ensures id.Some? ==> exists i :: 0 <= i < |facts| && KeyOf(facts[i]) == k && ids[i] == id.value
      ensures id.Some? && Valid() ==> FactById(id.value).Some? && KeyOf(FactById(id.value).value) == k
      ensures id.None? ==> forall i :: 0 <= i < |facts| ==> KeyOf(facts[i]) != k
    {
      if k in keys {
        assert KeyOf(facts[keys[k]]) == k;
        id := Some(ids[keys[k]]);
      } else {
        id := None;
      }
    }

    method Define(f: Fact) returns (r: Outcome)
      requires Valid()
      modifies this
      ensures Valid() && IsDefine(start, old(facts), f, r, facts)
    {
      if ByteSize(f.clause.key) > MAX_KEY_SIZE {
        return KeyTooLarge;
      }
      var next := FirstFreeId();
      if KeyOf(f) in keys {
        var i := keys[KeyOf(f)];
        assert KeyOf(facts[i]) == KeyOf(f);
        r := if facts[i].clause.value == f.clause.value then Defined(ids[i]) else Redefined;
      } else {
        keys := keys[KeyOf(f) := |facts|];
        facts, ids := facts + [f], ids + [next];
        r := Defined(next);
      }
    }

    /** Whether another set may be appended: one of them is empty, or the other one continues
        this one and shares no key with it. */
    method Appendable(other: FactSet) returns (ok: bool)
      requires Valid() && other.Valid()
      ensures ok <==> CanAppend(start, facts, other.start, other.facts)
    {
      if facts == [] || other.facts == [] {
        return true;
      }
      if FirstFreeId() != other.start {
        return false;
      }
      var j := 0;
      while j < |other.facts|
        invariant j <= |other.facts| && forall i, k :: 0 <= i < |facts| && 0 <= k < j ==> !SameKey(facts[i], other.facts[k])
      {
        if KeyOf(other.facts[j]) in keys {
          assert SameKey(facts[keys[KeyOf(other.facts[j])]], other.facts[j]);
          return false;
        }
        j := j + 1;
      }
      ok := true;
    }

    /** Take over the facts of another set, with the ids they carry.  These are the ids of their
        new places exactly when the other set continues this one. */
    method Append(other: FactSet)
      requires Valid() && other.Valid() && other != this && CanAppend(start, facts, other.start, other.facts)
      modifies this
      ensures Linked() && facts == old(facts) + other.facts && ids == old(ids) + other.ids
      ensures Valid() <==> other.facts == [] || old(FirstFreeId()) == other.start
    {
      hide IndexOk;
      ValidDistinct(other);
      var j := 0;
      while j < |other.facts|
        invariant j <= |other.facts| && Linked() && facts == old(facts) + other.facts[..j] && ids == old(ids) + other.ids[..j]
      {
        var f := other.facts[j];
        NewKeys(start, old(facts), other.start, other.facts, j);
        IndexAppend(facts, keys, f);
        assert other.facts[..j + 1] == other.facts[..j] + [f] && other.ids[..j + 1] == other.ids[..j] + [other.ids[j]];
        keys := keys[KeyOf(f) := |facts|];
        facts, ids := facts + [f], ids + [other.ids[j]];
        j := j + 1;
      }
      assert other.facts[..|other.facts|] == other.facts && other.ids[..|other.ids|] == other.ids;
      NumbersJoin(start, old(facts), old(ids), other.start, other.facts, other.ids);
    }
  }

  lemma NumbersJoin(start: nat, a: seq<Fact>, ids: seq<nat>, start': nat, b: seq<Fact>, ids': seq<nat>)
    requires Numbered(start, a, ids) && Numbered(start', b, ids')
    ensures Numbered(start, a + b, ids + ids') <==> b == [] || start + |a| == start'
  {
    if b != [] {
      assert (ids + ids')[|a|] == ids'[0] == start';
    }
  }

  /** What is appended is not there yet. */
  lemma NewKeys(start: nat, a: seq<Fact>, start': nat, b: seq<Fact>, j: nat)
    requires CanAppend(start, a, start', b) && DistinctKeys(b) && j < |b|
    ensures var fs := a + b[..j]; forall i :: 0 <= i < |fs| ==> !SameKey(fs[i], b[j])
  {
  }

  lemma DistinctAt(fs: seq<Fact>, i: nat, j: nat)
    requires DistinctKeys(fs) && i < |fs| && j < |fs| && SameKey(fs[i], fs[j])
    ensures i == j
  {
  }

  predicate CanAppend(start: nat, a: seq<Fact>, start': nat, b: seq<Fact>) {
    || a == [] || b == []
    || (start + |a| == start' && forall i, k :: 0 <= i < |a| && 0 <= k < |b| ==> !SameKey(a[i], b[k]))
  }

  /** Looking a fact up by the id it carries leads back to it, for all facts, exactly when every
      fact carries the id of its place.  Otherwise lookups by key and by id disagree. */
  lemma LookupsAgree(start: nat, fs: seq<Fact>, ids: seq<nat>)
    requires DistinctKeys(fs) && |ids| == |fs|
    ensures (forall i :: 0 <= i < |fs| ==> LookupIn(start, fs, ids[i]) == Some(fs[i])) <==> Numbered(start, fs, ids)
  {
    forall i | 0 <= i < |fs| ensures LookupIn(start, fs, ids[i]) == Some(fs[i]) <==> ids[i] == start + i {
      if LookupIn(start, fs, ids[i]) == Some(fs[i]) {
        DistinctAt(fs, ids[i] - start, i);
      }
    }
  }

  function LookupIn(start: nat, fs: seq<Fact>, id: nat): Option<Fact> {
    if start <= id < start + |fs| then Some(fs[id - start]) else None
  }

  lemma ValidDistinct(s: FactSet)
    requires s.Valid()
    ensures DistinctKeys(s.facts)
  {
    forall i, j | 0 <= i < j < |s.facts| ensures !SameKey(s.facts[i], s.facts[j]) {
      assert s.keys[KeyOf(s.facts[i])] == i && s.keys[KeyOf(s.facts[j])] == j;
    }
  }

  /** Facts once defined stay what they are: later definitions change neither the outcome nor
      the set. */
  lemma DefineAgain(start: nat, fs: seq<Fact>, f: Fact, id: nat, fs': seq<Fact>, r: Outcome, fs'': seq<Fact>)
    requires DistinctKeys(fs) && start <= id < start + |fs| && fs[id - start] == f && ByteSize(f.clause.key) <= MAX_KEY_SIZE
    requires fs' == fs && IsDefine(start, fs', f, r, fs'')
    ensures r == Defined(id) && fs'' == fs
  {
    assert SameKey(fs[id - start], f);
  }

  /* ------------------------------------------------------------ a set stacked on a base */

  /** The base as far as it can be looked up. */
  datatype Base = Base(facts: map<nat, Fact>, keys: map<Key, nat>)

  predicate BaseOk(b: Base) {
    && (forall k :: k in b.keys ==> b.keys[k] in b.facts && KeyOf(b.facts[b.keys[k]]) == k && b.keys[k] != INVALID)
    && INVALID !in b.facts
  }

  /** Where definitions go: to a set of facts alone, or to one stacked on a base. */
  class Target {
    const base: Option<Base>
    const set_: FactSet

    constructor (base: Option<Base>, set_: FactSet)
      requires base.Some? ==> BaseOk(base.value)
      ensures this.base == base && this.set_ == set_
    {
      this.base, this.set_ := base, set_;
    }

    ghost predicate Valid()
      reads this, set_
    {
      set_.Valid() && (base.Some? ==> BaseOk(base.value))
    }

    function FactById(id: nat): Option<Fact>
      reads this, set_
    {
      FactIn(base, set_.start, set_.facts, id)
    }

    /** A clause that mentions new facts cannot be in the base; otherwise look there first. */
    method Define(f: Fact, maxRef: nat) returns (r: Outcome)
      requires Valid()
      modifies set_
      ensures Valid() && IsStackedDefine(base, set_.start, old(set_.facts), f, maxRef, r, set_.facts)
    {
      if base.Some? && maxRef < set_.start {
        var b := base.value;
        if KeyOf(f) in b.keys && b.keys[KeyOf(f)] < set_.start {
          var id := b.keys[KeyOf(f)];
          if f.clause.value != [] && b.facts[id].clause.value != f.clause.value {
            return Redefined;
          }
          return Defined(id);
        }
      }
      r := set_.Define(f);
    }
  }

  function FactIn(base: Option<Base>, start: nat, fs: seq<Fact>, id: nat): Option<Fact> {
    if base.Some? && id < start then (if id in base.value.facts then Some(base.value.facts[id]) else None)
    else LookupIn(start, fs, id)
  }

  /** The base decides about f: it holds the key below the boundary. */
  predicate BaseHas(base: Option<Base>, start: nat, f: Fact, maxRef: nat) {
    base.Some? && maxRef < start && KeyOf(f) in base.value.keys && base.value.keys[KeyOf(f)] < start
  }

  ghost predicate IsStackedDefine(base: Option<Base>, start: nat, fs: seq<Fact>, f: Fact, maxRef: nat, r: Outcome, fs': seq<Fact>)
    requires base.Some? ==> BaseOk(base.value)
  {
    if BaseHas(base, start, f, maxRef) then
      var id := base.value.keys[KeyOf(f)];
      && fs' == fs
      && r == if f.clause.value != [] && base.value.facts[id].clause.value != f.clause.value then Redefined else Defined(id)
    else IsDefine(start, fs, f, r, fs')
  }
}
