/** The LRU cache of looked-up facts, with each operation run on its own. */
module Cache {
  import opened Pointers
  import opened CacheStore

  class LookupCache {
    const k: Config
    // all facts that are allocated
    var heap: Heap
    var brk: Ptr
    // stored facts, the least recently used one first
    var facts: seq<Ptr>
    var bytes: nat
    var count: nat
    var ids: map<nat, Ptr>
    var keys: map<Key, Ptr>
    var touched: seq<Buffer>

    function S(): Store
      reads this
    {
      Store(heap, facts, bytes, count, ids, keys, touched)
    }

    /** What holds whenever nobody is updating the cache. */
    ghost predicate Valid()
      reads this
    {
      Good(k, S()) && forall p :: p in heap ==> p < brk
    }

    constructor (k: Config, shards: nat)
      requires BaseOk(k.base)
      ensures Valid() && this.k == k && S() == Empty(shards, k.size)
    {
      this.k := k;
      heap, brk, facts, bytes, count, ids, keys := map[], 1, [], 0, 0, map[], map[];
      touched := seq(shards, _ => Buffer(seq(k.size, _ => NULL), 0));
      new;
      EmptyGood(k, shards);
    }

    /** Apply the hits of one buffer to the list, and empty the buffer. */
    method Drain(t: nat)
      requires Valid() && t < |touched|
      modifies this`facts, this`touched
      ensures Valid() && old(touched)[t].next <= |old(touched)[t].slots| && S() == Drained(old(S()), t)
    {
      hide Good, Touched;
      ghost var c := S();
      DrainedGood(k, c, t);
      var n := touched[t].next;
      ghost var hits := touched[t].slots[..n];
      assert hits[..0] == [];
      var i := 0;
      while i < n
        invariant i <= n && touched == old(touched) && facts == TouchAll(c.facts, hits[..i])
      {
        assert hits[..i + 1][..i] == hits[..i];
        facts := Touched(facts, touched[t].slots[i]);
        i := i + 1;
      }
      assert hits[..n] == hits;
      touched := touched[t := touched[t].(next := 0)];
    }

    /** Empty all buffers. */
    method DrainAll()
      requires Valid()
      modifies this`facts, this`touched
      ensures Valid() && S() == DrainedAll(k, old(S()))
    {
      hide Good, Drained;
      ghost var c := S();
      var t := 0;
      while t < |touched|
        invariant t <= |touched| == |c.touched| && Valid() && S() == DrainedTo(k, c, t)
      {
        Drain(t);
        assert S() == DrainedTo(k, c, t + 1);
        t := t + 1;
      }
    }

    /** Take a fact out of both indexes. */
    method DeleteFromIndex(p: Ptr)
      requires p in heap
      modifies this`ids, this`keys
      ensures ids == old(ids) - {heap[p].id} && keys == KeysWithout(old(keys), heap[p])
    {
      ids := ids - {heap[p].id};
      if Rank(heap[p].tag) > Rank(TYPE) {
        keys := keys - {KeyOf(heap[p])};
      }
    }

    /** Drop the least recently used facts, one by one, until at most target bytes are left.  Hits
        must have been applied before. */
    method Evict(target: nat) returns (dead: seq<Ptr>)
      requires Valid() && NoHits(touched)
      modifies this`facts, this`bytes, this`count, this`ids, this`keys
      ensures Valid() && S() == Evicted(k, old(S()), target) && old(facts) == dead + facts
    {
      hide Evicting, KeysWithout, Good;
      ghost var c := S();
      var n, rangeBytes := 0, 0;
      EvictStart(k, c, target);
      while bytes - rangeBytes > target && n < |facts|
        invariant n <= |facts| && facts == old(facts) && bytes == old(bytes) && count == old(count)
        invariant rangeBytes <= bytes && n <= count && Evicting(k, c, target, n, rangeBytes, ids, keys)
      {
        EvictRound(k, c, target, n, rangeBytes, ids, keys);
        DeleteFromIndex(facts[n]);
        rangeBytes := rangeBytes + heap[facts[n]].size;
        n := n + 1;
      }
      EvictStop(k, c, target, n, rangeBytes, ids, keys);
      dead := facts[..n];
      assert facts == dead + facts[n..];
      facts := facts[n..];
      bytes := bytes - rangeBytes;
      count := count - n;
    }

    /** Take a stored fact out. */
    method Remove(p: Ptr)
      requires Valid() && NoHits(touched) && p in facts
      modifies this`facts, this`bytes, this`count, this`ids, this`keys
      ensures Valid() && p in heap && heap[p].size <= old(bytes) && old(count) > 0 && S() == Removed(old(S()), p)
    {
      hide Good;
      RemovedGood(k, S(), p);
      DeleteFromIndex(p);
      bytes := bytes - heap[p].size;
      count := count - 1;
      facts := Without(facts, p);
    }

    /** Replace the fact that has less data, then evict if there is still not enough room. */
    method MakeRoom(f: CFact) returns (dead: seq<Ptr>)
      requires Valid() && NoHits(touched) && f.size <= k.capacity
      modifies this`facts, this`bytes, this`count, this`ids, this`keys
      ensures Valid() && S() == Roomy(k, old(S()), f)
      ensures ToSet(dead) == ToSet(old(facts)) - ToSet(facts)
    {
      hide Good;
      GoodFacts(k, S());
      dead := [];
      ghost var facts0 := facts;
      if f.id in ids {
        var existing := ids[f.id];
        RemovedGood(k, S(), existing);
        Remove(existing);
        dead := [existing];
      }
      assert ToSet(dead) == ToSet(facts0) - ToSet(facts);
      if bytes + f.size > k.capacity {
        ghost var facts1 := facts;
        GoodFacts(k, S());
        var more := Evict(Wanted(k.capacity, f.size));
        DeadMore(heap, facts0, facts1, facts, dead, more);
        dead := dead + more;
      }
    }

    /** Insert a fact, replacing one with less data and evicting to make room.  Facts taken out are
        returned, and stay allocated for now. */
    method InsertOne(f: CFact) returns (dead: seq<Ptr>, ghost p: Ptr)
      requires Valid() && Agrees(k.base, f)
      modifies this
      ensures Valid() && p !in old(heap) && S() == Insertion(k, old(S()), f, p)
      ensures ToSet(dead) == Dropped(k, old(S()), f, p)
    {
      hide Good, Agrees;
      ghost var c := S();
      dead, p := [], brk;
      GoodFacts(k, c);
      if f.size > k.capacity || (f.id in ids && Rank(heap[ids[f.id]].tag) >= Rank(f.tag)) {
        assert ToSet(facts) - ToSet(facts) == ToSet(dead);
        return;
      }
      if f.id in ids || bytes + f.size > k.capacity {
        DrainAll();
        dead := MakeRoom(f);
      }
      assert ToSet(dead) == ToSet(c.facts) - ToSet(facts);
      DeadStays(c.heap, c.facts, facts, dead, p);
      Append(f, c);
    }

    /** Store a fact for which there is room now. */
    method Append(f: CFact, ghost c: Store)
      requires Valid() && Agrees(k.base, f) && Good(k, c) && !Refused(k, c, f) && S() == RoomFor(k, c, f)
      modifies this
      ensures Valid() && S() == Appended(RoomFor(k, c, f), f, old(brk)) && brk == old(brk) + 1
    {
      hide Good, Agrees, RoomFor;
      AppendedGood(k, S(), f, brk);
      heap := heap[brk := f];
      facts := facts + [brk];
      bytes := bytes + f.size;
      count := count + 1;
      ids := ids[f.id := brk];
      if f.tag != TYPE {
        keys := keys[KeyOf(f) := brk];
      }
      brk := brk + 1;
    }

    /** Nothing is allocated but what is stored. */
    ghost predicate Quiet()
      reads this
    {
      Valid() && heap.Keys == ToSet(facts)
    }

    /** Insert a fact and free what had to go. */
    method Insert(f: CFact)
      requires Quiet() && Agrees(k.base, f)
      modifies this
      ensures Quiet() && |touched| == |old(touched)|
      ensures exists p :: p !in old(heap) && Good(k, old(S())) && S() == Inserted(k, old(S()), f, p)
      ensures f.size <= k.capacity ==> f.id in ids && ids[f.id] in heap && Rank(heap[ids[f.id]].tag) >= Rank(f.tag)
    {
      hide Good, Agrees, ToSet;
      ghost var c := S();
      var dead, p := InsertOne(f);
      InsertionFacts(k, c, f, p);
      FreedGood(k, S(), ToSet(dead));
      KeptOrDead(k, c, f, p);
      if f.size <= k.capacity {
        KnownAfter(k, c, f, p);
      }
      heap := heap - ToSet(dead);
      GoodFacts(k, S());
      assert S() == Inserted(k, c, f, p);
    }

    /** Record a hit: in the buffer of a shard, or on the list at once when there are no shards.
        A full buffer is emptied if the list can be locked; the hit itself is then lost. */
    method Touch(p: Ptr, shard: nat, locked: bool)
      requires Valid() && p in facts && (|touched| > 0 ==> shard < |touched|)
      modifies this`facts, this`touched
      ensures Valid() && ToSet(facts) == ToSet(old(facts)) && |touched| == |old(touched)|
      ensures IsHit(k, old(S()), p, shard, locked, S())
    {
      hide Good;
      if |touched| > 0 {
        GoodHits(k, S(), shard);
        var n := touched[shard].next;
        if n < k.size {
          BufferGood(k, S(), shard, Hit(touched[shard], p));
          touched := touched[shard := Hit(touched[shard], p)];
        } else if locked {
          DrainedGood(k, S(), shard);
          Drain(shard);
        }
      } else {
        UsedGood(k, S(), p);
        facts := Touched(facts, p);
      }
    }

    /** The id of a fact, from its key: the answer of the base. */
    method IdByKey(pid: nat, key: seq<int>, shard: nat, locked: bool) returns (id: nat)
      requires Quiet() && (|touched| > 0 ==> shard < |touched|)
      modifies this
      ensures Quiet() && |touched| == |old(touched)|
      ensures id != 0 ==> id in k.base && k.base[id].pid == pid && k.base[id].key == key
      ensures id == 0 ==> forall i :: i in k.base ==> !(k.base[i].pid == pid && k.base[i].key == key)
      ensures (pid, key) in old(keys) ==> IsHit(k, old(S()), old(keys)[(pid, key)], shard, locked, S())
      ensures (pid, key) !in old(keys) && id in k.base ==> StoresFetched(k, old(S()), id, KEY, S())
      ensures (pid, key) !in old(keys) && id == 0 ==> S() == old(S())
    {
      hide Indexed, AllAgree, ListOk, HitsOk, Bytes, ToSet;
      if (pid, key) in keys {
        var p := keys[(pid, key)];
        KeyAnswer(k.base, heap, facts, ids, keys, (pid, key));
        id := heap[p].id;
        Touch(p, shard, locked);
      } else if i :| i in k.base && k.base[i].pid == pid && k.base[i].key == key {
        id := i;
        MadeProper(k, i, KEY);
        Insert(Made(k, i, KEY));
      } else {
        id := 0;
      }
    }

    /** The predicate of a fact: the answer of the base. */
    method TypeById(id: nat, shard: nat, locked: bool) returns (pid: Option<nat>)
      requires Quiet() && (|touched| > 0 ==> shard < |touched|)
      modifies this
      ensures Quiet() && |touched| == |old(touched)|
      ensures pid == if id in k.base then Some(k.base[id].pid) else None
      ensures id in old(ids) ==> IsHit(k, old(S()), old(ids)[id], shard, locked, S())
      ensures id !in old(ids) && id in k.base ==> StoresFetched(k, old(S()), id, TYPE, S())
      ensures id !in old(ids) && id !in k.base ==> S() == old(S())
    {
      hide Indexed, AllAgree, ListOk, HitsOk, Bytes, BaseOk, ToSet;
      if id in ids {
        var p := ids[id];
        IdAnswer(k.base, heap, facts, ids, keys, id);
        pid := Some(heap[p].data.pid);
        Touch(p, shard, locked);
      } else if id in k.base {
        pid := Some(k.base[id].pid);
        MadeProper(k, id, TYPE);
        Insert(Made(k, id, TYPE));
      } else {
        pid := None;
      }
    }

    /** A whole fact: the answer of the base. */
    method FactById(id: nat, shard: nat, locked: bool) returns (data: Option<Data>)
      requires Quiet() && (|touched| > 0 ==> shard < |touched|)
      modifies this
      ensures Quiet() && |touched| == |old(touched)|
      ensures data == if id in k.base then Some(k.base[id]) else None
      ensures WholeIn(old(S()), id) ==> IsHit(k, old(S()), old(ids)[id], shard, locked, S())
      ensures !WholeIn(old(S()), id) && id in k.base ==> StoresFetched(k, old(S()), id, FULL, S())
      ensures !WholeIn(old(S()), id) && id !in k.base ==> S() == old(S())
    {
      hide Indexed, AllAgree, ListOk, HitsOk, Bytes, BaseOk, ToSet;
      IdFacts(heap, facts, ids, keys, id);
      if id in ids && heap[ids[id]].tag == FULL {
        var p := ids[id];
        IdAnswer(k.base, heap, facts, ids, keys, id);
        data := Some(heap[p].data);
        Touch(p, shard, locked);
      } else if id in k.base {
        data := Some(k.base[id]);
        MadeProper(k, id, FULL);
        Insert(Made(k, id, FULL));
      } else {
        data := None;
      }
    }
  }

  /** All of fact id is cached. */
  predicate WholeIn(c: Store, id: nat) {
    id in c.ids && c.ids[id] in c.heap && c.heap[c.ids[id]].tag == FULL
  }

  /** What the base gave for a fact that was not cached, or not enough of it, has been inserted. */
  ghost predicate StoresFetched(k: Config, c: Store, id: nat, t: Tag, c': Store)
    requires id in k.base
  {
    Good(k, c) && Agrees(k.base, Made(k, id, t)) && exists p :: p !in c.heap && c' == Inserted(k, c, Made(k, id, t), p)
  }

  /** What is left of c when its first n facts have been taken out. */
  function Left(c: Store, n: nat, rangeBytes: nat, ids: map<nat, Ptr>, keys: map<Key, Ptr>): Store
    requires n <= |c.facts| && n <= c.count && rangeBytes <= c.bytes
  {
    Store(c.heap, c.facts[n..], c.bytes - rangeBytes, c.count - n, ids, keys, c.touched)
  }

  ghost predicate Evicting(k: Config, c: Store, target: nat, n: nat, rangeBytes: nat, ids: map<nat, Ptr>, keys: map<Key, Ptr>) {
    && Good(k, c) && NoHits(c.touched) && n <= |c.facts| && n <= c.count && rangeBytes <= c.bytes
    && Good(k, Left(c, n, rangeBytes, ids, keys))
    && Evicted(k, Left(c, n, rangeBytes, ids, keys), target) == Evicted(k, c, target)
  }

  lemma EvictStart(k: Config, c: Store, target: nat)
    requires Good(k, c) && NoHits(c.touched)
    ensures Evicting(k, c, target, 0, 0, c.ids, c.keys)
  {
    hide Good, Evicted;
    assert Left(c, 0, 0, c.ids, c.keys) == c;
  }

  /** One round of evicting. */
  lemma EvictRound(k: Config, c: Store, target: nat, n: nat, rangeBytes: nat, ids: map<nat, Ptr>, keys: map<Key, Ptr>)
    requires Evicting(k, c, target, n, rangeBytes, ids, keys) && c.bytes - rangeBytes > target && n < |c.facts|
    ensures var p := c.facts[n];
            && p in c.heap && rangeBytes + c.heap[p].size <= c.bytes && n < c.count
            && Evicting(k, c, target, n + 1, rangeBytes + c.heap[p].size, ids - {c.heap[p].id}, KeysWithout(keys, c.heap[p]))
  {
    hide Good, KeysWithout;
    var l, p := Left(c, n, rangeBytes, ids, keys), c.facts[n];
    assert l.facts[0] == p;
    RemovedGood(k, l, p);
    assert c.facts[n..][1..] == c.facts[n + 1..];
    assert Removed(l, p) == Left(c, n + 1, rangeBytes + c.heap[p].size, ids - {c.heap[p].id}, KeysWithout(keys, c.heap[p]));
  }

  lemma EvictStop(k: Config, c: Store, target: nat, n: nat, rangeBytes: nat, ids: map<nat, Ptr>, keys: map<Key, Ptr>)
    requires Evicting(k, c, target, n, rangeBytes, ids, keys) && (c.bytes - rangeBytes <= target || n == |c.facts|)
    ensures Evicted(k, c, target) == Left(c, n, rangeBytes, ids, keys) && Good(k, Left(c, n, rangeBytes, ids, keys))
  {
    hide Good;
  }

  lemma DeadMore(h: Heap, facts0: seq<Ptr>, facts1: seq<Ptr>, facts2: seq<Ptr>, dead: seq<Ptr>, more: seq<Ptr>)
    requires ListOk(h, facts1) && facts1 == more + facts2
    requires ToSet(dead) == ToSet(facts0) - ToSet(facts1) && ToSet(facts1) <= ToSet(facts0)
    ensures ToSet(dead + more) == ToSet(facts0) - ToSet(facts2)
  {
    assert forall i :: 0 <= i < |more| ==> more[i] == facts1[i];
    assert forall j :: 0 <= j < |facts2| ==> facts2[j] == facts1[|more| + j];
    assert ToSet(facts1) == ToSet(more) + ToSet(facts2) && ToSet(more) !! ToSet(facts2);
    assert ToSet(dead + more) == ToSet(dead) + ToSet(more);
  }

  lemma DeadStays(h: Heap, facts0: seq<Ptr>, facts1: seq<Ptr>, dead: seq<Ptr>, p: Ptr)
    requires p !in h && (forall q :: q in facts0 ==> q in h) && ToSet(dead) == ToSet(facts0) - ToSet(facts1)
    ensures ToSet(dead) == ToSet(facts0) - ToSet(facts1 + [p])
  {
    assert ToSet(facts1 + [p]) == ToSet(facts1) + {p};
  }

  /** After an insertion, what is allocated is stored or about to be freed. */
  lemma KeptOrDead(k: Config, c: Store, f: CFact, p: Ptr)
    requires Good(k, c) && Agrees(k.base, f) && p !in c.heap && c.heap.Keys == ToSet(c.facts)
    ensures var r := Insertion(k, c, f, p);
            r.heap.Keys - Dropped(k, c, f, p) == ToSet(r.facts) && Dropped(k, c, f, p) !! ToSet(r.facts)
  {
    hide Good, Agrees;
    InsertionFacts(k, c, f, p);
    var r := Insertion(k, c, f, p);
    if !Refused(k, c, f) {
      assert r.facts == RoomFor(k, c, f).facts + [p];
      assert p in ToSet(r.facts);
    }
  }

  /** A fact that fits is known afterwards with at least as much data. */
  lemma KnownAfter(k: Config, c: Store, f: CFact, p: Ptr)
    requires Good(k, c) && Agrees(k.base, f) && p !in c.heap && f.size <= k.capacity
    ensures var r := Insertion(k, c, f, p);
            f.id in r.ids && r.ids[f.id] in r.heap && Rank(r.heap[r.ids[f.id]].tag) >= Rank(f.tag)
  {
    hide Good, Agrees, Dropped, ToSet;
    InsertionFacts(k, c, f, p);
  }
}
