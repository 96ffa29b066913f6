/** The contents of the lookup cache, and what each operation makes of them.

    Everything here is a function on values: what it is to use, drain, remove, evict, append and
    insert, and that each of these keeps indexes, accounting, recorded hits and agreement with the
    base. */
module CacheStore {
  import opened Pointers

  /** How much of a fact is cached: its type, its key too, or everything. */
  datatype Tag = TYPE | KEY | FULL

  function Rank(t: Tag): nat {
    match t case TYPE => 0 case KEY => 1 case FULL => 2
  }

  datatype Data = Data(pid: nat, key: seq<int>, value: seq<int>)

  datatype CFact = CFact(id: nat, data: Data, size: nat, tag: Tag)

  type Heap = map<Ptr, CFact>
  type Key = (nat, seq<int>)

  function KeyOf(f: CFact): Key {
    (f.data.pid, f.data.key)
  }

  /** The facts the cache is paired with: ids and keys determine each other. */
  type Base = map<nat, Data>

  ghost predicate BaseOk(b: Base) {
    0 !in b && forall i, j :: i in b && j in b && b[i].pid == b[j].pid && b[i].key == b[j].key ==> i == j
  }

  /** A cached fact says what the base says, as far as it has been loaded. */
  predicate Agrees(b: Base, f: CFact) {
    && f.id in b && f.data.pid == b[f.id].pid
    && (f.tag != TYPE ==> f.data.key == b[f.id].key)
    && (f.tag == FULL ==> f.data.value == b[f.id].value)
  }

  /** Recorded hits: slots below next have been filled. */
  datatype Buffer = Buffer(slots: seq<Ptr>, next: nat)

  /* ------------------------------------------------------------ the invariant */

  function Bytes(h: Heap, facts: seq<Ptr>): nat
    requires forall i :: 0 <= i < |facts| ==> facts[i] in h
  {
    if facts == [] then 0 else h[facts[0]].size + Bytes(h, facts[1..])
  }

  ghost predicate ListOk(h: Heap, facts: seq<Ptr>) {
    (forall i :: 0 <= i < |facts| ==> facts[i] in h) && forall i, j :: 0 <= i < j < |facts| ==> facts[i] != facts[j]
  }

  /** ids leads to exactly the stored facts. */
  ghost predicate IdsOk(h: Heap, facts: seq<Ptr>, ids: map<nat, Ptr>)
    requires ListOk(h, facts)
  {
    && (forall p :: p in facts ==> h[p].id in ids && ids[h[p].id] == p)
    && (forall i :: i in ids ==> ids[i] in facts && h[ids[i]].id == i)
  }

  /** keys leads to exactly the stored facts whose keys are known. */
  ghost predicate KeysOk(h: Heap, facts: seq<Ptr>, keys: map<Key, Ptr>)
    requires ListOk(h, facts)
  {
    && (forall p :: p in facts && h[p].tag != TYPE ==> KeyOf(h[p]) in keys && keys[KeyOf(h[p])] == p)
    && (forall k :: k in keys ==> keys[k] in facts && KeyOf(h[keys[k]]) == k && h[keys[k]].tag != TYPE)
  }

  /** Hits point to stored facts. */
  ghost predicate HitsOk(facts: seq<Ptr>, touched: seq<Buffer>, size: nat) {
    forall t :: 0 <= t < |touched| ==>
      |touched[t].slots| == size && touched[t].next <= size && forall i :: 0 <= i < touched[t].next ==> touched[t].slots[i] in facts
  }

  ghost predicate AllAgree(b: Base, h: Heap, facts: seq<Ptr>)
    requires ListOk(h, facts)
  {
    forall p :: p in facts ==> Agrees(b, h[p])
  }

  /* ------------------------------------------------------------ the list */

  function Without(facts: seq<Ptr>, p: Ptr): seq<Ptr> {
    if facts == [] then [] else if facts[0] == p then facts[1..] else [facts[0]] + Without(facts[1..], p)
  }

  lemma {:induction false} WithoutMembers(facts: seq<Ptr>, p: Ptr, q: Ptr)
    requires forall i, j :: 0 <= i < j < |facts| ==> facts[i] != facts[j]
    ensures q in Without(facts, p) <==> q in facts && q != p
  {
    if facts != [] {
      assert facts == [facts[0]] + facts[1..];
      if facts[0] != p {
        WithoutMembers(facts[1..], p, q);
      }
    }
  }

  lemma {:induction false} WithoutOk(h: Heap, facts: seq<Ptr>, p: Ptr)
    requires ListOk(h, facts) && p in facts
    ensures ListOk(h, Without(facts, p)) && |Without(facts, p)| == |facts| - 1
    ensures Bytes(h, Without(facts, p)) + h[p].size == Bytes(h, facts)
  {
    assert facts == [facts[0]] + facts[1..];
    if facts[0] != p {
      var rest := facts[1..];
      WithoutOk(h, rest, p);
      var r := Without(rest, p);
      forall i | 0 <= i < |r| ensures r[i] != facts[0] {
        WithoutMembers(rest, p, r[i]);
      }
      assert ([facts[0]] + r)[1..] == r;
      ConsOk(h, facts[0], r);
    }
  }

  lemma ConsOk(h: Heap, p: Ptr, r: seq<Ptr>)
    requires ListOk(h, r) && p in h && forall i :: 0 <= i < |r| ==> r[i] != p
    ensures ListOk(h, [p] + r)
  {
    var s := [p] + r;
    assert forall i :: 0 < i < |s| ==> s[i] == r[i - 1];
  }

  lemma {:induction false} BytesSplit(h: Heap, a: seq<Ptr>, b: seq<Ptr>)
    requires (forall i :: 0 <= i < |a| ==> a[i] in h) && (forall i :: 0 <= i < |b| ==> b[i] in h)
    ensures Bytes(h, a + b) == Bytes(h, a) + Bytes(h, b)
  {
    if a == [] {
      assert a + b == b;
    } else {
      assert (a + b)[1..] == a[1..] + b;
      BytesSplit(h, a[1..], b);
    }
  }

  lemma {:induction false} BytesFrame(h: Heap, h': Heap, facts: seq<Ptr>)
    requires forall i :: 0 <= i < |facts| ==> facts[i] in h && facts[i] in h' && h'[facts[i]] == h[facts[i]]
    ensures Bytes(h', facts) == Bytes(h, facts)
  {
    if facts != [] {
      BytesFrame(h, h', facts[1..]);
    }
  }

  /** Move a fact to the end of the list. */
  function Touched(facts: seq<Ptr>, p: Ptr): seq<Ptr> {
    Without(facts, p) + [p]
  }

  lemma TouchedOk(h: Heap, facts: seq<Ptr>, p: Ptr)
    requires ListOk(h, facts) && p in facts
    ensures ListOk(h, Touched(facts, p)) && Bytes(h, Touched(facts, p)) == Bytes(h, facts)
    ensures |Touched(facts, p)| == |facts| && forall q :: q in Touched(facts, p) <==> q in facts
  {
    WithoutOk(h, facts, p);
    var r := Without(facts, p);
    forall q ensures q in r <==> q in facts && q != p {
      WithoutMembers(facts, p, q);
    }
    BytesSplit(h, r, [p]);
    assert Bytes(h, [p]) == h[p].size + Bytes(h, []);
    assert p !in r;
  }

  /** All hits of one buffer, in order. */
  function TouchAll(facts: seq<Ptr>, hits: seq<Ptr>): seq<Ptr> {
    if hits == [] then facts else Touched(TouchAll(facts, hits[..|hits| - 1]), hits[|hits| - 1])
  }

  /** The same facts in another order. */
  ghost predicate SameFacts(h: Heap, a: seq<Ptr>, b: seq<Ptr>) {
    && ListOk(h, a) && ListOk(h, b) && |a| == |b| && Bytes(h, a) == Bytes(h, b) && forall p :: p in a <==> p in b
  }

  function ToSet(s: seq<Ptr>): set<Ptr> {
    set p | p in s
  }

  function Wanted(capacity: nat, size: nat): nat {
    if capacity as real * 0.9 > size as real then (capacity as real * 0.9 - size as real).Floor else 0
  }

  lemma WantedFits(capacity: nat, size: nat)
    requires size <= capacity
    ensures Wanted(capacity, size) + size <= capacity
  {
    if capacity as real * 0.9 > size as real {
      assert Wanted(capacity, size) as real <= capacity as real * 0.9 - size as real;
    }
  }

  /* ------------------------------------------------------------ the indexes */

  ghost predicate Indexed(h: Heap, facts: seq<Ptr>, ids: map<nat, Ptr>, keys: map<Key, Ptr>) {
    ListOk(h, facts) && IdsOk(h, facts, ids) && KeysOk(h, facts, keys)
  }

  function KeysWithout(keys: map<Key, Ptr>, f: CFact): map<Key, Ptr> {
    if f.tag != TYPE then keys - {KeyOf(f)} else keys
  }

  function KeysWith(keys: map<Key, Ptr>, f: CFact, p: Ptr): map<Key, Ptr> {
    if f.tag != TYPE then keys[KeyOf(f) := p] else keys
  }

  /** Taking one fact out of both indexes. */
  lemma IndexRemove(h: Heap, facts: seq<Ptr>, ids: map<nat, Ptr>, keys: map<Key, Ptr>, p: Ptr, facts': seq<Ptr>)
    requires Indexed(h, facts, ids, keys) && p in facts && ListOk(h, facts')
    requires forall q :: q in facts' <==> q in facts && q != p
    ensures Indexed(h, facts', ids - {h[p].id}, KeysWithout(keys, h[p]))
  {
    var ids', keys' := ids - {h[p].id}, KeysWithout(keys, h[p]);
    assert IdsOk(h, facts', ids');
    assert KeysOk(h, facts', keys');
  }

  lemma IndexSame(h: Heap, facts: seq<Ptr>, ids: map<nat, Ptr>, keys: map<Key, Ptr>, facts': seq<Ptr>)
    requires Indexed(h, facts, ids, keys) && ListOk(h, facts') && forall q :: q in facts' <==> q in facts
    ensures Indexed(h, facts', ids, keys)
  {
  }

  /** Two facts with the same key are the same fact. */
  lemma KeyIsNew(b: Base, h: Heap, facts: seq<Ptr>, ids: map<nat, Ptr>, keys: map<Key, Ptr>, f: CFact)
    requires BaseOk(b) && Indexed(h, facts, ids, keys) && AllAgree(b, h, facts) && Agrees(b, f) && f.id !in ids && f.tag != TYPE
    ensures KeyOf(f) !in keys
  {
    forall q | q in facts && h[q].tag != TYPE ensures KeyOf(h[q]) != KeyOf(f) {
      assert Agrees(b, h[q]) && h[q].id in ids;
    }
  }

  lemma IndexAdd(b: Base, h: Heap, facts: seq<Ptr>, ids: map<nat, Ptr>, keys: map<Key, Ptr>, f: CFact, p: Ptr)
    requires BaseOk(b) && Indexed(h, facts, ids, keys) && AllAgree(b, h, facts) && Agrees(b, f) && f.id !in ids && p !in h
    ensures Indexed(h[p := f], facts + [p], ids[f.id := p], KeysWith(keys, f, p)) && AllAgree(b, h[p := f], facts + [p])
  {
    var h', facts' := h[p := f], facts + [p];
    forall q | q in facts ensures q in h' && q != p && h'[q] == h[q] {
    }
    assert ListOk(h', facts');
    if f.tag != TYPE {
      KeyIsNew(b, h, facts, ids, keys, f);
    }
    assert IdsOk(h', facts', ids[f.id := p]);
    assert KeysOk(h', facts', KeysWith(keys, f, p));
  }

  /** One more recorded hit. */
  function Hit(b: Buffer, p: Ptr): Buffer
    requires b.next < |b.slots|
  {
    Buffer(b.slots[b.next := p], b.next + 1)
  }

  predicate NoHits(touched: seq<Buffer>) {
    forall t :: 0 <= t < |touched| ==> touched[t].next == 0
  }

  lemma IdFacts(h: Heap, facts: seq<Ptr>, ids: map<nat, Ptr>, keys: map<Key, Ptr>, id: nat)
    requires Indexed(h, facts, ids, keys)
    ensures id in ids ==> ids[id] in facts && ids[id] in h && h[ids[id]].id == id
  {
  }

  lemma SameList(h: Heap, facts: seq<Ptr>, ids: map<nat, Ptr>, keys: map<Key, Ptr>)
    requires Indexed(h, facts, ids, keys)
    ensures ListOk(h, facts) && SameFacts(h, facts, facts)
  {
  }

  lemma TouchStep(h: Heap, a: seq<Ptr>, b: seq<Ptr>, p: Ptr)
    requires SameFacts(h, a, b) && p in a
    ensures SameFacts(h, a, Touched(b, p))
  {
    hide Bytes, Touched, ListOk;
    TouchedOk(h, b, p);
  }

  lemma RemoveOk(b: Base, h: Heap, facts: seq<Ptr>, ids: map<nat, Ptr>, keys: map<Key, Ptr>, p: Ptr, touched: seq<Buffer>, size: nat)
    requires Indexed(h, facts, ids, keys) && AllAgree(b, h, facts) && HitsOk(facts, touched, size) && NoHits(touched) && p in facts
    ensures p in h && ListOk(h, facts) && ListOk(h, Without(facts, p))
    ensures Bytes(h, facts) == Bytes(h, Without(facts, p)) + h[p].size
    ensures |Without(facts, p)| == |facts| - 1 && forall q :: q in Without(facts, p) <==> q in facts && q != p
    ensures Indexed(h, Without(facts, p), ids - {h[p].id}, KeysWithout(keys, h[p]))
    ensures AllAgree(b, h, Without(facts, p)) && HitsOk(Without(facts, p), touched, size)
  {
    hide Without, Bytes, IdsOk, KeysOk;
    WithoutOk(h, facts, p);
    forall q ensures q in Without(facts, p) <==> q in facts && q != p {
      WithoutMembers(facts, p, q);
    }
    IndexRemove(h, facts, ids, keys, p, Without(facts, p));
  }

  lemma BytesAdd(h: Heap, facts: seq<Ptr>, f: CFact, p: Ptr)
    requires ListOk(h, facts) && p !in h
    ensures forall i :: 0 <= i < |facts + [p]| ==> (facts + [p])[i] in h[p := f]
    ensures Bytes(h[p := f], facts + [p]) == Bytes(h, facts) + f.size
  {
    BytesFrame(h, h[p := f], facts);
    BytesSplit(h[p := f], facts, [p]);
    assert Bytes(h[p := f], [p]) == f.size + Bytes(h[p := f], []);
  }

  lemma AppendOk(b: Base, h: Heap, facts: seq<Ptr>, ids: map<nat, Ptr>, keys: map<Key, Ptr>, f: CFact, p: Ptr, touched: seq<Buffer>, size: nat)
    requires BaseOk(b) && Indexed(h, facts, ids, keys) && AllAgree(b, h, facts) && HitsOk(facts, touched, size)
    requires Agrees(b, f) && f.id !in ids && p !in h
    ensures Indexed(h[p := f], facts + [p], ids[f.id := p], KeysWith(keys, f, p)) && AllAgree(b, h[p := f], facts + [p])
    ensures HitsOk(facts + [p], touched, size) && Bytes(h[p := f], facts + [p]) == Bytes(h, facts) + f.size
  {
    hide Bytes, IdsOk, KeysOk, BaseOk, Agrees;
    IndexAdd(b, h, facts, ids, keys, f, p);
    BytesAdd(h, facts, f, p);
  }

  lemma KeyAnswer(b: Base, h: Heap, facts: seq<Ptr>, ids: map<nat, Ptr>, keys: map<Key, Ptr>, k: Key)
    requires Indexed(h, facts, ids, keys) && AllAgree(b, h, facts) && k in keys && BaseOk(b)
    ensures keys[k] in facts && keys[k] in h
    ensures var id := h[keys[k]].id; id != 0 && id in b && b[id].pid == k.0 && b[id].key == k.1
  {
    assert Agrees(b, h[keys[k]]);
  }

  lemma IdAnswer(b: Base, h: Heap, facts: seq<Ptr>, ids: map<nat, Ptr>, keys: map<Key, Ptr>, id: nat)
    requires Indexed(h, facts, ids, keys) && AllAgree(b, h, facts) && id in ids
    ensures ids[id] in facts && ids[id] in h && id in b && h[ids[id]].data.pid == b[id].pid
    ensures h[ids[id]].tag == FULL ==> h[ids[id]].data == b[id]
  {
    assert Agrees(b, h[ids[id]]);
  }

  /* ------------------------------------------------------------ the store */

  /** What is the same for the whole life of a cache: the base, how many bytes and how many hits of
      a buffer it may hold, and the size of a fact without its clause. */
  datatype Config = Config(base: Base, capacity: nat, size: nat, header: nat)

  /** What a fact takes: a header, and as much of its clause as has been loaded. */
  function SizeFor(k: Config, d: Data, t: Tag): nat {
    k.header + (if t == TYPE then 0 else |d.key|) + (if t == FULL then |d.value| else 0)
  }

  /** A fact as it is made from the base. */
  predicate Proper(k: Config, f: CFact) {
    Agrees(k.base, f) && f.size == SizeFor(k, k.base[f.id], f.tag)
  }

  /** All facts that are allocated; the stored ones, the least recently used one first; their
      bytes and number; the two indexes; and the recorded hits. */
  datatype Store = Store(heap: Heap, facts: seq<Ptr>, bytes: nat, count: nat, ids: map<nat, Ptr>, keys: map<Key, Ptr>,
                         touched: seq<Buffer>)

  /** What holds of a cache at any time. */
  ghost predicate Good(k: Config, c: Store) {
    && BaseOk(k.base) && Indexed(c.heap, c.facts, c.ids, c.keys) && AllAgree(k.base, c.heap, c.facts)
    && c.bytes == Bytes(c.heap, c.facts) <= k.capacity && c.count == |c.facts|
    && HitsOk(c.facts, c.touched, k.size)
  }

  function Empty(shards: nat, size: nat): Store {
    Store(map[], [], 0, 0, map[], map[], seq(shards, _ => Buffer(seq(size, _ => NULL), 0)))
  }

  lemma EmptyGood(k: Config, shards: nat)
    requires BaseOk(k.base)
    ensures Good(k, Empty(shards, k.size))
  {
  }

  lemma GoodFacts(k: Config, c: Store)
    requires Good(k, c)
    ensures ListOk(c.heap, c.facts) && BaseOk(k.base) && forall p :: p in c.facts ==> p in c.heap && Agrees(k.base, c.heap[p])
    ensures c.bytes == Bytes(c.heap, c.facts) <= k.capacity && c.count == |c.facts|
    ensures forall t :: 0 <= t < |c.touched| ==> |c.touched[t].slots| == k.size && c.touched[t].next <= k.size
    ensures forall i :: i in c.ids ==> c.ids[i] in c.facts && c.ids[i] in c.heap && c.heap[c.ids[i]].id == i
    ensures forall p :: p in c.facts ==> p in c.heap && c.heap[p].id in c.ids && c.ids[c.heap[p].id] == p
  {
  }

  /* ------------------------------------------------------------ applying hits */

  /** Move one stored fact to the end. */
  function Used(c: Store, p: Ptr): Store {
    c.(facts := Touched(c.facts, p))
  }

  lemma UsedGood(k: Config, c: Store, p: Ptr)
    requires Good(k, c) && p in c.facts
    ensures Good(k, Used(c, p)) && ToSet(Used(c, p).facts) == ToSet(c.facts)
  {
    hide Touched, Bytes, Indexed, AllAgree, HitsOk, ListOk;
    SameList(c.heap, c.facts, c.ids, c.keys);
    TouchedOk(c.heap, c.facts, p);
    SameMembers(k, c, Touched(c.facts, p));
  }

  lemma SameMembers(k: Config, c: Store, facts: seq<Ptr>)
    requires Good(k, c) && ListOk(c.heap, facts) && forall q :: q in facts <==> q in c.facts
    ensures Indexed(c.heap, facts, c.ids, c.keys) && AllAgree(k.base, c.heap, facts) && HitsOk(facts, c.touched, k.size)
  {
    hide Bytes;
    IndexSame(c.heap, c.facts, c.ids, c.keys, facts);
  }

  /** Replace one buffer. */
  function WithBuffer(c: Store, t: nat, b: Buffer): Store
    requires t < |c.touched|
  {
    c.(touched := c.touched[t := b])
  }

  lemma BufferGood(k: Config, c: Store, t: nat, b: Buffer)
    requires Good(k, c) && t < |c.touched| && |b.slots| == k.size && b.next <= k.size
    requires forall i :: 0 <= i < b.next ==> b.slots[i] in c.facts
    ensures Good(k, WithBuffer(c, t, b))
  {
    hide Bytes, Indexed, AllAgree;
  }

  /** Apply hits, one after the other. */
  function Applied(c: Store, hits: seq<Ptr>): Store {
    c.(facts := TouchAll(c.facts, hits))
  }

  lemma {:induction false} AppliedGood(k: Config, c: Store, hits: seq<Ptr>)
    requires Good(k, c) && forall i :: 0 <= i < |hits| ==> hits[i] in c.facts
    ensures Good(k, Applied(c, hits)) && ToSet(Applied(c, hits).facts) == ToSet(c.facts)
  {
    hide Good, Touched;
    if hits != [] {
      var n := |hits| - 1;
      AppliedGood(k, c, hits[..n]);
      var c' := Applied(c, hits[..n]);
      assert hits[n] in ToSet(c.facts);
      UsedGood(k, c', hits[n]);
    }
  }

  /** Apply all hits of a buffer and empty it. */
  function Drained(c: Store, t: nat): Store
    requires t < |c.touched| && c.touched[t].next <= |c.touched[t].slots|
  {
    WithBuffer(Applied(c, c.touched[t].slots[..c.touched[t].next]), t, c.touched[t].(next := 0))
  }

  lemma DrainedGood(k: Config, c: Store, t: nat)
    requires Good(k, c) && t < |c.touched|
    ensures c.touched[t].next <= |c.touched[t].slots|
    ensures Good(k, Drained(c, t)) && ToSet(Drained(c, t).facts) == ToSet(c.facts)
    ensures Drained(c, t) == c.(facts := Drained(c, t).facts, touched := c.touched[t := c.touched[t].(next := 0)])
  {
    hide Good;
    GoodFacts(k, c);
    GoodHits(k, c, t);
    var hits := c.touched[t].slots[..c.touched[t].next];
    AppliedGood(k, c, hits);
    BufferGood(k, Applied(c, hits), t, c.touched[t].(next := 0));
  }

  lemma GoodHits(k: Config, c: Store, t: nat)
    requires Good(k, c) && t < |c.touched|
    ensures c.touched[t].next <= |c.touched[t].slots| == k.size
    ensures forall i :: 0 <= i < c.touched[t].next ==> c.touched[t].slots[i] in c.facts
  {
  }

  /** The first n buffers have been emptied. */
  ghost predicate Emptied(a: seq<Buffer>, b: seq<Buffer>, n: nat) {
    |b| == |a| && forall t :: 0 <= t < |a| ==> b[t] == if t < n then a[t].(next := 0) else a[t]
  }

  lemma EmptiedNext(a: seq<Buffer>, b: seq<Buffer>, n: nat)
    requires Emptied(a, b, n) && n < |a|
    ensures Emptied(a, b[n := b[n].(next := 0)], n + 1)
  {
  }

  /** Drain the first n buffers, one after the other. */
  ghost function DrainedTo(k: Config, c: Store, n: nat): (r: Store)
    requires Good(k, c) && n <= |c.touched|
    ensures Good(k, r) && ToSet(r.facts) == ToSet(c.facts) && r == c.(facts := r.facts, touched := r.touched)
    ensures |r.touched| == |c.touched| && Emptied(c.touched, r.touched, n)
  {
    hide Good, ToSet, Drained, Emptied;
    if n == 0 then EmptiedNone(c.touched); c
    else
      var d := DrainedTo(k, c, n - 1);
      DrainedGood(k, d, n - 1);
      EmptiedNext(c.touched, d.touched, n - 1);
      Drained(d, n - 1)
  }

  lemma EmptiedNone(a: seq<Buffer>)
    ensures Emptied(a, a, 0)
  {
  }

  ghost function DrainedAll(k: Config, c: Store): (r: Store)
    requires Good(k, c)
    ensures Good(k, r) && ToSet(r.facts) == ToSet(c.facts) && r == c.(facts := r.facts, touched := r.touched)
    ensures |r.touched| == |c.touched| && NoHits(r.touched)
    ensures forall t :: 0 <= t < |c.touched| ==> r.touched[t] == c.touched[t].(next := 0)
  {
    hide Good, ToSet;
    DrainedTo(k, c, |c.touched|)
  }

  /* ------------------------------------------------------------ taking facts out and putting one in */

  /** Take one stored fact out of the list and of both indexes; it stays allocated. */
  function Removed(c: Store, p: Ptr): Store
    requires p in c.heap && c.heap[p].size <= c.bytes && c.count > 0
  {
    c.(facts := Without(c.facts, p), bytes := c.bytes - c.heap[p].size, count := c.count - 1,
       ids := c.ids - {c.heap[p].id}, keys := KeysWithout(c.keys, c.heap[p]))
  }

  lemma RemovedGood(k: Config, c: Store, p: Ptr)
    requires Good(k, c) && NoHits(c.touched) && p in c.facts
    ensures p in c.heap && c.heap[p].size <= c.bytes && c.count > 0
    ensures Good(k, Removed(c, p)) && (forall q :: q in Removed(c, p).facts <==> q in c.facts && q != p)
    ensures |Removed(c, p).facts| == |c.facts| - 1
  {
    hide Indexed, AllAgree, ListOk, HitsOk, Bytes, BaseOk;
    RemoveOk(k.base, c.heap, c.facts, c.ids, c.keys, p, c.touched, k.size);
  }

  /** Take out the least recently used facts until at most target bytes are left. */
  ghost function Evicted(k: Config, c: Store, target: nat): (r: Store)
    requires Good(k, c) && NoHits(c.touched)
    ensures Good(k, r) && r.bytes <= target && r.heap == c.heap && r.touched == c.touched
    ensures forall q :: q in r.facts ==> q in c.facts
    ensures forall i :: i in r.ids ==> i in c.ids
    decreases |c.facts|
  {
    hide Good;
    GoodFacts(k, c);
    if c.bytes <= target || c.facts == [] then NothingLeft(k, c); c
    else
      RemovedGood(k, c, c.facts[0]);
      Evicted(k, Removed(c, c.facts[0]), target)
  }

  /** What goes is the shortest beginning of the list whose removal gets the bytes down to the
      target. */
  lemma {:induction false} EvictsShortest(k: Config, c: Store, target: nat) returns (n: nat)
    requires Good(k, c) && NoHits(c.touched)
    ensures n <= |c.facts| && Evicted(k, c, target).facts == c.facts[n..] && ListOk(c.heap, c.facts)
    ensures forall m :: 0 <= m < n ==> Bytes(c.heap, c.facts[m..]) > target
    decreases |c.facts|
  {
    hide Good, Bytes, Evicted, ListOk;
    GoodFacts(k, c);
    assert c.facts[0..] == c.facts;
    if c.bytes <= target || c.facts == [] {
      n := 0;
      assert Evicted(k, c, target) == c by {
        EvictedDone(k, c, target);
      }
    } else {
      var d := EvictedStep(k, c, target);
      var i := EvictsShortest(k, d, target);
      n := i + 1;
      assert c.facts[1..][i..] == c.facts[n..];
      forall m | 0 <= m < n ensures Bytes(c.heap, c.facts[m..]) > target {
        if m > 0 {
          assert c.facts[1..][m - 1..] == c.facts[m..];
        }
      }
    }
  }

  lemma EvictedDone(k: Config, c: Store, target: nat)
    requires Good(k, c) && NoHits(c.touched) && (c.bytes <= target || c.facts == [])
    ensures Evicted(k, c, target) == c
  {
    hide Good;
  }

  lemma EvictedStep(k: Config, c: Store, target: nat) returns (d: Store)
    requires Good(k, c) && NoHits(c.touched) && c.bytes > target && c.facts != []
    ensures Good(k, d) && d.touched == c.touched && d.heap == c.heap && d.facts == c.facts[1..]
    ensures Evicted(k, c, target) == Evicted(k, d, target)
  {
    hide Good;
    RemovedGood(k, c, c.facts[0]);
    d := Removed(c, c.facts[0]);
  }

  lemma NothingLeft(k: Config, c: Store)
    requires Good(k, c)
    ensures c.facts == [] ==> c.bytes == 0
  {
  }

  /** Make room for a fact: take out the one with less data, then evict if that is not enough. */
  ghost function Roomy(k: Config, c: Store, f: CFact): (r: Store)
    requires Good(k, c) && NoHits(c.touched) && f.size <= k.capacity
    ensures Good(k, r) && f.id !in r.ids && r.bytes + f.size <= k.capacity && r.heap == c.heap && r.touched == c.touched
    ensures forall q :: q in r.facts ==> q in c.facts
    ensures f.id in c.ids || c.bytes + f.size > k.capacity ==> exists q :: q in c.facts && q !in r.facts
  {
    hide Good;
    GoodFacts(k, c);
    WantedFits(k.capacity, f.size);
    var c1 := WithoutOld(k, c, f);
    if c1.bytes + f.size > k.capacity then
      EvictsSome(k, c1, Wanted(k.capacity, f.size));
      Evicted(k, c1, Wanted(k.capacity, f.size))
    else c1
  }

  ghost function WithoutOld(k: Config, c: Store, f: CFact): (r: Store)
    requires Good(k, c) && NoHits(c.touched)
    ensures Good(k, r) && f.id !in r.ids && r.heap == c.heap && r.touched == c.touched
    ensures forall q :: q in r.facts ==> q in c.facts
    ensures f.id !in c.ids ==> r == c
    ensures f.id in c.ids ==> c.ids[f.id] in c.facts && c.ids[f.id] !in r.facts
  {
    hide Good;
    GoodFacts(k, c);
    if f.id in c.ids then RemovedGood(k, c, c.ids[f.id]); Removed(c, c.ids[f.id]) else c
  }

  /** Evicting below what is there takes something out. */
  lemma EvictsSome(k: Config, c: Store, target: nat)
    requires Good(k, c) && NoHits(c.touched) && c.bytes > target
    ensures exists q :: q in c.facts && q !in Evicted(k, c, target).facts
  {
    hide Good;
    GoodFacts(k, c);
    NothingLeft(k, c);
    RemovedGood(k, c, c.facts[0]);
    var d := Removed(c, c.facts[0]);
    assert c.facts[0] in c.facts && c.facts[0] !in d.facts;
    assert Evicted(k, c, target) == Evicted(k, d, target);
  }

  /** Store a new fact as the most recently used one. */
  function Appended(c: Store, f: CFact, p: Ptr): Store {
    Store(c.heap[p := f], c.facts + [p], c.bytes + f.size, c.count + 1, c.ids[f.id := p], KeysWith(c.keys, f, p), c.touched)
  }

  lemma AppendedGood(k: Config, c: Store, f: CFact, p: Ptr)
    requires Good(k, c) && Agrees(k.base, f) && f.id !in c.ids && c.bytes + f.size <= k.capacity && p !in c.heap
    ensures Good(k, Appended(c, f, p))
  {
    hide Indexed, AllAgree, ListOk, HitsOk, Bytes, BaseOk, Agrees;
    AppendOk(k.base, c.heap, c.facts, c.ids, c.keys, f, p, c.touched, k.size);
  }

  /* ------------------------------------------------------------ insertion */

  /** The fact does not fit at all, or is known with as much data. */
  predicate Refused(k: Config, c: Store, f: CFact) {
    f.size > k.capacity || (f.id in c.ids && c.ids[f.id] in c.heap && Rank(c.heap[c.ids[f.id]].tag) >= Rank(f.tag))
  }

  /** Something has to go to make room for the fact. */
  predicate Drops(k: Config, c: Store, f: CFact) {
    !Refused(k, c, f) && (f.id in c.ids || c.bytes + f.size > k.capacity)
  }

  /** The whole of an insertion, with p as the address of the new fact. */
  ghost function Insertion(k: Config, c: Store, f: CFact, p: Ptr): (r: Store)
    requires Good(k, c) && Agrees(k.base, f) && p !in c.heap
    ensures Good(k, r)
  {
    hide Good;
    if Refused(k, c, f) then c
    else
      var room := RoomFor(k, c, f);
      AppendedGood(k, room, f, p);
      Appended(room, f, p)
  }

  ghost function RoomFor(k: Config, c: Store, f: CFact): (r: Store)
    requires Good(k, c) && !Refused(k, c, f)
    ensures Good(k, r) && f.id !in r.ids && r.bytes + f.size <= k.capacity && r.heap == c.heap
    ensures |r.touched| == |c.touched| && forall q :: q in r.facts ==> q in c.facts
    ensures Drops(k, c, f) ==> exists q :: q in c.facts && q !in r.facts
    ensures Drops(k, c, f) ==> forall t :: 0 <= t < |c.touched| ==> r.touched[t] == c.touched[t].(next := 0)
    ensures !Drops(k, c, f) ==> r == c
  {
    hide Good;
    if Drops(k, c, f) then
      var d := DrainedAll(k, c);
      assert forall q :: q in d.facts <==> q in ToSet(d.facts);
      assert forall q :: q in c.facts <==> q in ToSet(c.facts);
      Roomy(k, d, f)
    else c
  }

  /** What goes and what comes with an insertion. */
  ghost function Dropped(k: Config, c: Store, f: CFact, p: Ptr): set<Ptr>
    requires Good(k, c) && Agrees(k.base, f) && p !in c.heap
  {
    ToSet(c.facts) - ToSet(Insertion(k, c, f, p).facts)
  }

  lemma InsertionFacts(k: Config, c: Store, f: CFact, p: Ptr)
    requires Good(k, c) && Agrees(k.base, f) && p !in c.heap
    ensures var r := Insertion(k, c, f, p);
            && r.heap == (if Refused(k, c, f) then c.heap else c.heap[p := f])
            && ToSet(r.facts) <= ToSet(c.facts) + {p} && |r.touched| == |c.touched|
            && (!Refused(k, c, f) ==> f.id in r.ids && r.ids[f.id] == p)
    ensures Dropped(k, c, f, p) != {} <==> Drops(k, c, f)
    ensures Drops(k, c, f) ==> NoHits(Insertion(k, c, f, p).touched)
    ensures forall t :: 0 <= t < |c.touched| ==>
              Insertion(k, c, f, p).touched[t] == if Drops(k, c, f) then c.touched[t].(next := 0) else c.touched[t]
  {
    hide Good;
    GoodFacts(k, c);
    var r := Insertion(k, c, f, p);
    if Refused(k, c, f) {
      assert ToSet(c.facts) - ToSet(c.facts) == {};
    } else {
      var room := RoomFor(k, c, f);
      assert r.facts == room.facts + [p];
      if Drops(k, c, f) {
        var q :| q in c.facts && q !in room.facts;
        assert q in Dropped(k, c, f, p);
      }
    }
  }

  /** Freeing facts that are not stored leaves everything else as it is. */
  lemma FreedGood(k: Config, c: Store, dead: set<Ptr>)
    requires Good(k, c) && dead !! ToSet(c.facts)
    ensures Good(k, c.(heap := c.heap - dead))
  {
    var h := c.heap - dead;
    forall p | p in c.facts ensures p in h && h[p] == c.heap[p] {
      assert p in ToSet(c.facts);
    }
    BytesFrame(c.heap, h, c.facts);
  }

  /* ------------------------------------------------------------ a hit and an insertion as a whole */

  /** What a hit on p does: it is recorded, or moves p to the end of the list when there are no
      buffers; a full buffer is applied and emptied instead if the list can be locked. */
  ghost predicate IsHit(k: Config, c: Store, p: Ptr, shard: nat, locked: bool, c': Store) {
    if c.touched == [] then c' == Used(c, p)
    else
      && shard < |c.touched|
      && if c.touched[shard].next < k.size then
           c.touched[shard].next < |c.touched[shard].slots| && c' == WithBuffer(c, shard, Hit(c.touched[shard], p))
         else if locked then c.touched[shard].next <= |c.touched[shard].slots| && c' == Drained(c, shard)
         else c' == c
  }

  /** A recorded hit is the last one of its buffer. */
  lemma HitAppends(b: Buffer, p: Ptr)
    requires b.next < |b.slots|
    ensures |Hit(b, p).slots| == |b.slots| && Hit(b, p).next <= |b.slots|
    ensures Hit(b, p).slots[..Hit(b, p).next] == b.slots[..b.next] + [p]
  {
  }

  /** An insertion with the new fact at address p, after what had to go has been freed. */
  ghost function Inserted(k: Config, c: Store, f: CFact, p: Ptr): Store
    requires Good(k, c) && Agrees(k.base, f) && p !in c.heap
  {
    var r := Insertion(k, c, f, p);
    r.(heap := r.heap - Dropped(k, c, f, p))
  }

  /** What is made from the base for a fact of which this much is asked. */
  function Made(k: Config, id: nat, t: Tag): CFact
    requires id in k.base
  {
    var d := k.base[id];
    var loaded := match t case TYPE => Data(d.pid, [], []) case KEY => Data(d.pid, d.key, []) case FULL => d;
    CFact(id, loaded, SizeFor(k, d, t), t)
  }

  lemma MadeProper(k: Config, id: nat, t: Tag)
    requires id in k.base
    ensures Proper(k, Made(k, id, t))
    ensures Made(k, id, t).size == k.header + |Made(k, id, t).data.key| + |Made(k, id, t).data.value|
  {
  }
}
