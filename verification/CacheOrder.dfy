/** Who is the least recently used. */
module CacheOrder {
  // The list of stored facts is ordered by last use, and what goes to make room are the facts whose
  // last use is the oldest.
  import opened Pointers
  import opened CacheStore

  predicate Distinct(s: seq<Ptr>) {
    forall i, j :: 0 <= i < j < |s| ==> s[i] != s[j]
  }

  /** x stands before y in the list. */
  ghost predicate Before(s: seq<Ptr>, x: Ptr, y: Ptr) {
    exists i, j :: 0 <= i < j < |s| && s[i] == x && s[j] == y
  }

  /** When x was hit for the last time, and -1 if it was not. */
  function LastHit(hits: seq<Ptr>, x: Ptr): (r: int)
    ensures -1 <= r < |hits| && (r == -1 <==> x !in hits)
    ensures r >= 0 ==> hits[r] == x && forall i :: r < i < |hits| ==> hits[i] != x
  {
    if hits == [] then -1
    else
      var n := |hits| - 1;
      assert hits == hits[..n] + [hits[n]];
      if hits[n] == x then n else LastHit(hits[..n], x)
  }

  /* ------------------------------------------------------------ the order after hits */

  /** r is s without its entry k. */
  predicate Skips(s: seq<Ptr>, r: seq<Ptr>, k: nat) {
    k < |s| && |r| == |s| - 1 && (forall i :: 0 <= i < k ==> r[i] == s[i]) && forall i :: k <= i < |r| ==> r[i] == s[i + 1]
  }

  lemma {:induction false} WithoutSplit(s: seq<Ptr>, p: Ptr) returns (k: nat)
    requires p in s
    ensures k < |s| && s[k] == p && Skips(s, Without(s, p), k)
  {
    if s[0] == p {
      k := 0;
    } else {
      assert s == [s[0]] + s[1..];
      var j := WithoutSplit(s[1..], p);
      k := j + 1;
      SkipsCons(s, Without(s[1..], p), j);
    }
  }

  lemma SkipsCons(s: seq<Ptr>, r: seq<Ptr>, j: nat)
    requires s != [] && Skips(s[1..], r, j)
    ensures Skips(s, [s[0]] + r, j + 1)
  {
    var t := [s[0]] + r;
    assert forall i :: 0 < i < |t| ==> t[i] == r[i - 1];
    assert forall i :: 0 <= i < |s| - 1 ==> s[1..][i] == s[i + 1];
  }

  /** Taking one out leaves the others in order. */
  lemma WithoutOrder(s: seq<Ptr>, p: Ptr, x: Ptr, y: Ptr)
    requires Distinct(s) && p in s && x != p && y != p
    ensures Distinct(Without(s, p)) && (Before(Without(s, p), x, y) <==> Before(s, x, y))
  {
    hide Without, Before, Skips;
    var k := WithoutSplit(s, p);
    SkipDistinct(s, Without(s, p), k);
    if Before(s, x, y) {
      SkipForth(s, Without(s, p), k, x, y);
    }
    if Before(Without(s, p), x, y) {
      SkipBack(s, Without(s, p), k, x, y);
    }
  }

  lemma SkipDistinct(s: seq<Ptr>, r: seq<Ptr>, k: nat)
    requires Skips(s, r, k) && Distinct(s)
    ensures Distinct(r)
  {
    assert forall i :: 0 <= i < |r| ==> r[i] == s[if i < k then i else i + 1];
  }

  lemma SkipForth(s: seq<Ptr>, r: seq<Ptr>, k: nat, x: Ptr, y: Ptr)
    requires Skips(s, r, k) && x != s[k] && y != s[k] && Before(s, x, y)
    ensures Before(r, x, y)
  {
    var i, j :| 0 <= i < j < |s| && s[i] == x && s[j] == y;
    var i', j' := if i < k then i else i - 1, if j < k then j else j - 1;
    assert r[i'] == x && r[j'] == y;
  }

  lemma SkipBack(s: seq<Ptr>, r: seq<Ptr>, k: nat, x: Ptr, y: Ptr)
    requires Skips(s, r, k) && Before(r, x, y)
    ensures Before(s, x, y)
  {
    var i, j :| 0 <= i < j < |r| && r[i] == x && r[j] == y;
    var i', j' := if i < k then i else i + 1, if j < k then j else j + 1;
    assert s[i'] == x && s[j'] == y;
  }

  /** A hit makes the fact the last of the list; the others keep their order. */
  lemma TouchedOrder(s: seq<Ptr>, p: Ptr, x: Ptr, y: Ptr)
    requires Distinct(s) && p in s && x in s && y in s && x != y
    ensures |Touched(s, p)| == |s| && Touched(s, p)[|s| - 1] == p
    ensures Before(Touched(s, p), x, y) <==> y == p || (x != p && Before(s, x, y))
  {
    hide Without;
    var k := WithoutSplit(s, p);
    var r := Without(s, p);
    var t := Touched(s, p);
    assert |t| == |s| && t[|r|] == p && forall i :: 0 <= i < |r| ==> t[i] == r[i];
    forall i | 0 <= i < |r| ensures r[i] != p {
      assert r[i] == s[if i < k then i else i + 1];
    }
    if y == p {
      var i :| 0 <= i < |s| && s[i] == x;
      assert t[if i < k then i else i - 1] == x;
    } else if x != p {
      WithoutOrder(s, p, x, y);
      if Before(r, x, y) {
        var i, j :| 0 <= i < j < |r| && r[i] == x && r[j] == y;
        assert t[i] == x && t[j] == y;
      }
      if Before(t, x, y) {
        var i, j :| 0 <= i < j < |t| && t[i] == x && t[j] == y;
        assert r[i] == x && r[j] == y;
      }
    }
  }

  lemma ListDistinct(h: Heap, s: seq<Ptr>)
    requires ListOk(h, s)
    ensures Distinct(s)
  {
  }

  /** After a sequence of hits, facts are in the order of their last hits; those that were not hit come
      first, in their old order. */
  lemma {:induction false} HitsOrder(h: Heap, s: seq<Ptr>, hits: seq<Ptr>, x: Ptr, y: Ptr)
    requires ListOk(h, s) && (forall i :: 0 <= i < |hits| ==> hits[i] in s) && x in s && y in s && x != y
    ensures SameFacts(h, s, TouchAll(s, hits))
    ensures Before(TouchAll(s, hits), x, y) <==>
            LastHit(hits, x) < LastHit(hits, y) || (LastHit(hits, x) == LastHit(hits, y) && Before(s, x, y))
    decreases |hits|
  {
    hide Touched, ListOk, Bytes, Before;
    if hits != [] {
      var n := |hits| - 1;
      HitsOrder(h, s, hits[..n], x, y);
      var t := TouchAll(s, hits[..n]);
      TouchStep(h, s, t, hits[n]);
      ListDistinct(h, t);
      TouchedOrder(t, hits[n], x, y);
    }
  }

  /* ------------------------------------------------------------ draining all buffers */

  /** The hits recorded in the first n buffers, buffer by buffer. */
  function AllHits(touched: seq<Buffer>, n: nat): seq<Ptr>
    requires n <= |touched| && forall t :: 0 <= t < |touched| ==> touched[t].next <= |touched[t].slots|
  {
    if n == 0 then [] else AllHits(touched, n - 1) + touched[n - 1].slots[..touched[n - 1].next]
  }

  lemma {:induction false} TouchAllConcat(s: seq<Ptr>, a: seq<Ptr>, b: seq<Ptr>)
    ensures TouchAll(s, a + b) == TouchAll(TouchAll(s, a), b)
    decreases |b|
  {
    hide Touched;
    if b == [] {
      assert a + b == a;
    } else {
      var n := |b| - 1;
      assert (a + b)[..|a| + n] == a + b[..n];
      TouchAllConcat(s, a, b[..n]);
    }
  }

  lemma BuffersOk(k: Config, c: Store)
    requires Good(k, c)
    ensures forall t :: 0 <= t < |c.touched| ==> c.touched[t].next <= |c.touched[t].slots|
  {
    hide Indexed, AllAgree, ListOk, Bytes;
  }

  /** Draining the buffers one by one applies all their hits. */
  lemma {:induction false} DrainedHits(k: Config, c: Store, n: nat)
    requires Good(k, c) && n <= |c.touched| && forall t :: 0 <= t < |c.touched| ==> c.touched[t].next <= |c.touched[t].slots|
    ensures DrainedTo(k, c, n).facts == TouchAll(c.facts, AllHits(c.touched, n))
    decreases n
  {
    hide Good, Touched;
    if n > 0 {
      DrainedHits(k, c, n - 1);
      var d := DrainedTo(k, c, n - 1);
      DrainedGood(k, d, n - 1);
      assert d.touched[n - 1] == c.touched[n - 1];
      TouchAllConcat(c.facts, AllHits(c.touched, n - 1), c.touched[n - 1].slots[..c.touched[n - 1].next]);
    }
  }

  lemma {:induction false} HitsStored(k: Config, c: Store, n: nat)
    requires Good(k, c) && n <= |c.touched| && forall t :: 0 <= t < |c.touched| ==> c.touched[t].next <= |c.touched[t].slots|
    ensures forall i :: 0 <= i < |AllHits(c.touched, n)| ==> AllHits(c.touched, n)[i] in c.facts
    decreases n
  {
    hide Good;
    if n > 0 {
      HitsStored(k, c, n - 1);
      GoodHits(k, c, n - 1);
    }
  }

  /** The last use of x, recorded or applied, is older than the one of y. */
  ghost predicate UsedBefore(c: Store, x: Ptr, y: Ptr)
    requires forall t :: 0 <= t < |c.touched| ==> c.touched[t].next <= |c.touched[t].slots|
  {
    var hits := AllHits(c.touched, |c.touched|);
    LastHit(hits, x) < LastHit(hits, y) || (LastHit(hits, x) == LastHit(hits, y) && Before(c.facts, x, y))
  }

  lemma DrainedOrder(k: Config, c: Store, x: Ptr, y: Ptr)
    requires Good(k, c) && x in c.facts && y in c.facts && x != y
    requires forall t :: 0 <= t < |c.touched| ==> c.touched[t].next <= |c.touched[t].slots|
    ensures Before(DrainedAll(k, c).facts, x, y) <==> UsedBefore(c, x, y)
  {
    hide Good, Before, ListOk, AllHits;
    GoodFacts(k, c);
    var n := |c.touched|;
    DrainedHits(k, c, n);
    HitsStored(k, c, n);
    HitsOrder(c.heap, c.facts, AllHits(c.touched, n), x, y);
  }

  /* ------------------------------------------------------------ what goes */

  /** What is evicted stands before everything that stays. */
  lemma EvictsFirst(k: Config, c: Store, target: nat, x: Ptr, y: Ptr)
    requires Good(k, c) && NoHits(c.touched) && x in c.facts
    requires x !in Evicted(k, c, target).facts && y in Evicted(k, c, target).facts
    ensures Before(c.facts, x, y)
  {
    hide Good, Evicted, Bytes, ListOk;
    var n := EvictsShortest(k, c, target);
    var i :| 0 <= i < |c.facts| && c.facts[i] == x;
    var j :| 0 <= j < |c.facts[n..]| && c.facts[n..][j] == y;
    assert c.facts[n + j] == y;
    assert forall l :: n <= l < |c.facts| ==> c.facts[l] in c.facts[n..];
  }

  /** No more goes than has to: with the last fact that went, the bytes would exceed the target. */
  lemma EvictsNoMore(k: Config, c: Store, target: nat) returns (x: Ptr)
    requires Good(k, c) && NoHits(c.touched) && c.bytes > target
    ensures x in c.facts && x in c.heap && x !in Evicted(k, c, target).facts
    ensures Evicted(k, c, target).bytes + c.heap[x].size > target
  {
    hide Good, Evicted, Bytes;
    GoodFacts(k, c);
    GoodBytes(k, c);
    var n := EvictsShortest(k, c, target);
    var r := Evicted(k, c, target);
    GoodBytes(k, r);
    assert c.facts[0..] == c.facts;
    x := c.facts[n - 1];
    assert c.facts[n - 1..][1..] == c.facts[n..] && c.facts[n - 1..][0] == x;
    BytesStep(c.heap, c.facts[n - 1..]);
    forall j | 0 <= j < |c.facts[n..]| ensures c.facts[n..][j] != x {
      assert c.facts[n..][j] == c.facts[n + j];
    }
  }

  lemma BytesStep(h: Heap, s: seq<Ptr>)
    requires s != [] && forall i :: 0 <= i < |s| ==> s[i] in h
    ensures Bytes(h, s) == h[s[0]].size + Bytes(h, s[1..])
  {
  }

  lemma GoodBytes(k: Config, c: Store)
    requires Good(k, c)
    ensures ListOk(c.heap, c.facts) && c.bytes == Bytes(c.heap, c.facts)
  {
    hide AllAgree, HitsOk, IdsOk, KeysOk;
  }

  /** The target that eviction aims at leaves room for the new fact below nine tenths of the capacity,
      rounded down, and is none if there is no such room. */
  lemma WantedIs(capacity: nat, size: nat)
    ensures 9 * capacity > 10 * size ==>
              10 * (Wanted(capacity, size) + size) <= 9 * capacity < 10 * (Wanted(capacity, size) + size) + 10
    ensures 9 * capacity <= 10 * size ==> Wanted(capacity, size) == 0
  {
    var x := capacity as real * 0.9 - size as real;
    assert 10.0 * x == (9 * capacity - 10 * size) as real;
    if x > 0.0 {
      assert x.Floor as real <= x < (x.Floor + 1) as real;
      assert 10.0 * (x.Floor as real) == (10 * x.Floor) as real;
    }
  }

  /* ------------------------------------------------------------ insertion */

  /** The fact is stored with as much data as f has, or with more. */
  predicate KnownAs(c: Store, f: CFact) {
    && f.id in c.ids && c.ids[f.id] in c.heap
    && match c.heap[c.ids[f.id]].tag
       case FULL => true
       case KEY => f.tag != FULL
       case TYPE => f.tag == TYPE
  }

  /** What an insertion does: nothing for a fact that is too large or known; otherwise the fact becomes
      the last of the list, the one it replaces goes, and others go only if there is no room. */
  lemma InsertionIs(k: Config, c: Store, f: CFact, p: Ptr)
    requires Good(k, c) && Agrees(k.base, f) && p !in c.heap
    ensures f.size > k.capacity || KnownAs(c, f) ==> Insertion(k, c, f, p) == c
    ensures !(f.size > k.capacity || KnownAs(c, f)) ==>
              var r := Insertion(k, c, f, p);
              && r.facts != [] && r.facts[|r.facts| - 1] == p && r.heap == c.heap[p := f] && r.bytes <= k.capacity
              && (forall q :: q in r.facts ==> q == p || (q in c.facts && (f.id in c.ids ==> q != c.ids[f.id])))
              && (f.id !in c.ids && c.bytes + f.size <= k.capacity ==> r.facts == c.facts + [p] && r.touched == c.touched)
              && (Replaces(k, c, f) ==> forall q :: q in r.facts <==> q == p || (q in c.facts && q != c.ids[f.id]))
  {
    hide Good;
    GoodFacts(k, c);
    if !Refused(k, c, f) {
      var room := RoomFor(k, c, f);
      if Drops(k, c, f) {
        var d := DrainedAll(k, c);
        assert forall q :: q in d.facts <==> q in ToSet(d.facts);
        assert forall q :: q in c.facts <==> q in ToSet(c.facts);
        RoomyIs(k, d, f);
      }
    }
  }

  /** The fact takes the place of one with less data, and there is room for the difference. */
  predicate Replaces(k: Config, c: Store, f: CFact) {
    f.id in c.ids && c.ids[f.id] in c.heap && c.bytes + f.size <= k.capacity + c.heap[c.ids[f.id]].size
  }

  lemma RoomyIs(k: Config, c: Store, f: CFact)
    requires Good(k, c) && NoHits(c.touched) && f.size <= k.capacity
    ensures forall q :: q in Roomy(k, c, f).facts ==> q in c.facts && (f.id in c.ids ==> q != c.ids[f.id])
    ensures Replaces(k, c, f) ==> forall q :: q in Roomy(k, c, f).facts <==> q in c.facts && q != c.ids[f.id]
  {
    hide Good;
    GoodFacts(k, c);
    WantedFits(k.capacity, f.size);
    if f.id in c.ids {
      RemovedGood(k, c, c.ids[f.id]);
    }
  }

  /** Without room even after a replacement, facts go until the target is reached, and no more than
      that takes: with x, one of those that went, it would be missed. */
  lemma InsertionEvicts(k: Config, c: Store, f: CFact, p: Ptr) returns (x: Ptr)
    requires Good(k, c) && Agrees(k.base, f) && p !in c.heap && f.size <= k.capacity && !KnownAs(c, f)
    requires if f.id in c.ids then !Replaces(k, c, f) else c.bytes + f.size > k.capacity
    ensures var r, target := Insertion(k, c, f, p), Wanted(k.capacity, f.size);
            && r.bytes <= target + f.size
            && x in c.facts && x in c.heap && x !in r.facts && r.bytes + c.heap[x].size > target + f.size
  {
    hide Good, Evicted;
    GoodFacts(k, c);
    var d := DrainedAll(k, c);
    assert forall q :: q in d.facts <==> q in ToSet(d.facts);
    assert forall q :: q in c.facts <==> q in ToSet(c.facts);
    WantedFits(k.capacity, f.size);
    var c1 := WithoutOld(k, d, f);
    if f.id in d.ids {
      RemovedGood(k, d, d.ids[f.id]);
    }
    x := EvictsNoMore(k, c1, Wanted(k.capacity, f.size));
  }

  /** Nothing goes while a fact with an older last use stays, apart from the one that is replaced. */
  lemma LeastRecentlyUsed(k: Config, c: Store, f: CFact, p: Ptr, x: Ptr, y: Ptr)
    requires Good(k, c) && Agrees(k.base, f) && p !in c.heap
    requires x in c.facts && x !in Insertion(k, c, f, p).facts && (f.id in c.ids ==> x != c.ids[f.id])
    requires y in c.facts && y in Insertion(k, c, f, p).facts
    ensures forall t :: 0 <= t < |c.touched| ==> c.touched[t].next <= |c.touched[t].slots|
    ensures UsedBefore(c, x, y)
  {
    hide Good, UsedBefore, Before, Evicted, AllHits;
    GoodFacts(k, c);
    BuffersOk(k, c);
    assert y in c.heap && x != y;
    assert Drops(k, c, f);
    var d := DrainedAll(k, c);
    assert forall q :: q in d.facts <==> q in ToSet(d.facts);
    assert forall q :: q in c.facts <==> q in ToSet(c.facts);
    var room := RoomFor(k, c, f);
    assert y in room.facts && x !in room.facts;
    RoomyOrder(k, d, f, x, y);
    DrainedOrder(k, c, x, y);
  }

  lemma RoomyOrder(k: Config, c: Store, f: CFact, x: Ptr, y: Ptr)
    requires Good(k, c) && NoHits(c.touched) && f.size <= k.capacity && x in c.facts && (f.id in c.ids ==> x != c.ids[f.id])
    requires x !in Roomy(k, c, f).facts && y in Roomy(k, c, f).facts
    ensures Before(c.facts, x, y)
  {
    hide Good, Before, Evicted;
    GoodFacts(k, c);
    WantedFits(k.capacity, f.size);
    var c1 := WithoutOld(k, c, f);
    if f.id in c.ids {
      RemovedGood(k, c, c.ids[f.id]);
    }
    assert x in c1.facts;
    EvictsFirst(k, c1, Wanted(k.capacity, f.size), x, y);
    if f.id in c.ids {
      ListDistinct(c.heap, c.facts);
      WithoutOrder(c.facts, c.ids[f.id], x, y);
    }
  }
}
