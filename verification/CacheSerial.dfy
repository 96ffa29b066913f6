/** Cache actions of one thread in a row. */
module CacheSerial {
  // The actions of the protocol, taken one after the other by a single thread, make up the
  // operations of the cache: a hit, and a miss with its insertion.
  import opened Pointers
  import opened CacheStore
  import opened CacheProtocol

  /** Several actions of one thread, locks aside. */
  ghost function DoAll(k: Config, c: Store, th: Thread, acts: seq<Act>): Option<Move>
    decreases |acts|
  {
    if acts == [] then Some(Move(c, th))
    else
      var m := Do(k, c, th, acts[0]);
      if m.None? then None else DoAll(k, m.value.c, m.value.th, acts[1..])
  }

  lemma DoOne(k: Config, c: Store, th: Thread, a: Act, acts: seq<Act>)
    requires Do(k, c, th, a).Some?
    ensures var m := Do(k, c, th, a).value; DoAll(k, c, th, [a] + acts) == DoAll(k, m.c, m.th, acts)
  {
    hide Do;
    assert ([a] + acts)[1..] == acts;
  }

  lemma {:induction false} DoConcat(k: Config, c: Store, th: Thread, a: seq<Act>, b: seq<Act>)
    requires DoAll(k, c, th, a).Some?
    ensures var m := DoAll(k, c, th, a).value; DoAll(k, c, th, a + b) == DoAll(k, m.c, m.th, b)
    decreases |a|
  {
    hide Do;
    if a == [] {
      assert a + b == b;
    } else {
      assert (a + b)[1..] == a[1..] + b;
      var m := Do(k, c, th, a[0]).value;
      DoConcat(k, m.c, m.th, a[1..], b);
    }
  }

  /* ------------------------------------------------------------ what is found */

  /** A fact is found exactly when it is stored with enough of its data. */
  lemma LookupWhen(k: Config, c: Store, q: Query)
    requires Good(k, c)
    ensures Lookup(c, q).Some? <==> exists p :: p in c.facts && p in c.heap && Serves(q, c.heap[p])
    ensures Lookup(c, q).Some? ==> Lookup(c, q).value in c.heap && Serves(q, c.heap[Lookup(c, q).value])
  {
    hide AllAgree, HitsOk, Bytes;
    if p :| p in c.facts && p in c.heap && Serves(q, c.heap[p]) {
      assert c.heap[p].id in c.ids;
    }
  }

  /** The fact is the one that is asked for, with enough data. */
  predicate Serves(q: Query, f: CFact) {
    match q
    case TypeOf(id) => f.id == id
    case IdOf(key) => f.tag != TYPE && KeyOf(f) == key
    case FactOf(id) => f.id == id && f.tag == FULL
  }

  /* ------------------------------------------------------------ a hit */

  function Applies(n: nat): seq<Act> {
    seq(n, _ => Apply)
  }

  lemma DrainMoves(k: Config, c: Store, th: Thread)
    requires th.pc.Draining? && th.pc.sh < |c.touched| && th.pc.i <= th.pc.n <= |c.touched[th.pc.sh].slots|
    ensures var pc := th.pc;
            var on := Goto(th, Draining(pc.q, pc.p, pc.keep, pc.sh, pc.n, pc.i + 1));
            var emptied := WithBuffer(c, pc.sh, c.touched[pc.sh].(next := 0));
            && (pc.i < pc.n ==> Do(k, c, th, Apply) == Some(Move(Used(c, c.touched[pc.sh].slots[pc.i]), on)))
            && (pc.i == pc.n ==> Do(k, c, th, Reset) == Some(Move(emptied, After(th, pc.q, pc.p, pc.keep))))
  {
    hide Touched;
  }

  /** Applying the hits from i on. */
  lemma {:induction false} AppliesAll(k: Config, c: Store, th: Thread, i: nat)
    requires th.pc.Draining? && th.pc.i == i <= th.pc.n && th.pc.sh < |c.touched| && th.pc.n <= |c.touched[th.pc.sh].slots|
    ensures var pc := th.pc;
            DoAll(k, c, th, Applies(pc.n - i)) ==
            Some(Move(Applied(c, c.touched[pc.sh].slots[i..pc.n]), Goto(th, Draining(pc.q, pc.p, pc.keep, pc.sh, pc.n, pc.n))))
    decreases th.pc.n - i
  {
    hide Touched, Do;
    var pc := th.pc;
    var hits := c.touched[pc.sh].slots[i..pc.n];
    DrainMoves(k, c, th);
    if i == pc.n {
      assert Applies(0) == [] && hits == [];
    } else {
      assert Applies(pc.n - i)[0] == Apply && Applies(pc.n - i)[1..] == Applies(pc.n - i - 1);
      var c1, th1 := Used(c, c.touched[pc.sh].slots[i]), Goto(th, Draining(pc.q, pc.p, pc.keep, pc.sh, pc.n, i + 1));
      AppliesAll(k, c1, th1, i + 1);
      assert hits == [hits[0]] + c.touched[pc.sh].slots[i + 1..pc.n];
      TouchFirst(c.facts, hits[0], c.touched[pc.sh].slots[i + 1..pc.n]);
    }
  }

  lemma {:induction false} TouchFirst(s: seq<Ptr>, p: Ptr, hits: seq<Ptr>)
    ensures TouchAll(s, [p] + hits) == TouchAll(Touched(s, p), hits)
    decreases |hits|
  {
    hide Touched;
    if hits == [] {
      assert ([p] + hits)[..0] == [];
    } else {
      var n := |hits| - 1;
      assert ([p] + hits)[..n + 1] == [p] + hits[..n];
      TouchFirst(s, p, hits[..n]);
    }
  }

  lemma CountMoves(k: Config, c: Store, th: Thread)
    requires th.pc.Locked? && th.pc.sh < |c.touched|
    ensures var pc := th.pc;
            Do(k, c, th, Count) == Some(Move(c, Goto(th, Draining(pc.q, pc.p, pc.keep, pc.sh, c.touched[pc.sh].next, 0))))
  {
  }

  /** From a full buffer on, with the list locked. */
  lemma DrainSerial(k: Config, c: Store, th: Thread)
    requires Good(k, c) && th.pc.Locked? && th.pc.sh < |c.touched|
    ensures c.touched[th.pc.sh].next <= |c.touched[th.pc.sh].slots|
    ensures DoAll(k, c, th, [Count] + Applies(c.touched[th.pc.sh].next) + [Reset]) ==
            Some(Move(Drained(c, th.pc.sh), After(th, th.pc.q, th.pc.p, th.pc.keep)))
  {
    hide Good, Touched, Do, TouchAll;
    var pc := th.pc;
    GoodHits(k, c, pc.sh);
    var n := c.touched[pc.sh].next;
    var th1 := Goto(th, Draining(pc.q, pc.p, pc.keep, pc.sh, n, 0));
    CountMoves(k, c, th);
    AppliesAll(k, c, th1, 0);
    assert c.touched[pc.sh].slots[0..n] == c.touched[pc.sh].slots[..n];
    var c2, th2 := Applied(c, c.touched[pc.sh].slots[..n]), Goto(th1, Draining(pc.q, pc.p, pc.keep, pc.sh, n, n));
    DoConcat(k, c, th1, Applies(n), [Reset]);
    DrainMoves(k, c2, th2);
    DoOne(k, c2, th2, Reset, []);
    assert [Reset] + [] == [Reset];
    DoOne(k, c, th, Count, Applies(n) + [Reset]);
    assert [Count] + (Applies(n) + [Reset]) == [Count] + Applies(n) + [Reset];
  }

  lemma TouchMoves(k: Config, c: Store, th: Thread, sh: nat)
    requires th.pc.Found? && (th.pc.q.FactOf? ==> th.pc.keep)
    ensures var pc := th.pc;
            && (c.touched == [] ==>
                  && Do(k, c, th, LockList) == Some(Move(c, Goto(th, Listing(pc.q, pc.p, pc.keep))))
                  && Do(k, c, Goto(th, Listing(pc.q, pc.p, pc.keep)), TouchList) ==
                     Some(Move(Used(c, pc.p), After(th, pc.q, pc.p, pc.keep))))
            && (sh < |c.touched| ==>
                  Do(k, c, th, Load(sh)) == Some(Move(c, Goto(th, Loaded(pc.q, pc.p, pc.keep, sh, c.touched[sh].next)))))
  {
    hide Used;
  }

  lemma OverflowMoves(k: Config, c: Store, th: Thread)
    requires th.pc.Loaded? && th.pc.n >= k.size
    ensures var pc := th.pc;
            var over := Goto(th, Overflow(pc.q, pc.p, pc.keep, pc.sh));
            && Do(k, c, th, Unlock) == Some(Move(c, over))
            && Do(k, c, over, TryLock(true)) == Some(Move(c, Goto(th, Locked(pc.q, pc.p, pc.keep, pc.sh))))
            && Do(k, c, over, TryLock(false)) == Some(Move(c, After(th, pc.q, pc.p, pc.keep)))
  {
  }

  /** From a fact that has been found on. */
  lemma TouchSerial(k: Config, c: Store, th: Thread, sh: nat, locked: bool) returns (acts: seq<Act>, c': Store)
    requires Good(k, c) && th.pc.Found? && (th.pc.q.FactOf? ==> th.pc.keep) && (c.touched != [] ==> sh < |c.touched|)
    ensures DoAll(k, c, th, acts) == Some(Move(c', After(th, th.pc.q, th.pc.p, th.pc.keep)))
    ensures IsHit(k, c, th.pc.p, sh, locked, c')
  {
    hide Good, Used, Drained, Do, WithBuffer;
    var pc := th.pc;
    var done := After(th, pc.q, pc.p, pc.keep);
    TouchMoves(k, c, th, sh);
    if c.touched == [] {
      acts, c' := [LockList, TouchList], Used(c, pc.p);
      var th1 := Goto(th, Listing(pc.q, pc.p, pc.keep));
      Two(k, c, th, LockList, th1, TouchList, c', done);
    } else {
      GoodHits(k, c, sh);
      var n := c.touched[sh].next;
      var th1 := Goto(th, Loaded(pc.q, pc.p, pc.keep, sh, n));
      if n < k.size {
        acts, c' := [Load(sh)] + [Record, Bump], WithBuffer(c, sh, Hit(c.touched[sh], pc.p));
        RecordSerial(k, c, th1);
        DoOne(k, c, th, Load(sh), [Record, Bump]);
      } else {
        var th2 := Goto(th1, Overflow(pc.q, pc.p, pc.keep, sh));
        OverflowMoves(k, c, th1);
        if locked {
          var th3 := Goto(th2, Locked(pc.q, pc.p, pc.keep, sh));
          var rest := [Count] + Applies(n) + [Reset];
          acts, c' := [Load(sh)] + ([Unlock] + ([TryLock(true)] + rest)), Drained(c, sh);
          DrainSerial(k, c, th3);
          DoOne(k, c, th2, TryLock(true), rest);
          DoOne(k, c, th1, Unlock, [TryLock(true)] + rest);
          DoOne(k, c, th, Load(sh), [Unlock] + ([TryLock(true)] + rest));
        } else {
          acts, c' := [Load(sh)] + [Unlock, TryLock(false)], c;
          Two(k, c, th1, Unlock, th2, TryLock(false), c, done);
          DoOne(k, c, th, Load(sh), [Unlock, TryLock(false)]);
        }
      }
    }
  }

  lemma Two(k: Config, c: Store, th: Thread, a: Act, th1: Thread, b: Act, c': Store, th': Thread)
    requires Do(k, c, th, a) == Some(Move(c, th1)) && Do(k, c, th1, b) == Some(Move(c', th'))
    ensures DoAll(k, c, th, [a, b]) == Some(Move(c', th'))
  {
    hide Do;
    DoOne(k, c, th1, b, []);
    assert [b] + [] == [b];
    DoOne(k, c, th, a, [b]);
    assert [a] + [b] == [a, b];
  }

  lemma RecordSerial(k: Config, c: Store, th: Thread)
    requires th.pc.Loaded? && th.pc.sh < |c.touched| && th.pc.n == c.touched[th.pc.sh].next < k.size
    requires th.pc.n < |c.touched[th.pc.sh].slots|
    ensures var pc := th.pc;
            DoAll(k, c, th, [Record, Bump]) ==
            Some(Move(WithBuffer(c, pc.sh, Hit(c.touched[pc.sh], pc.p)), After(th, pc.q, pc.p, pc.keep)))
  {
    var pc := th.pc;
    var c1 := WithBuffer(c, pc.sh, c.touched[pc.sh].(slots := c.touched[pc.sh].slots[pc.n := pc.p]));
    var th1 := Goto(th, Written(pc.q, pc.p, pc.keep, pc.sh, pc.n));
    assert Do(k, c, th, Record) == Some(Move(c1, th1));
    var c2 := WithBuffer(c, pc.sh, Hit(c.touched[pc.sh], pc.p));
    assert c1.touched[pc.sh := Hit(c.touched[pc.sh], pc.p)] == c2.touched;
    assert Do(k, c1, th1, Bump) == Some(Move(c2, After(th, pc.q, pc.p, pc.keep)));
    DoOne(k, c1, th1, Bump, []);
    assert [Bump] + [] == [Bump];
    DoOne(k, c, th, Record, [Bump]);
    assert [Record] + [Bump] == [Record, Bump];
  }

  /** A lookup that hits: the hit is recorded as the cache does on its own, and afterwards the
      caller's function runs on the fact if that was asked for. */
  lemma HitSerial(k: Config, c: Store, th: Thread, q: Query, sh: nat, locked: bool) returns (acts: seq<Act>, c': Store)
    requires Good(k, c) && th.pc == Idle && Lookup(c, q).Some? && (c.touched != [] ==> sh < |c.touched|)
    ensures var p := Lookup(c, q).value;
            && DoAll(k, c, th, acts) == Some(Move(c', Thread(th.frames + (if q.FactOf? then [Kept(p, q.id)] else []), Idle)))
            && IsHit(k, c, p, sh, locked, c')
  {
    hide Good, Lookup, IsHit;
    var p := Lookup(c, q).value;
    var th1, th2 := Goto(th, Looking(q)), Goto(th, Found(q, p, false));
    assert Do(k, c, th, Enter(q)) == Some(Move(c, th1)) && Do(k, c, th1, Find) == Some(Move(c, th2));
    var rest;
    if q.FactOf? {
      var th3 := Goto(th, Found(q, p, true));
      rest, c' := TouchSerial(k, c, th3, sh, locked);
      assert Do(k, c, th2, Keep) == Some(Move(c, th3));
      DoOne(k, c, th2, Keep, rest);
      rest := [Keep] + rest;
    } else {
      rest, c' := TouchSerial(k, c, th2, sh, locked);
      assert th.frames + [] == th.frames;
    }
    acts := [Enter(q)] + ([Find] + rest);
    DoOne(k, c, th1, Find, rest);
    DoOne(k, c, th, Enter(q), [Find] + rest);
  }

  /* ------------------------------------------------------------ a miss */

  /** From the update on. */
  lemma UpdateSerial(k: Config, c: Store, th: Thread, p: Ptr) returns (acts: seq<Act>)
    requires Good(k, c) && th.pc.Updating? && Agrees(k.base, th.pc.f) && p !in c.heap
    ensures DoAll(k, c, th, acts) == Some(Move(Inserted(k, c, th.pc.f, p), Goto(th, Idle)))
  {
    hide Good, Insertion, Dropped, Agrees;
    var f := th.pc.f;
    var r, dead := Insertion(k, c, f, p), Dropped(k, c, f, p);
    if dead == {} {
      assert r.heap - dead == r.heap;
      var th1 := Goto(th, Leaving({}));
      assert Do(k, c, th, Update(p)) == Some(Move(r, th1));
      DoOne(k, r, th1, ReleaseIndex, []);
      assert [ReleaseIndex] + [] == [ReleaseIndex];
      acts := [Update(p)] + [ReleaseIndex];
      DoOne(k, c, th, Update(p), [ReleaseIndex]);
    } else {
      var th1 := Goto(th, Doomed(dead));
      assert Do(k, c, th, Update(p)) == Some(Move(r, th1));
      FreeSerial(k, r, th1);
      acts := [Update(p)] + [LockDelete, ReleaseStorage, ReleaseIndex, Free];
      DoOne(k, c, th, Update(p), [LockDelete, ReleaseStorage, ReleaseIndex, Free]);
    }
  }

  lemma FreeSerial(k: Config, c: Store, th: Thread)
    requires th.pc.Doomed? && th.pc.dead != {}
    ensures DoAll(k, c, th, [LockDelete, ReleaseStorage, ReleaseIndex, Free]) ==
            Some(Move(c.(heap := c.heap - th.pc.dead), Goto(th, Idle)))
  {
    var dead := th.pc.dead;
    var th2, th3 := Goto(th, Leaving(dead)), Goto(th, Freeing(dead));
    Two(k, c, th2, ReleaseIndex, th3, Free, c.(heap := c.heap - dead), Goto(th, Idle));
    Two(k, c, th, LockDelete, Goto(th, Sealed(dead)), ReleaseStorage, c, th2);
    DoConcat(k, c, th, [LockDelete, ReleaseStorage], [ReleaseIndex, Free]);
    assert [LockDelete, ReleaseStorage] + [ReleaseIndex, Free] == [LockDelete, ReleaseStorage, ReleaseIndex, Free];
  }

  lemma InsertSerial(k: Config, c: Store, th: Thread, p: Ptr) returns (acts: seq<Act>)
    requires Good(k, c) && th.pc.Wants? && Agrees(k.base, th.pc.f) && p !in c.heap
    ensures DoAll(k, c, th, acts) == Some(Move(Inserted(k, c, th.pc.f, p), Goto(th, Idle)))
  {
    hide Good, Inserted, Agrees;
    var f := th.pc.f;
    var th1, th2, th3 := Goto(th, Queued(f)), Goto(th, Writing(f)), Goto(th, Updating(f));
    assert Do(k, c, th, Queue) == Some(Move(c, th1)) && Do(k, c, th1, Begin) == Some(Move(c, th2));
    assert Do(k, c, th2, LockStorage) == Some(Move(c, th3));
    var rest := UpdateSerial(k, c, th3, p);
    DoOne(k, c, th2, LockStorage, rest);
    DoOne(k, c, th1, Begin, [LockStorage] + rest);
    acts := [Queue] + ([Begin] + ([LockStorage] + rest));
    DoOne(k, c, th, Queue, [Begin] + ([LockStorage] + rest));
  }

  /** A lookup that misses: what the base gives is inserted, after the caller's function has run on it
      if that was asked for; what the base does not have changes nothing. */
  lemma MissSerial(k: Config, c: Store, th: Thread, q: Query, f: Option<CFact>, p: Ptr) returns (acts: seq<Act>)
    requires Good(k, c) && th.pc == Idle && Lookup(c, q).None? && Fetched(k, q, f) && p !in c.heap
    ensures f.Some? ==> Agrees(k.base, f.value)
    ensures DoAll(k, c, th, acts) == Some(Move(if f.Some? then Inserted(k, c, f.value, p) else c, th))
  {
    hide Good, Lookup, Inserted, Right;
    var th1 := Goto(th, Looking(q));
    assert Do(k, c, th, Enter(q)) == Some(Move(c, th1));
    if f.None? {
      Two(k, c, th, Enter(q), th1, Miss(f), c, th);
      acts := [Enter(q), Miss(f)];
    } else {
      var th2 := Goto(th, Wants(f.value));
      var rest := InsertSerial(k, c, th2, p);
      if q.FactOf? {
        var inside := Thread(th.frames + [Own(f.value)], Idle);
        assert Do(k, c, th1, Miss(f)) == Some(Move(c, inside));
        assert inside.frames[..|th.frames|] == th.frames;
        assert Do(k, c, inside, Finish) == Some(Move(c, th2));
        DoOne(k, c, inside, Finish, rest);
        rest := [Finish] + rest;
      }
      DoOne(k, c, th1, Miss(f), rest);
      acts := [Enter(q)] + ([Miss(f)] + rest);
      DoOne(k, c, th, Enter(q), [Miss(f)] + rest);
    }
  }
}
