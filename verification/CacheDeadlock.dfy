/** Deadlocks of the cache, when an insertion can finish, and runs that get stuck. */
module CacheDeadlock {
  import opened Pointers
  import opened CacheStore
  import opened CacheProtocol
  import opened CacheQueue
  import opened CacheProgress

  /* ------------------------------------------------------------ deadlock */

  predicate Active(s: Sys, t: nat) {
    t < |s.threads| && s.threads[t].pc != Idle
  }

  /** An insertion waits for the delete lock, a caller's function holds it, and everybody else in
      the cache waits for the index. */
  predicate Deadlocked(s: Sys) {
    exists w, u :: 0 <= w < |s.threads| && 0 <= u < |s.threads| && Waiting(s, w, u)
  }

  predicate Waiting(s: Sys, w: nat, u: nat)
    requires w < |s.threads| && u < |s.threads|
  {
    && s.threads[w].pc.Doomed? && KeptAny(s.threads[u].frames)
    && forall t :: 0 <= t < |s.threads| && t != w ==> s.threads[t].pc == Idle || s.threads[t].pc.Queued?
  }

  /** Everybody in the cache asks for a lock: then these are the locks that are held. */
  lemma AskerGoes(s: Sys, t: nat, fresh_: Ptr)
    requires Inv(s) && Active(s, t) && fresh_ !in s.c.heap && Asks(s.threads[t].pc)
    requires forall u :: 0 <= u < |s.threads| && u != t ==> s.threads[u].pc == Idle || Asks(s.threads[u].pc)
    requires s.threads[t].pc.Queued? ==> forall u :: 0 <= u < |s.threads| && u != t ==> s.threads[u].pc == Idle || s.threads[u].pc.Queued?
    requires s.threads[t].pc.Doomed? ==> forall u :: 0 <= u < |s.threads| ==> !KeptAny(s.threads[u].frames)
    ensures Step(s, t, GoAct(s, s.threads[t].pc, fresh_)).Some?
  {
    hide Good, PcOk, FrameOk, KeptAny, Right;
    var th := s.threads[t];
    assert ThreadOk(s.k, s.c, th);
    GoApplies(s, th, fresh_);
    var next := Do(s.k, s.c, th, GoAct(s, th.pc, fresh_)).value.th;
    forall u | 0 <= u < |s.threads| && u != t ensures !Conflict(next, s.threads[u]) {
      OthersDead(s, t, u);
    }
  }

  lemma SomebodyGoes(s: Sys, t: nat)
    requires Inv(s) && Active(s, t) && !Deadlocked(s)
    ensures exists u, a :: Active(s, u) && Step(s, u, a).Some?
  {
    hide Inv, Step, Deadlocked, KeptAny, GoAct;
    var fresh_ := FreshPtr(s.c.heap);
    if u :| 0 <= u < |s.threads| && s.threads[u].pc != Idle && !Asks(s.threads[u].pc) {
      AllGood(s, u);
      GoApplies(s, s.threads[u], fresh_);
      GoWeaker(s, s.threads[u], fresh_);
      WeakerGoes(s, u, GoAct(s, s.threads[u].pc, fresh_));
      assert Active(s, u);
    } else {
      var u := BestAsker(s, t);
      AskerGoes(s, u, fresh_);
    }
  }

  /** Among those who ask, somebody whose lock is free. */
  lemma BestAsker(s: Sys, t: nat) returns (u: nat)
    requires Inv(s) && Active(s, t) && !Deadlocked(s)
    requires forall v :: 0 <= v < |s.threads| ==> s.threads[v].pc == Idle || Asks(s.threads[v].pc)
    ensures Active(s, u) && Asks(s.threads[u].pc)
    ensures s.threads[u].pc.Queued? ==> forall v :: 0 <= v < |s.threads| && v != u ==> s.threads[v].pc == Idle || s.threads[v].pc.Queued?
    ensures s.threads[u].pc.Doomed? ==> forall v :: 0 <= v < |s.threads| ==> !KeptAny(s.threads[v].frames)
  {
    hide Good, AllOk, KeptAny;
    if v :| 0 <= v < |s.threads| && (s.threads[v].pc.Found? || s.threads[v].pc.Writing?) {
      u := v;
    } else if v :| 0 <= v < |s.threads| && s.threads[v].pc.Doomed? {
      u := v;
      forall w | 0 <= w < |s.threads| && w != u ensures s.threads[w].pc == Idle || s.threads[w].pc.Queued? {
        OthersDead(s, u, w);
      }
      forall w | 0 <= w < |s.threads| ensures !KeptAny(s.threads[w].frames) {
        assert Waiting(s, u, w) <==> KeptAny(s.threads[w].frames);
      }
    } else {
      u := t;
    }
  }

  lemma DeadlockStays(s: Sys, w: nat, u: nat, t: nat, a: Act)
    requires w < |s.threads| && u < |s.threads| && Waiting(s, w, u) && Active(s, t)
    ensures Step(s, t, a).None?
  {
    hide KeptAny, Lookup, Fetched;
    if t == w {
      NoDelete(s, u, w);
    }
  }

  /** Somebody in the cache can go on, unless an insertion waits for the end of a caller's function
      and everybody else waits for that insertion. */
  lemma NoDeadlock(s: Sys)
    requires Inv(s) && exists t :: Active(s, t)
    ensures (exists t, a :: Active(s, t) && Step(s, t, a).Some?) <==> !Deadlocked(s)
  {
    hide Inv, Step, Waiting;
    if Deadlocked(s) {
      var w, u :| 0 <= w < |s.threads| && 0 <= u < |s.threads| && Waiting(s, w, u);
      forall t, a | Active(s, t) ensures Step(s, t, a).None? {
        DeadlockStays(s, w, u, t, a);
      }
    } else {
      var t :| Active(s, t);
      SomebodyGoes(s, t);
    }
  }

  /* ------------------------------------------------------------ deleting */

  /** Some run lets w get the delete lock. */
  ghost predicate EverDeletes(s: Sys, w: nat) {
    exists steps :: Run(s, steps).Some? && Step(Run(s, steps).value, w, LockDelete).Some?
  }

  /** From the lowest one on a cached fact up, no function has to insert anything when it ends. */
  predicate Unwinds(frames: seq<Frame>) {
    forall i, j :: 0 <= i < j < |frames| && frames[i].Kept? ==> frames[j].Kept?
  }

  /** Thread u holds no fact in a caller's function, or it is another thread that can end all such
      functions without waiting for the index. */
  predicate LetsGo(s: Sys, w: nat, u: nat)
    requires u < |s.threads|
  {
    var th := s.threads[u];
    !KeptAny(th.frames) || (u != w && (th.pc == Idle || th.pc.Overflow?) && Unwinds(th.frames))
  }

  /** What other threads can be at while w waits for the delete lock. */
  lemma BesidesDoomed(s: Sys, w: nat, u: nat)
    requires Inv(s) && w < |s.threads| && s.threads[w].pc.Doomed? && u < |s.threads| && u != w
    ensures var pc := s.threads[u].pc; pc == Idle || pc.Overflow? || pc.Wants? || pc.Queued? || pc.Freeing?
    ensures s.threads[u].pc.Freeing? ==> !KeptAny(s.threads[u].frames)
  {
    hide Good, FrameOk, PcOk, KeptAny;
    OthersDead(s, w, u);
    assert ThreadOk(s.k, s.c, s.threads[u]);
  }

  lemma BackTop(frames: seq<Frame>)
    requires frames != [] && !Unwinds(frames)
    ensures KeptAny(frames[..|frames| - 1]) && (frames[|frames| - 1].Kept? ==> !Unwinds(frames[..|frames| - 1]))
  {
    var n := |frames| - 1;
    var i, j :| 0 <= i < j < |frames| && frames[i].Kept? && !frames[j].Kept?;
    assert frames[..n][i] == frames[i];
    if frames[n].Kept? {
      assert j < n && frames[..n][j] == frames[j];
    }
  }

  lemma PushKept(frames: seq<Frame>, p: Ptr, id: nat)
    ensures Unwinds(frames + [Kept(p, id)]) <==> Unwinds(frames)
    ensures !KeptAny(frames) ==> Unwinds(frames)
  {
    var fs := frames + [Kept(p, id)];
    assert forall i :: 0 <= i < |frames| ==> fs[i] == frames[i];
    if !Unwinds(frames) {
      var i, j :| 0 <= i < j < |frames| && frames[i].Kept? && !frames[j].Kept?;
      assert fs[i].Kept? && !fs[j].Kept?;
    }
  }

  /** A thread that does not let w go never will. */
  lemma StaysInTheWay(s: Sys, w: nat, u: nat, t: nat, a: Act)
    requires Inv(s) && w < |s.threads| && s.threads[w].pc.Doomed? && u < |s.threads| && !LetsGo(s, w, u) && Step(s, t, a).Some?
    ensures var s' := Step(s, t, a).value;
            |s'.threads| == |s.threads| && s'.threads[w].pc.Doomed? && !LetsGo(s', w, u)
  {
    hide Inv, Step, KeptAny, Unwinds, Do;
    StepFrame(s, t, a, u);
    StepFrame(s, t, a, w);
    StepMoves(s, t, a);
    if t == w {
      DoomedAct(s.k, s.c, s.threads[w], a);
      NoDelete(s, u, w);
    } else if t == u {
      BesidesDoomed(s, w, u);
      OwnMove(s, w, u, a);
    }
  }

  lemma DoomedAct(k: Config, c: Store, th: Thread, a: Act)
    requires th.pc.Doomed? && Do(k, c, th, a).Some?
    ensures a.LockDelete?
  {
    hide Good, Fetched, Lookup, Agrees;
  }

  lemma OwnMove(s: Sys, w: nat, u: nat, a: Act)
    requires w < |s.threads| && s.threads[w].pc.Doomed? && u < |s.threads| && u != w && !LetsGo(s, w, u) && Step(s, u, a).Some?
    requires var pc := s.threads[u].pc; pc == Idle || pc.Overflow? || pc.Wants? || pc.Queued?
    ensures !LetsGo(Step(s, u, a).value, w, u)
  {
    hide KeptAny, Unwinds, Good, Fetched, Lookup, Agrees;
    var th := s.threads[u];
    var m := Do(s.k, s.c, th, a).value;
    assert !Conflict(m.th, s.threads[w]);
    if a.Finish? {
      if !Unwinds(th.frames) {
        BackTop(th.frames);
      }
    } else if a.TryLock? {
      AfterStill(th, th.pc.q, th.pc.p, th.pc.keep);
    }
  }

  lemma AfterStill(th: Thread, q: Query, p: Ptr, keep: bool)
    requires KeptAny(th.frames) && !Unwinds(th.frames)
    ensures KeptAny(After(th, q, p, keep).frames) && !Unwinds(After(th, q, p, keep).frames)
  {
    hide Unwinds;
    if keep && q.FactOf? {
      PushKept(th.frames, p, q.id);
      var i :| 0 <= i < |th.frames| && th.frames[i].Kept?;
      assert (th.frames + [Kept(p, q.id)])[i].Kept?;
    }
  }

  lemma {:induction false} NeverDeletes(s: Sys, w: nat, u: nat, steps: seq<(nat, Act)>)
    requires Inv(s) && w < |s.threads| && s.threads[w].pc.Doomed? && u < |s.threads| && !LetsGo(s, w, u) && Run(s, steps).Some?
    ensures Step(Run(s, steps).value, w, LockDelete).None?
    decreases |steps|
  {
    hide Inv, Step, KeptAny, Unwinds;
    if steps == [] {
      NoDelete(s, u, w);
    } else {
      var (t, a) := steps[0];
      StaysInTheWay(s, w, u, t, a);
      StepInv(s, t, a);
      NeverDeletes(Step(s, t, a).value, w, u, steps[1..]);
    }
  }

  /** How many steps a thread needs to get out of the way. */
  function Burden(th: Thread): nat {
    |th.frames| + if th.pc.Overflow? then 2 else if th.pc.Freeing? then 1 else 0
  }

  function Burdens(ths: seq<Thread>): nat {
    if ths == [] then 0 else Burdens(ths[..|ths| - 1]) + Burden(ths[|ths| - 1])
  }

  lemma {:induction false} BurdensUpdate(ths: seq<Thread>, t: nat, th: Thread)
    requires t < |ths|
    ensures Burdens(ths[t := th]) + Burden(ths[t]) == Burdens(ths) + Burden(th)
  {
    var n := |ths| - 1;
    if t == n {
      assert ths[t := th][..n] == ths[..n];
    } else {
      assert ths[t := th][..n] == ths[..n][t := th];
      BurdensUpdate(ths[..n], t, th);
    }
  }

  predicate InTheWay(th: Thread) {
    ReadsDelete(th) || WritesDelete(th.pc)
  }

  /** With nobody in the way, the delete lock is free. */
  lemma DeleteGoes(s: Sys, w: nat)
    requires Inv(s) && w < |s.threads| && s.threads[w].pc.Doomed? && !KeptAny(s.threads[w].frames)
    requires forall u :: 0 <= u < |s.threads| && u != w ==> !InTheWay(s.threads[u])
    ensures Step(s, w, LockDelete).Some?
  {
    hide Good, AllOk, KeptAny;
    var th := Goto(s.threads[w], Sealed(s.threads[w].pc.dead));
    assert Do(s.k, s.c, s.threads[w], LockDelete) == Some(Move(s.c, th));
    forall u | 0 <= u < |s.threads| && u != w ensures !Conflict(th, s.threads[u]) {
      OthersDead(s, w, u);
    }
  }

  lemma TopKept(frames: seq<Frame>)
    requires KeptAny(frames) && Unwinds(frames)
    ensures frames != [] && frames[|frames| - 1].Kept? && Unwinds(frames[..|frames| - 1])
    ensures KeptAny(frames[..|frames| - 1]) ==> KeptAny(frames)
  {
    var n := |frames| - 1;
    var i :| 0 <= i < |frames| && frames[i].Kept?;
    assert forall i :: 0 <= i < n ==> frames[..n][i] == frames[i];
  }

  /** The action that gets a thread out of the way. */
  function AsideAct(pc: Pc): Act {
    if pc.Overflow? then TryLock(false) else if pc.Freeing? then Free else Finish
  }

  lemma AsideGoes(s: Sys, w: nat, u: nat)
    requires Inv(s) && w < |s.threads| && s.threads[w].pc.Doomed? && u < |s.threads| && u != w && LetsGo(s, w, u) && InTheWay(s.threads[u])
    ensures Step(s, u, AsideAct(s.threads[u].pc)).Some?
    ensures var s' := Step(s, u, AsideAct(s.threads[u].pc)).value;
            |s'.threads| == |s.threads| && Burden(s'.threads[u]) < Burden(s.threads[u]) && LetsGo(s', w, u)
  {
    hide Inv, KeptAny, Unwinds, LocksFree;
    var th, a := s.threads[u], AsideAct(s.threads[u].pc);
    BesidesDoomed(s, w, u);
    if th.pc.Overflow? {
      AfterKeeps(th, th.pc.q, th.pc.p, th.pc.keep);
      PushKept(th.frames, th.pc.p, if th.pc.q.FactOf? then th.pc.q.id else 0);
    } else if !th.pc.Freeing? {
      TopKept(th.frames);
    }
    WeakerGoes(s, u, a);
  }

  lemma {:induction false} GetDelete(s: Sys, w: nat) returns (steps: seq<(nat, Act)>)
    requires Inv(s) && w < |s.threads| && s.threads[w].pc.Doomed? && forall u :: 0 <= u < |s.threads| ==> LetsGo(s, w, u)
    ensures Run(s, steps).Some? && Step(Run(s, steps).value, w, LockDelete).Some?
    decreases Burdens(s.threads)
  {
    hide Inv, Step, KeptAny, Unwinds, ReadsDelete, WritesDelete, Burden, AsideAct;
    if u :| 0 <= u < |s.threads| && u != w && InTheWay(s.threads[u]) {
      var a := AsideAct(s.threads[u].pc);
      AsideGoes(s, w, u);
      var s1 := Step(s, u, a).value;
      StepThreads(s, u, a);
      StepInv(s, u, a);
      BurdensUpdate(s.threads, u, s1.threads[u]);
      forall v | 0 <= v < |s1.threads| ensures LetsGo(s1, w, v) {
        assert LetsGo(s, w, v);
      }
      var rest := GetDelete(s1, w);
      steps := [(u, a)] + rest;
      RunCons(s, u, a, rest);
    } else {
      steps := [];
      assert LetsGo(s, w, w);
      DeleteGoes(s, w);
    }
  }

  /** An insertion that has taken facts out can ever finish exactly when every thread lets it go. */
  lemma DeletesWhen(s: Sys, w: nat)
    requires Inv(s) && w < |s.threads| && s.threads[w].pc.Doomed?
    ensures EverDeletes(s, w) <==> forall u :: 0 <= u < |s.threads| ==> LetsGo(s, w, u)
  {
    hide Inv, Step, LetsGo, Run;
    if u :| 0 <= u < |s.threads| && !LetsGo(s, w, u) {
      forall steps | Run(s, steps).Some? ensures Step(Run(s, steps).value, w, LockDelete).None? {
        NeverDeletes(s, w, u, steps);
      }
    } else {
      var steps := GetDelete(s, w);
    }
  }

  /* ------------------------------------------------------------ such states are reached */

  ghost predicate Reachable(s0: Sys, s: Sys) {
    exists steps :: Run(s0, steps) == Some(s)
  }

  lemma StartReached(s0: Sys)
    ensures Reachable(s0, s0)
  {
    assert Run(s0, []) == Some(s0);
  }

  /** One step of one of three threads. */
  lemma StepOfThree(s0: Sys, s: Sys, ths: seq<Thread>, t: nat, a: Act)
    requires Reachable(s0, s) && s.threads == ths && |ths| == 3 && t < 3 && Do(s.k, s.c, ths[t], a).Some? && Admitted(s, t, a)
    requires var th := Do(s.k, s.c, ths[t], a).value.th;
             !SelfConflict(th) && forall u :: 0 <= u < 3 && u != t ==> !Conflict(th, ths[u])
    ensures var m := Do(s.k, s.c, ths[t], a).value; Reachable(s0, Sys(s.k, m.c, ths[t := m.th]))
  {
    hide Do, Conflict, SelfConflict, Run, Admitted;
    var steps :| Run(s0, steps) == Some(s);
    RunConcat(s0, steps, [(t, a)]);
    RunOne(s, t, a);
    assert Run(s0, steps + [(t, a)]) == Step(s, t, a);
  }

  /** Two threads at work, and a third that does nothing. */
  ghost function Two(x: Thread, y: Thread): seq<Thread> {
    [x, y, Quiet()]
  }

  lemma QuietFree(th: Thread)
    ensures !Conflict(th, Quiet())
  {
  }

  lemma StepOfTwo(s0: Sys, s: Sys, x: Thread, y: Thread, t: nat, a: Act)
    requires Reachable(s0, s) && s.threads == Two(x, y) && t < 2 && Do(s.k, s.c, if t == 0 then x else y, a).Some?
    requires a.Enter? ==> !(if t == 0 then y else x).pc.Queued?
    requires var th := Do(s.k, s.c, if t == 0 then x else y, a).value.th;
             !SelfConflict(th) && !Conflict(th, if t == 0 then y else x)
    ensures var m := Do(s.k, s.c, if t == 0 then x else y, a).value;
            Reachable(s0, Sys(s.k, m.c, if t == 0 then Two(m.th, y) else Two(x, m.th)))
  {
    hide Do, Conflict, SelfConflict, Run, Reachable;
    var m := Do(s.k, s.c, if t == 0 then x else y, a).value;
    assert Two(x, y)[t := m.th] == if t == 0 then Two(m.th, y) else Two(x, m.th);
    QuietFree(m.th);
    StepOfThree(s0, s, Two(x, y), t, a);
  }

  /** Two facts, each of which fits, and no room for both. */
  datatype Pair = Pair(k: Config, f: CFact, g: CFact, p: Ptr)

  ghost predicate PairOk(e: Pair) {
    && BaseOk(e.k.base) && e.f.size <= e.k.capacity && e.g.size <= e.k.capacity < e.f.size + e.g.size && e.f.id != e.g.id
    && e.f.tag == FULL && e.g.tag == FULL && Proper(e.k, e.f) && Proper(e.k, e.g)
  }

  lemma PairExists() returns (e: Pair)
    ensures PairOk(e)
  {
    var a, b := Data(1, [1], []), Data(1, [2], []);
    e := Pair(Config(map[1024 := a, 1025 := b], 60, 0, 40), CFact(1024, a, 41, FULL), CFact(1025, b, 41, FULL), 1);
  }

  ghost function S0(e: Pair): Sys {
    Init(e.k, 0, 3)
  }

  ghost function Quiet(): Thread {
    Thread([], Idle)
  }

  /** The cache with the first fact in it. */
  ghost function OneFact(e: Pair): Store {
    Appended(Empty(0, e.k.size), e.f, e.p)
  }

  lemma FirstInsertion(e: Pair)
    requires PairOk(e)
    ensures var c := Empty(0, e.k.size);
            Good(e.k, c) && Insertion(e.k, c, e.f, e.p) == OneFact(e) && Dropped(e.k, c, e.f, e.p) == {}
  {
    hide Good, Agrees, BaseOk, Dropped;
    EmptyGood(e.k, 0);
    InsertionFacts(e.k, Empty(0, e.k.size), e.f, e.p);
  }

  lemma WholeFetched(k: Config, f: CFact)
    requires Proper(k, f) && f.tag == FULL
    ensures Fetched(k, FactOf(f.id), Some(f))
  {
    assert f.data == k.base[f.id];
  }

  /** Thread t misses a fact, runs its function on it, and is about to insert it. */
  lemma MissReached(e: Pair, s: Sys, other: Thread, f: CFact)
    requires Reachable(S0(e), s) && s.k == e.k && s.threads == Two(other, Quiet()) && Proper(e.k, f) && f.tag == FULL
    requires Lookup(s.c, FactOf(f.id)).None? && !WritesIndex(other.pc) && !WritesDelete(other.pc) && !other.pc.Queued?
    ensures Reachable(S0(e), s.(threads := Two(other, Thread([], Wants(f)))))
  {
    hide Reachable, S0, Lookup, Agrees, Fetched, Good, KeptAny;
    OwnReached(e, s, other, f);
    assert [Own(f)][..0] == [];
    assert !KeptAny([]) by {
      NoneKept(f);
    }
    StepOfTwo(S0(e), s.(threads := Two(other, Thread([Own(f)], Idle))), other, Thread([Own(f)], Idle), 1, Finish);
  }

  lemma NoneKept(f: CFact)
    ensures !KeptAny([]) && !KeptAny([Own(f)])
  {
  }

  /** Thread 1 misses a fact, and runs its function on it. */
  lemma OwnReached(e: Pair, s: Sys, other: Thread, f: CFact)
    requires Reachable(S0(e), s) && s.k == e.k && s.threads == Two(other, Quiet()) && Proper(e.k, f) && f.tag == FULL
    requires Lookup(s.c, FactOf(f.id)).None? && !WritesIndex(other.pc) && !WritesDelete(other.pc) && !other.pc.Queued?
    ensures Reachable(S0(e), s.(threads := Two(other, Thread([Own(f)], Idle))))
  {
    hide Reachable, S0, Lookup, Agrees, Fetched, Good, KeptAny;
    var q := FactOf(f.id);
    WholeFetched(e.k, f);
    NoneKept(f);
    assert [] + [Own(f)] == [Own(f)];
    StepOfTwo(S0(e), s, other, Quiet(), 1, Enter(q));
    StepOfTwo(S0(e), s.(threads := Two(other, Thread([], Looking(q)))), other, Thread([], Looking(q)), 1, Miss(Some(f)));
  }

  /** Thread 1 stores the first fact. */
  lemma StoredReached(e: Pair)
    requires PairOk(e)
    ensures Reachable(S0(e), Sys(e.k, OneFact(e), Two(Quiet(), Quiet())))
  {
    hide Reachable, Agrees, BaseOk, Good, OneFact, Lookup, Insertion, Dropped;
    var s0 := S0(e);
    assert s0 == Sys(e.k, Empty(0, e.k.size), Two(Quiet(), Quiet()));
    StartReached(s0);
    EmptyLookup(e, e.f.id);
    MissReached(e, s0, Quiet(), e.f);
    UpdateReached(e, s0);
    FirstInsertion(e);
    StepOfTwo(s0, s0.(threads := Two(Quiet(), Thread([], Updating(e.f)))), Quiet(), Thread([], Updating(e.f)), 1, Update(e.p));
    var s := Sys(e.k, OneFact(e), Two(Quiet(), Thread([], Leaving({}))));
    StepOfTwo(s0, s, Quiet(), Thread([], Leaving({})), 1, ReleaseIndex);
  }

  lemma UpdateReached(e: Pair, s: Sys)
    requires Reachable(S0(e), s.(threads := Two(Quiet(), Thread([], Wants(e.f)))))
    ensures Reachable(S0(e), s.(threads := Two(Quiet(), Thread([], Updating(e.f)))))
  {
    hide Reachable, S0, Agrees, Good, KeptAny;
    NoneKept(e.f);
    WriteReached(e, s);
    StepOfTwo(S0(e), s.(threads := Two(Quiet(), Thread([], Writing(e.f)))), Quiet(), Thread([], Writing(e.f)), 1, LockStorage);
  }

  lemma WriteReached(e: Pair, s: Sys)
    requires Reachable(S0(e), s.(threads := Two(Quiet(), Thread([], Wants(e.f)))))
    ensures Reachable(S0(e), s.(threads := Two(Quiet(), Thread([], Writing(e.f)))))
  {
    hide Reachable, S0, Agrees, Good, KeptAny;
    NoneKept(e.f);
    QueueJoined(e, s, Quiet(), e.f);
    StepOfTwo(S0(e), s.(threads := Two(Quiet(), Thread([], Queued(e.f)))), Quiet(), Thread([], Queued(e.f)), 1, Begin);
  }

  lemma QueueJoined(e: Pair, s: Sys, other: Thread, f: CFact)
    requires Reachable(S0(e), s.(threads := Two(other, Thread([], Wants(f))))) && !WritesIndex(other.pc) && !WritesDelete(other.pc)
    ensures Reachable(S0(e), s.(threads := Two(other, Thread([], Queued(f)))))
  {
    hide Reachable, S0, Agrees, Good, KeptAny;
    NoneKept(f);
    StepOfTwo(S0(e), s.(threads := Two(other, Thread([], Wants(f)))), other, Thread([], Wants(f)), 1, Queue);
  }

  lemma EmptyLookup(e: Pair, id: nat)
    ensures Lookup(Empty(0, e.k.size), FactOf(id)).None?
  {
  }

  lemma OneFactFacts(e: Pair)
    requires PairOk(e)
    ensures var c := OneFact(e);
            && Lookup(c, FactOf(e.f.id)) == Some(e.p) && Lookup(c, FactOf(e.g.id)) == None && Used(c, e.p) == c
            && c.touched == [] && Drops(e.k, c, e.g)
  {
    assert Without([e.p], e.p) == [];
    assert [] + [e.p] == [e.p];
  }

  ghost function User(e: Pair): Thread {
    Thread([Kept(e.p, e.f.id)], Idle)
  }

  /** Thread 0 finds it and runs its function on it. */
  lemma UserReached(e: Pair)
    requires PairOk(e)
    ensures Reachable(S0(e), Sys(e.k, OneFact(e), Two(User(e), Quiet())))
  {
    hide Reachable, Agrees, BaseOk, Good, OneFact, Lookup, S0, Used;
    StoredReached(e);
    OneFactFacts(e);
    var s0, s, q, p := S0(e), Sys(e.k, OneFact(e), Two(Quiet(), Quiet())), FactOf(e.f.id), e.p;
    StepOfTwo(s0, s, Quiet(), Quiet(), 0, Enter(q));
    StepOfTwo(s0, s.(threads := Two(Thread([], Looking(q)), Quiet())), Thread([], Looking(q)), Quiet(), 0, Find);
    StepOfTwo(s0, s.(threads := Two(Thread([], Found(q, p, false)), Quiet())), Thread([], Found(q, p, false)), Quiet(), 0, Keep);
    StepOfTwo(s0, s.(threads := Two(Thread([], Found(q, p, true)), Quiet())), Thread([], Found(q, p, true)), Quiet(), 0, LockList);
    StepOfTwo(s0, s.(threads := Two(Thread([], Listing(q, p, true)), Quiet())), Thread([], Listing(q, p, true)), Quiet(), 0, TouchList);
    assert [] + [Kept(p, e.f.id)] == [Kept(p, e.f.id)];
  }

  /** Thread 1 starts to insert the second fact, for which the first has to go, while thread 0 is
      still running on that: from then on thread 0 can look up nothing. */
  lemma StuckReached(e: Pair)
    requires PairOk(e)
    ensures var s := Sys(e.k, OneFact(e), Two(User(e), Thread([], Writing(e.g))));
            Reachable(S0(e), s) && Inside(s, 0) && HasToDelete(s, 1)
  {
    hide Reachable, Agrees, BaseOk, Good, OneFact, Lookup, S0, Drops;
    UserReached(e);
    OneFactFacts(e);
    var s := Sys(e.k, OneFact(e), Two(User(e), Quiet()));
    MissReached(e, s, User(e), e.g);
    QueueJoined(e, s, User(e), e.g);
    StepOfTwo(S0(e), s.(threads := Two(User(e), Thread([], Queued(e.g)))), User(e), Thread([], Queued(e.g)), 1, Begin);
    assert User(e).frames[0].Kept?;
  }

  /** Someone queued who would have to take something out is in the way as well. */
  lemma QueuedBlocks(s: Sys, t: nat)
    requires Inv(s) && NoWriter(s) && t < |s.threads| && s.threads[t].pc.Queued? && Drops(s.k, s.c, s.threads[t].pc.f)
    ensures !MayPass(s)
  {
    hide Good, Compatible, Drops, DropsFrom, ViewOf, Fits, CoveredBy, FrameOk, Proper, Put;
    var f := s.threads[t].pc.f;
    assert ThreadOk(s.k, s.c, s.threads[t]);
    ViewDrops(s.k, s.c, f);
    assert Waits(s)[t] == InQueue(f);
    if MayPass(s) {
      assert NobodyHolds(Waits(s));
      var fs :| Fits(s.k, ViewOf(s.c), fs) && Covers(s.k, ViewOf(s.c), fs, Waits(s));
      var gs := RoomAfter(s.k, ViewOf(s.c), f, fs);
    }
  }

  /** A lookup of thread 2 keeps thread 1 waiting for the index, with a fact for which another has to
      go.  Nobody holds the index for writing, but thread 0, inside its function, can never look
      anything up. */
  lemma QueueReached(e: Pair, q: Query)
    requires PairOk(e)
    ensures var s := Sys(e.k, OneFact(e), [User(e), Thread([], Queued(e.g)), Thread([], Looking(q))]);
            Reachable(S0(e), s) && Inside(s, 0) && NoWriter(s) && !MayPass(s)
  {
    hide Reachable, Proper, BaseOk, OneFact, Lookup, S0, Drops, Inv, Good, MayPass, Conflict;
    UserReached(e);
    OneFactFacts(e);
    var s := Sys(e.k, OneFact(e), Two(User(e), Quiet()));
    MissReached(e, s, User(e), e.g);
    assert User(e).frames[0].Kept?;
    LookingReached(e, s, q);
    var r := s.(threads := [User(e), Thread([], Queued(e.g)), Thread([], Looking(q))]);
    ReachedInv(e, r);
    QueuedBlocks(r, 1);
  }

  lemma LookingReached(e: Pair, s: Sys, q: Query)
    requires Reachable(S0(e), s.(threads := Two(User(e), Thread([], Wants(e.g)))))
    ensures Reachable(S0(e), s.(threads := [User(e), Thread([], Queued(e.g)), Thread([], Looking(q))]))
  {
    hide Reachable, Proper, S0, Good, KeptAny, Conflict;
    ReaderReached(e, s, q);
    var ths := [User(e), Thread([], Wants(e.g)), Thread([], Looking(q))];
    var next := Thread([], Queued(e.g));
    NoneKept(e.g);
    QueuedFree(next, User(e));
    QueuedFree(next, Thread([], Looking(q)));
    StepOfThree(S0(e), s.(threads := ths), ths, 1, Queue);
    assert ths[1 := next] == [User(e), next, Thread([], Looking(q))];
  }

  lemma QueuedFree(th: Thread, other: Thread)
    requires (th.pc.Queued? || th.pc.Looking?) && th.frames == [] && !WritesIndex(other.pc) && !WritesDelete(other.pc)
    ensures !Conflict(th, other) && !SelfConflict(th)
  {
  }

  lemma ReaderReached(e: Pair, s: Sys, q: Query)
    requires Reachable(S0(e), s.(threads := Two(User(e), Thread([], Wants(e.g)))))
    ensures Reachable(S0(e), s.(threads := [User(e), Thread([], Wants(e.g)), Thread([], Looking(q))]))
  {
    hide Reachable, Proper, S0, Good, KeptAny, Conflict;
    var ths, next := Two(User(e), Thread([], Wants(e.g))), Thread([], Looking(q));
    NoneKept(e.g);
    QueuedFree(next, User(e));
    QueuedFree(next, Thread([], Wants(e.g)));
    StepOfThree(S0(e), s.(threads := ths), ths, 2, Enter(q));
    assert ths[2 := next] == [User(e), Thread([], Wants(e.g)), next];
  }

  lemma ReachedInv(e: Pair, s: Sys)
    requires PairOk(e) && Reachable(S0(e), s)
    ensures Inv(s)
  {
    hide Inv, Run, Proper;
    var steps :| Run(S0(e), steps) == Some(s);
    InitInv(e.k, 0, 3);
    RunInv(S0(e), steps);
  }
}
