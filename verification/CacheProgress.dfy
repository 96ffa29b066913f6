/** Who in the cache waits for ever. */
module CacheProgress {
  // The locks, with callers' functions that use the cache themselves.
  import opened Pointers
  import opened CacheStore
  import opened CacheProtocol
  import opened CacheQueue

  /* ------------------------------------------------------------ entering */

  /** A lookup can start exactly when no other thread holds the index for writing or is queued for it. */
  lemma EnterWhen(s: Sys, t: nat, q: Query)
    requires Inv(s) && t < |s.threads| && s.threads[t].pc == Idle
    ensures Step(s, t, Enter(q)).Some? <==>
            forall w :: 0 <= w < |s.threads| && w != t ==> !WritesIndex(s.threads[w].pc) && !s.threads[w].pc.Queued?
  {
    hide Good, AllOk, KeptAny;
    var th := Goto(s.threads[t], Looking(q));
    assert Do(s.k, s.c, s.threads[t], Enter(q)) == Some(Move(s.c, th));
    forall w | 0 <= w < |s.threads| && w != t ensures Conflict(th, s.threads[w]) <==> WritesIndex(s.threads[w].pc) {
      OthersDead(s, t, w);
    }
  }

  /** At most one thread holds the index for writing. */
  lemma OneWriter(s: Sys, v: nat, w: nat)
    requires Inv(s) && v < |s.threads| && w < |s.threads| && WritesIndex(s.threads[v].pc) && WritesIndex(s.threads[w].pc)
    ensures v == w
  {
    hide Good, AllOk, KeptAny;
    if v != w {
      OthersDead(s, v, w);
    }
  }

  /* ------------------------------------------------------------ waiting for ever */

  /** Thread w holds the index for writing and has taken facts out, or will: it needs the delete
      lock before it can let go of the index. */
  predicate HasToDelete(s: Sys, w: nat)
    requires w < |s.threads|
  {
    var pc := s.threads[w].pc;
    pc.Doomed? || ((pc.Writing? || pc.Updating?) && Drops(s.k, s.c, pc.f))
  }

  /** Thread u is inside a caller's function that runs on a cached fact. */
  predicate Inside(s: Sys, u: nat) {
    u < |s.threads| && s.threads[u].pc == Idle && KeptAny(s.threads[u].frames)
  }

  function WaitOf(pc: Pc): Wait {
    match pc
    case Queued(f) => InQueue(f)
    case Writing(f) => Holding(f)
    case Updating(f) => Holding(f)
    case Doomed(_) => Dooming
    case _ => Away
  }

  function Waits(s: Sys): (r: seq<Wait>)
    ensures |r| == |s.threads| && forall t :: 0 <= t < |r| ==> r[t] == WaitOf(s.threads[t].pc)
  {
    seq(|s.threads|, t requires 0 <= t < |s.threads| => WaitOf(s.threads[t].pc))
  }

  /** The holder of the index and then the queued insertions can pass without taking anything out. */
  ghost predicate MayPass(s: Sys) {
    Passable(s.k, ViewOf(s.c), Waits(s))
  }

  /** Who has to delete does not pass. */
  lemma BoundBlocks(s: Sys, w: nat)
    requires Inv(s) && w < |s.threads| && HasToDelete(s, w)
    ensures !MayPass(s)
  {
    hide Good, Compatible, AllOk, Drops, DropsFrom, QueueFits, ViewOf;
    assert Waits(s)[w] == WaitOf(s.threads[w].pc);
    if !s.threads[w].pc.Doomed? {
      ViewDrops(s.k, s.c, s.threads[w].pc.f);
    }
  }

  /** Nobody holds the index or is queued for it. */
  lemma ClearPasses(s: Sys)
    requires Inv(s) && forall w :: 0 <= w < |s.threads| ==> !WritesIndex(s.threads[w].pc) && !s.threads[w].pc.Queued?
    ensures MayPass(s)
  {
    hide Compatible, AllOk, Indexed, AllAgree, HitsOk;
    assert Fits(s.k, ViewOf(s.c), []);
    assert Covers(s.k, ViewOf(s.c), [], Waits(s));
  }

  /** A step changes no other thread. */
  lemma StepFrame(s: Sys, t: nat, a: Act, u: nat)
    requires Step(s, t, a).Some? && u < |s.threads|
    ensures |Step(s, t, a).value.threads| == |s.threads| && Step(s, t, a).value.k == s.k && t < |s.threads|
    ensures u != t ==> Step(s, t, a).value.threads[u] == s.threads[u]
  {
    hide Do, LocksFree;
  }

  lemma StepWaits(s: Sys, t: nat, a: Act)
    requires Step(s, t, a).Some?
    ensures t < |s.threads| == |Step(s, t, a).value.threads| && Step(s, t, a).value.k == s.k
    ensures Waits(Step(s, t, a).value) == Waits(s)[t := WaitOf(Step(s, t, a).value.threads[t].pc)]
  {
    hide Do, LocksFree;
  }

  lemma MildView(c: Store, c': Store)
    requires Mild(c, c')
    ensures ViewOf(c') == ViewOf(c)
  {
  }

  /** Only an insertion changes what insertions depend on. */
  lemma StepView(s: Sys, t: nat, a: Act)
    requires Inv(s) && Step(s, t, a).Some? && !a.Update?
    ensures ViewOf(Step(s, t, a).value.c) == ViewOf(s.c)
  {
    hide Good, PcOk, FrameOk, Conflict, SelfConflict, ViewOf, Mild, LocksFree;
    if a.Free? {
      assert ThreadOk(s.k, s.c, s.threads[t]);
      DeadElsewhere(s.k, s.c, s.threads[t].pc);
      ViewFreed(s.k, s.c, s.threads[t].pc.dead);
    } else {
      MildInv(s, t, a);
      MildView(s.c, Step(s, t, a).value.c);
    }
  }

  /** Whatever others do, nobody but the one who holds the index can change what an insertion has
      to take out. */
  lemma OthersKeepDrops(s: Sys, t: nat, a: Act, w: nat, f: CFact)
    requires Inv(s) && Step(s, t, a).Some? && w < |s.threads| && w != t && WritesIndex(s.threads[w].pc)
    ensures Drops(s.k, Step(s, t, a).value.c, f) == Drops(s.k, s.c, f)
  {
    hide Good, PcOk, FrameOk, Conflict, SelfConflict, Drops, LocksFree, ViewOf, DropsFrom;
    if a.Update? {
      assert WritesIndex(s.threads[t].pc);
      OneWriter(s, t, w);
    } else {
      StepView(s, t, a);
      StepInv(s, t, a);
      ViewDrops(s.k, s.c, f);
      ViewDrops(s.k, Step(s, t, a).value.c, f);
    }
  }

  /** The thread that has to delete goes on until it waits for the delete lock. */
  lemma WriterDoomed(s: Sys, w: nat, a: Act)
    requires Inv(s) && w < |s.threads| && HasToDelete(s, w) && Step(s, w, a).Some?
    ensures a.LockDelete? || HasToDelete(Step(s, w, a).value, w)
  {
    hide Good, PcOk, FrameOk, LocksFree, Agrees, Drops, Dropped;
    if a.Update? {
      InsertionFacts(s.k, s.c, s.threads[w].pc.f, a.p);
    }
  }

  /** Nobody can take the delete lock while a caller's function runs on a cached fact. */
  lemma NoDelete(s: Sys, u: nat, w: nat)
    requires u < |s.threads| && KeptAny(s.threads[u].frames)
    ensures Step(s, w, LockDelete).None?
  {
    hide KeptAny;
  }

  /** The actions that have nothing to do with the queue. */
  lemma PlainWait(k: Config, c: Store, th: Thread, a: Act)
    requires Do(k, c, th, a).Some? && !a.Queue? && !a.Begin? && !a.Update? && !a.LockDelete?
    ensures WaitOf(Do(k, c, th, a).value.th.pc) == WaitOf(th.pc)
  {
    hide Good, Fetched, Lookup, Agrees;
  }

  lemma StepMoves(s: Sys, t: nat, a: Act)
    requires Step(s, t, a).Some?
    ensures t < |s.threads| && Do(s.k, s.c, s.threads[t], a).Some?
    ensures Step(s, t, a).value.threads[t] == Do(s.k, s.c, s.threads[t], a).value.th
    ensures Step(s, t, a).value.c == Do(s.k, s.c, s.threads[t], a).value.c
  {
    hide Do, LocksFree;
  }

  /** No step of another thread makes the way passable while u is inside. */
  lemma StepBack(s: Sys, u: nat, t: nat, a: Act)
    requires Inv(s) && Inside(s, u) && t != u && Step(s, t, a).Some? && MayPass(Step(s, t, a).value)
    ensures MayPass(s)
  {
    hide Inv, Step, Do, Passable, ViewOf, KeptAny;
    StepMoves(s, t, a);
    StepWaits(s, t, a);
    if a.LockDelete? {
      NoDelete(s, u, t);
    } else if a.Update? {
      UpdateStepBack(s, t, a);
    } else {
      StepView(s, t, a);
      if a.Queue? || a.Begin? {
        QueueStepBack(s, t, a);
      } else {
        PlainWait(s.k, s.c, s.threads[t], a);
        assert Waits(Step(s, t, a).value) == Waits(s);
      }
    }
  }

  lemma QueueStepBack(s: Sys, t: nat, a: Act)
    requires Inv(s) && Step(s, t, a).Some? && (a.Queue? || a.Begin?) && ViewOf(Step(s, t, a).value.c) == ViewOf(s.c)
    requires MayPass(Step(s, t, a).value)
    ensures MayPass(s)
  {
    hide Good, FrameOk, Passable, ViewOf, KeptAny, Proper;
    StepWaits(s, t, a);
    var f := s.threads[t].pc.f;
    assert ThreadOk(s.k, s.c, s.threads[t]);
    if a.Queue? {
      QueueBack(s.k, ViewOf(s.c), Waits(s), t, f);
    } else {
      forall w | 0 <= w < |s.threads| ensures !Waits(s)[w].Holding? {
        if w != t {
          assert !Conflict(Goto(s.threads[t], Writing(f)), s.threads[w]);
        }
      }
      BeginBack(s.k, ViewOf(s.c), Waits(s), t, f);
    }
  }

  /** The writer is the only one with a fact to insert. */
  lemma OneHolder(s: Sys, w: nat)
    requires Inv(s) && w < |s.threads| && WritesIndex(s.threads[w].pc)
    ensures forall v :: 0 <= v < |s.threads| && v != w ==> !Waits(s)[v].Holding?
  {
    hide Inv;
    forall v | 0 <= v < |s.threads| && v != w ensures !Waits(s)[v].Holding? {
      if WritesIndex(s.threads[v].pc) {
        OneWriter(s, v, w);
      }
    }
  }

  /** What an insertion leaves, when it takes nothing out and when it does. */
  lemma Updated(s: Sys, t: nat, p: Ptr)
    requires Inv(s) && Step(s, t, Update(p)).Some?
    ensures t < |s.threads| && s.threads[t].pc.Updating?
    ensures var f, s' := s.threads[t].pc.f, Step(s, t, Update(p)).value;
            && s'.threads[t].pc.Doomed? == Drops(s.k, s.c, f) && (!Drops(s.k, s.c, f) ==> s'.threads[t].pc == Leaving({}))
            && (!Drops(s.k, s.c, f) ==> ViewOf(s'.c) == Put(s.k, ViewOf(s.c), f))
  {
    hide Good, PcOk, FrameOk, LocksFree, Agrees, Drops, Dropped, ViewOf, Put, Compatible, Insertion;
    var f := s.threads[t].pc.f;
    InsertionFacts(s.k, s.c, f, p);
    if !Drops(s.k, s.c, f) {
      ViewInserted(s.k, s.c, f, p);
    }
  }

  lemma UpdateStepBack(s: Sys, t: nat, a: Act)
    requires Inv(s) && Step(s, t, a).Some? && a.Update? && MayPass(Step(s, t, a).value)
    ensures MayPass(s)
  {
    hide Inv, Step, ViewOf, KeptAny, QueueFits, Drops, DropsFrom, Put;
    StepWaits(s, t, a);
    Updated(s, t, a.p);
    var f := s.threads[t].pc.f;
    assert Waits(Step(s, t, a).value)[t] != Dooming;
    ViewDrops(s.k, s.c, f) by {
      InvGood(s);
    }
    OneHolder(s, t);
    UpdateBack(s.k, ViewOf(s.c), Waits(s), t, f);
  }

  lemma InvGood(s: Sys)
    requires Inv(s)
    ensures Good(s.k, s.c)
  {
  }

  /** A thread takes no step in a run. */
  predicate Rests(u: nat, steps: seq<(nat, Act)>) {
    forall i :: 0 <= i < |steps| ==> steps[i].0 != u
  }

  /** Once the others cannot pass without taking something out, a lookup from inside a caller's
      function never starts. */
  lemma {:induction false} NeverEnters(s: Sys, u: nat, steps: seq<(nat, Act)>, q: Query)
    requires Inv(s) && Inside(s, u) && !MayPass(s)
    requires Rests(u, steps) && Run(s, steps).Some?
    ensures Step(Run(s, steps).value, u, Enter(q)).None?
    decreases |steps|
  {
    hide Inv, Step, MayPass, KeptAny;
    if steps == [] {
      EnterWhen(s, u, q);
      if Step(s, u, Enter(q)).Some? {
        ClearPasses(s);
      }
    } else {
      var (t, a) := steps[0];
      StepFrame(s, t, a, u);
      StepInv(s, t, a);
      if MayPass(Step(s, t, a).value) {
        StepBack(s, u, t, a);
      }
      assert Rests(u, steps[1..]);
      NeverEnters(Step(s, t, a).value, u, steps[1..], q);
    }
  }

  /* ------------------------------------------------------------ going on */

  lemma FreshPtr(h: Heap) returns (p: Ptr)
    ensures p !in h
  {
    p := Above(h.Keys);
  }

  lemma {:induction false} Above(ps: set<Ptr>) returns (p: Ptr)
    ensures forall q :: q in ps ==> q < p
    decreases |ps|
  {
    if ps == {} {
      p := 0;
    } else {
      var q :| q in ps;
      var r := Above(ps - {q});
      assert forall x :: x in ps ==> x == q || x in ps - {q};
      p := if q < r then r else q + 1;
    }
  }

  /** Locks are given up or kept, not taken. */
  predicate Weaker(a: Thread, b: Thread) {
    && (WritesIndex(a.pc) ==> WritesIndex(b.pc)) && (ReadsIndex(a.pc) ==> ReadsIndex(b.pc))
    && (HoldsStorage(a.pc) ==> HoldsStorage(b.pc))
    && (WritesDelete(a.pc) ==> WritesDelete(b.pc)) && (ReadsDelete(a) ==> ReadsDelete(b))
  }

  lemma WeakerGoes(s: Sys, t: nat, a: Act)
    requires Inv(s) && t < |s.threads| && Do(s.k, s.c, s.threads[t], a).Some? && !a.Enter?
    requires Weaker(Do(s.k, s.c, s.threads[t], a).value.th, s.threads[t])
    ensures Step(s, t, a).Some?
  {
    hide Good, Do, PcOk, FrameOk, KeptAny, ReadsDelete;
    assert ThreadOk(s.k, s.c, s.threads[t]);
    var th := Do(s.k, s.c, s.threads[t], a).value.th;
    forall u | 0 <= u < |s.threads| && u != t ensures !Conflict(th, s.threads[u]) {
      OthersDead(s, t, u);
    }
  }

  /** What a draining thread does next. */
  function DrainAct(pc: Pc): Act {
    if pc.Locked? then Count else if pc.Draining? && pc.i < pc.n then Apply else Reset
  }

  /** How many steps a draining thread needs to give the storage back. */
  function DrainSteps(k: Config, pc: Pc): nat {
    match pc
    case Locked(_, _, _, _) => k.size + 2
    case Draining(_, _, _, _, n, i) => if i < n then n - i + 1 else 1
    case _ => 0
  }

  lemma DrainGoes(s: Sys, v: nat)
    requires Inv(s) && v < |s.threads| && (s.threads[v].pc.Locked? || s.threads[v].pc.Draining?)
    ensures Step(s, v, DrainAct(s.threads[v].pc)).Some?
    ensures var s' := Step(s, v, DrainAct(s.threads[v].pc)).value;
            && DrainSteps(s.k, s'.threads[v].pc) < DrainSteps(s.k, s.threads[v].pc)
            && WaitOf(s'.threads[v].pc) == Away && !ReadsIndex(s'.threads[v].pc)
            && (s'.threads[v].pc.Locked? || s'.threads[v].pc.Draining? || !HoldsStorage(s'.threads[v].pc))
  {
    hide Good, FrameOk, WholeFact, Used, LocksFree, Compatible, SelfConflict;
    var th := s.threads[v];
    assert ThreadOk(s.k, s.c, th);
    GoodHits(s.k, s.c, th.pc.sh);
    var a := DrainAct(th.pc);
    assert Do(s.k, s.c, th, a).Some?;
    AfterKeeps(th, th.pc.q, th.pc.p, th.pc.keep);
    WeakerGoes(s, v, a);
  }

  lemma AfterKeeps(th: Thread, q: Query, p: Ptr, keep: bool)
    ensures ReadsDelete(After(th, q, p, keep)) ==> KeptAny(th.frames) || keep
  {
  }

  /** The writer can get the storage, or somebody who drains can go on. */
  lemma StorageHolder(s: Sys, w: nat) returns (v: nat)
    requires Inv(s) && w < |s.threads| && s.threads[w].pc.Writing?
    ensures v < |s.threads| && (v == w ==> Step(s, w, LockStorage).Some?)
    ensures v != w ==> s.threads[v].pc.Locked? || s.threads[v].pc.Draining?
  {
    hide Good, AllOk, KeptAny;
    if u :| 0 <= u < |s.threads| && u != w && HoldsStorage(s.threads[u].pc) {
      v := u;
      OthersDead(s, u, w);
    } else {
      v := w;
      var th := Goto(s.threads[w], Updating(s.threads[w].pc.f));
      assert Do(s.k, s.c, s.threads[w], LockStorage) == Some(Move(s.c, th));
      forall u | 0 <= u < |s.threads| && u != w ensures !Conflict(th, s.threads[u]) {
        OthersDead(s, w, u);
      }
    }
  }

  /** The holder of the index, when the others may pass, and u is inside a caller's function. */
  ghost predicate Passing(s: Sys, u: nat, w: nat) {
    Inv(s) && Inside(s, u) && w < |s.threads| && w != u && WritesIndex(s.threads[w].pc) && MayPass(s)
  }

  lemma PassingPc(s: Sys, u: nat, w: nat)
    requires Passing(s, u, w)
    ensures var pc := s.threads[w].pc; pc.Writing? || pc.Updating? || pc == Leaving({})
  {
    hide Good, AllOk, Drops, KeptAny, QueueFits, DropsFrom, ViewOf;
    OthersDead(s, w, u);
    assert Waits(s)[w] != Dooming;
  }

  lemma LeavingGoes(s: Sys, w: nat)
    requires Inv(s) && w < |s.threads| && s.threads[w].pc == Leaving({})
    ensures Step(s, w, ReleaseIndex).Some? && Step(s, w, ReleaseIndex).value.threads[w].pc == Idle
  {
    hide Inv, KeptAny, LocksFree;
    WeakerGoes(s, w, ReleaseIndex);
  }

  lemma UpdatingGoes(s: Sys, w: nat) returns (p: Ptr)
    requires Inv(s) && w < |s.threads| && s.threads[w].pc.Updating?
    ensures Step(s, w, Update(p)).Some?
  {
    hide Good, PcOk, FrameOk, KeptAny, LocksFree, Agrees, Drops, Compatible, Dropped, Insertion;
    p := FreshPtr(s.c.heap);
    assert ThreadOk(s.k, s.c, s.threads[w]);
    AgreesHere(s.k, s.c, s.threads[w].pc);
    WeakerGoes(s, w, Update(p));
  }

  lemma AgreesHere(k: Config, c: Store, pc: Pc)
    requires PcOk(k, c, pc) && (pc.Wants? || pc.Queued? || pc.Writing? || pc.Updating?)
    ensures Agrees(k.base, pc.f) && Proper(k, pc.f)
  {
  }

  lemma StorageLocked(s: Sys, w: nat)
    requires w < |s.threads| && s.threads[w].pc.Writing? && Step(s, w, LockStorage).Some?
    ensures Step(s, w, LockStorage).value.threads[w].pc == Updating(s.threads[w].pc.f) && Step(s, w, LockStorage).value.c == s.c
  {
    hide LocksFree;
  }

  /** At most one thread drains. */
  lemma OneDrainer(s: Sys, u: nat, v: nat)
    requires Inv(s) && u < |s.threads| && (s.threads[u].pc.Locked? || s.threads[u].pc.Draining?)
    requires v < |s.threads| && (s.threads[v].pc.Locked? || s.threads[v].pc.Draining?)
    ensures u == v
  {
    hide Good, AllOk, KeptAny;
    if u != v {
      OthersDead(s, u, v);
    }
  }

  lemma {:induction false} RunConcat(s: Sys, a: seq<(nat, Act)>, b: seq<(nat, Act)>)
    requires Run(s, a).Some?
    ensures Run(s, a + b) == Run(Run(s, a).value, b)
    decreases |a|
  {
    hide Step;
    if a == [] {
      assert a + b == b;
    } else {
      assert (a + b)[1..] == a[1..] + b;
      RunConcat(Step(s, a[0].0, a[0].1).value, a[1..], b);
    }
  }

  lemma RunOne(s: Sys, t: nat, a: Act)
    requires Step(s, t, a).Some?
    ensures Run(s, [(t, a)]) == Step(s, t, a)
  {
    hide Step;
    assert [(t, a)][1..] == [];
  }

  /** One more step before a run. */
  lemma RunCons(s: Sys, t: nat, a: Act, steps: seq<(nat, Act)>)
    requires Step(s, t, a).Some?
    ensures Run(s, [(t, a)] + steps) == Run(Step(s, t, a).value, steps)
  {
    hide Step;
    assert ([(t, a)] + steps)[1..] == steps;
  }

  /** The run leads from s to s', and u rests inside its caller's function. */
  ghost predicate Leads(s: Sys, u: nat, steps: seq<(nat, Act)>, s': Sys) {
    Rests(u, steps) && Run(s, steps) == Some(s') && Inv(s') && Inside(s', u) && s'.k == s.k && |s'.threads| == |s.threads|
  }

  lemma LeadsNowhere(s: Sys, u: nat)
    requires Inv(s) && Inside(s, u)
    ensures Leads(s, u, [], s)
  {
    hide Inv, KeptAny;
  }

  lemma LeadsCons(s: Sys, u: nat, t: nat, a: Act, steps: seq<(nat, Act)>, s': Sys)
    requires t != u && Step(s, t, a).Some? && Leads(Step(s, t, a).value, u, steps, s')
    ensures Leads(s, u, [(t, a)] + steps, s')
  {
    hide Inv, Step, KeptAny, Run;
    RunCons(s, t, a, steps);
    StepWaits(s, t, a);
  }

  lemma LeadsOn(s: Sys, u: nat, a: seq<(nat, Act)>, m: Sys, b: seq<(nat, Act)>, s': Sys)
    requires Leads(s, u, a, m) && Leads(m, u, b, s')
    ensures Leads(s, u, a + b, s')
  {
    hide Inv, Step, KeptAny, Run;
    RunConcat(s, a, b);
  }

  lemma StepInside(s: Sys, u: nat, t: nat, a: Act)
    requires Inv(s) && Inside(s, u) && t != u && Step(s, t, a).Some?
    ensures Inv(Step(s, t, a).value) && Inside(Step(s, t, a).value, u)
  {
    hide Inv, Step, KeptAny;
    StepInv(s, t, a);
    StepFrame(s, t, a, u);
  }

  ghost predicate NoWriter(s: Sys) {
    forall v :: 0 <= v < |s.threads| ==> !WritesIndex(s.threads[v].pc)
  }

  ghost predicate NoReader(s: Sys) {
    forall v :: 0 <= v < |s.threads| ==> !ReadsIndex(s.threads[v].pc)
  }

  /** Nobody reads while somebody writes. */
  lemma WriterAlone(s: Sys, w: nat)
    requires Inv(s) && w < |s.threads| && WritesIndex(s.threads[w].pc)
    ensures NoReader(s)
  {
    hide Good, AllOk, KeptAny;
    forall v | 0 <= v < |s.threads| ensures !ReadsIndex(s.threads[v].pc) {
      if v != w {
        OthersDead(s, v, w);
      }
    }
  }

  /** The same insertions are under way, on the same contents. */
  ghost predicate SameQueue(s: Sys, s': Sys) {
    s'.k == s.k && |s'.threads| == |s.threads| && Waits(s') == Waits(s) && ViewOf(s'.c) == ViewOf(s.c)
  }

  lemma PlainSame(s: Sys, t: nat, a: Act)
    requires Inv(s) && Step(s, t, a).Some? && !a.Update? && WaitOf(Step(s, t, a).value.threads[t].pc) == WaitOf(s.threads[t].pc)
    ensures SameQueue(s, Step(s, t, a).value)
  {
    hide Inv, Step, ViewOf;
    StepWaits(s, t, a);
    StepView(s, t, a);
  }

  lemma TakeStorage(s: Sys, u: nat, w: nat) returns (s': Sys)
    requires Passing(s, u, w) && s.threads[w].pc.Writing? && Step(s, w, LockStorage).Some?
    ensures Leads(s, u, [(w, LockStorage)], s') && SameQueue(s, s') && s'.threads[w].pc == Updating(s.threads[w].pc.f)
  {
    hide Inv, Step, KeptAny, Run, MayPass, ViewOf;
    s' := Step(s, w, LockStorage).value;
    StorageLocked(s, w);
    StepInside(s, u, w, LockStorage);
    PlainSame(s, w, LockStorage);
    RunOne(s, w, LockStorage);
  }

  lemma PassingOn(s: Sys, u: nat, w: nat, t: nat, a: Act)
    requires Passing(s, u, w) && t != u && t != w && Step(s, t, a).Some? && SameQueue(s, Step(s, t, a).value)
    ensures Passing(Step(s, t, a).value, u, w) && Step(s, t, a).value.threads[w] == s.threads[w]
  {
    hide Inv, Step, KeptAny, ViewOf, Passable;
    StepInside(s, u, t, a);
    StepFrame(s, t, a, w);
  }

  /** A draining thread gives the storage back, and the writer takes it. */
  lemma {:induction false} GetStorage(s: Sys, u: nat, w: nat, v: nat) returns (steps: seq<(nat, Act)>, s': Sys)
    requires Passing(s, u, w) && s.threads[w].pc.Writing? && v < |s.threads| && (s.threads[v].pc.Locked? || s.threads[v].pc.Draining?)
    ensures Leads(s, u, steps, s') && SameQueue(s, s') && s'.threads[w].pc == Updating(s.threads[w].pc.f)
    decreases DrainSteps(s.k, s.threads[v].pc)
  {
    hide Inv, Step, KeptAny, Run, MayPass, ViewOf, Leads;
    var a := DrainAct(s.threads[v].pc);
    DrainGoes(s, v);
    PlainSame(s, v, a);
    PassingOn(s, u, w, v, a);
    var s1 := Step(s, v, a).value;
    var rest;
    if s1.threads[v].pc.Locked? || s1.threads[v].pc.Draining? {
      rest, s' := GetStorage(s1, u, w, v);
    } else {
      var v1 := StorageHolder(s1, w);
      if v1 != w {
        StepFrame(s, v, a, v1);
        OneDrainer(s, v, v1);
      }
      s' := TakeStorage(s1, u, w);
      rest := [(w, LockStorage)];
    }
    steps := [(v, a)] + rest;
    LeadsCons(s, u, v, a, rest, s');
  }

  lemma ReachUpdating(s: Sys, u: nat, w: nat) returns (steps: seq<(nat, Act)>, s': Sys)
    requires Passing(s, u, w) && s.threads[w].pc.Writing?
    ensures Leads(s, u, steps, s') && SameQueue(s, s') && s'.threads[w].pc == Updating(s.threads[w].pc.f)
  {
    hide Inv, Step, Run, MayPass, KeptAny, Leads;
    var v := StorageHolder(s, w);
    if v == w {
      s' := TakeStorage(s, u, w);
      steps := [(w, LockStorage)];
    } else {
      steps, s' := GetStorage(s, u, w, v);
    }
  }

  /** The index is free, nobody reads it, and the rest of the queue may pass. */
  ghost predicate Passed(s: Sys, w: nat, s': Sys) {
    && NoWriter(s') && NoReader(s') && MayPass(s')
    && w < |s.threads| == |s'.threads| && Waits(s') == Waits(s)[w := Away]
  }

  lemma FromLeaving(s: Sys, u: nat, w: nat) returns (steps: seq<(nat, Act)>, s': Sys)
    requires Passing(s, u, w) && s.threads[w].pc == Leaving({})
    ensures Leads(s, u, steps, s') && Passed(s, w, s')
  {
    hide Inv, Step, KeptAny, Run, ViewOf, Passable;
    LeavingGoes(s, w);
    StepInside(s, u, w, ReleaseIndex);
    PlainSame(s, w, ReleaseIndex);
    steps, s' := [(w, ReleaseIndex)], Step(s, w, ReleaseIndex).value;
    RunOne(s, w, ReleaseIndex);
    WriterAlone(s, w);
    forall v | 0 <= v < |s'.threads| ensures !WritesIndex(s'.threads[v].pc) && !ReadsIndex(s'.threads[v].pc) {
      if v != w {
        StepFrame(s, w, ReleaseIndex, v);
        if WritesIndex(s.threads[v].pc) {
          OneWriter(s, v, w);
        }
      }
    }
  }

  /** From an update on, the writer gives the index back by itself. */
  lemma FromUpdating(s: Sys, u: nat, w: nat) returns (steps: seq<(nat, Act)>, s': Sys)
    requires Passing(s, u, w) && s.threads[w].pc.Updating?
    ensures Leads(s, u, steps, s') && Passed(s, w, s')
  {
    hide Inv, Step, KeptAny, Run, ViewOf, Leads, MayPass, Passed;
    var p := UpdatingGoes(s, w);
    var s1 := UpdatePasses(s, u, w, p);
    var rest;
    rest, s' := FromLeaving(s1, u, w);
    steps := [(w, Update(p))] + rest;
    LeadsCons(s, u, w, Update(p), rest, s');
    PassedFrom(s, s1, w, s');
  }

  lemma PassedFrom(s: Sys, s1: Sys, w: nat, s': Sys)
    requires Passed(s1, w, s') && w < |s.threads| == |s1.threads| && Waits(s1) == Waits(s)[w := Away]
    ensures Passed(s, w, s')
  {
    hide MayPass;
  }

  lemma UpdatePasses(s: Sys, u: nat, w: nat, p: Ptr) returns (s': Sys)
    requires Passing(s, u, w) && s.threads[w].pc.Updating? && Step(s, w, Update(p)).Some?
    ensures Step(s, w, Update(p)) == Some(s') && Passing(s', u, w) && s'.threads[w].pc == Leaving({})
    ensures |s'.threads| == |s.threads| && Waits(s') == Waits(s)[w := Away]
  {
    hide Inv, Step, KeptAny, ViewOf, Passable, Drops, DropsFrom, Put;
    s' := Step(s, w, Update(p)).value;
    var f := s.threads[w].pc.f;
    StepInside(s, u, w, Update(p));
    StepWaits(s, w, Update(p));
    Updated(s, w, p);
    InvGood(s);
    ViewDrops(s.k, s.c, f);
    OneHolder(s, w);
    HolderPasses(s.k, ViewOf(s.c), Waits(s), w, f);
  }

  /** The holder of the index gives it back without having taken anything out. */
  lemma PassWriter(s: Sys, u: nat, w: nat) returns (steps: seq<(nat, Act)>, s': Sys)
    requires Passing(s, u, w)
    ensures Leads(s, u, steps, s') && Passed(s, w, s')
  {
    hide Inv, Step, KeptAny, Run, ViewOf, MayPass, Passed, Leads;
    PassingPc(s, u, w);
    if s.threads[w].pc.Writing? {
      var first, m := ReachUpdating(s, u, w);
      StillPassing(s, u, w, first, m);
      var rest;
      rest, s' := FromUpdating(m, u, w);
      steps := first + rest;
      LeadsOn(s, u, first, m, rest, s');
      PassedSame(s, m, w, s');
    } else if s.threads[w].pc.Updating? {
      steps, s' := FromUpdating(s, u, w);
    } else {
      steps, s' := FromLeaving(s, u, w);
    }
  }

  lemma StillPassing(s: Sys, u: nat, w: nat, steps: seq<(nat, Act)>, m: Sys)
    requires Passing(s, u, w) && Leads(s, u, steps, m) && SameQueue(s, m) && m.threads[w].pc.Updating?
    ensures Passing(m, u, w)
  {
    hide Inv, KeptAny, Run, ViewOf, Passable;
  }

  lemma PassedSame(s: Sys, m: Sys, w: nat, s': Sys)
    requires SameQueue(s, m) && Passed(m, w, s')
    ensures Passed(s, w, s')
  {
    hide MayPass;
  }

  /* ------------------------------------------------------------ the next action */

  /** What the base gives for a query. */
  ghost function Fetch(k: Config, q: Query): Option<CFact> {
    match q
    case TypeOf(id) =>
      if id in k.base then Some(CFact(id, Data(k.base[id].pid, [], []), SizeFor(k, k.base[id], TYPE), TYPE)) else None
    case FactOf(id) => if id in k.base then Some(CFact(id, k.base[id], SizeFor(k, k.base[id], FULL), FULL)) else None
    case IdOf(key) =>
      if i :| i in k.base && (k.base[i].pid, k.base[i].key) == key then
        Some(CFact(i, Data(key.0, key.1, []), SizeFor(k, k.base[i], KEY), KEY))
      else None
  }

  lemma FetchFetched(k: Config, q: Query)
    ensures Fetched(k, q, Fetch(k, q))
  {
  }

  /** The next action of a thread that is in the cache. */
  ghost function GoAct(s: Sys, pc: Pc, fresh_: Ptr): (a: Act)
    ensures !a.Enter?
  {
    match pc
    case Idle => Finish
    case Looking(q) => if Lookup(s.c, q).Some? then Find else Miss(Fetch(s.k, q))
    case Found(q, p, keep) => if q.FactOf? && !keep then Keep else if s.c.touched == [] then LockList else Load(0)
    case Listing(_, _, _) => TouchList
    case Loaded(_, _, _, _, n) => if n < s.k.size then Record else Unlock
    case Written(_, _, _, _, _) => Bump
    case Overflow(_, _, _, _) => TryLock(false)
    case Locked(_, _, _, _) => Count
    case Draining(_, _, _, _, n, i) => if i < n then Apply else Reset
    case Wants(_) => Queue
    case Queued(_) => Begin
    case Writing(_) => LockStorage
    case Updating(_) => Update(fresh_)
    case Doomed(_) => LockDelete
    case Sealed(_) => ReleaseStorage
    case Leaving(_) => ReleaseIndex
    case Freeing(_) => Free
  }

  /** The places where a thread takes another lock. */
  predicate Asks(pc: Pc) {
    pc.Found? || pc.Queued? || pc.Writing? || pc.Doomed?
  }

  lemma GoApplies(s: Sys, th: Thread, fresh_: Ptr)
    requires Good(s.k, s.c) && PcOk(s.k, s.c, th.pc) && th.pc != Idle && fresh_ !in s.c.heap
    ensures Do(s.k, s.c, th, GoAct(s, th.pc, fresh_)).Some?
  {
    hide Good, Right, WholeFact, Agrees, KeptAny, Fetch, Lookup, Dropped;
    if th.pc.Looking? {
      FetchFetched(s.k, th.pc.q);
    } else if FilledAt(th.pc).Some? {
      GoodHits(s.k, s.c, th.pc.sh);
    }
  }

  lemma GoWeaker(s: Sys, th: Thread, fresh_: Ptr)
    requires Do(s.k, s.c, th, GoAct(s, th.pc, fresh_)).Some? && th.pc != Idle && !Asks(th.pc)
    ensures Weaker(Do(s.k, s.c, th, GoAct(s, th.pc, fresh_)).value.th, th)
  {
    hide Good, Fetch, Lookup, Fetched, Agrees, Dropped, KeptAny;
    OwnAdds(th);
    if Touches(th.pc) {
      AfterKeeps(th, th.pc.q, th.pc.p, th.pc.keep);
    }
  }

  predicate Touches(pc: Pc) {
    pc.Found? || pc.Listing? || pc.Loaded? || pc.Written? || pc.Overflow? || pc.Locked? || pc.Draining?
  }

  lemma OwnAdds(th: Thread)
    ensures forall f :: KeptAny(th.frames + [Own(f)]) ==> KeptAny(th.frames)
  {
  }

  lemma AllGood(s: Sys, t: nat)
    requires Inv(s) && t < |s.threads|
    ensures Good(s.k, s.c) && ThreadOk(s.k, s.c, s.threads[t]) && PcOk(s.k, s.c, s.threads[t].pc)
  {
  }

  /* ------------------------------------------------------------ readers leave */

  /** How far a thread is from leaving the index and the storage. */
  function Distance(k: Config, pc: Pc): nat {
    match pc
    case Looking(_) => 5
    case Found(_, _, keep) => if keep then 3 else 4
    case Listing(_, _, _) => 1
    case Loaded(_, _, _, _, _) => 2
    case Written(_, _, _, _, _) => 1
    case _ => DrainSteps(k, pc)
  }

  function Distances(k: Config, ths: seq<Thread>): nat {
    if ths == [] then 0 else Distances(k, ths[..|ths| - 1]) + Distance(k, ths[|ths| - 1].pc)
  }

  lemma {:induction false} DistancesUpdate(k: Config, ths: seq<Thread>, t: nat, th: Thread)
    requires t < |ths|
    ensures Distances(k, ths[t := th]) + Distance(k, ths[t].pc) == Distances(k, ths) + Distance(k, th.pc)
  {
    var n := |ths| - 1;
    if t == n {
      assert ths[t := th][..n] == ths[..n];
    } else {
      assert ths[t := th][..n] == ths[..n][t := th];
      DistancesUpdate(k, ths[..n], t, th);
    }
  }

  /** In the middle of a lookup, not yet in the way of nobody. */
  predicate Busy(pc: Pc) {
    ReadsIndex(pc) || pc.Locked? || pc.Draining?
  }

  lemma BusyMoves(s: Sys, th: Thread, fresh_: Ptr)
    requires Good(s.k, s.c) && PcOk(s.k, s.c, th.pc) && Busy(th.pc) && Do(s.k, s.c, th, GoAct(s, th.pc, fresh_)).Some?
    ensures var a, pc := GoAct(s, th.pc, fresh_), Do(s.k, s.c, th, GoAct(s, th.pc, fresh_)).value.th.pc;
            && Distance(s.k, pc) < Distance(s.k, th.pc) && WaitOf(pc) == Away == WaitOf(th.pc) && !a.Update?
            && !WritesIndex(pc)
  {
    hide Good, Right, WholeFact, Agrees, KeptAny, Fetch, Lookup, Fetched;
    if th.pc.Locked? {
      GoodHits(s.k, s.c, th.pc.sh);
    }
  }

  /** While u is inside, nobody holds the delete lock for writing. */
  lemma NobodyDeletes(s: Sys, u: nat)
    requires Inv(s) && Inside(s, u)
    ensures forall v :: 0 <= v < |s.threads| ==> !WritesDelete(s.threads[v].pc)
  {
    hide Good, AllOk, KeptAny;
    forall v | 0 <= v < |s.threads| ensures !WritesDelete(s.threads[v].pc) {
      if v != u {
        OthersDead(s, u, v);
      }
    }
  }

  /** A lookup that has found a fact gets the next lock, when nobody else is on the way out. */
  lemma FoundGoes(s: Sys, u: nat, t: nat, fresh_: Ptr)
    requires Inv(s) && Inside(s, u) && NoWriter(s) && t < |s.threads| && s.threads[t].pc.Found? && fresh_ !in s.c.heap
    requires forall v :: 0 <= v < |s.threads| && Busy(s.threads[v].pc) ==> s.threads[v].pc.Found?
    ensures Step(s, t, GoAct(s, s.threads[t].pc, fresh_)).Some?
  {
    hide Good, PcOk, FrameOk, KeptAny, Right;
    var th := s.threads[t];
    assert ThreadOk(s.k, s.c, th);
    GoApplies(s, th, fresh_);
    NobodyDeletes(s, u);
    var next := Do(s.k, s.c, th, GoAct(s, th.pc, fresh_)).value.th;
    forall v | 0 <= v < |s.threads| && v != t ensures !Conflict(next, s.threads[v]) {
      OthersDead(s, t, v);
    }
  }

  lemma BusyGoes(s: Sys, u: nat) returns (t: nat, a: Act)
    requires Inv(s) && Inside(s, u) && NoWriter(s) && !NoReader(s)
    ensures Step(s, t, a).Some? && t != u && t < |s.threads| && !a.Update?
    ensures var pc := Step(s, t, a).value.threads[t].pc;
            Distance(s.k, pc) < Distance(s.k, s.threads[t].pc) && WaitOf(pc) == WaitOf(s.threads[t].pc) && !WritesIndex(pc)
  {
    hide Inv, Step, KeptAny, GoAct, Do, Distance;
    var fresh_ := FreshPtr(s.c.heap);
    if v :| 0 <= v < |s.threads| && Busy(s.threads[v].pc) && !s.threads[v].pc.Found? {
      t := v;
      AllGood(s, t);
      GoApplies(s, s.threads[t], fresh_);
      GoWeaker(s, s.threads[t], fresh_);
      WeakerGoes(s, t, GoAct(s, s.threads[t].pc, fresh_));
    } else {
      t :| 0 <= t < |s.threads| && ReadsIndex(s.threads[t].pc);
      AllGood(s, t);
      GoApplies(s, s.threads[t], fresh_);
      FoundGoes(s, u, t, fresh_);
    }
    a := GoAct(s, s.threads[t].pc, fresh_);
    BusyMoves(s, s.threads[t], fresh_);
    StepMoves(s, t, a);
  }

  /** With nobody writing, all lookups get out of the index. */
  lemma {:induction false} ReadersLeave(s: Sys, u: nat) returns (steps: seq<(nat, Act)>, s': Sys)
    requires Inv(s) && Inside(s, u) && NoWriter(s)
    ensures Leads(s, u, steps, s') && SameQueue(s, s') && NoWriter(s') && NoReader(s')
    decreases Distances(s.k, s.threads)
  {
    hide Inv, Step, KeptAny, Run, ViewOf, Leads, Distance, ReadsIndex, WritesIndex;
    if NoReader(s) {
      steps, s' := [], s;
      LeadsNowhere(s, u);
    } else {
      var t, a := BusyGoes(s, u);
      var s1 := Step(s, t, a).value;
      StepInside(s, u, t, a);
      PlainSame(s, t, a);
      StepThreads(s, t, a);
      DistancesUpdate(s.k, s.threads, t, s1.threads[t]);
      var rest;
      rest, s' := ReadersLeave(s1, u);
      steps := [(t, a)] + rest;
      LeadsCons(s, u, t, a, rest, s');
    }
  }

  lemma StepThreads(s: Sys, t: nat, a: Act)
    requires Step(s, t, a).Some?
    ensures t < |s.threads| && Step(s, t, a).value.threads == s.threads[t := Step(s, t, a).value.threads[t]] && Step(s, t, a).value.k == s.k
  {
    hide Do, LocksFree;
  }

  /* ------------------------------------------------------------ the queue passes */

  ghost function QueueSet(ws: seq<Wait>): set<nat> {
    set t | 0 <= t < |ws| && ws[t].InQueue?
  }

  lemma BeginGoes(s: Sys, t: nat)
    requires Inv(s) && NoWriter(s) && NoReader(s) && t < |s.threads| && s.threads[t].pc.Queued?
    ensures Step(s, t, Begin).Some? && Step(s, t, Begin).value.threads[t].pc == Writing(s.threads[t].pc.f)
  {
    hide Good, AllOk, KeptAny;
    var th := Goto(s.threads[t], Writing(s.threads[t].pc.f));
    assert Do(s.k, s.c, s.threads[t], Begin) == Some(Move(s.c, th));
    forall v | 0 <= v < |s.threads| && v != t ensures !Conflict(th, s.threads[v]) {
      OthersDead(s, t, v);
    }
  }

  /** One of those with most data gets hold of the index. */
  lemma BeginFirst(s: Sys, u: nat) returns (t: nat)
    requires Inv(s) && Inside(s, u) && NoWriter(s) && NoReader(s) && MayPass(s) && QueueSet(Waits(s)) != {}
    ensures t < |s.threads| && t != u && Waits(s)[t].InQueue? && Step(s, t, Begin).Some?
    ensures var s' := Step(s, t, Begin).value;
            Passing(s', u, t) && |s'.threads| == |s.threads| && Waits(s') == Waits(s)[t := Holding(Waits(s)[t].f)]
  {
    hide Inv, Step, KeptAny, ViewOf, Passable, Proper;
    var w :| w in QueueSet(Waits(s));
    t := MaxQueued(Waits(s));
    BeginGoes(s, t);
    StepInside(s, u, t, Begin);
    StepWaits(s, t, Begin);
    StepView(s, t, Begin);
    AllGood(s, t);
    AgreesHere(s.k, s.c, s.threads[t].pc);
    FirstPasses(s.k, ViewOf(s.c), Waits(s), t);
  }

  /** All queued insertions pass. */
  lemma {:induction false} PassQueue(s: Sys, u: nat) returns (steps: seq<(nat, Act)>, s': Sys)
    requires Inv(s) && Inside(s, u) && NoWriter(s) && NoReader(s) && MayPass(s)
    ensures Leads(s, u, steps, s') && NoWriter(s') && QueueSet(Waits(s')) == {}
    decreases QueueSet(Waits(s))
  {
    hide Inv, Step, KeptAny, Run, ViewOf, MayPass, ReadsIndex, WritesIndex, Inside;
    if QueueSet(Waits(s)) == {} {
      steps, s' := [], s;
      LeadsNowhere(s, u);
    } else {
      var t := BeginFirst(s, u);
      var s1 := Step(s, t, Begin).value;
      var first, m := PassWriter(s1, u, t);
      assert QueueSet(Waits(m)) == QueueSet(Waits(s)) - {t};
      var rest;
      rest, s' := PassQueue(m, u);
      LeadsCons(s, u, t, Begin, first, m);
      LeadsOn(s, u, [(t, Begin)] + first, m, rest, s');
      steps := [(t, Begin)] + first + rest;
    }
  }

  /** If the others may pass, they can clear the way for a lookup. */
  lemma WayCleared(s: Sys, u: nat) returns (steps: seq<(nat, Act)>, s': Sys)
    requires Inv(s) && Inside(s, u) && MayPass(s)
    ensures Leads(s, u, steps, s') && NoWriter(s') && QueueSet(Waits(s')) == {}
  {
    hide Inv, Step, KeptAny, Run, ViewOf, Passable, QueueSet, Waits;
    var first, m;
    if w :| 0 <= w < |s.threads| && WritesIndex(s.threads[w].pc) {
      first, m := PassWriter(s, u, w);
    } else {
      first, m := ReadersLeave(s, u);
    }
    var rest;
    rest, s' := PassQueue(m, u);
    steps := first + rest;
    LeadsOn(s, u, first, m, rest, s');
  }

  /** Some run of the other threads lets u start its lookup. */
  ghost predicate EverEnters(s: Sys, u: nat, q: Query) {
    exists steps :: Rests(u, steps) && Run(s, steps).Some? && Step(Run(s, steps).value, u, Enter(q)).Some?
  }

  /** A lookup from inside a caller's function can ever start exactly when the holder of the index
      and the queued insertions can pass without taking anything out. */
  lemma NestedLookup(s: Sys, u: nat, q: Query)
    requires Inv(s) && Inside(s, u)
    ensures EverEnters(s, u, q) <==> MayPass(s)
  {
    hide Inv, Step, MayPass, Run, KeptAny;
    if MayPass(s) {
      var steps, s' := WayCleared(s, u);
      forall w | 0 <= w < |s'.threads| ensures !s'.threads[w].pc.Queued? {
        assert w !in QueueSet(Waits(s'));
      }
      EnterWhen(s', u, q);
    } else {
      forall steps | Rests(u, steps) && Run(s, steps).Some? ensures Step(Run(s, steps).value, u, Enter(q)).None? {
        NeverEnters(s, u, steps, q);
      }
    }
  }

  /** A thread that inserts from inside its own function on a cached fact waits for itself: whatever
      anybody does, it keeps the index for ever. */
  lemma {:induction false} SelfStuck(s: Sys, w: nat, steps: seq<(nat, Act)>)
    requires Inv(s) && w < |s.threads| && HasToDelete(s, w) && KeptAny(s.threads[w].frames) && Run(s, steps).Some?
    ensures var s' := Run(s, steps).value;
            |s'.threads| == |s.threads| && HasToDelete(s', w) && forall t, q :: Step(s', t, Enter(q)).None?
    decreases |steps|
  {
    hide Inv, Step, HasToDelete, KeptAny;
    if steps == [] {
      forall t, q ensures Step(s, t, Enter(q)).None? {
        NobodyEnters(s, w, t, q);
      }
    } else {
      var (t, a) := steps[0];
      StillBound(s, w, t, a);
      StepInv(s, t, a);
      SelfStuck(Step(s, t, a).value, w, steps[1..]);
    }
  }

  lemma NobodyEnters(s: Sys, w: nat, t: nat, q: Query)
    requires w < |s.threads| && HasToDelete(s, w)
    ensures Step(s, t, Enter(q)).None?
  {
    hide KeptAny, Drops;
  }

  lemma StillBound(s: Sys, w: nat, t: nat, a: Act)
    requires Inv(s) && w < |s.threads| && HasToDelete(s, w) && KeptAny(s.threads[w].frames) && Step(s, t, a).Some?
    ensures var s' := Step(s, t, a).value;
            |s'.threads| == |s.threads| && HasToDelete(s', w) && KeptAny(s'.threads[w].frames)
  {
    hide Inv, LocksFree, Drops, KeptAny;
    if t == w {
      NoDelete(s, w, w);
      WriterDoomed(s, w, a);
    } else if !s.threads[w].pc.Doomed? {
      OthersKeepDrops(s, t, a, w, s.threads[w].pc.f);
    }
  }
}
