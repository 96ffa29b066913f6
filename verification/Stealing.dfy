/** What a call of next() means. */
module Stealing {
  // In every interleaving: what is handed out, from whom it is stolen, and what it means to be told
  // that nothing is left.  Without interference: the whole effect of a call.
  import opened Worklist

  /* ---------------------------------------------------------------- single actions */

  /** The first half of a range, which the victim keeps, and the second one. */
  function Lower(c: Value): Value
    requires !c.Empty()
  {
    Value(c.start, c.start + (c.end - c.start) / 2)
  }

  function Upper(c: Value): Value
    requires !c.Empty()
  {
    Value(c.start + (c.end - c.start) / 2, c.end)
  }

  /** An action hands out an item when it ends a call with one, and then the first of the range that
      the call gives back: the worker's own word, or what it has stolen. */
  lemma HandsOut(s: State, w: nat)
    requires Inv(s) && w < |s.pcs|
    ensures var s' := Step(s, w);
            match s'.pcs[w]
            case Idle(Item(v)) =>
              && s'.returned == s.returned + multiset{v.start} && !v.Empty()
              && (if s.pcs[w].Idle? then v == s.counters[w] else s.pcs[w] == Store(v) && s'.counters[w] == Value(v.start + 1, v.end))
            case _ => s'.returned == s.returned
  {
    assert WorkerOk(s, w);
  }

  /** A successful exchange leaves the victim the lower half, rounded down, and the thief carries
      the upper one; a failed one changes no word. */
  lemma StealsHalf(s: State, w: nat)
    requires Inv(s) && w < |s.pcs| && s.pcs[w].Try?
    ensures var v, other, s' := s.pcs[w].victim, s.pcs[w].other, Step(s, w);
            && v < |s.pcs| && v != w && !other.Empty()
            && (s.counters[v] == other ==> s'.counters == s.counters[v := Lower(other)] && s'.pcs[w] == Store(Upper(other)))
            && (s.counters[v] != other ==> s'.counters == s.counters && (s'.pcs[w].Scan? || |s.pcs| == 1))
  {
    assert WorkerOk(s, w);
  }

  /* ---------------------------------------------------------------- one call among others */

  /** Worker u comes after w and before i in the ring. */
  predicate Passed(n: nat, w: nat, i: nat, u: nat) {
    if w < i then w < u < i else (w < u < n || u < i)
  }

  lemma PassedNext(n: nat, w: nat, i: nat, u: nat)
    requires w < n && i < n && i != w && u < n
    ensures Passed(n, w, (i + 1) % n, u) <==> Passed(n, w, i, u) || u == i
  {
    RingNext(i, n);
  }

  lemma PassedEnds(n: nat, w: nat, i: nat)
    requires w < n && i == (w + 1) % n
    ensures i == w <==> n == 1
    ensures i != w ==> forall u :: 0 <= u < n ==> !Passed(n, w, i, u)
    ensures forall u :: 0 <= u < n ==> (Passed(n, w, w, u) <==> u != w)
  {
    RingNext(w, n);
  }

  /** The state after the first k actions. */
  ghost function After(s: State, sched: seq<nat>, k: nat): (r: State)
    requires Shape(s) && Schedule(s, sched) && k <= |sched|
    ensures Shape(r) && |r.pcs| == |s.pcs|
  {
    Run(s, sched[..k])
  }

  /** At some moment, word u held at most m items. */
  ghost predicate WasSmall(s: State, sched: seq<nat>, u: nat, m: nat)
    requires Shape(s) && Schedule(s, sched) && u < |s.pcs|
  {
    exists k :: 0 <= k <= |sched| && After(s, sched, k).counters[u].Size() <= m
  }

  /** The schedule is one call of worker w that finds its own word empty, up to some action of it or
      its end, and what the others do meanwhile. */
  predicate InCall(s: State, w: nat, sched: seq<nat>)
    requires Shape(s) && w < |s.pcs| && Schedule(s, sched)
  {
    s.pcs[w].Idle? && s.counters[w].Empty() && sched != [] && sched[0] == w && InsideCall(Step(s, w), w, sched[1..])
  }

  lemma {:induction false} InsidePrefix(s: State, w: nat, sched: seq<nat>)
    requires Shape(s) && w < |s.pcs| && Schedule(s, sched) && InsideCall(s, w, sched) && sched != []
    ensures var n := |sched| - 1; InsideCall(s, w, sched[..n]) && !Run(s, sched[..n]).pcs[w].Idle?
    decreases |sched|
  {
    var n := |sched| - 1;
    if n > 0 {
      assert sched[..n][1..] == sched[1..][..n - 1];
      InsidePrefix(Step(s, sched[0]), w, sched[1..]);
    }
  }

  lemma CallPrefix(s: State, w: nat, sched: seq<nat>)
    requires Shape(s) && w < |s.pcs| && Schedule(s, sched) && InCall(s, w, sched) && |sched| > 1
    ensures var n := |sched| - 1; InCall(s, w, sched[..n]) && !Run(s, sched[..n]).pcs[w].Idle?
  {
    var n := |sched| - 1;
    InsidePrefix(Step(s, w), w, sched[1..]);
    assert sched[..n][1..] == sched[1..][..n - 1];
  }

  lemma RunSnoc(s: State, sched: seq<nat>)
    requires Shape(s) && Schedule(s, sched) && sched != []
    ensures var n := |sched| - 1; Run(s, sched) == Step(Run(s, sched[..n]), sched[n])
  {
    var n := |sched| - 1;
    assert sched == sched[..n] + [sched[n]];
    RunAppend(s, sched[..n], [sched[n]]);
    assert [sched[n]][1..] == [];
  }

  lemma SmallLater(s: State, sched: seq<nat>, u: nat, m: nat, m': nat)
    requires Shape(s) && Schedule(s, sched) && u < |s.pcs| && sched != [] && m <= m' && WasSmall(s, sched[..|sched| - 1], u, m)
    ensures WasSmall(s, sched, u, m')
  {
    var p := sched[..|sched| - 1];
    var k :| 0 <= k <= |p| && After(s, p, k).counters[u].Size() <= m;
    assert p[..k] == sched[..k];
    assert After(s, sched, k).counters[u].Size() <= m';
  }

  lemma SmallBefore(s: State, sched: seq<nat>, u: nat, m: nat)
    requires Shape(s) && Schedule(s, sched) && u < |s.pcs| && sched != []
    requires Run(s, sched[..|sched| - 1]).counters[u].Size() <= m
    ensures WasSmall(s, sched, u, m)
  {
    assert After(s, sched, |sched| - 1).counters[u].Size() <= m;
  }

  /** Every word between w and i in the ring held at most m items at some moment. */
  ghost predicate AllSmall(s: State, sched: seq<nat>, w: nat, i: nat, m: nat)
    requires Shape(s) && Schedule(s, sched)
  {
    forall u :: 0 <= u < |s.pcs| && Passed(|s.pcs|, w, i, u) ==> WasSmall(s, sched, u, m)
  }

  lemma AllSmallLater(s: State, sched: seq<nat>, w: nat, i: nat, m: nat)
    requires Shape(s) && Schedule(s, sched) && sched != [] && AllSmall(s, sched[..|sched| - 1], w, i, m)
    ensures AllSmall(s, sched, w, i, m)
  {
    hide WasSmall, Passed;
    forall u | 0 <= u < |s.pcs| && Passed(|s.pcs|, w, i, u) ensures WasSmall(s, sched, u, m) {
      SmallLater(s, sched, u, m, m);
    }
  }

  lemma AllSmallNext(s: State, sched: seq<nat>, w: nat, i: nat, m: nat, m': nat)
    requires Shape(s) && Schedule(s, sched) && sched != [] && AllSmall(s, sched[..|sched| - 1], w, i, m)
    requires w < |s.pcs| && i < |s.pcs| && i != w && m <= m' && Run(s, sched[..|sched| - 1]).counters[i].Size() <= m'
    ensures AllSmall(s, sched, w, (i + 1) % |s.pcs|, m')
  {
    hide WasSmall, Passed;
    var j := (i + 1) % |s.pcs|;
    forall u | 0 <= u < |s.pcs| && Passed(|s.pcs|, w, j, u) ensures WasSmall(s, sched, u, m') {
      PassedNext(|s.pcs|, w, i, u);
      if u == i {
        SmallBefore(s, sched, u, m');
      } else {
        SmallLater(s, sched, u, m, m');
      }
    }
  }

  /** What worker w knows from its own readings: every word it has passed in this round held, at
      some moment of this call, no more than the best one it carries. */
  ghost predicate Knows(s: State, w: nat, sched: seq<nat>, pc: Pc)
    requires Shape(s) && Schedule(s, sched)
  {
    match pc
    case Idle(Nothing) => AllSmall(s, sched, w, w, 0)
    case Scan(_, other, _, i) => AllSmall(s, sched, w, i, other.Size())
    case Try(_, other, _) => AllSmall(s, sched, w, w, other.Size())
    case _ => true
  }

  lemma RoundBegins(s: State, w: nat, sched: seq<nat>, value: Value, victim: nat)
    requires Shape(s) && Schedule(s, sched) && w < |s.pcs|
    ensures Knows(s, w, sched, BeginRound(|s.pcs|, w, value, victim))
  {
    hide WasSmall;
    PassedEnds(|s.pcs|, w, (w + 1) % |s.pcs|);
  }

  lemma ScanKnows(s: State, w: nat, sched: seq<nat>)
    requires Shape(s) && w < |s.pcs| && Schedule(s, sched) && |sched| > 1
    requires var m := Run(s, sched[..|sched| - 1]);
             && m.pcs[w].Scan? && WorkerOk(m, w) && AllSmall(s, sched[..|sched| - 1], w, m.pcs[w].i, m.pcs[w].other.Size())
    ensures Knows(s, w, sched, Step(Run(s, sched[..|sched| - 1]), w).pcs[w])
  {
    hide AllSmall, Run;
    var m := Run(s, sched[..|sched| - 1]);
    var pc, x := m.pcs[w], m.counters[m.pcs[w].i];
    AllSmallNext(s, sched, w, pc.i, pc.other.Size(), if x.Size() > pc.other.Size() then x.Size() else pc.other.Size());
  }

  lemma KnowsNext(s: State, w: nat, sched: seq<nat>)
    requires Shape(s) && w < |s.pcs| && Schedule(s, sched) && |sched| > 1
    requires var m := Run(s, sched[..|sched| - 1]); WorkerOk(m, w) && !m.pcs[w].Idle? && Knows(s, w, sched[..|sched| - 1], m.pcs[w])
    ensures Knows(s, w, sched, Run(s, sched).pcs[w])
  {
    hide AllSmall, Run, BeginRound;
    var n := |sched| - 1;
    var m := Run(s, sched[..n]);
    RunSnoc(s, sched);
    var pc := m.pcs[w];
    if sched[n] != w {
      if pc.Scan? {
        AllSmallLater(s, sched, w, pc.i, pc.other.Size());
      } else if pc.Try? {
        AllSmallLater(s, sched, w, w, pc.other.Size());
      }
    } else if pc.Scan? {
      ScanKnows(s, w, sched);
    } else if pc.Try? {
      RoundBegins(s, w, sched, pc.value, pc.victim);
    }
  }

  lemma {:induction false} CallKnows(s: State, w: nat, sched: seq<nat>)
    requires Inv(s) && w < |s.pcs| && Schedule(s, sched) && NoWrap(s, sched) && InCall(s, w, sched)
    ensures Knows(s, w, sched, Run(s, sched).pcs[w])
    decreases |sched|
  {
    hide WorkerOk, InsideCall, Knows, NoWrap;
    var n := |sched| - 1;
    if n == 0 {
      assert Run(s, sched) == Step(s, w);
      RoundBegins(s, w, sched, s.counters[w], w);
    } else {
      CallPrefix(s, w, sched);
      NoWrapPrefix(s, sched, n);
      RunKeeps(s, sched[..n]);
      CallKnows(s, w, sched[..n]);
      KnowsNext(s, w, sched);
    }
  }

  /** A call that comes back with nothing has found every other word empty at some moment between
      its start and its end, in every interleaving. */
  lemma NothingMeans(s: State, w: nat, sched: seq<nat>, u: nat)
    requires Inv(s) && w < |s.pcs| && Schedule(s, sched) && NoWrap(s, sched) && InCall(s, w, sched)
    requires Run(s, sched).pcs[w] == Idle(Nothing) && u < |s.pcs|
    ensures exists k :: 0 <= k <= |sched| && After(s, sched, k).counters[u].Empty()
  {
    hide WorkerOk, InsideCall, NoWrap, Run, Knows;
    if u == w {
      assert After(s, sched, 0) == s by {
        StartsHere(s, sched);
      }
    } else {
      CallKnows(s, w, sched);
      KnowsSmall(s, w, sched, Idle(Nothing), u);
      var k :| 0 <= k <= |sched| && After(s, sched, k).counters[u].Size() <= 0;
      assert After(s, sched, k).counters[u].Empty();
    }
  }

  lemma StartsHere(s: State, sched: seq<nat>)
    requires Shape(s) && Schedule(s, sched)
    ensures After(s, sched, 0) == s
  {
  }

  lemma KnowsSmall(s: State, w: nat, sched: seq<nat>, pc: Pc, u: nat)
    requires Shape(s) && Schedule(s, sched) && w < |s.pcs| && u < |s.pcs| && u != w && Knows(s, w, sched, pc)
    ensures pc == Idle(Nothing) ==> WasSmall(s, sched, u, 0)
    ensures pc.Try? ==> WasSmall(s, sched, u, pc.other.Size())
  {
    hide WasSmall;
    PassedEnds(|s.pcs|, w, (w + 1) % |s.pcs|);
  }

  /** A successful steal takes from a worker with most work: every other word held, at some moment
      of the call, no more than the victim's word holds now. */
  lemma StealsFromMost(s: State, w: nat, sched: seq<nat>, u: nat)
    requires Inv(s) && w < |s.pcs| && Schedule(s, sched) && NoWrap(s, sched) && InCall(s, w, sched)
    requires Run(s, sched).pcs[w].Try? && Takes(Run(s, sched), w) && u < |s.pcs| && u != w
    ensures var e := Run(s, sched);
            e.pcs[w].victim < |s.pcs| && WasSmall(s, sched, u, e.counters[e.pcs[w].victim].Size())
  {
    hide WorkerOk, InsideCall, WasSmall, NoWrap, Run, Knows;
    CallKnows(s, w, sched);
    KnowsSmall(s, w, sched, Run(s, sched).pcs[w], u);
  }

  /* ---------------------------------------------------------------- a call without interference */

  function Only(w: nat, k: nat): seq<nat> {
    seq(k, _ => w)
  }

  lemma OnlyStep(s: State, w: nat, k: nat)
    requires Shape(s) && w < |s.pcs|
    ensures Schedule(s, Only(w, k + 1)) && Run(s, Only(w, k + 1)) == Run(Step(s, w), Only(w, k))
  {
    assert Only(w, k + 1)[1..] == Only(w, k) && Only(w, k + 1)[0] == w;
  }

  predicate OthersEmpty(s: State, w: nat) {
    forall u :: 0 <= u < |s.counters| && u != w ==> s.counters[u].Empty()
  }

  /** No other worker has more work than v, which has some, and none between w and v in the ring has
      as much. */
  predicate Most(s: State, w: nat, v: nat) {
    && v < |s.counters| && v != w && !s.counters[v].Empty()
    && (forall u :: 0 <= u < |s.counters| && u != w ==> s.counters[u].Size() <= s.counters[v].Size())
    && (forall u :: 0 <= u < |s.counters| && Passed(|s.counters|, w, v, u) ==> s.counters[u].Size() < s.counters[v].Size())
  }

  /** What is left when w has stolen from v: w has been given the first item of the upper half. */
  ghost predicate Stolen(s: State, w: nat, v: nat, e: State) {
    && Shape(s) && Shape(e) && w < |s.pcs| == |e.pcs| && Most(s, w, v)
    && e.pcs[w] == Idle(Item(Upper(s.counters[v])))
    && e.counters == s.counters[v := Lower(s.counters[v])][w := Value(Upper(s.counters[v]).start + 1, s.counters[v].end)]
  }

  ghost predicate Scanned(s: State, w: nat, e: State) {
    && Shape(s) && Shape(e) && w < |s.pcs| == |e.pcs|
    && (OthersEmpty(s, w) ==> e.pcs[w] == Idle(Nothing) && e.counters == s.counters)
    && (!OthersEmpty(s, w) ==> exists v: nat :: Stolen(s, w, v, e))
  }

  /** What the scan knows when nobody else moves: the best word so far, still as it was read. */
  predicate BestSoFar(s: State, w: nat)
    requires Shape(s) && w < |s.pcs| && s.pcs[w].Scan?
  {
    var pc := s.pcs[w];
    && (forall u :: 0 <= u < |s.pcs| && Passed(|s.pcs|, w, pc.i, u) ==> s.counters[u].Size() <= pc.other.Size())
    && (!pc.other.Empty() ==>
          && pc.victim < |s.pcs| && pc.victim != w && s.counters[pc.victim] == pc.other
          && forall u :: 0 <= u < |s.pcs| && Passed(|s.pcs|, w, pc.victim, u) ==> s.counters[u].Size() < pc.other.Size())
  }

  /** The last two actions: exchange and store. */
  lemma TryAlone(s: State, w: nat)
    requires Inv(s) && w < |s.pcs| && s.pcs[w].Try? && Most(s, w, s.pcs[w].victim) && s.counters[s.pcs[w].victim] == s.pcs[w].other
    ensures Schedule(s, Only(w, 2)) && Stolen(s, w, s.pcs[w].victim, Run(s, Only(w, 2)))
  {
    hide WorkerOk, Step, Run, Schedule, Most, Lower, Upper;
    var other := s.pcs[w].other;
    StealsHalf(s, w);
    UpperEnd(other);
    OnlyStep(s, w, 1);
    var m := Step(s, w);
    OnlyStep(m, w, 0);
    RunNothing(Step(m, w), w);
    StoreMoves(m, w);
  }

  lemma UpperEnd(c: Value)
    requires !c.Empty()
    ensures !Upper(c).Empty() && Upper(c).end == c.end && Upper(c).start < MAX32
  {
  }

  lemma RunNothing(s: State, w: nat)
    requires Shape(s)
    ensures Schedule(s, Only(w, 0)) && Run(s, Only(w, 0)) == s
  {
  }

  lemma StoreMoves(s: State, w: nat)
    requires Shape(s) && w < |s.pcs| && s.pcs[w].Store? && !s.pcs[w].value.Empty()
    ensures var v := s.pcs[w].value;
            v.start < MAX32 && Step(s, w).pcs[w] == Idle(Item(v)) && Step(s, w).counters == s.counters[w := Value(v.start + 1, v.end)]
  {
  }

  lemma ScanMoves(s: State, w: nat)
    requires Inv(s) && w < |s.pcs| && s.pcs[w].Scan? && BestSoFar(s, w)
    ensures var s' := Step(s, w);
            && s'.counters == s.counters
            && (s'.pcs[w].Scan? ==> BestSoFar(s', w))
            && (s'.pcs[w].Try? ==> s.pcs[w].Scan? && s.counters[s'.pcs[w].victim] == s'.pcs[w].other && Most(s, w, s'.pcs[w].victim))
            && (s'.pcs[w].Idle? ==> s'.pcs[w] == Idle(Nothing) && OthersEmpty(s, w))
            && !s'.pcs[w].Store?
  {
    assert WorkerOk(s, w);
    var size, i := |s.pcs|, s.pcs[w].i;
    var j := (i + 1) % size;
    forall u | 0 <= u < size ensures Passed(size, w, j, u) <==> Passed(size, w, i, u) || u == i {
      PassedNext(size, w, i, u);
    }
    PassedEnds(size, w, (w + 1) % size);
  }

  /** From any point of a scan on, w finishes its call as it should. */
  lemma {:induction false} ScanAlone(s: State, w: nat) returns (k: nat)
    requires Inv(s) && w < |s.pcs| && s.pcs[w].Scan? && BestSoFar(s, w)
    ensures Schedule(s, Only(w, k)) && Scanned(s, w, Run(s, Only(w, k))) && k <= Stage(|s.pcs|, w, s.pcs[w])
    decreases Stage(|s.pcs|, w, s.pcs[w])
  {
    hide WorkerOk, BestSoFar, Most, OthersEmpty, Stolen, Step, Run;
    var s' := Step(s, w);
    ScanMoves(s, w);
    StepStage(s, w, w);
    StepKeepsInv(s, w);
    var rest := 0;
    if s'.pcs[w].Scan? {
      rest := ScanAlone(s', w);
      SameScanned(s, s', w, Run(s', Only(w, rest)));
    } else if s'.pcs[w].Try? {
      rest := 2;
      MostSame(s, s', w, s'.pcs[w].victim);
      TryAlone(s', w);
      StolenSame(s, s', w, s'.pcs[w].victim, Run(s', Only(w, 2)));
    } else {
      RunNothing(s', w);
    }
    k := rest + 1;
    OnlyStep(s, w, rest);
  }

  lemma MostSame(s: State, s': State, w: nat, v: nat)
    requires s'.counters == s.counters
    ensures Most(s', w, v) == Most(s, w, v)
  {
  }

  lemma StolenSame(s: State, s': State, w: nat, v: nat, e: State)
    requires Shape(s) && Shape(s') && s'.counters == s.counters && Stolen(s', w, v, e)
    ensures Stolen(s, w, v, e) && !OthersEmpty(s, w)
  {
  }

  lemma SameScanned(s: State, s': State, w: nat, e: State)
    requires Shape(s) && Shape(s') && s'.counters == s.counters && Scanned(s', w, e)
    ensures Scanned(s, w, e)
  {
    hide Stolen;
    assert OthersEmpty(s', w) == OthersEmpty(s, w);
    if !OthersEmpty(s, w) {
      var v: nat :| Stolen(s', w, v, e);
      StolenSame(s, s', w, v, e);
    }
  }

  /** The whole call of a worker while nobody else moves, in at most |workers| + 2 actions: its own
      next item if it has one; otherwise the first of the upper half of a largest other word, which
      it now owns; nothing exactly when all words are empty. */
  lemma CallAlone(s: State, w: nat) returns (k: nat)
    requires Inv(s) && w < |s.pcs| && s.pcs[w].Idle? && !Wraps(s, w)
    ensures k <= |s.pcs| + 2 && Schedule(s, Only(w, k))
    ensures var own, e := s.counters[w], Run(s, Only(w, k));
            && (!own.Empty() ==> e.pcs[w] == Idle(Item(own)) && e.counters == s.counters[w := Value(own.start + 1, own.end)])
            && (own.Empty() && OthersEmpty(s, w) ==> e.pcs[w] == Idle(Nothing))
            && (own.Empty() && !OthersEmpty(s, w) ==> exists v: nat :: Stolen(s, w, v, e))
  {
    var own, s' := s.counters[w], Step(s, w);
    RingNext(w, |s.pcs|);
    if own.Empty() && |s.pcs| > 1 {
      StepKeepsInv(s, w);
      PassedEnds(|s.pcs|, w, (w + 1) % |s.pcs|);
      var rest := ScanAlone(s', w);
      k := rest + 1;
      OnlyStep(s, w, rest);
      AfterPoll(s, s', w, Run(s', Only(w, rest)));
    } else {
      k := 1;
      OnlyStep(s, w, 0);
      assert Only(w, 0) == [];
    }
  }

  lemma AfterPoll(s: State, s': State, w: nat, e: State)
    requires Shape(s) && Shape(s') && w < |s.counters| == |s'.counters| && s'.counters == s.counters[w := s'.counters[w]]
    requires Scanned(s', w, e)
    ensures OthersEmpty(s, w) ==> e.pcs[w] == Idle(Nothing)
    ensures !OthersEmpty(s, w) ==> exists v: nat :: Stolen(s, w, v, e)
  {
    assert forall u :: 0 <= u < |s.counters| && u != w ==> s'.counters[u] == s.counters[u];
    if !OthersEmpty(s, w) {
      var v: nat :| Stolen(s', w, v, e);
      assert Most(s, w, v);
      var c := s.counters[v];
      assert s'.counters[v := Lower(c)][w := Value(Upper(c).start + 1, c.end)] == s.counters[v := Lower(c)][w := Value(Upper(c).start + 1, c.end)];
      assert Stolen(s, w, v, e);
    }
  }
}
