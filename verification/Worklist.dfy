/** The work-stealing worklist and its protocol. */
module Worklist {

  // Every worker owns one 64-bit word that packs the half-open range (start, end) of the items
  // it still has to hand out.  The words are shared and are touched only by atomic fetch-add,
  // load, compare-and-exchange and store.
  //
  // The protocol is a transition system with one atomic action per step and one program
  // counter per worker.  A step is determined by the state and by the worker that moves, so an
  // interleaving is just the sequence of workers that move: its "schedule".

  type Half = x: nat | x < 0x1_0000_0000
  type Word = x: nat | x < 0x1_0000_0000_0000_0000

  const MAX32: Half := 0xFFFF_FFFF

  datatype Value = Value(start: Half, end: Half) {
    function Size(): nat {
      if start < end then end - start else 0
    }

    predicate Empty() {
      start >= end
    }
  }

  function Unpack(n: Word): Value {
    Value(n % 0x1_0000_0000, n / 0x1_0000_0000)
  }

  function Pack(v: Value): Word {
    v.end * 0x1_0000_0000 + v.start
  }

  /** Packing is a bijection between pairs and words, so comparing words compares pairs. */
  lemma PackUnpack(v: Value, n: Word)
    ensures Unpack(Pack(v)) == v && Pack(Unpack(n)) == n
  {
    assert (v.end * 0x1_0000_0000 + v.start) / 0x1_0000_0000 == v.end;
  }

  /** What fetch_add(1) on the word leaves of the pair: the increment carries from start into
      end, and out of the word. */
  function FetchAdd(v: Value): Value {
    if v.start < MAX32 then Value(v.start + 1, v.end)
    else Value(0, if v.end < MAX32 then v.end + 1 else 0)
  }

  lemma FetchAddIsIncrement(v: Value)
    ensures Pack(FetchAdd(v)) == (Pack(v) + 1) % 0x1_0000_0000_0000_0000
  {
    var p := Pack(v) + 1;
    assert p == v.end * 0x1_0000_0000 + v.start + 1;
    if v.start < MAX32 || v.end < MAX32 {
      assert Pack(FetchAdd(v)) == p < 0x1_0000_0000_0000_0000;
    } else {
      assert p == 0x1_0000_0000_0000_0000;
    }
  }

  /* ---------------------------------------------------------------- the protocol */

  /** What the last finished call of next() gave back. */
  datatype Outcome = NotCalled | Nothing | Item(value: Value)

  datatype Pc =
    | Idle(last: Outcome)                                         // about to fetch_add its own word
    | Scan(value: Value, other: Value, victim: nat, i: nat)       // about to load word i
    | Try(value: Value, other: Value, victim: nat)                // about to compare-and-exchange
    | Store(value: Value)                                         // about to store what it stole

  datatype State = State(counters: seq<Value>, pcs: seq<Pc>, returned: multiset<nat>)

  predicate Shape(s: State) {
    |s.counters| == |s.pcs|
  }

  function At(s: State, w: nat): Value
    requires w < |s.counters|
  {
    s.counters[w]
  }

  /** The top of the `while (!done)` loop: forget the best candidate and scan again. */
  function BeginRound(n: nat, w: nat, value: Value, victim: nat): Pc
    requires w < n
  {
    var i := (w + 1) % n;
    if i == w then Idle(Nothing) else Scan(value, value, victim, i)
  }

  function Split(other: Value): nat {
    other.start + other.Size() / 2
  }

  function Set(s: State, w: nat, pc: Pc): State
    requires Shape(s) && w < |s.pcs|
  {
    s.(pcs := s.pcs[w := pc])
  }

  function Step(s: State, w: nat): (r: State)
    requires Shape(s) && w < |s.pcs|
    ensures Shape(r) && |r.pcs| == |s.pcs|
  {
    var n := |s.pcs|;
    match s.pcs[w]
    case Idle(_) =>
      var value := At(s, w);
      var s' := s.(counters := s.counters[w := FetchAdd(s.counters[w])]);
      if value.Empty() then Set(s', w, BeginRound(n, w, value, w))
      else Set(s', w, Idle(Item(value))).(returned := s.returned + multiset{value.start})
    case Scan(value, other, victim, i) =>
      if i >= n then s else
      var x := At(s, i);
      var found := x.Size() > other.Size();
      var other' := if found then x else other;
      var victim' := if found then i else victim;
      var i' := (i + 1) % n;
      if i' != w then Set(s, w, Scan(value, other', victim', i'))
      else if !other'.Empty() then Set(s, w, Try(value, other', victim'))
      else Set(s, w, Idle(Nothing))
    case Try(value, other, victim) =>
      if victim >= n || Split(other) > MAX32 then s else
      if s.counters[victim] == other then
        var s' := s.(counters := s.counters[victim := Value(other.start, Split(other))]);
        Set(s', w, Store(Value(Split(other), other.end)))
      else
        Set(s, w, BeginRound(n, w, value, victim))
    case Store(value) =>
      if value.start == MAX32 then s else
      var s' := s.(counters := s.counters[w := Value(value.start + 1, value.end)]);
      Set(s', w, Idle(Item(value))).(returned := s.returned + multiset{value.start})
  }

  predicate Schedule(s: State, sched: seq<nat>) {
    forall k :: 0 <= k < |sched| ==> sched[k] < |s.pcs|
  }

  function Run(s: State, sched: seq<nat>): (r: State)
    requires Shape(s) && Schedule(s, sched)
    ensures Shape(r) && |r.pcs| == |s.pcs|
    decreases |sched|
  {
    if sched == [] then s else Run(Step(s, sched[0]), sched[1..])
  }

  predicate Init(s: State) {
    && Shape(s)
    && s.returned == multiset{}
    && forall w :: 0 <= w < |s.pcs| ==> s.pcs[w] == Idle(NotCalled)
  }

  /* ---------------------------------------------------------------- the ledger of items */

  /** 1 when x is one of the items of the range v, else 0. */
  function Has(v: Value, x: nat): nat {
    if v.start <= x < v.end then 1 else 0
  }

  function InCounters(cs: seq<Value>, x: nat): nat {
    if cs == [] then 0 else Has(cs[0], x) + InCounters(cs[1..], x)
  }

  /** A stolen range that its thief has not stored yet belongs to no counter. */
  function Held(pc: Pc, x: nat): nat {
    if pc.Store? then Has(pc.value, x) else 0
  }

  function InFlight(pcs: seq<Pc>, x: nat): nat {
    if pcs == [] then 0 else Held(pcs[0], x) + InFlight(pcs[1..], x)
  }

  /** How often item x occurs in the counters, in stolen ranges on their way, and among the
      items handed out so far. */
  function Ledger(s: State, x: nat): nat {
    InCounters(s.counters, x) + InFlight(s.pcs, x) + s.returned[x]
  }

  ghost predicate SameLedger(s: State, s': State) {
    forall x: nat :: Ledger(s', x) == Ledger(s, x)
  }

  lemma {:induction false} CountersUpdate(cs: seq<Value>, i: nat, c: Value, x: nat)
    requires i < |cs|
    ensures InCounters(cs[i := c], x) + Has(cs[i], x) == InCounters(cs, x) + Has(c, x)
  {
    if i == 0 {
      assert cs[0 := c][1..] == cs[1..];
    } else {
      assert cs[i := c][1..] == cs[1..][i - 1 := c];
      CountersUpdate(cs[1..], i - 1, c, x);
    }
  }

  lemma {:induction false} InFlightUpdate(pcs: seq<Pc>, i: nat, pc: Pc, x: nat)
    requires i < |pcs|
    ensures InFlight(pcs[i := pc], x) + Held(pcs[i], x) == InFlight(pcs, x) + Held(pc, x)
  {
    if i == 0 {
      assert pcs[0 := pc][1..] == pcs[1..];
    } else {
      assert pcs[i := pc][1..] == pcs[1..][i - 1 := pc];
      InFlightUpdate(pcs[1..], i - 1, pc, x);
    }
  }

  /* ---------------------------------------------------------------- the invariant */

  /** What holds of worker w while it is inside next(): its own word is empty, so nobody else
      can want to change it, and what it carries is well formed. */
  predicate WorkerOk(s: State, w: nat)
    requires Shape(s) && w < |s.pcs|
  {
    var n := |s.pcs|;
    match s.pcs[w]
    case Idle(last) => last == Nothing ==> At(s, w).Empty()
    case Scan(value, other, victim, i) =>
      At(s, w).Empty() && value.Empty() && i < n && i != w && victim < n
      && (!other.Empty() ==> victim != w)
    case Try(value, other, victim) =>
      At(s, w).Empty() && value.Empty() && !other.Empty() && victim < n && victim != w
    case Store(value) => At(s, w).Empty() && !value.Empty()
  }

  predicate Inv(s: State) {
    Shape(s) && forall w :: 0 <= w < |s.pcs| ==> WorkerOk(s, w)
  }

  /** Worker w polls a word whose start is at its last value: the increment carries into end
      and the word reads (0, end + 1), a range of items nobody ever put there. */
  predicate Wraps(s: State, w: nat)
    requires Shape(s) && w < |s.pcs|
  {
    s.pcs[w].Idle? && At(s, w).start == MAX32 && At(s, w).end < MAX32
  }

  lemma SplitInside(other: Value)
    requires !other.Empty()
    ensures other.start <= Split(other) < other.end
  {
  }

  /** Every action writes at most one word; `Touched` names it. */
  function Touched(s: State, w: nat): nat
    requires Shape(s) && w < |s.pcs|
  {
    if s.pcs[w].Try? then s.pcs[w].victim else w
  }

  /** The whole effect of a step, seen through the ledger of one item. */
  lemma StepLedger(s: State, w: nat, x: nat)
    requires Inv(s) && w < |s.pcs|
    ensures var s' := Step(s, w);
            var t := Touched(s, w);
            t < |s.pcs| &&
            Ledger(s', x) + Has(s.counters[t], x) + Held(s.pcs[w], x) + s.returned[x]
            == Ledger(s, x) + Has(s'.counters[t], x) + Held(s'.pcs[w], x) + s'.returned[x]
  {
    assert WorkerOk(s, w);
    var s' := Step(s, w);
    var t := Touched(s, w);
    CountersUpdate(s.counters, t, s'.counters[t], x);
    InFlightUpdate(s.pcs, w, s'.pcs[w], x);
    assert s'.counters == s.counters[t := s'.counters[t]];
    assert s'.pcs == s.pcs[w := s'.pcs[w]];
  }

  /** One atomic action of any worker keeps every item, except the wrapping poll. */
  lemma StepKeepsItem(s: State, w: nat, x: nat)
    requires Inv(s) && w < |s.pcs| && !Wraps(s, w)
    ensures Ledger(Step(s, w), x) == Ledger(s, x)
  {
    assert WorkerOk(s, w);
    StepLedger(s, w, x);
    if s.pcs[w].Try? {
      SplitInside(s.pcs[w].other);
    }
  }

  lemma StepKeepsInv(s: State, w: nat)
    requires Inv(s) && w < |s.pcs| && !Wraps(s, w)
    ensures Inv(Step(s, w))
  {
    var s' := Step(s, w);
    assert WorkerOk(s, w);
    forall u | 0 <= u < |s.pcs|
      ensures WorkerOk(s', u)
    {
      assert WorkerOk(s, u);
    }
  }

  lemma StepConserves(s: State, w: nat)
    requires Inv(s) && w < |s.pcs|
    ensures SameLedger(s, Step(s, w)) <==> !Wraps(s, w)
  {
    if Wraps(s, w) {
      StepLedger(s, w, 0);
      assert Ledger(Step(s, w), 0) == Ledger(s, 0) + 1;
    } else {
      forall x: nat ensures Ledger(Step(s, w), x) == Ledger(s, x) {
        StepKeepsItem(s, w, x);
      }
    }
  }

  /* ---------------------------------------------------------------- whole runs */

  /** No worker on this schedule ever makes the wrapping poll. */
  predicate NoWrap(s: State, sched: seq<nat>)
    requires Shape(s) && Schedule(s, sched)
    decreases |sched|
  {
    sched == [] || (!Wraps(s, sched[0]) && NoWrap(Step(s, sched[0]), sched[1..]))
  }

  lemma {:induction false} RunKeeps(s: State, sched: seq<nat>)
    requires Inv(s) && Schedule(s, sched) && NoWrap(s, sched)
    ensures Inv(Run(s, sched)) && SameLedger(s, Run(s, sched))
    decreases |sched|
  {
    if sched != [] {
      StepKeepsInv(s, sched[0]);
      StepConserves(s, sched[0]);
      RunKeeps(Step(s, sched[0]), sched[1..]);
    }
  }

  lemma {:induction false} NoWrapPrefix(s: State, sched: seq<nat>, k: nat)
    requires Shape(s) && Schedule(s, sched) && NoWrap(s, sched) && k <= |sched|
    ensures NoWrap(s, sched[..k])
    decreases |sched|
  {
    if k > 0 {
      NoWrapPrefix(Step(s, sched[0]), sched[1..], k - 1);
      assert sched[..k][1..] == sched[1..][..k - 1];
    }
  }

  /** The first wrapping poll of a run is also the first moment at which the ledger changes. */
  lemma {:induction false} WrapBreaks(s: State, sched: seq<nat>) returns (k: nat)
    requires Inv(s) && Schedule(s, sched) && !NoWrap(s, sched)
    ensures k <= |sched| && !SameLedger(s, Run(s, sched[..k]))
    decreases |sched|
  {
    var t := Step(s, sched[0]);
    StepConserves(s, sched[0]);
    if Wraps(s, sched[0]) {
      k := 1;
      assert sched[..1][1..] == [] && Run(s, sched[..1]) == t;
    } else {
      StepKeepsInv(s, sched[0]);
      var j := WrapBreaks(t, sched[1..]);
      k := j + 1;
      assert sched[..k][1..] == sched[1..][..j];
      var x: nat :| Ledger(Run(t, sched[1..][..j]), x) != Ledger(t, x);
      assert Ledger(t, x) == Ledger(s, x);
    }
  }

  /** Conservation over every interleaving, with its exact condition: at every moment of a run
      each item is accounted for as often as at the start, if and only if no worker polls an
      exhausted word whose start has reached its last value. */
  lemma RunConserves(s: State, sched: seq<nat>)
    requires Init(s) && Schedule(s, sched)
    ensures (forall k :: 0 <= k <= |sched| ==> SameLedger(s, Run(s, sched[..k]))) <==> NoWrap(s, sched)
  {
    assert Inv(s);
    if NoWrap(s, sched) {
      forall k | 0 <= k <= |sched| ensures SameLedger(s, Run(s, sched[..k])) {
        NoWrapPrefix(s, sched, k);
        RunKeeps(s, sched[..k]);
      }
    } else {
      var k := WrapBreaks(s, sched);
      assert !SameLedger(s, Run(s, sched[..k]));
    }
  }

  lemma {:induction false} NothingLeft(cs: seq<Value>, pcs: seq<Pc>, x: nat)
    requires forall i :: 0 <= i < |cs| ==> cs[i].Empty()
    requires forall i :: 0 <= i < |pcs| ==> pcs[i].Idle?
    ensures InCounters(cs, x) == 0 && InFlight(pcs, x) == 0
    decreases |cs| + |pcs|
  {
    if cs != [] {
      NothingLeft(cs[1..], [], x);
    }
    if pcs != [] {
      NothingLeft([], pcs[1..], x);
    }
  }

  /** When the last call of every worker came back with nothing, every item has been handed
      out, as often as it was put in. */
  lemma AllHandedOut(s: State, sched: seq<nat>, x: nat)
    requires Init(s) && Schedule(s, sched) && NoWrap(s, sched)
    requires forall w :: 0 <= w < |s.pcs| ==> Run(s, sched).pcs[w] == Idle(Nothing)
    ensures Run(s, sched).returned[x] == InCounters(s.counters, x)
  {
    var e := Run(s, sched);
    RunKeeps(s, sched);
    forall w | 0 <= w < |e.counters| ensures e.counters[w].Empty() {
      assert WorkerOk(e, w);
    }
    NothingLeft(e.counters, e.pcs, x);
    assert Ledger(e, x) == Ledger(s, x);
    NothingLeft([], s.pcs, x);
  }

  ghost predicate Disjoint(cs: seq<Value>) {
    forall i, j, x: nat :: 0 <= i < j < |cs| ==> Has(cs[i], x) + Has(cs[j], x) <= 1
  }

  lemma {:induction false} DisjointCounts(cs: seq<Value>, x: nat)
    requires Disjoint(cs)
    ensures InCounters(cs, x) <= 1
    ensures InCounters(cs, x) == 1 <==> exists i :: 0 <= i < |cs| && Has(cs[i], x) == 1
  {
    if cs != [] {
      var tail := cs[1..];
      assert Disjoint(tail) by {
        forall i, j, y: nat | 0 <= i < j < |tail| ensures Has(tail[i], y) + Has(tail[j], y) <= 1 {
          assert Has(cs[i + 1], y) + Has(cs[j + 1], y) <= 1;
        }
      }
      DisjointCounts(tail, x);
      if InCounters(tail, x) == 1 {
        var i :| 0 <= i < |tail| && Has(tail[i], x) == 1;
        assert Has(cs[0], x) + Has(cs[i + 1], x) <= 1;
      } else {
        assert forall i :: 1 <= i < |cs| ==> cs[i] == tail[i - 1];
      }
    }
  }

  /** With disjoint initial ranges no item is ever handed out twice, and nothing is handed out
      that was not in some initial range. */
  lemma AtMostOnce(s: State, sched: seq<nat>, x: nat)
    requires Init(s) && Schedule(s, sched) && NoWrap(s, sched) && Disjoint(s.counters)
    ensures Run(s, sched).returned[x] <= 1
    ensures Run(s, sched).returned[x] == 1 ==> exists i :: 0 <= i < |s.counters| && Has(s.counters[i], x) == 1
  {
    RunKeeps(s, sched);
    DisjointCounts(s.counters, x);
    NothingLeft([], s.pcs, x);
    assert Ledger(Run(s, sched), x) == Ledger(s, x);
  }

  /** Between its empty poll and its store, a stealing worker's own word changes only by its
      own hand, whatever the others do. */
  lemma {:induction false} OwnWordStable(s: State, w: nat, sched: seq<nat>)
    requires Inv(s) && w < |s.pcs| && !s.pcs[w].Idle?
    requires Schedule(s, sched) && NoWrap(s, sched) && w !in sched
    ensures Run(s, sched).counters[w] == s.counters[w] && Run(s, sched).pcs[w] == s.pcs[w]
    decreases |sched|
  {
    if sched != [] {
      var u := sched[0];
      assert u in sched;
      assert WorkerOk(s, w) && WorkerOk(s, u);
      StepKeepsInv(s, u);
      OwnWordStable(Step(s, u), w, sched[1..]);
    }
  }

  /* ---------------------------------------------------------------- progress */

  function Promised(pc: Pc): nat {
    if pc.Store? && !pc.value.Empty() then pc.value.Size() - 1 else 0
  }

  function SizeSum(cs: seq<Value>): nat {
    if cs == [] then 0 else cs[0].Size() + SizeSum(cs[1..])
  }

  function PromisedSum(pcs: seq<Pc>): nat {
    if pcs == [] then 0 else Promised(pcs[0]) + PromisedSum(pcs[1..])
  }

  /** The number of items that no call has taken yet: a successful compare-and-exchange takes
      the first item of the stolen half. */
  function Untaken(s: State): nat {
    SizeSum(s.counters) + PromisedSum(s.pcs)
  }

  lemma {:induction false} SizeSumUpdate(cs: seq<Value>, i: nat, c: Value)
    requires i < |cs|
    ensures SizeSum(cs[i := c]) + cs[i].Size() == SizeSum(cs) + c.Size()
  {
    if i == 0 {
      assert cs[0 := c][1..] == cs[1..];
    } else {
      assert cs[i := c][1..] == cs[1..][i - 1 := c];
      SizeSumUpdate(cs[1..], i - 1, c);
    }
  }

  lemma {:induction false} PromisedSumUpdate(pcs: seq<Pc>, i: nat, pc: Pc)
    requires i < |pcs|
    ensures PromisedSum(pcs[i := pc]) + Promised(pcs[i]) == PromisedSum(pcs) + Promised(pc)
  {
    if i == 0 {
      assert pcs[0 := pc][1..] == pcs[1..];
    } else {
      assert pcs[i := pc][1..] == pcs[1..][i - 1 := pc];
      PromisedSumUpdate(pcs[1..], i - 1, pc);
    }
  }

  /** The action takes an item: a poll of a non-empty word or a successful steal. */
  predicate Takes(s: State, w: nat)
    requires Shape(s) && w < |s.pcs|
  {
    match s.pcs[w]
    case Idle(_) => !At(s, w).Empty()
    case Try(_, other, victim) => victim < |s.pcs| && s.counters[victim] == other
    case _ => false
  }

  predicate FailedSteal(s: State, w: nat)
    requires Shape(s) && w < |s.pcs|
  {
    s.pcs[w].Try? && !Takes(s, w)
  }

  lemma TakesCounted(s: State, w: nat)
    requires Inv(s) && w < |s.pcs| && !Wraps(s, w)
    ensures Untaken(Step(s, w)) + (if Takes(s, w) then 1 else 0) == Untaken(s)
  {
    assert WorkerOk(s, w);
    var s' := Step(s, w);
    var t := Touched(s, w);
    SizeSumUpdate(s.counters, t, s'.counters[t]);
    PromisedSumUpdate(s.pcs, w, s'.pcs[w]);
    assert s'.counters == s.counters[t := s'.counters[t]];
    assert s'.pcs == s.pcs[w := s'.pcs[w]];
    if s.pcs[w].Try? {
      SplitInside(s.pcs[w].other);
    }
  }

  /** Worker w relies on a reading that is no longer true. */
  function Debt(s: State, w: nat): nat
    requires Shape(s) && w < |s.pcs|
  {
    var pc := s.pcs[w];
    if (pc.Scan? || pc.Try?) && !pc.other.Empty() && pc.victim < |s.pcs| && s.counters[pc.victim] != pc.other
    then 1 else 0
  }

  function Potential(s: State, w: nat): nat
    requires Shape(s) && w < |s.pcs|
  {
    Untaken(s) + Debt(s, w)
  }

  /** A reading of worker w can only go stale by an action that takes an item; so a failed
      compare-and-exchange of w is always paid for by an item some other worker took. */
  lemma StepPotential(s: State, u: nat, w: nat)
    requires Inv(s) && u < |s.pcs| && w < |s.pcs| && !Wraps(s, u)
    ensures Potential(Step(s, u), w) + (if u == w && FailedSteal(s, w) then 1 else 0) <= Potential(s, w)
  {
    assert WorkerOk(s, w) && WorkerOk(s, u);
    TakesCounted(s, u);
  }

  /** How many compare-and-exchanges of worker w fail along the schedule. */
  function Retries(s: State, w: nat, sched: seq<nat>): nat
    requires Shape(s) && w < |s.pcs| && Schedule(s, sched)
    decreases |sched|
  {
    if sched == [] then 0
    else (if sched[0] == w && FailedSteal(s, w) then 1 else 0) + Retries(Step(s, sched[0]), w, sched[1..])
  }

  /** Retries are bounded by the items left, in every interleaving. */
  lemma {:induction false} RetriesBounded(s: State, w: nat, sched: seq<nat>)
    requires Inv(s) && w < |s.pcs| && Schedule(s, sched) && NoWrap(s, sched)
    ensures Retries(s, w, sched) + Potential(Run(s, sched), w) <= Potential(s, w)
    ensures s.pcs[w].Idle? ==> Retries(s, w, sched) <= Untaken(s) - Untaken(Run(s, sched))
    decreases |sched|
  {
    if sched != [] {
      StepKeepsInv(s, sched[0]);
      StepPotential(s, sched[0], w);
      RetriesBounded(Step(s, sched[0]), w, sched[1..]);
    }
  }

  /** Own actions still due in the current round, at most. */
  function Stage(n: nat, w: nat, pc: Pc): nat
    requires w < n
  {
    match pc
    case Idle(_) => 0
    case Scan(_, _, _, i) => if i < w then w - i + 2 else if i < n then w + n - i + 2 else 0
    case Try(_, _, _) => 2
    case Store(_) => 1
  }

  function Measure(s: State, w: nat): nat
    requires Shape(s) && w < |s.pcs|
  {
    Potential(s, w) * (|s.pcs| + 1) + Stage(|s.pcs|, w, s.pcs[w])
  }

  /** The next worker in the ring. */
  lemma RingNext(i: nat, n: nat)
    requires i < n
    ensures (i + 1) % n == if i + 1 < n then i + 1 else 0
  {
  }

  lemma StepStage(s: State, u: nat, w: nat)
    requires Inv(s) && u < |s.pcs| && w < |s.pcs| && !s.pcs[w].Idle?
    ensures var n := |s.pcs|;
            var before, after := Stage(n, w, s.pcs[w]), Stage(n, w, Step(s, u).pcs[w]);
            if u != w then after == before
            else if FailedSteal(s, w) then after < before + n + 1
            else after < before
  {
    assert WorkerOk(s, w) && WorkerOk(s, u);
    RingNext(w, |s.pcs|);
    if s.pcs[w].Scan? {
      RingNext(s.pcs[w].i, |s.pcs|);
    }
  }

  lemma Weigh(p': nat, p: nat, st': nat, st: nat, m: nat)
    requires (p' <= p && st' <= st) || (p' < p && st' <= st + m)
    ensures p' * m + st' <= p * m + st
  {
    assert (p - p') * m == p * m - p' * m;
    if p' < p {
      assert (p - p' - 1) * m >= 0;
    }
  }

  lemma StepMeasure(s: State, u: nat, w: nat)
    requires Inv(s) && u < |s.pcs| && w < |s.pcs| && !Wraps(s, u) && !s.pcs[w].Idle?
    ensures Measure(Step(s, u), w) + (if u == w then 1 else 0) <= Measure(s, w)
  {
    StepPotential(s, u, w);
    StepStage(s, u, w);
    var s' := Step(s, u);
    var n := |s.pcs|;
    Weigh(Potential(s', w), Potential(s, w),
          Stage(n, w, s'.pcs[w]) + (if u == w then 1 else 0), Stage(n, w, s.pcs[w]), n + 1);
  }

  /** Worker w is inside one call of next() before every action of the schedule. */
  predicate InsideCall(s: State, w: nat, sched: seq<nat>)
    requires Shape(s) && w < |s.pcs| && Schedule(s, sched)
    decreases |sched|
  {
    sched == [] || (!s.pcs[w].Idle? && InsideCall(Step(s, sched[0]), w, sched[1..]))
  }

  function OwnSteps(w: nat, sched: seq<nat>): nat {
    if sched == [] then 0 else (if sched[0] == w then 1 else 0) + OwnSteps(w, sched[1..])
  }

  lemma {:induction false} OwnStepsMeasured(s: State, w: nat, sched: seq<nat>)
    requires Inv(s) && w < |s.pcs| && Schedule(s, sched) && NoWrap(s, sched) && InsideCall(s, w, sched)
    ensures OwnSteps(w, sched) + Measure(Run(s, sched), w) <= Measure(s, w)
    decreases |sched|
  {
    if sched != [] {
      StepKeepsInv(s, sched[0]);
      StepMeasure(s, sched[0], w);
      OwnStepsMeasured(Step(s, sched[0]), w, sched[1..]);
    }
  }

  lemma OneMoreRound(p: nat, untaken: nat, st: nat, m: nat)
    requires p <= untaken + 1 && st <= m
    ensures p * m + st <= (untaken + 2) * m
  {
    Weigh(p, untaken + 1, st, m, m);
    assert (untaken + 2) * m == (untaken + 1) * m + m;
  }

  /** Every call finishes: inside one call a worker makes at most (items left + 2) rounds of
      |workers| + 1 actions, however the others are scheduled. */
  lemma CallFinishes(s: State, w: nat, sched: seq<nat>)
    requires Inv(s) && w < |s.pcs| && Schedule(s, sched) && NoWrap(s, sched) && InsideCall(s, w, sched)
    ensures OwnSteps(w, sched) <= (Untaken(s) + 2) * (|s.pcs| + 1)
  {
    hide WorkerOk, Potential, Stage, Untaken, Run, NoWrap, InsideCall, OwnSteps;
    OwnStepsMeasured(s, w, sched);
    MeasureParts(s, w);
    OneMoreRound(Potential(s, w), Untaken(s), Stage(|s.pcs|, w, s.pcs[w]), |s.pcs| + 1);
  }

  lemma MeasureParts(s: State, w: nat)
    requires Inv(s) && w < |s.pcs|
    ensures Stage(|s.pcs|, w, s.pcs[w]) <= |s.pcs| + 1 && Potential(s, w) <= Untaken(s) + 1
  {
    assert WorkerOk(s, w);
  }

  /* ---------------------------------------------------------------- the wrapping poll */

  function Polls(k: nat): seq<nat> {
    seq(k, _ => 0)
  }

  lemma {:induction false} RunAppend(s: State, a: seq<nat>, b: seq<nat>)
    requires Shape(s) && Schedule(s, a + b)
    ensures Schedule(s, a) && Schedule(Run(s, a), b)
    ensures Run(s, a + b) == Run(Run(s, a), b)
    decreases |a|
  {
    assert forall k :: 0 <= k < |a| ==> a[k] == (a + b)[k];
    assert forall k :: 0 <= k < |b| ==> b[k] == (a + b)[|a| + k];
    if a == [] {
      assert a + b == b;
    } else {
      assert (a + b)[1..] == a[1..] + b;
      assert (a + b)[0] == a[0];
      RunAppend(Step(s, a[0]), a[1..], b);
    }
  }

  function Alone(v: Value, last: Outcome): State {
    State([v], [Idle(last)], multiset{})
  }

  lemma {:induction false} PollingCreeps(v: Value, last: Outcome, k: nat)
    requires v.Empty() && v.start + k <= MAX32
    ensures Run(Alone(v, last), Polls(k)) ==
            Alone(Value(v.start + k, v.end), if k == 0 then last else Nothing)
    decreases k
  {
    if k > 0 {
      assert Polls(k)[1..] == Polls(k - 1) && Polls(k)[0] == 0;
      assert Step(Alone(v, last), 0) == Alone(Value(v.start + 1, v.end), Nothing);
      PollingCreeps(Value(v.start + 1, v.end), Nothing, k - 1);
    }
  }

  /** The assumption is needed: a lone worker that keeps polling an exhausted worklist is, after
      2^32 - start + 1 polls, handed item 0 although no item was left. */
  lemma PollingWraps(v: Value)
    requires v.Empty() && v.end < MAX32
    ensures var s := Alone(v, NotCalled);
            var polls := MAX32 - v.start + 2;
            Init(s) && Schedule(s, Polls(polls))
            && Ledger(s, 0) == 0 && Run(s, Polls(polls)).returned == multiset{0}
  {
    var s := Alone(v, NotCalled);
    var k := MAX32 - v.start;
    PollingCreeps(v, NotCalled, k);
    assert Polls(k + 2) == Polls(k) + [0, 0];
    RunAppend(s, Polls(k), [0, 0]);
    var m := Run(s, Polls(k));
    assert m.counters == [Value(MAX32, v.end)] && m.pcs[0].Idle?;
    assert [0, 0][1..] == [0];
    var m1 := Step(m, 0);
    assert m1.counters == [Value(0, v.end + 1)];
    assert m1.pcs == [Idle(Nothing)];
    assert [0][1..] == [];
    assert Run(m1, [0]) == Step(m1, 0);
    assert Ledger(s, 0) == 0 by {
      NothingLeft(s.counters, s.pcs, 0);
    }
  }

  /* ---------------------------------------------------------------- few enough calls */

  /** How many calls of next() worker w starts along the schedule. */
  function CallsOf(s: State, w: nat, sched: seq<nat>): nat
    requires Shape(s) && w < |s.pcs| && Schedule(s, sched)
    decreases |sched|
  {
    if sched == [] then 0
    else (if sched[0] == w && s.pcs[w].Idle? then 1 else 0) + CallsOf(Step(s, sched[0]), w, sched[1..])
  }

  /** No range, stored or carried, ends above m. */
  predicate EndsBelow(s: State, m: nat) {
    && (forall i :: 0 <= i < |s.counters| ==> s.counters[i].end <= m)
    && (forall i :: 0 <= i < |s.pcs| ==> CarriedBelow(s.pcs[i], m))
  }

  predicate CarriedBelow(pc: Pc, m: nat) {
    match pc
    case Idle(_) => true
    case Scan(_, other, _, _) => other.Empty() || other.end <= m
    case Try(_, other, _) => other.end <= m
    case Store(value) => value.end <= m
  }

  function Reach(v: Value, m: nat): nat {
    if v.start < m then m else v.start
  }

  lemma StepEnds(s: State, w: nat, m: nat)
    requires Inv(s) && w < |s.pcs| && !Wraps(s, w) && EndsBelow(s, m) && m <= MAX32
    ensures EndsBelow(Step(s, w), m)
  {
    assert WorkerOk(s, w) && CarriedBelow(s.pcs[w], m);
    if s.pcs[w].Try? {
      SplitInside(s.pcs[w].other);
    }
  }

  lemma StepReach(s: State, u: nat, w: nat, m: nat)
    requires Inv(s) && u < |s.pcs| && w < |s.pcs| && !Wraps(s, u) && EndsBelow(s, m)
    ensures Reach(Step(s, u).counters[w], m) <= Reach(s.counters[w], m) + if u == w && s.pcs[w].Idle? then 1 else 0
  {
    assert WorkerOk(s, u) && CarriedBelow(s.pcs[u], m);
  }

  /** A worker whose calls do not use up the numbers above all ranges makes no wrapping poll. */
  lemma {:induction false} FewCalls(s: State, sched: seq<nat>, m: nat)
    requires Inv(s) && Schedule(s, sched) && EndsBelow(s, m) && m <= MAX32
    requires forall w :: 0 <= w < |s.pcs| ==> Reach(s.counters[w], m) + CallsOf(s, w, sched) <= MAX32
    ensures NoWrap(s, sched)
    decreases |sched|
  {
    if sched != [] {
      var u := sched[0];
      assert Reach(s.counters[u], m) + CallsOf(s, u, sched) <= MAX32;
      assert !Wraps(s, u);
      StepKeepsInv(s, u);
      StepEnds(s, u, m);
      forall w | 0 <= w < |s.pcs| ensures Reach(Step(s, u).counters[w], m) + CallsOf(Step(s, u), w, sched[1..]) <= MAX32 {
        StepReach(s, u, w, m);
      }
      FewCalls(Step(s, u), sched[1..], m);
    }
  }

  /** What a caller can check: when no initial start or end lies above m and no worker calls next()
      more than 2^32 - 1 - m times, items are conserved at every moment. */
  lemma FewCallsConserve(s: State, sched: seq<nat>, m: nat)
    requires Init(s) && Schedule(s, sched) && m <= MAX32
    requires forall w :: 0 <= w < |s.pcs| ==> s.counters[w].start <= m && s.counters[w].end <= m && CallsOf(s, w, sched) <= MAX32 - m
    ensures forall k :: 0 <= k <= |sched| ==> SameLedger(s, Run(s, sched[..k]))
  {
    FewCalls(s, sched, m);
    RunConserves(s, sched);
  }

  /* ---------------------------------------------------------------- one worker, no sharing */

  /** The serial counter hands out index, index + 1, ... up to but not including end. */
  class SerialCounter {
    var start: Half
    var end: Half

    constructor (i: Half, e: Half)
      ensures start == i && end == e
    {
      start, end := i, e;
    }

    method Next() returns (r: Outcome)
      modifies this
      ensures end == old(end)
      ensures old(start) < end ==> r == Item(Value(old(start), end)) && start == old(start) + 1
      ensures old(start) >= end ==> r == Nothing && start == old(start)
    {
      if start < end {
        r := Item(Value(start, end));
        start := start + 1;
      } else {
        r := Nothing;
      }
    }

    /** The outcomes of n calls in a row: all numbers from start below end, in order, and nothing
        from then on. */
    method CountOff(n: nat) returns (out: seq<Outcome>)
      modifies this
      ensures end == old(end) && |out| == n
      ensures forall i :: 0 <= i < n ==>
                out[i] == if old(start) + i < end then Item(Value(old(start) + i, end)) else Nothing
      ensures start == if old(start) >= end then old(start) else if old(start) + n < end then old(start) + n else end
    {
      out := [];
      while |out| < n
        invariant |out| <= n && end == old(end)
        invariant forall i :: 0 <= i < |out| ==>
                    out[i] == if old(start) + i < end then Item(Value(old(start) + i, end)) else Nothing
        invariant start == if old(start) >= end then old(start) else if old(start) + |out| < end then old(start) + |out| else end
      {
        var r := Next();
        out := out + [r];
      }
    }
  }
}
