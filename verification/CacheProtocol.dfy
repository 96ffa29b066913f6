/** The cache under concurrent use, as a transition system. */
module CacheProtocol {
  // There is one shared action per step.  Lookups hold the index lock for reading while they
  // record a hit; draining a full buffer holds only the storage lock; insertions queue for the
  // index lock, hold it for writing and the storage lock, wait for the delete lock when facts have
  // to go, and free them after releasing the others.  A caller's function may use the cache itself, so a
  // thread carries the stack of functions it is inside of.
  import opened Pointers
  import opened CacheStore

  /* ------------------------------------------------------------ lookups and their answers */

  datatype Query = TypeOf(id: nat) | IdOf(key: Key) | FactOf(id: nat)

  datatype Answer = Pid(pid: nat) | Id(id: nat) | Whole(data: Data)

  function AnswerOf(q: Query, f: CFact): Answer {
    match q
    case TypeOf(_) => Pid(f.data.pid)
    case IdOf(_) => Id(f.id)
    case FactOf(_) => Whole(f.data)
  }

  /** The answer is the one of the base. */
  ghost predicate Right(b: Base, q: Query, a: Option<Answer>) {
    match q
    case TypeOf(id) => a == if id in b then Some(Pid(b[id].pid)) else None
    case FactOf(id) => a == if id in b then Some(Whole(b[id])) else None
    case IdOf(key) =>
      if a.None? then forall i :: i in b ==> (b[i].pid, b[i].key) != key
      else a.value.Id? && a.value.id in b && (b[a.value.id].pid, b[a.value.id].key) == key
  }

  /** Where the indexes lead: a whole fact is only found when all of it is cached. */
  function Lookup(c: Store, q: Query): Option<Ptr> {
    match q
    case TypeOf(id) => if id in c.ids then Some(c.ids[id]) else None
    case IdOf(key) => if key in c.keys then Some(c.keys[key]) else None
    case FactOf(id) => if id in c.ids && c.ids[id] in c.heap && c.heap[c.ids[id]].tag == FULL then Some(c.ids[id]) else None
  }

  /** p is a stored fact that answers q. */
  ghost predicate Answers(k: Config, c: Store, q: Query, p: Ptr) {
    && p in c.facts && p in c.heap && Right(k.base, q, Some(AnswerOf(q, c.heap[p])))
    && (q.FactOf? ==> WholeFact(k, c, p, q.id))
  }

  /** p is allocated and holds the whole fact id. */
  ghost predicate WholeFact(k: Config, c: Store, p: Ptr, id: nat) {
    p in c.heap && id in k.base && c.heap[p].id == id && c.heap[p].data == k.base[id]
  }

  lemma LookupAnswers(k: Config, c: Store, q: Query)
    requires Good(k, c) && Lookup(c, q).Some?
    ensures Answers(k, c, q, Lookup(c, q).value)
  {
    hide Indexed, AllAgree, ListOk, HitsOk, Bytes;
    match q {
      case TypeOf(id) => IdAnswer(k.base, c.heap, c.facts, c.ids, c.keys, id);
      case IdOf(key) => KeyAnswer(k.base, c.heap, c.facts, c.ids, c.keys, key);
      case FactOf(id) =>
        IdAnswer(k.base, c.heap, c.facts, c.ids, c.keys, id);
        IdFacts(c.heap, c.facts, c.ids, c.keys, id);
    }
  }

  /** What the base gives for a query that missed, loaded as far as the query needs it. */
  ghost predicate Fetched(k: Config, q: Query, f: Option<CFact>) {
    if f.None? then Right(k.base, q, None)
    else Proper(k, f.value) && Right(k.base, q, Some(AnswerOf(q, f.value))) && (q.FactOf? ==> f.value.tag == FULL)
  }

  /* ------------------------------------------------------------ threads */

  /** A caller's function runs on a cached fact, which the delete lock protects, or on a fact that
      will be inserted afterwards. */
  datatype Frame = Kept(p: Ptr, id: nat) | Own(f: CFact)

  datatype Pc =
    | Idle
    | Looking(q: Query)
    // a fact has been found; with keep, the delete lock is held for reading
    | Found(q: Query, p: Ptr, keep: bool)
    // without buffers, the list itself is updated under the storage lock
    | Listing(q: Query, p: Ptr, keep: bool)
    // touch has read the number of recorded hits
    | Loaded(q: Query, p: Ptr, keep: bool, sh: nat, n: nat)
    // touch has stored the hit
    | Written(q: Query, p: Ptr, keep: bool, sh: nat, n: nat)
    // the buffer is full and the index lock has been released
    | Overflow(q: Query, p: Ptr, keep: bool, sh: nat)
    // the storage lock has been obtained for draining
    | Locked(q: Query, p: Ptr, keep: bool, sh: nat)
    // hits below i of n have been applied
    | Draining(q: Query, p: Ptr, keep: bool, sh: nat, n: nat, i: nat)
    // a fact is to be inserted; in the queue for the index, then waiting for the storage
    | Wants(f: CFact)
    | Queued(f: CFact)
    | Writing(f: CFact)
    | Updating(f: CFact)
    // facts have been taken out; waiting for the delete lock
    | Doomed(dead: set<Ptr>)
    | Sealed(dead: set<Ptr>)
    // the storage lock has been released
    | Leaving(dead: set<Ptr>)
    | Freeing(dead: set<Ptr>)

  datatype Thread = Thread(frames: seq<Frame>, pc: Pc)

  datatype Sys = Sys(k: Config, c: Store, threads: seq<Thread>)

  /* ------------------------------------------------------------ locks */

  predicate KeptAny(frames: seq<Frame>) {
    exists i :: 0 <= i < |frames| && frames[i].Kept?
  }

  predicate ReadsIndex(pc: Pc) {
    pc.Looking? || pc.Found? || pc.Listing? || pc.Loaded? || pc.Written?
  }

  predicate WritesIndex(pc: Pc) {
    pc.Writing? || pc.Updating? || pc.Doomed? || pc.Sealed? || pc.Leaving?
  }

  predicate HoldsStorage(pc: Pc) {
    pc.Listing? || pc.Locked? || pc.Draining? || pc.Updating? || pc.Doomed? || pc.Sealed?
  }

  predicate Keeps(pc: Pc) {
    (pc.Found? || pc.Listing? || pc.Loaded? || pc.Written? || pc.Overflow? || pc.Locked? || pc.Draining?) && pc.keep
  }

  predicate ReadsDelete(th: Thread) {
    KeptAny(th.frames) || Keeps(th.pc)
  }

  predicate WritesDelete(pc: Pc) {
    pc.Sealed? || (pc.Leaving? && pc.dead != {}) || pc.Freeing?
  }

  /** Two threads cannot hold these locks together. */
  predicate Conflict(a: Thread, b: Thread) {
    || (WritesIndex(a.pc) && (WritesIndex(b.pc) || ReadsIndex(b.pc))) || (WritesIndex(b.pc) && ReadsIndex(a.pc))
    || (HoldsStorage(a.pc) && HoldsStorage(b.pc))
    || (WritesDelete(a.pc) && (WritesDelete(b.pc) || ReadsDelete(b))) || (WritesDelete(b.pc) && ReadsDelete(a))
  }

  /** Nor can one thread hold the delete lock in both ways. */
  predicate SelfConflict(th: Thread) {
    WritesDelete(th.pc) && ReadsDelete(th)
  }

  /** The locks that thread t would hold are free. */
  predicate LocksFree(s: Sys, t: nat, th: Thread) {
    !SelfConflict(th) && forall u :: 0 <= u < |s.threads| && u != t ==> !Conflict(th, s.threads[u])
  }

  /* ------------------------------------------------------------ steps */

  datatype Act =
    | Enter(q: Query) | Find | Miss(f: Option<CFact>) | Keep | LockList | TouchList | Load(sh: nat) | Record | Bump
    | Unlock | TryLock(ok: bool) | Count | Apply | Reset | Finish
    | Queue | Begin | LockStorage | Update(p: Ptr) | LockDelete | ReleaseStorage | ReleaseIndex | Free

  datatype Move = Move(c: Store, th: Thread)

  function Goto(th: Thread, pc: Pc): Thread {
    th.(pc := pc)
  }

  /** The end of a lookup that hit: the caller's function starts if the fact was kept for it. */
  function After(th: Thread, q: Query, p: Ptr, keep: bool): Thread {
    Thread(if keep && q.FactOf? then th.frames + [Kept(p, q.id)] else th.frames, Idle)
  }

  /** The end of a caller's function: a fact that was not cached is now inserted. */
  function Returned(th: Thread): Thread
    requires th.frames != []
  {
    var n := |th.frames| - 1;
    Thread(th.frames[..n], if th.frames[n].Own? then Wants(th.frames[n].f) else Idle)
  }

  /** What an action of one thread does, locks aside. */
  ghost function Do(k: Config, c: Store, th: Thread, a: Act): Option<Move> {
    match (th.pc, a)
    case (Idle, Enter(q)) => Some(Move(c, Goto(th, Looking(q))))
    case (Looking(q), Find) =>
      if Lookup(c, q).Some? then Some(Move(c, Goto(th, Found(q, Lookup(c, q).value, false)))) else None
    case (Looking(q), Miss(f)) =>
      if Lookup(c, q).None? && Fetched(k, q, f) then
        Some(Move(c, if f.None? then Goto(th, Idle)
                     else if q.FactOf? then Thread(th.frames + [Own(f.value)], Idle)
                     else Goto(th, Wants(f.value))))
      else None
    case (Found(q, p, false), Keep) => if q.FactOf? then Some(Move(c, Goto(th, Found(q, p, true)))) else None
    case (Found(q, p, keep), LockList) =>
      if c.touched == [] && (q.FactOf? ==> keep) then Some(Move(c, Goto(th, Listing(q, p, keep)))) else None
    case (Listing(q, p, keep), TouchList) => Some(Move(Used(c, p), After(th, q, p, keep)))
    case (Found(q, p, keep), Load(sh)) =>
      if sh < |c.touched| && (q.FactOf? ==> keep) then Some(Move(c, Goto(th, Loaded(q, p, keep, sh, c.touched[sh].next))))
      else None
    case (Loaded(q, p, keep, sh, n), Record) =>
      if n < k.size && sh < |c.touched| && n < |c.touched[sh].slots| then
        Some(Move(WithBuffer(c, sh, c.touched[sh].(slots := c.touched[sh].slots[n := p])), Goto(th, Written(q, p, keep, sh, n))))
      else None
    case (Written(q, p, keep, sh, n), Bump) =>
      if sh < |c.touched| then Some(Move(WithBuffer(c, sh, c.touched[sh].(next := n + 1)), After(th, q, p, keep))) else None
    case (Loaded(q, p, keep, sh, n), Unlock) => if n >= k.size then Some(Move(c, Goto(th, Overflow(q, p, keep, sh)))) else None
    case (Overflow(q, p, keep, sh), TryLock(ok)) =>
      Some(Move(c, if ok then Goto(th, Locked(q, p, keep, sh)) else After(th, q, p, keep)))
    case (Locked(q, p, keep, sh), Count) =>
      if sh < |c.touched| then Some(Move(c, Goto(th, Draining(q, p, keep, sh, c.touched[sh].next, 0)))) else None
    case (Draining(q, p, keep, sh, n, i), Apply) =>
      if i < n && sh < |c.touched| && i < |c.touched[sh].slots| then
        Some(Move(Used(c, c.touched[sh].slots[i]), Goto(th, Draining(q, p, keep, sh, n, i + 1))))
      else None
    case (Draining(q, p, keep, sh, n, i), Reset) =>
      if i == n && sh < |c.touched| then Some(Move(WithBuffer(c, sh, c.touched[sh].(next := 0)), After(th, q, p, keep))) else None
    case (Idle, Finish) => if th.frames != [] then Some(Move(c, Returned(th))) else None
    case (Wants(f), Queue) => Some(Move(c, Goto(th, Queued(f))))
    case (Queued(f), Begin) => Some(Move(c, Goto(th, Writing(f))))
    case (Writing(f), LockStorage) => Some(Move(c, Goto(th, Updating(f))))
    case (Updating(f), Update(p)) =>
      if Good(k, c) && Agrees(k.base, f) && p !in c.heap then
        var dead := Dropped(k, c, f, p);
        Some(Move(Insertion(k, c, f, p), Goto(th, if dead == {} then Leaving({}) else Doomed(dead))))
      else None
    case (Doomed(dead), LockDelete) => Some(Move(c, Goto(th, Sealed(dead))))
    case (Sealed(dead), ReleaseStorage) => Some(Move(c, Goto(th, Leaving(dead))))
    case (Leaving(dead), ReleaseIndex) => Some(Move(c, Goto(th, if dead == {} then Idle else Freeing(dead))))
    case (Freeing(dead), Free) => Some(Move(c.(heap := c.heap - dead), Goto(th, Idle)))
    case _ => None
  }

  /** The index lock prefers writers: while an insertion is queued, no lookup may start. */
  predicate Admitted(s: Sys, t: nat, a: Act) {
    a.Enter? ==> forall u :: 0 <= u < |s.threads| && u != t ==> !s.threads[u].pc.Queued?
  }

  /** One step of thread t; None when the action does not apply or a lock is taken. */
  ghost function Step(s: Sys, t: nat, a: Act): Option<Sys> {
    if t >= |s.threads| then None
    else
      var m := Do(s.k, s.c, s.threads[t], a);
      if m.Some? && LocksFree(s, t, m.value.th) && Admitted(s, t, a) then
        Some(s.(c := m.value.c, threads := s.threads[t := m.value.th]))
      else None
  }

  /** A run: any interleaving of steps. */
  ghost function Run(s: Sys, steps: seq<(nat, Act)>): Option<Sys>
    decreases |steps|
  {
    if steps == [] then Some(s)
    else
      var next := Step(s, steps[0].0, steps[0].1);
      if next.None? then None else Run(next.value, steps[1..])
  }

  function Init(k: Config, shards: nat, threads: nat): Sys {
    Sys(k, Empty(shards, k.size), seq(threads, _ => Thread([], Idle)))
  }

  /* ------------------------------------------------------------ the invariant */

  /** The first n slots of a buffer point to stored facts. */
  ghost predicate FilledTo(c: Store, sh: nat, n: nat) {
    sh < |c.touched| && n <= |c.touched[sh].slots| && forall i :: 0 <= i < n ==> c.touched[sh].slots[i] in c.facts
  }

  ghost predicate FrameOk(k: Config, c: Store, fr: Frame) {
    match fr
    case Kept(p, id) => WholeFact(k, c, p, id)
    case Own(f) => Proper(k, f)
  }

  /** A fact kept for the caller's function is whole and allocated. */
  ghost predicate KeepOk(k: Config, c: Store, q: Query, p: Ptr, keep: bool) {
    keep ==> q.FactOf? && WholeFact(k, c, p, q.id)
  }

  ghost predicate DeadOk(c: Store, dead: set<Ptr>) {
    dead <= c.heap.Keys && dead !! ToSet(c.facts)
  }

  ghost predicate PcOk(k: Config, c: Store, pc: Pc) {
    match pc
    case Idle => true
    case Looking(_) => true
    case Found(q, p, keep) => Answers(k, c, q, p) && KeepOk(k, c, q, p, keep)
    case Listing(q, p, keep) => Answers(k, c, q, p) && KeepOk(k, c, q, p, keep) && c.touched == []
    case Loaded(q, p, keep, sh, n) => Answers(k, c, q, p) && KeepOk(k, c, q, p, keep) && FilledTo(c, sh, n)
    case Written(q, p, keep, sh, n) => Answers(k, c, q, p) && KeepOk(k, c, q, p, keep) && FilledTo(c, sh, n + 1)
    case Overflow(q, p, keep, sh) => KeepOk(k, c, q, p, keep) && sh < |c.touched|
    case Locked(q, p, keep, sh) => KeepOk(k, c, q, p, keep) && sh < |c.touched|
    case Draining(q, p, keep, sh, n, i) => KeepOk(k, c, q, p, keep) && i <= n && FilledTo(c, sh, n)
    case Wants(f) => Proper(k, f)
    case Queued(f) => Proper(k, f)
    case Writing(f) => Proper(k, f)
    case Updating(f) => Proper(k, f)
    case Doomed(dead) => DeadOk(c, dead) && dead != {}
    case Sealed(dead) => DeadOk(c, dead) && dead != {}
    case Leaving(dead) => DeadOk(c, dead)
    case Freeing(dead) => DeadOk(c, dead)
  }

  ghost predicate ThreadOk(k: Config, c: Store, th: Thread) {
    PcOk(k, c, th.pc) && !SelfConflict(th) && forall i :: 0 <= i < |th.frames| ==> FrameOk(k, c, th.frames[i])
  }

  function Dead(pc: Pc): set<Ptr> {
    if pc.Doomed? || pc.Sealed? || pc.Leaving? || pc.Freeing? then pc.dead else {}
  }

  ghost predicate Compatible(ths: seq<Thread>) {
    forall t, u :: 0 <= t < |ths| && 0 <= u < |ths| && t != u ==> !Conflict(ths[t], ths[u]) && Dead(ths[t].pc) !! Dead(ths[u].pc)
  }

  ghost predicate AllOk(k: Config, c: Store, ths: seq<Thread>) {
    forall t :: 0 <= t < |ths| ==> ThreadOk(k, c, ths[t])
  }

  ghost predicate Inv(s: Sys) {
    Good(s.k, s.c) && Compatible(s.threads) && AllOk(s.k, s.c, s.threads)
  }

  lemma InitInv(k: Config, shards: nat, threads: nat)
    requires BaseOk(k.base)
    ensures Inv(Init(k, shards, threads))
  {
    hide Good;
    EmptyGood(k, shards);
  }

  lemma ConflictSymmetric(a: Thread, b: Thread)
    ensures Conflict(a, b) == Conflict(b, a)
  {
    hide KeptAny;
  }

  lemma StillCompatible(s: Sys, t: nat, th: Thread)
    requires t < |s.threads| && Compatible(s.threads) && LocksFree(s, t, th)
    requires forall u :: 0 <= u < |s.threads| && u != t ==> Dead(th.pc) !! Dead(s.threads[u].pc)
    ensures Compatible(s.threads[t := th])
  {
    hide Conflict, SelfConflict;
    var ths := s.threads[t := th];
    forall u, v | 0 <= u < |ths| && 0 <= v < |ths| && u != v
      ensures !Conflict(ths[u], ths[v]) && Dead(ths[u].pc) !! Dead(ths[v].pc)
    {
      ConflictSymmetric(ths[u], ths[v]);
    }
  }

  /* ------------------------------------------------------------ steps that take nothing out */

  /** The same facts are stored and allocated, and slots that named stored facts still do. */
  ghost predicate Mild(c: Store, c': Store) {
    && c'.heap == c.heap && (forall p :: p in c'.facts <==> p in c.facts) && |c'.touched| == |c.touched|
    && c'.ids == c.ids && c'.keys == c.keys && c'.bytes == c.bytes
    && forall sh :: 0 <= sh < |c.touched| ==> SlotsKept(c, c', sh)
  }

  ghost predicate SlotsKept(c: Store, c': Store, sh: nat)
    requires sh < |c.touched| == |c'.touched|
  {
    && |c'.touched[sh].slots| == |c.touched[sh].slots|
    && forall i :: 0 <= i < |c.touched[sh].slots| && c.touched[sh].slots[i] in c.facts ==> c'.touched[sh].slots[i] in c.facts
  }

  lemma MildSame(c: Store)
    ensures Mild(c, c)
  {
  }

  lemma MildUsed(k: Config, c: Store, p: Ptr)
    requires Good(k, c) && p in c.facts
    ensures Good(k, Used(c, p)) && Mild(c, Used(c, p))
  {
    hide Good, Touched;
    UsedGood(k, c, p);
    assert forall q :: q in Used(c, p).facts <==> q in ToSet(Used(c, p).facts);
  }

  lemma MildBuffer(k: Config, c: Store, sh: nat, b: Buffer)
    requires Good(k, c) && sh < |c.touched| && |b.slots| == |c.touched[sh].slots| && b.next <= k.size
    requires forall i :: 0 <= i < b.next ==> i < |b.slots| && b.slots[i] in c.facts
    requires forall i :: 0 <= i < |b.slots| && c.touched[sh].slots[i] in c.facts ==> b.slots[i] in c.facts
    ensures Good(k, WithBuffer(c, sh, b)) && Mild(c, WithBuffer(c, sh, b))
  {
    hide Good;
    GoodHits(k, c, sh);
    BufferGood(k, c, sh, b);
  }

  lemma MildPc(k: Config, c: Store, c': Store, pc: Pc)
    requires Mild(c, c') && PcOk(k, c, pc)
    ensures PcOk(k, c', pc)
  {
    hide Right, WholeFact, Agrees;
    if FilledAt(pc).Some? {
      var (sh, n) := FilledAt(pc).value;
      MildFilled(c, c', sh, n);
    }
    MildSets(k, c, c', pc);
  }

  /** The part of a buffer that a thread relies on. */
  function FilledAt(pc: Pc): Option<(nat, nat)> {
    match pc
    case Loaded(_, _, _, sh, n) => Some((sh, n))
    case Written(_, _, _, sh, n) => Some((sh, n + 1))
    case Draining(_, _, _, sh, n, _) => Some((sh, n))
    case _ => None
  }

  lemma MildFilled(c: Store, c': Store, sh: nat, n: nat)
    requires Mild(c, c') && FilledTo(c, sh, n)
    ensures FilledTo(c', sh, n)
  {
    assert SlotsKept(c, c', sh);
  }

  lemma MildSets(k: Config, c: Store, c': Store, pc: Pc)
    requires Mild(c, c')
    ensures ToSet(c'.facts) == ToSet(c.facts)
    ensures forall p, id :: WholeFact(k, c, p, id) ==> WholeFact(k, c', p, id)
  {
  }

  lemma MildThread(k: Config, c: Store, c': Store, th: Thread)
    requires Mild(c, c') && ThreadOk(k, c, th)
    ensures ThreadOk(k, c', th)
  {
    hide PcOk, Mild, SelfConflict, WholeFact;
    MildPc(k, c, c', th.pc);
    MildSets(k, c, c', th.pc);
  }

  /** The thread that moves, in one of the four kinds of mild step. */
  ghost predicate Fine(k: Config, c: Store, th: Thread, m: Move) {
    Good(k, m.c) && Mild(c, m.c) && PcOk(k, m.c, m.th.pc) && FramesOk(k, m.c, m.th.frames) && Dead(m.th.pc) <= Dead(th.pc)
  }

  ghost predicate FramesOk(k: Config, c: Store, frames: seq<Frame>) {
    forall i :: 0 <= i < |frames| ==> FrameOk(k, c, frames[i])
  }

  lemma AfterOk(k: Config, c: Store, th: Thread, q: Query, p: Ptr, keep: bool)
    requires FramesOk(k, c, th.frames) && KeepOk(k, c, q, p, keep)
    ensures PcOk(k, c, After(th, q, p, keep).pc) && FramesOk(k, c, After(th, q, p, keep).frames)
  {
    hide WholeFact;
  }

  lemma LookupStep(k: Config, c: Store, th: Thread, a: Act)
    requires Good(k, c) && PcOk(k, c, th.pc) && FramesOk(k, c, th.frames) && Do(k, c, th, a).Some?
    requires a.Enter? || a.Find? || a.Miss? || a.Keep? || a.Finish?
    ensures Fine(k, c, th, Do(k, c, th, a).value)
  {
    hide Good, Lookup, Right, WholeFact, Agrees, Mild;
    MildSame(c);
    if a.Find? {
      LookupAnswers(k, c, th.pc.q);
    }
  }

  lemma TouchStep(k: Config, c: Store, th: Thread, a: Act)
    requires Good(k, c) && PcOk(k, c, th.pc) && FramesOk(k, c, th.frames) && Do(k, c, th, a).Some?
    requires a.LockList? || a.Load? || a.Unlock? || a.TryLock? || a.Count?
    ensures Fine(k, c, th, Do(k, c, th, a).value)
  {
    hide Good, Right, WholeFact, Agrees, Mild, Answers;
    MildSame(c);
    if a.Load? {
      GoodHits(k, c, a.sh);
    }
    if a.Count? {
      GoodHits(k, c, th.pc.sh);
    }
    if a.TryLock? {
      AfterOk(k, c, th, th.pc.q, th.pc.p, th.pc.keep);
    }
  }

  lemma ListStep(k: Config, c: Store, th: Thread, a: Act)
    requires Good(k, c) && PcOk(k, c, th.pc) && FramesOk(k, c, th.frames) && Do(k, c, th, a).Some?
    requires a.TouchList? || a.Apply?
    ensures Fine(k, c, th, Do(k, c, th, a).value)
  {
    hide Good, Right, Agrees, Mild, Used, WholeFact;
    var pc := th.pc;
    var m := Do(k, c, th, a).value;
    if a.TouchList? {
      MildUsed(k, c, pc.p);
      MildSets(k, c, m.c, pc);
      AfterFrames(k, c, m.c, th, pc.q, pc.p, pc.keep);
    } else {
      MildUsed(k, c, c.touched[pc.sh].slots[pc.i]);
      MildPc(k, c, m.c, pc);
      MildSets(k, c, m.c, pc);
    }
  }

  lemma AfterFrames(k: Config, c: Store, c': Store, th: Thread, q: Query, p: Ptr, keep: bool)
    requires FramesOk(k, c, th.frames) && KeepOk(k, c, q, p, keep)
    requires forall p, id :: WholeFact(k, c, p, id) ==> WholeFact(k, c', p, id)
    ensures PcOk(k, c', After(th, q, p, keep).pc) && FramesOk(k, c', After(th, q, p, keep).frames)
  {
    hide WholeFact;
  }

  lemma BufferStep(k: Config, c: Store, th: Thread, a: Act)
    requires Good(k, c) && PcOk(k, c, th.pc) && FramesOk(k, c, th.frames) && Do(k, c, th, a).Some?
    requires a.Record? || a.Bump? || a.Reset?
    ensures Fine(k, c, th, Do(k, c, th, a).value)
  {
    hide Good, Right, Agrees, Mild, WholeFact;
    var pc := th.pc;
    var m := Do(k, c, th, a).value;
    GoodHits(k, c, pc.sh);
    MildBuffer(k, c, pc.sh, m.c.touched[pc.sh]);
    MildSets(k, c, m.c, pc);
    if a.Record? {
      MildPc(k, c, m.c, pc);
    } else {
      AfterFrames(k, c, m.c, th, pc.q, pc.p, pc.keep);
    }
  }

  lemma LockStep(k: Config, c: Store, th: Thread, a: Act)
    requires Good(k, c) && PcOk(k, c, th.pc) && FramesOk(k, c, th.frames) && Do(k, c, th, a).Some?
    requires a.Queue? || a.Begin? || a.LockStorage? || a.LockDelete? || a.ReleaseStorage? || a.ReleaseIndex?
    ensures Fine(k, c, th, Do(k, c, th, a).value)
  {
    hide Good, Agrees, Mild, DeadOk, FrameOk;
    MildSame(c);
  }

  lemma MildDo(k: Config, c: Store, th: Thread, a: Act)
    requires Good(k, c) && ThreadOk(k, c, th) && Do(k, c, th, a).Some? && !a.Update? && !a.Free?
    ensures Fine(k, c, th, Do(k, c, th, a).value)
  {
    hide Good, PcOk, Do, FrameOk, Fine;
    match a {
      case Enter(_) => LookupStep(k, c, th, a);
      case Find => LookupStep(k, c, th, a);
      case Miss(_) => LookupStep(k, c, th, a);
      case Keep => LookupStep(k, c, th, a);
      case Finish => LookupStep(k, c, th, a);
      case LockList => TouchStep(k, c, th, a);
      case Load(_) => TouchStep(k, c, th, a);
      case Unlock => TouchStep(k, c, th, a);
      case TryLock(_) => TouchStep(k, c, th, a);
      case Count => TouchStep(k, c, th, a);
      case TouchList => ListStep(k, c, th, a);
      case Apply => ListStep(k, c, th, a);
      case Record => BufferStep(k, c, th, a);
      case Bump => BufferStep(k, c, th, a);
      case Reset => BufferStep(k, c, th, a);
      case _ => LockStep(k, c, th, a);
    }
  }

  lemma MildInv(s: Sys, t: nat, a: Act)
    requires Inv(s) && Step(s, t, a).Some? && !a.Update? && !a.Free?
    ensures Inv(Step(s, t, a).value) && Mild(s.c, Step(s, t, a).value.c)
  {
    hide Good, PcOk, FrameOk, Do, Mild, Conflict, SelfConflict, Compatible;
    var th := s.threads[t];
    var m := Do(s.k, s.c, th, a).value;
    MildDo(s.k, s.c, th, a);
    forall u | 0 <= u < |s.threads| && u != t ensures ThreadOk(s.k, m.c, s.threads[u]) {
      MildThread(s.k, s.c, m.c, s.threads[u]);
    }
    forall u | 0 <= u < |s.threads| && u != t ensures Dead(m.th.pc) !! Dead(s.threads[u].pc) {
      OthersDead(s, t, u);
    }
    StillCompatible(s, t, m.th);
  }

  lemma OthersDead(s: Sys, t: nat, u: nat)
    requires Compatible(s.threads) && t < |s.threads| && u < |s.threads| && t != u
    ensures Dead(s.threads[t].pc) !! Dead(s.threads[u].pc) && !Conflict(s.threads[t], s.threads[u])
  {
    hide Conflict;
  }

  /* ------------------------------------------------------------ insertion */

  /** While one thread updates, no other one is in the middle of recording or applying hits. */
  lemma OthersAway(s: Sys, t: nat, u: nat)
    requires Inv(s) && t < |s.threads| && s.threads[t].pc.Updating? && u < |s.threads| && u != t
    ensures var pc := s.threads[u].pc; !ReadsIndex(pc) && !pc.Draining? && !pc.Locked?
  {
    hide Good, PcOk, AllOk, KeptAny;
    OthersDead(s, t, u);
  }

  /** Allocated facts stay what they are, and what comes is new. */
  ghost predicate Extends(c: Store, c': Store) {
    && (forall p :: p in c.heap ==> p in c'.heap && c'.heap[p] == c.heap[p])
    && (forall p :: p in c'.facts ==> p in c.facts || p !in c.heap) && |c'.touched| == |c.touched|
  }

  lemma ExtendsThread(k: Config, c: Store, c': Store, th: Thread)
    requires Extends(c, c') && ThreadOk(k, c, th) && !ReadsIndex(th.pc) && !th.pc.Draining? && !th.pc.Locked?
    ensures ThreadOk(k, c', th)
  {
    hide Right, Agrees, SelfConflict;
    assert forall p, id :: WholeFact(k, c, p, id) ==> WholeFact(k, c', p, id);
    assert forall dead :: DeadOk(c, dead) ==> DeadOk(c', dead);
  }

  lemma InsertionExtends(k: Config, c: Store, f: CFact, p: Ptr)
    requires Good(k, c) && Agrees(k.base, f) && p !in c.heap
    ensures Extends(c, Insertion(k, c, f, p)) && DeadOk(Insertion(k, c, f, p), Dropped(k, c, f, p))
    ensures Dropped(k, c, f, p) <= ToSet(c.facts)
  {
    hide Good, Agrees, Insertion, Refused, Drops;
    InsertionFacts(k, c, f, p);
    GoodFacts(k, c);
    var r := Insertion(k, c, f, p);
    forall q | q in r.facts ensures q in c.facts || q !in c.heap {
      assert q in ToSet(r.facts);
    }
  }

  /** An insertion: facts go only when no hit is left, and the new fact is really new. */
  lemma UpdateInv(s: Sys, t: nat, a: Act)
    requires Inv(s) && Step(s, t, a).Some? && a.Update?
    ensures Inv(Step(s, t, a).value)
  {
    hide Good, PcOk, Conflict, Agrees, Extends, DeadOk, FrameOk, Dropped, SelfConflict;
    var th, f := s.threads[t], s.threads[t].pc.f;
    assert ThreadOk(s.k, s.c, th);
    var m := Do(s.k, s.c, th, a).value;
    InsertionExtends(s.k, s.c, f, a.p);
    var dead := Dropped(s.k, s.c, f, a.p);
    NewlyDead(s.k, m.c, dead);
    forall u | 0 <= u < |s.threads| && u != t ensures ThreadOk(s.k, m.c, s.threads[u]) {
      OthersAway(s, t, u);
      ExtendsThread(s.k, s.c, m.c, s.threads[u]);
    }
    FramesExtend(s.k, s.c, m.c, th);
    forall u | 0 <= u < |s.threads| && u != t ensures Dead(m.th.pc) !! Dead(s.threads[u].pc) {
      DeadElsewhere(s.k, s.c, s.threads[u].pc);
    }
    StillCompatible(s, t, m.th);
  }

  lemma NewlyDead(k: Config, c: Store, dead: set<Ptr>)
    requires DeadOk(c, dead)
    ensures PcOk(k, c, if dead == {} then Leaving({}) else Doomed(dead))
  {
  }

  lemma FramesExtend(k: Config, c: Store, c': Store, th: Thread)
    requires Extends(c, c') && FramesOk(k, c, th.frames)
    ensures FramesOk(k, c', th.frames)
  {
    hide Agrees;
    assert forall p, id :: WholeFact(k, c, p, id) ==> WholeFact(k, c', p, id);
  }

  /** Dead facts are not stored. */
  lemma DeadElsewhere(k: Config, c: Store, pc: Pc)
    requires PcOk(k, c, pc)
    ensures Dead(pc) !! ToSet(c.facts) && Dead(pc) <= c.heap.Keys
  {
  }

  /* ------------------------------------------------------------ freeing */

  lemma FreeThread(k: Config, c: Store, dead: set<Ptr>, th: Thread)
    requires ThreadOk(k, c, th) && !ReadsDelete(th) && Dead(th.pc) !! dead && dead !! ToSet(c.facts)
    ensures ThreadOk(k, c.(heap := c.heap - dead), th)
  {
    hide Right, Agrees, SelfConflict, FilledTo;
    var c' := c.(heap := c.heap - dead);
    forall p | p in c.facts ensures p !in dead {
      assert p in ToSet(c.facts);
    }
    assert forall q, p :: Answers(k, c, q, p) ==> Answers(k, c', q, p);
    assert forall sh, n :: FilledTo(c', sh, n) == FilledTo(c, sh, n) by {
      FilledSame(c, c');
    }
    NoKept(k, c, c', th);
  }

  lemma FilledSame(c: Store, c': Store)
    requires c'.touched == c.touched && c'.facts == c.facts
    ensures forall sh, n :: FilledTo(c', sh, n) == FilledTo(c, sh, n)
  {
  }

  lemma NoKept(k: Config, c: Store, c': Store, th: Thread)
    requires FramesOk(k, c, th.frames) && !KeptAny(th.frames)
    ensures FramesOk(k, c', th.frames)
  {
    hide Agrees, WholeFact;
  }

  /** Freeing: nobody uses the facts that go. */
  lemma FreeInv(s: Sys, t: nat, a: Act)
    requires Inv(s) && Step(s, t, a).Some? && a.Free?
    ensures Inv(Step(s, t, a).value)
  {
    hide Good, PcOk, Conflict, FrameOk, SelfConflict, ReadsDelete, Compatible;
    var th, dead := s.threads[t], s.threads[t].pc.dead;
    assert ThreadOk(s.k, s.c, th);
    DeadElsewhere(s.k, s.c, th.pc);
    FreedGood(s.k, s.c, dead);
    var m := Do(s.k, s.c, th, a).value;
    forall u | 0 <= u < |s.threads| && u != t ensures ThreadOk(s.k, m.c, s.threads[u]) {
      FreeingAlone(s, t, u);
      OthersDead(s, t, u);
      FreeThread(s.k, s.c, dead, s.threads[u]);
    }
    OwnFrames(s.k, s.c, m.c, th);
    StillCompatible(s, t, m.th);
  }

  lemma FreeingAlone(s: Sys, t: nat, u: nat)
    requires Compatible(s.threads) && t < |s.threads| && s.threads[t].pc.Freeing? && u < |s.threads| && u != t
    ensures !ReadsDelete(s.threads[u])
  {
    hide KeptAny;
    OthersDead(s, t, u);
  }

  lemma OwnFrames(k: Config, c: Store, c': Store, th: Thread)
    requires ThreadOk(k, c, th) && th.pc.Freeing?
    ensures PcOk(k, c', Idle) && FramesOk(k, c', th.frames)
  {
    hide FrameOk;
    NoKept(k, c, c', th);
  }

  /* ------------------------------------------------------------ all runs */

  /** Every step keeps the invariant. */
  lemma StepInv(s: Sys, t: nat, a: Act)
    requires Inv(s) && Step(s, t, a).Some?
    ensures Inv(Step(s, t, a).value) && Step(s, t, a).value.k == s.k
  {
    hide Inv, Do, LocksFree;
    if a.Update? {
      UpdateInv(s, t, a);
    } else if a.Free? {
      FreeInv(s, t, a);
    } else {
      MildInv(s, t, a);
    }
  }

  lemma {:induction false} RunInv(s: Sys, steps: seq<(nat, Act)>)
    requires Inv(s) && Run(s, steps).Some?
    ensures Inv(Run(s, steps).value) && Run(s, steps).value.k == s.k
    decreases |steps|
  {
    hide Inv, Step;
    if steps != [] {
      StepInv(s, steps[0].0, steps[0].1);
      RunInv(Step(s, steps[0].0, steps[0].1).value, steps[1..]);
    }
  }

  /** The indexes lead to exactly the stored facts, which say what the base says; bytes and count
      are those of the list, and within the capacity; recorded hits are stored facts. */
  ghost predicate Sound(s: Sys) {
    && Indexed(s.c.heap, s.c.facts, s.c.ids, s.c.keys) && AllAgree(s.k.base, s.c.heap, s.c.facts)
    && s.c.bytes == Bytes(s.c.heap, s.c.facts) <= s.k.capacity && s.c.count == |s.c.facts|
    && forall sh, i :: 0 <= sh < |s.c.touched| && 0 <= i < s.c.touched[sh].next ==>
         i < |s.c.touched[sh].slots| && s.c.touched[sh].slots[i] in s.c.facts
  }

  /** The hit that a thread is about to apply is a stored fact. */
  ghost predicate AppliesStored(s: Sys, pc: Pc) {
    && (pc.Draining? && pc.i < pc.n ==>
          && pc.sh < |s.c.touched| && pc.i < |s.c.touched[pc.sh].slots|
          && s.c.touched[pc.sh].slots[pc.i] in s.c.facts)
    && (pc.Listing? ==> pc.p in s.c.facts)
  }

  /** A lookup that has found a fact has the answer of the base. */
  ghost predicate AnswersRight(s: Sys, pc: Pc) {
    pc.Found? || pc.Listing? || pc.Loaded? || pc.Written? ==>
      pc.p in s.c.heap && Right(s.k.base, pc.q, Some(AnswerOf(pc.q, s.c.heap[pc.p])))
  }

  /** A caller's function runs on an allocated fact that is the one of the base. */
  ghost predicate RunsOnBase(s: Sys, fr: Frame) {
    match fr
    case Kept(p, id) => p in s.c.heap && id in s.k.base && s.c.heap[p].data == s.k.base[id]
    case Own(f) => Agrees(s.k.base, f)
  }

  ghost predicate Safe(s: Sys) {
    && Sound(s)
    && (forall t :: 0 <= t < |s.threads| ==> AppliesStored(s, s.threads[t].pc) && AnswersRight(s, s.threads[t].pc))
    && (forall t, i :: 0 <= t < |s.threads| && 0 <= i < |s.threads[t].frames| ==> RunsOnBase(s, s.threads[t].frames[i]))
  }

  lemma InvSafe(s: Sys)
    requires Inv(s)
    ensures Safe(s)
  {
    hide Indexed, AllAgree, ListOk, Bytes, Right, Agrees, Compatible, SelfConflict;
    assert Sound(s) by {
      forall sh, i | 0 <= sh < |s.c.touched| && 0 <= i < s.c.touched[sh].next
        ensures i < |s.c.touched[sh].slots| && s.c.touched[sh].slots[i] in s.c.facts
      {
        GoodHits(s.k, s.c, sh);
      }
    }
    forall t | 0 <= t < |s.threads| ensures AppliesStored(s, s.threads[t].pc) && AnswersRight(s, s.threads[t].pc) {
      assert ThreadOk(s.k, s.c, s.threads[t]);
    }
    forall t, i | 0 <= t < |s.threads| && 0 <= i < |s.threads[t].frames| ensures RunsOnBase(s, s.threads[t].frames[i]) {
      assert ThreadOk(s.k, s.c, s.threads[t]);
      assert FrameOk(s.k, s.c, s.threads[t].frames[i]);
    }
  }

  /** In every run of any number of threads, however they are interleaved. */
  lemma AlwaysSafe(k: Config, shards: nat, threads: nat, steps: seq<(nat, Act)>)
    requires BaseOk(k.base) && Run(Init(k, shards, threads), steps).Some?
    ensures Safe(Run(Init(k, shards, threads), steps).value)
  {
    hide Run, Init, Safe, Inv;
    InitInv(k, shards, threads);
    RunInv(Init(k, shards, threads), steps);
    InvSafe(Run(Init(k, shards, threads), steps).value);
  }

  /** A lookup that finds nothing is answered by the base: it is over, its caller's function runs on
      the base's fact, or the fact is on its way into the cache. */
  lemma MissRight(s: Sys, t: nat, f: Option<CFact>)
    requires Step(s, t, Miss(f)).Some?
    ensures s.threads[t].pc.Looking?
    ensures Right(s.k.base, s.threads[t].pc.q, if f.None? then None else Some(AnswerOf(s.threads[t].pc.q, f.value)))
  {
  }
}
