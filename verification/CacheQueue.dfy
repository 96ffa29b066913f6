/** Insertions that take nothing out. */
module CacheQueue {
  // Which queued insertions can pass, one after the other.
  import opened Pointers
  import opened CacheStore

  /** What an insertion depends on: how much of which facts is stored, and how many bytes. */
  datatype View = View(tags: map<nat, Tag>, bytes: nat)

  function ViewOf(c: Store): View {
    View(map id | id in c.ids && c.ids[id] in c.heap :: c.heap[c.ids[id]].tag, c.bytes)
  }

  predicate RefusedBy(k: Config, v: View, f: CFact) {
    f.size > k.capacity || (f.id in v.tags && Rank(v.tags[f.id]) >= Rank(f.tag))
  }

  predicate DropsFrom(k: Config, v: View, f: CFact) {
    !RefusedBy(k, v, f) && (f.id in v.tags || v.bytes + f.size > k.capacity)
  }

  /** An insertion that takes nothing out. */
  function Put(k: Config, v: View, f: CFact): View {
    if RefusedBy(k, v, f) then v else View(v.tags[f.id := f.tag], v.bytes + f.size)
  }

  lemma ViewDrops(k: Config, c: Store, f: CFact)
    requires Good(k, c)
    ensures RefusedBy(k, ViewOf(c), f) == Refused(k, c, f) && DropsFrom(k, ViewOf(c), f) == Drops(k, c, f)
  {
    hide Good;
    GoodFacts(k, c);
  }

  lemma ViewInserted(k: Config, c: Store, f: CFact, p: Ptr)
    requires Good(k, c) && Agrees(k.base, f) && p !in c.heap && !Drops(k, c, f)
    ensures ViewOf(Insertion(k, c, f, p)) == Put(k, ViewOf(c), f)
  {
    hide Good, Agrees, ViewOf, Appended;
    ViewDrops(k, c, f);
    GoodFacts(k, c);
    if !Refused(k, c, f) {
      assert Insertion(k, c, f, p) == Appended(c, f, p);
      ViewAppended(c, f, p);
    }
  }

  lemma ViewAppended(c: Store, f: CFact, p: Ptr)
    requires p !in c.heap && f.id !in c.ids && forall id :: id in c.ids ==> c.ids[id] in c.heap
    ensures ViewOf(Appended(c, f, p)) == View(ViewOf(c).tags[f.id := f.tag], ViewOf(c).bytes + f.size)
  {
  }

  lemma ViewFreed(k: Config, c: Store, dead: set<Ptr>)
    requires Good(k, c) && dead !! ToSet(c.facts)
    ensures ViewOf(c.(heap := c.heap - dead)) == ViewOf(c)
  {
    hide Good;
    GoodFacts(k, c);
    forall id | id in c.ids ensures c.ids[id] !in dead {
      assert c.ids[id] in ToSet(c.facts);
    }
  }

  /* ------------------------------------------------------------ the queue */

  /** What a thread has to do with the index: nothing, it is queued with a fact, it holds the index
      with a fact yet to be inserted, or it has taken facts out. */
  datatype Wait = Away | InQueue(f: CFact) | Holding(f: CFact) | Dooming

  function Total(fs: seq<CFact>): nat {
    if fs == [] then 0 else Total(fs[..|fs| - 1]) + fs[|fs| - 1].size
  }

  /** Facts of different ids, none of which is stored, for which there is room. */
  ghost predicate Fits(k: Config, v: View, fs: seq<CFact>) {
    && (forall i, j :: 0 <= i < j < |fs| ==> fs[i].id != fs[j].id)
    && (forall i :: 0 <= i < |fs| ==> Proper(k, fs[i]) && fs[i].id !in v.tags)
    && v.bytes + Total(fs) <= k.capacity
  }

  /** The fact does not fit at all, or is stored or among fs with as much data. */
  ghost predicate CoveredBy(k: Config, v: View, fs: seq<CFact>, f: CFact) {
    RefusedBy(k, v, f) || exists i :: 0 <= i < |fs| && fs[i].id == f.id && Rank(fs[i].tag) >= Rank(f.tag)
  }

  ghost predicate Covers(k: Config, v: View, fs: seq<CFact>, ws: seq<Wait>) {
    forall t :: 0 <= t < |ws| && ws[t].InQueue? ==> CoveredBy(k, v, fs, ws[t].f)
  }

  /** There is room for facts that make all queued insertions superfluous: for every id that is
      queued, one fact with as much data as any of them. */
  ghost predicate QueueFits(k: Config, v: View, ws: seq<Wait>) {
    exists fs :: Fits(k, v, fs) && Covers(k, v, fs, ws)
  }

  predicate NobodyHolds(ws: seq<Wait>) {
    forall t :: 0 <= t < |ws| ==> !ws[t].Holding?
  }

  /** Nobody has taken anything out or is bound to: neither the holder of the index, nor, after it,
      the queue. */
  ghost predicate Passable(k: Config, v: View, ws: seq<Wait>) {
    && (forall t :: 0 <= t < |ws| ==> ws[t] != Dooming)
    && (forall t :: 0 <= t < |ws| && ws[t].Holding? ==> !DropsFrom(k, v, ws[t].f) && QueueFits(k, Put(k, v, ws[t].f), ws))
    && (NobodyHolds(ws) ==> QueueFits(k, v, ws))
  }

  lemma {:induction false} TotalConcat(a: seq<CFact>, b: seq<CFact>)
    ensures Total(a + b) == Total(a) + Total(b)
  {
    if b == [] {
      assert a + b == a;
    } else {
      var n := |b| - 1;
      TotalConcat(a, b[..n]);
      assert (a + b)[..|a| + n] == a + b[..n];
    }
  }

  lemma TotalOne(f: CFact)
    ensures Total([f]) == f.size
  {
    assert [f][..0] == [];
  }

  /** Room after an insertion that takes nothing out is room before it. */
  lemma FitsBefore(k: Config, v: View, f: CFact, fs: seq<CFact>) returns (gs: seq<CFact>)
    requires Proper(k, f) && !DropsFrom(k, v, f) && Fits(k, Put(k, v, f), fs)
    ensures Fits(k, v, gs) && CoveredBy(k, v, gs, f)
    ensures forall h :: CoveredBy(k, Put(k, v, f), fs, h) ==> CoveredBy(k, v, gs, h)
  {
    hide Proper;
    if RefusedBy(k, v, f) {
      gs := fs;
    } else {
      gs := [f] + fs;
      TotalConcat([f], fs);
      TotalOne(f);
      assert gs[0] == f && forall i :: 0 <= i < |fs| ==> gs[i + 1] == fs[i];
      assert forall i :: 0 < i < |gs| ==> gs[i] == fs[i - 1];
    }
  }

  /** Fewer queued insertions are not harder to let pass. */
  lemma FewerFit(k: Config, v: View, ws: seq<Wait>, ws': seq<Wait>)
    requires QueueFits(k, v, ws') && |ws| == |ws'|
    requires forall t :: 0 <= t < |ws| && ws[t].InQueue? ==> ws'[t] == ws[t]
    ensures QueueFits(k, v, ws)
  {
    hide Fits, CoveredBy;
    var fs :| Fits(k, v, fs) && Covers(k, v, fs, ws');
    assert Covers(k, v, fs, ws);
  }

  /** Joining the queue does not make it passable. */
  lemma QueueBack(k: Config, v: View, ws: seq<Wait>, t: nat, f: CFact)
    requires t < |ws| && ws[t] == Away && Passable(k, v, ws[t := InQueue(f)])
    ensures Passable(k, v, ws)
  {
    hide QueueFits;
    var ws' := ws[t := InQueue(f)];
    forall w | 0 <= w < |ws| && ws[w].Holding? ensures !DropsFrom(k, v, ws[w].f) && QueueFits(k, Put(k, v, ws[w].f), ws) {
      assert ws'[w] == ws[w];
      FewerFit(k, Put(k, v, ws[w].f), ws, ws');
    }
    assert forall w :: 0 <= w < |ws| && w != t ==> ws'[w] == ws[w];
    if NobodyHolds(ws) {
      assert NobodyHolds(ws');
      FewerFit(k, v, ws, ws');
    }
  }

  /** Nor does getting hold of the index. */
  lemma BeginBack(k: Config, v: View, ws: seq<Wait>, t: nat, f: CFact)
    requires t < |ws| && ws[t] == InQueue(f) && Proper(k, f) && Passable(k, v, ws[t := Holding(f)])
    requires NobodyHolds(ws)
    ensures Passable(k, v, ws)
  {
    hide Fits, CoveredBy, Proper, DropsFrom, Put;
    var ws' := ws[t := Holding(f)];
    assert ws'[t].Holding?;
    var fs :| Fits(k, Put(k, v, f), fs) && Covers(k, Put(k, v, f), fs, ws');
    var gs := FitsBefore(k, v, f, fs);
    forall w | 0 <= w < |ws| && ws[w].InQueue? ensures CoveredBy(k, v, gs, ws[w].f) {
      if w != t {
        assert ws'[w] == ws[w];
      }
    }
    assert Covers(k, v, gs, ws);
    forall w | 0 <= w < |ws| ensures ws[w] != Dooming {
      assert w != t ==> ws'[w] == ws[w];
    }
  }

  /** Nor does an insertion that takes nothing out. */
  lemma UpdateBack(k: Config, v: View, ws: seq<Wait>, t: nat, f: CFact)
    requires t < |ws| && ws[t] == Holding(f) && !DropsFrom(k, v, f) && Passable(k, Put(k, v, f), ws[t := Away])
    requires forall w :: 0 <= w < |ws| && w != t ==> !ws[w].Holding?
    ensures Passable(k, v, ws)
  {
    hide QueueFits, DropsFrom, Put;
    var ws' := ws[t := Away];
    assert forall w :: 0 <= w < |ws| && w != t ==> ws'[w] == ws[w];
    assert NobodyHolds(ws');
    FewerFit(k, Put(k, v, f), ws, ws');
  }

  /* ------------------------------------------------------------ letting the queue pass */

  /** The holder of the index takes nothing out: after it, the queue is passable. */
  lemma HolderPasses(k: Config, v: View, ws: seq<Wait>, t: nat, f: CFact)
    requires t < |ws| && ws[t] == Holding(f) && Passable(k, v, ws) && forall w :: 0 <= w < |ws| && w != t ==> !ws[w].Holding?
    ensures !DropsFrom(k, v, f) && Passable(k, Put(k, v, f), ws[t := Away])
  {
    hide QueueFits, DropsFrom, Put;
    var ws' := ws[t := Away];
    assert forall w :: 0 <= w < |ws| && w != t ==> ws'[w] == ws[w];
    FewerFit(k, Put(k, v, f), ws', ws);
  }

  /** Less data does not take more room. */
  lemma SmallerFits(k: Config, f: CFact, g: CFact)
    requires Proper(k, f) && Proper(k, g) && f.id == g.id && Rank(f.tag) <= Rank(g.tag)
    ensures f.size <= g.size
  {
  }

  lemma {:induction false} MaxQueued(ws: seq<Wait>) returns (t: nat)
    requires exists w :: 0 <= w < |ws| && ws[w].InQueue?
    ensures t < |ws| && ws[t].InQueue?
    ensures forall w :: 0 <= w < |ws| && ws[w].InQueue? ==> Rank(ws[w].f.tag) <= Rank(ws[t].f.tag)
  {
    var n := |ws| - 1;
    if w :| 0 <= w < n && ws[w].InQueue? {
      assert ws[..n][w].InQueue?;
      t := MaxQueued(ws[..n]);
      assert forall w :: 0 <= w < n ==> ws[..n][w] == ws[w];
      if ws[n].InQueue? && Rank(ws[t].f.tag) < Rank(ws[n].f.tag) {
        t := n;
      }
    } else {
      t := n;
    }
  }

  function Skip(fs: seq<CFact>, i: nat): seq<CFact>
    requires i < |fs|
  {
    fs[..i] + fs[i + 1..]
  }

  lemma SkipTotal(fs: seq<CFact>, i: nat)
    requires i < |fs|
    ensures Total(Skip(fs, i)) + fs[i].size == Total(fs)
  {
    hide Total;
    var a, x, b := fs[..i], [fs[i]], fs[i + 1..];
    assert fs == (a + x) + b;
    TotalConcat(a, x);
    TotalConcat(a + x, b);
    TotalConcat(a, b);
    TotalOne(fs[i]);
  }

  lemma SkipFits(k: Config, v: View, fs: seq<CFact>, i: nat)
    requires Fits(k, v, fs) && i < |fs|
    ensures forall j :: 0 <= j < |Skip(fs, i)| ==> Proper(k, Skip(fs, i)[j]) && Skip(fs, i)[j].id !in v.tags && Skip(fs, i)[j].id != fs[i].id
    ensures forall j, l :: 0 <= j < l < |Skip(fs, i)| ==> Skip(fs, i)[j].id != Skip(fs, i)[l].id
  {
    hide Proper, Total;
    var gs := Skip(fs, i);
    assert forall j :: 0 <= j < |gs| ==> gs[j] == fs[if j < i then j else j + 1];
  }

  lemma SkipCovers(k: Config, v: View, f: CFact, fs: seq<CFact>, i: nat, h: CFact)
    requires i < |fs| && fs[i].id == f.id && !RefusedBy(k, v, f) && CoveredBy(k, v, fs, h) && Rank(h.tag) <= Rank(f.tag)
    ensures CoveredBy(k, Put(k, v, f), Skip(fs, i), h)
  {
    if !RefusedBy(k, v, h) && h.id != f.id {
      var j :| 0 <= j < |fs| && fs[j].id == h.id && Rank(fs[j].tag) >= Rank(h.tag);
      assert Skip(fs, i)[if j < i then j else j - 1] == fs[j];
    }
  }

  /** Without the fact that covers f, there is room after f. */
  lemma FitsAfter(k: Config, v: View, f: CFact, fs: seq<CFact>, i: nat)
    requires Fits(k, v, fs) && i < |fs| && fs[i].id == f.id && Rank(f.tag) <= Rank(fs[i].tag) && Proper(k, f) && !RefusedBy(k, v, f)
    ensures !DropsFrom(k, v, f) && Fits(k, Put(k, v, f), Skip(fs, i))
  {
    hide Proper, Skip, Total;
    SmallerFits(k, f, fs[i]);
    SkipTotal(fs, i);
    SkipFits(k, v, fs, i);
  }

  /** A queued insertion with most data takes nothing out, and what is queued after it still fits. */
  lemma FirstPasses(k: Config, v: View, ws: seq<Wait>, t: nat)
    requires Passable(k, v, ws) && NobodyHolds(ws) && t < |ws| && ws[t].InQueue? && Proper(k, ws[t].f)
    requires forall w :: 0 <= w < |ws| && ws[w].InQueue? ==> Rank(ws[w].f.tag) <= Rank(ws[t].f.tag)
    ensures Passable(k, v, ws[t := Holding(ws[t].f)])
  {
    hide Fits, CoveredBy, Proper, DropsFrom, Put, RefusedBy;
    var f, ws' := ws[t].f, ws[t := Holding(ws[t].f)];
    var fs :| Fits(k, v, fs) && Covers(k, v, fs, ws);
    var gs := RoomAfter(k, v, f, fs);
    assert forall w :: 0 <= w < |ws| && w != t ==> ws'[w] == ws[w];
    assert Covers(k, Put(k, v, f), gs, ws');
  }

  lemma RoomAfter(k: Config, v: View, f: CFact, fs: seq<CFact>) returns (gs: seq<CFact>)
    requires Fits(k, v, fs) && CoveredBy(k, v, fs, f) && Proper(k, f)
    ensures !DropsFrom(k, v, f) && Fits(k, Put(k, v, f), gs)
    ensures forall h :: CoveredBy(k, v, fs, h) && Rank(h.tag) <= Rank(f.tag) ==> CoveredBy(k, Put(k, v, f), gs, h)
  {
    hide Proper, Fits;
    if RefusedBy(k, v, f) {
      gs := fs;
    } else {
      var i :| 0 <= i < |fs| && fs[i].id == f.id && Rank(fs[i].tag) >= Rank(f.tag);
      gs := Skip(fs, i);
      FitsAfter(k, v, f, fs, i);
      forall h | CoveredBy(k, v, fs, h) && Rank(h.tag) <= Rank(f.tag) ensures CoveredBy(k, Put(k, v, f), gs, h) {
        SkipCovers(k, v, f, fs, i, h);
      }
    }
  }
}
