/** Suspending a query: its stack of fact iterators is saved as keys, and restored by seeking. */
module Suspend {
  import opened Pointers
  import opened Bytes
  import opened Seek

  /** The keys of every predicate, with the ids of their facts. */
  type Db = map<nat, map<seq<byte>, nat>>

  const INVALID: nat := 0

  ghost predicate DbOk(db: Db) {
    INVALID !in db && forall pid, k :: pid in db && k in db[pid] ==> db[pid][k] != INVALID
  }

  /** A live iterator: the window it walks, where it stands, and what is needed to save it. */
  datatype Iter = Iter(window: seq<Entry>, pos: nat, pid: nat, id: nat, prefixSize: nat, first: bool)

  ghost predicate Seeked(db: Db, pid: nat, start: seq<byte>, prefixSize: nat, w: seq<Entry>) {
    if pid in db then IsWindow(db[pid], start, prefixSize, w) else w == []
  }

  ghost predicate HasWindow(db: Db, pid: nat, prefixSize: nat, w: seq<Entry>) {
    w == [] || exists start :: pid in db && IsWindow(db[pid], start, prefixSize, w)
  }

  ghost predicate Walks(db: Db, it: Iter) {
    && it.pos <= |it.window|
    && HasWindow(db, it.pid, it.prefixSize, it.window)
  }

  /** The facts an iterator has yet to deliver. */
  function Remaining(it: Iter): seq<Entry>
    requires it.pos <= |it.window|
  {
    if it.first then it.window[it.pos..] else if it.pos < |it.window| then it.window[it.pos + 1..] else []
  }

  /** The whole run of facts with a prefix. */
  ghost function Matches(db: Db, pid: nat, prefix: seq<byte>): seq<Entry> {
    if pid in db && exists w :: IsWindow(db[pid], prefix, |prefix|, w) then
      var w :| IsWindow(db[pid], prefix, |prefix|, w);
      w
    else []
  }

  lemma MatchesIs(db: Db, pid: nat, prefix: seq<byte>, w: seq<Entry>)
    requires Seeked(db, pid, prefix, |prefix|, w)
    ensures Matches(db, pid, prefix) == w
  {
    hide IsWindow;
    if pid in db {
      WindowUnique(db[pid], prefix, |prefix|, w, Matches(db, pid, prefix));
    }
  }

  /** What is saved of an iterator. */
  datatype Saved = Finished | At(pid: nat, key: seq<byte>, prefixSize: nat, first: bool)

  function Save(it: Iter): Saved
    requires it.pos <= |it.window|
  {
    if it.pos < |it.window| then At(it.pid, it.window[it.pos].key, it.prefixSize, it.first) else Finished
  }

  /* ------------------------------------------------------------ compared with an uninterrupted run */

  /** An iterator of a query that is never suspended: the facts it has yet to deliver, and the id of
      the fact it delivered last, from which owners of derived facts are computed. */
  datatype Track = Track(rest: seq<Entry>, id: nat)

  /** How an iterator compares with that, depending on whether it was suspended since it last
      moved: before its first fact and after its last one, restarting changes the id. */
  ghost predicate Tracks(it: Iter, t: Track, cut: bool) {
    && it.pos <= |it.window| && t.rest == Remaining(it)
    && (it.first ==> it.pos == 0 && t.id == INVALID)
    && (it.first ==> if cut then it.window != [] && it.id == it.window[0].id else it.id == INVALID)
    && (!it.first && it.pos < |it.window| ==> it.id == t.id == it.window[it.pos].id)
    && (!it.first && it.pos == |it.window| ==> it.id == if cut then INVALID else t.id)
  }

  /** The id is the one of the uninterrupted run exactly when the iterator was not suspended since
      it last moved, or stands on a fact it has delivered, or is finished without any. */
  lemma IdExact(db: Db, it: Iter, t: Track, cut: bool)
    requires DbOk(db) && Walks(db, it) && Tracks(it, t, cut)
    ensures it.id == t.id <==> !cut || (it.pos < |it.window| && !it.first) || (it.pos == |it.window| && t.id == INVALID)
  {
    hide IsWindow, Less;
    if it.pos < |it.window| {
      EntryValid(db, it, it.pos);
    }
  }

  lemma EntryValid(db: Db, it: Iter, i: nat)
    requires DbOk(db) && Walks(db, it) && i < |it.window|
    ensures it.window[i].id != INVALID
  {
    hide IsWindow;
    var start :| it.pid in db && IsWindow(db[it.pid], start, it.prefixSize, it.window);
    EntrySound(db[it.pid], start, it.prefixSize, it.window, i);
  }

  /** A restarted iterator compares as one that was suspended. */
  lemma RestoredTracks(it: Iter, t: Track, cut: bool, it': Iter)
    requires Tracks(it, t, cut)
    requires if it.pos < |it.window| then it' == Iter(it.window[it.pos..], 0, it.pid, it.window[it.pos].id, it.prefixSize, it.first)
             else it' == Iter([], 0, INVALID, INVALID, 0, false)
    ensures Tracks(it', t, true)
  {
  }

  lemma EntrySound(keys: map<seq<byte>, nat>, start: seq<byte>, prefixSize: nat, w: seq<Entry>, i: nat)
    requires IsWindow(keys, start, prefixSize, w) && i < |w|
    ensures w[i].key in keys && keys[w[i].key] == w[i].id && prefixSize <= |w[i].key|
  {
  }

  /** Seeking to the saved key finds it and exactly the facts that were left. */
  lemma RestoredWindow(db: Db, it: Iter, w: seq<Entry>)
    requires Walks(db, it) && it.pos < |it.window|
    requires it.pid in db ==> it.prefixSize <= |it.window[it.pos].key|
    requires Seeked(db, it.pid, it.window[it.pos].key, it.prefixSize, w)
    ensures w == it.window[it.pos..] && it.pid in db
  {
    hide IsWindow;
    var start :| it.pid in db && IsWindow(db[it.pid], start, it.prefixSize, it.window);
    TailIsWindow(db[it.pid], start, it.prefixSize, it.window, it.pos);
    WindowUnique(db[it.pid], it.window[it.pos].key, it.prefixSize, w, it.window[it.pos..]);
  }

  lemma CurrentKey(db: Db, it: Iter)
    requires Walks(db, it) && it.pos < |it.window|
    ensures it.pid in db && it.prefixSize <= |it.window[it.pos].key|
  {
    hide IsWindow;
    var start :| it.pid in db && IsWindow(db[it.pid], start, it.prefixSize, it.window);
    EntrySound(db[it.pid], start, it.prefixSize, it.window, it.pos);
  }

  /* ------------------------------------------------------------ what the program sees */

  /** The instructions of a query that touch iterators; Cut suspends and resumes it. */
  datatype Op = SeekOp(pid: nat, prefix: seq<byte>) | NextOp | EndSeek(token: nat) | Cut

  /** The iterators of a query that is never suspended. */
  type Stack = seq<Track>

  /** Deliver one fact. */
  function NextTrack(t: Track): Track {
    if t.rest == [] then t else Track(t.rest[1..], t.rest[0].id)
  }

  ghost function StepStack(db: Db, s: Stack, op: Op): Stack {
    match op
    case SeekOp(pid, prefix) => s + [Track(Matches(db, pid, prefix), INVALID)]
    case NextOp => if s == [] then s else s[|s| - 1 := NextTrack(s[|s| - 1])]
    case EndSeek(token) => if token < |s| then s[..token] else s
    case Cut => s
  }

  ghost function StepOutput(s: Stack, op: Op): seq<Option<Entry>> {
    if op.NextOp? && s != [] then [if s[|s| - 1].rest == [] then None else Some(s[|s| - 1].rest[0])] else []
  }

  /** What a program that is never suspended gets to see. */
  ghost function Output(db: Db, s: Stack, ops: seq<Op>): seq<Option<Entry>>
    decreases |ops|
  {
    if ops == [] then []
    else StepOutput(s, ops[0]) + Output(db, StepStack(db, s, ops[0]), ops[1..])
  }

  /** The iterators of such a program at its end. */
  ghost function StackAfter(db: Db, s: Stack, ops: seq<Op>): Stack
    decreases |ops|
  {
    if ops == [] then s else StackAfter(db, StepStack(db, s, ops[0]), ops[1..])
  }

  ghost function Uncut(ops: seq<Op>): seq<Op> {
    if ops == [] then [] else (if ops[0].Cut? then [] else [ops[0]]) + Uncut(ops[1..])
  }

  lemma {:induction false} CutsInvisible(db: Db, s: Stack, ops: seq<Op>)
    ensures Output(db, s, ops) == Output(db, s, Uncut(ops)) && StackAfter(db, s, ops) == StackAfter(db, s, Uncut(ops))
    decreases |ops|
  {
    if ops != [] {
      CutsInvisible(db, StepStack(db, s, ops[0]), ops[1..]);
      if ops[0].Cut? {
        assert Uncut(ops) == Uncut(ops[1..]);
      } else {
        assert Uncut(ops) == [ops[0]] + Uncut(ops[1..]);
        assert Uncut(ops)[1..] == Uncut(ops[1..]);
      }
    }
  }

  /* ------------------------------------------------------------ the executor */

  /** Every iterator walks a window, and compares with the uninterrupted run as it should. */
  ghost predicate AllTrack(db: Db, iters: seq<Iter>, plain: Stack, cut: seq<bool>) {
    && |plain| == |iters| == |cut|
    && forall i :: 0 <= i < |iters| ==> Walks(db, iters[i]) && Tracks(iters[i], plain[i], cut[i])
  }

  class Executor {
    const db: Db
    // the predicates' facts
    const indexes: map<nat, FactIndex>
    var iters: seq<Iter>
    // the same query without suspensions, and which iterators were suspended since they last moved
    ghost var plain: Stack
    ghost var cut: seq<bool>

    ghost predicate Indexed()
      reads this, indexes.Values
    {
      && DbOk(db) && indexes.Keys == db.Keys
      && (forall p :: p in db ==> indexes[p].Valid() && indexes[p].keys == db[p])
    }

    ghost predicate Valid()
      reads this, indexes.Values
    {
      Indexed() && AllTrack(db, iters, plain, cut)
    }

    constructor (db: Db, indexes: map<nat, FactIndex>)
      requires DbOk(db) && indexes.Keys == db.Keys
      requires forall p :: p in db ==> indexes[p].Valid() && indexes[p].keys == db[p]
      ensures Valid() && iters == [] && plain == [] && this.db == db
    {
      this.db, this.indexes, iters, plain, cut := db, indexes, [], [], [];
    }

    /** Seek in the facts of a predicate; an unknown predicate has none. */
    method SeekFacts(pid: nat, start: seq<byte>, prefixSize: nat) returns (w: seq<Entry>)
      requires Indexed() && prefixSize <= |start|
      modifies indexes.Values
      ensures Indexed() && Seeked(db, pid, start, prefixSize, w)
    {
      hide IsWindow, Sorted, Sound;
      if pid in indexes {
        w := indexes[pid].Seek(start, prefixSize);
      } else {
        w := [];
      }
    }

    method Seek(pid: nat, prefix: seq<byte>) returns (token: nat)
      requires Valid()
      modifies this`iters, this`plain, this`cut, indexes.Values
      ensures Valid() && token == |old(iters)| && |iters| == token + 1 && iters[..token] == old(iters)
      ensures plain == StepStack(db, old(plain), SeekOp(pid, prefix))
    {
      hide IsWindow, Matches, Walks, AllTrack, DbOk;
      token := |iters|;
      var w := SeekFacts(pid, prefix, |prefix|);
      var it := Iter(w, 0, pid, INVALID, |prefix|, true);
      Sought(db, pid, prefix, it);
      TrackPush(db, iters, plain, cut, it, Track(w, INVALID), false);
      iters, plain, cut := iters + [it], plain + [Track(w, INVALID)], cut + [false];
    }

    /** Deliver the next fact of the innermost iterator. */
    method Next() returns (res: Option<Entry>)
      requires Valid() && iters != []
      modifies this`iters, this`plain, this`cut
      ensures Valid() && [res] == StepOutput(old(plain), NextOp) && plain == StepStack(db, old(plain), NextOp)
      ensures |iters| == |old(iters)| && iters[..|iters| - 1] == old(iters)[..|iters| - 1]
    {
      hide IsWindow, Sorted, Sound, Walks, DbOk, AllTrack, Tracks, Remaining;
      var n := |iters| - 1;
      var it := iters[n];
      TrackAt(db, iters, plain, cut, n);
      Moved(db, it, plain[n], cut[n]);
      ghost var c := cut[n] && it.pos == |it.window|;
      if it.first {
        it := it.(first := false);
      } else if it.pos < |it.window| {
        it := it.(pos := it.pos + 1);
      }
      if it.pos < |it.window| {
        res := Some(it.window[it.pos]);
        it := it.(id := it.window[it.pos].id);
      } else {
        res := None;
      }
      TrackSet(db, iters, plain, cut, n, it, NextTrack(plain[n]), c);
      iters, plain, cut := iters[n := it], plain[n := NextTrack(plain[n])], cut[n := c];
    }

    method EndSeek(token: nat)
      requires Valid()
      modifies this`iters, this`plain, this`cut
      ensures Valid() && iters == (if token < |old(iters)| then old(iters)[..token] else old(iters))
      ensures plain == StepStack(db, old(plain), Op.EndSeek(token))
    {
      hide IsWindow, Walks, Tracks;
      while |iters| > token
        invariant |iters| <= |old(iters)| && iters == old(iters)[..|iters|] && (token <= |old(iters)| ==> token <= |iters|)
        invariant |old(iters)| <= token ==> iters == old(iters)
        invariant Valid() && plain == old(plain)[..|iters|] && cut == old(cut)[..|iters|]
      {
        iters, plain, cut := iters[..|iters| - 1], plain[..|iters| - 1], cut[..|iters| - 1];
      }
    }

    method SaveState() returns (saved: seq<Saved>)
      requires Valid()
      ensures |saved| == |iters| && forall i :: 0 <= i < |iters| ==> iters[i].pos <= |iters[i].window| && saved[i] == Save(iters[i])
    {
      hide IsWindow, Sorted, Sound, Tracks;
      saved := [];
      var i := 0;
      while i < |iters|
        invariant i <= |iters| && |saved| == i
        invariant forall j :: 0 <= j < i ==> iters[j].pos <= |iters[j].window| && saved[j] == Save(iters[j])
      {
        assert Walks(db, iters[i]);
        saved := saved + [Save(iters[i])];
        i := i + 1;
      }
    }

    /** Rebuild one iterator by seeking to the key it stood on. */
    method RestartIter(saved: Saved, ghost it: Iter, ghost t: Track, ghost c: bool) returns (ok: bool, it': Iter)
      requires Indexed() && Walks(db, it) && saved == Save(it) && Tracks(it, t, c)
      modifies indexes.Values
      ensures Indexed() && ok && Walks(db, it') && Tracks(it', t, true) && Remaining(it') == Remaining(it)
    {
      hide IsWindow, Sorted, Sound, Tracks;
      it' := Iter([], 0, INVALID, INVALID, 0, false);
      ok := true;
      match saved {
        case Finished =>
        case At(pid, key, prefixSize, first) =>
          CurrentKey(db, it);
          var w := SeekFacts(pid, key, prefixSize);
          RestoredWindow(db, it, w);
          ok := w != [] && w[0].key == key;
          if ok {
            it' := Iter(w, 0, pid, w[0].id, prefixSize, first);
          }
      }
      RestoredTracks(it, t, c, it');
    }

    /** Suspend and resume: on the same facts every saved key is found again, and every iterator
        has the same facts left to deliver. */
    method CutAndResume() returns (ok: bool)
      requires Valid()
      modifies this`iters, this`cut, indexes.Values
      ensures Valid() && ok && plain == old(plain) && |iters| == |old(iters)| && forall i :: 0 <= i < |cut| ==> cut[i]
    {
      hide IsWindow, Sorted, Sound, Walks, Tracks, Save, DbOk;
      var saved := SaveState();
      var restored := [];
      var i := 0;
      while i < |saved|
        invariant i <= |saved| && |restored| == i && Indexed() && iters == old(iters) && cut == old(cut)
        invariant forall j :: 0 <= j < i ==> Walks(db, restored[j]) && Tracks(restored[j], plain[j], true)
      {
        var found, it := RestartIter(saved[i], iters[i], plain[i], cut[i]);
        if !found {
          return false;
        }
        restored := restored + [it];
        i := i + 1;
      }
      iters := restored;
      cut := seq(|iters|, _ => true);
      ok := true;
    }

    method Step(op: Op) returns (out: seq<Option<Entry>>)
      requires Valid()
      modifies this`iters, this`plain, this`cut, indexes.Values
      ensures Valid() && out == StepOutput(old(plain), op) && plain == StepStack(db, old(plain), op)
    {
      hide IsWindow, Matches, Sorted, Sound, Walks, Tracks, DbOk;
      out := [];
      match op {
        case SeekOp(pid, prefix) =>
          var _ := Seek(pid, prefix);
        case NextOp =>
          if iters != [] {
            var res := Next();
            out := [res];
          }
        case EndSeek(token) =>
          EndSeek(token);
        case Cut =>
          var _ := CutAndResume();
      }
    }

    /** Run a program that is suspended at any points: it sees what it would see without them. */
    method Run(ops: seq<Op>) returns (out: seq<Option<Entry>>)
      requires Valid() && plain == []
      modifies this`iters, this`plain, this`cut, indexes.Values
      ensures Valid() && out == Output(db, [], Uncut(ops)) && plain == StackAfter(db, [], Uncut(ops))
    {
      hide IsWindow, Matches, Sorted, Sound, AllTrack, StepStack, StepOutput, DbOk;
      out := [];
      var i := 0;
      assert ops[0..] == ops;
      while i < |ops|
        invariant i <= |ops| && Valid() && out + Output(db, plain, ops[i..]) == Output(db, [], ops)
        invariant StackAfter(db, plain, ops[i..]) == StackAfter(db, [], ops)
      {
        var more := Step(ops[i]);
        assert ops[i..][1..] == ops[i + 1..];
        out := out + more;
        i := i + 1;
      }
      CutsInvisible(db, [], ops);
    }

    /** The smallest case in which suspending matters: an iterator with facts that has not delivered
        any yet claims to stand on the first of them when it is restarted. */
    method SeekThenCut(pid: nat, prefix: seq<byte>)
      requires Valid() && Matches(db, pid, prefix) != []
      modifies this`iters, this`plain, this`cut, indexes.Values
      ensures Valid() && |iters| == |old(iters)| + 1 && |plain| == |iters|
      ensures plain[|iters| - 1] == Track(Matches(db, pid, prefix), INVALID)
      ensures iters[|iters| - 1].id == Matches(db, pid, prefix)[0].id != INVALID
    {
      hide IsWindow, Matches, Walks, Tracks, DbOk;
      var token := Seek(pid, prefix);
      var _ := CutAndResume();
      NotStarted(db, iters[token], plain[token]);
    }
  }

  lemma NotStarted(db: Db, it: Iter, t: Track)
    requires DbOk(db) && Walks(db, it) && Tracks(it, t, true) && t.rest != [] && t.id == INVALID
    ensures it.id == t.rest[0].id != INVALID
  {
    hide IsWindow;
    EntryValid(db, it, it.pos);
  }

  lemma Sought(db: Db, pid: nat, prefix: seq<byte>, it: Iter)
    requires Seeked(db, pid, prefix, |prefix|, it.window) && it == Iter(it.window, 0, pid, INVALID, |prefix|, true)
    ensures Walks(db, it) && Tracks(it, Track(it.window, INVALID), false) && Matches(db, pid, prefix) == it.window
  {
    hide IsWindow;
    MatchesIs(db, pid, prefix, it.window);
  }

  lemma TrackAt(db: Db, iters: seq<Iter>, plain: Stack, cut: seq<bool>, i: nat)
    requires AllTrack(db, iters, plain, cut) && i < |iters|
    ensures |plain| == |cut| == |iters| && Walks(db, iters[i]) && Tracks(iters[i], plain[i], cut[i])
    ensures iters[i].pos <= |iters[i].window|
  {
  }

  lemma TrackPush(db: Db, iters: seq<Iter>, plain: Stack, cut: seq<bool>, it: Iter, t: Track, c: bool)
    requires AllTrack(db, iters, plain, cut) && Walks(db, it) && Tracks(it, t, c)
    ensures AllTrack(db, iters + [it], plain + [t], cut + [c])
  {
    hide Walks, Tracks;
  }

  lemma TrackSet(db: Db, iters: seq<Iter>, plain: Stack, cut: seq<bool>, i: nat, it: Iter, t: Track, c: bool)
    requires AllTrack(db, iters, plain, cut) && i < |iters| && Walks(db, it) && Tracks(it, t, c)
    ensures |plain| == |cut| == |iters| && AllTrack(db, iters[i := it], plain[i := t], cut[i := c])
  {
    hide Walks, Tracks;
  }

  /** One step of an iterator: the first call only looks at the fact it stands on. */
  function Ahead(it: Iter): Iter
    requires it.pos <= |it.window|
  {
    var on := if it.first then it.(first := false) else if it.pos < |it.window| then it.(pos := it.pos + 1) else it;
    if on.pos < |on.window| then on.(id := on.window[on.pos].id) else on
  }

  lemma Moved(db: Db, it: Iter, t: Track, cut: bool)
    requires Walks(db, it) && Tracks(it, t, cut)
    ensures var on := Ahead(it);
            && Walks(db, on) && Tracks(on, NextTrack(t), cut && it.pos == |it.window|)
            && (on.pos < |on.window| <==> t.rest != []) && (t.rest != [] ==> on.window[on.pos] == t.rest[0])
  {
    hide HasWindow;
  }

  /* ------------------------------------------------------------ owners of derived facts */

  /** The owner set that one iterator contributes to a derived fact. */
  ghost function Contributed(id: nat, owner: nat -> Option<nat>): set<nat> {
    if id != INVALID && owner(id).Some? then {owner(id).value} else {}
  }

  /** All of them together. */
  ghost function OwnerSet(ids: seq<nat>, owner: nat -> Option<nat>): set<nat> {
    if ids == [] then {} else OwnerSet(ids[..|ids| - 1], owner) + Contributed(ids[|ids| - 1], owner)
  }

  lemma {:induction false} OwnerSetHas(ids: seq<nat>, owner: nat -> Option<nat>, o: nat)
    ensures o in OwnerSet(ids, owner) <==> exists i :: 0 <= i < |ids| && o in Contributed(ids[i], owner)
  {
    if ids != [] {
      var n := |ids| - 1;
      OwnerSetHas(ids[..n], owner, o);
      if i :| 0 <= i < |ids| && o in Contributed(ids[i], owner) {
        if i < n {
          assert ids[..n][i] == ids[i];
        }
      }
      if o in OwnerSet(ids[..n], owner) {
        var i :| 0 <= i < n && o in Contributed(ids[..n][i], owner);
        assert ids[..n][i] == ids[i];
      }
    }
  }

  ghost function Ids(iters: seq<Iter>): (r: seq<nat>)
    ensures |r| == |iters| && forall i :: 0 <= i < |r| ==> r[i] == iters[i].id
  {
    seq(|iters|, i requires 0 <= i < |iters| => iters[i].id)
  }

  ghost function PlainIds(plain: Stack): (r: seq<nat>)
    ensures |r| == |plain| && forall i :: 0 <= i < |r| ==> r[i] == plain[i].id
  {
    seq(|plain|, i requires 0 <= i < |plain| => plain[i].id)
  }

  /** Suspended before its first fact: the restarted iterator claims to stand on it. */
  predicate Unstarted(it: Iter, cut: bool) {
    cut && it.first
  }

  /** Suspended after its last fact: the restarted iterator stands on none. */
  predicate Ended(it: Iter, t: Track, cut: bool) {
    cut && !it.first && it.pos >= |it.window| && t.id != INVALID
  }

  /** What the three kinds of iterators give. */
  lemma PlacedOrNot(db: Db, it: Iter, t: Track, cut: bool)
    requires DbOk(db) && Walks(db, it) && Tracks(it, t, cut)
    ensures Unstarted(it, cut) ==> t.id == INVALID
    ensures Ended(it, t, cut) ==> it.id == INVALID
    ensures !Unstarted(it, cut) && !Ended(it, t, cut) ==> it.id == t.id
  {
    hide Walks, DbOk;
    IdExact(db, it, t, cut);
  }

  /** An iterator that stands where it should gives the owner o. */
  ghost predicate Placed(iters: seq<Iter>, plain: Stack, cut: seq<bool>, owner: nat -> Option<nat>, o: nat)
    requires |iters| == |plain| == |cut|
  {
    exists i :: 0 <= i < |iters| && !Unstarted(iters[i], cut[i]) && !Ended(iters[i], plain[i], cut[i]) && o in Contributed(iters[i].id, owner)
  }

  /** An iterator that was suspended before its first fact gives the owner o, of that fact. */
  ghost predicate Added(iters: seq<Iter>, cut: seq<bool>, owner: nat -> Option<nat>, o: nat)
    requires |iters| == |cut|
  {
    exists i :: 0 <= i < |iters| && Unstarted(iters[i], cut[i]) && o in Contributed(iters[i].id, owner)
  }

  /** An iterator that was suspended after its last fact would have given the owner o, of that fact. */
  ghost predicate Lost(iters: seq<Iter>, plain: Stack, cut: seq<bool>, owner: nat -> Option<nat>, o: nat)
    requires |iters| == |plain| == |cut|
  {
    exists i :: 0 <= i < |iters| && Ended(iters[i], plain[i], cut[i]) && o in Contributed(plain[i].id, owner)
  }

  lemma OwnersSplit(db: Db, iters: seq<Iter>, plain: Stack, cut: seq<bool>, owner: nat -> Option<nat>, o: nat)
    requires DbOk(db) && AllTrack(db, iters, plain, cut)
    ensures o in OwnerSet(Ids(iters), owner) <==> Placed(iters, plain, cut, owner, o) || Added(iters, cut, owner, o)
    ensures o in OwnerSet(PlainIds(plain), owner) <==> Placed(iters, plain, cut, owner, o) || Lost(iters, plain, cut, owner, o)
  {
    hide Walks, OwnerSet, DbOk, Tracks;
    forall i | 0 <= i < |iters|
      ensures Unstarted(iters[i], cut[i]) ==> plain[i].id == INVALID
      ensures Ended(iters[i], plain[i], cut[i]) ==> iters[i].id == INVALID
      ensures !Unstarted(iters[i], cut[i]) && !Ended(iters[i], plain[i], cut[i]) ==> iters[i].id == plain[i].id
    {
      PlacedOrNot(db, iters[i], plain[i], cut[i]);
    }
    OwnerSetHas(Ids(iters), owner, o);
    OwnerSetHas(PlainIds(plain), owner, o);
    if i :| 0 <= i < |iters| && o in Contributed(Ids(iters)[i], owner) {
      assert o in Contributed(iters[i].id, owner);
    }
    if i :| 0 <= i < |plain| && o in Contributed(PlainIds(plain)[i], owner) {
      assert o in Contributed(plain[i].id, owner);
    }
    if i :| 0 <= i < |iters| && (o in Contributed(iters[i].id, owner) || o in Contributed(plain[i].id, owner)) {
      assert Ids(iters)[i] == iters[i].id && PlainIds(plain)[i] == plain[i].id;
    }
  }

  /** A resumed query gives a derived fact the owners that the uninterrupted one gives it exactly
      when, apart from what well-placed iterators give, the first facts of iterators that have not
      started give what the last facts of iterators that have ended would have given. */
  lemma DerivedOwners(db: Db, iters: seq<Iter>, plain: Stack, cut: seq<bool>, owner: nat -> Option<nat>)
    requires DbOk(db) && AllTrack(db, iters, plain, cut)
    ensures OwnerSet(Ids(iters), owner) == OwnerSet(PlainIds(plain), owner) <==>
            forall o :: Placed(iters, plain, cut, owner, o) || (Added(iters, cut, owner, o) <==> Lost(iters, plain, cut, owner, o))
  {
    hide OwnerSet, DbOk, AllTrack, Placed, Added, Lost;
    assert |iters| == |plain| == |cut| by {
      TrackSizes(db, iters, plain, cut);
    }
    var a, b := OwnerSet(Ids(iters), owner), OwnerSet(PlainIds(plain), owner);
    forall o: nat
      ensures o in a <==> Placed(iters, plain, cut, owner, o) || Added(iters, cut, owner, o)
      ensures o in b <==> Placed(iters, plain, cut, owner, o) || Lost(iters, plain, cut, owner, o)
    {
      OwnersSplit(db, iters, plain, cut, owner, o);
    }
  }

  lemma TrackSizes(db: Db, iters: seq<Iter>, plain: Stack, cut: seq<bool>)
    requires AllTrack(db, iters, plain, cut)
    ensures |iters| == |plain| == |cut|
  {
  }

  /** Collect the owners of the facts that the iterators stand on. */
  method CollectOwners(iters: seq<Iter>, owner: nat -> Option<nat>) returns (owners: set<nat>)
    ensures owners == OwnerSet(Ids(iters), owner)
    ensures forall o :: o in owners <==> exists i :: 0 <= i < |iters| && iters[i].id != INVALID && owner(iters[i].id) == Some(o)
  {
    owners := {};
    var n := 0;
    assert Ids(iters)[..0] == [];
    while n < |iters|
      invariant n <= |iters| && owners == OwnerSet(Ids(iters)[..n], owner)
      invariant forall o :: o in owners <==> exists i :: 0 <= i < n && iters[i].id != INVALID && owner(iters[i].id) == Some(o)
    {
      assert Ids(iters)[..n + 1][..n] == Ids(iters)[..n];
      if iters[n].id != INVALID {
        var o := owner(iters[n].id);
        if o.Some? {
          owners := owners + {o.value};
        }
      }
      n := n + 1;
    }
    assert Ids(iters)[..n] == Ids(iters);
  }
}
