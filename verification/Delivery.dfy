/** What a query is given. */
module Delivery {
  // The facts that seeks deliver, in order, with other seeks in between and however often the query
  // is suspended.
  import opened Pointers
  import opened Bytes
  import opened Seek
  import opened Suspend

  function Nexts(n: nat): seq<Op> {
    seq(n, _ => NextOp)
  }

  /** The first n deliveries from the facts w: these in order, and nothing from then on. */
  function Delivered(w: seq<Entry>, n: nat): (r: seq<Option<Entry>>)
    ensures |r| == n && forall i :: 0 <= i < n ==> r[i] == if i < |w| then Some(w[i]) else None
  {
    seq(n, i => if 0 <= i < |w| then Some(w[i]) else None)
  }

  lemma {:induction false} NextsDeliver(db: Db, s: Stack, w: seq<Entry>, id: nat, n: nat)
    ensures Output(db, s + [Track(w, id)], Nexts(n)) == Delivered(w, n)
    decreases n
  {
    hide StepStack, StepOutput, Delivered;
    if n == 0 {
      assert Nexts(0) == [] && Delivered(w, 0) == [];
    } else {
      var top := s + [Track(w, id)];
      assert Nexts(n)[0] == NextOp && Nexts(n)[1..] == Nexts(n - 1);
      TopMoves(db, s, w, id);
      var rest := if w == [] then [] else w[1..];
      NextsDeliver(db, s, rest, NextTrack(Track(w, id)).id, n - 1);
      assert Delivered(w, n) == [if w == [] then None else Some(w[0])] + Delivered(rest, n - 1);
    }
  }

  /** A seek and n calls of next deliver the facts of the window, each once and in order. */
  lemma SeekDelivers(db: Db, s: Stack, pid: nat, prefix: seq<byte>, w: seq<Entry>, n: nat)
    requires Seeked(db, pid, prefix, |prefix|, w)
    ensures Output(db, s, [SeekOp(pid, prefix)] + Nexts(n)) == Delivered(w, n)
  {
    hide Seeked, Matches;
    MatchesIs(db, pid, prefix, w);
    var ops := [SeekOp(pid, prefix)] + Nexts(n);
    assert ops[0] == SeekOp(pid, prefix) && ops[1..] == Nexts(n);
    NextsDeliver(db, s, w, INVALID, n);
  }

  /* ------------------------------------------------------------ seeks inside of seeks */

  /** With n iterators at first, the operations neither move nor end the lowest d. */
  predicate Above(n: nat, ops: seq<Op>, d: nat)
    decreases |ops|
  {
    ops == [] ||
    match ops[0]
    case SeekOp(_, _) => Above(n + 1, ops[1..], d)
    case NextOp => n > d && Above(n, ops[1..], d)
    case EndSeek(token) => token >= d && Above(if token < n then token else n, ops[1..], d)
    case Cut => Above(n, ops[1..], d)
  }

  /** Iterators below are as they were. */
  lemma {:induction false} OuterKept(db: Db, s: Stack, ops: seq<Op>, d: nat)
    requires d <= |s| && Above(|s|, ops, d)
    ensures d <= |StackAfter(db, s, ops)| && StackAfter(db, s, ops)[..d] == s[..d]
    decreases |ops|
  {
    hide Matches;
    if ops != [] {
      OuterKept(db, StepStack(db, s, ops[0]), ops[1..], d);
    }
  }

  lemma {:induction false} OutputConcat(db: Db, s: Stack, a: seq<Op>, b: seq<Op>)
    ensures Output(db, s, a + b) == Output(db, s, a) + Output(db, StackAfter(db, s, a), b)
    ensures StackAfter(db, s, a + b) == StackAfter(db, StackAfter(db, s, a), b)
    decreases |a|
  {
    hide StepStack, StepOutput;
    if a == [] {
      assert a + b == b;
    } else {
      assert (a + b)[1..] == a[1..] + b;
      OutputConcat(db, StepStack(db, s, a[0]), a[1..], b);
    }
  }

  /** One call of next per block, and after each block an end of all seeks it has begun. */
  function Rounds(blocks: seq<seq<Op>>, token: nat): seq<Op> {
    if blocks == [] then [] else ([NextOp] + blocks[0] + [EndSeek(token)]) + Rounds(blocks[1..], token)
  }

  /** What such a program is given: before each block the next fact of w, or nothing. */
  ghost function RoundsOutput(db: Db, s: Stack, w: seq<Entry>, id: nat, blocks: seq<seq<Op>>): seq<Option<Entry>>
    decreases |blocks|
  {
    if blocks == [] then []
    else if w == [] then [None] + Output(db, s + [Track([], id)], blocks[0]) + RoundsOutput(db, s, [], id, blocks[1..])
    else [Some(w[0])] + Output(db, s + [Track(w[1..], w[0].id)], blocks[0]) + RoundsOutput(db, s, w[1..], w[0].id, blocks[1..])
  }

  /** One round: the outer iterator has moved by one fact, and nothing else has changed. */
  lemma OneRound(db: Db, s: Stack, w: seq<Entry>, id: nat, block: seq<Op>)
    requires Above(|s| + 1, block, |s| + 1)
    ensures var t := if w == [] then Track([], id) else Track(w[1..], w[0].id);
            var round := [NextOp] + block + [EndSeek(|s| + 1)];
            && StackAfter(db, s + [Track(w, id)], round) == s + [t]
            && Output(db, s + [Track(w, id)], round) == [if w == [] then None else Some(w[0])] + Output(db, s + [t], block)
  {
    hide Above, Output, StackAfter, StepStack, StepOutput;
    var t := if w == [] then Track([], id) else Track(w[1..], w[0].id);
    var top, next := s + [Track(w, id)], s + [t];
    TopMoves(db, s, w, id);
    SingleOp(db, top, NextOp);
    OutputConcat(db, top, [NextOp], block);
    OutputConcat(db, top, [NextOp] + block, [EndSeek(|s| + 1)]);
    OuterKept(db, next, block, |s| + 1);
    var after := StackAfter(db, next, block);
    SingleOp(db, after, EndSeek(|s| + 1));
    InnerEnds(db, after, |s| + 1);
    assert next[..|s| + 1] == next;
  }

  lemma TopMoves(db: Db, s: Stack, w: seq<Entry>, id: nat)
    ensures var t := if w == [] then Track([], id) else Track(w[1..], w[0].id);
            && StepStack(db, s + [Track(w, id)], NextOp) == s + [t]
            && StepOutput(s + [Track(w, id)], NextOp) == [if w == [] then None else Some(w[0])]
  {
  }

  lemma InnerEnds(db: Db, s: Stack, d: nat)
    requires d <= |s|
    ensures StepStack(db, s, EndSeek(d)) == s[..d] && StepOutput(s, EndSeek(d)) == []
  {
    assert d == |s| ==> s[..d] == s;
  }

  lemma SingleOp(db: Db, s: Stack, op: Op)
    ensures StackAfter(db, s, [op]) == StepStack(db, s, op) && Output(db, s, [op]) == StepOutput(s, op)
  {
    hide StepStack, StepOutput;
    assert [op][1..] == [];
  }

  lemma {:induction false} RoundsDeliver(db: Db, s: Stack, w: seq<Entry>, id: nat, blocks: seq<seq<Op>>)
    requires forall i :: 0 <= i < |blocks| ==> Above(|s| + 1, blocks[i], |s| + 1)
    ensures Output(db, s + [Track(w, id)], Rounds(blocks, |s| + 1)) == RoundsOutput(db, s, w, id, blocks)
    decreases |blocks|
  {
    hide StepStack, StepOutput, Above, Output, StackAfter;
    if blocks == [] {
      NoOps(db, s + [Track(w, id)]);
    } else {
      var round := [NextOp] + blocks[0] + [EndSeek(|s| + 1)];
      OutputConcat(db, s + [Track(w, id)], round, Rounds(blocks[1..], |s| + 1));
      OneRound(db, s, w, id, blocks[0]);
      if w == [] {
        RoundsDeliver(db, s, [], id, blocks[1..]);
      } else {
        RoundsDeliver(db, s, w[1..], w[0].id, blocks[1..]);
      }
    }
  }

  lemma NoOps(db: Db, s: Stack)
    ensures Output(db, s, []) == []
  {
  }

  /** The outer seek goes on where it was: whatever seeks are begun, moved and ended between its calls
      of next, call number i delivers fact number i of its window. */
  lemma NestedDelivers(db: Db, s: Stack, pid: nat, prefix: seq<byte>, w: seq<Entry>, blocks: seq<seq<Op>>)
    requires Seeked(db, pid, prefix, |prefix|, w) && forall i :: 0 <= i < |blocks| ==> Above(|s| + 1, blocks[i], |s| + 1)
    ensures Output(db, s, [SeekOp(pid, prefix)] + Rounds(blocks, |s| + 1)) == RoundsOutput(db, s, w, INVALID, blocks)
  {
    hide Seeked, Matches, Above;
    MatchesIs(db, pid, prefix, w);
    var ops := [SeekOp(pid, prefix)] + Rounds(blocks, |s| + 1);
    assert ops[0] == SeekOp(pid, prefix) && ops[1..] == Rounds(blocks, |s| + 1);
    RoundsDeliver(db, s, w, INVALID, blocks);
  }

  /** A seek with n calls of next, suspended any number of times at any points: the facts with the
      prefix, in the order of their keys. */
  method RunSeek(ex: Executor, pid: nat, prefix: seq<byte>, n: nat, ops: seq<Op>) returns (out: seq<Option<Entry>>, w: seq<Entry>)
    requires ex.Valid() && ex.plain == [] && Uncut(ops) == [SeekOp(pid, prefix)] + Nexts(n)
    modifies ex`iters, ex`plain, ex`cut, ex.indexes.Values
    ensures ex.Valid() && Seeked(ex.db, pid, prefix, |prefix|, w)
    ensures |out| == n && forall i :: 0 <= i < n ==> out[i] == if i < |w| then Some(w[i]) else None
  {
    hide Seeked, AllTrack, DbOk, IsWindow, Output;
    w := ex.SeekFacts(pid, prefix, |prefix|);
    out := ex.Run(ops);
    SeekDelivers(ex.db, [], pid, prefix, w, n);
  }
}
