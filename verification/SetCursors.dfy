/** Reading compressed sets through cursors: comparing blocks, finding a block, and skipping the
    part of one set that another set contains. */
module SetCursors {
  import opened Blocks
  import opened SetVectors

  /* ------------------------------------------------------------ comparing blocks */

  /** std::includes on two ascending byte ranges. */
  function SortedIncludes(a: seq<nat>, b: seq<nat>): bool {
    if b == [] then true
    else if a == [] || b[0] < a[0] then false
    else if a[0] < b[0] then SortedIncludes(a[1..], b)
    else SortedIncludes(a[1..], b[1..])
  }

  lemma {:induction false} SortedIncludesIsSubset(a: seq<nat>, b: seq<nat>)
    requires Ascending(a) && Ascending(b)
    ensures SortedIncludes(a, b) <==> SetOf(b) <= SetOf(a)
    decreases |a|
  {
    if b == [] {
    } else if a == [] || b[0] < a[0] {
      assert b[0] in SetOf(b) && b[0] !in SetOf(a);
    } else if a[0] < b[0] {
      SortedIncludesIsSubset(a[1..], b);
      assert a == [a[0]] + a[1..];
      assert a[0] !in SetOf(b);
    } else {
      SortedIncludesIsSubset(a[1..], b[1..]);
      assert a == [a[0]] + a[1..] && b == [b[0]] + b[1..];
      assert SetOf(a) == {a[0]} + SetOf(a[1..]) && SetOf(b) == {b[0]} + SetOf(b[1..]);
      assert a[0] !in SetOf(b[1..]) && a[0] !in SetOf(a[1..]);
    }
  }

  predicate OneBlockVec(b: Vecs) {
    |b.hdrs| == 1 && Exact(b)
  }

  /** Equality of two blocks, by header and then by the data of its kind. */
  predicate BlockEq(a: Vecs, b: Vecs)
    requires OneBlockVec(a) && OneBlockVec(b)
  {
    OneBlock(a);
    OneBlock(b);
    a.hdrs[0] == b.hdrs[0]
    && match a.hdrs[0].kind
       case Sparse => a.sparse == b.sparse
       case Dense => a.dense[0] == b.dense[0]
       case Full => true
  }

  predicate BlockIncludes(a: Vecs, b: Vecs)
    requires OneBlockVec(a) && OneBlockVec(b)
  {
    OneBlock(a);
    OneBlock(b);
    a.hdrs[0].id == b.hdrs[0].id
    && match (a.hdrs[0].kind, b.hdrs[0].kind)
       case (Sparse, bk) => bk == Sparse && SortedIncludes(a.sparse, b.sparse)
       case (Dense, Sparse) => forall i :: 0 <= i < |b.sparse| ==> b.sparse[i] in a.dense[0]
       case (Dense, Dense) => b.dense[0] <= a.dense[0]
       case (Dense, Full) => false
       case (Full, _) => true
  }

  lemma SubsetCard(a: set<nat>, b: set<nat>)
    requires a <= b
    ensures |a| <= |b|
    ensures |a| == |b| ==> a == b
  {
    assert b == a + (b - a);
  }

  lemma BlockEqIsEquality(a: Vecs, b: Vecs)
    requires OneBlockVec(a) && OneBlockVec(b) && Canonical(a) && Canonical(b)
    ensures BlockEq(a, b) <==> a.hdrs[0].id == b.hdrs[0].id && BitsOf(a) == BitsOf(b)
  {
    OneBlock(a);
    OneBlock(b);
    if a.hdrs[0].id == b.hdrs[0].id && BitsOf(a) == BitsOf(b) {
      CanonicalUnique(a, b);
    }
  }

  lemma BlockIncludesIsSubset(a: Vecs, b: Vecs)
    requires OneBlockVec(a) && OneBlockVec(b) && Canonical(a) && Canonical(b)
    ensures BlockIncludes(a, b) <==> a.hdrs[0].id == b.hdrs[0].id && BitsOf(b) <= BitsOf(a)
  {
    OneBlock(a);
    OneBlock(b);
    BitsCard(a);
    BitsCard(b);
    if BitsOf(b) <= BitsOf(a) {
      SubsetCard(BitsOf(b), BitsOf(a));
    }
    match (a.hdrs[0].kind, b.hdrs[0].kind)
    case (Sparse, Sparse) => SortedIncludesIsSubset(a.sparse, b.sparse);
    case (Dense, Sparse) =>
      assert forall x :: x in SetOf(b.sparse) <==> x in b.sparse;
    case _ =>
  }

  /** What comparing the blocks under two cursors decides, in terms of the block lists. */
  lemma CompareBlocks(l: Vecs, a: Cursor, r: Vecs, b: Cursor)
    requires WF(l) && WF(r) && At(l, a) && At(r, b) && a.h < |l.hdrs| && b.h < |r.hdrs|
    ensures BlockEq(BlockVec(l, a), BlockVec(r, b)) <==> BlkSeq(l)[a.h] == BlkSeq(r)[b.h]
    ensures BlockIncludes(BlockVec(l, a), BlockVec(r, b)) <==>
            BlkSeq(l)[a.h].id == BlkSeq(r)[b.h].id && BlkSeq(r)[b.h].bits <= BlkSeq(l)[a.h].bits
  {
    assert a == CursorAt(l, a.h) && b == CursorAt(r, b.h);
    assert BlkSeq(l)[a.h] == BlkAt(l, a.h) && BlkSeq(r)[b.h] == BlkAt(r, b.h);
    BlockEqIsEquality(BlockVec(l, a), BlockVec(r, b));
    BlockIncludesIsSubset(BlockVec(l, a), BlockVec(r, b));
  }

  /* ------------------------------------------------------------ finding a block */

  /** Lengths of the dense and sparse data of the headers first..last. */
  method Lengths(hdrs: seq<Hdr>, first: nat, last: nat) returns (d: nat, s: nat)
    requires first <= last <= |hdrs|
    ensures d == DenseSum(hdrs[first..last]) && s == SparseSum(hdrs[first..last])
  {
    d, s := 0, 0;
    var i := first;
    while i < last
      invariant first <= i <= last
      invariant d == DenseSum(hdrs[first..i]) && s == SparseSum(hdrs[first..i])
    {
      assert hdrs[first..i + 1] == hdrs[first..i] + [hdrs[i]];
      SumsConcat(hdrs[first..i], [hdrs[i]]);
      SumOne(hdrs[i]);
      d := d + DenseLen(hdrs[i]);
      s := s + hdrs[i].len;
      i := i + 1;
    }
  }

  /** Binary search for the first header at or after block id. */
  method SearchHdr(hdrs: seq<Hdr>, start: nat, finish: nat, id: nat) returns (pos: nat)
    requires start <= finish <= |hdrs|
    requires forall i, j :: 0 <= i < j < |hdrs| ==> hdrs[i].id < hdrs[j].id
    ensures start <= pos <= finish
    ensures forall i :: start <= i < pos ==> hdrs[i].id < id
    ensures forall i :: pos <= i < finish ==> id <= hdrs[i].id
  {
    var lo, hi := start, finish;
    while lo < hi
      invariant start <= lo <= hi <= finish
      invariant forall i :: start <= i < lo ==> hdrs[i].id < id
      invariant forall i :: hi <= i < finish ==> id <= hdrs[i].id
    {
      var mid := (lo + hi) / 2;
      if hdrs[mid].id < id {
        lo := mid + 1;
      } else {
        hi := mid;
      }
    }
    pos := lo;
  }

  /** The cursor of the first block at or after id, computing the data offsets from whichever
      end is nearer. */
  method LowerBound(v: Vecs, start: Cursor, finish: Cursor, id: nat) returns (c: Cursor)
    requires Exact(v) && At(v, start) && At(v, finish) && start.h <= finish.h
    requires forall i, j :: 0 <= i < j < |v.hdrs| ==> v.hdrs[i].id < v.hdrs[j].id
    ensures At(v, c) && start.h <= c.h <= finish.h
    ensures forall i :: start.h <= i < c.h ==> v.hdrs[i].id < id
    ensures forall i :: c.h <= i < finish.h ==> id <= v.hdrs[i].id
  {
    var pos := SearchHdr(v.hdrs, start.h, finish.h, id);
    ghost var k := CursorAt(v, pos);
    AtFits(v, start, k);
    AtFits(v, k, finish);
    if pos - start.h <= finish.h - pos {
      var d, s := Lengths(v.hdrs, start.h, pos);
      c := Cursor(pos, start.d + d, start.s + s);
    } else {
      var d, s := Lengths(v.hdrs, pos, finish.h);
      c := Cursor(pos, finish.d - d, finish.s - s);
    }
    assert c == k;
  }

  /* ------------------------------------------------------------ skipping a subset */

  /** Some block among the first i of s covers b. */
  ghost predicate CoveredBy(b: Blk, s: seq<Blk>, i: nat) {
    i <= |s| && exists a :: 0 <= a < i && s[a].id == b.id && b.bits <= s[a].bits
  }

  /** The first j blocks of t are covered by the first i blocks of s, and the rest of t lies
      behind those. */
  ghost predicate Skipped(s: seq<Blk>, t: seq<Blk>, i: nat, j: nat) {
    && i <= |s| && j <= |t|
    && (forall b :: 0 <= b < j ==> CoveredBy(t[b], s, i))
    && (forall a, b :: 0 <= a < i && j <= b < |t| ==> s[a].id < t[b].id)
  }

  lemma CoveredMore(b: Blk, s: seq<Blk>, i: nat, i': nat)
    requires CoveredBy(b, s, i) && i <= i' <= |s|
    ensures CoveredBy(b, s, i') && Covered(b, s)
  {
  }

  lemma SkipEqual(s: seq<Blk>, t: seq<Blk>, p: nat)
    requires Ordered(s) && Ordered(t) && p <= |s| && p <= |t| && forall i :: 0 <= i < p ==> s[i] == t[i]
    ensures Skipped(s, t, p, p)
  {
    forall b | 0 <= b < p ensures CoveredBy(t[b], s, p) {
      hide Ordered;
      assert s[b] == t[b];
    }
    forall a, b | 0 <= a < p && p <= b < |t| ensures s[a].id < t[b].id {
      assert s[a] == t[a];
    }
  }

  lemma SkipBoth(s: seq<Blk>, t: seq<Blk>, i: nat, j: nat)
    requires Ordered(s) && Ordered(t) && Skipped(s, t, i, j) && i < |s| && j < |t|
    requires s[i].id == t[j].id && t[j].bits <= s[i].bits
    ensures Skipped(s, t, i + 1, j + 1)
  {
    forall b | 0 <= b < j + 1 ensures CoveredBy(t[b], s, i + 1) {
      hide Ordered;
      if b < j {
        CoveredMore(t[b], s, i, i + 1);
      }
    }
  }

  lemma SkipJump(s: seq<Blk>, t: seq<Blk>, i: nat, j: nat, i': nat)
    requires Ordered(s) && Ordered(t) && Skipped(s, t, i, j) && i <= i' <= |s| && j < |t|
    requires forall a :: i <= a < i' ==> s[a].id < t[j].id
    ensures Skipped(s, t, i', j)
  {
    forall b | 0 <= b < j ensures CoveredBy(t[b], s, i') {
      hide Ordered;
      CoveredMore(t[b], s, i, i');
    }
    forall a, b | 0 <= a < i' && j <= b < |t| ensures s[a].id < t[b].id {
      assert t[j].id <= t[b].id;
    }
  }

  /** Block j of t has no counterpart in s. */
  ghost predicate Stuck(s: seq<Blk>, t: seq<Blk>, i: nat, j: nat)
    requires i <= |s| && j < |t|
  {
    i == |s| || t[j].id < s[i].id || (s[i].id == t[j].id && !(t[j].bits <= s[i].bits))
  }

  lemma StuckUncovered(s: seq<Blk>, t: seq<Blk>, i: nat, j: nat)
    requires Ordered(s) && Ordered(t) && i <= |s| && j < |t| && Stuck(s, t, i, j)
    requires forall a :: 0 <= a < i ==> s[a].id < t[j].id
    ensures !Covered(t[j], s)
  {
  }

  /** Skip the common prefix, decide which set can still be the larger one, then skip the part
      of the other that it covers.  The ghost p is a block of the larger candidate that the
      other set does not cover, when there is anything left to merge. */
  method SkipSubset(l: Vecs, r: Vecs) returns (swapped: bool, left: Cursor, right: Cursor, ghost p: nat)
    requires WF(l) && WF(r)
    ensures var sup, sub := if swapped then r else l, if swapped then l else r;
            && At(sup, left) && At(sub, right) && Skipped(BlkSeq(sup), BlkSeq(sub), left.h, right.h)
            && (right.h < |sub.hdrs| ==>
                  && !Covered(BlkSeq(sub)[right.h], BlkSeq(sup))
                  && p < |sup.hdrs| && !Covered(BlkSeq(sup)[p], BlkSeq(sub)))
  {
    left, right := SkipPrefix(l, r);
    swapped, left, right, p := ChooseSuperset(l, r, left, right);
    if swapped {
      left, right := SkipCovered(r, l, left, right);
    } else {
      left, right := SkipCovered(l, r, left, right);
    }
  }

  method SkipCovered(sup: Vecs, sub: Vecs, left0: Cursor, right0: Cursor) returns (left: Cursor, right: Cursor)
    requires WF(sup) && WF(sub) && At(sup, left0) && At(sub, right0)
    requires Skipped(BlkSeq(sup), BlkSeq(sub), left0.h, right0.h)
    ensures At(sup, left) && At(sub, right) && Skipped(BlkSeq(sup), BlkSeq(sub), left.h, right.h)
    ensures right0.h <= right.h
    ensures right.h < |sub.hdrs| ==> !Covered(BlkSeq(sub)[right.h], BlkSeq(sup))
  {
    ghost var s, t := BlkSeq(sup), BlkSeq(sub);
    WFOrdered(sup);
    WFOrdered(sub);
    EndAt(sup);
    left, right := left0, right0;
    while left.h < |sup.hdrs| && right.h < |sub.hdrs|
      invariant At(sup, left) && At(sub, right) && Skipped(s, t, left.h, right.h) && right0.h <= right.h
      decreases |sup.hdrs| - left.h + |sub.hdrs| - right.h
    {
      CompareBlocks(sup, left, sub, right);
      if sup.hdrs[left.h].id < sub.hdrs[right.h].id {
        var c := LowerBound(sup, left, End(sup), sub.hdrs[right.h].id);
        SkipJump(s, t, left.h, right.h, c.h);
        left := c;
      } else if BlockIncludes(BlockVec(sup, left), BlockVec(sub, right)) {
        SkipBoth(s, t, left.h, right.h);
        NextAt(sup, left);
        NextAt(sub, right);
        left, right := Next(sup, left), Next(sub, right);
      } else {
        break;
      }
    }
    if right.h < |sub.hdrs| {
      StuckUncovered(s, t, left.h, right.h);
    }
  }

  /** The cursors behind the common prefix of two sets. */
  method SkipPrefix(l: Vecs, r: Vecs) returns (left: Cursor, right: Cursor)
    requires WF(l) && WF(r)
    ensures At(l, left) && At(r, right) && left.h == right.h
    ensures forall i :: 0 <= i < left.h ==> BlkSeq(l)[i] == BlkSeq(r)[i]
    ensures left.h < |l.hdrs| && right.h < |r.hdrs| ==> BlkSeq(l)[left.h] != BlkSeq(r)[right.h]
  {
    EndAt(l);
    EndAt(r);
    left, right := Begin(l), Begin(r);
    while left.h < |l.hdrs| && right.h < |r.hdrs|
      invariant At(l, left) && At(r, right) && left.h == right.h
      invariant forall i :: 0 <= i < left.h ==> BlkSeq(l)[i] == BlkSeq(r)[i]
      decreases |l.hdrs| - left.h
    {
      hide WF, Members;
      CompareBlocks(l, left, r, right);
      if !BlockEq(BlockVec(l, left), BlockVec(r, right)) {
        break;
      }
      NextAt(l, left);
      NextAt(r, right);
      left, right := Next(l, left), Next(r, right);
    }
  }

  /** Behind the common prefix: which of the two sets can still contain the other? */
  method ChooseSuperset(l: Vecs, r: Vecs, left0: Cursor, right0: Cursor)
    returns (swapped: bool, left: Cursor, right: Cursor, ghost p: nat)
    requires WF(l) && WF(r) && At(l, left0) && At(r, right0) && left0.h == right0.h
    requires forall i :: 0 <= i < left0.h ==> BlkSeq(l)[i] == BlkSeq(r)[i]
    requires left0.h < |l.hdrs| && right0.h < |r.hdrs| ==> BlkSeq(l)[left0.h] != BlkSeq(r)[right0.h]
    ensures var sup, sub := if swapped then r else l, if swapped then l else r;
            && At(sup, left) && At(sub, right) && Skipped(BlkSeq(sup), BlkSeq(sub), left.h, right.h)
            && (right.h < |sub.hdrs| ==> p < |sup.hdrs| && !Covered(BlkSeq(sup)[p], BlkSeq(sub)))
  {
    ghost var s, t := BlkSeq(l), BlkSeq(r);
    WFOrdered(l);
    WFOrdered(r);
    hide WF, Covered, Ordered, BlkSeq;
    p := left0.h;
    left, right, swapped := left0, right0, false;
    SkipEqual(s, t, p);
    SkipEqual(t, s, p);
    if right.h < |r.hdrs| {
      if left.h == |l.hdrs| {
        swapped := true;
        StuckUncovered(s, t, p, p);
      } else {
        swapped, left, right := ChooseByBlock(l, r, left0, right0);
      }
    }
    if swapped {
      left, right := right, left;
    }
  }

  method ChooseByBlock(l: Vecs, r: Vecs, left0: Cursor, right0: Cursor)
    returns (swapped: bool, left: Cursor, right: Cursor)
    requires WF(l) && WF(r) && At(l, left0) && At(r, right0) && left0.h == right0.h
    requires Ordered(BlkSeq(l)) && Ordered(BlkSeq(r))
    requires Skipped(BlkSeq(l), BlkSeq(r), left0.h, left0.h) && Skipped(BlkSeq(r), BlkSeq(l), left0.h, left0.h)
    requires left0.h < |l.hdrs| && right0.h < |r.hdrs| && BlkSeq(l)[left0.h] != BlkSeq(r)[right0.h]
    ensures At(l, left) && At(r, right)
    ensures swapped ==> && Skipped(BlkSeq(r), BlkSeq(l), right.h, left.h)
                        && !Covered(BlkSeq(r)[left0.h], BlkSeq(l))
    ensures !swapped ==> && Skipped(BlkSeq(l), BlkSeq(r), left.h, right.h)
                         && !Covered(BlkSeq(l)[left0.h], BlkSeq(r))
  {
    assert Exact(l) && Exact(r);
    hide WF;
    ghost var s, t, p := BlkSeq(l), BlkSeq(r), left0.h;
    left, right := left0, right0;
    CompareBlocks(r, right, l, left);
    BlkAtId(l, p);
    BlkAtId(r, p);
    if r.hdrs[right.h].id < l.hdrs[left.h].id {
      swapped := true;
      StuckUncovered(s, t, p, p);
    } else if BlockIncludes(BlockVec(r, right), BlockVec(l, left)) {
      SkipBoth(t, s, p, p);
      NextAt(l, left);
      NextAt(r, right);
      left, right := Next(l, left), Next(r, right);
      swapped := true;
      StuckUncovered(s, t, p, p);
    } else {
      swapped := false;
      StuckUncovered(t, s, p, p);
    }
  }

  lemma BlkAtId(v: Vecs, i: nat)
    requires Exact(v) && i < |v.hdrs|
    ensures BlkSeq(v)[i].id == v.hdrs[i].id
  {
    assert BlkSeq(v)[i] == BlkAt(v, i);
  }
}
