/** Building compressed sets: appending a value, and the subset-detecting union. */
module SetU32 {
  import opened Blocks
  import opened SetVectors
  import opened SparseMerge
  import opened SetCursors

  /* ------------------------------------------------------------ one-block vectors */

  lemma OneBlockBlks(b: Vecs)
    requires OneBlockVec(b)
    ensures BlkSeq(b) == [Blk(b.hdrs[0].id, BitsOf(b))]
    ensures BlockVec(b, CursorAt(b, 0)) == b
    ensures Canonical(b) ==> WF(b)
  {
    OneBlock(b);
    assert b.hdrs[..0] == [] && b.hdrs == [b.hdrs[0]];
    NextAt(b, CursorAt(b, 0));
    assert b.sparse[..|b.sparse|] == b.sparse && b.dense[..|b.dense|] == b.dense;
    assert BlockVec(b, CursorAt(b, 0)) == b;
  }

  function SparseVec(id: nat, bytes: seq<nat>): Vecs {
    Vecs([Hdr(id, |bytes|, Sparse)], [], bytes)
  }

  function DenseVec(id: nat, bits: set<nat>): Vecs {
    Vecs([Hdr(id, 0, Dense)], [bits], [])
  }

  function FullVec(id: nat): Vecs {
    Vecs([Hdr(id, 0, Full)], [], [])
  }

  lemma SparseCanonical(id: nat, bytes: seq<nat>)
    requires id < 0x100_0000 && 1 <= |bytes| < 32 && Ascending(bytes)
    requires forall i :: 0 <= i < |bytes| ==> bytes[i] < 256
    ensures OneBlockVec(SparseVec(id, bytes)) && Canonical(SparseVec(id, bytes))
    ensures BitsOf(SparseVec(id, bytes)) == SetOf(bytes)
  {
    SumOne(Hdr(id, |bytes|, Sparse));
  }

  lemma DenseCanonical(id: nat, bits: set<nat>)
    requires id < 0x100_0000 && 32 <= |bits| < 256 && Bits256(bits)
    ensures OneBlockVec(DenseVec(id, bits)) && Canonical(DenseVec(id, bits))
    ensures BitsOf(DenseVec(id, bits)) == bits
  {
    SumOne(Hdr(id, 0, Dense));
  }

  lemma FullCanonical(id: nat)
    requires id < 0x100_0000
    ensures OneBlockVec(FullVec(id)) && Canonical(FullVec(id)) && BitsOf(FullVec(id)) == AllBits()
  {
    SumOne(Hdr(id, 0, Full));
  }

  /** Appending one canonical block behind smaller ids. */
  lemma SnocBlock(v: Vecs, b: Vecs)
    requires WF(v) && OneBlockVec(b) && Canonical(b)
    requires forall i :: 0 <= i < |v.hdrs| ==> v.hdrs[i].id < b.hdrs[0].id
    ensures WF(Concat(v, b))
    ensures BlkSeq(Concat(v, b)) == BlkSeq(v) + [Blk(b.hdrs[0].id, BitsOf(b))]
    ensures Members(Concat(v, b)) == Members(v) + Elems([Blk(b.hdrs[0].id, BitsOf(b))])
  {
    OneBlockBlks(b);
    ConcatWF(v, b);
    ConcatBlocks(v, b);
  }

  lemma BitsBelow256(bits: set<nat>)
    requires Bits256(bits)
    ensures bits <= AllBits() && |bits| <= 256
    ensures bits != AllBits() ==> |bits| < 256
  {
    AllBitsCard(256);
    SubsetCard(bits, AllBits());
  }

  /** Well-formed vectors are some well-formed vectors followed by their last block. */
  lemma SplitLast(v: Vecs) returns (p: Vecs, b: Vecs)
    requires WF(v) && |v.hdrs| > 0
    ensures v == Concat(p, b) && WF(p) && OneBlockVec(b) && Canonical(b)
    ensures forall i :: 0 <= i < |p.hdrs| ==> p.hdrs[i].id < b.hdrs[0].id
    ensures Members(v) == Members(p) + Elems([Blk(b.hdrs[0].id, BitsOf(b))])
  {
    var k := CursorAt(v, |v.hdrs| - 1);
    Unsnoc(v);
    EndAt(v);
    SliceBlocks(v, Begin(v), k);
    p, b := Slice(v, Begin(v), k), BlockVec(v, k);
    SnocBlock(p, b);
  }

  lemma UnionAssoc(a: set<nat>, b: set<nat>, c: set<nat>)
    ensures a + b + c == a + (b + c)
  {
  }

  lemma OneElem(id: nat, bit: nat)
    ensures Elems([Blk(id, {bit})]) == {id * 256 + bit}
  {
    var l := [Blk(id, {bit})];
    assert bit in l[0].bits;
  }

  lemma ElemsPlus(id: nat, bits: set<nat>, bit: nat)
    ensures Elems([Blk(id, bits + {bit})]) == Elems([Blk(id, bits)]) + {id * 256 + bit}
  {
    ElemsMerge(id, bits, {bit});
    OneElem(id, bit);
  }

  /** A block put back with one more bit adds one member. */
  lemma GrowLast(p: Vecs, nb: Vecs, bits: set<nat>, bit: nat)
    requires WF(p) && OneBlockVec(nb) && Canonical(nb) && BitsOf(nb) == bits + {bit}
    requires forall i :: 0 <= i < |p.hdrs| ==> p.hdrs[i].id < nb.hdrs[0].id
    ensures WF(Concat(p, nb))
    ensures Members(Concat(p, nb)) ==
            Members(p) + Elems([Blk(nb.hdrs[0].id, bits)]) + {nb.hdrs[0].id * 256 + bit}
  {
    hide Canonical, Elems, BlkSeq, Concat, BitsOf;
    var id := nb.hdrs[0].id;
    SnocBlock(p, nb);
    ElemsPlus(id, bits, bit);
    UnionAssoc(Members(p), Elems([Blk(id, bits)]), {id * 256 + bit});
  }

  lemma BlockBelow(id: nat, bits: set<nat>, value: nat)
    requires bits != {} && Bits256(bits) && forall x :: x in Elems([Blk(id, bits)]) ==> x <= value
    ensures id <= value / 256
    ensures id == value / 256 ==> forall b :: b in bits ==> b <= value % 256
  {
    var l := [Blk(id, bits)];
    forall k | k in bits ensures id * 256 + k <= value {
      assert k in l[0].bits;
      assert id * 256 + k in Elems(l);
    }
    var k :| k in bits;
    assert id * 256 + k <= value;
  }

  lemma UnionBits(a: Vecs, b: Vecs)
    requires OneBlockVec(a) && Canonical(a) && OneBlockVec(b) && Canonical(b)
    ensures var u := BitsOf(a) + BitsOf(b);
            && Bits256(u) && |u| >= |BitsOf(a)| && |u| >= |BitsOf(b)| && u == BitsOf(b) + BitsOf(a)
            && (a.hdrs[0].kind == Full || b.hdrs[0].kind == Full ==> u == AllBits())
            && (a.hdrs[0].kind == Dense || b.hdrs[0].kind == Dense ==> |u| >= 32)
  {
    var u := BitsOf(a) + BitsOf(b);
    BitsCard(a);
    BitsCard(b);
    SubsetCard(BitsOf(a), u);
    SubsetCard(BitsOf(b), u);
    BitsBelow256(u);
  }

  /** All headers so far lie before headers k.. of the other set. */
  predicate Before(hs: seq<Hdr>, other: seq<Hdr>, k: nat) {
    forall i, j :: 0 <= i < |hs| && k <= j < |other| ==> hs[i].id < other[j].id
  }

  lemma BeforeAfter(hs: seq<Hdr>, src: seq<Hdr>, a: nat, c: nat, other: seq<Hdr>, k: nat)
    requires a <= c <= |src| && k < |other| && Before(hs, src, a) && Before(hs, other, k)
    requires forall i, j :: 0 <= i < j < |src| ==> src[i].id < src[j].id
    requires forall i, j :: 0 <= i < j < |other| ==> other[i].id < other[j].id
    requires forall i :: a <= i < c ==> src[i].id < other[k].id
    ensures Before(hs + src[a..c], src, c) && Before(hs + src[a..c], other, k)
  {
    var all, n := hs + src[a..c], |hs|;
    forall i | n <= i < |all| ensures all[i] == src[a + i - n] {
    }
    forall j | k <= j < |other| ensures other[k].id <= other[j].id {
    }
  }

  /* What moving blocks from the operands into the result does to the denoted sets. */

  lemma MoveLeft(m: set<nat>, s: seq<Blk>, a: nat, b: nat, t: seq<Blk>)
    requires a <= b <= |s|
    ensures m + Elems(s[a..b]) + Elems(s[b..]) + Elems(t) == m + Elems(s[a..]) + Elems(t)
  {
    assert s[a..b] + s[b..] == s[a..];
    ElemsConcat(s[a..b], s[b..]);
    UnionAssoc(m, Elems(s[a..b]), Elems(s[b..]));
  }

  lemma MoveRight(m: set<nat>, s: seq<Blk>, t: seq<Blk>, a: nat, b: nat)
    requires a <= b <= |t|
    ensures m + Elems(t[a..b]) + Elems(s) + Elems(t[b..]) == m + Elems(s) + Elems(t[a..])
  {
    assert t[a..b] + t[b..] == t[a..];
    ElemsConcat(t[a..b], t[b..]);
    Rearrange(m, Elems(s), Elems(t[a..b]), Elems(t[b..]));
  }

  lemma Rearrange(m: set<nat>, s: set<nat>, t: set<nat>, u: set<nat>)
    ensures m + t + s + u == m + s + (t + u)
  {
  }

  lemma MoveBoth(m: set<nat>, s: seq<Blk>, i: nat, t: seq<Blk>, j: nat)
    requires i < |s| && j < |t|
    ensures m + (Elems([s[i]]) + Elems([t[j]])) + Elems(s[i + 1..]) + Elems(t[j + 1..]) ==
            m + Elems(s[i..]) + Elems(t[j..])
  {
    assert [s[i]] + s[i + 1..] == s[i..] && [t[j]] + t[j + 1..] == t[j..];
    ElemsConcat([s[i]], s[i + 1..]);
    ElemsConcat([t[j]], t[j + 1..]);
    Regroup(m, Elems([s[i]]), Elems([t[j]]), Elems(s[i + 1..]), Elems(t[j + 1..]));
  }

  lemma Regroup(m: set<nat>, a: set<nat>, b: set<nat>, c: set<nat>, d: set<nat>)
    ensures m + (a + b) + c + d == m + (a + c) + (b + d)
  {
  }

  predicate FitsSparse(m: nat, n: nat) {
    m + n < 32
  }

  /* ------------------------------------------------------------ the set under construction */

  class SetU32 {
    var hdrs: seq<Hdr>
    var dense: seq<set<nat>>
    var sparse: seq<nat>

    constructor ()
      ensures V() == EMPTY
    {
      hdrs, dense, sparse := [], [], [];
    }

    constructor Copy(v: Vecs)
      ensures V() == v
    {
      hdrs, dense, sparse := v.hdrs, v.dense, v.sparse;
    }

    function V(): Vecs
      reads this
    {
      Vecs(hdrs, dense, sparse)
    }

    /** Append a block given by its bits: full when all 256 are there, else dense. */
    method AppendBits(id: nat, w: set<nat>) returns (ghost nb: Vecs)
      requires id < 0x100_0000 && Bits256(w) && 32 <= |w|
      modifies this
      ensures V() == Concat(old(V()), nb) && OneBlockVec(nb) && Canonical(nb)
      ensures nb.hdrs[0].id == id && BitsOf(nb) == w
    {
      BitsBelow256(w);
      if w == AllBits() {
        hdrs := hdrs + [Hdr(id, 0, Full)];
        nb := FullVec(id);
        FullCanonical(id);
      } else {
        hdrs := hdrs + [Hdr(id, 0, Dense)];
        dense := dense + [w];
        nb := DenseVec(id, w);
        DenseCanonical(id, w);
      }
    }

    /** Merge two sparse blocks byte by byte while both have bytes left and the block is small. */
    method MergeBytes(ls: seq<nat>, rs: seq<nat>) returns (i: nat, j: nat, n: nat, ghost out: seq<nat>)
      requires SparseBytes(ls) && SparseBytes(rs)
      modifies this
      ensures V() == Concat(old(V()), Vecs([], [], out)) && n == |out| && Merging(ls, rs, out, i, j)
      ensures i == |ls| || j == |rs| || n == 31
    {
      out := [];
      i, j, n := 0, 0, 0;
      while i < |ls| && j < |rs| && FitsSparse(n, 1)
        invariant n == |out| <= 31 && Merging(ls, rs, out, i, j)
        invariant V() == Concat(old(V()), Vecs([], [], out))
        decreases |ls| - i + |rs| - j
      {
        var l, r := ls[i], rs[j];
        MergingStep(ls, rs, out, i, j);
        out := out + [if l <= r then l else r];
        sparse := sparse + [if l <= r then l else r];
        n := n + 1;
        if l <= r {
          i := i + 1;
        }
        if r <= l {
          j := j + 1;
        }
      }
    }

    /** The union of two sparse blocks; it becomes dense when the bytes no longer fit. */
    method MergeSparse(id: nat, ls: seq<nat>, rs: seq<nat>) returns (ghost nb: Vecs)
      requires id < 0x100_0000 && SparseBytes(ls) && SparseBytes(rs)
      modifies this
      ensures V() == Concat(old(V()), nb) && OneBlockVec(nb) && Canonical(nb)
      ensures nb.hdrs[0].id == id && BitsOf(nb) == SetOf(ls) + SetOf(rs)
    {
      ghost var v := V();
      var i, j, n;
      ghost var out;
      i, j, n, out := MergeBytes(ls, rs);
      var ln, rn := |ls| - i, |rs| - j;
      if FitsSparse(n, ln + rn) {
        MergeFits(ls, rs, out, i, j);
        nb := FinishSparse(id, n, ls[i..], rs[j..], v, out);
      } else {
        MergeOverflows(ls, rs, out, i, j);
        MergedSet(ls, rs, out, i, j);
        nb := FinishDense(id, n, ls[i..], rs[j..], v, out);
      }
    }

    method FinishSparse(id: nat, n: nat, ls: seq<nat>, rs: seq<nat>, ghost v: Vecs, ghost out: seq<nat>)
      returns (ghost nb: Vecs)
      requires id < 0x100_0000 && n == |out| && SparseBytes(out + ls + rs) && V() == Concat(v, Vecs([], [], out))
      modifies this
      ensures V() == Concat(v, nb) && OneBlockVec(nb) && Canonical(nb)
      ensures nb.hdrs[0].id == id && BitsOf(nb) == SetOf(out + ls + rs)
    {
      hdrs := hdrs + [Hdr(id, n + |ls| + |rs|, Sparse)];
      sparse := sparse + ls + rs;
      nb := SparseVec(id, out + ls + rs);
      assert sparse == v.sparse + nb.sparse;
      SparseCanonical(id, nb.sparse);
    }

    method FinishDense(id: nat, n: nat, ls: seq<nat>, rs: seq<nat>, ghost v: Vecs, ghost out: seq<nat>)
      returns (ghost nb: Vecs)
      requires id < 0x100_0000 && n == |out| && V() == Concat(v, Vecs([], [], out))
      requires var w := SetOf(out) + SetOf(ls) + SetOf(rs); 32 <= |w| < 256 && Bits256(w)
      modifies this
      ensures V() == Concat(v, nb) && OneBlockVec(nb) && Canonical(nb)
      ensures nb.hdrs[0].id == id && BitsOf(nb) == SetOf(out) + SetOf(ls) + SetOf(rs)
    {
      assert sparse[|sparse| - n..] == out && sparse[..|sparse| - n] == v.sparse;
      var w := SetOf(sparse[|sparse| - n..]) + SetOf(ls) + SetOf(rs);
      hdrs := hdrs + [Hdr(id, 0, Dense)];
      dense := dense + [w];
      sparse := sparse[..|sparse| - n];
      nb := DenseVec(id, w);
      DenseCanonical(id, w);
    }

    /** The union of two blocks with the same id, by their kinds. */
    method AppendMergeBlock(left: Vecs, right: Vecs) returns (ghost nb: Vecs)
      requires OneBlockVec(left) && Canonical(left) && OneBlockVec(right) && Canonical(right)
      requires left.hdrs[0].id == right.hdrs[0].id
      modifies this
      ensures V() == Concat(old(V()), nb) && OneBlockVec(nb) && Canonical(nb)
      ensures nb.hdrs[0].id == left.hdrs[0].id && BitsOf(nb) == BitsOf(left) + BitsOf(right)
    {
      OneBlock(left);
      OneBlock(right);
      var id := left.hdrs[0].id;
      UnionBits(left, right);
      match left.hdrs[0].kind
      case Sparse =>
        match right.hdrs[0].kind {
          case Sparse => nb := MergeSparse(id, left.sparse, right.sparse);
          case Dense => nb := AppendBits(id, right.dense[0] + SetOf(left.sparse));
          case Full => nb := AppendFull(right.hdrs[0]);
        }
      case Dense =>
        match right.hdrs[0].kind {
          case Sparse => nb := AppendBits(id, left.dense[0] + SetOf(right.sparse));
          case Dense => nb := AppendBits(id, left.dense[0] + right.dense[0]);
          case Full => nb := AppendFull(right.hdrs[0]);
        }
      case Full => nb := AppendFull(left.hdrs[0]);
    }

    method AppendFull(h: Hdr) returns (ghost nb: Vecs)
      requires h.kind == Full && h.len == 0 && h.id < 0x100_0000
      modifies this
      ensures V() == Concat(old(V()), nb) && OneBlockVec(nb) && Canonical(nb)
      ensures nb.hdrs[0].id == h.id && BitsOf(nb) == AllBits()
    {
      hdrs := hdrs + [h];
      nb := FullVec(h.id);
      FullCanonical(h.id);
    }

    /** Append the blocks of another set between two cursors. */
    method AppendRange(src: Vecs, start: Cursor, finish: Cursor)
      requires WF(V()) && WF(src) && At(src, start) && At(src, finish) && start.h <= finish.h
      requires forall i, j :: 0 <= i < |hdrs| && start.h <= j < finish.h ==> hdrs[i].id < src.hdrs[j].id
      modifies this
      ensures WF(V()) && hdrs == old(hdrs) + src.hdrs[start.h..finish.h]
      ensures Members(V()) == old(Members(V())) + Elems(BlkSeq(src)[start.h..finish.h])
    {
      ghost var v := V();
      AtFits(src, start, finish);
      SliceBlocks(src, start, finish);
      hdrs := hdrs + src.hdrs[start.h..finish.h];
      dense := dense + src.dense[start.d..finish.d];
      sparse := sparse + src.sparse[start.s..finish.s];
      assert V() == Concat(v, Slice(src, start, finish));
      ConcatWF(v, Slice(src, start, finish));
    }

    /** Append the union of the two blocks under the cursors. */
    method AppendBoth(lv: Vecs, left: Cursor, rv: Vecs, right: Cursor)
      requires WF(V()) && WF(lv) && WF(rv) && At(lv, left) && At(rv, right)
      requires left.h < |lv.hdrs| && right.h < |rv.hdrs| && lv.hdrs[left.h].id == rv.hdrs[right.h].id
      requires forall i :: 0 <= i < |hdrs| ==> hdrs[i].id < lv.hdrs[left.h].id
      modifies this
      ensures WF(V())
      ensures |hdrs| == old(|hdrs|) + 1 && hdrs[..|hdrs| - 1] == old(hdrs)
      ensures hdrs[|hdrs| - 1].id == lv.hdrs[left.h].id
      ensures Members(V()) == old(Members(V())) + (Elems([BlkSeq(lv)[left.h]]) + Elems([BlkSeq(rv)[right.h]]))
    {
      ghost var v := V();
      assert left == CursorAt(lv, left.h) && right == CursorAt(rv, right.h);
      var lb, rb := BlockVec(lv, left), BlockVec(rv, right);
      ghost var nb := AppendMergeBlock(lb, rb);
      SnocBlock(v, nb);
      assert BlkSeq(lv)[left.h] == BlkAt(lv, left.h) && BlkSeq(rv)[right.h] == BlkAt(rv, right.h);
      ElemsMerge(nb.hdrs[0].id, BitsOf(lb), BitsOf(rb));
    }

    /** Copy the blocks of one set up to the next block of the other. */
    method TakeUpTo(src: Vecs, start: Cursor, other: Vecs, k: nat) returns (c: Cursor)
      requires WF(V()) && WF(src) && WF(other) && At(src, start)
      requires start.h < |src.hdrs| && k < |other.hdrs| && src.hdrs[start.h].id < other.hdrs[k].id
      requires Before(hdrs, src.hdrs, start.h) && Before(hdrs, other.hdrs, k)
      modifies this
      ensures WF(V()) && At(src, c) && start.h < c.h <= |src.hdrs|
      ensures Before(hdrs, src.hdrs, c.h) && Before(hdrs, other.hdrs, k)
      ensures Members(V()) == old(Members(V())) + Elems(BlkSeq(src)[start.h..c.h])
    {
      EndAt(src);
      c := LowerBound(src, start, End(src), other.hdrs[k].id);
      BeforeAfter(hdrs, src.hdrs, start.h, c.h, other.hdrs, k);
      AppendRange(src, start, c);
    }

    /** One round of the merge loop. */
    method MergeRound(lv: Vecs, left0: Cursor, rv: Vecs, right0: Cursor) returns (left: Cursor, right: Cursor)
      requires WF(V()) && WF(lv) && WF(rv) && At(lv, left0) && At(rv, right0)
      requires left0.h < |lv.hdrs| && right0.h < |rv.hdrs|
      requires Before(hdrs, lv.hdrs, left0.h) && Before(hdrs, rv.hdrs, right0.h)
      modifies this
      ensures WF(V()) && At(lv, left) && At(rv, right)
      ensures left0.h <= left.h && right0.h <= right.h && left0.h + right0.h < left.h + right.h
      ensures Before(hdrs, lv.hdrs, left.h) && Before(hdrs, rv.hdrs, right.h)
      ensures Members(V()) + Elems(BlkSeq(lv)[left.h..]) + Elems(BlkSeq(rv)[right.h..]) ==
              old(Members(V())) + Elems(BlkSeq(lv)[left0.h..]) + Elems(BlkSeq(rv)[right0.h..])
    {
      ghost var s, t, m := BlkSeq(lv), BlkSeq(rv), Members(V());
      left, right := left0, right0;
      if lv.hdrs[left.h].id < rv.hdrs[right.h].id {
        left := TakeUpTo(lv, left0, rv, right0.h);
        MoveLeft(m, s, left0.h, left.h, t[right0.h..]);
      } else if rv.hdrs[right.h].id < lv.hdrs[left.h].id {
        right := TakeUpTo(rv, right0, lv, left0.h);
        MoveRight(m, s[left0.h..], t, right0.h, right.h);
      } else {
        AppendBoth(lv, left0, rv, right0);
        MoveBoth(m, s, left0.h, t, right0.h);
        NextAt(lv, left0);
        NextAt(rv, right0);
        left, right := Next(lv, left0), Next(rv, right0);
      }
    }

    /** Append the union of what is left of two sets. */
    method AppendMerge(lv: Vecs, left0: Cursor, rv: Vecs, right0: Cursor)
      requires WF(V()) && WF(lv) && WF(rv) && At(lv, left0) && At(rv, right0)
      requires Before(hdrs, lv.hdrs, left0.h) && Before(hdrs, rv.hdrs, right0.h)
      modifies this
      ensures WF(V())
      ensures Members(V()) == old(Members(V())) + Elems(BlkSeq(lv)[left0.h..]) + Elems(BlkSeq(rv)[right0.h..])
    {
      ghost var s, t := BlkSeq(lv), BlkSeq(rv);
      var left, right := left0, right0;
      while left.h < |lv.hdrs| && right.h < |rv.hdrs|
        invariant At(lv, left) && At(rv, right) && WF(V())
        invariant Before(hdrs, lv.hdrs, left.h) && Before(hdrs, rv.hdrs, right.h)
        invariant Members(V()) + Elems(s[left.h..]) + Elems(t[right.h..]) ==
                  old(Members(V())) + Elems(s[left0.h..]) + Elems(t[right0.h..])
        decreases |lv.hdrs| - left.h + |rv.hdrs| - right.h
      {
        left, right := MergeRound(lv, left, rv, right);
      }
      AppendRests(lv, left, rv, right);
    }

    /** Copy what is left when one of the two sets is used up. */
    method AppendRests(lv: Vecs, left: Cursor, rv: Vecs, right: Cursor)
      requires WF(V()) && WF(lv) && WF(rv) && At(lv, left) && At(rv, right)
      requires left.h == |lv.hdrs| || right.h == |rv.hdrs|
      requires Before(hdrs, lv.hdrs, left.h) && Before(hdrs, rv.hdrs, right.h)
      modifies this
      ensures WF(V())
      ensures Members(V()) == old(Members(V())) + Elems(BlkSeq(lv)[left.h..]) + Elems(BlkSeq(rv)[right.h..])
    {
      EndAt(lv);
      EndAt(rv);
      ghost var s, t := BlkSeq(lv), BlkSeq(rv);
      assert s[left.h..|s|] == s[left.h..] && t[right.h..|t|] == t[right.h..];
      hide WF, Members, Elems, BlkSeq, Exact;
      AppendRange(lv, left, End(lv));
      AppendRange(rv, right, End(rv));
    }

    /** Append a value that is at least as large as every member. */
    method Append(value: nat)
      requires WF(V()) && value < 0x1_0000_0000 && forall x :: x in Members(V()) ==> x <= value
      modifies this
      ensures WF(V()) && Members(V()) == old(Members(V())) + {value}
    {
      hide WF, Members, Elems, Canonical, Exact, BitsOf;
      var block, bit := value / 256, value % 256;
      if hdrs == [] {
        AppendBlock(block, bit);
      } else {
        ghost var p, b := SplitLast(V());
        BitsCard(b);
        BlockBelow(b.hdrs[0].id, BitsOf(b), value);
        if hdrs[|hdrs| - 1].id == block {
          AppendToLast(p, b, bit);
        } else {
          AppendBlock(block, bit);
        }
      }
    }

    method AppendBlock(block: nat, bit: nat)
      requires WF(V()) && block < 0x100_0000 && bit < 256
      requires |hdrs| > 0 ==> hdrs[|hdrs| - 1].id < block
      modifies this
      ensures WF(V()) && Members(V()) == old(Members(V())) + {block * 256 + bit}
    {
      ghost var v := V();
      hdrs := hdrs + [Hdr(block, 1, Sparse)];
      sparse := sparse + [bit];
      assert V() == Concat(v, SparseVec(block, [bit]));
      SparseCanonical(block, [bit]);
      SnocBlock(v, SparseVec(block, [bit]));
      assert SetOf([bit]) == {bit};
      OneElem(block, bit);
    }

    method AppendToLast(ghost p: Vecs, ghost b: Vecs, bit: nat)
      requires V() == Concat(p, b) && WF(p) && OneBlockVec(b) && Canonical(b) && bit < 256
      requires forall i :: 0 <= i < |p.hdrs| ==> p.hdrs[i].id < b.hdrs[0].id
      requires forall k :: k in BitsOf(b) ==> k <= bit
      modifies this
      ensures WF(V())
      ensures Members(V()) == Members(p) + Elems([Blk(b.hdrs[0].id, BitsOf(b))]) + {b.hdrs[0].id * 256 + bit}
    {
      hide WF, Members, Elems, Canonical;
      ghost var nb := b;
      match hdrs[|hdrs| - 1].kind {
        case Sparse => nb := AppendToSparse(p, b, bit);
        case Dense => nb := AppendToDense(p, b, bit);
        case Full =>
      }
      GrowLast(p, nb, BitsOf(b), bit);
    }

    method AppendToSparse(ghost p: Vecs, ghost b: Vecs, bit: nat) returns (ghost nb: Vecs)
      requires V() == Concat(p, b) && OneBlockVec(b) && Canonical(b) && bit < 256
      requires b.hdrs[0].kind == Sparse
      requires forall k :: k in BitsOf(b) ==> k <= bit
      modifies this
      ensures V() == Concat(p, nb) && OneBlockVec(nb) && Canonical(nb)
      ensures nb.hdrs[0].id == b.hdrs[0].id && BitsOf(nb) == BitsOf(b) + {bit}
    {
      OneBlock(b);
      var n := |hdrs| - 1;
      var h := hdrs[n];
      if bit == sparse[|sparse| - 1] {
        nb := b;
        assert b.sparse[|b.sparse| - 1] == bit;
        assert bit in SetOf(b.sparse);
      } else {
        BytesBelow(b.sparse, bit);
        if FitsSparse(h.len, 1) {
          hdrs := hdrs[n := Hdr(h.id, h.len + 1, Sparse)];
          sparse := sparse + [bit];
          nb := SparseVec(h.id, b.sparse + [bit]);
          SparseCanonical(h.id, b.sparse + [bit]);
        } else {
          nb := DensifyLast(p, b, bit);
        }
      }
    }

    /** The 32nd element of a sparse block turns it into a dense one. */
    method DensifyLast(ghost p: Vecs, ghost b: Vecs, bit: nat) returns (ghost nb: Vecs)
      requires V() == Concat(p, b) && OneBlockVec(b) && Canonical(b) && bit < 256
      requires b.hdrs[0].kind == Sparse && b.hdrs[0].len == 31 && bit !in SetOf(b.sparse)
      modifies this
      ensures V() == Concat(p, nb) && OneBlockVec(nb) && Canonical(nb)
      ensures nb.hdrs[0].id == b.hdrs[0].id && BitsOf(nb) == BitsOf(b) + {bit}
    {
      OneBlock(b);
      var n := |hdrs| - 1;
      var h := hdrs[n];
      var bytes := sparse[|sparse| - h.len..];
      assert bytes == b.sparse;
      var w := SetOf(bytes) + {bit};
      DensifyCard(b, bit);
      dense := dense + [w];
      sparse := sparse[..|sparse| - h.len];
      hdrs := hdrs[n := Hdr(h.id, 0, Dense)];
      nb := DenseVec(h.id, w);
      DenseCanonical(h.id, w);
      assert b.dense == [] && sparse == p.sparse && hdrs == p.hdrs + nb.hdrs;
    }

    method AppendToDense(ghost p: Vecs, ghost b: Vecs, bit: nat) returns (ghost nb: Vecs)
      requires V() == Concat(p, b) && OneBlockVec(b) && Canonical(b) && bit < 256
      requires b.hdrs[0].kind == Dense
      modifies this
      ensures V() == Concat(p, nb) && OneBlockVec(nb) && Canonical(nb)
      ensures nb.hdrs[0].id == b.hdrs[0].id && BitsOf(nb) == BitsOf(b) + {bit}
    {
      OneBlock(b);
      var n, d := |hdrs| - 1, |dense| - 1;
      var h := hdrs[n];
      ghost var w := b.dense[0] + {bit};
      SubsetCard(b.dense[0], w);
      BitsBelow256(w);
      dense := dense[d := dense[d] + {bit}];
      if dense[d] == AllBits() {
        dense := dense[..d];
        hdrs := hdrs[n := Hdr(h.id, 0, Full)];
        nb := FullVec(h.id);
        FullCanonical(h.id);
      } else {
        nb := DenseVec(h.id, w);
        DenseCanonical(h.id, w);
      }
    }

    /** The union of two sets.  When one contains the other, the answer is that operand; only
        otherwise is the union built, in this (empty) set. */
    method Merge(left: Vecs, right: Vecs, sameObject: bool) returns (r: MergeResult)
      requires V() == EMPTY && WF(left) && WF(right) && (sameObject ==> left == right)
      modifies this
      ensures r == IsLeft ==> Members(right) <= Members(left)
      ensures r == IsRight ==> Members(left) <= Members(right)
      ensures r == IsResult ==> WF(V()) && Members(V()) == Members(left) + Members(right)
      ensures r == IsResult <==> !(Members(left) <= Members(right)) && !(Members(right) <= Members(left))
    {
      hide *;
      if sameObject {
        r := IsLeft;
      } else {
        var swapped, c, d;
        ghost var p;
        swapped, c, d, p := SkipSubset(left, right);
        if swapped {
          var covered := MergeSkipped(right, c, left, d, p);
          r := if covered then IsRight else IsResult;
        } else {
          var covered := MergeSkipped(left, c, right, d, p);
          r := if covered then IsLeft else IsResult;
        }
      }
    }

    method MergeSkipped(sup: Vecs, c: Cursor, sub: Vecs, d: Cursor, ghost p: nat) returns (covered: bool)
      requires V() == EMPTY && WF(sup) && WF(sub) && At(sup, c) && At(sub, d)
      requires Skipped(BlkSeq(sup), BlkSeq(sub), c.h, d.h)
      requires d.h < |sub.hdrs| ==>
                 && !Covered(BlkSeq(sub)[d.h], BlkSeq(sup))
                 && p < |sup.hdrs| && !Covered(BlkSeq(sup)[p], BlkSeq(sub))
      modifies this
      ensures covered ==> Members(sub) <= Members(sup)
      ensures !covered ==> && WF(V()) && Members(V()) == Members(sup) + Members(sub)
                           && !(Members(sub) <= Members(sup)) && !(Members(sup) <= Members(sub))
    {
      WFOrdered(sup);
      WFOrdered(sub);
      if d.h == |sub.hdrs| {
        CoveredSuffices(BlkSeq(sub), BlkSeq(sup));
        return true;
      }
      UncoveredWitness(BlkSeq(sub), d.h, BlkSeq(sup));
      UncoveredWitness(BlkSeq(sup), p, BlkSeq(sub));
      CopyAndMerge(sup, c, sub, d);
      return false;
    }

    method CopyAndMerge(sup: Vecs, c: Cursor, sub: Vecs, d: Cursor)
      requires V() == EMPTY && WF(sup) && WF(sub) && At(sup, c) && At(sub, d)
      requires Skipped(BlkSeq(sup), BlkSeq(sub), c.h, d.h)
      modifies this
      ensures WF(V()) && Members(V()) == Members(sup) + Members(sub)
    {
      EndAt(sup);
      EmptyWF();
      SkippedBefore(sup, sub, c.h, d.h);
      AppendRange(sup, Begin(sup), c);
      assert hdrs == sup.hdrs[..c.h] && BlkSeq(sup)[0..c.h] == BlkSeq(sup)[..c.h];
      AppendMerge(sup, c, sub, d);
      SkippedUnion(BlkSeq(sup), BlkSeq(sub), c.h, d.h);
    }
  }

  lemma BlkIds(v: Vecs)
    requires Exact(v)
    ensures forall k :: 0 <= k < |v.hdrs| ==> BlkSeq(v)[k].id == v.hdrs[k].id
  {
    forall k | 0 <= k < |v.hdrs| ensures BlkSeq(v)[k].id == v.hdrs[k].id {
      assert BlkSeq(v)[k] == BlkAt(v, k);
    }
  }

  lemma SkippedHdrs(s: seq<Blk>, t: seq<Blk>, hs: seq<Hdr>, ht: seq<Hdr>, i: nat, j: nat)
    requires Skipped(s, t, i, j) && |hs| == |s| && |ht| == |t|
    requires forall k :: 0 <= k < |s| ==> s[k].id == hs[k].id
    requires forall k :: 0 <= k < |t| ==> t[k].id == ht[k].id
    requires forall a, b :: 0 <= a < b < |hs| ==> hs[a].id < hs[b].id
    ensures Before(hs[..i], hs, i) && Before(hs[..i], ht, j)
  {
    forall a, b | 0 <= a < i && j <= b < |ht| ensures hs[..i][a].id < ht[b].id {
      assert s[a].id < t[b].id;
    }
  }

  lemma SkippedBefore(sup: Vecs, sub: Vecs, i: nat, j: nat)
    requires WF(sup) && WF(sub) && Skipped(BlkSeq(sup), BlkSeq(sub), i, j)
    ensures Before(sup.hdrs[..i], sup.hdrs, i) && Before(sup.hdrs[..i], sub.hdrs, j)
  {
    BlkIds(sup);
    BlkIds(sub);
    SkippedHdrs(BlkSeq(sup), BlkSeq(sub), sup.hdrs, sub.hdrs, i, j);
  }

  datatype MergeResult = IsLeft | IsRight | IsResult

  lemma EmptyWF()
    ensures WF(EMPTY) && Members(EMPTY) == {}
  {
    assert BlkSeq(EMPTY) == [];
  }

  lemma SkippedUnion(s: seq<Blk>, t: seq<Blk>, i: nat, j: nat)
    requires Skipped(s, t, i, j)
    ensures Elems(s[..i]) + Elems(s[i..]) + Elems(t[j..]) == Elems(s) + Elems(t)
  {
    assert s[..i] + s[i..] == s && t[..j] + t[j..] == t;
    ElemsConcat(s[..i], s[i..]);
    ElemsConcat(t[..j], t[j..]);
    forall b | 0 <= b < j ensures Covered(t[..j][b], s) {
      assert t[..j][b] == t[b];
    }
    CoveredSuffices(t[..j], s);
    Absorb(Elems(s), Elems(t[..j]), Elems(t[j..]));
  }

  lemma Absorb(a: set<nat>, b: set<nat>, c: set<nat>)
    requires b <= a
    ensures a + c == a + (b + c)
  {
  }

  lemma DensifyCard(b: Vecs, bit: nat)
    requires OneBlockVec(b) && Canonical(b) && bit < 256
    requires b.hdrs[0].kind == Sparse && b.hdrs[0].len == 31 && bit !in SetOf(b.sparse)
    ensures |SetOf(b.sparse) + {bit}| == 32 && Bits256(SetOf(b.sparse) + {bit})
  {
    OneBlock(b);
    AscendingCard(b.sparse);
  }

  lemma BytesBelow(s: seq<nat>, bit: nat)
    requires Ascending(s) && |s| > 0 && s[|s| - 1] != bit && forall b :: b in SetOf(s) ==> b <= bit
    ensures Ascending(s + [bit]) && bit !in SetOf(s) && SetOf(s + [bit]) == SetOf(s) + {bit}
    ensures forall i :: 0 <= i < |s| ==> s[i] <= bit
  {
    assert forall i :: 0 <= i < |s| ==> s[i] in SetOf(s);
  }
}
