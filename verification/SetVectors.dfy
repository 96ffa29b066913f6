/** The three-vector representation of sets of 32-bit numbers. */
module SetVectors {
  // One header per non-empty block, the bytes of the sparse blocks and the 256-bit sets of the
  // dense blocks, each in block order.  A 256-bit set is modelled by the set of its members.
  // The vectors of an operand that the code takes by const reference are a value of type Vecs; a
  // set that is built in place is an object of class SetU32.
  import opened Blocks

  datatype Kind = Sparse | Dense | Full

  datatype Hdr = Hdr(id: nat, len: nat, kind: Kind)

  /* ------------------------------------------------------------ header words */

  function KindCode(k: Kind): nat {
    match k case Sparse => 0 case Dense => 1 case Full => 2
  }

  predicate HdrFits(h: Hdr) {
    h.id < 0x100_0000 && h.len < 64
  }

  /** The 32-bit word of a header: id in the upper 24 bits, then 6 bits of length, 2 of kind. */
  function HdrWord(h: Hdr): nat
    requires HdrFits(h)
  {
    h.id * 256 + h.len * 4 + KindCode(h.kind)
  }

  function DenseLen(h: Hdr): nat {
    if h.kind == Dense then 1 else 0
  }

  lemma DivMod256(q: nat, r: nat)
    requires r < 256
    ensures (q * 256 + r) / 256 == q
  {
  }

  lemma DivMod4(q: nat, r: nat)
    requires r < 4
    ensures (q * 4 + r) / 4 == q && (q * 4 + r) % 4 == r && (q * 4 + r) % 2 == r % 2
  {
  }

  lemma DivMod64(q: nat, r: nat)
    requires r < 64
    ensures (q * 64 + r) % 64 == r
  {
  }

  /** The branch-free accessors read the header back, and comparing raw words against a shifted
      block id compares block ids. */
  lemma HdrLayout(h: Hdr, id: nat)
    requires HdrFits(h)
    ensures var w := HdrWord(h);
            && w < 0x1_0000_0000
            && w / 256 == h.id
            && w / 4 % 64 == h.len
            && w % 4 == KindCode(h.kind)
            && w % 2 == DenseLen(h)
            && (w < id * 256 <==> h.id < id)
  {
    var w, k := HdrWord(h), KindCode(h.kind);
    var q := h.id * 64 + h.len;
    assert w == q * 4 + k;
    DivMod256(h.id, h.len * 4 + k);
    DivMod4(q, k);
    DivMod64(h.id, h.len);
  }

  /* ------------------------------------------------------------ vectors and cursors */

  datatype Vecs = Vecs(hdrs: seq<Hdr>, dense: seq<set<nat>>, sparse: seq<nat>)

  function Concat(a: Vecs, b: Vecs): Vecs {
    Vecs(a.hdrs + b.hdrs, a.dense + b.dense, a.sparse + b.sparse)
  }

  const EMPTY := Vecs([], [], [])

  /** Total length of the sparse data of some headers. */
  function SparseSum(hs: seq<Hdr>): nat {
    if hs == [] then 0 else SparseSum(hs[..|hs| - 1]) + hs[|hs| - 1].len
  }

  function DenseSum(hs: seq<Hdr>): nat {
    if hs == [] then 0 else DenseSum(hs[..|hs| - 1]) + DenseLen(hs[|hs| - 1])
  }

  lemma {:induction false} SumsConcat(a: seq<Hdr>, b: seq<Hdr>)
    ensures SparseSum(a + b) == SparseSum(a) + SparseSum(b)
    ensures DenseSum(a + b) == DenseSum(a) + DenseSum(b)
  {
    if b == [] {
      assert a + b == a;
    } else {
      var n := |b| - 1;
      assert (a + b)[..|a + b| - 1] == a + b[..n];
      SumsConcat(a, b[..n]);
    }
  }

  lemma SumOne(h: Hdr)
    ensures SparseSum([h]) == h.len && DenseSum([h]) == DenseLen(h)
  {
    assert [h][..0] == [];
    assert SparseSum([h]) == SparseSum([h][..0]) + h.len;
    assert DenseSum([h]) == DenseSum([h][..0]) + DenseLen(h);
  }

  /** The data vectors hold exactly what the headers announce. */
  predicate Exact(v: Vecs) {
    |v.sparse| == SparseSum(v.hdrs) && |v.dense| == DenseSum(v.hdrs)
  }

  datatype Cursor = Cursor(h: nat, d: nat, s: nat)

  predicate At(v: Vecs, c: Cursor) {
    c.h <= |v.hdrs| && c.d == DenseSum(v.hdrs[..c.h]) && c.s == SparseSum(v.hdrs[..c.h])
  }

  lemma Resplit<T>(s: seq<T>, a: nat, b: nat)
    requires a <= b <= |s|
    ensures s[..a] + s[a..b] == s[..b] && s[..b] + s[b..] == s
  {
  }

  lemma AtFits(v: Vecs, a: Cursor, b: Cursor)
    requires Exact(v) && At(v, a) && At(v, b) && a.h <= b.h
    ensures a.d <= b.d <= |v.dense| && a.s <= b.s <= |v.sparse|
    ensures b.d - a.d == DenseSum(v.hdrs[a.h..b.h]) && b.s - a.s == SparseSum(v.hdrs[a.h..b.h])
  {
    SumsConcat(v.hdrs[..a.h], v.hdrs[a.h..b.h]);
    SumsConcat(v.hdrs[..b.h], v.hdrs[b.h..]);
    Resplit(v.hdrs, a.h, b.h);
  }

  function Begin(v: Vecs): Cursor {
    Cursor(0, 0, 0)
  }

  function End(v: Vecs): Cursor {
    Cursor(|v.hdrs|, |v.dense|, |v.sparse|)
  }

  function Next(v: Vecs, c: Cursor): Cursor
    requires c.h < |v.hdrs|
  {
    Cursor(c.h + 1, c.d + DenseLen(v.hdrs[c.h]), c.s + v.hdrs[c.h].len)
  }

  lemma NextAt(v: Vecs, c: Cursor)
    requires Exact(v) && At(v, c) && c.h < |v.hdrs|
    ensures At(v, Next(v, c))
    ensures Next(v, c).d <= |v.dense| && Next(v, c).s <= |v.sparse|
  {
    assert v.hdrs[..c.h + 1][..c.h] == v.hdrs[..c.h];
    EndAt(v);
    AtFits(v, Next(v, c), End(v));
  }

  lemma EndAt(v: Vecs)
    requires Exact(v)
    ensures At(v, End(v)) && At(v, Begin(v))
  {
    assert v.hdrs[..|v.hdrs|] == v.hdrs;
  }

  function CursorAt(v: Vecs, i: nat): Cursor
    requires i <= |v.hdrs|
  {
    Cursor(i, DenseSum(v.hdrs[..i]), SparseSum(v.hdrs[..i]))
  }

  /** The part of the vectors between two cursors. */
  function Slice(v: Vecs, a: Cursor, b: Cursor): Vecs
    requires a.h <= b.h <= |v.hdrs| && a.d <= b.d <= |v.dense| && a.s <= b.s <= |v.sparse|
  {
    Vecs(v.hdrs[a.h..b.h], v.dense[a.d..b.d], v.sparse[a.s..b.s])
  }

  /* ------------------------------------------------------------ blocks of the vectors */

  function BlockVec(v: Vecs, c: Cursor): (b: Vecs)
    requires Exact(v) && At(v, c) && c.h < |v.hdrs|
    ensures b.hdrs == [v.hdrs[c.h]]
    ensures Exact(b)
  {
    NextAt(v, c);
    var b := Slice(v, c, Next(v, c));
    assert b.hdrs == [v.hdrs[c.h]];
    assert b.hdrs[..0] == [];
    b
  }

  function SetOf(s: seq<nat>): (r: set<nat>)
    ensures forall x :: x in r <==> x in s
  {
    set x | x in s
  }

  function UpTo(n: nat): (r: set<nat>)
    ensures |r| == n && forall b: nat :: b in r <==> b < n
  {
    if n == 0 then {} else UpTo(n - 1) + {n - 1}
  }

  predicate IsBit(b: nat) {
    b < 256
  }

  function AllBits(): (r: set<nat>)
    ensures forall b: nat :: b in r <==> b < 256
  {
    assert forall b: nat :: IsBit(b) <==> b < 256;
    set b: nat | b < 256 && IsBit(b)
  }

  lemma AllBitsCard(n: nat)
    requires n == 256
    ensures |AllBits()| == n
  {
    assert AllBits() == UpTo(n);
  }

  lemma OneBlock(b: Vecs)
    requires |b.hdrs| == 1 && Exact(b)
    ensures |b.sparse| == b.hdrs[0].len && |b.dense| == DenseLen(b.hdrs[0])
  {
    assert b.hdrs == [b.hdrs[0]];
    SumOne(b.hdrs[0]);
  }

  /** What one-block vectors denote. */
  function BitsOf(b: Vecs): set<nat>
    requires |b.hdrs| == 1 && Exact(b)
  {
    assert b.hdrs[..0] == [];
    match b.hdrs[0].kind
    case Sparse => SetOf(b.sparse)
    case Dense => b.dense[0]
    case Full => AllBits()
  }

  predicate Ascending(s: seq<nat>) {
    forall i, j :: 0 <= i < j < |s| ==> s[i] < s[j]
  }

  /** The canonical form of one block: 1-31 elements sparse, 32-255 dense, 256 full. */
  ghost predicate Canonical(b: Vecs)
    requires |b.hdrs| == 1 && Exact(b)
  {
    assert b.hdrs[..0] == [];
    var h := b.hdrs[0];
    && HdrFits(h)
    && match h.kind
       case Sparse => 1 <= h.len < 32 && Ascending(b.sparse) && forall i :: 0 <= i < |b.sparse| ==> b.sparse[i] < 256
       case Dense => h.len == 0 && 32 <= |b.dense[0]| < 256 && Bits256(b.dense[0])
       case Full => h.len == 0
  }

  function BlkAt(v: Vecs, i: nat): Blk
    requires Exact(v) && i < |v.hdrs|
  {
    Blk(v.hdrs[i].id, BitsOf(BlockVec(v, CursorAt(v, i))))
  }

  function BlkSeq(v: Vecs): (l: seq<Blk>)
    requires Exact(v)
    ensures |l| == |v.hdrs|
    ensures forall i :: 0 <= i < |l| ==> l[i] == BlkAt(v, i)
  {
    seq(|v.hdrs|, i requires 0 <= i < |v.hdrs| => BlkAt(v, i))
  }

  ghost predicate WF(v: Vecs) {
    && Exact(v)
    && (forall i :: 0 <= i < |v.hdrs| ==> Canonical(BlockVec(v, CursorAt(v, i))))
    && (forall i, j :: 0 <= i < j < |v.hdrs| ==> v.hdrs[i].id < v.hdrs[j].id)
  }

  /** The set of numbers the vectors stand for. */
  ghost function Members(v: Vecs): set<nat>
    requires Exact(v)
  {
    Elems(BlkSeq(v))
  }

  /* ------------------------------------------------------------ cutting and joining vectors */

  /** Seeing the same data from two cursors is seeing the same block. */
  lemma SameBlock(v: Vecs, i: nat, w: Vecs, j: nat)
    requires Exact(v) && Exact(w) && i < |v.hdrs| && j < |w.hdrs| && v.hdrs[i] == w.hdrs[j]
    requires var k, l, h := CursorAt(v, i), CursorAt(w, j), v.hdrs[i];
             && k.s + h.len <= |v.sparse| && l.s + h.len <= |w.sparse|
             && k.d + DenseLen(h) <= |v.dense| && l.d + DenseLen(h) <= |w.dense|
             && v.sparse[k.s..k.s + h.len] == w.sparse[l.s..l.s + h.len]
             && v.dense[k.d..k.d + DenseLen(h)] == w.dense[l.d..l.d + DenseLen(h)]
    ensures BlockVec(v, CursorAt(v, i)) == BlockVec(w, CursorAt(w, j))
  {
  }

  lemma BlockOfConcatLeft(a: Vecs, b: Vecs, i: nat)
    requires Exact(a) && Exact(b) && Exact(Concat(a, b)) && i < |a.hdrs|
    ensures BlockVec(Concat(a, b), CursorAt(Concat(a, b), i)) == BlockVec(a, CursorAt(a, i))
  {
    var c := Concat(a, b);
    assert c.hdrs[..i] == a.hdrs[..i];
    NextAt(a, CursorAt(a, i));
    SameBlock(c, i, a, i);
  }

  lemma ConcatTail(a: Vecs, b: Vecs)
    requires Exact(a)
    ensures |a.sparse| == SparseSum(a.hdrs) && |a.dense| == DenseSum(a.hdrs)
  {
  }

  lemma BlockOfConcatRight(a: Vecs, b: Vecs, j: nat)
    requires Exact(a) && Exact(b) && Exact(Concat(a, b)) && j < |b.hdrs|
    ensures BlockVec(Concat(a, b), CursorAt(Concat(a, b), |a.hdrs| + j)) == BlockVec(b, CursorAt(b, j))
  {
    hide Exact;
    var c := Concat(a, b);
    ConcatTail(a, b);
    assert c.hdrs[..|a.hdrs| + j] == a.hdrs + b.hdrs[..j];
    SumsConcat(a.hdrs, b.hdrs[..j]);
    NextAt(b, CursorAt(b, j));
    SameBlock(c, |a.hdrs| + j, b, j);
  }

  lemma BlockOfConcat(a: Vecs, b: Vecs, i: nat)
    requires Exact(a) && Exact(b) && i < |a.hdrs| + |b.hdrs|
    ensures Exact(Concat(a, b))
    ensures BlockVec(Concat(a, b), CursorAt(Concat(a, b), i)) ==
            if i < |a.hdrs| then BlockVec(a, CursorAt(a, i)) else BlockVec(b, CursorAt(b, i - |a.hdrs|))
  {
    SumsConcat(a.hdrs, b.hdrs);
    if i < |a.hdrs| {
      BlockOfConcatLeft(a, b, i);
    } else {
      BlockOfConcatRight(a, b, i - |a.hdrs|);
    }
  }

  lemma ConcatBlocks(a: Vecs, b: Vecs)
    requires Exact(a) && Exact(b)
    ensures Exact(Concat(a, b)) && BlkSeq(Concat(a, b)) == BlkSeq(a) + BlkSeq(b)
  {
    SumsConcat(a.hdrs, b.hdrs);
    forall i | 0 <= i < |a.hdrs| + |b.hdrs|
      ensures BlkAt(Concat(a, b), i) == (BlkSeq(a) + BlkSeq(b))[i]
    {
      BlockOfConcat(a, b, i);
    }
  }

  lemma ConcatWF(a: Vecs, b: Vecs)
    requires WF(a) && WF(b)
    requires forall i, j :: 0 <= i < |a.hdrs| && 0 <= j < |b.hdrs| ==> a.hdrs[i].id < b.hdrs[j].id
    ensures WF(Concat(a, b)) && Members(Concat(a, b)) == Members(a) + Members(b)
  {
    var c := Concat(a, b);
    ConcatBlocks(a, b);
    ElemsConcat(BlkSeq(a), BlkSeq(b));
    forall i | 0 <= i < |c.hdrs| ensures Canonical(BlockVec(c, CursorAt(c, i))) {
      BlockOfConcat(a, b, i);
    }
  }

  lemma SliceExact(v: Vecs, a: Cursor, b: Cursor)
    requires Exact(v) && At(v, a) && At(v, b) && a.h <= b.h
    ensures a.d <= b.d <= |v.dense| && a.s <= b.s <= |v.sparse|
    ensures Exact(Slice(v, a, b))
    ensures forall i :: 0 <= i < b.h - a.h ==>
              BlockVec(Slice(v, a, b), CursorAt(Slice(v, a, b), i)) == BlockVec(v, CursorAt(v, a.h + i))
  {
    AtFits(v, a, b);
    forall i | 0 <= i < b.h - a.h
      ensures BlockVec(Slice(v, a, b), CursorAt(Slice(v, a, b), i)) == BlockVec(v, CursorAt(v, a.h + i))
    {
      BlockOfSlice(v, a, b, i);
    }
  }

  lemma SliceBlkSeq(v: Vecs, a: Cursor, b: Cursor)
    requires Exact(v) && a.h <= b.h <= |v.hdrs|
    requires a.d <= b.d <= |v.dense| && a.s <= b.s <= |v.sparse| && Exact(Slice(v, a, b))
    requires forall i :: 0 <= i < b.h - a.h ==>
               BlockVec(Slice(v, a, b), CursorAt(Slice(v, a, b), i)) == BlockVec(v, CursorAt(v, a.h + i))
    ensures BlkSeq(Slice(v, a, b)) == BlkSeq(v)[a.h..b.h]
  {
    hide Exact, BitsOf, BlockVec;
    var c := Slice(v, a, b);
    forall i | 0 <= i < b.h - a.h ensures BlkSeq(c)[i] == BlkSeq(v)[a.h..b.h][i] {
      assert BlkSeq(v)[a.h + i] == BlkAt(v, a.h + i);
    }
  }

  lemma SliceWF(v: Vecs, a: Cursor, b: Cursor)
    requires WF(v) && a.h <= b.h <= |v.hdrs|
    requires a.d <= b.d <= |v.dense| && a.s <= b.s <= |v.sparse| && Exact(Slice(v, a, b))
    requires forall i :: 0 <= i < b.h - a.h ==>
               BlockVec(Slice(v, a, b), CursorAt(Slice(v, a, b), i)) == BlockVec(v, CursorAt(v, a.h + i))
    ensures WF(Slice(v, a, b))
  {
    hide Exact, Canonical, BlockVec;
    var c := Slice(v, a, b);
    forall i | 0 <= i < |c.hdrs| ensures Canonical(BlockVec(c, CursorAt(c, i))) {
      assert Canonical(BlockVec(v, CursorAt(v, a.h + i)));
    }
  }

  /** Cutting well-formed vectors at two cursors leaves well-formed vectors. */
  lemma SliceBlocks(v: Vecs, a: Cursor, b: Cursor)
    requires Exact(v) && At(v, a) && At(v, b) && a.h <= b.h
    ensures a.d <= b.d <= |v.dense| && a.s <= b.s <= |v.sparse|
    ensures Exact(Slice(v, a, b)) && BlkSeq(Slice(v, a, b)) == BlkSeq(v)[a.h..b.h]
    ensures WF(v) ==> WF(Slice(v, a, b))
  {
    hide Exact, WF, BlkSeq, BlockVec, CursorAt;
    SliceExact(v, a, b);
    SliceBlkSeq(v, a, b);
    if WF(v) {
      SliceWF(v, a, b);
    }
  }

  lemma SubSlice<T>(s: seq<T>, lo: nat, hi: nat, x: nat, y: nat)
    requires lo <= x <= y <= hi <= |s|
    ensures s[lo..hi][x - lo..y - lo] == s[x..y]
  {
    var l, r := s[lo..hi][x - lo..y - lo], s[x..y];
    assert |l| == |r| && forall i :: 0 <= i < |l| ==> l[i] == r[i];
  }

  lemma CursorOfSlice(v: Vecs, a: Cursor, b: Cursor, i: nat)
    requires Exact(v) && At(v, a) && At(v, b) && a.h + i <= b.h
    requires a.d <= b.d <= |v.dense| && a.s <= b.s <= |v.sparse|
    ensures var k := CursorAt(v, a.h + i);
            a.d <= k.d && a.s <= k.s && CursorAt(Slice(v, a, b), i) == Cursor(i, k.d - a.d, k.s - a.s)
  {
    var k := CursorAt(v, a.h + i);
    assert At(v, k);
    AtFits(v, a, k);
    assert v.hdrs[a.h..b.h][..i] == v.hdrs[a.h..a.h + i];
  }

  lemma BlockOfSlice(v: Vecs, a: Cursor, b: Cursor, i: nat)
    requires Exact(v) && At(v, a) && At(v, b) && a.h + i < b.h
    requires a.d <= b.d <= |v.dense| && a.s <= b.s <= |v.sparse| && Exact(Slice(v, a, b))
    ensures BlockVec(Slice(v, a, b), CursorAt(Slice(v, a, b), i)) == BlockVec(v, CursorAt(v, a.h + i))
  {
    hide Exact;
    var k := CursorAt(v, a.h + i);
    var n := Next(v, k);
    CursorOfSlice(v, a, b, i);
    assert n.d <= b.d && n.s <= b.s by {
      NextAt(v, k);
      AtFits(v, n, b);
    }
    SubSlice(v.sparse, a.s, b.s, k.s, n.s);
    SubSlice(v.dense, a.d, b.d, k.d, n.d);
    SameBlock(Slice(v, a, b), i, v, a.h + i);
  }

  /* ------------------------------------------------------------ canonicity */

  lemma {:induction false} AscendingCard(s: seq<nat>)
    requires Ascending(s)
    ensures |SetOf(s)| == |s|
  {
    if s != [] {
      var n := |s| - 1;
      AscendingCard(s[..n]);
      assert s == s[..n] + [s[n]];
      assert SetOf(s) == SetOf(s[..n]) + {s[n]};
      assert s[n] !in s[..n];
    } else {
      assert SetOf(s) == {};
    }
  }

  lemma LastLargest(s: seq<nat>, x: nat)
    requires Ascending(s) && x in SetOf(s)
    ensures x <= s[|s| - 1]
  {
    var i :| 0 <= i < |s| && s[i] == x;
  }

  lemma SetOfInit(s: seq<nat>)
    requires Ascending(s) && s != []
    ensures SetOf(s[..|s| - 1]) == SetOf(s) - {s[|s| - 1]}
  {
    var n := |s| - 1;
    assert s == s[..n] + [s[n]];
    assert s[n] !in s[..n];
    forall x ensures x in SetOf(s[..n]) <==> x in SetOf(s) - {s[n]} {
      assert x in s <==> x in s[..n] || x == s[n];
    }
  }

  lemma {:induction false} AscendingUnique(s: seq<nat>, t: seq<nat>)
    requires Ascending(s) && Ascending(t) && SetOf(s) == SetOf(t)
    ensures s == t
    decreases |s|
  {
    AscendingCard(s);
    AscendingCard(t);
    if s != [] {
      var n := |s| - 1;
      LastLargest(s, t[n]);
      LastLargest(t, s[n]);
      SetOfInit(s);
      SetOfInit(t);
      AscendingUnique(s[..n], t[..n]);
      assert s == s[..n] + [s[n]] && t == t[..n] + [t[n]];
    }
  }

  lemma BitsCard(b: Vecs)
    requires |b.hdrs| == 1 && Exact(b) && Canonical(b)
    ensures Bits256(BitsOf(b)) && BitsOf(b) != {}
    ensures b.hdrs[0].kind == if |BitsOf(b)| < 32 then Sparse else if |BitsOf(b)| < 256 then Dense else Full
    ensures b.hdrs[0].kind == Sparse ==> |BitsOf(b)| == b.hdrs[0].len
  {
    OneBlock(b);
    AllBitsCard(256);
    if b.hdrs[0].kind == Sparse {
      AscendingCard(b.sparse);
    }
  }

  lemma CanonicalUnique(a: Vecs, b: Vecs)
    requires |a.hdrs| == 1 && Exact(a) && Canonical(a)
    requires |b.hdrs| == 1 && Exact(b) && Canonical(b)
    requires a.hdrs[0].id == b.hdrs[0].id && BitsOf(a) == BitsOf(b)
    ensures a == b
  {
    BitsCard(a);
    BitsCard(b);
    OneBlock(a);
    OneBlock(b);
    assert a.hdrs == [a.hdrs[0]] && b.hdrs == [b.hdrs[0]];
    match a.hdrs[0].kind
    case Sparse =>
      AscendingUnique(a.sparse, b.sparse);
    case Dense =>
      assert a.dense == [a.dense[0]] && b.dense == [b.dense[0]];
    case Full =>
  }

  lemma WFOrdered(v: Vecs)
    requires WF(v)
    ensures Ordered(BlkSeq(v))
  {
    var l := BlkSeq(v);
    forall i | 0 <= i < |l| ensures l[i].bits != {} && Bits256(l[i].bits) {
      BitsCard(BlockVec(v, CursorAt(v, i)));
    }
  }

  lemma Unsnoc(v: Vecs)
    requires Exact(v) && |v.hdrs| > 0
    ensures var k := CursorAt(v, |v.hdrs| - 1);
            && k.d <= |v.dense| && k.s <= |v.sparse|
            && Exact(Slice(v, Begin(v), k))
            && v == Concat(Slice(v, Begin(v), k), BlockVec(v, k))
  {
    var k := CursorAt(v, |v.hdrs| - 1);
    EndAt(v);
    SliceBlocks(v, Begin(v), k);
    NextAt(v, k);
    assert Next(v, k) == End(v) by {
      assert v.hdrs[..|v.hdrs|] == v.hdrs;
    }
  }

  lemma {:induction false} SameBlocksSameVecs(a: Vecs, b: Vecs)
    requires WF(a) && WF(b) && BlkSeq(a) == BlkSeq(b)
    ensures a == b
    decreases |a.hdrs|
  {
    if |a.hdrs| > 0 {
      var n := |a.hdrs| - 1;
      var ka, kb := CursorAt(a, n), CursorAt(b, n);
      Unsnoc(a);
      Unsnoc(b);
      SliceBlocks(a, Begin(a), ka);
      SliceBlocks(b, Begin(b), kb);
      assert BlkSeq(a)[n] == BlkAt(a, n) && BlkSeq(b)[n] == BlkAt(b, n);
      CanonicalUnique(BlockVec(a, ka), BlockVec(b, kb));
      SameBlocksSameVecs(Slice(a, Begin(a), ka), Slice(b, Begin(b), kb));
    }
  }

  /** Canonicity: well-formed vectors are equal exactly when they denote the same set.  This is
      what lets hash-consing compare sets by comparing their three vectors. */
  lemma Canonicity(a: Vecs, b: Vecs)
    requires WF(a) && WF(b)
    ensures a == b <==> Members(a) == Members(b)
  {
    if Members(a) == Members(b) {
      WFOrdered(a);
      WFOrdered(b);
      OrderedUnique(BlkSeq(a), BlkSeq(b));
      SameBlocksSameVecs(a, b);
    }
  }
}
