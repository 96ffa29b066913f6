/** Reading a compressed set. */
module SetReaders {
  // Enumerating it in ascending order (what the Elias-Fano encoder is fed with), its size, its
  // largest element, and building it back from the enumeration.
  import opened Blocks
  import opened SetVectors
  import opened SetCursors
  import S = SetU32

  /** The bits of one block in ascending order. */
  method BlockBits(b: Vecs) returns (out: seq<nat>)
    requires OneBlockVec(b) && Canonical(b)
    ensures Ascending(out) && SetOf(out) == BitsOf(b) && |out| == |BitsOf(b)|
  {
    OneBlock(b);
    match b.hdrs[0].kind {
      case Sparse =>
        out := b.sparse;
      case Dense =>
        out := BitsUpTo256(b.dense[0]);
      case Full =>
        out := BitsUpTo256(AllBits());
    }
    AscendingCard(out);
  }

  method BitsUpTo256(bits: set<nat>) returns (out: seq<nat>)
    requires Bits256(bits)
    ensures Ascending(out) && SetOf(out) == bits
  {
    out := [];
    for i := 0 to 256
      invariant Ascending(out) && forall x: nat :: x in out <==> x in bits && x < i
    {
      if i in bits {
        assert forall k :: 0 <= k < |out| ==> out[k] in out;
        out := out + [i];
      }
    }
  }

  function Shift(id: nat, bits: seq<nat>): (r: seq<nat>)
    ensures |r| == |bits| && forall i :: 0 <= i < |r| ==> r[i] == id * 256 + bits[i]
  {
    seq(|bits|, i requires 0 <= i < |bits| => id * 256 + bits[i])
  }

  lemma ShiftElems(id: nat, bits: seq<nat>)
    requires Ascending(bits)
    ensures Ascending(Shift(id, bits)) && SetOf(Shift(id, bits)) == Elems([Blk(id, SetOf(bits))])
  {
    var l, r := [Blk(id, SetOf(bits))], Shift(id, bits);
    forall x | x in Elems(l) ensures x in SetOf(r) {
      var i, b :| 0 <= i < |l| && b in l[i].bits && x == l[i].id * 256 + b;
      var k :| 0 <= k < |bits| && bits[k] == b;
      assert r[k] == x;
    }
    forall x | x in SetOf(r) ensures x in Elems(l) {
      var k :| 0 <= k < |r| && r[k] == x;
      assert bits[k] in l[0].bits;
    }
  }

  /** The elements of blocks before h lie below block h. */
  lemma PrefixBelow(l: seq<Blk>, h: nat, x: nat)
    requires Ordered(l) && h < |l| && x in Elems(l[..h])
    ensures x < l[h].id * 256
  {
    var p := l[..h];
    var i, b :| 0 <= i < |p| && b in p[i].bits && x == p[i].id * 256 + b;
    assert p[i] == l[i] && l[i].id < l[h].id;
    assert (l[h].id - l[i].id - 1) * 256 >= 0;
  }

  lemma PrefixNext(l: seq<Blk>, h: nat)
    requires h < |l|
    ensures Elems(l[..h + 1]) == Elems(l[..h]) + Elems([l[h]])
  {
    assert l[..h + 1] == l[..h] + [l[h]];
    ElemsConcat(l[..h], [l[h]]);
  }

  lemma AscendingConcat(a: seq<nat>, b: seq<nat>)
    requires Ascending(a) && Ascending(b) && forall x, y :: x in SetOf(a) && y in SetOf(b) ==> x < y
    ensures Ascending(a + b) && SetOf(a + b) == SetOf(a) + SetOf(b)
  {
    forall i, j | 0 <= i < j < |a + b| ensures (a + b)[i] < (a + b)[j] {
      if i < |a| <= j {
        assert a[i] in SetOf(a) && b[j - |a|] in SetOf(b);
      }
    }
  }

  lemma BlockJoins(v: Vecs, h: nat, out: seq<nat>, bits: seq<nat>)
    requires WF(v) && h < |v.hdrs| && Ascending(out) && SetOf(out) == Elems(BlkSeq(v)[..h])
    requires Ascending(bits) && SetOf(bits) == BlkSeq(v)[h].bits
    ensures Ascending(out + Shift(v.hdrs[h].id, bits))
    ensures SetOf(out + Shift(v.hdrs[h].id, bits)) == Elems(BlkSeq(v)[..h + 1])
  {
    var l := BlkSeq(v);
    WFOrdered(v);
    BlkAtId(v, h);
    hide WF, BlkSeq;
    PrefixNext(l, h);
    ShiftElems(l[h].id, bits);
    forall x, y | x in SetOf(out) && y in SetOf(Shift(l[h].id, bits)) ensures x < y {
      PrefixBelow(l, h, x);
    }
    AscendingConcat(out, Shift(l[h].id, bits));
    assert l[h] == Blk(l[h].id, l[h].bits);
  }

  /** Visit every element, block by block: each member once, in ascending order. */
  method Foreach(v: Vecs) returns (out: seq<nat>)
    requires WF(v)
    ensures Ascending(out) && SetOf(out) == Members(v)
  {
    EndAt(v);
    assert BlkSeq(v)[..0] == [];
    out := [];
    var c := Begin(v);
    while c.h < |v.hdrs|
      invariant At(v, c) && Ascending(out) && SetOf(out) == Elems(BlkSeq(v)[..c.h])
      decreases |v.hdrs| - c.h
    {
      out := Visit(v, c, out);
      NextAt(v, c);
      c := Next(v, c);
    }
    assert BlkSeq(v)[..|v.hdrs|] == BlkSeq(v);
  }

  method Visit(v: Vecs, c: Cursor, out: seq<nat>) returns (out': seq<nat>)
    requires WF(v) && At(v, c) && c.h < |v.hdrs| && Ascending(out) && SetOf(out) == Elems(BlkSeq(v)[..c.h])
    ensures Ascending(out') && SetOf(out') == Elems(BlkSeq(v)[..c.h + 1])
  {
    assert c == CursorAt(v, c.h) && BlkSeq(v)[c.h] == BlkAt(v, c.h);
    var bits := BlockBits(BlockVec(v, c));
    BlockJoins(v, c.h, out, bits);
    out' := out + Shift(v.hdrs[c.h].id, bits);
  }

  /** Append a strictly ascending list of 32-bit numbers to an empty set. */
  method FromAscending(elems: seq<nat>) returns (v: Vecs)
    requires Ascending(elems) && forall i :: 0 <= i < |elems| ==> elems[i] < 0x1_0000_0000
    ensures WF(v) && Members(v) == SetOf(elems)
  {
    var set_ := new S.SetU32();
    S.EmptyWF();
    for i := 0 to |elems|
      invariant WF(set_.V()) && Members(set_.V()) == SetOf(elems[..i])
    {
      assert elems[..i + 1] == elems[..i] + [elems[i]];
      assert SetOf(elems[..i + 1]) == SetOf(elems[..i]) + {elems[i]};
      set_.Append(elems[i]);
    }
    assert elems[..|elems|] == elems;
    v := set_.V();
  }

  lemma MembersFit(v: Vecs, x: nat)
    requires WF(v) && x in Members(v)
    ensures x < 0x1_0000_0000
  {
    var l := BlkSeq(v);
    WFOrdered(v);
    var i, b :| 0 <= i < |l| && b in l[i].bits && x == l[i].id * 256 + b;
    BlkAtId(v, i);
    assert Canonical(BlockVec(v, CursorAt(v, i)));
  }

  /** Writing a set out in ascending order and appending it back gives the same three vectors. */
  method RoundTrip(v: Vecs) returns (w: Vecs)
    requires WF(v)
    ensures w == v
  {
    var elems := Foreach(v);
    forall i | 0 <= i < |elems| ensures elems[i] < 0x1_0000_0000 {
      assert elems[i] in SetOf(elems);
      MembersFit(v, elems[i]);
    }
    w := FromAscending(elems);
    Canonicity(v, w);
  }

  lemma OneBlockCard(id: nat, bits: set<nat>)
    ensures |Elems([Blk(id, bits)])| == |bits|
    decreases |bits|
  {
    if bits == {} {
      var l := [Blk(id, bits)];
      assert l[0].bits == {};
      assert Elems(l) == {};
    } else {
      var b :| b in bits;
      var rest := bits - {b};
      OneBlockCard(id, rest);
      assert bits == rest + {b};
      S.ElemsPlus(id, rest, b);
      var l := [Blk(id, rest)];
      assert id * 256 + b !in Elems(l);
    }
  }

  lemma PrefixCard(l: seq<Blk>, h: nat)
    requires Ordered(l) && h < |l|
    ensures |Elems(l[..h + 1])| == |Elems(l[..h])| + |l[h].bits|
  {
    PrefixNext(l, h);
    OneBlockCard(l[h].id, l[h].bits);
    var one := [l[h]];
    assert one == [Blk(l[h].id, l[h].bits)];
    forall x | x in Elems(l[..h]) ensures x !in Elems(one) {
      PrefixBelow(l, h, x);
    }
    assert Elems(l[..h]) !! Elems(one);
  }

  method BlockSize(b: Vecs) returns (n: nat)
    requires OneBlockVec(b) && Canonical(b)
    ensures n == |BitsOf(b)|
  {
    OneBlock(b);
    BitsCard(b);
    match b.hdrs[0].kind {
      case Sparse => n := b.hdrs[0].len;
      case Dense => n := |b.dense[0]|;
      case Full =>
        AllBitsCard(256);
        n := 256;
    }
  }

  /** The number of elements, from the headers and the dense blocks alone. */
  method Size(v: Vecs) returns (n: nat)
    requires WF(v)
    ensures n == |Members(v)|
  {
    EndAt(v);
    assert BlkSeq(v)[..0] == [];
    n := 0;
    var c := Begin(v);
    while c.h < |v.hdrs|
      invariant At(v, c) && n == |Elems(BlkSeq(v)[..c.h])|
      decreases |v.hdrs| - c.h
    {
      n := AddBlock(v, c, n);
      NextAt(v, c);
      c := Next(v, c);
    }
    assert BlkSeq(v)[..|v.hdrs|] == BlkSeq(v);
  }

  method AddBlock(v: Vecs, c: Cursor, n: nat) returns (n': nat)
    requires WF(v) && At(v, c) && c.h < |v.hdrs| && n == |Elems(BlkSeq(v)[..c.h])|
    ensures n' == |Elems(BlkSeq(v)[..c.h + 1])|
  {
    hide WF, Elems, Canonical, BitsOf, BlkAt;
    BlockHere(v, c);
    PrefixCard(BlkSeq(v), c.h);
    var k := BlockSize(BlockVec(v, c));
    n' := n + k;
  }

  /** The block at a cursor is the block of the abstract view. */
  lemma BlockHere(v: Vecs, c: Cursor)
    requires WF(v) && At(v, c) && c.h < |v.hdrs|
    ensures Exact(v) && Ordered(BlkSeq(v)) && OneBlockVec(BlockVec(v, c)) && Canonical(BlockVec(v, c))
    ensures BlkSeq(v)[c.h].bits == BitsOf(BlockVec(v, c))
  {
    WFOrdered(v);
    assert c == CursorAt(v, c.h) && BlkSeq(v)[c.h] == BlkAt(v, c.h);
  }

  method HighestBit(bits: set<nat>) returns (m: nat)
    requires Bits256(bits) && bits != {}
    ensures m in bits && forall b :: b in bits ==> b <= m
  {
    m := 255;
    while m !in bits
      invariant m < 256 && forall b :: b in bits ==> b <= m
      decreases m
    {
      assert m > 0;
      m := m - 1;
    }
  }

  lemma BelowLast(p: Vecs, id: nat, x: nat)
    requires WF(p) && (forall i :: 0 <= i < |p.hdrs| ==> p.hdrs[i].id < id) && x in Members(p)
    ensures x < id * 256
  {
    var l := BlkSeq(p);
    WFOrdered(p);
    var i, b :| 0 <= i < |l| && b in l[i].bits && x == l[i].id * 256 + b;
    BlkAtId(p, i);
    assert (id - l[i].id - 1) * 256 >= 0;
  }

  lemma UpperOfLast(v: Vecs, p: Vecs, b: Vecs, m: nat)
    requires WF(p) && OneBlockVec(b) && (forall i :: 0 <= i < |p.hdrs| ==> p.hdrs[i].id < b.hdrs[0].id)
    requires WF(v) && Members(v) == Members(p) + Elems([Blk(b.hdrs[0].id, BitsOf(b))])
    requires m in BitsOf(b) && forall x :: x in BitsOf(b) ==> x <= m
    ensures var u := b.hdrs[0].id * 256 + m; u in Members(v) && forall x :: x in Members(v) ==> x <= u
  {
    hide Members, BitsOf;
    var id := b.hdrs[0].id;
    var l := [Blk(id, BitsOf(b))];
    assert m in l[0].bits;
    forall x | x in Members(v) ensures x <= id * 256 + m {
      if x in Members(p) {
        BelowLast(p, id, x);
      }
    }
  }

  /** Where the last block keeps its largest bit. */
  lemma LastBlock(v: Vecs, p: Vecs, b: Vecs)
    requires v == Concat(p, b) && OneBlockVec(b) && Canonical(b)
    ensures v.hdrs != [] && v.hdrs[|v.hdrs| - 1] == b.hdrs[0]
    ensures b.hdrs[0].kind == Sparse ==>
              v.sparse != [] && var m := v.sparse[|v.sparse| - 1]; m in BitsOf(b) && forall x :: x in BitsOf(b) ==> x <= m
    ensures b.hdrs[0].kind == Dense ==>
              v.dense != [] && v.dense[|v.dense| - 1] == BitsOf(b) && Bits256(BitsOf(b)) && BitsOf(b) != {}
    ensures b.hdrs[0].kind == Full ==> 255 in BitsOf(b) && forall x :: x in BitsOf(b) ==> x <= 255
  {
    OneBlock(b);
    if b.hdrs[0].kind == Full {
      assert IsBit(255);
    } else if b.hdrs[0].kind == Sparse {
      assert v.sparse[|v.sparse| - 1] == b.sparse[|b.sparse| - 1];
    } else {
      assert b.dense[0] != {};
    }
  }

  /** The largest element, from the last block alone. */
  method Upper(v: Vecs) returns (u: nat)
    requires WF(v) && v.hdrs != []
    ensures u in Members(v) && forall x :: x in Members(v) ==> x <= u
  {
    hide WF, Members, BitsOf, Canonical, Exact, Concat;
    ghost var p, b := S.SplitLast(v);
    LastBlock(v, p, b);
    var hdr := v.hdrs[|v.hdrs| - 1];
    var m;
    match hdr.kind {
      case Sparse =>
        m := v.sparse[|v.sparse| - 1];
      case Dense =>
        m := HighestBit(v.dense[|v.dense| - 1]);
      case Full =>
        m := 255;
    }
    UpperOfLast(v, p, b, m);
    u := hdr.id * 256 + m;
  }
}
