/** Packed natural numbers. */
module NatCodec {
  // The first byte says how many bytes follow.  Disjoint bit patterns are combined by addition
  // here, and masks are remainders.
  import opened Pointers
  import opened Bytes

  const MAX64: nat := 0xFFFF_FFFF_FFFF_FFFF

  /** The size of an encoding, from its first byte. */
  function NatSize(b0: byte): nat {
    if b0 < 0x80 then 1
    else if b0 < 0xC0 then 2
    else if b0 < 0xE0 then 3
    else if b0 < 0xF0 then 4
    else if b0 < 0xF8 then 5
    else if b0 < 0xFC then 6
    else if b0 < 0xFE then 7
    else if b0 < 0xFF then 8
    else 9
  }

  function StoreNat(val: nat): (out: seq<byte>)
    requires val <= MAX64
  {
    if val < 0x80 then [val]
    else if val < 0x4080 then
      ToBig((val - 0x80) + 0x8000, 2)
    else if val < 0x20_4080 then
      var v := val - 0x4080;
      [0xC0 + v / 0x1_0000] + ToBig(v % 0x1_0000, 2)
    else if val < 0x1020_4080 then
      ToBig((val - 0x20_4080) + 0xE000_0000, 4)
    else if val < 0x08_1020_4080 then
      var v := val - 0x1020_4080;
      [0xF0 + v / 0x1_0000_0000] + ToBig(v % 0x1_0000_0000, 4)
    else if val < 0x0408_1020_4080 then
      var v := val - 0x08_1020_4080;
      ToBig(v / 0x1_0000_0000 + 0xF800, 2) + ToBig(v % 0x1_0000_0000, 4)
    else if val < 0x02_0408_1020_4080 then
      var v := val - 0x0408_1020_4080;
      [0xFC + v / 0x1_0000_0000_0000] + (ToBig(v / 0x1_0000_0000 % 0x1_0000, 2) + ToBig(v % 0x1_0000_0000, 4))
    else if val < 0x0102_0408_1020_4080 then
      ToBig((val - 0x02_0408_1020_4080) + 0xFE00_0000_0000_0000, 8)
    else
      [0xFF] + ToBig(val - 0x0102_0408_1020_4080, 8)
  }

  /** The number in the n bytes that start p; the last form may wrap around. */
  function Load(n: nat, b0: byte, p: seq<byte>): nat
    requires 2 <= n <= 9 && n <= |p| && b0 == p[0]
  {
    if n == 2 then b0 % 0x40 * 0x100 + p[1] + 0x80
    else if n == 3 then b0 % 0x20 * 0x1_0000 + FromBig(p[1..3]) + 0x4080
    else if n == 4 then FromBig(p[..4]) % 0x1000_0000 + 0x20_4080
    else if n == 5 then b0 % 0x8 * 0x1_0000_0000 + FromBig(p[1..5]) + 0x1020_4080
    else if n == 6 then b0 % 0x4 * 0x100_0000_0000 + (p[1] as int) * 0x1_0000_0000 + FromBig(p[2..6]) + 0x08_1020_4080
    else if n == 7 then
      b0 % 0x2 * 0x1_0000_0000_0000 + FromBig(p[1..3]) * 0x1_0000_0000 + FromBig(p[3..7]) + 0x0408_1020_4080
    else if n == 8 then FromBig(p[..8]) % 0x100_0000_0000_0000 + 0x02_0408_1020_4080
    else (FromBig(p[1..9]) + 0x0102_0408_1020_4080) % 0x1_0000_0000_0000_0000
  }

  datatype Loaded = Loaded(val: nat, size: nat)

  function LoadTrustedNat(p: seq<byte>): Loaded
    requires p != [] && NatSize(p[0]) <= |p|
  {
    var n := NatSize(p[0]);
    if n == 1 then Loaded(p[0], 1) else Loaded(Load(n, p[0], p), n)
  }

  /** Check the length, and that the nine-byte form has not wrapped around. */
  function LoadUntrustedNat(p: seq<byte>): Option<Loaded> {
    if p == [] then None
    else
      var n := NatSize(p[0]);
      if n == 1 then Some(Loaded(p[0], 1))
      else if n <= |p| then
        var r := Load(n, p[0], p);
        if n != 9 || r >= 0x0102_0408_1020_4080 then Some(Loaded(r, n)) else None
      else None
  }

  function SkipUntrustedNat(p: seq<byte>): Option<nat> {
    if p == [] then None
    else
      var n := NatSize(p[0]);
      if n <= |p| && (n < 9 || FromBig(p[1..9]) <= 0xFEFD_FBF7_EFDF_BF7F) then Some(n) else None
  }

  /* ------------------------------------------------------------ an encoding is one number */

  /** First number, prefix byte and room of each size. */
  function First(n: nat): nat {
    if n == 1 then 0
    else if n == 2 then 0x80
    else if n == 3 then 0x4080
    else if n == 4 then 0x20_4080
    else if n == 5 then 0x1020_4080
    else if n == 6 then 0x08_1020_4080
    else if n == 7 then 0x0408_1020_4080
    else if n == 8 then 0x02_0408_1020_4080
    else if n == 9 then 0x0102_0408_1020_4080
    else 0x1_0000_0000_0000_0000
  }

  function Prefix(n: nat): nat {
    if n == 1 then 0
    else if n == 2 then 0x80
    else if n == 3 then 0xC0
    else if n == 4 then 0xE0
    else if n == 5 then 0xF0
    else if n == 6 then 0xF8
    else if n == 7 then 0xFC
    else if n == 8 then 0xFE
    else if n == 9 then 0xFF
    else 0x100
  }

  function Unit(n: nat): nat {
    if n == 1 then 1
    else if n == 2 then 0x100
    else if n == 3 then 0x1_0000
    else if n == 4 then 0x100_0000
    else if n == 5 then 0x1_0000_0000
    else if n == 6 then 0x100_0000_0000
    else if n == 7 then 0x1_0000_0000_0000
    else if n == 8 then 0x100_0000_0000_0000
    else 0x1_0000_0000_0000_0000
  }

  function SizeOf(val: nat): (n: nat)
    requires val <= MAX64
    ensures 1 <= n <= 9 && First(n) <= val < First(n + 1)
  {
    if val < 0x80 then 1
    else if val < 0x4080 then 2
    else if val < 0x20_4080 then 3
    else if val < 0x1020_4080 then 4
    else if val < 0x08_1020_4080 then 5
    else if val < 0x0408_1020_4080 then 6
    else if val < 0x02_0408_1020_4080 then 7
    else if val < 0x0102_0408_1020_4080 then 8
    else 9
  }

  lemma Pow256At(n: nat)
    requires 1 <= n <= 9
    ensures Pow256(n - 1) == Unit(n)
  {
    assert Pow256(0) == 1 && Pow256(1) == 0x100 && Pow256(2) == 0x1_0000 && Pow256(3) == 0x100_0000;
    assert Pow256(4) == 0x1_0000_0000 && Pow256(5) == 0x100_0000_0000 && Pow256(6) == 0x1_0000_0000_0000;
    assert Pow256(7) == 0x100_0000_0000_0000 && Pow256(8) == 0x1_0000_0000_0000_0000;
  }

  lemma ByteThen(h: byte, s: seq<byte>)
    ensures FromBig([h] + s) == h * Pow256(|s|) + FromBig(s)
  {
    FromBigConcat([h], s);
    assert FromBig([h]) == h;
  }

  lemma SmallPowers()
    ensures Pow256(1) == 0x100 && Pow256(2) == 0x1_0000 && Pow256(4) == 0x1_0000_0000
    ensures Pow256(6) == 0x1_0000_0000_0000 && Pow256(8) == 0x1_0000_0000_0000_0000
  {
    Pow256At(2);
    Pow256At(3);
    Pow256At(5);
    Pow256At(7);
    Pow256At(9);
  }

  /** The encoding s of val is its size class and its offset, as one big-endian number. */
  predicate Encodes(s: seq<byte>, val: nat)
    requires val <= MAX64
  {
    var n := SizeOf(val);
    |s| == n && FromBig(s) == Prefix(n) * Unit(n) + (val - First(n))
  }

  lemma StoreShort(val: nat)
    requires val < 0x08_1020_4080
    ensures Encodes(StoreNat(val), val)
  {
    hide ToBig, FromBig, Pow256;
    SmallPowers();
    var n := SizeOf(val);
    var v := val - First(n);
    if n == 1 {
      assert [val] + [] == [val];
      ByteThen(val, []);
      EmptyBig();
    } else if n == 2 {
      FromToBig(v + 0x8000, 2);
    } else if n == 3 {
      FromToBig(v % 0x1_0000, 2);
      ByteThen(0xC0 + v / 0x1_0000, ToBig(v % 0x1_0000, 2));
    } else if n == 4 {
      FromToBig(v + 0xE000_0000, 4);
    } else {
      FromToBig(v % 0x1_0000_0000, 4);
      ByteThen(0xF0 + v / 0x1_0000_0000, ToBig(v % 0x1_0000_0000, 4));
    }
  }

  lemma StoreLong(val: nat)
    requires 0x08_1020_4080 <= val <= MAX64
    ensures Encodes(StoreNat(val), val)
  {
    hide ToBig, FromBig, Pow256;
    SmallPowers();
    var n := SizeOf(val);
    var v := val - First(n);
    if n == 6 {
      FromToBig(v % 0x1_0000_0000, 4);
      FromToBig(v / 0x1_0000_0000 + 0xF800, 2);
      FromBigConcat(ToBig(v / 0x1_0000_0000 + 0xF800, 2), ToBig(v % 0x1_0000_0000, 4));
    } else if n == 7 {
      var a, b := ToBig(v / 0x1_0000_0000 % 0x1_0000, 2), ToBig(v % 0x1_0000_0000, 4);
      FromToBig(v % 0x1_0000_0000, 4);
      FromToBig(v / 0x1_0000_0000 % 0x1_0000, 2);
      FromBigConcat(a, b);
      ByteThen(0xFC + v / 0x1_0000_0000_0000, a + b);
    } else if n == 8 {
      FromToBig(v + 0xFE00_0000_0000_0000, 8);
    } else {
      FromToBig(v, 8);
      ByteThen(0xFF, ToBig(v, 8));
    }
  }

  lemma StoreIs(val: nat)
    requires val <= MAX64
    ensures Encodes(StoreNat(val), val)
  {
    hide Encodes, StoreNat;
    if val < 0x08_1020_4080 {
      StoreShort(val);
    } else {
      StoreLong(val);
    }
  }

  lemma EmptyBig()
    ensures FromBig([]) == 0 && Pow256(0) == 1
  {
  }

  /** The bytes p start with an encoding of size n, whose number loading computes. */
  predicate Decodes(n: nat, p: seq<byte>)
    requires 2 <= n <= 9 && n <= |p|
  {
    var w := FromBig(p[..n]);
    && Prefix(n) * Unit(n) <= w < Prefix(n + 1) * Unit(n)
    && Load(n, p[0], p) == (w - Prefix(n) * Unit(n) + First(n)) % 0x1_0000_0000_0000_0000
  }

  /** The head byte and the rest of an encoding, as numbers. */
  lemma HeadAndRest(n: nat, p: seq<byte>)
    requires 2 <= n <= 9 && n <= |p|
    ensures FromBig(p[..n]) == p[0] * Unit(n) + FromBig(p[1..n]) && FromBig(p[1..n]) < Unit(n)
  {
    hide FromBig, Pow256;
    Pow256At(n);
    HeadBig(p[..n]);
    assert p[..n][1..] == p[1..n];
  }

  lemma LoadTwo(p: seq<byte>)
    requires 2 <= |p| && NatSize(p[0]) == 2
    ensures Decodes(2, p)
  {
    hide FromBig, Pow256;
    HeadAndRest(2, p);
    assert p[1..2] == [p[1]] + [];
    ByteThen(p[1], []);
    EmptyBig();
  }

  lemma LoadThree(p: seq<byte>)
    requires 3 <= |p| && NatSize(p[0]) == 3
    ensures Decodes(3, p)
  {
    hide FromBig, Pow256;
    HeadAndRest(3, p);
  }

  lemma LoadFive(p: seq<byte>)
    requires 5 <= |p| && NatSize(p[0]) == 5
    ensures Decodes(5, p)
  {
    hide FromBig, Pow256;
    HeadAndRest(5, p);
  }

  lemma LoadNine(p: seq<byte>)
    requires 9 <= |p| && NatSize(p[0]) == 9
    ensures Decodes(9, p)
  {
    hide FromBig;
    HeadAndRest(9, p);
  }

  lemma LoadFour(p: seq<byte>)
    requires 4 <= |p| && NatSize(p[0]) == 4
    ensures Decodes(4, p)
  {
    hide FromBig, Pow256;
    HeadAndRest(4, p);
  }

  lemma LoadEight(p: seq<byte>)
    requires 8 <= |p| && NatSize(p[0]) == 8
    ensures Decodes(8, p)
  {
    hide FromBig, Pow256;
    HeadAndRest(8, p);
  }

  lemma LoadSplit(n: nat, p: seq<byte>)
    requires n in {6, 7} && n <= |p| && NatSize(p[0]) == n
    ensures Decodes(n, p)
  {
    hide FromBig, Pow256;
    SmallPowers();
    HeadAndRest(n, p);
    if n == 6 {
      assert p[1..6] == [p[1]] + p[2..6];
      ByteThen(p[1], p[2..6]);
    } else {
      assert p[1..7] == p[1..3] + p[3..7];
      FromBigConcat(p[1..3], p[3..7]);
      FromBigBound(p[1..3]);
      FromBigBound(p[3..7]);
    }
  }

  lemma LoadIs(n: nat, p: seq<byte>)
    requires 2 <= n <= 9 && n <= |p| && NatSize(p[0]) == n
    ensures Decodes(n, p)
  {
    hide Decodes, NatSize;
    if n == 2 {
      LoadTwo(p);
    } else if n == 3 {
      LoadThree(p);
    } else if n == 4 {
      LoadFour(p);
    } else if n in {6, 7} {
      LoadSplit(n, p);
    } else if n == 5 {
      LoadFive(p);
    } else if n == 8 {
      LoadEight(p);
    } else {
      LoadNine(p);
    }
  }

  /* ------------------------------------------------------------ the codec */

  /** The first byte of an encoding tells its size. */
  lemma HeadSize(val: nat)
    requires val <= MAX64
    ensures StoreNat(val) != [] && NatSize(StoreNat(val)[0]) == |StoreNat(val)| == SizeOf(val)
  {
    hide FromBig, Pow256, StoreNat;
    StoreIs(val);
    var s := StoreNat(val);
    HeadBig(s);
    Pow256At(|s|);
  }

  /** The bytes of the nine-byte form after the first one. */
  lemma NineBytes(p: seq<byte>)
    requires |p| >= 9 && p[0] == 0xFF
    ensures FromBig(p[..9]) == 0xFF * 0x1_0000_0000_0000_0000 + FromBig(p[1..9])
    ensures FromBig(p[1..9]) < 0x1_0000_0000_0000_0000
  {
    hide FromBig, Pow256;
    HeadBig(p[..9]);
    Pow256At(9);
    assert p[..9][1..] == p[1..9];
  }

  /** Both loads invert storing, whatever follows, and skipping agrees with them. */
  lemma StoreLoads(val: nat, rest: seq<byte>)
    requires val <= MAX64
    ensures var p := StoreNat(val) + rest;
            && p != [] && NatSize(p[0]) == |StoreNat(val)|
            && LoadTrustedNat(p) == Loaded(val, |StoreNat(val)|)
            && LoadUntrustedNat(p) == Some(Loaded(val, |StoreNat(val)|))
            && SkipUntrustedNat(p) == Some(|StoreNat(val)|)
  {
    hide FromBig, Load;
    HeadSize(val);
    StoreIs(val);
    var s := StoreNat(val);
    hide StoreNat;
    var p, n := s + rest, |s|;
    assert p[..n] == s && p[0] == s[0];
    if n > 1 {
      LoadIs(n, p);
      if n == 9 {
        NineBytes(p);
      }
    } else {
      assert s == [s[0]] + [];
      ByteThen(s[0], []);
      EmptyBig();
    }
  }

  lemma LoadedIs(p: seq<byte>)
    requires LoadUntrustedNat(p).Some?
    ensures var r := LoadUntrustedNat(p).value;
            r.val <= MAX64 && r.size == NatSize(p[0]) <= |p| && Encodes(p[..r.size], r.val)
  {
    hide FromBig, Load, StoreNat, Pow256;
    var n := NatSize(p[0]);
    if n > 1 {
      LoadIs(n, p);
      if n == 9 {
        NineBytes(p);
      }
    } else {
      assert p[..1] == [p[0]] + [];
      ByteThen(p[0], []);
      EmptyBig();
    }
    assert SizeOf(LoadUntrustedNat(p).value.val) == n;
  }

  /** Whatever is accepted is the encoding of the number loaded: no number has a second one. */
  lemma LoadStores(p: seq<byte>)
    requires LoadUntrustedNat(p).Some?
    ensures var r := LoadUntrustedNat(p).value;
            r.val <= MAX64 && r.size <= |p| && StoreNat(r.val) == p[..r.size]
  {
    hide FromBig, ToBig, StoreNat, LoadUntrustedNat, NatSize, Prefix, Unit, First;
    LoadedIs(p);
    var r := LoadUntrustedNat(p).value;
    StoreIs(r.val);
    ToFromBig(StoreNat(r.val));
    ToFromBig(p[..r.size]);
  }

  /** Skipping accepts exactly what loading accepts, and moves as far. */
  lemma SkipIsLoad(p: seq<byte>)
    ensures SkipUntrustedNat(p) == match LoadUntrustedNat(p) case None => None case Some(r) => Some(r.size)
  {
    hide FromBig, Load;
    if p != [] && 1 < NatSize(p[0]) <= |p| {
      LoadIs(NatSize(p[0]), p);
      if NatSize(p[0]) == 9 {
        NineBytes(p);
      }
    }
  }

  /** No encoding starts another one. */
  lemma PrefixFree(a: nat, b: nat)
    requires a <= MAX64 && b <= MAX64 && StoreNat(a) <= StoreNat(b)
    ensures a == b
  {
    hide StoreNat, LoadTrustedNat, LoadUntrustedNat, SkipUntrustedNat, NatSize;
    var rest := StoreNat(b)[|StoreNat(a)|..];
    assert StoreNat(b) == StoreNat(a) + rest && StoreNat(b) == StoreNat(b) + [];
    StoreLoads(a, rest);
    StoreLoads(b, []);
  }

  /** Encodings compare like the numbers they stand for. */
  lemma StoreOrder(a: nat, b: nat)
    requires a <= MAX64 && b <= MAX64
    ensures Less(StoreNat(a), StoreNat(b)) <==> a < b
  {
    hide FromBig, StoreNat;
    StoreIs(a);
    StoreIs(b);
    var s, t := StoreNat(a), StoreNat(b);
    if |s| == |t| {
      BigOrder(s, t);
    } else {
      HeadSize(a);
      HeadSize(b);
      assert s[0] != t[0];
      LessAt(s, t, 0);
    }
  }

  /* ------------------------------------------------------------ writing into a buffer */

  function Written(buf: seq<byte>, pos: nat, s: seq<byte>): (r: seq<byte>)
    requires pos + |s| <= |buf|
    ensures |r| == |buf|
  {
    buf[..pos] + s + buf[pos + |s|..]
  }

  lemma WrittenTwice(buf: seq<byte>, pos: nat, s: seq<byte>, t: seq<byte>)
    requires pos + |s| + |t| <= |buf|
    ensures Written(Written(buf, pos, s), pos + |s|, t) == Written(buf, pos, s + t)
  {
  }

  method Put(out: array<byte>, pos: nat, b: byte)
    requires pos < out.Length
    modifies out
    ensures out[..] == Written(old(out[..]), pos, [b])
  {
    out[pos] := b;
    assert out[..] == old(out[..])[pos := b];
  }

  /** Store the n low bytes of v, the most significant one first. */
  method PutBig(out: array<byte>, pos: nat, v: nat, n: nat)
    requires pos + n <= out.Length
    modifies out
    ensures out[..] == Written(old(out[..]), pos, ToBig(v, n))
  {
    if n > 0 {
      PutBig(out, pos, v / 256, n - 1);
      Put(out, pos + n - 1, v % 256);
      WrittenTwice(old(out[..]), pos, ToBig(v / 256, n - 1), [v % 256]);
    }
  }

  /** Encode a number into a buffer with enough room. */
  method Store(out: array<byte>, value: nat) returns (n: nat)
    requires value <= MAX64 && SizeOf(value) <= out.Length
    modifies out
    ensures n == |StoreNat(value)| && n <= out.Length && out[..] == Written(old(out[..]), 0, StoreNat(value))
  {
    hide ToBig, Written;
    ghost var buf := out[..];
    var val := value;
    if val < 0x80 {
      Put(out, 0, val);
      n := 1;
    } else if val < 0x4080 {
      PutBig(out, 0, (val - 0x80) + 0x8000, 2);
      n := 2;
    } else if val < 0x20_4080 {
      val := val - 0x4080;
      Put(out, 0, 0xC0 + val / 0x1_0000);
      PutBig(out, 1, val % 0x1_0000, 2);
      WrittenTwice(buf, 0, [0xC0 + val / 0x1_0000], ToBig(val % 0x1_0000, 2));
      n := 3;
    } else if val < 0x1020_4080 {
      val := val - 0x20_4080;
      PutBig(out, 0, val + 0xE000_0000, 4);
      n := 4;
    } else if val < 0x08_1020_4080 {
      val := val - 0x1020_4080;
      Put(out, 0, 0xF0 + val / 0x1_0000_0000);
      PutBig(out, 1, val % 0x1_0000_0000, 4);
      WrittenTwice(buf, 0, [0xF0 + val / 0x1_0000_0000], ToBig(val % 0x1_0000_0000, 4));
      n := 5;
    } else if val < 0x0408_1020_4080 {
      val := val - 0x08_1020_4080;
      PutBig(out, 0, val / 0x1_0000_0000 + 0xF800, 2);
      PutBig(out, 2, val % 0x1_0000_0000, 4);
      WrittenTwice(buf, 0, ToBig(val / 0x1_0000_0000 + 0xF800, 2), ToBig(val % 0x1_0000_0000, 4));
      n := 6;
    } else if val < 0x02_0408_1020_4080 {
      val := val - 0x0408_1020_4080;
      ghost var a, b := ToBig(val / 0x1_0000_0000 % 0x1_0000, 2), ToBig(val % 0x1_0000_0000, 4);
      Put(out, 0, 0xFC + val / 0x1_0000_0000_0000);
      WrittenTwice(out[..], 1, a, b);
      PutBig(out, 1, val / 0x1_0000_0000 % 0x1_0000, 2);
      PutBig(out, 3, val % 0x1_0000_0000, 4);
      WrittenTwice(buf, 0, [0xFC + val / 0x1_0000_0000_0000], a + b);
      n := 7;
    } else if val < 0x0102_0408_1020_4080 {
      val := val - 0x02_0408_1020_4080;
      PutBig(out, 0, val + 0xFE00_0000_0000_0000, 8);
      n := 8;
    } else {
      val := val - 0x0102_0408_1020_4080;
      Put(out, 0, 0xFF);
      PutBig(out, 1, val, 8);
      WrittenTwice(buf, 0, [0xFF], ToBig(val, 8));
      n := 9;
    }
  }
}
