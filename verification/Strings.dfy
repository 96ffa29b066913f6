/** Mangled strings: embedded NULs become 0 1, and the string ends with 0 0. */
module Strings {
  import opened Pointers
  import opened Bytes

  function Mangle(s: seq<byte>): (r: seq<byte>)
    ensures |r| >= 2
  {
    if s == [] then [0, 0]
    else if s[0] == 0 then [0, 1] + Mangle(s[1..])
    else [s[0]] + Mangle(s[1..])
  }

  /** The mangled form without its terminator. */
  function Body(s: seq<byte>): (r: seq<byte>) {
    if s == [] then [] else (if s[0] == 0 then [0, 1] else [s[0]]) + Body(s[1..])
  }

  lemma {:induction false} MangleBody(s: seq<byte>)
    ensures Mangle(s) == Body(s) + [0, 0]
  {
    if s != [] {
      MangleBody(s[1..]);
    }
  }

  lemma {:induction false} BodyConcat(a: seq<byte>, b: seq<byte>)
    ensures Body(a + b) == Body(a) + Body(b)
  {
    if a == [] {
      assert a + b == b;
    } else {
      assert (a + b)[1..] == a[1..] + b;
      BodyConcat(a[1..], b);
    }
  }

  lemma {:induction false} BodyPlain(s: seq<byte>)
    requires forall i :: 0 <= i < |s| ==> s[i] != 0
    ensures Body(s) == s
  {
    if s != [] {
      BodyPlain(s[1..]);
    }
  }

  /** The position of the first NUL from p on, or the end. */
  method FindNul(s: seq<byte>, p: nat) returns (q: nat)
    requires p <= |s|
    ensures p <= q <= |s| && (q < |s| ==> s[q] == 0) && forall i :: p <= i < q ==> s[i] != 0
  {
    q := p;
    while q < |s| && s[q] != 0
      invariant p <= q <= |s| && forall i :: p <= i < q ==> s[i] != 0
    {
      q := q + 1;
    }
  }

  /** Copy up to and including each NUL, then add a 1. */
  method MangleString(s: seq<byte>) returns (out: seq<byte>)
    ensures out == Mangle(s)
  {
    out := [];
    var p := 0;
    var q := FindNul(s, p);
    assert s[..0] == [];
    while q < |s|
      invariant 0 <= p <= q <= |s| && out == Body(s[..p]) && (q < |s| ==> s[q] == 0) && forall i :: p <= i < q ==> s[i] != 0
      decreases |s| - p
    {
      var next := q + 1;
      BodyStep(s, p, q);
      out := out + s[p..next] + [1];
      p := next;
      q := FindNul(s, p);
    }
    BodyEnd(s, p);
    out := out + s[p..] + [0, 0];
    MangleBody(s);
  }

  lemma BodyStep(s: seq<byte>, p: nat, q: nat)
    requires p <= q < |s| && s[q] == 0 && forall i :: p <= i < q ==> s[i] != 0
    ensures Body(s[..q + 1]) == Body(s[..p]) + s[p..q + 1] + [1]
  {
    BodyPlain(s[p..q]);
    assert s[..q + 1] == s[..p] + (s[p..q] + [0]);
    BodyConcat(s[..p], s[p..q] + [0]);
    BodyConcat(s[p..q], [0]);
    assert Body([0]) == [0, 1] + Body([]);
    assert s[p..q + 1] == s[p..q] + [0];
  }

  lemma BodyEnd(s: seq<byte>, p: nat)
    requires p <= |s| && forall i :: p <= i < |s| ==> s[i] != 0
    ensures Body(s) == Body(s[..p]) + s[p..]
  {
    BodyPlain(s[p..]);
    assert s == s[..p] + s[p..];
    BodyConcat(s[..p], s[p..]);
  }

  /* ------------------------------------------------------------ demangling */

  datatype Parsed = Parsed(text: seq<byte>, size: nat)

  /** What a trusted reader makes of bytes: a NUL ends the string when another one follows, and
      stands for itself otherwise; None when the bytes end too early. */
  function Demangle(bs: seq<byte>): Option<Parsed> {
    if bs == [] then None
    else if bs[0] != 0 then
      match Demangle(bs[1..]) case None => None case Some(r) => Some(Parsed([bs[0]] + r.text, r.size + 1))
    else if |bs| == 1 then None
    else if bs[1] == 0 then Some(Parsed([], 2))
    else match Demangle(bs[2..]) case None => None case Some(r) => Some(Parsed([0] + r.text, r.size + 2))
  }

  function Nuls(s: seq<byte>): nat {
    if s == [] then 0 else (if s[0] == 0 then 1 else 0) + Nuls(s[1..])
  }

  /** Demangling inverts mangling, whatever follows. */
  lemma {:induction false} DemangleMangle(s: seq<byte>, rest: seq<byte>)
    ensures Demangle(Mangle(s) + rest) == Some(Parsed(s, |Mangle(s)|))
    ensures |Mangle(s)| == |s| + Nuls(s) + 2
  {
    var bs := Mangle(s) + rest;
    if s != [] {
      DemangleMangle(s[1..], rest);
      if s[0] == 0 {
        assert bs[2..] == Mangle(s[1..]) + rest;
      } else {
        assert bs[1..] == Mangle(s[1..]) + rest;
      }
      assert s == [s[0]] + s[1..];
    }
  }

  /** Bytes in which every NUL is followed by 0 or 1 are read as the mangled string they start
      with. */
  lemma {:induction false} MangleDemangle(bs: seq<byte>)
    requires Demangle(bs).Some? && forall i :: 0 <= i < |bs| - 1 && bs[i] == 0 ==> bs[i + 1] <= 1
    ensures var r := Demangle(bs).value; r.size <= |bs| && Mangle(r.text) == bs[..r.size]
  {
    if bs[0] != 0 {
      MangleDemangle(bs[1..]);
      var r := Demangle(bs[1..]).value;
      assert bs[..r.size + 1] == [bs[0]] + bs[1..][..r.size];
    } else if bs[1] != 0 {
      MangleDemangle(bs[2..]);
      var r := Demangle(bs[2..]).value;
      assert bs[..r.size + 2] == [0, 1] + bs[2..][..r.size];
    } else {
      assert bs[..2] == [0, 0];
    }
  }

  /** A chunk that ends with an embedded NUL. */
  lemma {:induction false} DemangleChunk(bs: seq<byte>, q: nat)
    requires q + 1 < |bs| && bs[q] == 0 && bs[q + 1] != 0 && forall i :: 0 <= i < q ==> bs[i] != 0
    ensures Demangle(bs) == Prepend(bs[..q + 1], q + 2, Demangle(bs[q + 2..]))
  {
    if q == 0 {
      assert bs[..1] == [0];
    } else {
      DemangleChunk(bs[1..], q - 1);
      assert bs[1..][q + 1..] == bs[q + 2..];
      assert [bs[0]] + bs[1..][..q] == bs[..q + 1];
      PrependTwice([bs[0]], 1, bs[1..][..q], q + 1, Demangle(bs[q + 2..]));
    }
  }

  /** The last chunk. */
  lemma {:induction false} DemangleLast(bs: seq<byte>, q: nat)
    requires q <= |bs| && (forall i :: 0 <= i < q ==> bs[i] != 0) && (q < |bs| ==> bs[q] == 0)
    requires q + 1 >= |bs| || bs[q + 1] == 0
    ensures Demangle(bs) == if q + 1 < |bs| then Some(Parsed(bs[..q], q + 2)) else None
  {
    if q > 0 {
      DemangleLast(bs[1..], q - 1);
      assert q + 1 < |bs| ==> [bs[0]] + bs[1..][..q - 1] == bs[..q];
    }
  }

  function Prepend(text: seq<byte>, size: nat, r: Option<Parsed>): Option<Parsed> {
    match r case None => None case Some(p) => Some(Parsed(text + p.text, size + p.size))
  }

  /** Go through the chunks of a mangled string and return its text, its size and the number of
      chunks; None where the original aborts. */
  method TrustedChunks(bs: seq<byte>) returns (r: Option<Parsed>, chunks: nat)
    ensures r == Demangle(bs)
    ensures r.Some? ==> chunks == Nuls(r.value.text) + 1
  {
    hide Demangle, Nuls;
    var p := 0;
    var text := [];
    chunks := 0;
    assert bs[0..] == bs;
    PrependNothing(Demangle(bs));
    NulsOf([], 0);
    while true
      invariant p <= |bs| && Prepend(text, p, Demangle(bs[p..])) == Demangle(bs) && chunks == Nuls(text)
      decreases |bs| - p
    {
      var q := FindNul(bs, p);
      ghost var rest := bs[p..];
      if q >= |bs| || q + 1 >= |bs| {
        DemangleLast(rest, q - p);
        return None, chunks;
      }
      if bs[q + 1] == 0 {
        DemangleLast(rest, q - p);
        assert rest[..q - p] == bs[p..q];
        NulsPlain(text, bs[p..q]);
        return Some(Parsed(text + bs[p..q], q + 2)), chunks + 1;
      }
      DemangleChunk(rest, q - p);
      assert rest[q - p + 2..] == bs[q + 2..] && rest[..q - p + 1] == bs[p..q] + [0];
      NulsPlain(text, bs[p..q]);
      NulsConcat(text + bs[p..q], [0]);
      NulsOf([0], 1);
      assert bs[p..q + 1] == bs[p..q] + [0];
      assert text + bs[p..q + 1] == text + bs[p..q] + [0];
      PrependTwice(text, p, bs[p..q] + [0], q - p + 2, Demangle(bs[q + 2..]));
      text := text + bs[p..q + 1];
      chunks := chunks + 1;
      p := q + 2;
    }
  }

  lemma PrependNothing(r: Option<Parsed>)
    ensures Prepend([], 0, r) == r
  {
    if r.Some? {
      assert [] + r.value.text == r.value.text;
    }
  }

  lemma PrependTwice(a: seq<byte>, m: nat, b: seq<byte>, n: nat, r: Option<Parsed>)
    ensures Prepend(a, m, Prepend(b, n, r)) == Prepend(a + b, m + n, r)
  {
    if r.Some? {
      assert a + (b + r.value.text) == a + b + r.value.text;
    }
  }

  lemma NulsOf(s: seq<byte>, n: nat)
    requires (s == [] && n == 0) || (s == [0] && n == 1)
    ensures Nuls(s) == n
  {
  }

  lemma {:induction false} NulsConcat(a: seq<byte>, b: seq<byte>)
    ensures Nuls(a + b) == Nuls(a) + Nuls(b)
  {
    if a == [] {
      assert a + b == b;
    } else {
      assert (a + b)[1..] == a[1..] + b;
      NulsConcat(a[1..], b);
    }
  }

  lemma {:induction false} NulsPlain(a: seq<byte>, b: seq<byte>)
    requires forall i :: 0 <= i < |b| ==> b[i] != 0
    ensures Nuls(a + b) == Nuls(a)
    decreases |b|
  {
    NulsConcat(a, b);
    if b != [] {
      NulsPlain([], b[1..]);
      assert [] + b[1..] == b[1..];
    }
  }

  /** The mangled and the demangled size, from the number of chunks alone. */
  method SkipTrustedString(bs: seq<byte>) returns (r: Option<(nat, nat)>)
    ensures r.None? <==> Demangle(bs).None?
    ensures r.Some? ==> r.value == (Demangle(bs).value.size, |Demangle(bs).value.text|)
  {
    hide Demangle, Nuls;
    var parsed, chunks := TrustedChunks(bs);
    if parsed.None? {
      return None;
    }
    DemangledSize(bs);
    r := Some((parsed.value.size, parsed.value.size - chunks - 1));
  }

  lemma {:induction false} DemangledSize(bs: seq<byte>)
    requires Demangle(bs).Some?
    ensures var r := Demangle(bs).value; r.size == |r.text| + Nuls(r.text) + 2
  {
    if bs[0] != 0 {
      DemangledSize(bs[1..]);
      var t := Demangle(bs[1..]).value.text;
      assert ([bs[0]] + t)[1..] == t;
    } else if bs[1] != 0 {
      DemangledSize(bs[2..]);
      var t := Demangle(bs[2..]).value.text;
      assert ([0] + t)[1..] == t;
    }
  }

  /* ------------------------------------------------------------ order */

  /** Mangled strings compare like the strings themselves. */
  lemma {:induction false} MangleOrder(a: seq<byte>, b: seq<byte>)
    ensures Less(Mangle(a), Mangle(b)) <==> Less(a, b)
  {
    if a == [] || b == [] {
      if a == b {
        LessIrreflexive(Mangle(a));
      } else if a == [] {
        var n := if b[0] == 0 then 1 else 0;
        LessAt(Mangle(a), Mangle(b), n);
      } else {
        var n := if a[0] == 0 then 1 else 0;
        LessAt(Mangle(a), Mangle(b), n);
      }
    } else if a[0] == b[0] {
      MangleOrder(a[1..], b[1..]);
      LessPrefix(if a[0] == 0 then [0, 1] else [a[0]], Mangle(a[1..]), Mangle(b[1..]));
    } else {
      LessAt(Mangle(a), Mangle(b), 0);
    }
  }

  /** No mangled string starts another one; in particular, mangling is injective. */
  lemma ManglePrefixFree(a: seq<byte>, b: seq<byte>)
    requires Mangle(a) <= Mangle(b)
    ensures a == b
  {
    hide Mangle, Demangle;
    var rest := Mangle(b)[|Mangle(a)|..];
    assert Mangle(b) == Mangle(a) + rest && Mangle(b) == Mangle(b) + [];
    DemangleMangle(a, rest);
    DemangleMangle(b, []);
  }
}
