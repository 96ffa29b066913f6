/** The abstract view of a compressed set: a list of 256-element blocks in ascending order of
    their ids, and the set of numbers such a list denotes. */
module Blocks {

  /** Block `id` holds the numbers id * 256 + b for b in bits. */
  datatype Blk = Blk(id: nat, bits: set<nat>)

  ghost predicate Bits256(bits: set<nat>) {
    forall b :: b in bits ==> b < 256
  }

  ghost predicate Ordered(l: seq<Blk>) {
    && (forall i, j :: 0 <= i < j < |l| ==> l[i].id < l[j].id)
    && (forall i :: 0 <= i < |l| ==> l[i].bits != {} && Bits256(l[i].bits))
  }

  ghost predicate In(l: seq<Blk>, x: nat) {
    exists i :: 0 <= i < |l| && l[i].id == x / 256 && x % 256 in l[i].bits
  }

  ghost function Elems(l: seq<Blk>): set<nat> {
    set i, b | 0 <= i < |l| && b in l[i].bits :: l[i].id * 256 + b
  }

  lemma ElemsIn(l: seq<Blk>, x: nat)
    requires forall i :: 0 <= i < |l| ==> Bits256(l[i].bits)
    ensures x in Elems(l) <==> In(l, x)
  {
    if In(l, x) {
      var i :| 0 <= i < |l| && l[i].id == x / 256 && x % 256 in l[i].bits;
      assert x == l[i].id * 256 + x % 256;
    }
  }

  lemma ElemsConcat(a: seq<Blk>, b: seq<Blk>)
    ensures Elems(a + b) == Elems(a) + Elems(b)
  {
    var c := a + b;
    forall x | x in Elems(a) + Elems(b) ensures x in Elems(c) {
      if x in Elems(a) {
        var i, k :| 0 <= i < |a| && k in a[i].bits && x == a[i].id * 256 + k;
        assert c[i] == a[i];
      } else {
        var i, k :| 0 <= i < |b| && k in b[i].bits && x == b[i].id * 256 + k;
        assert c[|a| + i] == b[i];
      }
    }
    forall x | x in Elems(c) ensures x in Elems(a) + Elems(b) {
      var i, k :| 0 <= i < |c| && k in c[i].bits && x == c[i].id * 256 + k;
      if i < |a| {
        assert c[i] == a[i];
      } else {
        assert c[i] == b[i - |a|];
      }
    }
  }

  /** Merging two blocks of the same id merges what they denote. */
  lemma ElemsMerge(id: nat, a: set<nat>, b: set<nat>)
    ensures Elems([Blk(id, a + b)]) == Elems([Blk(id, a)]) + Elems([Blk(id, b)])
  {
    var u, l, r := [Blk(id, a + b)], [Blk(id, a)], [Blk(id, b)];
    forall x | x in Elems(l) + Elems(r) ensures x in Elems(u) {
      if x in Elems(l) {
        var i, k :| 0 <= i < |l| && k in l[i].bits && x == l[i].id * 256 + k;
        assert k in u[0].bits;
      } else {
        var i, k :| 0 <= i < |r| && k in r[i].bits && x == r[i].id * 256 + k;
        assert k in u[0].bits;
      }
    }
    forall x | x in Elems(u) ensures x in Elems(l) + Elems(r) {
      var i, k :| 0 <= i < |u| && k in u[i].bits && x == u[i].id * 256 + k;
      assert k in l[0].bits || k in r[0].bits;
    }
  }

  /* ------------------------------------------------------------ inclusion, block by block */

  ghost predicate Covered(b: Blk, l: seq<Blk>) {
    exists i :: 0 <= i < |l| && l[i].id == b.id && b.bits <= l[i].bits
  }

  lemma CoveredSuffices(r: seq<Blk>, l: seq<Blk>)
    requires forall j :: 0 <= j < |r| ==> Covered(r[j], l)
    ensures Elems(r) <= Elems(l)
  {
    forall x | x in Elems(r) ensures x in Elems(l) {
      var j, k :| 0 <= j < |r| && k in r[j].bits && x == r[j].id * 256 + k;
      var i :| 0 <= i < |l| && l[i].id == r[j].id && r[j].bits <= l[i].bits;
      assert k in l[i].bits;
    }
  }

  /** A block that no block of l covers holds a number that l lacks. */
  lemma UncoveredWitness(r: seq<Blk>, j: nat, l: seq<Blk>)
    requires Ordered(r) && Ordered(l) && j < |r| && !Covered(r[j], l)
    ensures !(Elems(r) <= Elems(l))
  {
    if i :| 0 <= i < |l| && l[i].id == r[j].id {
      var k :| k in r[j].bits && k !in l[i].bits;
      Missing(r, j, k, l);
    } else {
      var k :| k in r[j].bits;
      Missing(r, j, k, l);
    }
  }

  lemma Missing(r: seq<Blk>, j: nat, k: nat, l: seq<Blk>)
    requires Ordered(r) && Ordered(l) && j < |r| && k in r[j].bits
    requires forall i :: 0 <= i < |l| && l[i].id == r[j].id ==> k !in l[i].bits
    ensures r[j].id * 256 + k in Elems(r) && r[j].id * 256 + k !in Elems(l)
  {
    var x := r[j].id * 256 + k;
    assert x / 256 == r[j].id && x % 256 == k;
    ElemsIn(l, x);
  }

  /** The block at position n of b occurs, covered, in a at position n or later. */
  lemma NextBlock(a: seq<Blk>, b: seq<Blk>, n: nat)
    requires Ordered(a) && Ordered(b) && Elems(b) <= Elems(a)
    requires n < |b| && n <= |a| && forall i :: 0 <= i < n ==> a[i] == b[i]
    ensures exists i :: n <= i < |a| && a[i].id == b[n].id && b[n].bits <= a[i].bits
  {
    if !Covered(b[n], a) {
      UncoveredWitness(b, n, a);
    }
    var i :| 0 <= i < |a| && a[i].id == b[n].id && b[n].bits <= a[i].bits;
    assert i >= n;
  }

  lemma {:induction false} SamePrefix(a: seq<Blk>, b: seq<Blk>, n: nat)
    requires Ordered(a) && Ordered(b) && Elems(a) == Elems(b)
    requires n <= |a| && n <= |b|
    ensures forall i :: 0 <= i < n ==> a[i] == b[i]
  {
    if n > 0 {
      var m := n - 1;
      SamePrefix(a, b, m);
      NextBlock(a, b, m);
      NextBlock(b, a, m);
      var i :| m <= i < |b| && b[i].id == a[m].id && a[m].bits <= b[i].bits;
      var j :| m <= j < |a| && a[j].id == b[m].id && b[m].bits <= a[j].bits;
      assert b[m].id <= b[i].id && a[m].id <= a[j].id;
      assert i == m && j == m;
    }
  }

  /** Two ordered block lists that denote the same numbers are the same list. */
  lemma OrderedUnique(a: seq<Blk>, b: seq<Blk>)
    requires Ordered(a) && Ordered(b) && Elems(a) == Elems(b)
    ensures a == b
  {
    if |a| <= |b| {
      SamePrefix(a, b, |a|);
      if |a| < |b| {
        NextBlock(a, b, |a|);
      }
    } else {
      SamePrefix(a, b, |b|);
      NextBlock(b, a, |b|);
    }
  }
}
