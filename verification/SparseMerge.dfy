/** Merging two ascending byte strings of at most 31 bytes: the arithmetic behind the
    sparse-with-sparse case of the block union. */
module SparseMerge {
  import opened SetVectors

  predicate SparseBytes(s: seq<nat>) {
    1 <= |s| < 32 && Ascending(s) && forall i :: 0 <= i < |s| ==> s[i] < 256
  }

  /** `out` is the merge of the first i bytes of ls and the first j bytes of rs. */
  ghost predicate Merging(ls: seq<nat>, rs: seq<nat>, out: seq<nat>, i: nat, j: nat) {
    && i <= |ls| && j <= |rs| && Ascending(out)
    && (forall x :: x in out <==> x in ls[..i] || x in rs[..j])
    && (forall a, k :: 0 <= a < |out| && i <= k < |ls| ==> out[a] < ls[k])
    && (forall a, k :: 0 <= a < |out| && j <= k < |rs| ==> out[a] < rs[k])
  }

  lemma MergingStep(ls: seq<nat>, rs: seq<nat>, out: seq<nat>, i: nat, j: nat)
    requires SparseBytes(ls) && SparseBytes(rs) && Merging(ls, rs, out, i, j) && i < |ls| && j < |rs|
    ensures var l, r := ls[i], rs[j];
            Merging(ls, rs, out + [if l <= r then l else r], if l <= r then i + 1 else i, if r <= l then j + 1 else j)
  {
    var l, r := ls[i], rs[j];
    var b := if l <= r then l else r;
    var out' := out + [b];
    var i', j' := if l <= r then i + 1 else i, if r <= l then j + 1 else j;
    assert ls[..i + 1] == ls[..i] + [l] && rs[..j + 1] == rs[..j] + [r];
    forall x ensures x in out' <==> x in ls[..i'] || x in rs[..j'] {
      assert x in out' <==> x in out || x == b;
    }
  }

  lemma MergedSet(ls: seq<nat>, rs: seq<nat>, out: seq<nat>, i: nat, j: nat)
    requires Merging(ls, rs, out, i, j)
    ensures SetOf(out) + SetOf(ls[i..]) + SetOf(rs[j..]) == SetOf(ls) + SetOf(rs)
  {
    assert ls == ls[..i] + ls[i..] && rs == rs[..j] + rs[j..];
    forall x ensures x in SetOf(out) + SetOf(ls[i..]) + SetOf(rs[j..]) <==> x in SetOf(ls) + SetOf(rs) {
      assert x in ls <==> x in ls[..i] || x in ls[i..];
      assert x in rs <==> x in rs[..j] || x in rs[j..];
    }
  }

  /** Enough room: one side is used up and the rest of the other follows in order. */
  lemma MergeFits(ls: seq<nat>, rs: seq<nat>, out: seq<nat>, i: nat, j: nat)
    requires SparseBytes(ls) && SparseBytes(rs) && Merging(ls, rs, out, i, j) && (i == |ls| || j == |rs|)
    ensures var bytes := out + ls[i..] + rs[j..];
            && Ascending(bytes) && SetOf(bytes) == SetOf(ls) + SetOf(rs)
            && (forall k :: 0 <= k < |bytes| ==> bytes[k] < 256)
            && |bytes| >= 1
  {
    var bytes := out + ls[i..] + rs[j..];
    MergedSet(ls, rs, out, i, j);
    assert SetOf(bytes) == SetOf(out) + SetOf(ls[i..]) + SetOf(rs[j..]);
    if i == |ls| {
      assert bytes == out + rs[j..];
    } else {
      assert bytes == out + ls[i..];
    }
    BytesSmall(ls, rs, bytes);
    assert ls[0] in SetOf(bytes);
  }

  lemma BytesSmall(ls: seq<nat>, rs: seq<nat>, bytes: seq<nat>)
    requires SparseBytes(ls) && SparseBytes(rs) && SetOf(bytes) == SetOf(ls) + SetOf(rs)
    ensures forall k :: 0 <= k < |bytes| ==> bytes[k] < 256
  {
    forall k | 0 <= k < |bytes| ensures bytes[k] < 256 {
      assert bytes[k] in SetOf(bytes);
      assert bytes[k] in ls || bytes[k] in rs;
    }
  }

  lemma CardAtLeast(s: seq<nat>, bits: set<nat>)
    requires Ascending(s) && forall x :: x in s ==> x in bits
    ensures |bits| >= |s|
  {
    AscendingCard(s);
    assert SetOf(s) <= bits;
    assert bits == SetOf(s) + (bits - SetOf(s));
  }

  lemma UnionSmall(ls: seq<nat>, rs: seq<nat>)
    requires SparseBytes(ls) && SparseBytes(rs)
    ensures |SetOf(ls) + SetOf(rs)| <= 62 && forall b :: b in SetOf(ls) + SetOf(rs) ==> b < 256
  {
    AscendingCard(ls);
    AscendingCard(rs);
    assert |SetOf(ls) + SetOf(rs)| <= |SetOf(ls)| + |SetOf(rs)|;
  }

  /** Too many bytes: the union has between 32 and 62 elements, so it is dense. */
  lemma MergeOverflows(ls: seq<nat>, rs: seq<nat>, out: seq<nat>, i: nat, j: nat)
    requires SparseBytes(ls) && SparseBytes(rs) && Merging(ls, rs, out, i, j)
    requires i == |ls| || j == |rs| || |out| == 31
    requires |out| + (|ls| - i) + (|rs| - j) >= 32
    ensures var bits := SetOf(ls) + SetOf(rs);
            32 <= |bits| < 256 && forall b :: b in bits ==> b < 256
  {
    var bits := SetOf(ls) + SetOf(rs);
    UnionSmall(ls, rs);
    if i < |ls| && j < |rs| {
      OneMoreByte(ls, rs, out, i, j);
      CardAtLeast(out + [ls[i]], bits);
    } else {
      MergeFits(ls, rs, out, i, j);
      CardAtLeast(out + ls[i..] + rs[j..], bits);
    }
  }

  lemma OneMoreByte(ls: seq<nat>, rs: seq<nat>, out: seq<nat>, i: nat, j: nat)
    requires SparseBytes(ls) && Merging(ls, rs, out, i, j) && i < |ls|
    ensures Ascending(out + [ls[i]]) && forall x :: x in out + [ls[i]] ==> x in SetOf(ls) + SetOf(rs)
  {
    forall x | x in out + [ls[i]] ensures x in SetOf(ls) + SetOf(rs) {
      if x in out {
        assert x in ls[..i] || x in rs[..j];
      } else {
        assert x == ls[i];
      }
    }
  }
}
