/** Prefix seeks over the keys of one predicate, in lexicographic order. */
module Seek {
  import opened Bytes

  /* ------------------------------------------------------------ the end of a prefix window */

  /** The smallest string above everything with prefix p; empty when there is none. */
  function LexNext(p: seq<byte>): seq<byte> {
    if p == [] then []
    else if p[|p| - 1] == 0xFF then LexNext(p[..|p| - 1])
    else p[..|p| - 1] + [p[|p| - 1] + 1]
  }

  /** Scan backwards over 0xFF bytes, then increment the last byte that is left. */
  method LexicographicallyNext(range: seq<byte>) returns (bytes: seq<byte>)
    ensures bytes == LexNext(range)
  {
    var pos := |range|;
    assert range[..pos] == range;
    while pos > 0 && range[pos - 1] == 0xFF
      invariant pos <= |range| && LexNext(range[..pos]) == LexNext(range)
    {
      assert range[..pos][..pos - 1] == range[..pos - 1];
      pos := pos - 1;
    }
    bytes := range[..pos];
    if bytes != [] {
      bytes := bytes[|bytes| - 1 := bytes[|bytes| - 1] + 1];
    }
  }

  /** How the end of the window is built: p is q followed by 0xFF bytes, and q loses its last
      byte to its successor. */
  lemma {:induction false} LexNextShape(p: seq<byte>) returns (n: nat)
    ensures n <= |p| && forall i :: n <= i < |p| ==> p[i] == 0xFF
    ensures n == 0 ==> LexNext(p) == []
    ensures n > 0 ==> p[n - 1] < 0xFF && LexNext(p) == p[..n - 1] + [p[n - 1] + 1]
  {
    if p == [] {
      n := 0;
    } else if p[|p| - 1] == 0xFF {
      var q := p[..|p| - 1];
      n := LexNextShape(q);
      assert n > 0 ==> q[..n - 1] == p[..n - 1];
    } else {
      n := |p|;
    }
  }

  /** The first place where k leaves p. */
  lemma {:induction false} FirstDifference(p: seq<byte>, k: seq<byte>) returns (d: nat)
    requires !(p <= k)
    ensures d < |p| && d <= |k| && p[..d] == k[..d] && (d == |k| || p[d] != k[d])
  {
    assert p[..|p|] == p;
    d := 0;
    while d < |k| && d < |p| && p[d] == k[d]
      invariant d <= |p| && d <= |k| && p[..d] == k[..d]
    {
      d := d + 1;
    }
  }

  /** A key lies in the window exactly when it has the prefix. */
  lemma WindowIsPrefix(p: seq<byte>, k: seq<byte>)
    ensures p <= k <==> !Less(k, p) && (LexNext(p) == [] || Less(k, LexNext(p)))
  {
    var n := LexNextShape(p);
    if p <= k {
      PrefixBelow(p, k, n);
    } else {
      PrefixMissed(p, k, n);
    }
  }

  lemma PrefixBelow(p: seq<byte>, k: seq<byte>, n: nat)
    requires p <= k && n <= |p| && (n > 0 ==> p[n - 1] < 0xFF && LexNext(p) == p[..n - 1] + [p[n - 1] + 1])
    ensures !Less(k, p) && (n > 0 ==> Less(k, LexNext(p)))
  {
    hide Less, LexNext;
    if k == p {
      LessIrreflexive(p);
    } else {
      PrefixLess(p, k);
      if Less(k, p) {
        LessTransitive(k, p, k);
        LessIrreflexive(k);
      }
    }
    if n > 0 {
      var e := LexNext(p);
      assert k[..n - 1] == e[..n - 1] && k[n - 1] == p[n - 1];
      LessAt(k, e, n - 1);
    }
  }

  lemma PrefixMissed(p: seq<byte>, k: seq<byte>, n: nat)
    requires !(p <= k) && n <= |p| && forall i :: n <= i < |p| ==> p[i] == 0xFF
    requires n == 0 ==> LexNext(p) == []
    requires n > 0 ==> p[n - 1] < 0xFF && LexNext(p) == p[..n - 1] + [p[n - 1] + 1]
    ensures !Less(k, p) ==> LexNext(p) != [] && !Less(k, LexNext(p))
  {
    hide Less, LexNext;
    var d := FirstDifference(p, k);
    LessAt(k, p, d);
    if !Less(k, p) {
      assert d < n && k[d] > p[d];
      var e := LexNext(p);
      assert k[..d] == e[..d];
      if k[d] == e[d] {
        assert d == n - 1 && e == k[..n];
        if e == k {
          LessIrreflexive(k);
        } else if Less(k, e) {
          PrefixLess(e, k);
          LessTransitive(k, e, k);
          LessIrreflexive(k);
        }
      } else {
        LessAt(k, e, d);
      }
    }
  }

  /* ------------------------------------------------------------ the index */

  datatype Entry = Entry(key: seq<byte>, id: nat)

  predicate Sorted(s: seq<Entry>) {
    forall i, j :: 0 <= i < j < |s| ==> Less(s[i].key, s[j].key)
  }

  /** Entries are facts. */
  predicate Sound(s: seq<Entry>, keys: map<seq<byte>, nat>) {
    forall i :: 0 <= i < |s| ==> s[i].key in keys && keys[s[i].key] == s[i].id
  }

  /** The position of the first entry not below key. */
  function LowerBound(s: seq<Entry>, key: seq<byte>): (r: nat)
    ensures r <= |s| && forall i :: 0 <= i < r ==> Less(s[i].key, key)
    ensures r < |s| ==> !Less(s[r].key, key)
  {
    if s == [] || !Less(s[0].key, key) then 0
    else
      var r := LowerBound(s[1..], key);
      assert forall i :: 1 <= i < r + 1 ==> s[i] == s[1..][i - 1];
      1 + r
  }

  lemma LowerBoundAbove(s: seq<Entry>, key: seq<byte>, i: nat)
    requires Sorted(s) && LowerBound(s, key) <= i < |s|
    ensures !Less(s[i].key, key)
  {
    var r := LowerBound(s, key);
    if i > r && Less(s[i].key, key) {
      LessTransitive(s[r].key, s[i].key, key);
    }
  }

  /** What a seek has to deliver: the facts with the prefix that are not below start, in order. */
  ghost predicate IsWindow(keys: map<seq<byte>, nat>, start: seq<byte>, prefixSize: nat, w: seq<Entry>) {
    && prefixSize <= |start| && Sorted(w) && Sound(w, keys)
    && (forall i :: 0 <= i < |w| ==> start[..prefixSize] <= w[i].key && !Less(w[i].key, start))
    && (forall k :: k in keys && start[..prefixSize] <= k && !Less(k, start) ==> Entry(k, keys[k]) in w)
  }

  ghost predicate Complete(index: seq<Entry>, keys: map<seq<byte>, nat>) {
    forall k :: k in keys ==> Entry(k, keys[k]) in index
  }

  lemma SortedKeys(index: seq<Entry>) returns (ks: set<seq<byte>>)
    requires Sorted(index)
    ensures ks == (set e | e in index :: e.key) && |ks| == |index|
  {
    hide Less;
    ks := set e | e in index :: e.key;
    if index != [] {
      var n := |index| - 1;
      var rest := SortedKeys(index[..n]);
      assert index == index[..n] + [index[n]];
      assert ks == rest + {index[n].key};
      LessIrreflexive(index[n].key);
      assert index[n].key !in rest by {
        forall e | e in index[..n] ensures e.key != index[n].key {
          var i :| 0 <= i < n && index[..n][i] == e;
          assert Less(index[i].key, index[n].key);
        }
      }
    }
  }

  /** An index of facts that has as many entries as there are facts has them all. */
  lemma SameSizeComplete(index: seq<Entry>, keys: map<seq<byte>, nat>)
    requires Sorted(index) && Sound(index, keys) && |index| == |keys|
    ensures Complete(index, keys)
  {
    var ks := SortedKeys(index);
    assert ks <= keys.Keys by {
      forall k | k in ks ensures k in keys {
        var e :| e in index && e.key == k;
        var i :| 0 <= i < |index| && index[i] == e;
      }
    }
    assert |keys.Keys| == |keys|;
    SubsetSame(ks, keys.Keys);
    forall k | k in keys ensures Entry(k, keys[k]) in index {
      assert k in ks;
      var e :| e in index && e.key == k;
      var i :| 0 <= i < |index| && index[i] == e;
    }
  }

  lemma SubsetSame(a: set<seq<byte>>, b: set<seq<byte>>)
    requires a <= b && |a| == |b|
    ensures a == b
  {
    assert b == a + (b - a);
    assert |b - a| == 0;
  }

  /** Cutting a complete index at two lower bounds gives exactly the prefix window. */
  lemma CutIsWindow(index: seq<Entry>, keys: map<seq<byte>, nat>, start: seq<byte>, prefixSize: nat)
    requires Sorted(index) && Sound(index, keys) && Complete(index, keys) && prefixSize <= |start|
    ensures var next := LexNext(start[..prefixSize]);
            var lo, hi := LowerBound(index, start), if next == [] then |index| else LowerBound(index, next);
            lo <= hi && IsWindow(keys, start, prefixSize, index[lo..hi])
  {
    hide LexNext, Less;
    var p := start[..prefixSize];
    var next := LexNext(p);
    var lo, hi := LowerBound(index, start), if next == [] then |index| else LowerBound(index, next);
    WindowIsPrefix(p, start);
    if lo > hi {
      LowerBoundAbove(index, next, hi);
      LessTransitive(index[hi].key, start, next);
    }
    CutExact(index, keys, start, prefixSize, lo, hi);
  }

  lemma CutExact(index: seq<Entry>, keys: map<seq<byte>, nat>, start: seq<byte>, prefixSize: nat, lo: nat, hi: nat)
    requires Sorted(index) && Sound(index, keys) && Complete(index, keys) && prefixSize <= |start| && lo <= hi <= |index|
    requires var next := LexNext(start[..prefixSize]);
             lo == LowerBound(index, start) && hi == if next == [] then |index| else LowerBound(index, next)
    ensures IsWindow(keys, start, prefixSize, index[lo..hi])
  {
    hide LexNext, Less, LowerBound, Sorted, Sound, Complete;
    var p, w := start[..prefixSize], index[lo..hi];
    CutParts(index, keys, lo, hi);
    forall i | 0 <= i < |w| ensures p <= w[i].key && !Less(w[i].key, start) {
      InWindow(index, start, prefixSize, lo + i);
    }
    forall k | k in keys && p <= k && !Less(k, start) ensures Entry(k, keys[k]) in w {
      CutHolds(index, keys, start, prefixSize, lo, hi, k);
    }
  }

  lemma CutHolds(index: seq<Entry>, keys: map<seq<byte>, nat>, start: seq<byte>, prefixSize: nat, lo: nat, hi: nat, k: seq<byte>)
    requires Sorted(index) && Complete(index, keys) && prefixSize <= |start| && lo <= hi <= |index|
    requires var next := LexNext(start[..prefixSize]);
             lo == LowerBound(index, start) && hi == if next == [] then |index| else LowerBound(index, next)
    requires k in keys && start[..prefixSize] <= k && !Less(k, start)
    ensures Entry(k, keys[k]) in index[lo..hi]
  {
    hide LexNext, Less, LowerBound, Sorted;
    assert Entry(k, keys[k]) in index;
    var i :| 0 <= i < |index| && index[i] == Entry(k, keys[k]);
    InWindow(index, start, prefixSize, i);
    assert index[lo..hi][i - lo] == index[i];
  }

  lemma CutParts(index: seq<Entry>, keys: map<seq<byte>, nat>, lo: nat, hi: nat)
    requires Sorted(index) && Sound(index, keys) && lo <= hi <= |index|
    ensures Sorted(index[lo..hi]) && Sound(index[lo..hi], keys)
  {
    hide Less;
  }

  lemma InWindow(index: seq<Entry>, start: seq<byte>, prefixSize: nat, i: nat)
    requires Sorted(index) && prefixSize <= |start| && i < |index|
    ensures var p := start[..prefixSize];
            var next := LexNext(p);
            var lo, hi := LowerBound(index, start), if next == [] then |index| else LowerBound(index, next);
            lo <= i < hi <==> p <= index[i].key && !Less(index[i].key, start)
  {
    hide LexNext, Less;
    var p := start[..prefixSize];
    var next := LexNext(p);
    var k := index[i].key;
    WindowIsPrefix(p, k);
    if LowerBound(index, start) <= i {
      LowerBoundAbove(index, start, i);
      NotBelow(k, start, p);
    }
    if next != [] && LowerBound(index, next) <= i {
      LowerBoundAbove(index, next, i);
    }
  }

  lemma NotBelow(k: seq<byte>, start: seq<byte>, p: seq<byte>)
    requires !Less(k, start) && p <= start
    ensures !Less(k, p)
  {
    if Less(k, p) {
      if p == start {
      } else {
        PrefixLess(p, start);
        LessTransitive(k, p, start);
      }
    }
  }

  /** The facts of one predicate, with an index that is filled when it is first needed. */
  class FactIndex {
    // from the key of a fact to its id
    var keys: map<seq<byte>, nat>
    var index: seq<Entry>

    constructor ()
      ensures Valid() && keys == map[]
    {
      keys, index := map[], [];
    }

    predicate Valid()
      reads this
    {
      Sorted(index) && Sound(index, keys)
    }

    /** Facts are added, never removed. */
    method Define(key: seq<byte>, id: nat)
      requires Valid() && key !in keys
      modifies this`keys
      ensures Valid() && keys == old(keys)[key := id]
    {
      keys := keys[key := id];
    }

    method Insert(e: Entry)
      requires Valid() && e.key in keys && keys[e.key] == e.id && e !in index
      modifies this`index
      ensures Valid() && forall x :: x in index <==> x in old(index) || x == e
    {
      hide LowerBound, InsertAt, Sorted, Sound;
      var i := LowerBound(index, e.key);
      InsertSorted(index, keys, e);
      index := InsertAt(index, i, e);
    }

    /** Bring the index up to date.  Comparing sizes is enough, because facts only get added. */
    method Refresh()
      requires Valid()
      modifies this`index
      ensures Valid() && Complete(index, keys)
    {
      if |index| != |keys| {
        index := [];
        var todo := keys.Keys;
        while todo != {}
          invariant Valid() && todo <= keys.Keys
          invariant forall k :: k in keys && k !in todo ==> Entry(k, keys[k]) in index
          invariant forall k :: k in todo ==> Entry(k, keys[k]) !in index
          decreases todo
        {
          var k :| k in todo;
          Insert(Entry(k, keys[k]));
          todo := todo - {k};
        }
      } else {
        SameSizeComplete(index, keys);
      }
    }

    /** The facts whose keys have the first prefixSize bytes of start as prefix and are not below
        start, in order. */
    method Seek(start: seq<byte>, prefixSize: nat) returns (w: seq<Entry>)
      requires Valid() && prefixSize <= |start|
      modifies this`index
      ensures Valid() && IsWindow(keys, start, prefixSize, w)
    {
      hide IsWindow, LowerBound, LexNext;
      Refresh();
      var next := LexicographicallyNext(start[..prefixSize]);
      CutIsWindow(index, keys, start, prefixSize);
      w := index[LowerBound(index, start)..if next == [] then |index| else LowerBound(index, next)];
    }
  }

  function InsertAt(s: seq<Entry>, i: nat, e: Entry): (r: seq<Entry>)
    requires i <= |s|
    ensures |r| == |s| + 1
    ensures forall j :: 0 <= j < |r| ==> r[j] == if j < i then s[j] else if j == i then e else s[j - 1]
  {
    s[..i] + [e] + s[i..]
  }

  lemma InsertMembers(s: seq<Entry>, i: nat, e: Entry, x: Entry)
    requires i <= |s|
    ensures x in InsertAt(s, i, e) <==> x in s || x == e
  {
    assert s == s[..i] + s[i..];
  }

  lemma InsertSound(s: seq<Entry>, keys: map<seq<byte>, nat>, i: nat, e: Entry)
    requires Sound(s, keys) && i <= |s| && e.key in keys && keys[e.key] == e.id
    ensures Sound(InsertAt(s, i, e), keys)
  {
  }

  lemma InsertBetween(s: seq<Entry>, i: nat, e: Entry)
    requires Sorted(s) && i <= |s|
    requires forall j :: 0 <= j < i ==> Less(s[j].key, e.key)
    requires forall j :: i <= j < |s| ==> Less(e.key, s[j].key)
    ensures Sorted(InsertAt(s, i, e))
  {
    hide Less;
    var r := InsertAt(s, i, e);
    hide InsertAt;
    forall j, k | 0 <= j < k < |r| ensures Less(r[j].key, r[k].key) {
      if k < i {
        assert r[j] == s[j] && r[k] == s[k];
      } else if k == i {
        assert r[j] == s[j] && r[k] == e;
      } else if j < i {
        assert r[j] == s[j] && r[k] == s[k - 1];
      } else if j == i {
        assert r[j] == e && r[k] == s[k - 1];
      } else {
        assert r[j] == s[j - 1] && r[k] == s[k - 1];
      }
    }
  }

  lemma InsertSorted(index: seq<Entry>, keys: map<seq<byte>, nat>, e: Entry)
    requires Sorted(index) && Sound(index, keys) && e.key in keys && keys[e.key] == e.id && e !in index
    ensures var r := InsertAt(index, LowerBound(index, e.key), e);
            Sorted(r) && Sound(r, keys) && forall x :: x in r <==> x in index || x == e
  {
    hide Less, LowerBound, Sorted, InsertAt;
    var i := LowerBound(index, e.key);
    forall j | i <= j < |index| ensures Less(e.key, index[j].key) {
      LowerBoundAbove(index, e.key, j);
      LessTotal(index[j].key, e.key);
      assert index[j] != e;
    }
    InsertBetween(index, i, e);
    InsertSound(index, keys, i, e);
    forall x ensures x in InsertAt(index, i, e) <==> x in index || x == e {
      InsertMembers(index, i, e, x);
    }
  }

  /* ------------------------------------------------------------ windows are unique */

  lemma SameElements(keys: map<seq<byte>, nat>, start: seq<byte>, prefixSize: nat, v: seq<Entry>, w: seq<Entry>)
    requires IsWindow(keys, start, prefixSize, v) && IsWindow(keys, start, prefixSize, w)
    ensures forall e :: e in v <==> e in w
  {
    hide Less;
    forall e | e in v ensures e in w {
      var i :| 0 <= i < |v| && v[i] == e;
      assert e == Entry(e.key, keys[e.key]);
    }
    forall e | e in w ensures e in v {
      var i :| 0 <= i < |w| && w[i] == e;
      assert e == Entry(e.key, keys[e.key]);
    }
  }

  /** Sorted sequences with the same elements are the same. */
  lemma {:induction false} SortedUnique(v: seq<Entry>, w: seq<Entry>)
    requires Sorted(v) && Sorted(w) && forall e :: e in v <==> e in w
    ensures v == w
  {
    hide Less;
    assert w != [] ==> w[0] in w;
    if v != [] {
      assert v[0] in w && v[0] in v;
      var i :| 0 <= i < |w| && w[i] == v[0];
      assert w[0] in v;
      var j :| 0 <= j < |v| && v[j] == w[0];
      assert i == 0 || j == 0 by {
        LessIrreflexive(v[0].key);
        if i > 0 && j > 0 {
          LessTransitive(v[0].key, w[0].key, v[0].key);
        }
      }
      TailSame(v, w);
      SortedUnique(v[1..], w[1..]);
      assert v == [v[0]] + v[1..] && w == [w[0]] + w[1..];
    }
  }

  lemma TailSame(v: seq<Entry>, w: seq<Entry>)
    requires Sorted(v) && Sorted(w) && v != [] && w != [] && v[0] == w[0] && forall e :: e in v <==> e in w
    ensures Sorted(v[1..]) && Sorted(w[1..]) && forall e :: e in v[1..] <==> e in w[1..]
  {
    hide Less;
    TailWithoutHead(v);
    TailWithoutHead(w);
  }

  lemma TailWithoutHead(v: seq<Entry>)
    requires Sorted(v) && v != []
    ensures forall e :: e in v[1..] <==> e in v && e != v[0]
  {
    hide Less;
    assert v == [v[0]] + v[1..];
    if v[0] in v[1..] {
      var i :| 0 <= i < |v[1..]| && v[1..][i] == v[0];
      assert Less(v[0].key, v[i + 1].key);
      LessIrreflexive(v[0].key);
    }
  }

  lemma WindowUnique(keys: map<seq<byte>, nat>, start: seq<byte>, prefixSize: nat, v: seq<Entry>, w: seq<Entry>)
    requires IsWindow(keys, start, prefixSize, v) && IsWindow(keys, start, prefixSize, w)
    ensures v == w
  {
    SameElements(keys, start, prefixSize, v, w);
    SortedUnique(v, w);
  }

  /** What is left of a window is the window that starts at the next key. */
  lemma TailIsWindow(keys: map<seq<byte>, nat>, start: seq<byte>, prefixSize: nat, w: seq<Entry>, pos: nat)
    requires IsWindow(keys, start, prefixSize, w) && pos < |w|
    ensures IsWindow(keys, w[pos].key, prefixSize, w[pos..])
  {
    hide Less;
    var key, tail := w[pos].key, w[pos..];
    assert key[..prefixSize] == start[..prefixSize];
    forall i | 0 <= i < |tail| ensures !Less(tail[i].key, key) {
      LessIrreflexive(key);
      if i > 0 && Less(tail[i].key, key) {
        assert Less(w[pos].key, w[pos + i].key);
        LessTransitive(key, tail[i].key, key);
      }
    }
    forall k | k in keys && key[..prefixSize] <= k && !Less(k, key) ensures Entry(k, keys[k]) in tail {
      if Less(k, start) {
        NotBelowThrough(k, start, key);
      }
      var i :| 0 <= i < |w| && w[i] == Entry(k, keys[k]);
      assert i >= pos;
      assert tail[i - pos] == w[i];
    }
  }

  lemma NotBelowThrough(k: seq<byte>, start: seq<byte>, key: seq<byte>)
    requires Less(k, start) && !Less(key, start)
    ensures Less(k, key)
  {
    LessTotal(start, key);
    if start != key {
      LessTransitive(k, start, key);
    }
  }
}
