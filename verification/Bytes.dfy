/** Byte strings: big-endian numbers and the lexicographic order. */
module Bytes {
  type byte = b: int | 0 <= b < 256

  /** memcmp order, shorter strings first. */
  predicate Less(a: seq<byte>, b: seq<byte>) {
    b != [] && (a == [] || a[0] < b[0] || (a[0] == b[0] && Less(a[1..], b[1..])))
  }

  /** A string is below another when it is a proper prefix or smaller where they first differ. */
  lemma {:induction false} LessAt(a: seq<byte>, b: seq<byte>, k: nat)
    requires k <= |a| && k < |b| && a[..k] == b[..k] && (k == |a| || a[k] != b[k])
    ensures Less(a, b) <==> k == |a| || a[k] < b[k]
  {
    if k > 0 {
      assert a[0] == a[..k][0] && b[0] == b[..k][0];
      assert a[1..][..k - 1] == a[..k][1..] && b[1..][..k - 1] == b[..k][1..];
      LessAt(a[1..], b[1..], k - 1);
    }
  }

  /** Common prefixes do not matter. */
  lemma {:induction false} LessPrefix(p: seq<byte>, a: seq<byte>, b: seq<byte>)
    ensures Less(p + a, p + b) <==> Less(a, b)
  {
    if p == [] {
      assert p + a == a && p + b == b;
    } else {
      assert (p + a)[1..] == p[1..] + a && (p + b)[1..] == p[1..] + b;
      LessPrefix(p[1..], a, b);
    }
  }

  lemma {:induction false} LessIrreflexive(a: seq<byte>)
    ensures !Less(a, a)
  {
    if a != [] {
      LessIrreflexive(a[1..]);
    }
  }

  lemma {:induction false} LessTransitive(a: seq<byte>, b: seq<byte>, c: seq<byte>)
    requires Less(a, b) && Less(b, c)
    ensures Less(a, c)
  {
    if a != [] && a[0] == b[0] == c[0] {
      LessTransitive(a[1..], b[1..], c[1..]);
    }
  }

  lemma {:induction false} LessTotal(a: seq<byte>, b: seq<byte>)
    ensures Less(a, b) || a == b || Less(b, a)
  {
    if a != [] && b != [] && a[0] == b[0] {
      LessTotal(a[1..], b[1..]);
      assert a == [a[0]] + a[1..] && b == [b[0]] + b[1..];
    }
  }

  /** A proper prefix is smaller. */
  lemma {:induction false} PrefixLess(a: seq<byte>, b: seq<byte>)
    requires a <= b && a != b
    ensures Less(a, b)
  {
    LessAt(a, b, |a|);
  }

  /* ------------------------------------------------------------ big-endian numbers */

  function Pow256(n: nat): (r: nat)
    ensures r > 0
  {
    if n == 0 then 1 else 256 * Pow256(n - 1)
  }

  /** The n low bytes of v. */
  function ToBig(v: nat, n: nat): (r: seq<byte>)
    ensures |r| == n
  {
    if n == 0 then [] else ToBig(v / 256, n - 1) + [v % 256]
  }

  function FromBig(s: seq<byte>): nat {
    if s == [] then 0 else FromBig(s[..|s| - 1]) * 256 + s[|s| - 1]
  }

  lemma {:induction false} FromBigBound(s: seq<byte>)
    ensures FromBig(s) < Pow256(|s|)
  {
    if s != [] {
      FromBigBound(s[..|s| - 1]);
    }
  }

  lemma {:induction false} FromToBig(v: nat, n: nat)
    requires v < Pow256(n)
    ensures FromBig(ToBig(v, n)) == v
  {
    if n > 0 {
      FromToBig(v / 256, n - 1);
      assert ToBig(v, n)[..n - 1] == ToBig(v / 256, n - 1);
    }
  }

  lemma {:induction false} ToFromBig(s: seq<byte>)
    ensures ToBig(FromBig(s), |s|) == s
  {
    if s != [] {
      var n := |s| - 1;
      ToFromBig(s[..n]);
      assert FromBig(s) / 256 == FromBig(s[..n]);
      assert s == s[..n] + [s[n]];
    }
  }

  lemma {:induction false} FromBigConcat(a: seq<byte>, b: seq<byte>)
    ensures FromBig(a + b) == FromBig(a) * Pow256(|b|) + FromBig(b)
  {
    if b == [] {
      assert a + b == a;
    } else {
      var n := |b| - 1;
      FromBigConcat(a, b[..n]);
      assert (a + b)[..|a + b| - 1] == a + b[..n];
      assert (FromBig(a) * Pow256(n)) * 256 == FromBig(a) * Pow256(|b|);
    }
  }

  lemma HeadBig(s: seq<byte>)
    requires s != []
    ensures FromBig(s) == s[0] * Pow256(|s| - 1) + FromBig(s[1..]) && FromBig(s[1..]) < Pow256(|s| - 1)
  {
    hide Pow256;
    assert s == [s[0]] + s[1..];
    FromBigConcat([s[0]], s[1..]);
    FromBigBound(s[1..]);
    assert FromBig([s[0]]) == s[0];
  }

  lemma Positional(a: nat, x: nat, b: nat, y: nat, m: nat)
    requires x < m && y < m
    ensures a * m + x < b * m + y <==> a < b || (a == b && x < y)
  {
    if a < b {
      MulAbove(a, b, m);
    } else if b < a {
      MulAbove(b, a, m);
    }
  }

  lemma {:induction false} MulAbove(a: nat, b: nat, m: nat)
    requires a < b
    ensures a * m + m <= b * m
  {
    var c: nat := b - 1;
    assert b * m == c * m + m;
    if a < c {
      MulAbove(a, c, m);
    }
  }

  /** Strings of equal length compare like numbers. */
  lemma {:induction false} BigOrder(a: seq<byte>, b: seq<byte>)
    requires |a| == |b|
    ensures Less(a, b) <==> FromBig(a) < FromBig(b)
  {
    hide FromBig, Pow256;
    if a != [] {
      BigOrder(a[1..], b[1..]);
      HeadBig(a);
      HeadBig(b);
      Positional(a[0], FromBig(a[1..]), b[0], FromBig(b[1..]), Pow256(|a| - 1));
    } else {
      assert a == b;
    }
  }
}
