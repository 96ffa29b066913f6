/** What it means to reach a fact. */
module Reachability {
  // Facts refer to facts with smaller ids; reachability unfolds when they are visited from the
  // largest id down.

  /** The references of every fact in the database. */
  type Graph = map<nat, seq<nat>>

  predicate Backward(g: Graph) {
    forall f, k :: f in g && 0 <= k < |g[f]| ==> g[f][k] < f
  }

  predicate Edge(g: Graph, a: nat, b: nat) {
    a in g && b in g[a]
  }

  ghost predicate Path(g: Graph, p: seq<nat>) {
    |p| > 0 && forall k :: 0 <= k < |p| - 1 ==> Edge(g, p[k], p[k + 1])
  }

  /** Some chain of references leads from a to b (a reaches itself). */
  ghost predicate Reaches(g: Graph, a: nat, b: nat) {
    exists p :: Path(g, p) && p[0] == a && p[|p| - 1] == b
  }

  lemma EdgeDown(g: Graph, a: nat, b: nat)
    requires Backward(g) && Edge(g, a, b)
    ensures b < a
  {
  }

  /** a reaches b through facts with ids in k..n only (b itself may be smaller). */
  ghost predicate Via(g: Graph, k: nat, n: nat, a: nat, b: nat)
    decreases n - b
  {
    a == b || exists m :: k <= m < n && b < m && Edge(g, m, b) && Via(g, k, n, a, m)
  }

  /** Visiting fact k adds exactly the chains whose last step leaves k. */
  lemma {:induction false} ViaVisit(g: Graph, k: nat, n: nat, a: nat, b: nat)
    requires Backward(g) && k < n
    ensures Via(g, k, n, a, b) <==> Via(g, k + 1, n, a, b) || (Edge(g, k, b) && Via(g, k + 1, n, a, k))
    decreases n - b
  {
    if a != b {
      if Via(g, k, n, a, b) {
        var m :| k <= m < n && b < m && Edge(g, m, b) && Via(g, k, n, a, m);
        ViaVisit(g, k, n, a, m);
        if m > k && Edge(g, k, m) {
          EdgeDown(g, k, m);
        }
        if m == k && Edge(g, k, k) {
          EdgeDown(g, k, k);
        }
      }
      if Via(g, k + 1, n, a, b) {
        var m :| k + 1 <= m < n && b < m && Edge(g, m, b) && Via(g, k + 1, n, a, m);
        ViaVisit(g, k, n, a, m);
      }
      if Edge(g, k, b) && Via(g, k + 1, n, a, k) {
        EdgeDown(g, k, b);
        ViaVisit(g, k, n, a, k);
      }
    }
  }

  /** Nothing has been visited yet. */
  lemma ViaNone(g: Graph, n: nat, a: nat, b: nat)
    ensures Via(g, n, n, a, b) <==> a == b
  {
  }

  lemma {:induction false} ViaIsPath(g: Graph, n: nat, a: nat, b: nat)
    requires Via(g, 0, n, a, b)
    ensures Reaches(g, a, b)
    decreases n - b
  {
    if a == b {
      assert Path(g, [a]);
    } else {
      var m :| 0 <= m < n && b < m && Edge(g, m, b) && Via(g, 0, n, a, m);
      ViaIsPath(g, n, a, m);
      var p :| Path(g, p) && p[0] == a && p[|p| - 1] == m;
      var q := p + [b];
      assert Path(g, q);
    }
  }

  lemma {:induction false} PathIsVia(g: Graph, n: nat, p: seq<nat>)
    requires Backward(g) && Path(g, p) && p[0] < n
    ensures p[|p| - 1] <= p[0] && Via(g, 0, n, p[0], p[|p| - 1])
    decreases |p|
  {
    var e := |p| - 1;
    if e > 0 {
      var q := p[..e];
      assert forall k :: 0 <= k < |q| - 1 ==> Edge(g, p[k], p[k + 1]);
      PathIsVia(g, n, q);
      assert Edge(g, p[e - 1], p[e]);
      EdgeDown(g, p[e - 1], p[e]);
    }
  }

  /** When everything has been visited, Via is reachability. */
  lemma ViaAll(g: Graph, n: nat, a: nat, b: nat)
    requires Backward(g) && a < n
    ensures Via(g, 0, n, a, b) <==> Reaches(g, a, b)
  {
    if Via(g, 0, n, a, b) {
      ViaIsPath(g, n, a, b);
    }
    if p :| Path(g, p) && p[0] == a && p[|p| - 1] == b {
      PathIsVia(g, n, p);
    }
  }

  /* ------------------------------------------------------------ owners */

  /** Unit u owns fact i once the facts in k..n have been visited: it owns some fact that
      reaches i through them. */
  ghost predicate Owns(g: Graph, raw: seq<set<nat>>, k: nat, i: nat, u: nat) {
    exists a :: 0 <= a < |raw| && u in raw[a] && Via(g, k, |raw|, a, i)
  }

  /** Unit u owns fact i: it owns some fact from which references lead to i. */
  ghost predicate TransitivelyOwns(g: Graph, raw: seq<set<nat>>, i: nat, u: nat) {
    exists a :: 0 <= a < |raw| && u in raw[a] && Reaches(g, a, i)
  }

  lemma OwnsNone(g: Graph, raw: seq<set<nat>>, i: nat, u: nat)
    ensures Owns(g, raw, |raw|, i, u) <==> i < |raw| && u in raw[i]
  {
    if i < |raw| && u in raw[i] {
      ViaNone(g, |raw|, i, i);
    }
    if a :| 0 <= a < |raw| && u in raw[a] && Via(g, |raw|, |raw|, a, i) {
      ViaNone(g, |raw|, a, i);
    }
  }

  lemma OwnsVisit(g: Graph, raw: seq<set<nat>>, k: nat, i: nat, u: nat)
    requires Backward(g) && k < |raw|
    ensures Owns(g, raw, k, i, u) <==> Owns(g, raw, k + 1, i, u) || (Edge(g, k, i) && Owns(g, raw, k + 1, k, u))
  {
    var n := |raw|;
    if a :| 0 <= a < n && u in raw[a] && Via(g, k, n, a, i) {
      ViaVisit(g, k, n, a, i);
    }
    if a :| 0 <= a < n && u in raw[a] && Via(g, k + 1, n, a, i) {
      ViaVisit(g, k, n, a, i);
    }
    if Edge(g, k, i) && Owns(g, raw, k + 1, k, u) {
      var a :| 0 <= a < n && u in raw[a] && Via(g, k + 1, n, a, k);
      ViaVisit(g, k, n, a, i);
    }
  }

  lemma OwnsAll(g: Graph, raw: seq<set<nat>>, i: nat, u: nat)
    requires Backward(g)
    ensures Owns(g, raw, 0, i, u) <==> TransitivelyOwns(g, raw, i, u)
  {
    if a :| 0 <= a < |raw| && u in raw[a] && Via(g, 0, |raw|, a, i) {
      ViaAll(g, |raw|, a, i);
    }
    if a :| 0 <= a < |raw| && u in raw[a] && Reaches(g, a, i) {
      ViaAll(g, |raw|, a, i);
    }
  }

  lemma ReachesTransitive(g: Graph, a: nat, b: nat, c: nat)
    requires Reaches(g, a, b) && Reaches(g, b, c)
    ensures Reaches(g, a, c)
  {
    var p :| Path(g, p) && p[0] == a && p[|p| - 1] == b;
    var q :| Path(g, q) && q[0] == b && q[|q| - 1] == c;
    var r := p + q[1..];
    forall k | 0 <= k < |r| - 1 ensures Edge(g, r[k], r[k + 1]) {
      if k < |p| - 1 {
        assert Edge(g, p[k], p[k + 1]);
      } else {
        var j := k - (|p| - 1);
        assert Edge(g, q[j], q[j + 1]);
        assert r[k] == q[j] && r[k + 1] == q[j + 1];
      }
    }
    assert Path(g, r);
    assert r[|r| - 1] == c;
  }
}
