/** Expanding query results: recording every fact that the results lead to, once. */
module Nested {
  import opened Reachability

  /** A reference in a clause: the fact, and the predicate the type of the clause says it has. */
  datatype Reference = Reference(id: nat, pid: nat)

  datatype DbFact = DbFact(pid: nat, refs: seq<Reference>)

  datatype Depth = ResultsOnly | ExpandRecursive | ExpandPartial

  predicate Allowed(depth: Depth, expandPids: set<nat>, pid: nat) {
    depth == ExpandPartial ==> pid in expandPids
  }

  /** The ids of those references that may be followed, in order. */
  function AllowedIds(depth: Depth, expandPids: set<nat>, refs: seq<Reference>): (r: seq<nat>) {
    if refs == [] then []
    else
      var n := |refs| - 1;
      AllowedIds(depth, expandPids, refs[..n]) + if Allowed(depth, expandPids, refs[n].pid) then [refs[n].id] else []
  }

  /** The references that may be followed from each fact of the database. */
  function Links(db: map<nat, DbFact>, depth: Depth, expandPids: set<nat>): Graph {
    map f | f in db :: AllowedIds(depth, expandPids, db[f].refs)
  }

  /** Some root leads to id. */
  ghost predicate FromRoots(g: Graph, roots: set<nat>, id: nat) {
    exists a :: a in roots && Reaches(g, a, id)
  }

  lemma RootReached(g: Graph, roots: set<nat>, id: nat)
    requires id in roots
    ensures FromRoots(g, roots, id)
  {
    assert Path(g, [id]);
    assert Reaches(g, id, id);
  }

  lemma StepReached(g: Graph, roots: set<nat>, a: nat, b: nat)
    requires FromRoots(g, roots, a) && Edge(g, a, b)
    ensures FromRoots(g, roots, b)
  {
    var r :| r in roots && Reaches(g, r, a);
    var p := [a, b];
    assert Path(g, p) && p[0] == a && p[|p| - 1] == b;
    ReachesTransitive(g, r, a, b);
  }

  /** A set that holds the roots and everything one step away from it holds all that is reached. */
  lemma {:induction false} ClosedHolds(g: Graph, closed: set<nat>, p: seq<nat>)
    requires Path(g, p) && p[0] in closed && forall a, b :: a in closed && Edge(g, a, b) ==> b in closed
    ensures p[|p| - 1] in closed
    decreases |p|
  {
    var e := |p| - 1;
    if e > 0 {
      var q := p[..e];
      assert forall k :: 0 <= k < |q| - 1 ==> Edge(g, p[k], p[k + 1]);
      ClosedHolds(g, closed, q);
      assert Edge(g, p[e - 1], p[e]);
    }
  }

  /* ------------------------------------------------------------ the state of the expansion */

  predicate NoDuplicates(s: seq<nat>) {
    forall i, j :: 0 <= i < j < |s| ==> s[i] != s[j]
  }

  /** Everything added is reached from a root; it waits, or has been looked up, recorded if it
      exists, and all its references added. */
  ghost predicate Expanding(g: Graph, roots: set<nat>, added: set<nat>, ids: seq<nat>, pending: seq<nat>) {
    && (forall id :: id in added ==> FromRoots(g, roots, id))
    && roots <= added && NoDuplicates(ids) && NoDuplicates(pending)
    && (forall id :: id in ids <==> id in added && id !in pending && id in g)
    && (forall k :: 0 <= k < |pending| ==> pending[k] in added)
    && (forall a, b :: a in added && a !in pending && Edge(g, a, b) ==> b in added)
  }

  /** With nothing waiting, the recorded facts are exactly the existing ones reached, each once. */
  lemma ExpandedExactly(g: Graph, roots: set<nat>, added: set<nat>, ids: seq<nat>)
    requires Expanding(g, roots, added, ids, [])
    ensures NoDuplicates(ids) && forall id :: id in ids <==> id in g && FromRoots(g, roots, id)
  {
    forall id | FromRoots(g, roots, id) ensures id in added {
      var r :| r in roots && Reaches(g, r, id);
      var p :| Path(g, p) && p[0] == r && p[|p| - 1] == id;
      ClosedHolds(g, added, p);
    }
  }

  /** While the references of fact a are being added, the first n of them are there. */
  ghost predicate Following(g: Graph, roots: set<nat>, added: set<nat>, ids: seq<nat>, pending: seq<nat>, a: nat, refs: seq<nat>) {
    && (forall id :: id in added ==> FromRoots(g, roots, id))
    && roots <= added && NoDuplicates(ids) && NoDuplicates(pending) && a !in pending
    && (forall id :: id in ids <==> id in added && id !in pending && id in g && id != a)
    && (forall k :: 0 <= k < |pending| ==> pending[k] in added)
    && (forall x, y :: x in added && x !in pending && x != a && Edge(g, x, y) ==> y in added)
    && a in added && forall k :: 0 <= k < |refs| ==> refs[k] in added
  }

  lemma Push(g: Graph, roots: set<nat>, added: set<nat>, ids: seq<nat>, pending: seq<nat>, a: nat, refs: seq<nat>, id: nat)
    requires Following(g, roots, added, ids, pending, a, refs) && Edge(g, a, id)
    ensures id in added ==> Following(g, roots, added, ids, pending, a, refs + [id])
    ensures id !in added ==> Following(g, roots, added + {id}, ids, pending + [id], a, refs + [id])
  {
    hide Edge, FromRoots;
    StepReached(g, roots, a, id);
    if id !in added {
      assert id !in pending;
    }
  }

  lemma RootsGrow(g: Graph, roots: set<nat>, id: nat)
    ensures forall x :: FromRoots(g, roots, x) ==> FromRoots(g, roots + {id}, x)
  {
    forall x | FromRoots(g, roots, x) ensures FromRoots(g, roots + {id}, x) {
      var a :| a in roots && Reaches(g, a, x);
      assert a in roots + {id};
    }
  }

  /** A result's own references become roots. */
  lemma AddRoot(g: Graph, roots: set<nat>, added: set<nat>, ids: seq<nat>, pending: seq<nat>, id: nat)
    requires Expanding(g, roots, added, ids, pending)
    ensures id in added ==> Expanding(g, roots + {id}, added, ids, pending)
    ensures id !in added ==> Expanding(g, roots + {id}, added + {id}, ids, pending + [id])
  {
    hide Edge, FromRoots;
    RootsGrow(g, roots, id);
    RootReached(g, roots + {id}, id);
    if id !in added {
      assert id !in pending && id !in ids;
    }
  }

  lemma Pop(g: Graph, roots: set<nat>, added: set<nat>, ids: seq<nat>, pending: seq<nat>)
    requires Expanding(g, roots, added, ids, pending) && pending != []
    ensures var n := |pending| - 1;
            && (pending[n] !in g ==> Expanding(g, roots, added, ids, pending[..n]))
            && (pending[n] in g ==> Following(g, roots, added, ids, pending[..n], pending[n], []))
  {
    hide FromRoots;
    var n := |pending| - 1;
    var rest := pending[..n];
    assert pending == rest + [pending[n]];
    assert pending[n] !in rest;
    forall x ensures x in rest <==> x in pending && x != pending[n] {
    }
  }

  lemma Record(g: Graph, roots: set<nat>, added: set<nat>, ids: seq<nat>, pending: seq<nat>, a: nat)
    requires a in g && Following(g, roots, added, ids, pending, a, g[a])
    ensures Expanding(g, roots, added, ids + [a], pending)
  {
    hide FromRoots;
    assert a !in ids;
    forall y | Edge(g, a, y) ensures y in added {
      var k :| 0 <= k < |g[a]| && g[a][k] == y;
    }
  }

  /* ------------------------------------------------------------ termination */

  /** All ids that can ever be added. */
  ghost function Universe(g: Graph, roots: set<nat>): set<nat> {
    roots + set a, b | a in g && b in g[a] :: b
  }

  /** What is still to do: ids not added yet, and ids waiting. */
  ghost function Work(g: Graph, roots: set<nat>, added: set<nat>, pending: seq<nat>): nat {
    |Universe(g, roots) - added| + |pending|
  }

  lemma WorkPush(g: Graph, roots: set<nat>, added: set<nat>, pending: seq<nat>, id: nat)
    requires id !in added && id in Universe(g, roots)
    ensures Work(g, roots, added + {id}, pending + [id]) == Work(g, roots, added, pending)
  {
    var u := Universe(g, roots);
    assert u - added == (u - (added + {id})) + {id};
  }

  lemma EdgeInside(g: Graph, roots: set<nat>, a: nat, b: nat)
    requires Edge(g, a, b)
    ensures b in Universe(g, roots)
  {
  }

  /* ------------------------------------------------------------ the executor */

  class QueryExecutor {
    const db: map<nat, DbFact>
    const inventory: set<nat>
    const depth: Depth
    const expandPids: set<nat>
    const pid: nat
    // a traversal was given for results, so that their predicate need not be known
    const traverse: bool
    var resultsAdded: set<nat>
    var resultIds: seq<nat>
    var nestedAdded: set<nat>
    var nestedIds: seq<nat>
    var nestedPending: seq<nat>
    // references of all results expanded so far
    ghost var roots: set<nat>

    constructor (db: map<nat, DbFact>, inventory: set<nat>, depth: Depth, expandPids: set<nat>, pid: nat, traverse: bool)
      ensures Valid() && this.db == db && this.depth == depth && this.expandPids == expandPids && this.pid == pid
      ensures this.inventory == inventory && this.traverse == traverse && resultIds == [] && resultsAdded == {} && roots == {}
    {
      this.db, this.inventory, this.depth, this.expandPids, this.pid := db, inventory, depth, expandPids, pid;
      this.traverse := traverse;
      resultsAdded, resultIds, nestedAdded, nestedIds, nestedPending, roots := {}, [], {}, [], [], {};
    }

    ghost function G(): Graph {
      Links(db, depth, expandPids)
    }

    ghost predicate Valid()
      reads this
    {
      Expanding(G(), roots, nestedAdded, nestedIds, nestedPending) && nestedPending == []
    }

    /** Remember a fact for expansion unless its predicate is not to be expanded or it was met
        before. */
    method NestedFact(r: Reference)
      modifies this`nestedAdded, this`nestedPending
      ensures if Allowed(depth, expandPids, r.pid) && r.id !in old(nestedAdded)
              then nestedAdded == old(nestedAdded) + {r.id} && nestedPending == old(nestedPending) + [r.id]
              else nestedAdded == old(nestedAdded) && nestedPending == old(nestedPending)
    {
      if depth == ExpandPartial && r.pid !in expandPids {
        return;
      }
      if r.id !in nestedAdded {
        nestedAdded := nestedAdded + {r.id};
        nestedPending := nestedPending + [r.id];
      }
    }

    /** Add the references of a result. */
    method AddRoots(refs: seq<Reference>)
      requires Expanding(G(), roots, nestedAdded, nestedIds, nestedPending)
      modifies this`nestedAdded, this`nestedPending, this`roots
      ensures Expanding(G(), roots, nestedAdded, nestedIds, nestedPending)
      ensures roots == old(roots) + set id | id in AllowedIds(depth, expandPids, refs)
    {
      hide Expanding, Links;
      var i := 0;
      assert refs[..0] == [];
      while i < |refs|
        invariant i <= |refs| && Expanding(G(), roots, nestedAdded, nestedIds, nestedPending)
        invariant roots == old(roots) + set id | id in AllowedIds(depth, expandPids, refs[..i])
      {
        assert refs[..i + 1][..i] == refs[..i];
        AddRoot(G(), roots, nestedAdded, nestedIds, nestedPending, refs[i].id);
        NestedFact(refs[i]);
        if Allowed(depth, expandPids, refs[i].pid) {
          roots := roots + {refs[i].id};
        }
        i := i + 1;
      }
      assert refs[..|refs|] == refs;
    }

    /** Add the references of a fact that has been taken from the stack. */
    method Follow(a: nat)
      requires a in db && Following(G(), roots, nestedAdded, nestedIds, nestedPending, a, [])
      modifies this`nestedAdded, this`nestedPending
      ensures Following(G(), roots, nestedAdded, nestedIds, nestedPending, a, G()[a])
      ensures Work(G(), roots, nestedAdded, nestedPending) == Work(G(), roots, old(nestedAdded), old(nestedPending))
    {
      hide Following, Work, Universe;
      var refs := db[a].refs;
      var i := 0;
      assert refs[..0] == [];
      while i < |refs|
        invariant i <= |refs|
        invariant Following(G(), roots, nestedAdded, nestedIds, nestedPending, a, AllowedIds(depth, expandPids, refs[..i]))
        invariant Work(G(), roots, nestedAdded, nestedPending) == Work(G(), roots, old(nestedAdded), old(nestedPending))
      {
        assert refs[..i + 1][..i] == refs[..i];
        if Allowed(depth, expandPids, refs[i].pid) {
          AllowedEdge(db, depth, expandPids, a, i);
          Push(G(), roots, nestedAdded, nestedIds, nestedPending, a, AllowedIds(depth, expandPids, refs[..i]), refs[i].id);
          EdgeInside(G(), roots, a, refs[i].id);
          if refs[i].id !in nestedAdded {
            WorkPush(G(), roots, nestedAdded, nestedPending, refs[i].id);
          }
        } else {
          assert AllowedIds(depth, expandPids, refs[..i + 1]) == AllowedIds(depth, expandPids, refs[..i]);
        }
        NestedFact(refs[i]);
        i := i + 1;
      }
      assert refs[..|refs|] == refs;
    }

    /** Look up facts from the stack until it is empty. */
    method Expand()
      requires Expanding(G(), roots, nestedAdded, nestedIds, nestedPending)
      modifies this`nestedAdded, this`nestedPending, this`nestedIds
      ensures Valid()
    {
      hide Expanding, Following, Work, Links;
      while nestedPending != []
        invariant Expanding(G(), roots, nestedAdded, nestedIds, nestedPending)
        decreases Work(G(), roots, nestedAdded, nestedPending)
      {
        Pop(G(), roots, nestedAdded, nestedIds, nestedPending);
        WorkPop(G(), roots, nestedAdded, nestedPending);
        var n := |nestedPending| - 1;
        var id := nestedPending[n];
        nestedPending := nestedPending[..n];
        LinksKeys(db, depth, expandPids);
        if id in db {
          Follow(id);
          Record(G(), roots, nestedAdded, nestedIds, nestedPending, id);
          nestedIds := nestedIds + [id];
        }
      }
    }

    /** Record a result, and expand what its clause refers to when asked to.  The answer is false
        for a predicate that is not known. */
    method ResultWithPid(id: nat, refs: seq<Reference>, pid: nat, rec: bool) returns (ok: bool)
      requires Valid()
      modifies this`resultIds, this`nestedAdded, this`nestedPending, this`nestedIds, this`roots
      ensures Valid() && resultIds == old(resultIds) + [id]
      ensures ok == (traverse || pid in inventory || !(rec || depth != ResultsOnly))
      ensures roots == old(roots) + if (rec || depth != ResultsOnly) && ok then set r | r in AllowedIds(depth, expandPids, refs) else {}
    {
      hide Expanding;
      resultIds := resultIds + [id];
      if rec || depth != ResultsOnly {
        if !traverse && pid !in inventory {
          return false;
        }
        AddRoots(refs);
        Expand();
      }
      ok := true;
    }

    /** Record a result unless it has been recorded before. */
    method Result(id: nat, refs: seq<Reference>) returns (added: bool, ok: bool)
      requires Valid()
      modifies this
      ensures Valid() && added == (id !in old(resultsAdded)) && resultsAdded == old(resultsAdded) + {id}
      ensures resultIds == if added then old(resultIds) + [id] else old(resultIds)
      ensures ok == (!added || traverse || pid in inventory || depth == ResultsOnly)
      ensures roots == old(roots) + if added && ok && depth != ResultsOnly then set r | r in AllowedIds(depth, expandPids, refs) else {}
    {
      hide Expanding;
      added := id !in resultsAdded;
      ok := true;
      if added {
        resultsAdded := resultsAdded + {id};
        ok := ResultWithPid(id, refs, pid, false);
      }
    }
  }

  lemma LinksKeys(db: map<nat, DbFact>, depth: Depth, expandPids: set<nat>)
    ensures Links(db, depth, expandPids).Keys == db.Keys
  {
  }

  lemma {:induction false} AllowedAt(depth: Depth, expandPids: set<nat>, refs: seq<Reference>, i: nat)
    requires i < |refs| && Allowed(depth, expandPids, refs[i].pid)
    ensures refs[i].id in AllowedIds(depth, expandPids, refs)
  {
    var n := |refs| - 1;
    if i < n {
      assert refs[..n][i] == refs[i];
      AllowedAt(depth, expandPids, refs[..n], i);
    }
  }

  lemma AllowedEdge(db: map<nat, DbFact>, depth: Depth, expandPids: set<nat>, a: nat, i: nat)
    requires a in db && i < |db[a].refs| && Allowed(depth, expandPids, db[a].refs[i].pid)
    ensures Edge(Links(db, depth, expandPids), a, db[a].refs[i].id)
  {
    AllowedAt(depth, expandPids, db[a].refs, i);
  }

  lemma WorkPop(g: Graph, roots: set<nat>, added: set<nat>, pending: seq<nat>)
    requires pending != []
    ensures Work(g, roots, added, pending[..|pending| - 1]) < Work(g, roots, added, pending)
  {
  }

  /** After any series of results: exactly the existing facts that the expanded results lead to
      through allowed references have been recorded, each once. */
  lemma NestedExactly(q: QueryExecutor)
    requires q.Valid()
    ensures NoDuplicates(q.nestedIds)
    ensures forall id :: id in q.nestedIds <==> id in q.db && FromRoots(Links(q.db, q.depth, q.expandPids), q.roots, id)
  {
    ExpandedExactly(q.G(), q.roots, q.nestedAdded, q.nestedIds);
  }

  /** Reference r may be followed: always, unless only some predicates are to be expanded. */
  ghost predicate Follows(depth: Depth, expandPids: set<nat>, refs: seq<Reference>, id: nat) {
    exists i :: 0 <= i < |refs| && refs[i].id == id && (depth == ExpandPartial ==> refs[i].pid in expandPids)
  }

  lemma {:induction false} AllowedIs(depth: Depth, expandPids: set<nat>, refs: seq<Reference>, id: nat)
    ensures id in AllowedIds(depth, expandPids, refs) <==> Follows(depth, expandPids, refs, id)
  {
    if refs != [] {
      var n := |refs| - 1;
      AllowedIs(depth, expandPids, refs[..n], id);
      assert forall i :: 0 <= i < n ==> refs[..n][i] == refs[i];
      if Follows(depth, expandPids, refs[..n], id) {
        var i :| 0 <= i < n && refs[..n][i].id == id && (depth == ExpandPartial ==> refs[..n][i].pid in expandPids);
        assert refs[i].id == id;
      }
    }
  }

  /** One step of the expansion leads from a fact of the database to what it refers to: with full
      expansion to everything, with partial expansion to facts of the chosen predicates. */
  lemma LinksAre(db: map<nat, DbFact>, depth: Depth, expandPids: set<nat>, a: nat, b: nat)
    ensures Edge(Links(db, depth, expandPids), a, b) <==> a in db && Follows(depth, expandPids, db[a].refs, b)
  {
    if a in db {
      AllowedIs(depth, expandPids, db[a].refs, b);
    }
  }

  /* ------------------------------------------------------------ a series of results */

  datatype Answer = Answer(id: nat, refs: seq<Reference>)

  /** The first answer with each id counts. */
  ghost predicate IsFirst(rs: seq<Answer>, i: nat)
    requires i < |rs|
  {
    forall j :: 0 <= j < i ==> rs[j].id != rs[i].id
  }

  /** One of the first n answers that counts refers to id, and may be followed there. */
  ghost predicate Referred(depth: Depth, expandPids: set<nat>, rs: seq<Answer>, n: nat, id: nat)
    requires n <= |rs|
  {
    depth != ResultsOnly && exists i :: 0 <= i < n && IsFirst(rs, i) && Follows(depth, expandPids, rs[i].refs, id)
  }

  lemma ReferredNext(depth: Depth, expandPids: set<nat>, rs: seq<Answer>, n: nat, id: nat)
    requires n < |rs|
    ensures Referred(depth, expandPids, rs, n + 1, id) <==>
            || Referred(depth, expandPids, rs, n, id)
            || (depth != ResultsOnly && IsFirst(rs, n) && id in AllowedIds(depth, expandPids, rs[n].refs))
  {
    hide Follows, AllowedIds;
    AllowedIs(depth, expandPids, rs[n].refs, id);
  }

  /** A whole query, from the start: the results are the different answers, and the nested results
      exactly the facts that exist among what the answers lead to, each once.  It fails exactly when
      an answer is to be expanded and its predicate is not known. */
  method AnswerAll(q: QueryExecutor, rs: seq<Answer>) returns (ok: bool)
    requires q.Valid() && q.resultIds == [] && q.resultsAdded == {} && q.roots == {}
    modifies q
    ensures q.Valid() && (ok <==> rs == [] || q.traverse || q.pid in q.inventory || q.depth == ResultsOnly)
    ensures ok ==> NoDuplicates(q.resultIds) && forall id :: id in q.resultIds <==> exists i :: 0 <= i < |rs| && rs[i].id == id
    ensures ok ==> NoDuplicates(q.nestedIds) && forall id :: id in q.nestedIds <==>
              id in q.db && exists a :: Referred(q.depth, q.expandPids, rs, |rs|, a) && Reaches(Links(q.db, q.depth, q.expandPids), a, id)
  {
    hide Expanding, Follows, Links, AllowedIds;
    var n := 0;
    while n < |rs|
      invariant n <= |rs| && q.Valid() && NoDuplicates(q.resultIds)
      invariant n > 0 ==> q.traverse || q.pid in q.inventory || q.depth == ResultsOnly
      invariant forall id :: id in q.resultIds <==> id in q.resultsAdded
      invariant forall id :: id in q.resultsAdded <==> exists i :: 0 <= i < n && rs[i].id == id
      invariant forall id :: id in q.roots <==> Referred(q.depth, q.expandPids, rs, n, id)
    {
      assert IsFirst(rs, n) <==> rs[n].id !in q.resultsAdded;
      forall id
        ensures Referred(q.depth, q.expandPids, rs, n + 1, id) <==>
                || Referred(q.depth, q.expandPids, rs, n, id)
                || (q.depth != ResultsOnly && IsFirst(rs, n) && id in AllowedIds(q.depth, q.expandPids, rs[n].refs))
      {
        ReferredNext(q.depth, q.expandPids, rs, n, id);
      }
      var _, good := q.Result(rs[n].id, rs[n].refs);
      if !good {
        return false;
      }
      n := n + 1;
    }
    ok := true;
    NestedExactly(q);
  }
}
