/** Evaluating owner expressions. */
module Slicing {
  // Expressions form a DAG: the members of a set are units (below `first`) and earlier sets (id
  // first + index).  The evaluator visits the sets once, in order, and reads each through one
  // forward cursor that the unit phase and the set phase share.
  import opened Pointers
  import opened Usets

  predicate Ascending(s: seq<nat>) {
    forall i, j :: 0 <= i < j < |s| ==> s[i] < s[j]
  }

  predicate Sorted(s: seq<nat>) {
    forall i, j :: 0 <= i < j < |s| ==> s[i] <= s[j]
  }

  /* ------------------------------------------------------------ the forward cursor */

  /** A reader over a compressed ascending list: before the first element until it is moved. */
  class Reader {
    const elems: seq<nat>
    var pos: int

    constructor (elems: seq<nat>)
      ensures this.elems == elems && pos == -1
    {
      this.elems, pos := elems, -1;
    }

    predicate InRange()
      reads this
    {
      -1 <= pos <= |elems|
    }

    predicate AtElem()
      reads this
    {
      0 <= pos < |elems|
    }

    function Value(): nat
      requires AtElem()
      reads this
    {
      elems[pos]
    }

    method Next() returns (ok: bool)
      requires InRange()
      modifies this
      ensures InRange() && ok == AtElem()
      ensures pos == if old(pos) < |elems| then old(pos) + 1 else |elems|
    {
      if pos < |elems| {
        pos := pos + 1;
      }
      ok := pos < |elems|;
    }

    /** Move forward to the first element not below v. */
    method SkipTo(v: nat) returns (ok: bool)
      requires InRange()
      modifies this
      ensures InRange() && old(pos) <= pos && 0 <= pos && ok == AtElem()
      ensures ok ==> v <= elems[pos]
      ensures forall k :: 0 <= k && old(pos) <= k < pos ==> elems[k] < v
    {
      if pos == -1 {
        pos := 0;
      }
      while pos < |elems| && elems[pos] < v
        invariant 0 <= pos <= |elems| && old(pos) <= pos
        invariant forall k :: 0 <= k && old(pos) <= k < pos ==> elems[k] < v
      {
        pos := pos + 1;
      }
      ok := pos < |elems|;
    }
  }

  /* ------------------------------------------------------------ what a slice means */

  datatype Expr = Expr(op: SetOp, elems: seq<nat>)

  /** Non-empty ascending sets that mention only units and earlier sets. */
  predicate WellFormed(sets: seq<Expr>, first: nat) {
    forall i :: 0 <= i < |sets| ==>
      && Ascending(sets[i].elems)
      && forall k :: 0 <= k < |sets[i].elems| ==> sets[i].elems[k] < first + i
  }

  predicate NoneEmpty(sets: seq<Expr>) {
    forall i :: 0 <= i < |sets| ==> sets[i].elems != []
  }

  predicate UnitVisible(units: seq<nat>, exclude: bool, u: nat) {
    (u in units) != exclude
  }

  /** The meaning of set number i: Or asks for some visible member, And for all of them. */
  predicate Sees(sets: seq<Expr>, first: nat, units: seq<nat>, exclude: bool, i: nat)
    requires i < |sets|
    decreases i, 1
  {
    match sets[i].op
    case Or => exists k :: 0 <= k < |sets[i].elems| && SeesMember(sets, first, units, exclude, i, sets[i].elems[k])
    case And => forall k :: 0 <= k < |sets[i].elems| ==> SeesMember(sets, first, units, exclude, i, sets[i].elems[k])
  }

  predicate SeesMember(sets: seq<Expr>, first: nat, units: seq<nat>, exclude: bool, i: nat, e: nat)
    requires i < |sets|
    decreases i, 0
  {
    if e < first then UnitVisible(units, exclude, e)
    else e - first < i && Sees(sets, first, units, exclude, e - first)
  }

  /* ------------------------------------------------------------ the four readings */

  /** std::lower_bound on the unit list. */
  method LowerBound(units: seq<nat>, from: nat, v: nat) returns (it: nat)
    requires Sorted(units) && from <= |units|
    ensures from <= it <= |units|
    ensures forall k :: from <= k < it ==> units[k] < v
    ensures forall k :: it <= k < |units| ==> v <= units[k]
  {
    var lo, hi := from, |units|;
    while lo < hi
      invariant from <= lo <= hi <= |units|
      invariant forall k :: from <= k < lo ==> units[k] < v
      invariant forall k :: hi <= k < |units| ==> v <= units[k]
    {
      var mid := (lo + hi) / 2;
      if units[mid] < v {
        lo := mid + 1;
      } else {
        hi := mid;
      }
    }
    it := lo;
  }

  /** The set members from position pos on include all earlier sets. */
  predicate SetsAhead(elems: seq<nat>, first: nat, pos: int) {
    forall k :: 0 <= k < pos && k < |elems| ==> elems[k] < first
  }

  /** Are all units of the set in the list?  When so, the cursor stops at the first set. */
  method IsSubset(reader: Reader, units: seq<nat>, first: nat) returns (r: bool)
    requires reader.pos == -1 && Ascending(reader.elems) && Sorted(units)
    modifies reader
    ensures reader.InRange() && 0 <= reader.pos
    ensures r <==> forall k :: 0 <= k < |reader.elems| && reader.elems[k] < first ==> reader.elems[k] in units
    ensures r ==> SetsAhead(reader.elems, first, reader.pos)
  {
    var ok := reader.Next();
    if !ok || reader.Value() >= first {
      return true;
    }
    var it := 0;
    while true
      invariant reader.AtElem() && reader.Value() < first && it <= |units|
      invariant forall k :: 0 <= k < reader.pos ==> reader.elems[k] < first && reader.elems[k] in units
      invariant forall k :: 0 <= k < it ==> units[k] < reader.Value()
      decreases |reader.elems| - reader.pos
    {
      it := LowerBound(units, it, reader.Value());
      if it == |units| || reader.Value() < units[it] {
        assert reader.Value() !in units;
        return false;
      }
      it := it + 1;
      ok := reader.Next();
      if !ok || reader.Value() >= first {
        return true;
      }
    }
  }

  /** Is no unit of the list in the set?  The list is not empty and lies below the sets. */
  method EmptyIntersection(reader: Reader, units: seq<nat>, first: nat) returns (r: bool)
    requires reader.pos == -1 && Ascending(reader.elems) && Sorted(units) && |units| > 0
    requires forall k :: 0 <= k < |units| ==> units[k] < first
    modifies reader
    ensures reader.InRange() && 0 <= reader.pos
    ensures r <==> forall k :: 0 <= k < |reader.elems| ==> reader.elems[k] !in units
    ensures r ==> SetsAhead(reader.elems, first, reader.pos)
  {
    var ok := reader.SkipTo(units[0]);
    Skipped(reader.elems, units, 0, 0, reader.pos);
    if !ok {
      return true;
    }
    var j := 0;
    while j < |units|
      invariant j <= |units| && reader.AtElem()
      invariant forall k :: 0 <= k < reader.pos ==> reader.elems[k] < first && reader.elems[k] !in units
      invariant forall i :: 0 <= i < j ==> units[i] < reader.Value()
    {
      var unit := units[j];
      ghost var before := reader.pos;
      if reader.Value() < unit {
        ok := reader.SkipTo(unit);
        Skipped(reader.elems, units, j, before, reader.pos);
        if !ok {
          return true;
        }
      }
      if reader.Value() == unit {
        return false;
      }
      j := j + 1;
    }
    assert forall k :: reader.pos <= k < |reader.elems| ==> reader.elems[reader.pos] <= reader.elems[k];
    return true;
  }

  lemma Skipped(elems: seq<nat>, units: seq<nat>, j: nat, a: int, b: int)
    requires Sorted(units) && j < |units| && 0 <= a <= b <= |elems| && Ascending(elems)
    requires forall k :: a <= k < b ==> elems[k] < units[j]
    requires forall i :: 0 <= i < j ==> a < |elems| && units[i] < elems[a]
    ensures forall k :: a <= k < b ==> elems[k] !in units
  {
    forall k | a <= k < b ensures elems[k] !in units {
      forall i | 0 <= i < |units| ensures units[i] != elems[k] {
        if i < j {
          assert elems[a] <= elems[k];
        } else {
          assert units[j] <= units[i];
        }
      }
    }
  }

  /** Does some earlier set among the members see it? */
  method OrVisible(reader: Reader, members: array<bool>, first: nat) returns (r: bool)
    requires reader.InRange() && 0 <= reader.pos && Ascending(reader.elems)
    requires SetsAhead(reader.elems, first, reader.pos)
    requires forall k :: 0 <= k < |reader.elems| ==> reader.elems[k] < first + members.Length
    modifies reader
    ensures r <==> exists k :: 0 <= k < |reader.elems| && first <= reader.elems[k] && members[reader.elems[k] - first]
  {
    if !reader.AtElem() {
      return false;
    }
    if reader.Value() < first {
      var ok := reader.SkipTo(first);
      if !ok {
        return false;
      }
    }
    while true
      invariant reader.AtElem() && first <= reader.Value()
      invariant forall k :: 0 <= k < reader.pos && first <= reader.elems[k] ==> !members[reader.elems[k] - first]
      decreases |reader.elems| - reader.pos
    {
      if members[reader.Value() - first] {
        return true;
      }
      var ok := reader.Next();
      if !ok {
        return false;
      }
    }
  }

  /** Do all earlier sets among the members see it? */
  method AndVisible(reader: Reader, members: array<bool>, first: nat) returns (r: bool)
    requires reader.InRange() && 0 <= reader.pos && Ascending(reader.elems)
    requires SetsAhead(reader.elems, first, reader.pos)
    requires forall k :: 0 <= k < |reader.elems| ==> reader.elems[k] < first + members.Length
    modifies reader
    ensures r <==> forall k :: 0 <= k < |reader.elems| && first <= reader.elems[k] ==> members[reader.elems[k] - first]
  {
    if !reader.AtElem() {
      return true;
    }
    if reader.Value() < first {
      var ok := reader.SkipTo(first);
      if !ok {
        return true;
      }
    }
    while true
      invariant reader.AtElem() && first <= reader.Value()
      invariant forall k :: 0 <= k < reader.pos && first <= reader.elems[k] ==> members[reader.elems[k] - first]
      decreases |reader.elems| - reader.pos
    {
      if !members[reader.Value() - first] {
        return false;
      }
      var ok := reader.Next();
      if !ok {
        return true;
      }
    }
  }

  /* ------------------------------------------------------------ the evaluator */

  /** The bitmap agrees with the meaning of the first i sets. */
  predicate Agrees(members: seq<bool>, sets: seq<Expr>, first: nat, units: seq<nat>, exclude: bool, i: nat) {
    |members| == |sets| && i <= |sets|
    && forall j :: 0 <= j < i ==> members[j] == Sees(sets, first, units, exclude, j)
  }

  predicate SomeUnit(es: seq<nat>, first: nat, units: seq<nat>, exclude: bool) {
    exists k :: 0 <= k < |es| && es[k] < first && UnitVisible(units, exclude, es[k])
  }

  predicate AllUnits(es: seq<nat>, first: nat, units: seq<nat>, exclude: bool) {
    forall k :: 0 <= k < |es| && es[k] < first ==> UnitVisible(units, exclude, es[k])
  }

  predicate Inside(es: seq<nat>, first: nat, members: seq<bool>) {
    forall k :: 0 <= k < |es| ==> es[k] < first + |members|
  }

  predicate SomeSet(es: seq<nat>, first: nat, members: seq<bool>)
    requires Inside(es, first, members)
  {
    exists k :: 0 <= k < |es| && first <= es[k] && members[es[k] - first]
  }

  predicate AllSets(es: seq<nat>, first: nat, members: seq<bool>)
    requires Inside(es, first, members)
  {
    forall k :: 0 <= k < |es| && first <= es[k] ==> members[es[k] - first]
  }

  /** The two phases together decide Or and And. */
  lemma PhasesMean(members: seq<bool>, sets: seq<Expr>, first: nat, units: seq<nat>, exclude: bool, i: nat)
    requires WellFormed(sets, first) && i < |sets| && Agrees(members, sets, first, units, exclude, i)
    ensures var es := sets[i].elems;
            && Inside(es, first, members)
            && (sets[i].op == Or ==>
                  (Sees(sets, first, units, exclude, i) <==> SomeUnit(es, first, units, exclude) || SomeSet(es, first, members)))
            && (sets[i].op == And ==>
                  (Sees(sets, first, units, exclude, i) <==> AllUnits(es, first, units, exclude) && AllSets(es, first, members)))
  {
    var es := sets[i].elems;
    forall k | 0 <= k < |es|
      ensures SeesMember(sets, first, units, exclude, i, es[k]) ==
              if es[k] < first then UnitVisible(units, exclude, es[k]) else members[es[k] - first]
    {
      if es[k] >= first {
        assert members[es[k] - first] == Sees(sets, first, units, exclude, es[k] - first);
      }
    }
  }

  /** Evaluate one set: first its units against the list, then its sets against the bitmap. */
  method EvalSet(set_: Expr, members: array<bool>, units: seq<nat>, first: nat, exclude: bool) returns (visible: bool)
    requires Ascending(set_.elems) && Sorted(units) && |units| > 0
    requires forall k :: 0 <= k < |units| ==> units[k] < first
    requires Inside(set_.elems, first, members[..])
    ensures set_.op == Or ==>
              (visible <==> SomeUnit(set_.elems, first, units, exclude) || SomeSet(set_.elems, first, members[..]))
    ensures set_.op == And ==>
              (visible <==> AllUnits(set_.elems, first, units, exclude) && AllSets(set_.elems, first, members[..]))
  {
    var reader := new Reader(set_.elems);
    match set_.op {
      case Or =>
        if exclude {
          var subset := IsSubset(reader, units, first);
          visible := true;
          if subset {
            visible := OrVisible(reader, members, first);
          }
        } else {
          var none := EmptyIntersection(reader, units, first);
          visible := true;
          if none {
            visible := OrVisible(reader, members, first);
          }
        }
      case And =>
        if exclude {
          visible := EmptyIntersection(reader, units, first);
        } else {
          visible := IsSubset(reader, units, first);
        }
        if visible {
          visible := AndVisible(reader, members, first);
        }
    }
  }

  /** The same expressions with Or and And exchanged. */
  function Dual(sets: seq<Expr>): (r: seq<Expr>)
    ensures |r| == |sets| && forall i :: 0 <= i < |sets| ==> r[i].elems == sets[i].elems && r[i].op != sets[i].op
  {
    seq(|sets|, i requires 0 <= i < |sets| => Expr(if sets[i].op == Or then And else Or, sets[i].elems))
  }

  /** Including units instead of excluding them, and exchanging Or and And, inverts what is visible. */
  lemma {:induction false} SeesDual(sets: seq<Expr>, first: nat, units: seq<nat>, exclude: bool, i: nat)
    requires WellFormed(sets, first) && i < |sets|
    ensures Sees(Dual(sets), first, units, !exclude, i) == !Sees(sets, first, units, exclude, i)
  {
    var es := sets[i].elems;
    forall k | 0 <= k < |es|
      ensures SeesMember(Dual(sets), first, units, !exclude, i, es[k]) == !SeesMember(sets, first, units, exclude, i, es[k])
    {
      if es[k] >= first {
        SeesDual(sets, first, units, exclude, es[k] - first);
      }
    }
  }

  /** With no units listed, everything is visible when excluding and nothing when including. */
  lemma {:induction false} NoUnits(sets: seq<Expr>, first: nat, exclude: bool, i: nat)
    requires WellFormed(sets, first) && NoneEmpty(sets) && i < |sets|
    ensures Sees(sets, first, [], exclude, i) == exclude
  {
    var es := sets[i].elems;
    forall k | 0 <= k < |es| ensures SeesMember(sets, first, [], exclude, i, es[k]) == exclude {
      if es[k] >= first {
        NoUnits(sets, first, exclude, es[k] - first);
      }
    }
    assert SeesMember(sets, first, [], exclude, i, es[0]) == exclude;
  }

  /** The slice of all sets for a sorted list of included or excluded units: one pass computes
      the recursive meaning of every set. */
  method Slice(sets: seq<Expr>, first: nat, units: seq<nat>, exclude: bool) returns (members: array<bool>)
    requires (units == [] || WellFormed(sets, first)) && Sorted(units)
    requires forall k :: 0 <= k < |units| ==> units[k] < first
    ensures fresh(members) && members.Length == |sets|
    ensures WellFormed(sets, first) && (units == [] ==> NoneEmpty(sets)) ==>
              forall i :: 0 <= i < |sets| ==> members[i] == Sees(sets, first, units, exclude, i)
    ensures units == [] ==> forall i :: 0 <= i < |sets| ==> members[i] == exclude
  {
    members := new bool[|sets|](i => false);
    if units == [] {
      if exclude {
        var k := 0;
        while k < members.Length
          invariant k <= members.Length
          invariant forall j :: 0 <= j < k ==> members[j]
        {
          members[k] := true;
          k := k + 1;
        }
      }
      if WellFormed(sets, first) && NoneEmpty(sets) {
        forall i | 0 <= i < |sets| ensures members[i] == Sees(sets, first, units, exclude, i) {
          NoUnits(sets, first, exclude, i);
        }
      }
    } else {
      var i := 0;
      while i < |sets|
        invariant i <= |sets| && Agrees(members[..], sets, first, units, exclude, i)
      {
        PhasesMean(members[..], sets, first, units, exclude, i);
        var visible := EvalSet(sets[i], members, units, first, exclude);
        ghost var before := members[..];
        members[i] := visible;
        assert members[..] == before[i := visible];
        i := i + 1;
      }
    }
  }

  /** Reading the bitmap: a fact without owner is never visible. */
  function VisibleFact(members: seq<bool>, first: nat, owner: Option<nat>): bool
    requires owner.Some? ==> first <= owner.value < first + |members|
  {
    owner.Some? && members[owner.value - first]
  }
}
