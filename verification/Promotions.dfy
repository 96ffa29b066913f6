/** What 32-bit ids make of promotions. */
module Promotions {
  // When ids are dense, and what is lost when they run out.
  import opened Pointers
  import opened Usets

  /** Every set was promoted while it had no id. */
  ghost predicate FreshGiven(first: nat, given: seq<Ptr>) {
    forall j :: 0 <= j < |given| ==> LastId(first, given[..j], given[j]) == None
  }

  lemma {:induction false} LastAt(first: nat, given: seq<Ptr>, p: Ptr) returns (j: nat)
    requires p in given
    ensures j < |given| && given[j] == p && forall i :: j < i < |given| ==> given[i] != p
    ensures LastId(first, given, p) == AsId((first + j) % WORD)
  {
    var n := |given| - 1;
    if given[n] == p {
      j := n;
    } else {
      assert given == given[..n] + [given[n]];
      j := LastAt(first, given[..n], p);
    }
  }

  /** Where the set with this id is exported, in 32-bit arithmetic. */
  function Position(first: nat, id: nat): nat
    requires first < WORD
  {
    (id + WORD - first) % WORD
  }

  lemma PositionAt(first: nat, given: seq<Ptr>, p: Ptr) returns (j: nat)
    requires first < WORD && LastId(first, given, p).Some?
    ensures j < |given| && given[j] == p && LastId(first, given, p).value == (first + j) % WORD
    ensures Position(first, (first + j) % WORD) == j % WORD
  {
    if p !in given {
      NotGiven(first, given, p);
    }
    j := LastAt(first, given, p);
    Around(first, j);
  }

  lemma Around(first: nat, j: nat)
    requires first < WORD
    ensures ((first + j) % WORD + WORD - first) % WORD == j % WORD
  {
  }

  /** Two sets share an id only after 2^32 promotions. */
  lemma DistinctPositions(first: nat, given: seq<Ptr>, p: Ptr, q: Ptr)
    requires first < WORD && |given| <= WORD && LastId(first, given, p).Some? && LastId(first, given, q).Some?
    requires Position(first, LastId(first, given, p).value) == Position(first, LastId(first, given, q).value)
    ensures p == q
  {
    hide LastId, Position;
    var i := PositionAt(first, given, p);
    var j := PositionAt(first, given, q);
  }

  /** Until an id has been 2^32 - 1, no set is promoted twice. */
  lemma PromotedOnce(first: nat, given: seq<Ptr>)
    requires FreshGiven(first, given) && first + |given| <= WORD
    ensures forall i, j :: 0 <= i < j < |given| ==> given[i] != given[j]
  {
    hide LastId;
    forall i, j | 0 <= i < j < |given| ensures given[i] != given[j] {
      GivenHasId(first, given[..j], given[j]);
      assert given[..j][i] == given[i];
    }
  }

  /** Then the set of promotion j has the id first + j. */
  lemma DenseIds(first: nat, given: seq<Ptr>, j: nat)
    requires FreshGiven(first, given) && first + |given| <= INVALID_USET && j < |given|
    ensures LastId(first, given, given[j]) == Some(first + j)
  {
    hide LastId, FreshGiven;
    PromotedOnce(first, given);
    var i := LastAt(first, given, given[j]);
  }

  /** When ids have run out, one set has no id, or one below the first. */
  lemma RunsOut(first: nat, given: seq<Ptr>)
    requires FreshGiven(first, given) && first < WORD && INVALID_USET < first + |given| && |given| < WORD
    ensures var id := LastId(first, given, given[INVALID_USET - first]); id == None || id.value < first
  {
    var j := LastAt(first, given, given[INVALID_USET - first]);
  }

  ghost function Ptrs(s: seq<Ptr>): set<Ptr> {
    set p | p in s
  }

  lemma {:induction false} DistinctCard(s: seq<Ptr>)
    requires forall i, j :: 0 <= i < j < |s| ==> s[i] != s[j]
    ensures |Ptrs(s)| == |s|
  {
    if s != [] {
      var n := |s| - 1;
      DistinctCard(s[..n]);
      assert s == s[..n] + [s[n]];
      assert Ptrs(s) == Ptrs(s[..n]) + {s[n]};
    }
  }

  lemma {:induction false} SubsetCard(a: set<Ptr>, b: set<Ptr>)
    requires a <= b
    ensures |a| <= |b|
    decreases a
  {
    if a != {} {
      var x :| x in a;
      SubsetCard(a - {x}, b - {x});
    }
  }

  /** How many different sets have been promoted: as many as promotions, unless ids have run out. */
  lemma PromotedCard(first: nat, given: seq<Ptr>)
    requires FreshGiven(first, given) && first < WORD
    ensures first + |given| <= INVALID_USET ==> |Ptrs(given)| == |given|
    ensures first + |Ptrs(given)| <= INVALID_USET <==> first + |given| <= INVALID_USET
  {
    if first + |given| <= INVALID_USET {
      PromotedOnce(first, given);
      DistinctCard(given);
    } else {
      var a := given[..WORD - first];
      assert FreshGiven(first, a) by {
        assert forall j :: 0 <= j < |a| ==> a[..j] == given[..j];
      }
      PromotedOnce(first, a);
      DistinctCard(a);
      SubsetCard(Ptrs(a), Ptrs(given));
    }
  }
}
