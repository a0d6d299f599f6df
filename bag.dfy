/**
 * The seven-bag generator (BagRandom): when the bag is empty it is refilled
 * with the seven kinds and shuffled in place by Fisher-Yates, then one kind
 * is popped from its end.
 */
module Bag {
  import opened Tetrominoes

  /** A sequence in which no kind occurs twice. */
  predicate Distinct(s: seq<Kind>)
  {
    forall i, j :: 0 <= i < j < |s| ==> s[i] != s[j]
  }

  /** A value found at two indices occurs at least twice in the multiset. */
  lemma TwiceCounted<X>(s: seq<X>, i: nat, j: nat)
    requires i < j < |s| && s[i] == s[j]
    ensures multiset(s)[s[i]] >= 2
  {
    assert s == s[..i] + [s[i]] + s[i + 1..j] + [s[j]] + s[j + 1..];
  }

  /** A sub-multiset of the catalog has no repeated kind. */
  lemma {:induction false} SubBagDistinct(s: seq<Kind>)
    requires multiset(s) <= Catalog
    ensures Distinct(s)
  {
    forall i, j | 0 <= i < j < |s| ensures s[i] != s[j] {
      if s[i] == s[j] {
        TwiceCounted(s, i, j);
        AllKindsOnce(s[i]);
        assert false;
      }
    }
  }

  /**
   * When the kinds drawn since the last refill and the kinds left in the bag
   * together make up the catalog, a cycle that has drawn seven kinds has
   * emptied the bag and drawn every kind exactly once.
   */
  lemma {:induction false} CompleteCycle(drawn: seq<Kind>, bag: seq<Kind>)
    requires multiset(drawn) + multiset(bag) == Catalog
    requires |drawn| == 7
    ensures bag == []
    ensures multiset(drawn) == Catalog
    ensures forall k: Kind :: multiset(drawn)[k] == 1
    ensures Distinct(drawn)
  {
    assert |multiset(drawn)| + |multiset(bag)| == |Catalog|;
    assert |bag| == 0;
    forall k: Kind ensures multiset(drawn)[k] == 1 {
      AllKindsOnce(k);
    }
    SubBagDistinct(drawn);
  }

  /** A non-empty sequence is its prefix followed by its last entry. */
  lemma DropLast<X>(s: seq<X>)
    requires s != []
    ensures s[..|s| - 1] + [s[|s| - 1]] == s
  {
  }

  /** Moving the last entry of b to the end of d keeps the two together. */
  lemma PopMoves<X>(d: seq<X>, b: seq<X>)
    requires b != []
    ensures multiset(d + [b[|b| - 1]]) + multiset(b[..|b| - 1]) == multiset(d) + multiset(b)
    ensures b[..|b| - 1] + [b[|b| - 1]] == b
  {
    DropLast(b);
  }

  /** Swapping two entries keeps the multiset of kinds. */
  lemma SwapKeepsKinds(s: seq<Kind>, i: nat, j: nat)
    requires i < |s| && j < |s|
    ensures multiset(s[i := s[j]][j := s[i]]) == multiset(s)
  {
  }

  /**
   * Popping the last kind moves it from the bag to the drawn ones, so the two
   * still make up the catalog and the drawn kinds stay distinct.
   */
  lemma {:induction false} PopKeepsCycle(drawn: seq<Kind>, bag: seq<Kind>)
    requires bag != []
    requires multiset(drawn) + multiset(bag) == Catalog
    ensures multiset(drawn + [bag[|bag| - 1]]) + multiset(bag[..|bag| - 1]) == Catalog
    ensures Distinct(drawn + [bag[|bag| - 1]])
    ensures bag[..|bag| - 1] + [bag[|bag| - 1]] == bag
  {
    PopMoves(drawn, bag);
    SubBagDistinct(drawn + [bag[|bag| - 1]]);
  }

  /** The kinds drawn in the current cycle are pairwise different. */
  lemma DrawnDistinct(r: BagRandom)
    requires r.Valid()
    ensures Distinct(r.drawn)
  {
    if r.drawn != [] {
      SubBagDistinct(r.drawn);
    }
  }

  /**
   * One call of next, from the bag bag0 with drawn0 handed out so far, that
   * returned k and left bag and drawn: a non-empty bag gives up its last
   * kind; an empty one is refilled with a shuffle of the catalog, which
   * starts a new cycle, and then gives up its last kind.
   */
  predicate OneDraw(bag0: seq<Kind>, drawn0: seq<Kind>, bag: seq<Kind>, drawn: seq<Kind>, k: Kind)
  {
    if bag0 != [] then
      k == bag0[|bag0| - 1] && bag == bag0[..|bag0| - 1] && drawn == drawn0 + [k]
    else
      |bag| == 6 && multiset(bag + [k]) == Catalog && drawn == [k]
  }

  /**
   * A bag that has handed out seven kinds since its last refill is empty,
   * and those seven are the catalog, each kind once.
   */
  lemma CycleOfBag(r: BagRandom)
    requires r.Valid() && |r.drawn| == 7
    ensures r.bag == [] && multiset(r.drawn) == Catalog && Distinct(r.drawn)
  {
    CompleteCycle(r.drawn, r.bag);
  }

  class BagRandom {
    /** The kinds still to be handed out in the current cycle. */
    var bag: seq<Kind>
    /** The kinds handed out since the last refill, in order. */
    ghost var drawn: seq<Kind>

    ghost predicate Valid()
      reads this
    {
      (drawn == [] && bag == []) ||
      multiset(drawn) + multiset(bag) == Catalog
    }

    constructor ()
      ensures Valid() && bag == [] && drawn == []
    {
      bag := [];
      drawn := [];
    }

    /**
     * Hands out the next kind. An empty bag is first refilled with the catalog
     * and shuffled; the shuffle draws each swap index j with 0 <= j <= i.
     */
    method Next() returns (k: Kind)
      requires Valid()
      modifies this
      ensures Valid()
      ensures OneDraw(old(bag), old(drawn), bag, drawn, k)
    {
      if |bag| == 0 {
        Refill();
      }
      var b := bag;
      PopKeepsCycle(drawn, b);
      k := b[|b| - 1];
      bag, drawn := b[..|b| - 1], drawn + [k];
    }

    /** Refills an empty bag with the catalog, shuffled; a new cycle begins. */
    method Refill()
      modifies this
      ensures |bag| == 7 && multiset(bag) == Catalog && drawn == []
    {
      var b := Shuffle(AllKinds());
      bag, drawn := b, [];
    }
  }

  /**
   * Fisher-Yates: for i from the last index down to 1, swaps entry i with an
   * entry j chosen with 0 <= j <= i. Whatever the choices, the result holds
   * the same kinds as the input.
   */
  method Shuffle(s: seq<Kind>) returns (b: seq<Kind>)
    ensures |b| == |s|
    ensures multiset(b) == multiset(s)
  {
    b := s;
    if |b| == 0 {
      return;
    }
    var i := |b| - 1;
    while i > 0
      invariant 0 <= i < |b| == |s|
      invariant multiset(b) == multiset(s)
    {
      var j :| 0 <= j <= i;
      SwapKeepsKinds(b, i, j);
      b := b[i := b[j]][j := b[i]];
      i := i - 1;
    }
  }
}
