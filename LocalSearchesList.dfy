/**
 * The pool the variable neighbourhood descent draws its operators from: the active operators
 * still to try, and the inactive ones already tried. Every operation moves operators between
 * the two lists and never adds or loses one.
 */
module LocalSearchPool {
  import opened Lists
  import opened Randomness
  import opened LocalSearches

  class LocalSearchesList {
    var activeSearches: seq<LocalSearch>
    var inactiveSearches: seq<LocalSearch>
    /** The generator each random pick asks. */
    const rng: RandomSource

    /** Every operator of the pool, active or not. */
    ghost function Pool(): multiset<LocalSearch>
      reads this
    {
      multiset(activeSearches) + multiset(inactiveSearches)
    }

    constructor (localSearches: seq<LocalSearch>, rng: RandomSource)
      ensures activeSearches == localSearches && inactiveSearches == [] && this.rng == rng
      ensures Pool() == multiset(localSearches)
    {
      activeSearches := localSearches;
      inactiveSearches := [];
      this.rng := rng;
    }

    /**
     * Draws an active operator at random, moves it to the end of the inactive list and returns
     * it; the other active operators keep their order.
     */
    method GetRandomSearch() returns (localSearch: LocalSearch)
      requires |activeSearches| > 0
      modifies this, rng
      ensures var i := NextInRange(rng.stream(old(rng.position)), |old(activeSearches)|);
        && i < |old(activeSearches)|
        && localSearch == old(activeSearches)[i]
        && activeSearches == RemoveAt(old(activeSearches), i)
        && inactiveSearches == old(inactiveSearches) + [localSearch]
      ensures rng.position == old(rng.position) + 1
      ensures multiset(activeSearches) + multiset{localSearch} == multiset(old(activeSearches))
      ensures Pool() == old(Pool())
    {
      var draw := rng.Draw();
      var randomIndex := NextInRange(draw, |activeSearches|);
      localSearch := activeSearches[randomIndex];
      RemoveAtMultiset(activeSearches, randomIndex);
      activeSearches := RemoveAt(activeSearches, randomIndex);
      inactiveSearches := inactiveSearches + [localSearch];
    }

    /**
     * Moves every inactive operator but the last back to the end of the active list, in
     * order. Nothing changes when at most one operator is inactive.
     */
    method Reset()
      modifies this
      ensures activeSearches + inactiveSearches == old(activeSearches) + old(inactiveSearches)
      ensures |old(inactiveSearches)| == 0 ==> inactiveSearches == [] && activeSearches == old(activeSearches)
      ensures |old(inactiveSearches)| > 0 ==>
        && inactiveSearches == [old(inactiveSearches)[|old(inactiveSearches)| - 1]]
        && activeSearches == old(activeSearches) + old(inactiveSearches)[..|old(inactiveSearches)| - 1]
      ensures Pool() == old(Pool())
    {
      while |inactiveSearches| > 1
        invariant activeSearches + inactiveSearches == old(activeSearches) + old(inactiveSearches)
        invariant |inactiveSearches| <= |old(inactiveSearches)|
        invariant |old(inactiveSearches)| > 0 ==> |inactiveSearches| > 0
      {
        var localSearch := inactiveSearches[0];
        assert inactiveSearches == [localSearch] + inactiveSearches[1..];
        inactiveSearches := inactiveSearches[1..];
        activeSearches := activeSearches + [localSearch];
      }
      ghost var whole := old(activeSearches) + old(inactiveSearches);
      if |old(inactiveSearches)| > 0 {
        assert whole[..|whole| - 1] == old(activeSearches) + old(inactiveSearches)[..|old(inactiveSearches)| - 1];
        assert activeSearches == whole[..|whole| - 1];
      } else {
        assert activeSearches == whole[..|whole|];
      }
      ConcatMultiset(activeSearches, inactiveSearches);
      ConcatMultiset(old(activeSearches), old(inactiveSearches));
    }

    /** Moves every inactive operator back to the end of the active list, in order. */
    method ResetAll()
      modifies this
      ensures activeSearches == old(activeSearches) + old(inactiveSearches)
      ensures inactiveSearches == []
      ensures Pool() == old(Pool())
    {
      while |inactiveSearches| > 0
        invariant activeSearches + inactiveSearches == old(activeSearches) + old(inactiveSearches)
      {
        var localSearch := inactiveSearches[0];
        assert inactiveSearches == [localSearch] + inactiveSearches[1..];
        inactiveSearches := inactiveSearches[1..];
        activeSearches := activeSearches + [localSearch];
      }
      assert activeSearches + [] == activeSearches;
    }

    /** Whether no operator is left to try. */
    method IsEmpty() returns (empty: bool)
      ensures empty <==> activeSearches == []
    {
      empty := |activeSearches| == 0;
    }
  }

  /** The multiset of two lists put together is the sum of theirs. */
  lemma ConcatMultiset<T>(a: seq<T>, b: seq<T>)
    ensures multiset(a + b) == multiset(a) + multiset(b)
  {
  }
}
