/**
 * `BatchUpdate`: a nesting count of batch updates in progress. Ending the
 * outermost one (or ending one too many) brings the count to zero and posts
 * `BatchUpdateDidPerform`.
 */
module BatchUpdateModel {

  /** The count after `decrementCount`, and whether it posts: below one becomes zero and posts. */
  function Decremented(count: int): (r: (int, bool))
    ensures r.1 <==> count - 1 < 1
    ensures r.1 ==> r.0 == 0
    ensures !r.1 ==> r.0 == count - 1 && r.0 >= 1
    ensures r.0 >= 0
  {
    if count - 1 < 1 then (0, true) else (count - 1, false)
  }

  /** The count after n starts and then n ends, from a count that is not negative. */
  function AfterStartsAndEnds(count: int, n: nat): int
    decreases n
  {
    if n == 0 then count else Decremented(AfterStartsAndEnds(count + 1, n - 1)).0
  }

  /** Starting n batches and ending n restores the count. */
  lemma {:induction false} StartsAndEndsRestore(count: nat, n: nat)
    ensures AfterStartsAndEnds(count, n) == count
    decreases n
  {
    if n > 0 {
      StartsAndEndsRestore(count + 1, n - 1);
    }
  }

  class BatchUpdate {
    var count: int
    /** How many times `BatchUpdateDidPerform` has been posted. */
    var posted: nat

    ghost predicate Valid()
      reads this
    {
      count >= 0
    }

    constructor ()
      ensures Valid() && count == 0 && posted == 0
    {
      count := 0;
      posted := 0;
    }

    /** `isPerforming`. */
    predicate IsPerforming()
      reads this
    {
      count > 0
    }

    /** `start` (`incrementCount`). */
    method Start()
      requires Valid()
      modifies this
      ensures Valid() && count == old(count) + 1 && IsPerforming() && posted == old(posted)
    {
      count := count + 1;
    }

    /** `end` (`decrementCount`): below one the count is set to zero and the end of the batch is posted. */
    method End()
      requires Valid()
      modifies this
      ensures Valid() && count == Decremented(old(count)).0
      ensures posted == old(posted) + if Decremented(old(count)).1 then 1 else 0
      ensures old(count) <= 1 <==> !IsPerforming()
    {
      count := count - 1;
      if count < 1 {
        count := 0;
        posted := posted + 1;
      }
    }

    /** `perform`: a start, the block, then an end; the outermost batch posts once it ends. */
    method Perform()
      requires Valid()
      modifies this
      ensures Valid() && count == old(count)
      ensures posted == old(posted) + if old(count) == 0 then 1 else 0
    {
      Start();
      End();
    }
  }
}
