/**
 * `CombinedRefreshProgress`: one set of counters that follows the refresh
 * progress of all active data stores. While started it only moves forward:
 * the number of tasks grows to the stores' total, and the remaining and
 * completed counts are kept between their old values and the number of tasks.
 */
module CombinedProgress {
  import opened DownloadProgressModel

  /** The summed progress of the data stores, in order. */
  function SumInfos(infos: seq<ProgressInfo>): (r: ProgressInfo)
    decreases |infos|
  {
    if |infos| == 0 then NoProgress else AddInfo(SumInfos(infos[..|infos| - 1]), infos[|infos| - 1])
  }

  predicate Consistent(p: ProgressInfo) {
    p.numberRemaining == p.numberOfTasks - p.numberCompleted
  }

  /** Summing progress that agrees with itself gives progress that agrees with itself. */
  lemma {:induction false} SumInfosConsistent(infos: seq<ProgressInfo>)
    requires forall i :: 0 <= i < |infos| ==> Consistent(infos[i])
    ensures Consistent(SumInfos(infos))
    decreases |infos|
  {
    if |infos| > 0 {
      SumInfosConsistent(infos[..|infos| - 1]);
    }
  }

  /** A new count kept at or above the old one and at or below the cap. */
  function Clamp(updated: int, current: int, cap: int): (r: int)
    requires current <= cap
    ensures current <= r <= cap
    ensures current <= updated <= cap ==> r == updated
    ensures updated < current ==> r == current
    ensures cap < updated ==> r == cap
  {
    var atLeast := if updated > current then updated else current;
    if atLeast < cap then atLeast else cap
  }

  /** The counters are in range: nothing negative, neither remaining nor completed above the number of tasks. */
  predicate InRange(p: ProgressInfo) {
    0 <= p.numberRemaining <= p.numberOfTasks && 0 <= p.numberCompleted <= p.numberOfTasks
  }

  /** `refreshProgressDidChange`'s new counters, from the current ones and the stores' sum. */
  function Combined(current: ProgressInfo, sum: ProgressInfo): (r: ProgressInfo)
    requires InRange(current)
    ensures InRange(r)
    ensures r.numberOfTasks == if sum.numberOfTasks > current.numberOfTasks then sum.numberOfTasks else current.numberOfTasks
    ensures current.numberRemaining <= r.numberRemaining && current.numberCompleted <= r.numberCompleted
    ensures current.numberRemaining <= sum.numberRemaining <= r.numberOfTasks ==> r.numberRemaining == sum.numberRemaining
    ensures current.numberCompleted <= sum.numberCompleted <= r.numberOfTasks ==> r.numberCompleted == sum.numberCompleted
  {
    var tasks := if sum.numberOfTasks > current.numberOfTasks then sum.numberOfTasks else current.numberOfTasks;
    ProgressInfo(tasks, Clamp(sum.numberCompleted, current.numberCompleted, tasks),
                 Clamp(sum.numberRemaining, current.numberRemaining, tasks))
  }

  /** Hearing the same totals twice changes nothing the second time. */
  lemma CombinedIdempotent(current: ProgressInfo, sum: ProgressInfo)
    requires InRange(current)
    ensures Combined(Combined(current, sum), sum) == Combined(current, sum)
  {
  }

  /** Totals that are already the counters change nothing. */
  lemma CombinedWithSelf(current: ProgressInfo)
    requires InRange(current)
    ensures Combined(current, current) == current
  {
  }

  /** The loop of `refreshProgressDidChange` that adds up the data stores' progress. */
  method SumProgress(infos: seq<ProgressInfo>) returns (numberOfTasks: int, numberRemaining: int, numberCompleted: int)
    ensures ProgressInfo(numberOfTasks, numberCompleted, numberRemaining) == SumInfos(infos)
  {
    numberOfTasks, numberRemaining, numberCompleted := 0, 0, 0;
    var i := 0;
    while i < |infos|
      invariant 0 <= i <= |infos|
      invariant SumInfos(infos[..i]) == ProgressInfo(numberOfTasks, numberCompleted, numberRemaining)
    {
      assert infos[..i + 1][..i] == infos[..i];
      numberOfTasks := numberOfTasks + infos[i].numberOfTasks;
      numberRemaining := numberRemaining + infos[i].numberRemaining;
      numberCompleted := numberCompleted + infos[i].numberCompleted;
      i := i + 1;
    }
    assert infos[..|infos|] == infos;
  }

  class CombinedRefreshProgress {
    var numberOfTasks: int
    var numberRemaining: int
    var numberCompleted: int
    var isStarted: bool
    /** How many times `combinedRefreshProgressDidChange` has been posted. */
    var posted: nat

    function Counts(): ProgressInfo
      reads this
    {
      ProgressInfo(numberOfTasks, numberCompleted, numberRemaining)
    }

    ghost predicate Valid()
      reads this
    {
      InRange(Counts())
    }

    constructor ()
      ensures Valid() && Counts() == NoProgress && !isStarted && posted == 0
    {
      numberOfTasks := 0;
      numberRemaining := 0;
      numberCompleted := 0;
      isStarted := false;
      posted := 0;
    }

    /** `isComplete`. */
    predicate IsComplete()
      reads this
    {
      !isStarted || numberRemaining < 1
    }

    /** `reset`: all three counters become zero; a change is posted when one of them was not zero. */
    method Reset()
      modifies this
      ensures Valid() && Counts() == NoProgress && isStarted == old(isStarted)
      ensures posted == old(posted) + if old(Counts()) != NoProgress then 1 else 0
    {
      var didMakeChange := numberOfTasks != 0 || numberRemaining != 0 || numberCompleted != 0;
      numberOfTasks := 0;
      numberRemaining := 0;
      numberCompleted := 0;
      if didMakeChange {
        posted := posted + 1;
      }
    }

    method Start()
      modifies this
      ensures Valid() && Counts() == NoProgress && isStarted
      ensures posted == old(posted) + if old(Counts()) != NoProgress then 1 else 0
    {
      Reset();
      isStarted := true;
    }

    method Stop()
      modifies this
      ensures Valid() && Counts() == NoProgress && !isStarted && IsComplete()
      ensures posted == old(posted) + if old(Counts()) != NoProgress then 1 else 0
    {
      Reset();
      isStarted := false;
    }

    /**
     * `refreshProgressDidChange`, given the progress of the active data
     * stores: ignored unless started; otherwise the counters move to
     * `Combined`, and a change is posted when any of them moved.
     */
    method RefreshProgressDidChange(infos: seq<ProgressInfo>)
      requires Valid()
      modifies this
      ensures Valid() && isStarted == old(isStarted)
      ensures !old(isStarted) ==> Counts() == old(Counts()) && posted == old(posted)
      ensures old(isStarted) ==> Counts() == Combined(old(Counts()), SumInfos(infos))
      ensures old(isStarted) ==> posted == old(posted) + if Counts() != old(Counts()) then 1 else 0
    {
      if !isStarted {
        return;
      }
      var updatedNumberOfTasks, updatedNumberRemaining, updatedNumberCompleted := SumProgress(infos);
      var didMakeChange := false;

      ghost var before := Counts();
      ghost var target := Combined(before, SumInfos(infos));
      if updatedNumberOfTasks > numberOfTasks {
        numberOfTasks := updatedNumberOfTasks;
        didMakeChange := true;
      }
      assert numberOfTasks == target.numberOfTasks;
      assert didMakeChange <==> numberOfTasks != before.numberOfTasks;

      updatedNumberRemaining := if updatedNumberRemaining > numberRemaining then updatedNumberRemaining else numberRemaining;
      updatedNumberRemaining := if updatedNumberRemaining < numberOfTasks then updatedNumberRemaining else numberOfTasks;
      if updatedNumberRemaining != numberRemaining {
        numberRemaining := updatedNumberRemaining;
        didMakeChange := true;
      }
      assert numberRemaining == target.numberRemaining;

      updatedNumberCompleted := if updatedNumberCompleted > numberCompleted then updatedNumberCompleted else numberCompleted;
      updatedNumberCompleted := if updatedNumberCompleted < numberOfTasks then updatedNumberCompleted else numberOfTasks;
      if updatedNumberCompleted != numberCompleted {
        numberCompleted := updatedNumberCompleted;
        didMakeChange := true;
      }

      assert didMakeChange <==> Counts() != before;
      if didMakeChange {
        posted := posted + 1;
      }
    }
  }
}
