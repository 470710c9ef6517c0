/**
 * `DownloadProgress`: a task counter (tasks and completed tasks) with child
 * counters whose counts it includes. Every counter is known by the id it
 * draws from a shared counter at creation, which is also what its equality
 * and hashing use; `DownloadProgressStore` holds all counters by id, with
 * each counter's children (the source's set, in its iteration order).
 */
module DownloadProgressModel {

  datatype ProgressInfo = ProgressInfo(numberOfTasks: int, numberCompleted: int, numberRemaining: int)

  const NoProgress := ProgressInfo(0, 0, 0)

  function AddInfo(a: ProgressInfo, b: ProgressInfo): ProgressInfo {
    ProgressInfo(a.numberOfTasks + b.numberOfTasks, a.numberCompleted + b.numberCompleted,
                 a.numberRemaining + b.numberRemaining)
  }

  /** The counts and child lists of all counters, by id, and the next id to hand out. */
  datatype Counters = Counters(
    numberOfTasks: map<nat, int>,
    numberCompleted: map<nat, int>,
    children: map<nat, seq<nat>>,
    nextID: nat)

  /** Every counter was created before `nextID`, and its children exist and were created after it. */
  predicate Linked(children: map<nat, seq<nat>>, nextID: nat) {
    forall p :: p in children ==>
      p < nextID && forall k :: 0 <= k < |children[p]| ==> children[p][k] in children && p < children[p][k]
  }

  predicate Shaped(c: Counters) {
    c.numberOfTasks.Keys == c.children.Keys && c.numberCompleted.Keys == c.children.Keys
    && Linked(c.children, c.nextID)
  }

  /** The source's assertions: no counter has negative tasks or more completed than tasks. */
  predicate CountsValid(c: Counters)
    requires Shaped(c)
  {
    forall id :: id in c.children ==> 0 <= c.numberOfTasks[id] && c.numberCompleted[id] <= c.numberOfTasks[id]
  }

  predicate WellFormed(c: Counters) {
    Shaped(c) && CountsValid(c)
  }

  /** The counter `id` and everything below it. */
  function Desc(children: map<nat, seq<nat>>, nextID: nat, id: nat): (r: set<nat>)
    requires Linked(children, nextID) && id in children
    ensures id in r
    decreases nextID - id, 1
  {
    {id} + DescFirst(children, nextID, id, |children[id]|)
  }

  /** What lies below the first n children of `id`. */
  function DescFirst(children: map<nat, seq<nat>>, nextID: nat, id: nat, n: nat): (r: set<nat>)
    requires Linked(children, nextID) && id in children && n <= |children[id]|
    decreases nextID - id, 0, n
  {
    if n == 0 then {} else DescFirst(children, nextID, id, n - 1) + Desc(children, nextID, children[id][n - 1])
  }

  /** What lies below a child lies below its parent. */
  lemma {:induction false} DescFirstContains(children: map<nat, seq<nat>>, nextID: nat, id: nat, n: nat, k: nat)
    requires Linked(children, nextID) && id in children && k < n <= |children[id]|
    ensures Desc(children, nextID, children[id][k]) <= DescFirst(children, nextID, id, n)
    decreases n
  {
    if k < n - 1 {
      DescFirstContains(children, nextID, id, n - 1, k);
    }
  }

  /** `progressInfo`: a counter's own counts, then each child's, summed. */
  function Info(c: Counters, id: nat): ProgressInfo
    requires Shaped(c) && id in c.children
    decreases c.nextID - id, 1
  {
    AddInfo(ProgressInfo(c.numberOfTasks[id], c.numberCompleted[id], c.numberOfTasks[id] - c.numberCompleted[id]),
            InfoFirst(c, id, |c.children[id]|))
  }

  /** One step of `Info`'s definition, for proofs whose context makes unfolding it costly. */
  lemma InfoUnfold(c: Counters, id: nat)
    requires Shaped(c) && id in c.children
    ensures Info(c, id) == AddInfo(ProgressInfo(c.numberOfTasks[id], c.numberCompleted[id], c.numberOfTasks[id] - c.numberCompleted[id]),
                                   InfoFirst(c, id, |c.children[id]|))
  {
  }

  /** The summed counts of the first n children of `id`. */
  function InfoFirst(c: Counters, id: nat, n: nat): ProgressInfo
    requires Shaped(c) && id in c.children && n <= |c.children[id]|
    decreases c.nextID - id, 0, n
  {
    if n == 0 then NoProgress else AddInfo(InfoFirst(c, id, n - 1), Info(c, c.children[id][n - 1]))
  }

  /** The summed counts agree: remaining is tasks minus completed, and neither is negative when the counts are valid. */
  lemma {:induction false} InfoConsistent(c: Counters, id: nat)
    requires Shaped(c) && id in c.children
    ensures Info(c, id).numberRemaining == Info(c, id).numberOfTasks - Info(c, id).numberCompleted
    ensures CountsValid(c) ==> Info(c, id).numberRemaining >= 0 && Info(c, id).numberOfTasks >= 0
    decreases c.nextID - id, 1
  {
    InfoFirstConsistent(c, id, |c.children[id]|);
  }

  lemma {:induction false} InfoFirstConsistent(c: Counters, id: nat, n: nat)
    requires Shaped(c) && id in c.children && n <= |c.children[id]|
    ensures InfoFirst(c, id, n).numberRemaining == InfoFirst(c, id, n).numberOfTasks - InfoFirst(c, id, n).numberCompleted
    ensures CountsValid(c) ==> InfoFirst(c, id, n).numberRemaining >= 0 && InfoFirst(c, id, n).numberOfTasks >= 0
    decreases c.nextID - id, 0, n
  {
    if n > 0 {
      InfoFirstConsistent(c, id, n - 1);
      InfoConsistent(c, c.children[id][n - 1]);
    }
  }

  // ---------------------------------------------------------------- completeAll and reset

  /** The counters after every one in `s` is completed. */
  function CompleteOn(c: Counters, s: set<nat>): Counters
    requires Shaped(c)
  {
    c.(numberCompleted := map k | k in c.numberCompleted :: if k in s then c.numberOfTasks[k] else c.numberCompleted[k])
  }

  /** The counters after every one in `s` is zeroed. */
  function ResetOn(c: Counters, s: set<nat>): Counters
    requires Shaped(c)
  {
    c.(numberOfTasks := map k | k in c.numberOfTasks :: if k in s then 0 else c.numberOfTasks[k],
       numberCompleted := map k | k in c.numberCompleted :: if k in s then 0 else c.numberCompleted[k])
  }

  /** Some counter in `s` has a count other than zero. */
  predicate HasCountsIn(c: Counters, s: set<nat>)
    requires Shaped(c)
  {
    exists k :: k in s && k in c.children && (c.numberOfTasks[k] != 0 || c.numberCompleted[k] != 0)
  }

  lemma CompleteOnKeepsShape(c: Counters, s: set<nat>)
    requires Shaped(c)
    ensures Shaped(CompleteOn(c, s)) && CompleteOn(c, s).children == c.children
  {
  }

  lemma CompleteOnKeepsCounts(c: Counters, s: set<nat>)
    requires WellFormed(c)
    ensures WellFormed(CompleteOn(c, s)) && CompleteOn(c, s).children == c.children
  {
  }

  lemma ResetOnKeepsShape(c: Counters, s: set<nat>)
    requires Shaped(c)
    ensures Shaped(ResetOn(c, s)) && ResetOn(c, s).children == c.children
  {
  }

  lemma ResetOnKeepsCounts(c: Counters, s: set<nat>)
    requires WellFormed(c)
    ensures WellFormed(ResetOn(c, s)) && ResetOn(c, s).children == c.children
  {
  }

  /** Completing s and then t is completing both. */
  lemma CompleteOnTwice(c: Counters, s: set<nat>, t: set<nat>)
    requires Shaped(c)
    ensures Shaped(CompleteOn(c, s))
    ensures CompleteOn(CompleteOn(c, s), t) == CompleteOn(c, s + t)
  {
    var l := CompleteOn(CompleteOn(c, s), t).numberCompleted;
    assert l == CompleteOn(c, s + t).numberCompleted;
  }

  lemma CompleteOnOne(c: Counters, id: nat)
    requires Shaped(c) && id in c.children
    ensures CompleteOn(c, {id}) == c.(numberCompleted := c.numberCompleted[id := c.numberOfTasks[id]])
  {
  }

  lemma ResetOnOne(c: Counters, id: nat)
    requires Shaped(c) && id in c.children
    ensures ResetOn(c, {id}) == c.(numberOfTasks := c.numberOfTasks[id := 0], numberCompleted := c.numberCompleted[id := 0])
    ensures HasCountsIn(c, {id}) <==> c.numberOfTasks[id] != 0 || c.numberCompleted[id] != 0
  {
    var r := ResetOn(c, {id});
    assert r.numberOfTasks == c.numberOfTasks[id := 0];
    assert r.numberCompleted == c.numberCompleted[id := 0];
  }

  /** Completing what lies below the next child extends what `completeAll` has completed by that child. */
  lemma CompleteStep(c: Counters, id: nat, i: nat, done: set<nat>)
    requires WellFormed(c) && id in c.children && i < |c.children[id]|
    requires done == {id} + DescFirst(c.children, c.nextID, id, i)
    ensures WellFormed(CompleteOn(c, done)) && CompleteOn(c, done).children == c.children
    ensures CompleteOn(CompleteOn(c, done), Desc(c.children, c.nextID, c.children[id][i]))
      == CompleteOn(c, done + Desc(c.children, c.nextID, c.children[id][i]))
    ensures done + Desc(c.children, c.nextID, c.children[id][i]) == {id} + DescFirst(c.children, c.nextID, id, i + 1)
  {
    CompleteOnKeepsCounts(c, done);
    CompleteOnTwice(c, done, Desc(c.children, c.nextID, c.children[id][i]));
  }

  /** Resetting s and then t is resetting both. */
  lemma ResetOnTwice(c: Counters, s: set<nat>, t: set<nat>)
    requires Shaped(c)
    ensures Shaped(ResetOn(c, s))
    ensures ResetOn(ResetOn(c, s), t) == ResetOn(c, s + t)
  {
    var l := ResetOn(ResetOn(c, s), t);
    var r := ResetOn(c, s + t);
    assert l.numberOfTasks == r.numberOfTasks;
    assert l.numberCompleted == r.numberCompleted;
  }

  /** After s is zeroed, what counts remain in t are those outside s. */
  lemma HasCountsAfterReset(c: Counters, s: set<nat>, t: set<nat>)
    requires Shaped(c)
    ensures Shaped(ResetOn(c, s))
    ensures HasCountsIn(ResetOn(c, s), t) <==> HasCountsIn(c, t - s)
  {
    var r := ResetOn(c, s);
    if HasCountsIn(r, t) {
      var k :| k in t && k in r.children && (r.numberOfTasks[k] != 0 || r.numberCompleted[k] != 0);
      assert k in t - s;
    }
    if HasCountsIn(c, t - s) {
      var k :| k in t - s && k in c.children && (c.numberOfTasks[k] != 0 || c.numberCompleted[k] != 0);
      assert r.numberOfTasks[k] == c.numberOfTasks[k] && r.numberCompleted[k] == c.numberCompleted[k];
    }
  }

  lemma HasCountsUnion(c: Counters, s: set<nat>, t: set<nat>)
    requires Shaped(c)
    ensures HasCountsIn(c, s + (t - s)) <==> HasCountsIn(c, s) || HasCountsIn(c, t - s)
  {
  }

  /** Zeroing what lies below the next child extends what `reset` has zeroed, and what it has found, by that child. */
  lemma ResetStep(c: Counters, id: nat, i: nat, done: set<nat>)
    requires WellFormed(c) && id in c.children && i < |c.children[id]|
    requires done == {id} + DescFirst(c.children, c.nextID, id, i)
    ensures WellFormed(ResetOn(c, done)) && ResetOn(c, done).children == c.children
    ensures ResetOn(ResetOn(c, done), Desc(c.children, c.nextID, c.children[id][i]))
      == ResetOn(c, done + Desc(c.children, c.nextID, c.children[id][i]))
    ensures HasCountsIn(ResetOn(c, done), Desc(c.children, c.nextID, c.children[id][i])) || HasCountsIn(c, done)
      <==> HasCountsIn(c, done + Desc(c.children, c.nextID, c.children[id][i]))
    ensures done + Desc(c.children, c.nextID, c.children[id][i]) == {id} + DescFirst(c.children, c.nextID, id, i + 1)
  {
    var below := Desc(c.children, c.nextID, c.children[id][i]);
    ResetOnKeepsCounts(c, done);
    ResetOnTwice(c, done, below);
    HasCountsAfterReset(c, done, below);
    HasCountsUnion(c, done, below);
    assert done + (below - done) == done + below;
  }

  /** Zeroing some counters changes the counters exactly when one of them had a count. */
  lemma ResetChangesIffCounts(c: Counters, s: set<nat>)
    requires Shaped(c)
    ensures ResetOn(c, s) != c <==> HasCountsIn(c, s)
  {
    var r := ResetOn(c, s);
    if HasCountsIn(c, s) {
      var k :| k in s && k in c.children && (c.numberOfTasks[k] != 0 || c.numberCompleted[k] != 0);
      assert r.numberOfTasks[k] != c.numberOfTasks[k] || r.numberCompleted[k] != c.numberCompleted[k];
    } else {
      assert r.numberOfTasks == c.numberOfTasks;
      assert r.numberCompleted == c.numberCompleted;
    }
  }

  /** Once every counter below `id` is completed, nothing remains below it, and its tasks are unchanged. */
  lemma {:induction false} CompletedHasNothingRemaining(c: Counters, s: set<nat>, id: nat)
    requires Shaped(c) && id in c.children && Desc(c.children, c.nextID, id) <= s
    ensures Shaped(CompleteOn(c, s))
    ensures Info(CompleteOn(c, s), id).numberRemaining == 0
    ensures Info(CompleteOn(c, s), id).numberOfTasks == Info(c, id).numberOfTasks
    decreases c.nextID - id, 1
  {
    CompleteOnKeepsShape(c, s);
    CompletedFirstHaveNothingRemaining(c, s, id, |c.children[id]|);
  }

  lemma {:induction false} CompletedFirstHaveNothingRemaining(c: Counters, s: set<nat>, id: nat, n: nat)
    requires Shaped(c) && id in c.children && n <= |c.children[id]| && Desc(c.children, c.nextID, id) <= s
    ensures Shaped(CompleteOn(c, s))
    ensures InfoFirst(CompleteOn(c, s), id, n).numberRemaining == 0
    ensures InfoFirst(CompleteOn(c, s), id, n).numberOfTasks == InfoFirst(c, id, n).numberOfTasks
    decreases c.nextID - id, 0, n
  {
    CompleteOnKeepsShape(c, s);
    if n > 0 {
      CompletedFirstHaveNothingRemaining(c, s, id, n - 1);
      DescFirstContains(c.children, c.nextID, id, |c.children[id]|, n - 1);
      CompletedHasNothingRemaining(c, s, c.children[id][n - 1]);
    }
  }

  /** Once every counter below `id` is zeroed, it counts nothing. */
  lemma {:induction false} ResetCountsNothing(c: Counters, s: set<nat>, id: nat)
    requires Shaped(c) && id in c.children && Desc(c.children, c.nextID, id) <= s
    ensures Shaped(ResetOn(c, s))
    ensures Info(ResetOn(c, s), id) == NoProgress
    decreases c.nextID - id, 1
  {
    ResetOnKeepsShape(c, s);
    var r := ResetOn(c, s);
    assert r.numberOfTasks[id] == 0 && r.numberCompleted[id] == 0 by {
      assert id in s;
    }
    ResetFirstCountNothing(c, s, id, |c.children[id]|);
    assert InfoFirst(r, id, |r.children[id]|) == NoProgress;
    InfoUnfold(r, id);
  }

  lemma {:induction false} ResetFirstCountNothing(c: Counters, s: set<nat>, id: nat, n: nat)
    requires Shaped(c) && id in c.children && n <= |c.children[id]| && Desc(c.children, c.nextID, id) <= s
    ensures Shaped(ResetOn(c, s))
    ensures InfoFirst(ResetOn(c, s), id, n) == NoProgress
    decreases c.nextID - id, 0, n
  {
    ResetOnKeepsShape(c, s);
    if n > 0 {
      ResetFirstCountNothing(c, s, id, n - 1);
      DescFirstContains(c.children, c.nextID, id, |c.children[id]|, n - 1);
      ResetCountsNothing(c, s, c.children[id][n - 1]);
    }
  }

  // ---------------------------------------------------------------- reset's result as written

  /**
   * `reset`'s result as written: each child's result replaces the flag, so
   * a counter with children reports what its last child reports, in the
   * state left by resetting itself and the children before it.
   */
  function ResetFlagAsWritten(c: Counters, id: nat): bool
    requires Shaped(c) && id in c.children
    decreases c.nextID - id
  {
    var n := |c.children[id]|;
    if n == 0 then c.numberOfTasks[id] != 0 || c.numberCompleted[id] != 0
    else
      ResetOnKeepsShape(c, {id} + DescFirst(c.children, c.nextID, id, n - 1));
      ResetFlagAsWritten(ResetOn(c, {id} + DescFirst(c.children, c.nextID, id, n - 1)), c.children[id][n - 1])
  }

  /** A counter with five tasks and one empty child: as written, reset reports no change, yet it zeroes the five tasks. */
  lemma ResetFlagAsWrittenMissesOwnChange()
    ensures var c := Counters(map[0 := 5, 1 := 0], map[0 := 0, 1 := 0], map[0 := [1], 1 := []], 2);
      Shaped(c) && !ResetFlagAsWritten(c, 0) && HasCountsIn(c, Desc(c.children, c.nextID, 0))
      && ResetOn(c, Desc(c.children, c.nextID, 0)) != c
  {
    var c := Counters(map[0 := 5, 1 := 0], map[0 := 0, 1 := 0], map[0 := [1], 1 := []], 2);
    assert Shaped(c);
    var r := ResetOn(c, {0});
    assert r.numberOfTasks[1] == 0 && r.numberCompleted[1] == 0;
    assert r.children[1] == [];
    assert !ResetFlagAsWritten(r, 1);
    assert DescFirst(c.children, c.nextID, 0, 0) == {};
    assert 0 in Desc(c.children, c.nextID, 0);
    ResetChangesIffCounts(c, Desc(c.children, c.nextID, 0));
  }

  /** `p` extends `p0` by posts from counters in `s` only. */
  predicate PostedWithin(p0: seq<nat>, p: seq<nat>, s: set<nat>) {
    |p0| <= |p| && p[..|p0|] == p0 && forall k :: |p0| <= k < |p| ==> p[k] in s
  }

  lemma PostedWithinTrans(p0: seq<nat>, p1: seq<nat>, p2: seq<nat>, s: set<nat>, t: set<nat>)
    requires PostedWithin(p0, p1, s) && PostedWithin(p1, p2, t)
    ensures PostedWithin(p0, p2, s + t)
  {
    assert p2[..|p0|] == p1[..|p0|];
  }

  lemma PostedWithinAppend(p0: seq<nat>, p: seq<nat>, s: set<nat>, x: nat)
    requires PostedWithin(p0, p, s) && x in s
    ensures PostedWithin(p0, p + [x], s)
  {
    assert (p + [x])[..|p0|] == p[..|p0|];
  }

  /** All `DownloadProgress` counters, by id, with the notifications they have posted. */
  class DownloadProgressStore {
    var numberOfTasks: map<nat, int>
    var numberCompleted: map<nat, int>
    var children: map<nat, seq<nat>>
    /** The shared counter behind `autoincrementingID`. */
    var nextID: nat
    /** The ids of the counters that posted `DownloadProgressDidChange`, in order. */
    var posted: seq<nat>

    function State(): Counters
      reads this
    {
      Counters(numberOfTasks, numberCompleted, children, nextID)
    }

    ghost predicate Valid()
      reads this
    {
      WellFormed(State())
    }

    constructor ()
      ensures Valid() && State() == Counters(map[], map[], map[], 0) && posted == []
    {
      numberOfTasks := map[];
      numberCompleted := map[];
      children := map[];
      nextID := 0;
      posted := [];
    }

    /** `init(numberOfTasks:)`: a new counter with no children, under the next id. */
    method Create(tasks: int) returns (id: nat)
      requires Valid() && tasks >= 0
      modifies this
      ensures Valid() && id !in old(children) && id == old(nextID) && nextID == id + 1
      ensures numberOfTasks == old(numberOfTasks)[id := tasks] && numberCompleted == old(numberCompleted)[id := 0]
      ensures children == old(children)[id := []] && posted == old(posted)
    {
      id := nextID;
      nextID := nextID + 1;
      numberOfTasks := numberOfTasks[id := tasks];
      numberCompleted := numberCompleted[id := 0];
      children := children[id := []];
    }

    /** `isComplete`: the counter's own remaining count is below one; its children are not consulted. */
    predicate IsComplete(id: nat)
      requires id in numberOfTasks && id in numberCompleted
      reads this
    {
      numberOfTasks[id] - numberCompleted[id] < 1
    }

    /** `addChild`: inserting a child already present changes nothing. */
    method AddChild(parent: nat, child: nat)
      requires Valid() && parent in children && child in children && parent < child
      modifies this
      ensures Valid()
      ensures children == old(children)[parent := if child in old(children)[parent] then old(children)[parent]
                                                 else old(children)[parent] + [child]]
      ensures numberOfTasks == old(numberOfTasks) && numberCompleted == old(numberCompleted)
      ensures nextID == old(nextID) && posted == old(posted)
    {
      if child !in children[parent] {
        children := children[parent := children[parent] + [child]];
      }
    }

    /** `addTasks`: n must be positive; the counter posts a change. */
    method AddTasks(id: nat, n: int)
      requires Valid() && id in children && n > 0
      modifies this
      ensures Valid()
      ensures numberOfTasks == old(numberOfTasks)[id := old(numberOfTasks)[id] + n]
      ensures numberCompleted == old(numberCompleted) && children == old(children) && nextID == old(nextID)
      ensures posted == old(posted) + [id]
    {
      numberOfTasks := numberOfTasks[id := numberOfTasks[id] + n];
      posted := posted + [id];
    }

    method AddTask(id: nat)
      requires Valid() && id in children
      modifies this
      ensures Valid()
      ensures numberOfTasks == old(numberOfTasks)[id := old(numberOfTasks)[id] + 1]
      ensures numberCompleted == old(numberCompleted) && children == old(children) && nextID == old(nextID)
      ensures posted == old(posted) + [id]
    {
      AddTasks(id, 1);
    }

    /** `completeTasks`: the completed count may not pass the number of tasks; the counter posts a change. */
    method CompleteTasks(id: nat, tasks: int)
      requires Valid() && id in children && numberCompleted[id] + tasks <= numberOfTasks[id]
      modifies this
      ensures Valid()
      ensures numberCompleted == old(numberCompleted)[id := old(numberCompleted)[id] + tasks]
      ensures numberOfTasks == old(numberOfTasks) && children == old(children) && nextID == old(nextID)
      ensures posted == old(posted) + [id]
    {
      numberCompleted := numberCompleted[id := numberCompleted[id] + tasks];
      posted := posted + [id];
    }

    method CompleteTask(id: nat)
      requires Valid() && id in children && numberCompleted[id] + 1 <= numberOfTasks[id]
      modifies this
      ensures Valid()
      ensures numberCompleted == old(numberCompleted)[id := old(numberCompleted)[id] + 1]
      ensures numberOfTasks == old(numberOfTasks) && children == old(children) && nextID == old(nextID)
      ensures posted == old(posted) + [id]
    {
      CompleteTasks(id, 1);
    }

    /** `progressInfo`: the counter's counts plus each child's, recursively. */
    method GetProgressInfo(id: nat) returns (info: ProgressInfo)
      requires Valid() && id in children
      ensures info == Info(State(), id)
      decreases nextID - id
    {
      var total := NoProgress;
      var cs := children[id];
      var i := 0;
      while i < |cs|
        invariant 0 <= i <= |cs|
        invariant total == InfoFirst(State(), id, i)
      {
        var childProgressInfo := GetProgressInfo(cs[i]);
        total := AddInfo(total, childProgressInfo);
        i := i + 1;
      }
      info := AddInfo(ProgressInfo(numberOfTasks[id], numberCompleted[id], numberOfTasks[id] - numberCompleted[id]), total);
    }

    /** `completeAll`: the counter and every one below it end completed; nothing is posted. */
    method CompleteAll(id: nat)
      requires Valid() && id in children
      modifies this
      ensures Valid()
      ensures State() == CompleteOn(old(State()), Desc(old(children), old(nextID), id))
      ensures posted == old(posted)
      ensures IsComplete(id)
      decreases nextID - id, 1
    {
      ghost var c0 := State();
      numberCompleted := numberCompleted[id := numberOfTasks[id]];
      CompleteOnOne(c0, id);
      CompleteChildren(c0, id);
      CompleteOnKeepsCounts(c0, Desc(c0.children, c0.nextID, id));
    }

    /** `completeAll`'s loop over the children, once the counter itself is completed. */
    method CompleteChildren(ghost c0: Counters, id: nat)
      requires WellFormed(c0) && id in c0.children && State() == CompleteOn(c0, {id})
      modifies this
      ensures State() == CompleteOn(c0, {id} + DescFirst(c0.children, c0.nextID, id, |c0.children[id]|))
      ensures posted == old(posted)
      decreases c0.nextID - id, 0
    {
      ghost var done := {id};
      var cs := children[id];
      var i := 0;
      while i < |cs|
        invariant 0 <= i <= |cs|
        invariant done == {id} + DescFirst(c0.children, c0.nextID, id, i)
        invariant State() == CompleteOn(c0, done) && posted == old(posted)
      {
        CompleteStep(c0, id, i, done);
        CompleteAll(cs[i]);
        done := done + Desc(c0.children, c0.nextID, cs[i]);
        i := i + 1;
      }
    }

    /**
     * `reset`: the counter and every one below it end at zero. The result
     * says whether any of their counts changed, and a counter whose result
     * is true posts a change after its children have.
     */
    method Reset(id: nat) returns (didChange: bool)
      requires Valid() && id in children
      modifies this
      ensures Valid()
      ensures State() == ResetOn(old(State()), Desc(old(children), old(nextID), id))
      ensures didChange <==> HasCountsIn(old(State()), Desc(old(children), old(nextID), id))
      ensures PostedWithin(old(posted), posted, Desc(old(children), old(nextID), id))
      ensures didChange <==> |posted| > |old(posted)|
      ensures didChange ==> posted[|posted| - 1] == id
      ensures IsComplete(id)
      decreases nextID - id, 2
    {
      ghost var c0 := State();
      didChange := ResetOwn(id);
      ResetOnOne(c0, id);
      didChange := ResetChildren(c0, id, didChange);
      ResetOnKeepsCounts(c0, Desc(c0.children, c0.nextID, id));
      if didChange {
        PostedWithinAppend(old(posted), posted, Desc(c0.children, c0.nextID, id), id);
        posted := posted + [id];
      }
    }

    /** The start of `reset`: zeroes the counter's own counts, noting whether either was not zero. */
    method ResetOwn(id: nat) returns (didChange: bool)
      requires id in numberOfTasks && id in numberCompleted
      modifies this
      ensures numberOfTasks == old(numberOfTasks)[id := 0] && numberCompleted == old(numberCompleted)[id := 0]
      ensures didChange <==> old(numberOfTasks)[id] != 0 || old(numberCompleted)[id] != 0
      ensures children == old(children) && nextID == old(nextID) && posted == old(posted)
    {
      didChange := false;
      if numberOfTasks[id] != 0 {
        numberOfTasks := numberOfTasks[id := 0];
        didChange := true;
      }
      if numberCompleted[id] != 0 {
        numberCompleted := numberCompleted[id := 0];
        didChange := true;
      }
      assert numberOfTasks == old(numberOfTasks)[id := 0];
      assert numberCompleted == old(numberCompleted)[id := 0];
    }

    /** `reset`'s loop over the children, once the counter itself is zeroed; `changed` is the flag so far. */
    method ResetChildren(ghost c0: Counters, id: nat, changed: bool) returns (didChange: bool)
      requires WellFormed(c0) && id in c0.children && State() == ResetOn(c0, {id})
      requires changed <==> HasCountsIn(c0, {id})
      modifies this
      ensures State() == ResetOn(c0, Desc(c0.children, c0.nextID, id))
      ensures didChange <==> HasCountsIn(c0, Desc(c0.children, c0.nextID, id))
      ensures PostedWithin(old(posted), posted, Desc(c0.children, c0.nextID, id))
      ensures !didChange ==> posted == old(posted)
      decreases c0.nextID - id, 1
    {
      didChange := changed;
      ghost var done := {id};
      var cs := children[id];
      var i := 0;
      assert posted[..|posted|] == posted;
      while i < |cs|
        invariant 0 <= i <= |cs|
        invariant done == {id} + DescFirst(c0.children, c0.nextID, id, i)
        invariant State() == ResetOn(c0, done)
        invariant didChange <==> HasCountsIn(c0, done)
        invariant PostedWithin(old(posted), posted, done)
        invariant !didChange ==> posted == old(posted)
      {
        ghost var before := posted;
        didChange := ResetChild(c0, id, i, done, didChange);
        PostedWithinTrans(old(posted), before, posted, done, Desc(c0.children, c0.nextID, cs[i]));
        done := done + Desc(c0.children, c0.nextID, cs[i]);
        i := i + 1;
      }
    }

    /** One turn of `reset`'s loop: zeroes child i and everything below it, and folds in its result. */
    method ResetChild(ghost c0: Counters, id: nat, i: nat, ghost done: set<nat>, changed: bool) returns (didChange: bool)
      requires WellFormed(c0) && id in c0.children && i < |c0.children[id]|
      requires done == {id} + DescFirst(c0.children, c0.nextID, id, i)
      requires State() == ResetOn(c0, done)
      requires changed <==> HasCountsIn(c0, done)
      modifies this
      ensures State() == ResetOn(c0, done + Desc(c0.children, c0.nextID, c0.children[id][i]))
      ensures didChange <==> HasCountsIn(c0, done + Desc(c0.children, c0.nextID, c0.children[id][i]))
      ensures PostedWithin(old(posted), posted, Desc(c0.children, c0.nextID, c0.children[id][i]))
      ensures !didChange ==> posted == old(posted)
      decreases c0.nextID - id, 0
    {
      ResetStep(c0, id, i, done);
      var childDidChange := Reset(children[id][i]);
      didChange := childDidChange || changed;
    }
  }
}
