/**
 * `CoalescingQueue`: calls (a target and a selector) collected without
 * duplicates and performed together, first in first out. Targets are held
 * weakly: a call whose target has gone away compares by a nil target and
 * performs nothing. Objects are known by identity numbers; the clock is the
 * `now` parameter, in seconds.
 */
module CoalescingQueueModel {
  import opened Wrappers

  /** `QueueCall`; equality is the target's identity and the selector, as the datatype's own equality gives. */
  datatype QueueCall = QueueCall(target: Option<nat>, selector: string)

  predicate NoDuplicates(calls: seq<QueueCall>) {
    forall i, j :: 0 <= i < j < |calls| ==> calls[i] != calls[j]
  }

  /** The private `add(_:)`'s list: the call is appended unless an equal one is already there. */
  function WithCall(calls: seq<QueueCall>, call: QueueCall): (r: seq<QueueCall>)
    ensures call in r
    ensures call in calls ==> r == calls
    ensures call !in calls ==> |r| == |calls| + 1 && r[..|calls|] == calls && r[|calls|] == call
    ensures forall c :: c in r <==> c in calls || c == call
    ensures NoDuplicates(calls) ==> NoDuplicates(r)
  {
    if call in calls then calls else calls + [call]
  }

  /** Adding the same call twice is adding it once. */
  lemma WithCallTwice(calls: seq<QueueCall>, call: QueueCall)
    ensures WithCall(WithCall(calls, call), call) == WithCall(calls, call)
  {
  }

  /** What performing a list does: the calls whose target is still there, in order. */
  function Performed(calls: seq<QueueCall>): (r: seq<QueueCall>)
    ensures |r| <= |calls|
    ensures forall c :: c in r <==> c in calls && c.target.Some?
    decreases |calls|
  {
    if |calls| == 0 then []
    else Performed(calls[..|calls| - 1]) + (if calls[|calls| - 1].target.Some? then [calls[|calls| - 1]] else [])
  }

  /** Performing two lists one after the other is performing them joined. */
  lemma {:induction false} PerformedAppend(a: seq<QueueCall>, b: seq<QueueCall>)
    ensures Performed(a + b) == Performed(a) + Performed(b)
    decreases |b|
  {
    if |b| > 0 {
      var b' := b[..|b| - 1];
      assert (a + b)[..|a + b| - 1] == a + b';
      PerformedAppend(a, b');
    } else {
      assert a + b == a;
    }
  }

  /** The list after an gone goes away: its calls now have a nil target. */
  function Released(calls: seq<QueueCall>, gone: nat): (r: seq<QueueCall>)
    ensures |r| == |calls|
    ensures forall i :: 0 <= i < |calls| ==> r[i].selector == calls[i].selector
    ensures forall i :: 0 <= i < |calls| ==> r[i].target == (if calls[i].target == Some(gone) then None else calls[i].target)
  {
    seq(|calls|, i requires 0 <= i < |calls| =>
      if calls[i].target == Some(gone) then calls[i].(target := None) else calls[i])
  }

  /** A released gone's calls perform nothing. */
  lemma ReleasedNotPerformed(calls: seq<QueueCall>, gone: nat)
    ensures forall c :: c in Performed(Released(calls, gone)) ==> c.target != Some(gone)
  {
  }

  class CoalescingQueue {
    const name: string
    var isPaused: bool
    const interval: real
    const maxInterval: real
    /** The last time the timer fired; nil for `Date.distantFuture`, before it first fires. */
    var lastCallTime: Option<real>
    /** When the scheduled timer will fire, if one is scheduled. */
    var timerFireDate: Option<real>
    var calls: seq<QueueCall>
    /** Every call performed so far, in order. */
    var performed: seq<QueueCall>

    /** `init(name:interval:maxInterval:)`. */
    constructor (name: string, interval: real, maxInterval: real)
      ensures this.name == name && this.interval == interval && this.maxInterval == maxInterval
      ensures !isPaused && lastCallTime.None? && timerFireDate.None? && calls == [] && performed == []
    {
      this.name := name;
      this.interval := interval;
      this.maxInterval := maxInterval;
      isPaused := false;
      lastCallTime := None;
      timerFireDate := None;
      calls := [];
      performed := [];
    }

    /** `performCallsImmediately`: unless paused, empties the list and performs the calls it held, in order. */
    method PerformCallsImmediately()
      modifies this
      ensures old(isPaused) ==> calls == old(calls) && performed == old(performed)
      ensures !old(isPaused) ==> calls == [] && performed == old(performed) + Performed(old(calls))
      ensures isPaused == old(isPaused) && lastCallTime == old(lastCallTime) && timerFireDate == old(timerFireDate)
    {
      if isPaused {
        return;
      }
      var callsToMake := calls;
      calls := [];
      var i := 0;
      while i < |callsToMake|
        invariant 0 <= i <= |callsToMake|
        invariant performed == old(performed) + Performed(callsToMake[..i])
        invariant calls == [] && isPaused == old(isPaused)
        invariant lastCallTime == old(lastCallTime) && timerFireDate == old(timerFireDate)
      {
        assert callsToMake[..i + 1][..i] == callsToMake[..i];
        if callsToMake[i].target.Some? {
          performed := performed + [callsToMake[i]];
        }
        i := i + 1;
      }
      assert callsToMake[..|callsToMake|] == callsToMake;
    }

    /** `timerDidFire`: records the time, then performs the calls. */
    method TimerDidFire(now: real)
      modifies this
      ensures lastCallTime == Some(now)
      ensures old(isPaused) ==> calls == old(calls) && performed == old(performed)
      ensures !old(isPaused) ==> calls == [] && performed == old(performed) + Performed(old(calls))
      ensures isPaused == old(isPaused) && timerFireDate == old(timerFireDate)
    {
      lastCallTime := Some(now);
      PerformCallsImmediately();
    }

    /**
     * `add(_:_:)`: restarts the timer and adds the call; when more than
     * `maxInterval` has passed since the timer last fired, the calls are
     * performed at once.
     */
    method Add(target: nat, selector: string, now: real)
      modifies this
      ensures timerFireDate == Some(now + interval) && isPaused == old(isPaused)
      ensures NoDuplicates(old(calls)) ==> NoDuplicates(calls)
      ensures var added := WithCall(old(calls), QueueCall(Some(target), selector));
        if old(lastCallTime).Some? && now - old(lastCallTime).value > maxInterval then
          lastCallTime == Some(now)
          && (isPaused ==> calls == added && performed == old(performed))
          && (!isPaused ==> calls == [] && performed == old(performed) + Performed(added))
        else
          lastCallTime == old(lastCallTime) && calls == added && performed == old(performed)
    {
      var queueCall := QueueCall(Some(target), selector);
      timerFireDate := Some(now + interval);
      if queueCall !in calls {
        calls := calls + [queueCall];
      }
      if lastCallTime.Some? && now - lastCallTime.value > maxInterval {
        TimerDidFire(now);
      }
    }

    /** The target `gone` goes away: the weak references to it in the queued calls become nil. */
    method Release(gone: nat)
      modifies this
      ensures calls == Released(old(calls), gone)
      ensures performed == old(performed) && isPaused == old(isPaused)
      ensures lastCallTime == old(lastCallTime) && timerFireDate == old(timerFireDate)
    {
      calls := Released(calls, gone);
    }
  }
}
