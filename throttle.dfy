/**
 * The minimum-interval gate of source/core/rate_limit.py. Time is an integer count of
 * milliseconds passed in by the caller instead of `time.monotonic()`; the gate
 * compares `now - last` with the interval and moves `last` only on a grant.
 */
module RateLimit {

  /** The `last` timestamp after the gate has been asked at each time of `clock`, in order. */
  function LastAfter(minInterval: int, clock: seq<int>): int
  {
    if clock == [] then 0
    else
      var last := LastAfter(minInterval, clock[..|clock| - 1]);
      if clock[|clock| - 1] - last >= minInterval then clock[|clock| - 1] else last
  }

  /** Whether the call at index `j` of `clock` is granted. */
  predicate Granted(minInterval: int, clock: seq<int>, j: nat)
    requires j < |clock|
  {
    clock[j] - LastAfter(minInterval, clock[..j]) >= minInterval
  }

  predicate NonDecreasing(clock: seq<int>)
  {
    forall i, j :: 0 <= i <= j < |clock| ==> clock[i] <= clock[j]
  }

  class Throttle {
    const minInterval: int
    var last: int
    /** The times at which the gate has been asked so far. */
    ghost var calls: seq<int>

    ghost predicate Valid()
      reads this
    {
      last == LastAfter(minInterval, calls)
    }

    constructor (minIntervalMs: int)
      ensures Valid() && minInterval == minIntervalMs && last == 0 && calls == []
    {
      minInterval := minIntervalMs;
      last := 0;
      calls := [];
    }

    /** Grants iff at least `minInterval` has passed since the last grant; only a grant moves `last`. */
    method Ready(now: int) returns (granted: bool)
      requires Valid()
      modifies this
      ensures Valid() && calls == old(calls) + [now]
      ensures granted <==> now - old(last) >= minInterval
      ensures granted ==> last == now
      ensures !granted ==> last == old(last)
      ensures granted == Granted(minInterval, calls, |calls| - 1)
    {
      calls := calls + [now];
      assert calls[..|calls| - 1] == old(calls);
      if now - last >= minInterval {
        last := now;
        granted := true;
      } else {
        granted := false;
      }
    }
  }

  /** The first call is measured against 0: it grants iff the clock has reached the interval. */
  lemma FirstCall(minInterval: int, clock: seq<int>)
    requires |clock| >= 1
    ensures Granted(minInterval, clock, 0) <==> clock[0] >= minInterval
  {
    assert clock[..0] == [];
  }

  /** Right after a grant at index `i`, the recorded timestamp is `clock[i]`. */
  lemma LastAfterGrant(minInterval: int, clock: seq<int>, i: nat)
    requires i < |clock| && Granted(minInterval, clock, i)
    ensures LastAfter(minInterval, clock[..i + 1]) == clock[i]
  {
    assert clock[..i + 1][..i] == clock[..i];
  }

  /** With a non-decreasing clock, the timestamp never falls below a granted time. */
  lemma {:induction false} LastStaysAtLeast(minInterval: int, clock: seq<int>, i: nat, k: nat)
    requires NonDecreasing(clock)
    requires i < k <= |clock| && Granted(minInterval, clock, i)
    ensures LastAfter(minInterval, clock[..k]) >= clock[i]
    decreases k
  {
    if k == i + 1 {
      LastAfterGrant(minInterval, clock, i);
    } else {
      LastStaysAtLeast(minInterval, clock, i, k - 1);
      assert clock[..k][..k - 1] == clock[..k - 1];
    }
  }

  /** With a non-decreasing clock, any two grants are at least `minInterval` apart. */
  lemma GrantsSpaced(minInterval: int, clock: seq<int>, i: nat, j: nat)
    requires NonDecreasing(clock)
    requires i < j < |clock| && Granted(minInterval, clock, i) && Granted(minInterval, clock, j)
    ensures clock[j] - clock[i] >= minInterval
  {
    LastStaysAtLeast(minInterval, clock, i, j);
  }

  /** The timestamp is 0 or one of the times asked, so it never exceeds a bound on them. */
  lemma {:induction false} LastAtMost(minInterval: int, clock: seq<int>, bound: int)
    requires 0 <= bound
    requires forall k :: 0 <= k < |clock| ==> clock[k] <= bound
    ensures LastAfter(minInterval, clock) <= bound
  {
    if clock != [] {
      LastAtMost(minInterval, clock[..|clock| - 1], bound);
    }
  }

  /** With no interval and a non-negative, non-decreasing clock, every call grants. */
  lemma ZeroIntervalAlwaysGrants(clock: seq<int>, j: nat)
    requires NonDecreasing(clock) && j < |clock| && clock[0] >= 0
    ensures Granted(0, clock, j)
  {
    LastAtMost(0, clock[..j], clock[j]);
  }
}
