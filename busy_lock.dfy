/**
 * The busy flag of source/utils/lock.py, run sequentially: waiting accumulates the
 * slept seconds in `timeLocked` until the flag is down or the timeout is reached, and
 * locking or unlocking resets the counter. Sleeps take no time in the model.
 */
module BusyLock {

  /** How many sleeps a waiter takes from counter `t` while the flag stays up. */
  function Steps(t: int, w: int, max: int): nat
    requires w > 0 || t >= max
    decreases max - t
  {
    if t >= max then 0 else 1 + Steps(t + w, w, max)
  }

  /**
   * The counter a waiter ends with, starting from `t` while the flag stays up:
   * `t` itself once it has reached `max`, otherwise the first `t + k * w` at or past `max`.
   */
  function WaitedUntil(t: int, w: int, max: int): (r: int)
    requires w > 0 || t >= max
    ensures r == t + Steps(t, w, max) * w
    ensures t >= max ==> r == t
    ensures t < max ==> max <= r < max + w
    decreases max - t
  {
    if t >= max then t
    else
      var r := WaitedUntil(t + w, w, max);
      assert (1 + Steps(t + w, w, max)) * w == w + Steps(t + w, w, max) * w;
      r
  }

  class Lock {
    var locked: bool
    var timeLocked: int

    constructor (initialLockValue: bool)
      ensures locked == initialLockValue && timeLocked == 0
    {
      locked := initialLockValue;
      timeLocked := 0;
    }

    /**
     * Sleeps in steps of `waitTime` while the flag is up and the counter is below
     * `maxTimeout`. The flag is never changed here; a counter already at the timeout
     * lets the caller through at once.
     */
    method WaitLock(waitTime: int := 5, maxTimeout: int := 600)
      requires waitTime > 0 || !locked || timeLocked >= maxTimeout
      modifies this
      ensures locked == old(locked)
      ensures !locked || timeLocked >= maxTimeout
      ensures !locked ==> timeLocked == old(timeLocked)
      ensures locked ==> timeLocked == WaitedUntil(old(timeLocked), waitTime, maxTimeout)
    {
      while locked && timeLocked < maxTimeout
        invariant locked == old(locked)
        invariant !locked ==> timeLocked == old(timeLocked)
        invariant waitTime > 0 || !locked || timeLocked >= maxTimeout
        invariant locked ==>
          WaitedUntil(timeLocked, waitTime, maxTimeout) == WaitedUntil(old(timeLocked), waitTime, maxTimeout)
        decreases if locked then maxTimeout - timeLocked else 0
      {
        timeLocked := timeLocked + waitTime;
      }
    }

    /** Lowers the flag and resets the counter. */
    method Unlock()
      modifies this
      ensures !locked && timeLocked == 0
    {
      locked := false;
      timeLocked := 0;
    }

    /** Raises the flag and resets the counter. */
    method Lock()
      modifies this
      ensures locked && timeLocked == 0
    {
      locked := true;
      timeLocked := 0;
    }
  }

  /** A waiter that timed out leaves the counter at the timeout, so the next waiter passes at once. */
  method TimedOutLetsThrough(lock: Lock, waitTime: int, maxTimeout: int)
    requires lock.locked && waitTime > 0
    modifies lock
    ensures lock.locked && lock.timeLocked >= maxTimeout
  {
    lock.WaitLock(waitTime, maxTimeout);
    var before := lock.timeLocked;
    lock.WaitLock(waitTime, maxTimeout);
    assert lock.timeLocked == before;
  }
}
