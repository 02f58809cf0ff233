/**
  Waiting for an operation (python/hs2client/ext.pyx): poll, sleep, and double the interval.
  Sleeps are counted in ticks of 50 milliseconds.
*/
module Waiting {
  import opened Rpc

  datatype OperationState = Initialized | Running | Finished | Canceled | Closed | Error | Unknown | Pending

  /** `HasResultSet`: a failed status request counts as not finished. */
  predicate HasResultSet(reply: Reply<OperationState>) {
    Passes(reply) && reply.payload == Finished
  }

  /** `StillPolling`: the call goes on after the last poll that is looked at. */
  datatype Result = Returned(slept: nat) | TimedOut(slept: nat) | StillPolling(slept: nat)

  function Pow2(k: nat): (p: nat)
    ensures p >= 1
  {
    if k == 0 then 1 else 2 * Pow2(k - 1)
  }

  /** The ticks slept after `k` doublings of the interval. */
  function Slept(k: nat): nat {
    2 * Pow2(k) - 1
  }

  /** The number of doublings after which the timeout strikes: the least positive one that sleeps longer. */
  ghost predicate Limit(k: nat, timeout: real) {
    k >= 1 && Slept(k) as real > timeout && forall j :: 1 <= j < k ==> Slept(j) as real <= timeout
  }

  /** The poll that first finds the operation finished. */
  ghost predicate FirstFinished(replies: nat -> Reply<OperationState>, n: nat) {
    HasResultSet(replies(n)) && forall j :: 0 <= j < n ==> !HasResultSet(replies(j))
  }

  /** The ticks slept before poll number `n`. */
  function SleptBefore(n: nat): nat {
    if n == 0 then 0 else Slept(n - 1)
  }

  ghost function LimitOf(timeout: real): (k: nat)
    requires timeout > 0.0
    ensures Limit(k, timeout)
  {
    LimitExists(timeout);
    var k: nat :| Limit(k, timeout);
    k
  }

  ghost predicate NoneFinished(replies: nat -> Reply<OperationState>, n: nat) {
    forall j :: 0 <= j <= n ==> !HasResultSet(replies(j))
  }

  /**
    With a positive timeout, `wait` raises if and only if every poll up to the limit says no, after sleeping
    exactly `Slept(limit)`; without one it never raises, and polls as long as every poll says no.  Otherwise it
    returns at the first poll that says yes.  The polls are looked at up to number `horizon`, which is any number.
  */
  method Wait(replies: nat -> Reply<OperationState>, timeout: real, horizon: nat) returns (r: Result)
    ensures r.TimedOut? <==>
              timeout > 0.0 && LimitOf(timeout) <= horizon && NoneFinished(replies, LimitOf(timeout))
    ensures r.StillPolling? <==>
              NoneFinished(replies, horizon) && (timeout > 0.0 ==> horizon < LimitOf(timeout))
    ensures r.TimedOut? ==> r.slept == Slept(LimitOf(timeout))
    ensures r.TimedOut? ==> r.slept as real > timeout && (r.slept <= 3 || r.slept as real <= 2.0 * timeout + 1.0)
    ensures r.StillPolling? ==> r.slept == Slept(horizon)
    ensures r.Returned? ==> exists n: nat :: n <= horizon && FirstFinished(replies, n) && r.slept == SleptBefore(n)
    ensures forall n: nat :: HasResultSet(replies(n)) <==>
              replies(n).Response? && replies(n).payload == Finished
              && (replies(n).status.code == SUCCESS || replies(n).status.code == SUCCESS_WITH_INFO)
  {
    if timeout > 0.0 { LimitBound(LimitOf(timeout), timeout); }
    if HasResultSet(replies(0)) {
      assert FirstFinished(replies, 0);
      return Returned(0);
    }
    var interval := 1;
    var totalSleep := interval;
    var k := 0;
    while k < horizon && !HasResultSet(replies(k + 1))
      invariant k <= horizon && interval == Pow2(k) && totalSleep == Slept(k)
      invariant timeout > 0.0 ==> k < LimitOf(timeout)
      invariant NoneFinished(replies, k)
    {
      interval := interval * 2;
      totalSleep := totalSleep + interval;
      k := k + 1;
      if timeout > 0.0 && totalSleep as real > timeout {
        return TimedOut(totalSleep);
      }
    }
    if k == horizon { return StillPolling(totalSleep); }
    assert FirstFinished(replies, k + 1);
    return Returned(totalSleep);
  }

  /** The limit exists for every timeout. */
  lemma LimitExists(timeout: real)
    requires timeout > 0.0
    ensures exists k: nat :: Limit(k, timeout)
  {
    var k: nat := 1;
    var bound := timeout.Floor + 1;
    while Slept(k) as real <= timeout
      invariant k >= 1 && forall j :: 1 <= j < k ==> Slept(j) as real <= timeout
      decreases bound - k
    {
      SleptAtLeast(k);
      k := k + 1;
    }
    assert Limit(k, timeout);
  }

  lemma {:induction false} SleptAtLeast(k: nat)
    ensures Slept(k) >= k + 1
  {
    if k > 0 { SleptAtLeast(k - 1); }
  }

  lemma LimitBound(k: nat, timeout: real)
    requires Limit(k, timeout)
    ensures Slept(k) <= 3 || Slept(k) as real <= 2.0 * timeout + 1.0
  {
    if k == 1 {
      assert Pow2(1) == 2 * Pow2(0);
    } else {
      assert Slept(k - 1) as real <= timeout;
      assert Slept(k) == 2 * Slept(k - 1) + 1;
    }
  }
}
