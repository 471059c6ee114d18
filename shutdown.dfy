/**
 * The graceful-shutdown counter of app.js: every `stop:wait` signal
 * announces a pending clean-up, every `stop:done` retires one, and the
 * process exits when a `stop:done` brings the count to zero.
 */
module Shutdown {

  datatype Signal = Wait | Done

  /**
   * For each signal in turn, starting from `count` pending clean-ups:
   * whether handling it exits the process (`!--stopJobs`).
   */
  function Exits(count: int, signals: seq<Signal>): (r: seq<bool>)
    ensures |r| == |signals|
    decreases |signals|
  {
    if signals == [] then []
    else
      var next := if signals[0] == Wait then count + 1 else count - 1;
      [signals[0] == Done && next == 0] + Exits(next, signals[1..])
  }

  /** The count after the signals. */
  function Pending(count: int, signals: seq<Signal>): int
    decreases |signals|
  {
    if signals == [] then count
    else Pending(if signals[0] == Wait then count + 1 else count - 1, signals[1..])
  }

  function Waits(n: nat): (s: seq<Signal>)
    ensures |s| == n && forall i :: 0 <= i < n ==> s[i] == Wait
  {
    seq(n, _ => Wait)
  }

  function Dones(n: nat): (s: seq<Signal>)
    ensures |s| == n && forall i :: 0 <= i < n ==> s[i] == Done
  {
    seq(n, _ => Done)
  }

  function Falses(n: nat): (s: seq<bool>)
    ensures |s| == n && forall i :: 0 <= i < n ==> !s[i]
  {
    seq(n, _ => false)
  }

  /** `k` waits from a non-negative count never exit and raise the count by `k`. */
  lemma {:induction false} WaitsNeverExit(count: int, k: nat, rest: seq<Signal>)
    requires count >= 0
    ensures Exits(count, Waits(k) + rest) == Falses(k) + Exits(count + k, rest)
    ensures Pending(count, Waits(k) + rest) == Pending(count + k, rest)
    decreases k
  {
    if k > 0 {
      var s := Waits(k) + rest;
      assert s[0] == Wait;
      assert s[1..] == Waits(k - 1) + rest;
      WaitsNeverExit(count + 1, k - 1, rest);
      assert [false] + Falses(k - 1) == Falses(k);
    } else {
      assert Waits(0) + rest == rest;
    }
  }

  /** `c` dones from a count of `c > 0` exit exactly at the last one. */
  lemma {:induction false} DonesExitAtLast(c: nat)
    requires c >= 1
    ensures Exits(c, Dones(c)) == Falses(c - 1) + [true]
    ensures Pending(c, Dones(c)) == 0
    decreases c
  {
    var s := Dones(c);
    assert s[0] == Done;
    if c == 1 {
      assert s[1..] == [];
    } else {
      assert s[1..] == Dones(c - 1);
      DonesExitAtLast(c - 1);
      assert [false] + Falses(c - 2) == Falses(c - 1);
    }
  }

  /** After `n` waits and `n` dones the process exits once, at the very last signal, with no job left. */
  lemma {:induction false} WaitsThenDones(n: nat)
    requires n >= 1
    ensures Exits(0, Waits(n) + Dones(n)) == Falses(2 * n - 1) + [true]
    ensures Pending(0, Waits(n) + Dones(n)) == 0
  {
    WaitsNeverExit(0, n, Dones(n));
    DonesExitAtLast(n);
    assert Falses(n) + (Falses(n - 1) + [true]) == Falses(2 * n - 1) + [true];
  }

  /** A `stop:done` with nothing pending drives the count to -1 and does not exit. */
  lemma {:induction false} DoneWithNothingPending()
    ensures Exits(0, [Done]) == [false]
    ensures Pending(0, [Done]) == -1
  {
  }

  /** The module-level `stopJobs` counter and its two handlers. */
  class StopJobs {
    var stopJobs: int

    constructor ()
      ensures stopJobs == 0
    {
      stopJobs := 0;
    }

    /** `stop:wait`: one more pending clean-up. */
    method OnWait()
      modifies this
      ensures stopJobs == Pending(old(stopJobs), [Wait])
    {
      stopJobs := stopJobs + 1;
    }

    /** `stop:done`: one fewer; `exit` is the `process.exit(0)` when none is left. */
    method OnDone() returns (exit: bool)
      modifies this
      ensures stopJobs == Pending(old(stopJobs), [Done])
      ensures [exit] == Exits(old(stopJobs), [Done])
      ensures exit <==> stopJobs == 0
    {
      stopJobs := stopJobs - 1;
      exit := stopJobs == 0;
    }
  }
}
