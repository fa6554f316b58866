/** How long the compilation loop waits after a wake-up, in nanoseconds. */
module Debounce {
  const QUIET := 2_000_000
  const CAP := 100_000_000

  /** `at` ends a quiet period: nothing arrived in the window before it. */
  ghost predicate QuietAt(arrivals: seq<int>, at: int) {
    forall i :: 0 <= i < |arrivals| ==> !(at - QUIET < arrivals[i] <= at)
  }

  ghost predicate Ascending(arrivals: seq<int>) {
    forall i, j :: 0 <= i <= j < |arrivals| ==> arrivals[i] <= arrivals[j]
  }

  /** The wait of one iteration, woken at `woken`, with later notifications at `arrivals`. A
      notification that arrives while the loop is not waiting is a permit, and several are one.

      The compile starts at the first quiet moment, unless one has not come by the cap: then at
      the first arrival after it, less than a quiet period later. Every notification up to the
      start is absorbed and none after it. */
  method WaitUntilQuiet(woken: int, arrivals: seq<int>) returns (start: int, absorbed: nat)
    requires Ascending(arrivals) && forall i :: 0 <= i < |arrivals| ==> woken <= arrivals[i]
    ensures woken + QUIET <= start < woken + CAP + QUIET
    ensures woken + 2_000_000 <= start < woken + 102_000_000
    ensures start < woken + CAP ==> QuietAt(arrivals, start)
    ensures QuietAt(arrivals, start) || start in arrivals
    ensures forall at :: woken + QUIET <= at < start ==> !QuietAt(arrivals, at)
    ensures absorbed <= |arrivals|
    ensures forall i :: 0 <= i < |arrivals| ==> (i < absorbed <==> arrivals[i] <= start)
  {
    var now := woken;
    absorbed := 0;
    while true
      invariant woken <= now < woken + CAP
      invariant absorbed <= |arrivals|
      invariant forall i :: 0 <= i < absorbed ==> arrivals[i] <= now
      invariant now == woken || now in arrivals[..absorbed]
      invariant forall i :: absorbed <= i < |arrivals| ==> now == woken || now < arrivals[i]
      invariant forall at :: woken + QUIET <= at < now + QUIET ==> !QuietAt(arrivals, at)
      decreases |arrivals| - absorbed
    {
      if absorbed == |arrivals| || arrivals[absorbed] > now + QUIET {
        return now + QUIET, absorbed;
      }
      ghost var previous := now;
      if arrivals[absorbed] > now {
        now := arrivals[absorbed];
      }
      ghost var first := absorbed;
      absorbed := TakePermits(arrivals, absorbed, now);
      assert now == arrivals[first] && arrivals[..absorbed][first] == arrivals[first];
      forall at | woken + QUIET <= at < now + QUIET ensures !QuietAt(arrivals, at) {
        var i :| 0 <= i < absorbed && arrivals[i] == now;
        assert at >= previous + QUIET ==> at - QUIET < arrivals[i] <= at;
      }
      if now >= woken + CAP {
        return now, absorbed;
      }
    }
  }

  /** Notifications up to `now` make one permit. */
  method TakePermits(arrivals: seq<int>, from: nat, now: int) returns (next: nat)
    requires Ascending(arrivals) && from <= |arrivals|
    ensures from <= next <= |arrivals|
    ensures forall i :: from <= i < next ==> arrivals[i] <= now
    ensures forall i :: next <= i < |arrivals| ==> now < arrivals[i]
  {
    next := from;
    while next < |arrivals| && arrivals[next] <= now
      invariant from <= next <= |arrivals|
      invariant forall i :: from <= i < next ==> arrivals[i] <= now
    {
      next := next + 1;
    }
  }
}
