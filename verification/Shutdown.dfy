/** The graceful shutdown: a wait in 5-second passes, on a trace of what each pass sees. */
module Shutdown {
  const PASS: nat := 5
  const TWO_31: int := 0x8000_0000

  type i32 = x: int | -TWO_31 <= x < TWO_31

  /** What a pass finds after its sleep: the request counter and the seconds since the start. */
  datatype Reading = Reading(requests: nat, seconds: nat)

  /** `as i32` on a number of seconds. */
  function AsI32(n: nat): i32 {
    var m := n % (2 * TWO_31);
    if m < TWO_31 then m else m - 2 * TWO_31
  }

  function Before(first: nat, seen: seq<Reading>, i: nat): nat
    requires i < |seen|
  {
    if i == 0 then first else seen[i - 1].requests
  }

  /** No request came in during pass `i`. */
  predicate Quiet(first: nat, seen: seq<Reading>, i: nat)
    requires i < |seen|
  {
    seen[i].requests == Before(first, seen, i)
  }

  /** Pass `i` is the last: no request came in, or the grace period is over. */
  predicate Ends(first: nat, seen: seq<Reading>, grace: i32, i: nat)
    requires i < |seen|
  {
    Quiet(first, seen, i) || (grace != 0 && AsI32(seen[i].seconds) >= grace)
  }

  /** Each pass sleeps 5 seconds, and the process has been stopping for less than 68 years. */
  predicate Sleeps(seen: seq<Reading>) {
    forall i :: 0 <= i < |seen| ==> PASS * (i + 1) <= seen[i].seconds < TWO_31
  }

  function PassesFor(grace: nat): nat {
    (grace + PASS - 1) / PASS
  }

  /** With a positive grace of g seconds the pass number ceil(g/5) is the last one, whatever the
      request counter does. */
  lemma PositiveGraceIsBounded(first: nat, seen: seq<Reading>, grace: i32)
    requires grace > 0 && Sleeps(seen) && |seen| >= PassesFor(grace)
    ensures 0 < PassesFor(grace) && Ends(first, seen, grace, PassesFor(grace) - 1)
  {
  }

  /** `as i32` leaves alone what is less than 68 years. */
  lemma AsI32IsExact(n: nat)
    ensures AsI32(n) == n <==> n < 0x8000_0000
  {
  }

  /** A wait that never sees a quiet pass ends only when the grace period is over, and at the first
      pass that finds it over. */
  lemma BusyWaitLastsGrace(first: nat, seen: seq<Reading>, grace: i32, i: nat)
    requires grace > 0 && i < |seen| && Sleeps(seen)
    requires seen[i].requests != (if i == 0 then first else seen[i - 1].requests)
    ensures Ends(first, seen, grace, i) <==> seen[i].seconds >= grace
  {
  }

  /** Waits through the readings; `passes` is how many it took, `done` whether the wait is over. */
  method Wait(first: nat, seen: seq<Reading>, grace: i32) returns (passes: nat, done: bool)
    ensures passes <= |seen|
    ensures grace < 0 ==> done && passes == 0
    ensures grace >= 0 && done ==> passes > 0 && Ends(first, seen, grace, passes - 1)
    ensures grace >= 0 ==> forall i :: 0 <= i < (if done then passes - 1 else |seen|) ==> !Ends(first, seen, grace, i)
    ensures !done ==> passes == |seen|
    ensures grace > 0 && Sleeps(seen) && 5 * |seen| >= grace ==> done && 5 * passes < grace + 5
    ensures grace >= 0 && done ==>
      || seen[passes - 1].requests == (if passes == 1 then first else seen[passes - 2].requests)
      || (grace > 0 && AsI32(seen[passes - 1].seconds) >= grace)
    ensures grace == 0 ==>
      (done <==> exists i :: 0 <= i < |seen| && Quiet(first, seen, i))
  {
    if grace > 0 && Sleeps(seen) && 5 * |seen| >= grace {
      PositiveGraceIsBounded(first, seen, grace);
    }
    passes := 0;
    var requests := first;
    if grace < 0 {
      return 0, true;
    }
    while passes < |seen|
      invariant passes <= |seen|
      invariant requests == if passes == 0 then first else seen[passes - 1].requests
      invariant forall i :: 0 <= i < passes ==> !Ends(first, seen, grace, i)
      invariant forall i :: 0 <= i < passes ==> !Quiet(first, seen, i)
    {
      var x := seen[passes].requests;
      var elapsed := AsI32(seen[passes].seconds);
      passes := passes + 1;
      if x == requests {
        assert Quiet(first, seen, passes - 1);
        return passes, true;
      }
      requests := x;
      if grace != 0 && elapsed >= grace {
        return passes, true;
      }
    }
    done := false;
  }
}
