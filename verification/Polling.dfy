/** `pollPayrollCompletion`: bounded polling against a clock. Times are in milliseconds. */
module Polling {
  import opened Prelude

  const DEFAULT_TIMEOUT_MS := 60000.0
  const DEFAULT_INTERVAL_MS := 2000.0

  datatype StatusAnswer<T> = Rejected | Got(value: T)

  datatype PollOutcome<T> =
    | Complete(value: T, elapsedMs: real) | TimedOut | Cancelled | StatusFailed | PredicateFailed | BadOptions

  /**
   * Everything outside the loop: successive clock readings, the answers of `getStatus`, the completion test
   * (which may throw), and what the abort signal says before the k-th call, after a failure in it, and during
   * the sleep that follows it.
   */
  datatype World<!T> = World(
    clock: nat -> real,
    status: nat -> StatusAnswer<T>,
    isComplete: T -> Option<bool>,
    cancelledBefore: nat -> bool,
    cancelledOnError: nat -> bool,
    cancelledInSleep: nat -> bool)
  {
    /** Time since the first reading, at reading `i`. */
    function Elapsed(i: nat): real {
      clock(i) - clock(0)
    }

    /** The sleep requested after the k-th call; the k-th round reads the clock at 3k+1, 3k+2 and 3k+3. */
    function SleepRequest(k: nat, timeoutMs: real, intervalMs: real): real {
      var left := timeoutMs - Elapsed(3 * k + 2);
      var capped := if left > 0.0 then left else 0.0;
      if intervalMs <= capped then intervalMs else capped
    }

    /** The clock never goes back, and a completed sleep lasts at least as long as requested. */
    ghost predicate Fair(timeoutMs: real, intervalMs: real) {
      && (forall i: nat :: clock(i) <= clock(i + 1))
      && (forall k: nat :: clock(3 * k + 2) + SleepRequest(k, timeoutMs, intervalMs) <= clock(3 * k + 3))
    }

    predicate Completes(k: nat) {
      status(k).Got? && isComplete(status(k).value) == Some(true)
    }

    predicate Continues(k: nat) {
      status(k).Got? && isComplete(status(k).value) == Some(false)
    }

    predicate PredicateThrows(k: nat) {
      status(k).Got? && isComplete(status(k).value).None?
    }

    /** Round `k` runs to its end: an open answer, no abort, and time left before and after the sleep. */
    predicate GoesOn(k: nat, timeoutMs: real) {
      && !cancelledBefore(k) && Continues(k) && !cancelledInSleep(k)
      && Elapsed(3 * k + 1) < timeoutMs && Elapsed(3 * k + 3) < timeoutMs
    }

    ghost predicate Reaches(k: nat, timeoutMs: real) {
      forall j :: 0 <= j < k ==> GoesOn(j, timeoutMs)
    }

    /** The k-th call is made: every round before it ran to its end, and the signal is not set. */
    ghost predicate Calls(k: nat, timeoutMs: real) {
      Reaches(k, timeoutMs) && !cancelledBefore(k)
    }
  }

  function Ceiling(x: real): int {
    -((-x).Floor)
  }

  function Sum(xs: seq<real>): real {
    if xs == [] then 0.0 else Sum(xs[..|xs| - 1]) + xs[|xs| - 1]
  }

  lemma {:induction false} SumAppend(xs: seq<real>, x: real)
    ensures Sum(xs + [x]) == Sum(xs) + x
  {
    assert (xs + [x])[..|xs|] == xs;
  }

  /** The length of `n` whole intervals. */
  function Span(n: nat, intervalMs: real): real {
    n as real * intervalMs
  }

  lemma {:induction false} SpanSteps(n: nat, intervalMs: real)
    ensures Span(0, intervalMs) == 0.0 && Span(n + 1, intervalMs) == Span(n, intervalMs) + intervalMs
  {
  }

  /** The bound on the number of calls. */
  function MaxCalls(timeoutMs: real, intervalMs: real): int
    requires intervalMs > 0.0
  {
    Ceiling(timeoutMs / intervalMs)
  }

  /** Fewer than `timeout / interval` whole intervals fit strictly before the timeout. */
  lemma {:induction false} RoundsFit(n: nat, timeoutMs: real, intervalMs: real)
    requires intervalMs > 0.0 && Span(n, intervalMs) < timeoutMs
    ensures n < MaxCalls(timeoutMs, intervalMs)
  {
    var q := timeoutMs / intervalMs;
    assert q * intervalMs == timeoutMs;
    if q <= n as real {
      assert q * intervalMs <= n as real * intervalMs;
    }
  }

  method PollPayrollCompletion<T>(world: World<T>, timeoutOption: Option<real>, intervalOption: Option<real>)
    returns (r: PollOutcome<T>, attempts: nat, sleeps: seq<real>)
    requires world.Fair(if timeoutOption.Some? then timeoutOption.value else 60000.0,
                        if intervalOption.Some? then intervalOption.value else 2000.0)
    ensures var timeoutMs := if timeoutOption.Some? then timeoutOption.value else 60000.0;
            var intervalMs := if intervalOption.Some? then intervalOption.value else 2000.0;
            && (r == BadOptions <==> timeoutMs <= 0.0 || intervalMs <= 0.0)
            && (r == BadOptions ==> attempts == 0 && sleeps == [])
            && (r != BadOptions ==> Bounded(world, timeoutMs, intervalMs, attempts, sleeps))
            && (r != BadOptions ==> Explains(world, timeoutMs, r, attempts))
  {
    var timeoutMs := if timeoutOption.Some? then timeoutOption.value else DEFAULT_TIMEOUT_MS;
    var intervalMs := if intervalOption.Some? then intervalOption.value else DEFAULT_INTERVAL_MS;
    if timeoutMs <= 0.0 || intervalMs <= 0.0 {
      return BadOptions, 0, [];
    }
    r, attempts, sleeps := PollUntil(world, timeoutMs, intervalMs);
  }

  /** At most ceil(timeout / interval) calls, each after the first made before the deadline, and no oversleeping. */
  ghost predicate Bounded<T>(world: World<T>, timeoutMs: real, intervalMs: real, attempts: nat, sleeps: seq<real>)
    requires intervalMs > 0.0
  {
    && attempts <= MaxCalls(timeoutMs, intervalMs)
    && Sum(sleeps) <= timeoutMs
    && (forall k :: 1 <= k < attempts ==> world.Elapsed(3 * k) < timeoutMs)
    && attempts - 1 <= |sleeps| <= attempts
    && Slept(world, timeoutMs, intervalMs, sleeps)
  }

  /** Each sleep is cut short to the time left when it begins. */
  ghost predicate Slept<T>(world: World<T>, timeoutMs: real, intervalMs: real, sleeps: seq<real>) {
    forall k :: 0 <= k < |sleeps| ==> Rests(sleeps[k], timeoutMs - world.Elapsed(3 * k + 2), intervalMs)
  }

  /** A sleep is the interval, cut short where less time is left. */
  predicate Rests(sleep: real, left: real, intervalMs: real) {
    && 0.0 <= sleep <= intervalMs && (left >= 0.0 ==> sleep <= left)
    && (sleep == intervalMs || sleep == left || (sleep == 0.0 && left < 0.0))
  }

  /** Why the loop stops as it does after `attempts` answered calls, in terms of the world only. */
  ghost predicate Explains<T>(world: World<T>, timeoutMs: real, r: PollOutcome<T>, attempts: nat) {
    && (r == Cancelled <==>
          || (world.Reaches(attempts, timeoutMs) && world.cancelledBefore(attempts))
          || (world.Calls(attempts, timeoutMs) && world.status(attempts).Rejected? && world.cancelledOnError(attempts))
          || (attempts >= 1 && world.Calls(attempts - 1, timeoutMs) && world.PredicateThrows(attempts - 1)
              && world.cancelledOnError(attempts - 1))
          || (attempts >= 1 && world.Calls(attempts - 1, timeoutMs) && world.Continues(attempts - 1)
              && world.Elapsed(3 * attempts - 2) < timeoutMs && world.cancelledInSleep(attempts - 1)))
    && (r == StatusFailed <==>
          world.Calls(attempts, timeoutMs) && world.status(attempts).Rejected? && !world.cancelledOnError(attempts))
    && (r == PredicateFailed <==>
          attempts >= 1 && world.Calls(attempts - 1, timeoutMs) && world.PredicateThrows(attempts - 1)
          && !world.cancelledOnError(attempts - 1))
    && (r.Complete? <==> attempts >= 1 && world.Calls(attempts - 1, timeoutMs) && world.Completes(attempts - 1))
    && (r.Complete? ==> world.status(attempts - 1) == Got(r.value) && r.elapsedMs == world.Elapsed(3 * attempts - 2))
    && (r == TimedOut <==>
          && attempts >= 1 && world.Calls(attempts - 1, timeoutMs) && world.Continues(attempts - 1)
          && (world.Elapsed(3 * attempts - 2) >= timeoutMs
              || (!world.cancelledInSleep(attempts - 1) && world.Elapsed(3 * attempts) >= timeoutMs)))
    && r != BadOptions
  }

  /** Round `k` is the last one: what ends it. */
  ghost predicate EndsAt<T>(world: World<T>, timeoutMs: real, k: nat, r: PollOutcome<T>, attempts: nat) {
    if world.cancelledBefore(k) then r == Cancelled && attempts == k
    else if world.status(k).Rejected? then r == (if world.cancelledOnError(k) then Cancelled else StatusFailed) && attempts == k
    else
      && attempts == k + 1
      && if world.PredicateThrows(k) then r == if world.cancelledOnError(k) then Cancelled else PredicateFailed
         else if world.Completes(k) then r == Complete(world.status(k).value, world.Elapsed(3 * k + 1))
         else if world.Elapsed(3 * k + 1) >= timeoutMs then r == TimedOut
         else if world.cancelledInSleep(k) then r == Cancelled
         else r == TimedOut && world.Elapsed(3 * k + 3) >= timeoutMs
  }

  lemma {:induction false} AnswerCases<T>(world: World<T>, k: nat)
    ensures world.status(k).Rejected? || world.PredicateThrows(k) || world.Completes(k) || world.Continues(k)
  {
    if world.status(k).Got? && world.isComplete(world.status(k).value).Some? {
      assert world.isComplete(world.status(k).value).value in {true, false};
    }
  }

  lemma {:induction false} EndExplains<T>(world: World<T>, timeoutMs: real, k: nat, r: PollOutcome<T>, attempts: nat)
    requires world.Reaches(k, timeoutMs) && EndsAt(world, timeoutMs, k, r, attempts)
    ensures Explains(world, timeoutMs, r, attempts)
  {
    AnswerCases(world, k);
    assert k >= 1 ==> world.GoesOn(k - 1, timeoutMs);
    assert !world.GoesOn(k, timeoutMs);
    assert !world.Reaches(k + 1, timeoutMs);
  }

  lemma {:induction false} ExplainedEnd<T>(world: World<T>, timeoutMs: real, r: PollOutcome<T>,
                                           attempts: nat) returns (k: nat)
    requires Explains(world, timeoutMs, r, attempts)
    ensures world.Reaches(k, timeoutMs) && !world.GoesOn(k, timeoutMs) && EndsAt(world, timeoutMs, k, r, attempts)
  {
    k := if world.Reaches(attempts, timeoutMs) then attempts else attempts - 1;
    AnswerCases(world, k);
    assert attempts >= 1 && world.Reaches(attempts, timeoutMs) ==> world.GoesOn(attempts - 1, timeoutMs);
  }

  lemma {:induction false} OneEnd<T>(world: World<T>, timeoutMs: real, k: nat, l: nat)
    requires world.Reaches(k, timeoutMs) && !world.GoesOn(k, timeoutMs)
    requires world.Reaches(l, timeoutMs) && !world.GoesOn(l, timeoutMs)
    ensures k == l
  {
  }

  lemma {:induction false} RequestRests<T>(world: World<T>, timeoutMs: real, intervalMs: real, k: nat)
    requires intervalMs > 0.0
    ensures var left, request := timeoutMs - world.Elapsed(3 * k + 2), world.SleepRequest(k, timeoutMs, intervalMs);
            Rests(request, left, intervalMs) && (request <= left || request == 0.0) && (request == intervalMs || request >= left)
  {
  }

  lemma {:induction false} SleepRests<T>(world: World<T>, timeoutMs: real, intervalMs: real, sleeps: seq<real>)
    requires Slept(world, timeoutMs, intervalMs, sleeps) && intervalMs > 0.0
    ensures var n, request := |sleeps|, world.SleepRequest(|sleeps|, timeoutMs, intervalMs);
            && Sum(sleeps + [request]) == Sum(sleeps) + request && Slept(world, timeoutMs, intervalMs, sleeps + [request])
            && (request <= timeoutMs - world.Elapsed(3 * n + 2) || request == 0.0)
            && (request == intervalMs || request >= timeoutMs - world.Elapsed(3 * n + 2))
  {
    hide Rests, Sum;
    var request := world.SleepRequest(|sleeps|, timeoutMs, intervalMs);
    RequestRests(world, timeoutMs, intervalMs, |sleeps|);
    SumAppend(sleeps, request);
    forall k | 0 <= k < |sleeps| ensures Rests((sleeps + [request])[k], timeoutMs - world.Elapsed(3 * k + 2), intervalMs) {
      assert (sleeps + [request])[k] == sleeps[k];
    }
  }

  lemma {:induction false} CallsInTime<T>(world: World<T>, timeoutMs: real, k: nat)
    requires world.Reaches(k, timeoutMs)
    ensures forall i :: 1 <= i <= k ==> world.Elapsed(3 * i) < timeoutMs
  {
    forall i | 1 <= i <= k ensures world.Elapsed(3 * i) < timeoutMs {
      assert world.GoesOn(i - 1, timeoutMs);
    }
  }

  /** The explanation leaves no choice: a world has one outcome, after one number of calls. */
  lemma {:induction false} OutcomeIsDetermined<T>(world: World<T>, timeoutMs: real, r: PollOutcome<T>, attempts: nat,
                                                  other: PollOutcome<T>, count: nat)
    requires Explains(world, timeoutMs, r, attempts) && Explains(world, timeoutMs, other, count)
    ensures r == other && attempts == count
  {
    var k := ExplainedEnd(world, timeoutMs, r, attempts);
    var l := ExplainedEnd(world, timeoutMs, other, count);
    OneEnd(world, timeoutMs, k, l);
  }

  /** Before round `k`: all rounds ran to their end, each took at least an interval, and the time is not up. */
  ghost predicate OnTime<T>(world: World<T>, timeoutMs: real, intervalMs: real, k: nat, sleeps: seq<real>) {
    && |sleeps| == k && world.Reaches(k, timeoutMs) && Slept(world, timeoutMs, intervalMs, sleeps)
    && Span(k, intervalMs) <= world.Elapsed(3 * k) && Sum(sleeps) <= world.Elapsed(3 * k) < timeoutMs
  }

  lemma {:induction false} StopBounded<T>(world: World<T>, timeoutMs: real, intervalMs: real, k: nat, sleeps: seq<real>)
    requires intervalMs > 0.0 && OnTime(world, timeoutMs, intervalMs, k, sleeps)
    ensures k < MaxCalls(timeoutMs, intervalMs)
    ensures Bounded(world, timeoutMs, intervalMs, k, sleeps) && Bounded(world, timeoutMs, intervalMs, k + 1, sleeps)
  {
    hide Span, MaxCalls, Sum, Slept;
    RoundsFit(k, timeoutMs, intervalMs);
    CallsInTime(world, timeoutMs, k);
  }

  lemma {:induction false} RoundPasses<T>(world: World<T>, timeoutMs: real, intervalMs: real, k: nat, sleeps: seq<real>)
    requires intervalMs > 0.0 && world.Fair(timeoutMs, intervalMs) && OnTime(world, timeoutMs, intervalMs, k, sleeps)
    ensures var longer := sleeps + [world.SleepRequest(k, timeoutMs, intervalMs)];
            && Bounded(world, timeoutMs, intervalMs, k + 1, longer)
            && (world.GoesOn(k, timeoutMs) ==> OnTime(world, timeoutMs, intervalMs, k + 1, longer))
  {
    hide Span, MaxCalls, Sum, Slept, World.SleepRequest;
    RoundsFit(k, timeoutMs, intervalMs);
    CallsInTime(world, timeoutMs, k);
    SleepRests(world, timeoutMs, intervalMs, sleeps);
    SpanSteps(k, intervalMs);
    assert world.clock(3 * k) <= world.clock(3 * k + 1) <= world.clock(3 * k + 2);
  }

  lemma {:induction false} NothingYet<T>(world: World<T>, timeoutMs: real, intervalMs: real)
    requires timeoutMs > 0.0
    ensures OnTime(world, timeoutMs, intervalMs, 0, [])
  {
    SpanSteps(0, intervalMs);
  }

  /** The polling loop, which ends because each further call needs one more whole interval before the deadline. */
  method PollUntil<T>(world: World<T>, timeoutMs: real, intervalMs: real)
    returns (r: PollOutcome<T>, attempts: nat, sleeps: seq<real>)
    requires timeoutMs > 0.0 && intervalMs > 0.0 && world.Fair(timeoutMs, intervalMs)
    ensures Bounded(world, timeoutMs, intervalMs, attempts, sleeps)
    ensures Explains(world, timeoutMs, r, attempts)
  {
    hide Span, MaxCalls, Sum, Explains, Slept, Bounded, OnTime, World.SleepRequest, World.Fair;
    attempts, sleeps := 0, [];
    NothingYet(world, timeoutMs, intervalMs);
    ghost var round := 0;
    while true
      invariant round == attempts
      invariant world.Reaches(round, timeoutMs)
      invariant OnTime(world, timeoutMs, intervalMs, round, sleeps)
      decreases MaxCalls(timeoutMs, intervalMs) - attempts
    {
      StopBounded(world, timeoutMs, intervalMs, round, sleeps);
      RoundPasses(world, timeoutMs, intervalMs, round, sleeps);
      if world.cancelledBefore(attempts) {
        r := Cancelled;
        break;
      }
      var answer := world.status(attempts);
      if answer.Rejected? {
        r := if world.cancelledOnError(attempts) then Cancelled else StatusFailed;
        break;
      }
      attempts := attempts + 1;
      var done := world.isComplete(answer.value);
      if done.None? {
        r := if world.cancelledOnError(attempts - 1) then Cancelled else PredicateFailed;
        break;
      }
      if done.value {
        r := Complete(answer.value, world.Elapsed(3 * attempts - 2));
        break;
      }
      if world.Elapsed(3 * attempts - 2) >= timeoutMs {
        r := TimedOut;
        break;
      }
      sleeps := sleeps + [world.SleepRequest(attempts - 1, timeoutMs, intervalMs)];
      if world.cancelledInSleep(attempts - 1) {
        r := Cancelled;
        break;
      }
      if world.Elapsed(3 * attempts) >= timeoutMs {
        r := TimedOut;
        break;
      }
      round := round + 1;
    }
    EndExplains(world, timeoutMs, round, r, attempts);
  }
}
