/**
 The readiness probe: poll until the dashboard answers or the timeout elapses. The clock, the probe
 and the sleep are an environment that says, attempt by attempt, whether the probe succeeds, how long
 it takes, and by how much the sleep after it overshoots.
 */
module Readiness {
  import opened Prelude
  import opened Arithmetic

  datatype Environment = Environment(probeOk: nat -> bool, probeTime: nat -> real, oversleep: nat -> real)

  /** The clock never goes back and a sleep lasts at least as long as asked. */
  ghost predicate Plausible(e: Environment) {
    forall k :: e.probeTime(k) >= 0.0 && e.oversleep(k) >= 0.0
  }

  ghost predicate ExactSleeps(e: Environment) {
    forall k :: e.oversleep(k) == 0.0
  }

  datatype OutcomeKind = Ready | TimedOut | Disabled

  datatype ProbeOutcome = ProbeOutcome(kind: OutcomeKind, attempts: nat, elapsed: real)

  /** How long the loop asks to sleep when the clock reads `now` after a failed probe. */
  function SleepRequest(timeout: real, interval: real, now: real): real {
    Least(interval, if timeout - now >= 0.0 then timeout - now else 0.0)
  }

  /** Seconds since the start when attempt k begins, all earlier attempts having failed. */
  function StartOf(e: Environment, timeout: real, interval: real, k: nat): real
    requires k >= 1
    decreases k, 0
  {
    if k == 1 then 0.0
    else
      var now := EndOf(e, timeout, interval, k - 1);
      now + SleepRequest(timeout, interval, now) + e.oversleep(k - 1)
  }

  /** Seconds since the start when probe k returns. */
  function EndOf(e: Environment, timeout: real, interval: real, k: nat): real
    requires k >= 1
    decreases k, 1
  {
    StartOf(e, timeout, interval, k) + e.probeTime(k)
  }

  /** Attempt k is the last: the probe succeeds or the deadline has passed. */
  predicate Stops(e: Environment, timeout: real, interval: real, k: nat)
    requires k >= 1
  {
    e.probeOk(k) || EndOf(e, timeout, interval, k) >= timeout
  }

  ghost predicate FirstStop(e: Environment, timeout: real, interval: real, k: nat) {
    k >= 1 && Stops(e, timeout, interval, k) && forall j :: 1 <= j < k ==> !Stops(e, timeout, interval, j)
  }

  /** Some attempt, were it reached, would be the last. */
  ghost predicate EventuallyStops(e: Environment, timeout: real, interval: real) {
    exists k: nat :: k >= 1 && Stops(e, timeout, interval, k)
  }

  function AttemptBound(timeout: real, interval: real): int
    requires interval > 0.0
  {
    -((-(timeout / interval)).Floor) + 1
  }

  lemma NextStart(timeout: real, interval: real, now: real, before: real, over: real)
    requires interval > 0.0 && over >= 0.0 && now >= Least(timeout, before)
    ensures now + SleepRequest(timeout, interval, now) + over >= Least(timeout, before + interval)
  {
  }

  /** While nothing has stopped the loop, attempt k starts no earlier than k - 1 intervals in, or after
      the deadline. */
  lemma {:induction false} StartLowerBound(e: Environment, timeout: real, interval: real, k: nat)
    requires Plausible(e) && interval > 0.0 && timeout > 0.0 && k >= 1
    ensures StartOf(e, timeout, interval, k) >= Least(timeout, (k - 1) as real * interval)
  {
    if k > 1 {
      StartLowerBound(e, timeout, interval, k - 1);
      var now := EndOf(e, timeout, interval, k - 1);
      NextStart(timeout, interval, now, (k - 2) as real * interval, e.oversleep(k - 1));
      assert (k - 1) as real * interval == (k - 2) as real * interval + interval;
    }
  }

  // ---- promptness ----

  /** f(1) + ... + f(k). */
  function Total(f: nat -> real, k: nat): real {
    if k == 0 then 0.0 else Total(f, k - 1) + f(k)
  }

  /** The time of k attempts with full intervals between them. */
  function FullTime(e: Environment, interval: real, k: nat): real
    requires k >= 1
  {
    (k - 1) as real * interval + Total(e.probeTime, k) + Total(e.oversleep, k - 1)
  }

  /** What the loop spends: its probes and oversleeps at least, and at most an interval more between attempts. */
  lemma {:induction false} EndWithin(e: Environment, timeout: real, interval: real, k: nat)
    requires Plausible(e) && interval > 0.0 && timeout > 0.0 && k >= 1
    ensures Total(e.probeTime, k) + Total(e.oversleep, k - 1) <= EndOf(e, timeout, interval, k) <= FullTime(e, interval, k)
  {
    if k > 1 {
      EndWithin(e, timeout, interval, k - 1);
      OneMoreInterval(k, interval);
    }
  }

  lemma OneMoreInterval(k: nat, interval: real)
    requires k >= 2
    ensures (k - 1) as real * interval == (k - 2) as real * interval + interval
  {
  }

  ghost predicate InstantProbes(e: Environment) {
    forall k :: e.probeTime(k) == 0.0
  }

  /** With exact sleeps and instant probes attempt k starts k - 1 intervals in, or at the deadline. */
  lemma {:induction false} StartSharp(e: Environment, timeout: real, interval: real, k: nat)
    requires ExactSleeps(e) && InstantProbes(e) && interval > 0.0 && timeout > 0.0 && k >= 1
    ensures EndOf(e, timeout, interval, k) == Least(timeout, (k - 1) as real * interval)
  {
    if k > 1 {
      StartSharp(e, timeout, interval, k - 1);
      OneMoreInterval(k, interval);
    }
  }

  /** The loop takes the time of its probes and oversleeps, and at most an interval more between two attempts;
      but for the deadline, no less than that; and with exact sleeps and instant probes exactly that. */
  ghost predicate Prompt(e: Environment, timeout: real, interval: real, k: nat, elapsed: real)
    requires k >= 1
  {
    && Total(e.probeTime, k) + Total(e.oversleep, k - 1) <= elapsed <= FullTime(e, interval, k)
    && elapsed >= Least(timeout, (k - 1) as real * interval)
    && (ExactSleeps(e) && InstantProbes(e) ==> elapsed == Least(timeout, (k - 1) as real * interval))
  }

  lemma EndPrompt(e: Environment, timeout: real, interval: real, k: nat)
    requires Plausible(e) && interval > 0.0 && timeout > 0.0 && k >= 1
    ensures Prompt(e, timeout, interval, k, EndOf(e, timeout, interval, k))
  {
    StartLowerBound(e, timeout, interval, k);
    EndWithin(e, timeout, interval, k);
    if ExactSleeps(e) && InstantProbes(e) {
      StartSharp(e, timeout, interval, k);
    }
  }

  lemma AttemptsBelow(timeout: real, interval: real, k: nat)
    requires interval > 0.0 && (k - 1) as real * interval < timeout
    ensures k < AttemptBound(timeout, interval)
  {
    DivMul(timeout, interval);
    var q := timeout / interval;
    if q <= (k - 1) as real {
      MulOrder(interval, q, (k - 1) as real);
    }
  }

  lemma BoundPositive(timeout: real, interval: real)
    requires interval > 0.0 && timeout > 0.0
    ensures AttemptBound(timeout, interval) >= 1
  {
    AttemptsBelow(timeout, interval, 1);
  }

  /** An attempt that does not stop leaves room for another within the bound. */
  lemma UnstoppedAttempt(e: Environment, timeout: real, interval: real, k: nat)
    requires Plausible(e) && interval > 0.0 && timeout > 0.0 && k >= 1
    requires !Stops(e, timeout, interval, k)
    ensures k < AttemptBound(timeout, interval)
  {
    StartLowerBound(e, timeout, interval, k);
    assert StartOf(e, timeout, interval, k) < timeout;
    AttemptsBelow(timeout, interval, k);
  }

  /** With exact sleeps no attempt starts after the deadline. */
  lemma StartUpperBound(e: Environment, timeout: real, interval: real, k: nat)
    requires Plausible(e) && ExactSleeps(e) && interval > 0.0 && timeout > 0.0 && k >= 1
    requires forall j :: 1 <= j < k ==> !Stops(e, timeout, interval, j)
    ensures StartOf(e, timeout, interval, k) <= timeout
  {
    if k > 1 {
      assert !Stops(e, timeout, interval, k - 1);
    }
  }

  lemma NoneAnswered(e: Environment, timeout: real, interval: real, k: nat)
    requires FirstStop(e, timeout, interval, k)
    ensures forall j :: 1 <= j < k ==> !e.probeOk(j)
    ensures !e.probeOk(k) ==> EndOf(e, timeout, interval, k) >= timeout
  {
    forall j | 1 <= j < k ensures !e.probeOk(j) {
      assert !Stops(e, timeout, interval, j);
    }
  }

  /** The loop of ReadinessProbe.wait. The sleep of a negative interval is Python's ValueError. */
  method Poll(timeout: real, interval: real, e: Environment) returns (r: Result<ProbeOutcome>)
    requires Plausible(e) && timeout > 0.0 && (interval == 0.0 ==> EventuallyStops(e, timeout, interval))
    ensures interval < 0.0 && !Stops(e, timeout, interval, 1) <==> r.Err?
    ensures r.Ok? ==>
      && FirstStop(e, timeout, interval, r.value.attempts)
      && r.value.elapsed == EndOf(e, timeout, interval, r.value.attempts)
      && r.value.kind == if e.probeOk(r.value.attempts) then Ready else TimedOut
    ensures interval > 0.0 ==> r.Ok? && r.value.attempts <= AttemptBound(timeout, interval)
  {
    var now, attempts := 0.0, 0;
    ghost var bound := 1;
    if interval > 0.0 {
      bound := AttemptBound(timeout, interval);
      BoundPositive(timeout, interval);
    } else if interval == 0.0 {
      var k: nat :| k >= 1 && Stops(e, timeout, interval, k);
      bound := k;
    }
    while true
      invariant now == StartOf(e, timeout, interval, attempts + 1)
      invariant forall j :: 1 <= j <= attempts ==> !Stops(e, timeout, interval, j)
      invariant interval < 0.0 ==> attempts == 0
      invariant attempts + 1 <= bound
      decreases bound - attempts
    {
      attempts := attempts + 1;
      now := now + e.probeTime(attempts);
      ElapsedNonNegative(e, timeout, interval, attempts);
      if e.probeOk(attempts) {
        return Ok(ProbeOutcome(Ready, attempts, now));
      }
      if now >= timeout {
        return Ok(ProbeOutcome(TimedOut, attempts, now));
      }
      var pause := SleepRequest(timeout, interval, now);
      if pause < 0.0 {
        return Err("sleep length must be non-negative");
      }
      if interval > 0.0 {
        UnstoppedAttempt(e, timeout, interval, attempts);
      }
      now := now + pause + e.oversleep(attempts);
    }
  }

  /** ReadinessProbe.wait. With a zero interval the loop spins until something stops it; only a run that
      something stops returns. */
  method Wait(hasUrl: bool, timeout: real, interval: real, e: Environment) returns (r: Result<ProbeOutcome>)
    requires Plausible(e)
    requires hasUrl && timeout > 0.0 && interval == 0.0 ==> EventuallyStops(e, timeout, interval)
    ensures !hasUrl || timeout <= 0.0 ==> r == Ok(ProbeOutcome(Disabled, 0, 0.0))
    ensures hasUrl && timeout > 0.0 && interval < 0.0 && !Stops(e, timeout, interval, 1) <==> r.Err?
    ensures hasUrl && timeout > 0.0 && r.Ok? ==>
      && FirstStop(e, timeout, interval, r.value.attempts)
      && r.value.elapsed == EndOf(e, timeout, interval, r.value.attempts)
      && r.value.kind == if e.probeOk(r.value.attempts) then Ready else TimedOut
    ensures hasUrl && timeout > 0.0 && interval > 0.0 ==> r.Ok? && 1 <= r.value.attempts <= AttemptBound(timeout, interval)
    ensures r.Ok? && r.value.kind == TimedOut ==> r.value.elapsed >= timeout
    ensures r.Ok? ==> forall j :: 1 <= j < r.value.attempts ==> !e.probeOk(j)
    ensures r.Ok? && r.value.attempts >= 1 && interval > 0.0 ==> Prompt(e, timeout, interval, r.value.attempts, r.value.elapsed)
    ensures r.Ok? && r.value.attempts >= 1 && interval > 0.0 && ExactSleeps(e) ==>
      r.value.elapsed <= timeout + e.probeTime(r.value.attempts)
  {
    if !hasUrl || timeout <= 0.0 {
      return Ok(ProbeOutcome(Disabled, 0, 0.0));
    }
    r := Poll(timeout, interval, e);
    if r.Ok? {
      NoneAnswered(e, timeout, interval, r.value.attempts);
    }
    if r.Ok? && interval > 0.0 {
      EndPrompt(e, timeout, interval, r.value.attempts);
      if ExactSleeps(e) {
        StartUpperBound(e, timeout, interval, r.value.attempts);
      }
    }
  }

  /** An attempt ends no earlier than the clock started, so max(0, clock - started) is the elapsed time. */
  lemma {:induction false} ElapsedNonNegative(e: Environment, timeout: real, interval: real, k: nat)
    requires Plausible(e) && timeout > 0.0 && k >= 1 && (interval >= 0.0 || k == 1)
    ensures EndOf(e, timeout, interval, k) >= StartOf(e, timeout, interval, k) >= 0.0
  {
    if k > 1 {
      ElapsedNonNegative(e, timeout, interval, k - 1);
    }
  }

  /** With a zero interval and probes that fail at once no attempt is ever the last. */
  lemma {:induction false} ZeroIntervalSpins(e: Environment, timeout: real, k: nat)
    requires timeout > 0.0 && k >= 1
    requires forall j :: !e.probeOk(j) && e.probeTime(j) == 0.0 && e.oversleep(j) == 0.0
    ensures StartOf(e, timeout, 0.0, k) == 0.0 && !Stops(e, timeout, 0.0, k)
  {
    if k > 1 {
      ZeroIntervalSpins(e, timeout, k - 1);
    }
  }
}
