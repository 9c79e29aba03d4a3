/** The launch policy: the tri-state preference against what the detector found. */
module BrowserPolicy {
  import opened Prelude
  import opened PythonText

  datatype Policy = Auto | Always | Never

  datatype Preferences = Preferences(policy: Option<Policy>, hardOff: bool)

  /** resolve_policy on a string; an unknown name is the source's ValueError. */
  function ResolvePolicy(raw: string): Result<Policy> {
    if Lower(raw) == "auto" then Ok(Auto)
    else if Lower(raw) == "always" then Ok(Always)
    else if Lower(raw) == "never" then Ok(Never)
    else Err("invalid browser policy")
  }

  /** Policy names are read without regard to case. */
  lemma CaseIgnored(raw: string)
    ensures ResolvePolicy(Lower(raw)) == ResolvePolicy(raw)
  {
    assert Lower(Lower(raw)) == Lower(raw);
  }

  /** The value of the enumeration member. */
  function PolicyName(policy: Policy): string {
    match policy
    case Auto => "auto"
    case Always => "always"
    case Never => "never"
  }

  /** A text is read as a policy exactly when it is the policy's name up to case. */
  lemma NamesExactly(raw: string, policy: Policy)
    ensures ResolvePolicy(raw) == Ok(policy) <==> Lower(raw) == PolicyName(policy)
  {
    assert PolicyName(Auto)[1] == 'u' && PolicyName(Always)[1] == 'l' && PolicyName(Never)[1] == 'e';
  }

  function Decide(policy: Policy, available: bool): bool {
    match policy
    case Always => true
    case Never => false
    case Auto => available
  }

  /** The verdict the launcher acts on: the opt-out first, then the environment's policy over the
      configured one. */
  function WillOpen(prefs: Preferences, configured: Policy, available: bool): bool {
    !prefs.hardOff && Decide(if prefs.policy.Some? then prefs.policy.value else configured, available)
  }
}

/** The shared objects of the launcher, each next to the value its methods compute on. */
module BrowserGuards {
  import opened Prelude

  datatype Slots = Slots(max: nat, inFlight: nat, peak: nat, denied: nat)

  function AcquireSlot(g: Slots): (Slots, bool) {
    if g.inFlight >= g.max then (g.(denied := g.denied + 1), false)
    else (g.(inFlight := g.inFlight + 1, peak := Max(g.peak, g.inFlight + 1)), true)
  }

  function ReleaseSlot(g: Slots): Slots {
    if g.inFlight > 0 then g.(inFlight := g.inFlight - 1) else g
  }

  class BackpressureGuard {
    const maxConcurrent: nat
    var inFlight: nat
    var peak: nat
    var denied: nat

    ghost function Model(): Slots
      reads this
    {
      Slots(maxConcurrent, inFlight, peak, denied)
    }

    constructor (max: nat)
      requires max >= 1
      ensures Model() == Slots(max, 0, 0, 0)
    {
      maxConcurrent := max;
      inFlight, peak, denied := 0, 0, 0;
    }

    /** A cap below one is the source's ValueError. */
    static method Create(max: int) returns (guard: Result<BackpressureGuard>)
      ensures guard.Ok? <==> max >= 1
      ensures guard.Ok? ==> fresh(guard.value) && guard.value.Model() == Slots(max, 0, 0, 0)
    {
      if max < 1 {
        return Err("max_concurrent must be at least 1");
      }
      var g := new BackpressureGuard(max);
      return Ok(g);
    }

    method Acquire() returns (granted: bool)
      modifies this
      ensures (Model(), granted) == AcquireSlot(old(Model()))
    {
      if inFlight >= maxConcurrent {
        denied := denied + 1;
        return false;
      }
      inFlight := inFlight + 1;
      if inFlight > peak {
        peak := inFlight;
      }
      return true;
    }

    method Release()
      modifies this
      ensures Model() == ReleaseSlot(old(Model()))
    {
      if inFlight > 0 {
        inFlight := inFlight - 1;
      }
    }
  }

  function Admit(known: set<string>, session: Option<string>): (set<string>, bool) {
    match session
    case None => (known, true)
    case Some(id) => (known + {id}, id !in known)
  }

  function Forget(known: set<string>, target: Option<string>): set<string> {
    match target
    case None => {}
    case Some(id) => known - {id}
  }

  class SessionGuard {
    var known: set<string>

    constructor ()
      ensures known == {}
    {
      known := {};
    }

    method ShouldOpen(session: Option<string>) returns (first: bool)
      modifies this
      ensures (known, first) == Admit(old(known), session)
    {
      if session.None? {
        return true;
      }
      if session.value in known {
        assert known + {session.value} == known;
        return false;
      }
      known := known + {session.value};
      return true;
    }

    method Reset(target: Option<string>)
      modifies this
      ensures known == Forget(old(known), target)
    {
      if target.None? {
        known := {};
      } else {
        known := known - {target.value};
      }
    }
  }

  datatype Status = Opened | Skipped | Failed | Throttled | Deduped

  datatype Counters = Counters(
    attempted: nat, openedCount: nat, skippedCount: nat, failedCount: nat, throttledCount: nat, dedupedCount: nat,
    peak: nat)

  function CountOf(m: Counters, status: Status): nat {
    match status
    case Opened => m.openedCount
    case Skipped => m.skippedCount
    case Failed => m.failedCount
    case Throttled => m.throttledCount
    case Deduped => m.dedupedCount
  }

  function Record(m: Counters, status: Status): (r: Counters)
    ensures CountOf(r, status) == CountOf(m, status) + 1
    ensures forall other :: other != status ==> CountOf(r, other) == CountOf(m, other)
    ensures r.attempted == m.attempted && r.peak == m.peak
  {
    match status
    case Opened => m.(openedCount := m.openedCount + 1)
    case Skipped => m.(skippedCount := m.skippedCount + 1)
    case Failed => m.(failedCount := m.failedCount + 1)
    case Throttled => m.(throttledCount := m.throttledCount + 1)
    case Deduped => m.(dedupedCount := m.dedupedCount + 1)
  }

  class BrowserMetrics {
    var attempted: nat
    var openedCount: nat
    var skippedCount: nat
    var failedCount: nat
    var throttledCount: nat
    var dedupedCount: nat
    var peakInFlight: nat

    ghost function Model(): Counters
      reads this
    {
      Counters(attempted, openedCount, skippedCount, failedCount, throttledCount, dedupedCount, peakInFlight)
    }

    constructor ()
      ensures Model() == Counters(0, 0, 0, 0, 0, 0, 0)
    {
      attempted, openedCount, skippedCount, failedCount := 0, 0, 0, 0;
      throttledCount, dedupedCount, peakInFlight := 0, 0, 0;
    }

    method RecordAttempt()
      modifies this
      ensures Model() == old(Model()).(attempted := old(attempted) + 1)
    {
      attempted := attempted + 1;
    }

    /** record_opened, record_skipped, record_failed, record_throttled and record_deduped. */
    method RecordStatus(status: Status)
      modifies this
      ensures Model() == Record(old(Model()), status)
    {
      match status
      case Opened => openedCount := openedCount + 1;
      case Skipped => skippedCount := skippedCount + 1;
      case Failed => failedCount := failedCount + 1;
      case Throttled => throttledCount := throttledCount + 1;
      case Deduped => dedupedCount := dedupedCount + 1;
    }

    method RecordPeakInFlight(value: nat)
      modifies this
      ensures Model() == old(Model()).(peak := Max(old(peakInFlight), value))
    {
      if value > peakInFlight {
        peakInFlight := value;
      }
    }
  }
}
