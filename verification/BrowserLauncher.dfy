/**
 The launcher's own code over the shared objects. A ghost run of the protocol goes along with each
 method: what the code does when it is not interrupted is a run of the state machine.
 */
module BrowserLaunching {
  import opened Prelude
  import opened BrowserPolicy
  import opened BrowserGuards
  import opened LaunchProtocol
  import opened LaunchOutcomes
  import opened Readiness

  /** What the backend does: an exception of its own is caught, an interrupt is not. */
  datatype Backend = Answers(ok: bool) | Throws | Interrupts

  /** How a launch waits before it opens: for the readiness URL, if there is one, or else a fixed delay. */
  datatype LaunchWait = LaunchWait(hasUrl: bool, timeout: real, interval: real, delay: real)

  /** `waited` is the time between the start of the attempt and the call of the backend. */
  datatype Statistics = Statistics(status: Status, readiness: Option<ProbeOutcome>, waited: real)

  /** The probe's loop ends, as its own contract demands. */
  ghost predicate Waits(w: LaunchWait, e: Environment) {
    Plausible(e) && (w.hasUrl && w.timeout > 0.0 && w.interval == 0.0 ==> EventuallyStops(e, w.timeout, w.interval))
  }

  /** The sleep of a negative interval, after a first failed probe. */
  predicate WaitFails(w: LaunchWait, e: Environment) {
    w.hasUrl && w.timeout > 0.0 && w.interval < 0.0 && !Stops(e, w.timeout, w.interval, 1)
  }

  /** An exception leaves the attempt: from the wait, or an interrupt of the backend. */
  predicate Escapes(w: LaunchWait, e: Environment, backend: Backend) {
    WaitFails(w, e) || backend.Interrupts?
  }

  function EscapedAt(w: LaunchWait, e: Environment): CutAt {
    if WaitFails(w, e) then InWait else InOpen
  }

  /** The backend is called when the dashboard has answered or the timeout has elapsed, whichever comes first;
      without a readiness URL, after the delay. */
  ghost predicate WaitedFor(w: LaunchWait, e: Environment, readiness: Option<ProbeOutcome>, waited: real) {
    && (w.hasUrl <==> readiness.Some?)
    && (!w.hasUrl ==> waited == if w.delay > 0.0 then w.delay + e.oversleep(0) else 0.0)
    && (w.hasUrl && w.timeout <= 0.0 ==> readiness.value.kind == Disabled && waited == 0.0)
    && (w.hasUrl && w.timeout > 0.0 ==>
          var last := readiness.value.attempts;
          && FirstStop(e, w.timeout, w.interval, last) && waited == EndOf(e, w.timeout, w.interval, last)
          && (readiness.value.kind == Ready <==> e.probeOk(last))
          && (!e.probeOk(last) ==> readiness.value.kind == TimedOut && waited >= w.timeout)
          && (forall j :: 1 <= j < last ==> !e.probeOk(j))
          && (w.interval > 0.0 ==> waited <= FullTime(e, w.interval, last)))
  }

  /** Why a call that finds the shared objects in this state does not reach the backend. */
  function Refusal(s: State, info: CallInfo): Option<Status> {
    if Unwanted(info) then Some(Skipped)
    else if info.session.Some? && info.session.value in s.known then Some(Deduped)
    else if s.slots.inFlight >= s.slots.max then Some(Throttled)
    else None
  }

  /** The status of an attempt that was not cut short: opened only if the backend says so. */
  function AttemptStatus(backend: Backend): Status {
    if backend == Answers(true) then Opened else Failed
  }

  /** A run of the protocol under way. */
  datatype Trace = Trace(actions: seq<Action>, state: State)

  ghost function Extend(r: Trace, a: Action): Trace
    requires Enabled(r.state, a)
  {
    Trace(r.actions + [a], Step(r.state, a))
  }

  ghost predicate RunFrom(s: State, r: Trace) {
    Reaches(s, r.actions, r.state)
  }

  lemma ExtendRun(s: State, r: Trace, a: Action)
    requires RunFrom(s, r) && Enabled(r.state, a)
    ensures RunFrom(s, Extend(r, a))
  {
    ReachesStep(s, r.actions, r.state, a);
  }

  class BrowserLauncher {
    const backpressure: BackpressureGuard
    const sessions: SessionGuard
    const metrics: BrowserMetrics

    constructor (backpressure: BackpressureGuard, sessions: SessionGuard, metrics: BrowserMetrics)
      ensures this.backpressure == backpressure && this.sessions == sessions && this.metrics == metrics
    {
      this.backpressure, this.sessions, this.metrics := backpressure, sessions, metrics;
    }

    /** The shared objects hold what the state machine's state says. */
    ghost predicate Shows(s: State)
      reads backpressure, sessions, metrics
    {
      backpressure.Model() == s.slots && sessions.known == s.known && metrics.Model() == s.metrics
    }

    method Finalize(ghost s: State, ghost r: Trace, id: nat) returns (ghost r': Trace)
      requires Shows(r.state) && RunFrom(s, r) && id in r.state.calls && r.state.calls[id].place.Reporting?
      modifies metrics
      ensures Shows(r'.state) && RunFrom(s, r') && id in r'.state.calls
      ensures r'.state.calls[id].info == r.state.calls[id].info
      ensures var p := r.state.calls[id].place;
        r'.state.calls[id].place == if p.holding then Releasing(p.status) else Done(p.status)
    {
      ExtendRun(s, r, Advance(id));
      r' := Extend(r, Advance(id));
      metrics.RecordPeakInFlight(backpressure.peak);
      ExtendRun(s, r', Advance(id));
      r' := Extend(r', Advance(id));
    }

    /** The steps launch() and launch_async() share: decide, session guard, slot. */
    method Decide(ghost s: State, id: nat, info: CallInfo) returns (refused: Option<Status>, ghost r: Trace)
      requires Shows(s) && id !in s.calls
      modifies backpressure, sessions, metrics
      ensures Shows(r.state) && RunFrom(s, r) && id in r.state.calls && r.state.calls[id].info == info
      ensures r.state.calls[id].place == if refused.Some? then Done(refused.value) else Starting
      ensures refused == Refusal(s, info)
      ensures refused == Some(Skipped) <==> Unwanted(info)
    {
      r := Trace([], s);
      ExtendRun(s, r, Arrive(id, info));
      r := Extend(r, Arrive(id, info));
      ExtendRun(s, r, Advance(id));
      r := Extend(r, Advance(id));
      WillOpenWanted(info);
      if !WillOpen(info.prefs, info.policy, info.available) {
        r := Refuse(s, r, id, Skipped);
        return Some(Skipped), r;
      }
      ExtendRun(s, r, Advance(id));
      r := Extend(r, Advance(id));
      var first := sessions.ShouldOpen(info.session);
      if !first {
        r := Refuse(s, r, id, Deduped);
        return Some(Deduped), r;
      }
      ExtendRun(s, r, Advance(id));
      r := Extend(r, Advance(id));
      var granted := backpressure.Acquire();
      if !granted {
        r := Refuse(s, r, id, Throttled);
        return Some(Throttled), r;
      }
      return None, r;
    }

    method Refuse(ghost s: State, ghost r: Trace, id: nat, status: Status) returns (ghost r': Trace)
      requires Shows(r.state) && RunFrom(s, r) && id in r.state.calls && r.state.calls[id].place == Counting(status)
      modifies metrics
      ensures Shows(r'.state) && RunFrom(s, r') && id in r'.state.calls
      ensures r'.state.calls[id].info == r.state.calls[id].info && r'.state.calls[id].place == Done(status)
    {
      metrics.RecordStatus(status);
      ExtendRun(s, r, Advance(id));
      r' := Extend(r, Advance(id));
      r' := Finalize(s, r', id);
    }

    /** The wait before the open: None stands for an exception on its way out, and the time waited is the
        second result. */
    method Await(w: LaunchWait, e: Environment) returns (readiness: Result<Option<ProbeOutcome>>, waited: real)
      requires Waits(w, e)
      ensures readiness.Err? <==> WaitFails(w, e)
      ensures readiness.Ok? ==> WaitedFor(w, e, readiness.value, waited)
    {
      if w.hasUrl {
        var outcome := Wait(true, w.timeout, w.interval, e);
        if outcome.Err? {
          return Err(outcome.error), 0.0;
        }
        return Ok(Some(outcome.value)), outcome.value.elapsed;
      }
      if w.delay > 0.0 {
        return Ok(None), w.delay + e.oversleep(0);
      }
      return Ok(None), 0.0;
    }

    /** The call of the backend and the record of its result. */
    method OpenBackend(ghost s: State, ghost r: Trace, id: nat, backend: Backend) returns (status: Option<Status>, ghost r': Trace)
      requires Shows(r.state) && RunFrom(s, r) && id in r.state.calls && r.state.calls[id].place == Waiting
      modifies metrics
      ensures Shows(r'.state) && RunFrom(s, r') && id in r'.state.calls
      ensures r'.state.calls[id].info == r.state.calls[id].info
      ensures status == if backend.Interrupts? then None else Some(AttemptStatus(backend))
      ensures r'.state.calls[id].place ==
        if backend.Interrupts? then Unwinding(InOpen)
        else if r.state.calls[id].info.background then Reporting(AttemptStatus(backend), true)
        else Releasing(AttemptStatus(backend))
    {
      ExtendRun(s, r, Advance(id));
      r' := Extend(r, Advance(id));
      if backend.Interrupts? {
        ExtendRun(s, r', Raise(id));
        r' := Extend(r', Raise(id));
        return None, r';
      }
      var ok := backend.Answers? && backend.ok;
      ExtendRun(s, r', BackendReturns(id, ok));
      r' := Extend(r', BackendReturns(id, ok));
      metrics.RecordStatus(StatusOf(ok));
      ExtendRun(s, r', Advance(id));
      r' := Extend(r', Advance(id));
      return Some(StatusOf(ok)), r';
    }

    /** _wait_then_open: None stands for an exception on its way out. A timeout of the wait does not keep the
        backend from being called. */
    method WaitThenOpen(ghost s: State, ghost r: Trace, id: nat, w: LaunchWait, e: Environment, backend: Backend)
      returns (stats: Option<Statistics>, ghost r': Trace)
      requires Shows(r.state) && RunFrom(s, r) && id in r.state.calls && r.state.calls[id].place == Starting
      requires Waits(w, e)
      modifies metrics
      ensures Shows(r'.state) && RunFrom(s, r') && id in r'.state.calls
      ensures r'.state.calls[id].info == r.state.calls[id].info
      ensures stats.None? <==> Escapes(w, e, backend)
      ensures stats.Some? ==> stats.value.status == AttemptStatus(backend)
                              && WaitedFor(w, e, stats.value.readiness, stats.value.waited)
      ensures r'.state.calls[id].place ==
        if Escapes(w, e, backend) then Unwinding(EscapedAt(w, e))
        else if r.state.calls[id].info.background then Reporting(AttemptStatus(backend), true)
        else Releasing(AttemptStatus(backend))
    {
      metrics.RecordAttempt();
      ExtendRun(s, r, Advance(id));
      r' := Extend(r, Advance(id));
      var readiness, waited := Await(w, e);
      if readiness.Err? {
        ExtendRun(s, r', Raise(id));
        r' := Extend(r', Raise(id));
        return None, r';
      }
      var status;
      status, r' := OpenBackend(s, r', id, backend);
      if status.None? {
        return None, r';
      }
      return Some(Statistics(status.value, readiness.value, waited)), r';
    }

    /** The finally. */
    method GiveBack(ghost s: State, ghost r: Trace, id: nat) returns (ghost r': Trace)
      requires Shows(r.state) && RunFrom(s, r) && id in r.state.calls
      requires r.state.calls[id].place.Releasing? || r.state.calls[id].place.Unwinding?
      modifies backpressure
      ensures Shows(r'.state) && RunFrom(s, r') && id in r'.state.calls
      ensures r'.state.calls[id].info == r.state.calls[id].info
      ensures var p := r.state.calls[id].place;
        r'.state.calls[id].place ==
          if p.Unwinding? then Aborted(p.at)
          else if r.state.calls[id].info.background then Done(p.status) else Reporting(p.status, false)
    {
      backpressure.Release();
      ExtendRun(s, r, Advance(id));
      r' := Extend(r, Advance(id));
    }

    /** launch(): the slot is released in the finally, before the outcome is reported. */
    method Launch(ghost s: State, id: nat, info: CallInfo, w: LaunchWait, e: Environment, backend: Backend)
      returns (stats: Option<Statistics>, ghost r: Trace)
      requires Shows(s) && id !in s.calls && !info.background && Waits(w, e)
      modifies backpressure, sessions, metrics
      ensures Shows(r.state) && RunFrom(s, r) && id in r.state.calls
      ensures r.state.calls[id].place == if stats.Some? then Done(stats.value.status) else Aborted(EscapedAt(w, e))
      ensures stats.None? <==> Refusal(s, info).None? && Escapes(w, e, backend)
      ensures stats.Some? && stats.value.status == Skipped <==> Unwanted(info)
      ensures Refusal(s, info).Some? ==> stats == Some(Statistics(Refusal(s, info).value, None, 0.0))
      ensures Refusal(s, info).None? && stats.Some? ==>
                && stats.value.status == AttemptStatus(backend)
                && WaitedFor(w, e, stats.value.readiness, stats.value.waited)
    {
      var refused;
      refused, r := Decide(s, id, info);
      if refused.Some? {
        return Some(Statistics(refused.value, None, 0.0)), r;
      }
      stats, r := WaitThenOpen(s, r, id, w, e, backend);
      r := GiveBack(s, r, id);
      if stats.Some? {
        r := Finalize(s, r, id);
      }
    }

    /** launch_async() up to its return: the provisional outcome says opened while the worker is still to run. */
    method LaunchAsync(ghost s: State, id: nat, info: CallInfo) returns (status: Status, scheduled: bool, ghost r: Trace)
      requires Shows(s) && id !in s.calls && info.background
      modifies backpressure, sessions, metrics
      ensures Shows(r.state) && RunFrom(s, r) && id in r.state.calls && r.state.calls[id].info == info
      ensures r.state.calls[id].place == if scheduled then Starting else Done(status)
      ensures scheduled <==> Refusal(s, info).None?
      ensures status == Skipped <==> Unwanted(info)
      ensures status == if scheduled then Opened else Refusal(s, info).value
    {
      var refused;
      refused, r := Decide(s, id, info);
      if refused.Some? {
        return refused.value, false, r;
      }
      return Opened, true, r;
    }

    /** The worker thread: the outcome is reported inside the try, the slot released in the finally. */
    method Worker(ghost s: State, ghost r: Trace, id: nat, w: LaunchWait, e: Environment, backend: Backend)
      returns (stats: Option<Statistics>, ghost r': Trace)
      requires Shows(r.state) && RunFrom(s, r) && id in r.state.calls && Waits(w, e)
      requires r.state.calls[id].place == Starting && r.state.calls[id].info.background
      modifies backpressure, metrics
      ensures Shows(r'.state) && RunFrom(s, r') && id in r'.state.calls
      ensures r'.state.calls[id].place == if stats.Some? then Done(stats.value.status) else Aborted(EscapedAt(w, e))
      ensures stats.None? <==> Escapes(w, e, backend)
      ensures stats.Some? ==> stats.value.status == AttemptStatus(backend)
                              && WaitedFor(w, e, stats.value.readiness, stats.value.waited)
    {
      stats, r' := WaitThenOpen(s, r, id, w, e, backend);
      if stats.Some? {
        r' := Finalize(s, r', id);
      }
      r' := GiveBack(s, r', id);
    }
  }
}
