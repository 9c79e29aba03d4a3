/** What decides how a call ends, in every run: its own preferences, the sessions admitted before, and the
    backend's answer. */
module LaunchOutcomes {
  import opened Prelude
  import opened BrowserPolicy
  import opened BrowserGuards
  import opened LaunchProtocol

  /** The environment's policy, or else the configured one. */
  function EffectivePolicy(info: CallInfo): Policy {
    match info.prefs.policy
    case Some(policy) => policy
    case None => info.policy
  }

  /** Opted out, told never to open, or left to a detector that found no browser. */
  predicate Unwanted(info: CallInfo) {
    || info.prefs.hardOff
    || EffectivePolicy(info) == Never
    || (EffectivePolicy(info) == Auto && !info.available)
  }

  /** The call is skipped: about to be counted so, or counted. */
  predicate IsSkipped(p: Place) {
    p == Counting(Skipped) || IsCounted(p, Skipped)
  }

  ghost predicate SkipsExact(s: State) {
    forall id :: id in s.calls ==> SkipExact(s.calls[id])
  }

  ghost predicate SkipExact(c: Call) {
    !c.place.Entered? ==> (IsSkipped(c.place) <==> Unwanted(c.info))
  }

  lemma WillOpenWanted(info: CallInfo)
    ensures WillOpen(info.prefs, info.policy, info.available) <==> !Unwanted(info)
  {
  }

  lemma SkipStep(s: State, a: Action, id: nat)
    requires SkipsExact(s) && Enabled(s, a) && id in Step(s, a).calls
    ensures SkipExact(Step(s, a).calls[id])
  {
    if Moved(a) != Some(id) {
      OthersStay(s, a, id);
    } else if id in s.calls {
      assert SkipExact(s.calls[id]);
      WillOpenWanted(s.calls[id].info);
    }
  }

  lemma {:induction false} RunSkips(s: State, actions: seq<Action>, t: State)
    requires SkipsExact(s) && Reaches(s, actions, t)
    ensures SkipsExact(t)
    decreases |actions|
  {
    if actions != [] {
      forall id | id in Step(s, actions[0]).calls ensures SkipExact(Step(s, actions[0]).calls[id]) {
        SkipStep(s, actions[0], id);
      }
      RunSkips(Step(s, actions[0]), actions[1..], t);
    }
  }

  /** In every run a decided call is skipped exactly when it was opted out, its policy is never, or its policy
      is auto and no browser is available. */
  lemma SkippedExactly(max: nat, s: State, id: nat)
    requires Reachable(max, s) && id in s.calls && !s.calls[id].place.Entered?
    ensures IsSkipped(s.calls[id].place) <==> Unwanted(s.calls[id].info)
  {
    var actions :| Reaches(Initial(max), actions, s);
    RunSkips(Initial(max), actions, s);
    assert SkipExact(s.calls[id]);
  }

  /** An unwanted call never holds a slot, never reaches the backend and logs no open. */
  lemma UnwantedNeverOpens(max: nat, s: State, id: nat)
    requires Reachable(max, s) && id in s.calls && Unwanted(s.calls[id].info)
    ensures !HoldsSlot(s.calls[id].place) && !ReachedBackend(s.calls[id].place) && !WasTried(s.calls[id].place)
    ensures forall session :: OpenedFor(id, session) !in s.log
  {
    ReachableInv(max, s);
    assert PlaceOk(s, s.calls[id]);
    if !s.calls[id].place.Entered? {
      SkippedExactly(max, s, id);
    }
  }

  /** Told always to open and not opted out, a call is never skipped. */
  lemma AlwaysNeverSkipped(max: nat, s: State, id: nat)
    requires Reachable(max, s) && id in s.calls
    requires EffectivePolicy(s.calls[id].info) == Always && !s.calls[id].info.prefs.hardOff
    ensures !IsSkipped(s.calls[id].place)
  {
    if !s.calls[id].place.Entered? {
      SkippedExactly(max, s, id);
    }
  }

  /** At the guard a call is deduped exactly when its session was admitted after the last reset of it. */
  lemma DedupedExactly(max: nat, s: State, id: nat)
    requires Reachable(max, s) && id in s.calls && s.calls[id].place.Guarding?
    ensures var session := s.calls[id].info.session;
            Step(s, Advance(id)).calls[id].place
            == if session.Some? && AdmittedSinceReset(s.log, session.value) then Counting(Deduped) else Acquiring
  {
    var session := s.calls[id].info.session;
    if session.Some? {
      ReachableInv(max, s);
      assert SessionExact(s, session.value);
      KnownFromLog(s.log, session.value);
    }
  }

  ghost predicate AdmittedSinceReset(log: seq<Event>, session: string) {
    exists i :: AdmissionAt(log, i, session) && !ResetBetween(log, i, |log|, session)
  }

  predicate AdmissionAt(log: seq<Event>, i: int, session: string) {
    0 <= i < |log| && log[i].Admitted? && log[i].session == session
  }

  lemma {:induction false} KnownFromLog(log: seq<Event>, session: string)
    ensures IsKnown(log, session) <==> AdmittedSinceReset(log, session)
  {
    if log != [] {
      var before, n := log[..|log| - 1], |log| - 1;
      KnownFromLog(before, session);
      if AdmissionAt(log, n, session) {
        assert !ResetBetween(log, n, |log|, session);
      } else if AdmittedSinceReset(before, session) && !ResetAt(log, n, session) {
        var i :| AdmissionAt(before, i, session) && !ResetBetween(before, i, n, session);
        assert AdmissionAt(log, i, session);
        forall k | i < k < |log| ensures !ResetAt(log, k, session) {
          assert k < n ==> !ResetAt(before, k, session);
        }
      } else if AdmittedSinceReset(log, session) {
        var i :| AdmissionAt(log, i, session) && !ResetBetween(log, i, |log|, session);
        assert AdmissionAt(before, i, session);
        assert !ResetAt(log, n, session);
        forall k | i < k < n ensures !ResetAt(before, k, session) {
          assert !ResetAt(log, k, session);
        }
      }
    }
  }

  /** The place of a call whose backend has answered. */
  predicate AnsweredWith(p: Place, ok: bool) {
    var status := if ok then Opened else Failed;
    match p
    case Answered(answer) => answer == ok
    case Reporting(own, _) => own == status
    case Recording(own, _, _) => own == status
    case Releasing(own) => own == status
    case Done(own) => own == status
    case _ => false
  }

  lemma AnswerStep(s: State, a: Action, id: nat, ok: bool)
    requires Enabled(s, a) && id in s.calls && AnsweredWith(s.calls[id].place, ok)
    ensures id in Step(s, a).calls && AnsweredWith(Step(s, a).calls[id].place, ok)
  {
    if Moved(a) != Some(id) {
      OthersStay(s, a, id);
    }
  }

  lemma {:induction false} AnswerStays(s: State, actions: seq<Action>, t: State, id: nat, ok: bool)
    requires Reaches(s, actions, t) && id in s.calls && AnsweredWith(s.calls[id].place, ok)
    ensures id in t.calls && AnsweredWith(t.calls[id].place, ok)
    decreases |actions|
  {
    if actions != [] {
      AnswerStep(s, actions[0], id, ok);
      AnswerStays(Step(s, actions[0]), actions[1..], t, id, ok);
    }
  }

  /** Once the backend has answered, a call that finishes is opened if the answer was yes and failed otherwise,
      whatever happens in between. */
  lemma AnswerDecides(s: State, id: nat, ok: bool, actions: seq<Action>, t: State)
    requires Enabled(s, BackendReturns(id, ok)) && Reaches(Step(s, BackendReturns(id, ok)), actions, t)
    ensures id in t.calls
    ensures Finished(t.calls[id].place) ==> t.calls[id].place == Done(if ok then Opened else Failed)
  {
    AnswerStays(Step(s, BackendReturns(id, ok)), actions, t, id, ok);
  }
}
