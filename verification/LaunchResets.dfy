/**
 When a reset of the session guard is harmless. A reset that finds a covered session's call on its way to
 the backend lets that session open twice with no reset between the opens; no other reset does.
 */
module LaunchResets {
  import opened Prelude
  import opened BrowserGuards
  import opened LaunchProtocol

  /** The call is past the session guard and can still reach the backend: it holds a slot, or waits for one
      that is not lost for good. */
  predicate MayOpen(s: State, c: Call) {
    c.place.Starting? || c.place.Waiting? || (c.place.Acquiring? && |LeakedCalls(s.calls)| < s.slots.max)
  }

  /** No call of a session the reset covers is on its way to the backend. */
  ghost predicate ResetSafe(s: State, target: Option<string>) {
    forall id, session :: id in s.calls && s.calls[id].info.session == Some(session) && Covers(target, session)
                          ==> !MayOpen(s, s.calls[id])
  }

  /** A run whose every reset is safe when it is taken. */
  ghost predicate SafeRun(s: State, actions: seq<Action>, t: State)
    decreases |actions|
  {
    if actions == [] then s == t
    else
      && Enabled(s, actions[0])
      && (actions[0].Reset? ==> ResetSafe(s, actions[0].target))
      && SafeRun(Step(s, actions[0]), actions[1..], t)
  }

  // ---- two opens always meet a reset somewhere ----

  /** Between two opens of one session, or between one of them and its admission, there is a reset. */
  lemma OpensMeetReset(max: nat, s: State, i: nat, j: nat) returns (a: nat, b: nat)
    requires Reachable(max, s) && i < j < |s.log|
    requires s.log[i].OpenedFor? && s.log[j].OpenedFor? && s.log[i].session == s.log[j].session
    ensures a < i && s.log[a] == Admitted(s.log[i].id, s.log[i].session)
    ensures b < j && s.log[b] == Admitted(s.log[j].id, s.log[j].session)
    ensures ResetBetween(s.log, i, j, s.log[i].session) || ResetBetween(s.log, a, i, s.log[i].session)
            || ResetBetween(s.log, b, j, s.log[i].session)
  {
    var session := s.log[i].session;
    a, b := OpensSeparated(max, s, i, j);
    if ResetBetween(s.log, a, b, session) {
      var k :| a < k < b && ResetAt(s.log, k, session);
      assert k != i;
    } else {
      var k :| b < k < a && ResetAt(s.log, k, session);
    }
  }

  // ---- safe resets keep opens apart ----

  /** The call was admitted, and its session was not reset since. */
  function Fresh(log: seq<Event>, id: nat, session: string): bool {
    if log == [] then false
    else
      var e := log[|log| - 1];
      if e == Admitted(id, session) then true
      else if e.Cleared? && Covers(e.target, session) then false
      else Fresh(log[..|log| - 1], id, session)
  }

  /** Every open comes from a call whose session was not reset since its admission. */
  ghost predicate OpensFresh(log: seq<Event>) {
    if log == [] then true
    else
      var before := log[..|log| - 1];
      && OpensFresh(before)
      && match log[|log| - 1] {
           case OpenedFor(id, session) => Fresh(before, id, session)
           case _ => true
         }
  }

  ghost predicate CallFresh(s: State, id: nat, session: string)
    requires id in s.calls
  {
    s.calls[id].info.session == Some(session) && MayOpen(s, s.calls[id]) ==> Fresh(s.log, id, session)
  }

  ghost predicate CallsFresh(s: State) {
    forall id, session :: id in s.calls ==> CallFresh(s, id, session)
  }

  lemma FreshAppend(log: seq<Event>, e: Event, id: nat, session: string)
    ensures Fresh(log + [e], id, session) ==
      if e == Admitted(id, session) then true
      else if e.Cleared? && Covers(e.target, session) then false
      else Fresh(log, id, session)
  {
    assert (log + [e])[..|log|] == log;
  }

  lemma OpensFreshAppend(log: seq<Event>, e: Event)
    requires OpensFresh(log) && (e.OpenedFor? ==> Fresh(log, e.id, e.session))
    ensures OpensFresh(log + [e])
  {
    assert (log + [e])[..|log|] == log;
  }

  predicate BeforeOpen(p: Place) {
    p.Starting? || p.Waiting?
  }

  predicate EntersPast(s: State, a: Action, id: nat)
    requires id in s.calls
  {
    a == Advance(id) && s.calls[id].place.Guarding? && Admit(s.known, s.calls[id].info.session).1
  }

  /** How a call comes to hold a slot, or to wait for one. */
  lemma WayIn(s: State, a: Action, id: nat)
    requires Enabled(s, a) && id in Step(s, a).calls
    requires BeforeOpen(Step(s, a).calls[id].place) || Step(s, a).calls[id].place.Acquiring?
    ensures id in s.calls && Step(s, a).calls[id].info == s.calls[id].info
    ensures BeforeOpen(Step(s, a).calls[id].place) ==>
              BeforeOpen(s.calls[id].place) || (s.calls[id].place.Acquiring? && s.slots.inFlight < s.slots.max)
    ensures Step(s, a).calls[id].place.Acquiring? ==> s.calls[id].place.Acquiring? || EntersPast(s, a, id)
  {
  }

  lemma FewerLeaksBefore(s: State, a: Action)
    requires Inv(s) && Enabled(s, a)
    ensures |LeakedCalls(s.calls)| <= |LeakedCalls(Step(s, a).calls)| && Step(s, a).slots.max == s.slots.max
  {
    LeaksStep(s, a);
    SubsetSize(LeakedCalls(s.calls), LeakedCalls(Step(s, a).calls));
    BoundsStep(s, a);
  }

  /** A call that may open after a step could open before it, or has just been admitted. */
  lemma MayOpenBefore(s: State, a: Action, id: nat)
    requires Inv(s) && Enabled(s, a) && id in Step(s, a).calls && MayOpen(Step(s, a), Step(s, a).calls[id])
    ensures id in s.calls && Step(s, a).calls[id].info == s.calls[id].info
    ensures MayOpen(s, s.calls[id]) || EntersPast(s, a, id)
  {
    WayIn(s, a, id);
    FewerLeaksBefore(s, a);
    LeaksBounded(s);
  }

  lemma CallFreshStep(s: State, a: Action, id: nat, session: string)
    requires Inv(s) && Enabled(s, a) && CallsFresh(s) && (a.Reset? ==> ResetSafe(s, a.target))
    requires id in Step(s, a).calls
    ensures CallFresh(Step(s, a), id, session)
  {
    var t := Step(s, a);
    if t.calls[id].info.session == Some(session) && MayOpen(t, t.calls[id]) {
      MayOpenBefore(s, a, id);
      KnownAfter(s, a);
      if MayOpen(s, s.calls[id]) {
        assert CallFresh(s, id, session);
      }
      if Events(s, a) == [] {
        assert s.log + [] == s.log;
      } else {
        assert Events(s, a) == [Events(s, a)[0]];
        FreshAppend(s.log, Events(s, a)[0], id, session);
      }
    }
  }

  lemma OpensFreshStep(s: State, a: Action)
    requires Inv(s) && Enabled(s, a) && CallsFresh(s) && OpensFresh(s.log)
    ensures OpensFresh(Step(s, a).log)
  {
    KnownAfter(s, a);
    if Events(s, a) == [] {
      assert s.log + [] == s.log;
    } else {
      var e := Events(s, a)[0];
      assert Events(s, a) == [e];
      if e.OpenedFor? {
        assert CallFresh(s, a.id, e.session);
      }
      OpensFreshAppend(s.log, e);
    }
  }

  lemma {:induction false} SafeRunIsFresh(s: State, actions: seq<Action>, t: State)
    requires Inv(s) && CallsFresh(s) && OpensFresh(s.log) && SafeRun(s, actions, t)
    ensures Reaches(s, actions, t) && OpensFresh(t.log)
    decreases |actions|
  {
    if actions != [] {
      var a := actions[0];
      forall id, session | id in Step(s, a).calls ensures CallFresh(Step(s, a), id, session) {
        CallFreshStep(s, a, id, session);
      }
      OpensFreshStep(s, a);
      InvStep(s, a);
      SafeRunIsFresh(Step(s, a), actions[1..], t);
    }
  }

  lemma {:induction false} OpenIsFresh(log: seq<Event>, j: nat)
    requires OpensFresh(log) && j < |log| && log[j].OpenedFor?
    ensures Fresh(log[..j], log[j].id, log[j].session)
  {
    var before := log[..|log| - 1];
    if j < |log| - 1 {
      OpenIsFresh(before, j);
      assert before[..j] == log[..j];
    }
  }

  /** A fresh call's last admission has no reset after it. */
  lemma {:induction false} FreshAdmission(log: seq<Event>, id: nat, session: string) returns (a: nat)
    requires Fresh(log, id, session)
    ensures a < |log| && log[a] == Admitted(id, session) && !ResetBetween(log, a, |log|, session)
  {
    var before, e := log[..|log| - 1], log[|log| - 1];
    if e == Admitted(id, session) {
      a := |log| - 1;
    } else {
      a := FreshAdmission(before, id, session);
      forall k | a < k < |log| ensures !ResetAt(log, k, session) {
        assert k < |before| ==> !ResetAt(before, k, session);
      }
    }
  }

  lemma NoResetInPrefix(log: seq<Event>, a: nat, j: nat, session: string)
    requires a < j <= |log| && !ResetBetween(log[..j], a, j, session)
    ensures !ResetBetween(log, a, j, session)
  {
    forall k | a < k < j ensures !ResetAt(log, k, session) {
      assert !ResetAt(log[..j], k, session);
    }
  }

  /** In a run whose resets are all safe, any two opens of a session have a reset of it between them. */
  lemma SafeResetsSeparateOpens(max: nat, actions: seq<Action>, s: State, i: nat, j: nat)
    requires max >= 1 && SafeRun(Initial(max), actions, s) && i < j < |s.log|
    requires s.log[i].OpenedFor? && s.log[j].OpenedFor? && s.log[i].session == s.log[j].session
    ensures ResetBetween(s.log, i, j, s.log[i].session)
  {
    var session := s.log[i].session;
    InitialInv(max);
    SafeRunIsFresh(Initial(max), actions, s);
    assert Reachable(max, s);
    OpenIsFresh(s.log, i);
    OpenIsFresh(s.log, j);
    var a := FreshAdmission(s.log[..i], s.log[i].id, session);
    var b := FreshAdmission(s.log[..j], s.log[j].id, session);
    NoResetInPrefix(s.log, a, i, session);
    NoResetInPrefix(s.log, b, j, session);
    var _, _ := OpensSeparated(max, s, i, j);
    AdmittedApart(max, s, a, b, i, j);
  }

  /** Of two admissions, each before its own open without a reset between, the resets that separate them lie
      between the opens. */
  lemma AdmittedApart(max: nat, s: State, a: nat, b: nat, i: nat, j: nat)
    requires Reachable(max, s) && a < i < j < |s.log| && b < j
    requires s.log[i].OpenedFor? && s.log[j].OpenedFor? && s.log[i].session == s.log[j].session
    requires s.log[i].id != s.log[j].id
    requires s.log[a] == Admitted(s.log[i].id, s.log[i].session) && s.log[b] == Admitted(s.log[j].id, s.log[i].session)
    requires !ResetBetween(s.log, a, i, s.log[i].session) && !ResetBetween(s.log, b, j, s.log[i].session)
    ensures ResetBetween(s.log, i, j, s.log[i].session)
  {
    var session := s.log[i].session;
    if a < b {
      AdmissionsSeparated(max, s, a, b);
      var k :| a < k < b && ResetAt(s.log, k, session);
      assert k != i;
      assert !(a < k < i);
    } else {
      ResetWiden(s.log, b, a, j, session);
      AdmissionsSeparated(max, s, b, a);
    }
  }

  lemma ResetWiden(log: seq<Event>, i: nat, j: nat, k: nat, session: string)
    requires j <= k
    ensures ResetBetween(log, i, j, session) ==> ResetBetween(log, i, k, session)
  {
    if ResetBetween(log, i, j, session) {
      var m :| i < m < j && ResetAt(log, m, session);
      assert i < m < k;
    }
  }

  lemma InitialInv(max: nat)
    requires max >= 1
    ensures Inv(Initial(max)) && CallsFresh(Initial(max)) && OpensFresh(Initial(max).log)
  {
    ContinuesItself(Initial(max));
    ReachableInv(max, Initial(max));
  }

  // ---- an unsafe reset can be split ----

  /** A state that continues `base` and satisfies the invariant. */
  ghost predicate Follows(base: State, t: State) {
    Inv(t) && Continues(base, t)
  }

  lemma FollowsStep(base: State, t: State, a: Action)
    requires Follows(base, t) && Enabled(t, a)
    ensures Follows(base, Step(t, a))
  {
    InvStep(t, a);
    ContinuesStep(base, t, a);
  }

  /** Only one call has moved, and no session event was logged. */
  ghost predicate OnlyMoved(s: State, t: State, id: nat) {
    && t.log == s.log && t.known == s.known && t.slots.max == s.slots.max
    && t.calls.Keys == s.calls.Keys && (forall k :: k in s.calls && k != id ==> t.calls[k] == s.calls[k])
    && id in s.calls && t.calls[id].info == s.calls[id].info
  }

  lemma SilentStep(s: State, a: Action, id: nat)
    requires Enabled(s, a) && Moved(a) == Some(id) && id in s.calls
    requires a.Advance? ==> !s.calls[id].place.Guarding? && !s.calls[id].place.Waiting?
    ensures OnlyMoved(s, Step(s, a), id)
  {
    assert s.log + [] == s.log;
  }

  /** A step of a call that leads it out of its slot without opening a session. */
  function WayOut(p: Place, id: nat): Action {
    if p.Starting? || p.Waiting? then Raise(id) else if p.Opening? then BackendReturns(id, true) else Advance(id)
  }

  /** A call that holds a slot it has not lost can give it back without touching any session. */
  lemma {:induction false} GiveBack(base: State, t: State, id: nat) returns (u: State)
    requires Follows(base, t) && id in t.calls && HoldsSlot(t.calls[id].place) && !t.calls[id].place.Leaked?
    ensures Follows(base, u) && OnlyMoved(t, u, id) && u.slots.inFlight < t.slots.inFlight
    decreases Rank(t.calls[id])
  {
    var place := t.calls[id].place;
    var a := WayOut(place, id);
    assert PlaceOk(t, t.calls[id]);
    SlotHeld(t, id);
    FollowsStep(base, t, a);
    SilentStep(t, a, id);
    var v := Step(t, a);
    if place.Releasing? || place.Unwinding? {
      u := v;
    } else {
      StillHolds(t, a, id);
      u := GiveBack(base, v, id);
    }
  }

  lemma SlotHeld(s: State, id: nat)
    requires Inv(s) && id in s.calls && HoldsSlot(s.calls[id].place)
    ensures s.slots.inFlight >= 1
  {
    assert Meter(s, Holding) == Count(s.calls, Holding);
    HolderCounted(s, id);
  }

  lemma StillHolds(s: State, a: Action, id: nat)
    requires Enabled(s, a) && id in s.calls && PlaceOk(s, s.calls[id])
    requires HoldsSlot(s.calls[id].place) && !s.calls[id].place.Releasing? && !s.calls[id].place.Unwinding?
    requires a == WayOut(s.calls[id].place, id)
    ensures var t := Step(s, a);
            && id in t.calls && HoldsSlot(t.calls[id].place) && !t.calls[id].place.Leaked?
            && t.slots.inFlight == s.slots.inFlight && Rank(t.calls[id]) < Rank(s.calls[id])
  {
  }

  /** When not every slot is lost, one can be had. */
  lemma FreeSlot(base: State, t: State, id: nat) returns (u: State)
    requires Follows(base, t) && |LeakedCalls(t.calls)| < t.slots.max && id in t.calls && t.calls[id].place.Acquiring?
    ensures Follows(base, u) && u.log == t.log && u.known == t.known && u.slots.max == t.slots.max
    ensures u.slots.inFlight < u.slots.max && id in u.calls && u.calls[id] == t.calls[id]
  {
    LeaksBounded(t);
    u := t;
    if t.slots.inFlight == t.slots.max {
      var k := SomeHolder(t);
      u := GiveBack(base, t, k);
    }
  }

  lemma SomeHolder(s: State) returns (id: nat)
    requires Inv(s) && |LeakedCalls(s.calls)| < s.slots.inFlight
    ensures id in s.calls && HoldsSlot(s.calls[id].place) && !s.calls[id].place.Leaked?
  {
    assert Meter(s, Holding) == Count(s.calls, Holding);
    var holders, leaked := Matching(s.calls, Holding), LeakedCalls(s.calls);
    if holders <= leaked {
      SubsetSize(holders, leaked);
      assert false;
    }
    id :| id in holders && id !in leaked;
  }

  /** A call that may open can be brought to the point of opening without touching any session. */
  lemma BringToOpen(base: State, t: State, id: nat) returns (u: State)
    requires Follows(base, t) && id in t.calls && MayOpen(t, t.calls[id])
    ensures Follows(base, u) && u.log == t.log && u.known == t.known && u.slots.max == t.slots.max
    ensures id in u.calls && u.calls[id] == t.calls[id].(place := Waiting)
  {
    u := t;
    if u.calls[id].place.Acquiring? {
      u := FreeSlot(base, u, id);
      FollowsStep(base, u, Advance(id));
      SilentStep(u, Advance(id), id);
      u := Step(u, Advance(id));
    }
    if u.calls[id].place.Starting? {
      FollowsStep(base, u, Advance(id));
      SilentStep(u, Advance(id), id);
      u := Step(u, Advance(id));
    }
  }

  lemma {:induction false} KeyBound(keys: set<nat>) returns (bound: nat)
    ensures forall k :: k in keys ==> k < bound
  {
    if keys == {} {
      bound := 0;
    } else {
      var x :| x in keys;
      var b := KeyBound(keys - {x});
      bound := Max(b, x + 1);
      assert forall k :: k in keys ==> k == x || k in keys - {x};
    }
  }

  /** The call opens and gives its slot back. */
  lemma OpenAndReturn(base: State, t: State, id: nat, session: string) returns (u: State)
    requires Follows(base, t) && id in t.calls && t.calls[id].place.Waiting? && t.calls[id].info.session == Some(session)
    ensures Follows(base, u) && u.log == t.log + [OpenedFor(id, session)] && u.known == t.known
    ensures u.slots.max == t.slots.max && u.slots.inFlight < u.slots.max
  {
    FollowsStep(base, t, Advance(id));
    var v := OpenStep(base, t, id, session);
    u := GiveBack(base, v, id);
    LeaksBounded(v);
  }

  /** A further call opens the session, which the guard does not know. */
  lemma OpenAgain(base: State, t: State, session: string) returns (u: State, id: nat)
    requires Follows(base, t) && session !in t.known && t.slots.inFlight < t.slots.max
    ensures Continues(base, u) && u.log == t.log + [Admitted(id, session), OpenedFor(id, session)]
  {
    id := KeyBound(t.calls.Keys);
    assert id !in t.calls;
    u := WalkToWait(base, t, id, session);
    u := OpenStep(base, u, id, session);
  }

  /** The run ends with two opens of the session that no reset of it separates. */
  ghost predicate OpensTogether(log: seq<Event>, session: string) {
    exists i, j :: 0 <= i < j < |log| && OpenOf(log[i], session) && OpenOf(log[j], session) && !ResetBetween(log, i, j, session)
  }

  predicate OpenOf(e: Event, session: string) {
    e.OpenedFor? && e.session == session
  }

  lemma TailOpensTogether(log: seq<Event>, x: nat, y: nat, session: string)
    ensures OpensTogether(log + [OpenedFor(x, session)] + [Admitted(y, session), OpenedFor(y, session)], session)
  {
    var all := log + [OpenedFor(x, session)] + [Admitted(y, session), OpenedFor(y, session)];
    var i, j := |log|, |log| + 2;
    assert all[i] == OpenedFor(x, session) && all[i + 1] == Admitted(y, session) && all[j] == OpenedFor(y, session);
    forall k | i < k < j ensures !ResetAt(all, k, session) {
      assert k == i + 1;
    }
    assert !ResetBetween(all, i, j, session);
    assert OpenOf(all[i], session) && OpenOf(all[j], session);
  }

  /** Any reset that is not safe has a continuation in which a session it covers is opened twice with no reset
      between the opens. */
  lemma UnsafeResetSplits(max: nat, s: State, target: Option<string>) returns (t: State, session: string)
    requires Reachable(max, s) && !ResetSafe(s, target)
    ensures Covers(target, session) && Continues(Step(s, Reset(target)), t) && OpensTogether(t.log, session)
  {
    ReachableInv(max, s);
    var id;
    id, session :| id in s.calls && s.calls[id].info.session == Some(session) && Covers(target, session) && MayOpen(s, s.calls[id]);
    var base := Step(s, Reset(target));
    InvStep(s, Reset(target));
    ContinuesItself(base);
    assert base.calls == s.calls && base.slots == s.slots && session !in base.known;
    var u := BringToOpen(base, base, id);
    var v := OpenAndReturn(base, u, id, session);
    var other;
    t, other := OpenAgain(base, v, session);
    TailOpensTogether(u.log, id, other, session);
  }
}
