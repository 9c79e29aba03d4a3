/**
 The browser-launch protocol as an interleaved state machine. Any number of calls of launch() and
 launch_async() run at once; each step is one access to a shared object (a guard method under its lock,
 one record_ call on the metrics, one backend.open).
 */
module LaunchProtocol {
  import opened Prelude
  import opened BrowserPolicy
  import opened BrowserGuards

  datatype CallInfo = CallInfo(
    background: bool, session: Option<string>, policy: Policy, prefs: Preferences, available: bool)

  /** How far a call was when an exception cut it short. */
  datatype CutAt = BeforeAttempt | InWait | InOpen

  /** Where a call is; each place is named after what happens next or has just happened. */
  datatype Place =
    | Entered
    | Counting(status: Status)                 // the record_ call of a call that will not open
    | Guarding                                 // session guard next
    | Acquiring                                // slot next
    | Starting                                 // slot held; record_attempt next
    | Waiting                                  // attempt recorded; in the readiness probe or the delay
    | Opening                                  // in backend.open
    | Answered(ok: bool)                       // backend.open returned
    | Reporting(status: Status, holding: bool) // _finalize reads the guard's peak next
    | Recording(status: Status, holding: bool, seen: nat)
    | Releasing(status: Status)                // slot released next
    | Unwinding(at: CutAt)                     // an exception reached the finally
    | Done(status: Status)
    | Aborted(at: CutAt)
    | Leaked                                   // Thread.start raised after the slot was taken

  datatype Call = Call(info: CallInfo, place: Place)

  /** What happens to sessions, in order; an open is the call of backend.open. */
  datatype Event = Admitted(id: nat, session: string) | OpenedFor(id: nat, session: string) | Cleared(target: Option<string>)

  datatype State = State(slots: Slots, known: set<string>, metrics: Counters, calls: map<nat, Call>, log: seq<Event>)

  datatype Action =
    | Arrive(id: nat, info: CallInfo)
    | Advance(id: nat)
    | BackendReturns(id: nat, ok: bool)
    | Raise(id: nat)
    | StartFails(id: nat)
    | Reset(target: Option<string>)

  function Initial(max: nat): State {
    State(Slots(max, 0, 0, 0), {}, Counters(0, 0, 0, 0, 0, 0, 0), map[], [])
  }

  predicate Finished(p: Place) {
    p.Done? || p.Aborted? || p.Leaked?
  }

  predicate Enabled(s: State, a: Action) {
    match a
    case Arrive(id, _) => id !in s.calls
    case Advance(id) => id in s.calls && !Finished(s.calls[id].place) && !s.calls[id].place.Opening?
    case BackendReturns(id, _) => id in s.calls && s.calls[id].place.Opening?
    case Raise(id) =>
      id in s.calls && (s.calls[id].place.Starting? || s.calls[id].place.Waiting? || s.calls[id].place.Opening?)
    case StartFails(id) => id in s.calls && s.calls[id].place.Starting? && s.calls[id].info.background
    case Reset(_) => true
  }

  function MoveTo(s: State, id: nat, place: Place): State
    requires id in s.calls
  {
    s.(calls := s.calls[id := s.calls[id].(place := place)])
  }

  function StatusOf(ok: bool): Status {
    if ok then Opened else Failed
  }

  /** The next step of a call, for every place but the backend's. */
  function AdvanceCall(s: State, id: nat): State
    requires id in s.calls && !Finished(s.calls[id].place) && !s.calls[id].place.Opening?
  {
    var info := s.calls[id].info;
    match s.calls[id].place
    case Entered =>
      MoveTo(s, id, if WillOpen(info.prefs, info.policy, info.available) then Guarding else Counting(Skipped))
    case Counting(status) =>
      MoveTo(s, id, Reporting(status, false)).(metrics := Record(s.metrics, status))
    case Guarding =>
      var (known, first) := Admit(s.known, info.session);
      MoveTo(s, id, if first then Acquiring else Counting(Deduped))
        .(known := known)
    case Acquiring =>
      var (slots, granted) := AcquireSlot(s.slots);
      MoveTo(s, id, if granted then Starting else Counting(Throttled)).(slots := slots)
    case Starting =>
      MoveTo(s, id, Waiting).(metrics := s.metrics.(attempted := s.metrics.attempted + 1))
    case Waiting => MoveTo(s, id, Opening)
    case Answered(ok) =>
      MoveTo(s, id, if info.background then Reporting(StatusOf(ok), true) else Releasing(StatusOf(ok)))
        .(metrics := Record(s.metrics, StatusOf(ok)))
    case Reporting(status, holding) =>
      MoveTo(s, id, Recording(status, holding, s.slots.peak))
    case Recording(status, holding, seen) =>
      MoveTo(s, id, if holding then Releasing(status) else Done(status))
        .(metrics := s.metrics.(peak := Max(s.metrics.peak, seen)))
    case Releasing(status) =>
      MoveTo(s, id, if info.background then Done(status) else Reporting(status, false)).(slots := ReleaseSlot(s.slots))
    case Unwinding(at) =>
      MoveTo(s, id, Aborted(at)).(slots := ReleaseSlot(s.slots))
  }

  /** The session event an action logs, if any. */
  function Events(s: State, a: Action): (r: seq<Event>)
    requires Enabled(s, a)
    ensures |r| <= 1
  {
    match a
    case Advance(id) =>
      var session := s.calls[id].info.session;
      if s.calls[id].place.Guarding? && session.Some? && session.value !in s.known then [Admitted(id, session.value)]
      else if s.calls[id].place.Waiting? && session.Some? then [OpenedFor(id, session.value)]
      else []
    case Reset(target) => [Cleared(target)]
    case _ => []
  }

  function Act(s: State, a: Action): State
    requires Enabled(s, a)
  {
    match a
    case Arrive(id, info) => s.(calls := s.calls[id := Call(info, Entered)])
    case Advance(id) => AdvanceCall(s, id)
    case BackendReturns(id, ok) => MoveTo(s, id, Answered(ok))
    case Raise(id) =>
      var place := s.calls[id].place;
      MoveTo(s, id, Unwinding(if place.Starting? then BeforeAttempt else if place.Waiting? then InWait else InOpen))
    case StartFails(id) => MoveTo(s, id, Leaked)
    case Reset(target) => s.(known := Forget(s.known, target))
  }

  function Step(s: State, a: Action): State
    requires Enabled(s, a)
  {
    Act(s, a).(log := s.log + Events(s, a))
  }

  /** t is reached from s by these actions, each enabled when taken. */
  ghost predicate Reaches(s: State, actions: seq<Action>, t: State)
    decreases |actions|
  {
    if actions == [] then s == t
    else Enabled(s, actions[0]) && Reaches(Step(s, actions[0]), actions[1..], t)
  }

  ghost predicate Continues(s: State, t: State) {
    exists actions :: Reaches(s, actions, t)
  }

  ghost predicate Reachable(max: nat, t: State) {
    max >= 1 && Continues(Initial(max), t)
  }

  // ---- what the shared counters must equal ----

  /** One kind of call to count. */
  datatype Tally = Holding | Tried | Counted(status: Status) | Refused | AdmittedAs(session: string) | OpenedAs(session: string)

  predicate HoldsSlot(p: Place) {
    match p
    case Starting => true
    case Waiting => true
    case Opening => true
    case Answered(_) => true
    case Reporting(_, holding) => holding
    case Recording(_, holding, _) => holding
    case Releasing(_) => true
    case Unwinding(_) => true
    case Leaked => true
    case _ => false
  }

  predicate WasTried(p: Place) {
    match p
    case Waiting => true
    case Opening => true
    case Answered(_) => true
    case Reporting(status, _) => status.Opened? || status.Failed?
    case Recording(status, _, _) => status.Opened? || status.Failed?
    case Releasing(_) => true
    case Unwinding(at) => at != BeforeAttempt
    case Done(status) => status.Opened? || status.Failed?
    case Aborted(at) => at != BeforeAttempt
    case _ => false
  }

  predicate IsCounted(p: Place, status: Status) {
    match p
    case Reporting(s, _) => s == status
    case Recording(s, _, _) => s == status
    case Releasing(s) => s == status
    case Done(s) => s == status
    case _ => false
  }

  predicate Matches(t: Tally, c: Call) {
    match t
    case Holding => HoldsSlot(c.place)
    case Tried => WasTried(c.place)
    case Counted(status) => IsCounted(c.place, status)
    case Refused => c.place == Counting(Throttled) || IsCounted(c.place, Throttled)
    case AdmittedAs(session) =>
      c.info.session == Some(session) && PassedGuard(c.place)
    case OpenedAs(session) =>
      c.info.session == Some(session) && ReachedBackend(c.place)
  }

  predicate PassedGuard(p: Place) {
    HoldsSlot(p) || p.Acquiring? || p.Aborted? || WasTried(p) || p == Counting(Throttled) || IsCounted(p, Throttled)
  }

  predicate ReachedBackend(p: Place) {
    p.Opening? || p.Answered? || IsCounted(p, Opened) || IsCounted(p, Failed) || p == Unwinding(InOpen) || p == Aborted(InOpen)
  }

  function Selected(calls: map<nat, Call>, test: Call -> bool): set<nat> {
    set id | id in calls && test(calls[id])
  }

  function Matching(calls: map<nat, Call>, t: Tally): set<nat> {
    Selected(calls, c => Matches(t, c))
  }

  function Count(calls: map<nat, Call>, t: Tally): nat {
    |Matching(calls, t)|
  }

  function Admissions(log: seq<Event>, session: string): nat {
    if log == [] then 0
    else
      var e := log[|log| - 1];
      Admissions(log[..|log| - 1], session) + One(e.Admitted? && e.session == session)
  }

  function Opens(log: seq<Event>, session: string): nat {
    if log == [] then 0
    else
      var e := log[|log| - 1];
      Opens(log[..|log| - 1], session) + One(e.OpenedFor? && e.session == session)
  }

  predicate Covers(target: Option<string>, session: string) {
    target == None || target == Some(session)
  }

  function Resets(log: seq<Event>, session: string): nat {
    if log == [] then 0
    else
      var e := log[|log| - 1];
      Resets(log[..|log| - 1], session) + One(e.Cleared? && Covers(e.target, session))
  }

  /** What the shared objects say about each tally. */
  function Meter(s: State, t: Tally): nat {
    match t
    case Holding => s.slots.inFlight
    case Tried => s.metrics.attempted
    case Counted(status) => CountOf(s.metrics, status)
    case Refused => s.slots.denied
    case AdmittedAs(session) => Admissions(s.log, session)
    case OpenedAs(session) => Opens(s.log, session)
  }

  // ---- the invariant ----

  ghost predicate MetersExact(s: State) {
    forall t :: Meter(s, t) == Count(s.calls, t)
  }

  ghost predicate SlotsBounded(s: State) {
    s.slots.max >= 1 && s.slots.inFlight <= s.slots.peak <= s.slots.max
  }

  /** Statuses appear only where the code can produce them. */
  ghost predicate PlaceOk(s: State, c: Call) {
    match c.place
    case Counting(status) => status.Skipped? || status.Deduped? || status.Throttled?
    case Reporting(status, holding) => holding == (c.info.background && (status.Opened? || status.Failed?))
    case Recording(status, holding, seen) =>
      holding == (c.info.background && (status.Opened? || status.Failed?)) && seen <= s.slots.peak
    case Releasing(status) => status.Opened? || status.Failed?
    case Leaked => c.info.background
    case _ => true
  }

  ghost predicate PlacesOk(s: State) {
    forall id :: id in s.calls ==> PlaceOk(s, s.calls[id])
  }

  lemma SelectedSplit(calls: map<nat, Call>, id: nat, test: Call -> bool)
    ensures |Selected(calls, test)| == |Selected(calls - {id}, test)| + One(id in calls && test(calls[id]))
  {
    if id in calls && test(calls[id]) {
      assert Selected(calls, test) == Selected(calls - {id}, test) + {id};
    } else {
      assert Selected(calls, test) == Selected(calls - {id}, test);
    }
  }

  lemma SelectedUpdate(calls: map<nat, Call>, id: nat, c: Call, test: Call -> bool)
    ensures |Selected(calls[id := c], test)| + One(id in calls && test(calls[id])) == |Selected(calls, test)| + One(test(c))
  {
    SelectedSplit(calls, id, test);
    SelectedSplit(calls[id := c], id, test);
    assert calls[id := c] - {id} == calls - {id};
  }

  lemma CountUpdate(calls: map<nat, Call>, id: nat, c: Call, t: Tally)
    ensures Count(calls[id := c], t) + One(id in calls && Matches(t, calls[id])) == Count(calls, t) + One(Matches(t, c))
  {
    SelectedUpdate(calls, id, c, x => Matches(t, x));
  }

  lemma LogAppend(log: seq<Event>, e: Event, session: string)
    ensures Admissions(log + [e], session) == Admissions(log, session) + One(e.Admitted? && e.session == session)
    ensures Opens(log + [e], session) == Opens(log, session) + One(e.OpenedFor? && e.session == session)
    ensures Resets(log + [e], session) == Resets(log, session) + One(e.Cleared? && Covers(e.target, session))
  {
    assert (log + [e])[..|log|] == log;
  }

  /** The call an action moves, and its state afterwards. */
  function Moved(a: Action): Option<nat> {
    match a
    case Arrive(id, _) => Some(id)
    case Advance(id) => Some(id)
    case BackendReturns(id, _) => Some(id)
    case Raise(id) => Some(id)
    case StartFails(id) => Some(id)
    case Reset(_) => None
  }

  /** One action changes a meter by as much as it changes the membership of the call it moves. */
  ghost predicate Balanced(s: State, s': State, id: nat, t: Tally)
    requires id in s'.calls
  {
    Meter(s', t) + One(id in s.calls && Matches(t, s.calls[id])) == Meter(s, t) + One(Matches(t, s'.calls[id]))
  }

  lemma HoldingBalanced(s: State, id: nat)
    requires Enabled(s, Advance(id)) && PlaceOk(s, s.calls[id])
    requires HoldsSlot(s.calls[id].place) ==> s.slots.inFlight >= 1
    ensures Balanced(s, Step(s, Advance(id)), id, Holding)
  {
  }

  lemma TriedBalanced(s: State, id: nat)
    requires Enabled(s, Advance(id)) && PlaceOk(s, s.calls[id])
    ensures Balanced(s, Step(s, Advance(id)), id, Tried)
  {
  }

  /** The record_ call a place makes next. */
  function RecordsNext(p: Place): Option<Status> {
    match p
    case Counting(status) => Some(status)
    case Answered(ok) => Some(StatusOf(ok))
    case _ => None
  }

  lemma CountedAfter(s: State, id: nat, status: Status)
    requires Enabled(s, Advance(id))
    ensures CountOf(Step(s, Advance(id)).metrics, status)
         == CountOf(s.metrics, status) + One(RecordsNext(s.calls[id].place) == Some(status))
  {
  }

  lemma IsCountedAfter(s: State, id: nat, status: Status)
    requires Enabled(s, Advance(id)) && PlaceOk(s, s.calls[id])
    ensures IsCounted(Step(s, Advance(id)).calls[id].place, status)
         <==> IsCounted(s.calls[id].place, status) || RecordsNext(s.calls[id].place) == Some(status)
    ensures RecordsNext(s.calls[id].place).Some? ==> !IsCounted(s.calls[id].place, status)
  {
  }

  lemma CountedBalanced(s: State, id: nat, status: Status)
    requires Enabled(s, Advance(id)) && PlaceOk(s, s.calls[id])
    ensures Balanced(s, Step(s, Advance(id)), id, Counted(status))
  {
    CountedAfter(s, id, status);
    IsCountedAfter(s, id, status);
  }

  lemma RefusedBalanced(s: State, id: nat)
    requires Enabled(s, Advance(id)) && PlaceOk(s, s.calls[id])
    ensures Balanced(s, Step(s, Advance(id)), id, Refused)
  {
  }

  lemma AdvanceBalanced(s: State, id: nat, t: Tally)
    requires Enabled(s, Advance(id)) && PlaceOk(s, s.calls[id])
    requires HoldsSlot(s.calls[id].place) ==> s.slots.inFlight >= 1
    requires !t.AdmittedAs? && !t.OpenedAs?
    ensures Balanced(s, Step(s, Advance(id)), id, t)
  {
    match t
    case Holding => HoldingBalanced(s, id);
    case Tried => TriedBalanced(s, id);
    case Counted(status) => CountedBalanced(s, id, status);
    case Refused => RefusedBalanced(s, id);
  }

  /** An action logs an admission exactly when it takes a call with a session past the guard. */
  lemma AdmissionBalanced(s: State, a: Action, session: string)
    requires Enabled(s, a) && Moved(a).Some?
    requires Moved(a).value in s.calls ==> PlaceOk(s, s.calls[Moved(a).value])
    ensures Balanced(s, Step(s, a), Moved(a).value, AdmittedAs(session))
  {
    AdmissionsLogged(s, a, session);
    if a.Advance? {
      AdvancePastGuard(s, a.id);
    }
  }

  predicate Admits(s: State, a: Action, session: string)
    requires Enabled(s, a)
  {
    a.Advance? && s.calls[a.id].place.Guarding? && s.calls[a.id].info.session == Some(session) && session !in s.known
  }

  lemma AdmissionsLogged(s: State, a: Action, session: string)
    requires Enabled(s, a)
    ensures Admissions(s.log + Events(s, a), session) == Admissions(s.log, session) + One(Admits(s, a, session))
  {
    if Events(s, a) == [] {
      assert s.log + [] == s.log;
    } else {
      assert Events(s, a) == [Events(s, a)[0]];
      LogAppend(s.log, Events(s, a)[0], session);
    }
  }

  lemma AdvancePastGuard(s: State, id: nat)
    requires Enabled(s, Advance(id)) && PlaceOk(s, s.calls[id])
    ensures var c, c' := s.calls[id], Step(s, Advance(id)).calls[id];
      && c'.info == c.info
      && PassedGuard(c'.place) == if c.place.Guarding? then Admit(s.known, c.info.session).1 else PassedGuard(c.place)
  {
  }

  /** An action logs an open exactly when it takes a call with a session into the backend. */
  lemma OpenBalanced(s: State, a: Action, session: string)
    requires Enabled(s, a) && Moved(a).Some?
    requires Moved(a).value in s.calls ==> PlaceOk(s, s.calls[Moved(a).value])
    ensures Balanced(s, Step(s, a), Moved(a).value, OpenedAs(session))
  {
    OpensLogged(s, a, session);
    if a.Advance? {
      AdvanceIntoBackend(s, a.id);
    }
  }

  predicate CallsBackend(s: State, a: Action, session: string)
    requires Enabled(s, a)
  {
    a.Advance? && s.calls[a.id].place.Waiting? && s.calls[a.id].info.session == Some(session)
  }

  lemma OpensLogged(s: State, a: Action, session: string)
    requires Enabled(s, a)
    ensures Opens(s.log + Events(s, a), session) == Opens(s.log, session) + One(CallsBackend(s, a, session))
  {
    if Events(s, a) == [] {
      assert s.log + [] == s.log;
    } else {
      assert Events(s, a) == [Events(s, a)[0]];
      LogAppend(s.log, Events(s, a)[0], session);
    }
  }

  lemma AdvanceIntoBackend(s: State, id: nat)
    requires Enabled(s, Advance(id)) && PlaceOk(s, s.calls[id])
    ensures var c, c' := s.calls[id], Step(s, Advance(id)).calls[id];
      && c'.info == c.info
      && ReachedBackend(c'.place) == (c.place.Waiting? || ReachedBackend(c.place))
  {
  }

  lemma ResetMeters(s: State, target: Option<string>, t: Tally)
    ensures Meter(Step(s, Reset(target)), t) == Meter(s, t)
  {
    if t.AdmittedAs? {
      AdmissionsLogged(s, Reset(target), t.session);
    } else if t.OpenedAs? {
      OpensLogged(s, Reset(target), t.session);
    }
  }

  lemma ActionBalanced(s: State, a: Action, t: Tally)
    requires Enabled(s, a) && Moved(a).Some? && (Moved(a).value in s.calls ==> PlaceOk(s, s.calls[Moved(a).value]))
    requires Moved(a).value in s.calls && HoldsSlot(s.calls[Moved(a).value].place) ==> s.slots.inFlight >= 1
    ensures Balanced(s, Step(s, a), Moved(a).value, t)
  {
    if t.AdmittedAs? {
      AdmissionBalanced(s, a, t.session);
    } else if t.OpenedAs? {
      OpenBalanced(s, a, t.session);
    } else if a.Advance? {
      AdvanceBalanced(s, a.id, t);
    }
  }

  lemma OneCallMoves(s: State, a: Action, id: nat)
    requires Enabled(s, a) && Moved(a) == Some(id)
    ensures id in Step(s, a).calls && Step(s, a).calls == s.calls[id := Step(s, a).calls[id]]
  {
  }

  lemma MeterStep(s: State, a: Action, t: Tally)
    requires PlacesOk(s) && Enabled(s, a)
    requires Meter(s, Holding) == Count(s.calls, Holding) && Meter(s, t) == Count(s.calls, t)
    ensures Meter(Step(s, a), t) == Count(Step(s, a).calls, t)
  {
    if a.Reset? {
      ResetMeters(s, a.target, t);
    } else {
      var id := Moved(a).value;
      if id in s.calls {
        HolderCounted(s, id);
        assert PlaceOk(s, s.calls[id]);
      }
      ActionBalanced(s, a, t);
      OneCallMoves(s, a, id);
      CountUpdate(s.calls, id, Step(s, a).calls[id], t);
    }
  }

  /** A call that holds a slot is itself counted, so the slots in use are at least one. */
  lemma HolderCounted(s: State, id: nat)
    requires id in s.calls && Meter(s, Holding) == Count(s.calls, Holding)
    ensures HoldsSlot(s.calls[id].place) ==> s.slots.inFlight >= 1
  {
    if HoldsSlot(s.calls[id].place) {
      assert id in Matching(s.calls, Holding);
    }
  }

  lemma SlotsStep(s: State, a: Action)
    requires SlotsBounded(s) && Enabled(s, a)
    ensures SlotsBounded(Step(s, a))
    ensures s.slots.peak <= Step(s, a).slots.peak && Step(s, a).slots.max == s.slots.max
  {
  }

  lemma PlaceStep(s: State, a: Action, id: nat)
    requires Enabled(s, a) && id in Step(s, a).calls && (id in s.calls ==> PlaceOk(s, s.calls[id]))
    requires s.slots.peak <= Step(s, a).slots.peak
    ensures PlaceOk(Step(s, a), Step(s, a).calls[id])
  {
    if Moved(a) != Some(id) {
      OthersStay(s, a, id);
    } else if a.Advance? {
      AdvancePlace(s, id);
    }
  }

  lemma OthersStay(s: State, a: Action, id: nat)
    requires Enabled(s, a) && Moved(a) != Some(id)
    ensures id in Step(s, a).calls <==> id in s.calls
    ensures id in s.calls ==> Step(s, a).calls[id] == s.calls[id]
  {
  }

  lemma AdvancePlace(s: State, id: nat)
    requires Enabled(s, Advance(id)) && PlaceOk(s, s.calls[id])
    ensures PlaceOk(Step(s, Advance(id)), Step(s, Advance(id)).calls[id])
  {
  }

  lemma BoundsStep(s: State, a: Action)
    requires SlotsBounded(s) && PlacesOk(s) && Enabled(s, a)
    ensures SlotsBounded(Step(s, a)) && PlacesOk(Step(s, a))
    ensures s.slots.peak <= Step(s, a).slots.peak && Step(s, a).slots.max == s.slots.max
  {
    SlotsStep(s, a);
    forall id | id in Step(s, a).calls ensures PlaceOk(Step(s, a), Step(s, a).calls[id]) {
      PlaceStep(s, a, id);
    }
  }

  // ---- the peak that is reported ----

  /** The call may still report a peak as high as this one, or has broken off. */
  predicate MayReport(p: Place, peak: nat) {
    match p
    case Starting => true
    case Waiting => true
    case Opening => true
    case Answered(_) => true
    case Reporting(_, _) => true
    case Recording(_, _, seen) => seen == peak
    case Releasing(_) => true
    case Unwinding(_) => true
    case Aborted(_) => true
    case Leaked => true
    case _ => false
  }

  predicate StillReports(c: Call, peak: nat) {
    MayReport(c.place, peak) && !(c.info.background && c.place.Releasing?)
  }

  ghost predicate PeakReported(s: State) {
    && s.metrics.peak <= s.slots.peak
    && (s.metrics.peak == s.slots.peak || exists id :: id in s.calls && StillReports(s.calls[id], s.slots.peak))
  }

  lemma PeakGrows(s: State, a: Action)
    requires Enabled(s, a) && Step(s, a).slots.peak != s.slots.peak
    ensures a.Advance? && a.id in Step(s, a).calls && StillReports(Step(s, a).calls[a.id], Step(s, a).slots.peak)
  {
  }

  lemma ReportedPeak(s: State, a: Action)
    requires SlotsBounded(s) && PlacesOk(s) && Enabled(s, a) && s.metrics.peak <= s.slots.peak
    ensures s.metrics.peak <= Step(s, a).metrics.peak <= Step(s, a).slots.peak
  {
    SlotsStep(s, a);
    if a.Advance? {
      assert PlaceOk(s, s.calls[a.id]);
    }
  }

  /** A call that may still report the peak does so, or may after the step. */
  lemma ReporterStays(s: State, a: Action, k: nat)
    requires Enabled(s, a) && k in s.calls && PlaceOk(s, s.calls[k]) && StillReports(s.calls[k], s.slots.peak)
    ensures k in Step(s, a).calls
    ensures Step(s, a).metrics.peak >= s.slots.peak || StillReports(Step(s, a).calls[k], s.slots.peak)
  {
  }

  lemma PeakStep(s: State, a: Action)
    requires SlotsBounded(s) && PlacesOk(s) && PeakReported(s) && Enabled(s, a)
    ensures PeakReported(Step(s, a))
  {
    ReportedPeak(s, a);
    if Step(s, a).slots.peak != s.slots.peak {
      PeakGrows(s, a);
    } else if s.metrics.peak != s.slots.peak {
      var k :| k in s.calls && StillReports(s.calls[k], s.slots.peak);
      assert PlaceOk(s, s.calls[k]);
      ReporterStays(s, a, k);
    }
  }

  // ---- sessions ----

  /** The session was admitted after its last reset. */
  function IsKnown(log: seq<Event>, session: string): bool {
    if log == [] then false
    else
      var e := log[|log| - 1];
      if e.Admitted? && e.session == session then true
      else if e.Cleared? && Covers(e.target, session) then false
      else IsKnown(log[..|log| - 1], session)
  }

  ghost predicate SessionsExact(s: State) {
    forall session :: SessionExact(s, session)
  }

  ghost predicate SessionExact(s: State, session: string) {
    && (session in s.known <==> IsKnown(s.log, session))
    && Admissions(s.log, session) <= Resets(s.log, session) + One(IsKnown(s.log, session))
  }

  lemma KnownAppend(log: seq<Event>, e: Event, session: string)
    ensures IsKnown(log + [e], session) ==
      if e.Admitted? && e.session == session then true
      else if e.Cleared? && Covers(e.target, session) then false
      else IsKnown(log, session)
  {
    assert (log + [e])[..|log|] == log;
  }

  lemma KnownAfter(s: State, a: Action)
    requires Enabled(s, a)
    ensures Step(s, a).known ==
      match a
      case Advance(id) => if s.calls[id].place.Guarding? then Admit(s.known, s.calls[id].info.session).0 else s.known
      case Reset(target) => Forget(s.known, target)
      case _ => s.known
    ensures Step(s, a).log == s.log + Events(s, a)
  {
  }

  /** What a session event does to the known sessions. */
  ghost predicate KnownBy(known: set<string>, e: Event, after: set<string>) {
    match e
    case Admitted(_, session) => session !in known && after == known + {session}
    case OpenedFor(_, _) => after == known
    case Cleared(target) => after == Forget(known, target)
  }

  lemma EventKnown(s: State, a: Action)
    requires Enabled(s, a)
    ensures Events(s, a) == [] ==> Step(s, a).known == s.known && Step(s, a).log == s.log
    ensures Events(s, a) != [] ==> Step(s, a).log == s.log + [Events(s, a)[0]]
    ensures Events(s, a) != [] ==> KnownBy(s.known, Events(s, a)[0], Step(s, a).known)
  {
    KnownAfter(s, a);
    if Events(s, a) == [] {
      assert s.log + [] == s.log;
    }
  }

  lemma SessionAfter(known: set<string>, log: seq<Event>, e: Event, after: set<string>, session: string)
    requires KnownBy(known, e, after) && (e.Admitted? ==> !IsKnown(log, e.session))
    requires (session in known <==> IsKnown(log, session))
             && Admissions(log, session) <= Resets(log, session) + One(IsKnown(log, session))
    ensures (session in after <==> IsKnown(log + [e], session))
            && Admissions(log + [e], session) <= Resets(log + [e], session) + One(IsKnown(log + [e], session))
  {
    LogAppend(log, e, session);
    KnownAppend(log, e, session);
  }

  lemma SessionsStep(s: State, a: Action)
    requires SessionsExact(s) && Enabled(s, a)
    ensures SessionsExact(Step(s, a))
  {
    EventKnown(s, a);
    forall session ensures SessionExact(Step(s, a), session) {
      assert SessionExact(s, session);
      if Events(s, a) != [] {
        var e := Events(s, a)[0];
        assert e.Admitted? ==> SessionExact(s, e.session);
        SessionAfter(s.known, s.log, e, Step(s, a).known, session);
      }
    }
  }

  /** The log never admits a known session, and opens each call once, after admitting it. */
  ghost predicate LogOk(log: seq<Event>) {
    if log == [] then true
    else
      var before := log[..|log| - 1];
      && LogOk(before)
      && match log[|log| - 1] {
           case Admitted(id, session) => !IsKnown(before, session)
           case OpenedFor(id, session) => Admitted(id, session) in before && OpenedFor(id, session) !in before
           case Cleared(_) => true
         }
  }

  /** The log agrees with the places of the calls. */
  ghost predicate LogMatches(s: State) {
    && LogOk(s.log)
    && (forall id :: id in s.calls && s.calls[id].info.session.Some? && PassedGuard(s.calls[id].place)
          ==> Admitted(id, s.calls[id].info.session.value) in s.log)
    && (forall id, session :: OpenedFor(id, session) in s.log ==> id in s.calls && ReachedBackend(s.calls[id].place))
  }

  lemma LogOkAppend(log: seq<Event>, e: Event)
    requires LogOk(log)
    requires e.Admitted? ==> !IsKnown(log, e.session)
    requires e.OpenedFor? ==> Admitted(e.id, e.session) in log && e !in log
    ensures LogOk(log + [e])
  {
    assert (log + [e])[..|log|] == log;
  }

  /** A call stays past the guard, or past the backend, once it is there; it gets there by being logged. */
  lemma PlaceProgress(s: State, a: Action, id: nat)
    requires Enabled(s, a) && id in s.calls && PlaceOk(s, s.calls[id])
    ensures id in Step(s, a).calls && Step(s, a).calls[id].info == s.calls[id].info
    ensures ReachedBackend(s.calls[id].place) ==> ReachedBackend(Step(s, a).calls[id].place)
    ensures PassedGuard(Step(s, a).calls[id].place) ==>
      PassedGuard(s.calls[id].place) || (a == Advance(id) && s.calls[id].place.Guarding? && Admit(s.known, s.calls[id].info.session).1)
  {
    if a == Advance(id) {
      AdvancePastGuard(s, id);
      AdvanceIntoBackend(s, id);
    }
  }

  lemma LogStep(s: State, a: Action)
    requires LogMatches(s) && PlacesOk(s) && SessionsExact(s) && Enabled(s, a)
    ensures LogMatches(Step(s, a))
  {
    var s' := Step(s, a);
    assert s'.log == s.log + Events(s, a) by {
      KnownAfter(s, a);
    }
    if Events(s, a) == [] {
      assert s.log + [] == s.log;
    } else {
      var e := Events(s, a)[0];
      assert Events(s, a) == [e];
      if e.Admitted? {
        assert SessionExact(s, e.session);
      }
      LogOkAppend(s.log, e);
    }
    LogPlaces(s, a);
  }

  lemma LogPlaces(s: State, a: Action)
    requires LogMatches(s) && PlacesOk(s) && Enabled(s, a)
    requires Step(s, a).log == s.log + Events(s, a)
    ensures var s' := Step(s, a);
      && (forall id :: id in s'.calls && s'.calls[id].info.session.Some? && PassedGuard(s'.calls[id].place)
            ==> Admitted(id, s'.calls[id].info.session.value) in s'.log)
      && (forall id, session :: OpenedFor(id, session) in s'.log ==> id in s'.calls && ReachedBackend(s'.calls[id].place))
  {
    var s' := Step(s, a);
    forall id | id in s'.calls && s'.calls[id].info.session.Some? && PassedGuard(s'.calls[id].place)
      ensures Admitted(id, s'.calls[id].info.session.value) in s'.log
    {
      assert id in s.calls;
      assert PlaceOk(s, s.calls[id]);
      PlaceProgress(s, a, id);
    }
    forall id, session | OpenedFor(id, session) in s'.log ensures id in s'.calls && ReachedBackend(s'.calls[id].place) {
      if OpenedFor(id, session) in s.log {
        assert PlaceOk(s, s.calls[id]);
        PlaceProgress(s, a, id);
      }
    }
  }

  // ---- every reachable state ----

  ghost predicate Inv(s: State) {
    SlotsBounded(s) && PlacesOk(s) && MetersExact(s) && PeakReported(s) && SessionsExact(s) && LogMatches(s)
  }

  lemma InvStep(s: State, a: Action)
    requires Inv(s) && Enabled(s, a)
    ensures Inv(Step(s, a))
  {
    BoundsStep(s, a);
    PeakStep(s, a);
    SessionsStep(s, a);
    LogStep(s, a);
    forall t ensures Meter(Step(s, a), t) == Count(Step(s, a).calls, t) {
      MeterStep(s, a, t);
    }
  }

  lemma {:induction false} InvReaches(s: State, actions: seq<Action>, t: State)
    requires Inv(s) && Reaches(s, actions, t)
    ensures Inv(t) && t.slots.max == s.slots.max
    decreases |actions|
  {
    if actions != [] {
      InvStep(s, actions[0]);
      BoundsStep(s, actions[0]);
      InvReaches(Step(s, actions[0]), actions[1..], t);
    }
  }

  lemma ReachableInv(max: nat, t: State)
    requires Reachable(max, t)
    ensures Inv(t) && t.slots.max == max
  {
    var actions :| Reaches(Initial(max), actions, t);
    var s := Initial(max);
    forall tally ensures Meter(s, tally) == Count(s.calls, tally) {
      assert Matching(s.calls, tally) == {};
    }
    InvReaches(s, actions, t);
  }

  // ---- safety ----

  /** In every reachable state the slots in use are exactly the calls holding one, within the cap. */
  lemma SlotSafety(max: nat, s: State)
    requires Reachable(max, s)
    ensures s.slots.inFlight == Count(s.calls, Holding)
    ensures s.slots.inFlight <= s.slots.peak <= max == s.slots.max
  {
    ReachableInv(max, s);
    assert Meter(s, Holding) == Count(s.calls, Holding);
  }

  /** Every release finds a slot to give back, so the clamp at zero never fires. */
  lemma ReleaseNeverClamps(max: nat, s: State, id: nat)
    requires Reachable(max, s) && Enabled(s, Advance(id))
    requires s.calls[id].place.Releasing? || s.calls[id].place.Unwinding?
    ensures s.slots.inFlight >= 1 && Step(s, Advance(id)).slots == s.slots.(inFlight := s.slots.inFlight - 1)
  {
    SlotSafety(max, s);
    HolderCounted(s, id);
  }

  /** A call is throttled exactly when the cap is full of calls holding slots. */
  lemma ThrottledIffFull(max: nat, s: State, id: nat)
    requires Reachable(max, s) && id in s.calls && s.calls[id].place.Acquiring?
    ensures Step(s, Advance(id)).calls[id].place == (if Count(s.calls, Holding) == max then Counting(Throttled) else Starting)
  {
    SlotSafety(max, s);
  }

  // ---- conservation ----

  /** Calls that have not met a record_ call yet: undecided, or about to be counted as not opening. */
  function Undecided(calls: map<nat, Call>): set<nat> {
    set id | id in calls
          && (calls[id].place.Entered? || calls[id].place.Guarding? || calls[id].place.Acquiring? || calls[id].place.Counting?)
  }

  /** Calls whose attempt is recorded and whose result is not. */
  function InProgress(calls: map<nat, Call>): set<nat> {
    set id | id in calls && (calls[id].place.Waiting? || calls[id].place.Opening? || calls[id].place.Answered?)
  }

  predicate WasCut(p: Place, tried: bool) {
    (p.Unwinding? || p.Aborted?) && (p.at != BeforeAttempt) == tried
  }

  /** Calls an exception cut short, after (or before) their attempt was recorded. */
  function CutShort(calls: map<nat, Call>, tried: bool): set<nat> {
    set id | id in calls && WasCut(calls[id].place, tried)
  }

  function Slotted(calls: map<nat, Call>): set<nat> {
    set id | id in calls && calls[id].place.Starting?
  }

  function LeakedCalls(calls: map<nat, Call>): set<nat> {
    set id | id in calls && calls[id].place.Leaked?
  }

  /** Attempts are conserved: each is opened, failed, in progress, or was cut short. */
  lemma AttemptsConserved(max: nat, s: State)
    requires Reachable(max, s)
    ensures s.metrics.attempted ==
      s.metrics.openedCount + s.metrics.failedCount + |InProgress(s.calls)| + |CutShort(s.calls, true)|
  {
    ReachableInv(max, s);
    var won, lost := Matching(s.calls, Counted(Opened)), Matching(s.calls, Counted(Failed));
    var busy, cut := InProgress(s.calls), CutShort(s.calls, true);
    assert Meter(s, Tried) == Count(s.calls, Tried);
    assert Meter(s, Counted(Opened)) == |won| && Meter(s, Counted(Failed)) == |lost|;
    TriedSplits(s);
    assert |won + lost + busy + cut| == |won| + |lost| + |busy| + |cut|;
  }

  lemma TriedSplits(s: State)
    requires PlacesOk(s)
    ensures Matching(s.calls, Tried)
         == Matching(s.calls, Counted(Opened)) + Matching(s.calls, Counted(Failed)) + InProgress(s.calls) + CutShort(s.calls, true)
    ensures Matching(s.calls, Counted(Opened)) !! Matching(s.calls, Counted(Failed)) !! InProgress(s.calls) !! CutShort(s.calls, true)
  {
    forall id | id in s.calls ensures PlaceOk(s, s.calls[id]) {
    }
  }

  /** Every call is counted exactly once: the five status counters, the undecided calls, the calls with
      a slot and no result, and the broken-off calls add up to all calls. */
  lemma CallsConserved(max: nat, s: State)
    requires Reachable(max, s)
    ensures |s.calls| ==
      |Undecided(s.calls)| + s.metrics.skippedCount + s.metrics.dedupedCount + s.metrics.throttledCount
      + |Slotted(s.calls)| + |InProgress(s.calls)| + s.metrics.openedCount + s.metrics.failedCount
      + |CutShort(s.calls, true)| + |CutShort(s.calls, false)| + |LeakedCalls(s.calls)|
  {
    ReachableInv(max, s);
    forall status ensures OfClass(s.calls, StatusClass(status)) == Matching(s.calls, Counted(status)) {
      StatusIsClass(s.calls, status);
    }
    assert Meter(s, Counted(Skipped)) == Count(s.calls, Counted(Skipped));
    assert Meter(s, Counted(Deduped)) == Count(s.calls, Counted(Deduped));
    assert Meter(s, Counted(Throttled)) == Count(s.calls, Counted(Throttled));
    assert Meter(s, Counted(Opened)) == Count(s.calls, Counted(Opened));
    assert Meter(s, Counted(Failed)) == Count(s.calls, Counted(Failed));
    NamedClasses(s.calls);
    ElevenClasses(s.calls);
  }

  function StatusClass(status: Status): nat {
    match status
    case Skipped => 1
    case Deduped => 2
    case Throttled => 3
    case Opened => 6
    case Failed => 7
  }

  /** A numbering of the kinds of place, total on places. */
  function Class(p: Place): (k: nat)
    ensures k < 11
  {
    match p
    case Entered => 0
    case Guarding => 0
    case Acquiring => 0
    case Counting(_) => 0
    case Starting => 4
    case Waiting => 5
    case Opening => 5
    case Answered(_) => 5
    case Reporting(status, _) => StatusClass(status)
    case Recording(status, _, _) => StatusClass(status)
    case Releasing(status) => StatusClass(status)
    case Done(status) => StatusClass(status)
    case Unwinding(at) => if at == BeforeAttempt then 9 else 8
    case Aborted(at) => if at == BeforeAttempt then 9 else 8
    case Leaked => 10
  }

  function OfClass(calls: map<nat, Call>, k: nat): set<nat> {
    set id | id in calls && Class(calls[id].place) == k
  }

  function BelowClass(calls: map<nat, Call>, k: nat): set<nat> {
    set id | id in calls && Class(calls[id].place) < k
  }

  function ClassSizes(calls: map<nat, Call>, k: nat): nat {
    if k == 0 then 0 else ClassSizes(calls, k - 1) + |OfClass(calls, k - 1)|
  }

  lemma {:induction false} ClassesAddUp(calls: map<nat, Call>, k: nat)
    ensures |BelowClass(calls, k)| == ClassSizes(calls, k)
  {
    if k == 0 {
      assert BelowClass(calls, 0) == {};
    } else {
      ClassesAddUp(calls, k - 1);
      assert BelowClass(calls, k) == BelowClass(calls, k - 1) + OfClass(calls, k - 1);
      assert BelowClass(calls, k - 1) !! OfClass(calls, k - 1);
    }
  }

  lemma ElevenClasses(calls: map<nat, Call>)
    ensures |calls| ==
      |OfClass(calls, 0)| + |OfClass(calls, 1)| + |OfClass(calls, 2)| + |OfClass(calls, 3)| + |OfClass(calls, 4)|
      + |OfClass(calls, 5)| + |OfClass(calls, 6)| + |OfClass(calls, 7)| + |OfClass(calls, 8)| + |OfClass(calls, 9)|
      + |OfClass(calls, 10)|
  {
    ClassesAddUp(calls, 11);
    assert BelowClass(calls, 11) == calls.Keys;
    assert |calls| == |calls.Keys|;
    assert ClassSizes(calls, 1) == |OfClass(calls, 0)|;
    assert ClassSizes(calls, 2) == |OfClass(calls, 0)| + |OfClass(calls, 1)|;
    assert ClassSizes(calls, 4) == ClassSizes(calls, 2) + |OfClass(calls, 2)| + |OfClass(calls, 3)|;
    assert ClassSizes(calls, 6) == ClassSizes(calls, 4) + |OfClass(calls, 4)| + |OfClass(calls, 5)|;
    assert ClassSizes(calls, 8) == ClassSizes(calls, 6) + |OfClass(calls, 6)| + |OfClass(calls, 7)|;
    assert ClassSizes(calls, 10) == ClassSizes(calls, 8) + |OfClass(calls, 8)| + |OfClass(calls, 9)|;
  }

  lemma StatusIsClass(calls: map<nat, Call>, status: Status)
    ensures OfClass(calls, StatusClass(status)) == Matching(calls, Counted(status))
  {
    forall id | id in calls ensures Class(calls[id].place) == StatusClass(status) <==> IsCounted(calls[id].place, status) {
    }
  }

  lemma NamedClasses(calls: map<nat, Call>)
    ensures OfClass(calls, 0) == Undecided(calls) && OfClass(calls, 4) == Slotted(calls)
    ensures OfClass(calls, 5) == InProgress(calls) && OfClass(calls, 10) == LeakedCalls(calls)
    ensures OfClass(calls, 8) == CutShort(calls, true) && OfClass(calls, 9) == CutShort(calls, false)
  {
  }

  // ---- sessions: at most once ----

  /** A session reaches the backend at most once more than it was reset, even counting every call that
      was throttled, failed or broke off after the guard. */
  lemma SessionOpensBounded(max: nat, s: State, session: string)
    requires Reachable(max, s)
    ensures Opens(s.log, session) <= Admissions(s.log, session) <= Resets(s.log, session) + 1
  {
    ReachableInv(max, s);
    assert SessionExact(s, session);
    assert Meter(s, OpenedAs(session)) == Count(s.calls, OpenedAs(session));
    assert Meter(s, AdmittedAs(session)) == Count(s.calls, AdmittedAs(session));
    var opens, admissions := Matching(s.calls, OpenedAs(session)), Matching(s.calls, AdmittedAs(session));
    forall id | id in opens ensures id in admissions {
      assert PlaceOk(s, s.calls[id]);
    }
    SubsetSize(opens, admissions);
  }

  lemma {:induction false} SubsetSize(a: set<nat>, b: set<nat>)
    requires a <= b
    ensures |a| <= |b|
  {
    if a != {} {
      var x :| x in a;
      SubsetSize(a - {x}, b - {x});
    }
  }

  ghost predicate ResetBetween(log: seq<Event>, i: int, j: int, session: string) {
    exists k :: i < k < j && ResetAt(log, k, session)
  }

  predicate ResetAt(log: seq<Event>, k: int, session: string) {
    0 <= k < |log| && log[k].Cleared? && Covers(log[k].target, session)
  }

  lemma {:induction false} LogOkPrefix(log: seq<Event>, n: nat)
    requires LogOk(log) && n <= |log|
    ensures LogOk(log[..n])
    decreases |log| - n
  {
    if n < |log| {
      LogOkPrefix(log, n + 1);
      assert log[..n + 1][..n] == log[..n];
    } else {
      assert log[..n] == log;
    }
  }

  lemma {:induction false} StaysKnown(log: seq<Event>, i: nat, j: nat, session: string)
    requires i < j <= |log| && log[i].Admitted? && log[i].session == session
    requires !ResetBetween(log, i, j, session)
    ensures IsKnown(log[..j], session)
    decreases j
  {
    assert log[..j][..j - 1] == log[..j - 1];
    if j > i + 1 {
      assert !ResetAt(log, j - 1, session);
      forall k | i < k < j - 1 ensures !ResetAt(log, k, session) {
      }
      StaysKnown(log, i, j - 1, session);
    }
  }

  /** Between two admissions of a session there is a reset of it. */
  lemma AdmissionsSeparated(max: nat, s: State, i: nat, j: nat)
    requires Reachable(max, s) && i < j < |s.log|
    requires s.log[i].Admitted? && s.log[j].Admitted? && s.log[i].session == s.log[j].session
    ensures ResetBetween(s.log, i, j, s.log[i].session)
  {
    ReachableInv(max, s);
    LogOkPrefix(s.log, j + 1);
    assert s.log[..j + 1][..j] == s.log[..j];
    if !ResetBetween(s.log, i, j, s.log[i].session) {
      StaysKnown(s.log, i, j, s.log[i].session);
    }
  }

  lemma AdmittedBeforeOpen(log: seq<Event>, i: nat) returns (a: nat)
    requires LogOk(log) && i < |log| && log[i].OpenedFor?
    ensures a < i && log[a] == Admitted(log[i].id, log[i].session)
    ensures log[i] !in log[..i]
  {
    LogOkPrefix(log, i + 1);
    assert log[..i + 1][..i] == log[..i];
    a :| 0 <= a < i && log[..i][a] == Admitted(log[i].id, log[i].session);
  }

  /** What separates two opens of one session in every run: they belong to different calls, whose admissions
      lie before them and have a reset of the session between them. */
  lemma OpensSeparated(max: nat, s: State, i: nat, j: nat) returns (a: nat, b: nat)
    requires Reachable(max, s) && i < j < |s.log|
    requires s.log[i].OpenedFor? && s.log[j].OpenedFor? && s.log[i].session == s.log[j].session
    ensures s.log[i].id != s.log[j].id
    ensures a < i && s.log[a] == Admitted(s.log[i].id, s.log[i].session)
    ensures b < j && s.log[b] == Admitted(s.log[j].id, s.log[j].session)
    ensures ResetBetween(s.log, a, b, s.log[i].session) || ResetBetween(s.log, b, a, s.log[i].session)
  {
    ReachableInv(max, s);
    a := AdmittedBeforeOpen(s.log, i);
    b := AdmittedBeforeOpen(s.log, j);
    assert s.log[i] == s.log[..j][i];
    if a < b {
      AdmissionsSeparated(max, s, a, b);
    } else {
      AdmissionsSeparated(max, s, b, a);
    }
  }

  lemma {:induction false} ReachesStep(s: State, actions: seq<Action>, t: State, a: Action)
    requires Reaches(s, actions, t) && Enabled(t, a)
    ensures Reaches(s, actions + [a], Step(t, a))
    decreases |actions|
  {
    if actions == [] {
      assert [a][1..] == [];
      assert actions + [a] == [a];
    } else {
      ReachesStep(Step(s, actions[0]), actions[1..], t, a);
      assert (actions + [a])[1..] == actions[1..] + [a];
    }
  }

  lemma ContinuesStep(s: State, t: State, a: Action)
    requires Continues(s, t) && Enabled(t, a)
    ensures Continues(s, Step(t, a))
  {
    var actions :| Reaches(s, actions, t);
    ReachesStep(s, actions, t, a);
  }

  lemma ContinuesItself(s: State)
    ensures Continues(s, s)
  {
    assert Reaches(s, [], s);
  }

  function WalkInfo(session: string, background: bool): CallInfo {
    CallInfo(background, Some(session), Always, Preferences(None, false), true)
  }

  /** t differs from s by one call that nothing skipped, deduped or throttled. */
  ghost predicate WalkedTo(s: State, t: State, id: nat, info: CallInfo, place: Place)
    requires info.session.Some?
  {
    && t.calls == s.calls[id := Call(info, place)]
    && t.slots.max == s.slots.max
    && t.slots.inFlight == s.slots.inFlight + One(place == Starting || place == Waiting)
    && var admitted := place == Acquiring || place == Starting || place == Waiting;
    t.log == s.log + (if admitted then [Admitted(id, info.session.value)] else [])
    && t.known == if admitted then s.known + {info.session.value} else s.known
  }

  function NextPlace(place: Place): Place {
    if place == Entered then Guarding
    else if place == Guarding then Acquiring
    else if place == Acquiring then Starting
    else Waiting
  }

  lemma WalkStep(base: State, s: State, t: State, id: nat, session: string, background: bool, place: Place) returns (u: State)
    requires Continues(base, t) && WalkedTo(s, t, id, WalkInfo(session, background), place)
    requires place == Entered || place == Guarding || place == Acquiring || place == Starting
    requires session !in s.known && s.slots.inFlight < s.slots.max
    ensures Continues(base, u) && WalkedTo(s, u, id, WalkInfo(session, background), NextPlace(place))
  {
    ContinuesStep(base, t, Advance(id));
    u := Step(t, Advance(id));
    assert u.calls == s.calls[id := u.calls[id]];
    assert t.log + [] == t.log;
    assert s.log + [] == s.log;
  }

  lemma WalkToSlot(base: State, s: State, id: nat, session: string, background: bool) returns (t: State)
    requires Continues(base, s) && id !in s.calls && session !in s.known && s.slots.inFlight < s.slots.max
    ensures Continues(base, t) && WalkedTo(s, t, id, WalkInfo(session, background), Starting)
  {
    var info := WalkInfo(session, background);
    ContinuesStep(base, s, Arrive(id, info));
    t := Step(s, Arrive(id, info));
    t := WalkStep(base, s, t, id, session, background, Entered);
    t := WalkStep(base, s, t, id, session, background, Guarding);
    t := WalkStep(base, s, t, id, session, background, Acquiring);
  }

  lemma WalkToWait(base: State, s: State, id: nat, session: string) returns (t: State)
    requires Continues(base, s) && id !in s.calls && session !in s.known && s.slots.inFlight < s.slots.max
    ensures Continues(base, t) && WalkedTo(s, t, id, WalkInfo(session, false), Waiting)
  {
    t := WalkToSlot(base, s, id, session, false);
    t := WalkStep(base, s, t, id, session, false, Starting);
  }

  lemma OpenStep(base: State, s: State, id: nat, session: string) returns (t: State)
    requires Continues(base, s) && id in s.calls && s.calls[id].place.Waiting? && s.calls[id].info.session == Some(session)
    ensures t == Step(s, Advance(id)) && Continues(base, t)
    ensures t.calls == s.calls[id := s.calls[id].(place := Opening)]
    ensures t.log == s.log + [OpenedFor(id, session)] && t.known == s.known && t.slots == s.slots
  {
    ContinuesStep(base, s, Advance(id));
    t := Step(s, Advance(id));
  }

  /** One call is about to open when the guard is reset. */
  lemma ResetBeforeOpen(session: string) returns (s: State)
    ensures Continues(Initial(2), s) && s.calls == map[0 := Call(WalkInfo(session, false), Waiting)]
    ensures s.known == {} && s.slots.max == 2 && s.slots.inFlight == 1
    ensures s.log == [Admitted(0, session), Cleared(None)]
  {
    ContinuesItself(Initial(2));
    s := WalkToWait(Initial(2), Initial(2), 0, session);
    ContinuesStep(Initial(2), s, Reset(None));
    s := Step(s, Reset(None));
  }

  /** A reset that falls between one call's admission and its open lets another call open the same
      session with no reset between the two opens. */
  lemma OpensWithoutResetBetween(session: string) returns (s: State)
    ensures Reachable(2, s)
    ensures s.log == [Admitted(0, session), Cleared(None), Admitted(1, session), OpenedFor(0, session), OpenedFor(1, session)]
    ensures !ResetBetween(s.log, 3, 4, session)
  {
    s := ResetBeforeOpen(session);
    s := WalkToWait(Initial(2), s, 1, session);
    s := OpenStep(Initial(2), s, 0, session);
    s := OpenStep(Initial(2), s, 1, session);
  }

  // ---- quiescence and progress ----

  ghost predicate AllFinished(s: State) {
    forall id :: id in s.calls ==> Finished(s.calls[id].place)
  }

  /** When every call has finished, the slots still taken are exactly those of calls whose thread failed
      to start. */
  lemma SlotsReturned(max: nat, s: State)
    requires Reachable(max, s) && AllFinished(s)
    ensures s.slots.inFlight == |LeakedCalls(s.calls)|
  {
    SlotSafety(max, s);
    assert Matching(s.calls, Holding) == LeakedCalls(s.calls);
  }

  /** A thread fails to start in the run. */
  ghost predicate StartsFail(actions: seq<Action>) {
    exists i :: 0 <= i < |actions| && actions[i].StartFails?
  }

  lemma LeaksStep(s: State, a: Action)
    requires Enabled(s, a)
    ensures LeakedCalls(Step(s, a).calls) == LeakedCalls(s.calls) + (if a.StartFails? then {a.id} else {})
  {
  }

  lemma {:induction false} LeaksOfRun(s: State, actions: seq<Action>, t: State)
    requires Reaches(s, actions, t)
    ensures LeakedCalls(t.calls) == {} <==> LeakedCalls(s.calls) == {} && !StartsFail(actions)
    decreases |actions|
  {
    if actions != [] {
      LeaksStep(s, actions[0]);
      LeaksOfRun(Step(s, actions[0]), actions[1..], t);
      assert StartsFail(actions) <==> actions[0].StartFails? || StartsFail(actions[1..]) by {
        assert forall i :: 1 <= i < |actions| ==> actions[i] == actions[1..][i - 1];
      }
    }
  }

  /** At the end of a run all slots are back exactly when no thread failed to start in it. */
  lemma SlotsReturnedExact(max: nat, actions: seq<Action>, s: State)
    requires max >= 1 && Reaches(Initial(max), actions, s) && AllFinished(s)
    ensures s.slots.inFlight == 0 <==> LeakedCalls(s.calls) == {}
    ensures s.slots.inFlight == 0 <==> !StartsFail(actions)
  {
    SlotsReturned(max, s);
    LeaksOfRun(Initial(max), actions, s);
  }

  /** A run that leaks a slot: with every call finished, the only slot there is stays taken. */
  lemma SlotLeaks(session: string) returns (s: State)
    ensures Reachable(1, s) && AllFinished(s)
    ensures LeakedCalls(s.calls) == {0} && s.slots.inFlight == 1 == s.slots.max
  {
    ContinuesItself(Initial(1));
    s := WalkToSlot(Initial(1), Initial(1), 0, session, true);
    ContinuesStep(Initial(1), s, StartFails(0));
    s := Step(s, StartFails(0));
    assert s.calls == map[0 := Call(WalkInfo(session, true), Leaked)];
  }

  /** A run that breaks the plain equation: an attempt with no result, and no call in progress. */
  lemma AttemptCutShort(session: string) returns (s: State)
    ensures Reachable(1, s) && AllFinished(s)
    ensures CutShort(s.calls, true) == {0}
    ensures s.metrics.attempted == 1 && s.metrics.openedCount == s.metrics.failedCount == |InProgress(s.calls)| == 0
  {
    s := WalkToAbort(session);
    AbortedAlone(s);
    AttemptsConserved(1, s);
    CallsConserved(1, s);
  }

  lemma WalkToAbort(session: string) returns (s: State)
    ensures Reachable(1, s) && s.calls == map[0 := Call(WalkInfo(session, false), Aborted(InWait))]
  {
    ContinuesItself(Initial(1));
    s := WalkToWait(Initial(1), Initial(1), 0, session);
    ContinuesStep(Initial(1), s, Raise(0));
    s := Step(s, Raise(0));
    ContinuesStep(Initial(1), s, Advance(0));
    s := Step(s, Advance(0));
  }

  lemma AbortedAlone(s: State)
    requires s.calls.Keys == {0} && s.calls[0].place == Aborted(InWait)
    ensures CutShort(s.calls, true) == {0} && CutShort(s.calls, false) == {} && InProgress(s.calls) == {}
    ensures AllFinished(s) && |s.calls| == 1
  {
    assert |s.calls| == |s.calls.Keys|;
  }

  /** The action is an exception after the attempt was recorded. */
  predicate Cuts(s: State, a: Action)
    requires Enabled(s, a)
  {
    a.Raise? && !s.calls[a.id].place.Starting?
  }

  /** Some exception of the run comes after its call's attempt was recorded. */
  ghost predicate CutsAttempt(s: State, actions: seq<Action>)
    decreases |actions|
  {
    actions != [] && Enabled(s, actions[0]) && (Cuts(s, actions[0]) || CutsAttempt(Step(s, actions[0]), actions[1..]))
  }

  lemma CutsStep(s: State, a: Action)
    requires Enabled(s, a)
    ensures CutShort(Step(s, a).calls, true) == CutShort(s.calls, true) + (if Cuts(s, a) then {a.id} else {})
  {
  }

  lemma {:induction false} CutsOfRun(s: State, actions: seq<Action>, t: State)
    requires Reaches(s, actions, t)
    ensures CutShort(t.calls, true) == {} <==> CutShort(s.calls, true) == {} && !CutsAttempt(s, actions)
    decreases |actions|
  {
    if actions != [] {
      CutsStep(s, actions[0]);
      CutsOfRun(Step(s, actions[0]), actions[1..], t);
    }
  }

  /** attempted = opened + failed + in progress holds after a run exactly when no exception of the run came
      after its call's attempt was recorded. */
  lemma PlainAttemptsExact(max: nat, actions: seq<Action>, s: State)
    requires max >= 1 && Reaches(Initial(max), actions, s)
    ensures s.metrics.attempted == s.metrics.openedCount + s.metrics.failedCount + |InProgress(s.calls)|
            <==> CutShort(s.calls, true) == {}
    ensures s.metrics.attempted == s.metrics.openedCount + s.metrics.failedCount + |InProgress(s.calls)|
            <==> !CutsAttempt(Initial(max), actions)
  {
    AttemptsConserved(max, s);
    CutsOfRun(Initial(max), actions, s);
  }

  lemma {:induction false} LeaksNeverShrink(s: State, actions: seq<Action>, t: State)
    requires Reaches(s, actions, t)
    ensures LeakedCalls(s.calls) <= LeakedCalls(t.calls)
    decreases |actions|
  {
    if actions != [] {
      LeaksStep(s, actions[0]);
      LeaksNeverShrink(Step(s, actions[0]), actions[1..], t);
    }
  }

  lemma LeaksBounded(s: State)
    requires Inv(s)
    ensures |LeakedCalls(s.calls)| <= s.slots.inFlight <= s.slots.max
  {
    assert Meter(s, Holding) == Count(s.calls, Holding);
    SubsetSize(LeakedCalls(s.calls), Matching(s.calls, Holding));
  }

  /** Once as many threads have failed to start as there are slots, every later call that reaches the slot is
      throttled, for good. */
  lemma LeaksThrottleForGood(max: nat, s: State, actions: seq<Action>, t: State, id: nat)
    requires Reachable(max, s) && Reaches(s, actions, t)
    requires |LeakedCalls(s.calls)| >= max && id in t.calls && t.calls[id].place.Acquiring?
    ensures Step(t, Advance(id)).calls[id].place == Counting(Throttled)
  {
    ReachableInv(max, s);
    InvReaches(s, actions, t);
    LeaksNeverShrink(s, actions, t);
    SubsetSize(LeakedCalls(s.calls), LeakedCalls(t.calls));
    LeaksBounded(t);
  }

  /** When every call has returned, no slot is taken, every attempt has a result, and the reported peak
      is the guard's. */
  lemma AllDone(max: nat, s: State)
    requires Reachable(max, s)
    requires forall id :: id in s.calls ==> s.calls[id].place.Done?
    ensures s.slots.inFlight == 0
    ensures s.metrics.attempted == s.metrics.openedCount + s.metrics.failedCount
    ensures s.metrics.peak == s.slots.peak
    ensures |s.calls| == s.metrics.skippedCount + s.metrics.dedupedCount + s.metrics.throttledCount
                       + s.metrics.openedCount + s.metrics.failedCount
  {
    ReachableInv(max, s);
    AttemptsConserved(max, s);
    CallsConserved(max, s);
    SlotsReturned(max, s);
    NothingLeft(s.calls);
  }

  lemma NothingLeft(c: map<nat, Call>)
    requires forall id :: id in c ==> c[id].place.Done?
    ensures Undecided(c) == {} && Slotted(c) == {} && InProgress(c) == {} && LeakedCalls(c) == {}
    ensures CutShort(c, true) == {} && CutShort(c, false) == {}
  {
  }

  /** The steps a call still has before it. */
  function Rank(c: Call): nat {
    match c.place
    case Entered => 10
    case Guarding => 9
    case Acquiring => 8
    case Starting => 7
    case Waiting => 6
    case Opening => 5
    case Answered(_) => 4
    case Counting(_) => 3
    case Reporting(_, holding) => if holding then 3 else 2
    case Recording(_, holding, _) => if holding then 2 else 1
    case Releasing(_) => if c.info.background then 1 else 3
    case Unwinding(_) => 1
    case _ => 0
  }

  function RankIn(s: State, id: nat): nat {
    if id in s.calls then Rank(s.calls[id]) else 11
  }

  function Moves(actions: seq<Action>, id: nat): nat {
    if actions == [] then 0 else One(Moved(actions[0]) == Some(id)) + Moves(actions[1..], id)
  }

  /** No call is ever stuck: until it has finished, one of its steps is enabled. */
  lemma NeverStuck(s: State, id: nat)
    requires id in s.calls && !Finished(s.calls[id].place)
    ensures exists a :: Enabled(s, a) && Moved(a) == Some(id)
  {
    var a := if s.calls[id].place.Opening? then BackendReturns(id, false) else Advance(id);
    assert Enabled(s, a) && Moved(a) == Some(id);
  }

  lemma RankBounded(s: State, id: nat)
    ensures RankIn(s, id) <= 11
  {
  }

  lemma RankStep(s: State, a: Action, id: nat)
    requires PlacesOk(s) && Enabled(s, a)
    ensures RankIn(Step(s, a), id) + One(Moved(a) == Some(id)) <= RankIn(s, id)
  {
    if Moved(a) != Some(id) {
      OthersStay(s, a, id);
    } else if a.Advance? {
      AdvanceRank(s, id);
    }
  }

  lemma AdvanceRank(s: State, id: nat)
    requires PlacesOk(s) && Enabled(s, Advance(id))
    ensures id in Step(s, Advance(id)).calls && Rank(Step(s, Advance(id)).calls[id]) < Rank(s.calls[id])
  {
    assert PlaceOk(s, s.calls[id]);
  }

  /** Whatever else runs, a call takes at most eleven steps from its arrival to its end. */
  lemma {:induction false} CallsTerminate(s: State, actions: seq<Action>, t: State, id: nat)
    requires Inv(s) && Reaches(s, actions, t)
    ensures Moves(actions, id) + RankIn(t, id) <= RankIn(s, id) <= 11
    decreases |actions|
  {
    RankBounded(s, id);
    if actions != [] {
      InvStep(s, actions[0]);
      RankStep(s, actions[0], id);
      CallsTerminate(Step(s, actions[0]), actions[1..], t, id);
    }
  }
}
