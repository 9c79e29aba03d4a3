/**
 Survivability scoring, threshold validation and the integrity checks on stress outcomes. Floats are
 exact reals, so no duration or score is infinite or not-a-number.
 */
module StressOutcomes {
  import opened Prelude
  import opened Arithmetic
  import Sequences

  datatype Signal = Signal(kind: string, detail: string, value: real)

  datatype Thresholds = Thresholds(
    maxDroppedFrames: Option<int>, maxReplayDriftMs: Option<real>, maxWebsocketBacklog: Option<int>,
    maxMemoryGrowthBytes: Option<int>, minFps: Option<real>, maxEmergencyTransitions: Option<int>,
    minSurvivabilityScore: Option<real>)

  datatype Observed = Observed(
    droppedFrames: int, replayDriftMs: real, websocketBacklog: int, memoryGrowthBytes: int,
    fps: Option<real>, emergencyTransitions: int, survivabilityScore: Option<real>)

  datatype Violation = Violation(metric: string, observed: real, limit: real)

  datatype Verdict = Passed | Warned | Failed | Errored

  datatype Outcome = Outcome(
    name: string, verdict: Verdict, durationS: real,
    operationsCompleted: int, operationsFailed: int, overloadTransitions: int, emergencyActions: int,
    websocketDisconnects: int, replayFrames: int, renderFrames: int, peakMemoryBytes: int,
    survivabilityScore: real, violations: seq<Violation>, errorDetail: string)

  datatype FindingKind = NegativeCounter | DurationNonFinite | ScoreOutOfRange | ViolationWithoutMetric | ErroredWithoutDetail

  /** How a scenario ended: normally, over its budget, or with an exception. */
  datatype Ending = Completed | TimedOut(budget: string) | Raised(typeName: string, message: string)

  function ErrorDetail(ending: Ending): string {
    match ending
    case Completed => ""
    case TimedOut(budget) => "scenario exceeded budget (" + budget + "s)"
    case Raised(typeName, message) => typeName + ": " + message
  }

  function FailureRatio(completed: nat, failed: nat): real {
    failed as real / Max(1, completed + failed) as real
  }

  function SurvivabilityScore(completed: nat, failed: nat, overloads: nat, emergencies: nat, disconnects: nat): real {
    var score := 1.0
      - Least(0.5, FailureRatio(completed, failed) * 0.75)
      - Least(0.2, overloads as real * 0.02)
      - Least(0.2, emergencies as real * 0.05)
      - Least(0.2, disconnects as real * 0.005);
    if Least(1.0, score) >= 0.0 then Least(1.0, score) else 0.0
  }

  // ---- the score ----

  lemma RatioBounds(completed: nat, failed: nat)
    ensures 0.0 <= FailureRatio(completed, failed) <= 1.0
  {
    var total := Max(1, completed + failed);
    DivideBounds(failed as real, total as real, 0.0, 1.0);
  }

  lemma RatioMonotone(completed: nat, completed': nat, failed: nat, failed': nat)
    requires completed' <= completed && failed <= failed'
    ensures FailureRatio(completed, failed) <= FailureRatio(completed', failed')
  {
    RatioBounds(completed', failed');
    if failed > 0 {
      CrossRatio(failed as real, completed as real, failed' as real, completed' as real);
    }
  }

  lemma CrossRatio(f: real, c: real, f': real, c': real)
    requires 0.0 < f <= f' && 0.0 <= c' <= c
    ensures f / (c + f) <= f' / (c' + f')
  {
    var a, b := f / (c + f), f' / (c' + f');
    DivMul(f, c + f);
    DivMul(f', c' + f');
    assert f * (c' + f') <= f' * (c + f) by {
      MulOrder(f, c', c);
      MulOrder(c, f, f');
      assert f * (c' + f') == f * c' + f * f' && f' * (c + f) == c * f' + f * f';
    }
    CrossCancel(a, b, f, c + f, f', c' + f');
  }

  lemma CrossCancel(a: real, b: real, f: real, n: real, f': real, n': real)
    requires n > 0.0 && n' > 0.0 && a * n == f && b * n' == f' && f * n' <= f' * n
    ensures a <= b
  {
    assert a * (n * n') == f * n' && b * (n * n') == f' * n;
    assert n * n' > 0.0;
    MulCancel(n * n', a, b);
  }

  /** The score lies in [0, 1], and is 1 exactly when nothing went wrong. */
  lemma ScoreBounds(completed: nat, failed: nat, overloads: nat, emergencies: nat, disconnects: nat)
    ensures 0.0 <= SurvivabilityScore(completed, failed, overloads, emergencies, disconnects) <= 1.0
    ensures SurvivabilityScore(completed, failed, overloads, emergencies, disconnects) == 1.0
       <==> failed == overloads == emergencies == disconnects == 0
  {
    RatioBounds(completed, failed);
    if failed > 0 {
      var total := Max(1, completed + failed) as real;
      DivMul(failed as real, total);
      assert FailureRatio(completed, failed) * total > 0.0;
      assert FailureRatio(completed, failed) > 0.0;
    }
  }

  /** Fewer completions, or more of any kind of trouble, never raises the score. */
  lemma ScoreMonotone(completed: nat, completed': nat, failed: nat, failed': nat, overloads: nat, overloads': nat,
                      emergencies: nat, emergencies': nat, disconnects: nat, disconnects': nat)
    requires completed' <= completed && failed <= failed' && overloads <= overloads'
    requires emergencies <= emergencies' && disconnects <= disconnects'
    ensures SurvivabilityScore(completed', failed', overloads', emergencies', disconnects')
         <= SurvivabilityScore(completed, failed, overloads, emergencies, disconnects)
  {
    RatioMonotone(completed, completed', failed, failed');
  }

  // ---- thresholds ----

  function Above(metric: string, observed: real, limit: Option<real>): seq<Violation> {
    if limit.Some? && observed > limit.value then [Violation(metric, observed, limit.value)] else []
  }

  function Below(metric: string, observed: Option<real>, limit: Option<real>): seq<Violation> {
    if limit.Some? && observed.Some? && observed.value < limit.value
    then [Violation(metric, observed.value, limit.value)] else []
  }

  function AsReal(x: Option<int>): Option<real> {
    match x
    case None => None
    case Some(v) => Some(v as real)
  }

  /** The limits exceeded, in the source's fixed order. */
  function Violations(t: Thresholds, o: Observed): seq<Violation> {
    Above("dropped_frames", o.droppedFrames as real, AsReal(t.maxDroppedFrames))
    + Above("replay_drift_ms", o.replayDriftMs, t.maxReplayDriftMs)
    + Above("websocket_backlog", o.websocketBacklog as real, AsReal(t.maxWebsocketBacklog))
    + Above("memory_growth_bytes", o.memoryGrowthBytes as real, AsReal(t.maxMemoryGrowthBytes))
    + Below("fps", o.fps, t.minFps)
    + Above("emergency_transitions", o.emergencyTransitions as real, AsReal(t.maxEmergencyTransitions))
    + Below("survivability_score", o.survivabilityScore, t.minSurvivabilityScore)
  }

  ghost predicate AtMost(observed: real, limit: Option<real>) {
    limit.Some? ==> observed <= limit.value
  }

  ghost predicate AtLeast(observed: Option<real>, limit: Option<real>) {
    limit.Some? && observed.Some? ==> observed.value >= limit.value
  }

  /** Every configured limit is met. */
  ghost predicate WithinLimits(t: Thresholds, o: Observed) {
    && AtMost(o.droppedFrames as real, AsReal(t.maxDroppedFrames))
    && AtMost(o.replayDriftMs, t.maxReplayDriftMs)
    && AtMost(o.websocketBacklog as real, AsReal(t.maxWebsocketBacklog))
    && AtMost(o.memoryGrowthBytes as real, AsReal(t.maxMemoryGrowthBytes))
    && AtLeast(o.fps, t.minFps)
    && AtMost(o.emergencyTransitions as real, AsReal(t.maxEmergencyTransitions))
    && AtLeast(o.survivabilityScore, t.minSurvivabilityScore)
  }

  function VerdictFor(violations: seq<Violation>, errored: bool, warnOnly: bool): Verdict {
    if errored then Errored
    else if violations == [] then Passed
    else if warnOnly then Warned else Failed
  }

  /** A scenario passes exactly when it did not error and met every configured limit. */
  lemma PassedIffWithinLimits(t: Thresholds, o: Observed, errored: bool, warnOnly: bool)
    ensures VerdictFor(if errored then [] else Violations(t, o), errored, warnOnly) == Passed
       <==> !errored && WithinLimits(t, o)
    ensures AllNamed(Violations(t, o))
  {
    ViolationsExact(t, o);
  }

  ghost predicate AllNamed(violations: seq<Violation>) {
    forall v :: v in violations ==> v.metric != ""
  }

  lemma AboveExact(metric: string, observed: real, limit: Option<real>)
    ensures Above(metric, observed, limit) == [] <==> AtMost(observed, limit)
    ensures metric != "" ==> AllNamed(Above(metric, observed, limit))
  {
  }

  lemma BelowExact(metric: string, observed: Option<real>, limit: Option<real>)
    ensures Below(metric, observed, limit) == [] <==> AtLeast(observed, limit)
    ensures metric != "" ==> AllNamed(Below(metric, observed, limit))
  {
  }

  lemma ViolationsExact(t: Thresholds, o: Observed)
    ensures Violations(t, o) == [] <==> WithinLimits(t, o)
    ensures AllNamed(Violations(t, o))
  {
    AboveExact("dropped_frames", o.droppedFrames as real, AsReal(t.maxDroppedFrames));
    AboveExact("replay_drift_ms", o.replayDriftMs, t.maxReplayDriftMs);
    AboveExact("websocket_backlog", o.websocketBacklog as real, AsReal(t.maxWebsocketBacklog));
    AboveExact("memory_growth_bytes", o.memoryGrowthBytes as real, AsReal(t.maxMemoryGrowthBytes));
    BelowExact("fps", o.fps, t.minFps);
    AboveExact("emergency_transitions", o.emergencyTransitions as real, AsReal(t.maxEmergencyTransitions));
    BelowExact("survivability_score", o.survivabilityScore, t.minSurvivabilityScore);
  }

  /** A limit that is configured and exceeded, with what was observed. */
  predicate Exceeds(t: Thresholds, o: Observed, v: Violation) {
    || (v.metric == "dropped_frames" && Over(o.droppedFrames as real, AsReal(t.maxDroppedFrames), v))
    || (v.metric == "replay_drift_ms" && Over(o.replayDriftMs, t.maxReplayDriftMs, v))
    || (v.metric == "websocket_backlog" && Over(o.websocketBacklog as real, AsReal(t.maxWebsocketBacklog), v))
    || (v.metric == "memory_growth_bytes" && Over(o.memoryGrowthBytes as real, AsReal(t.maxMemoryGrowthBytes), v))
    || (v.metric == "fps" && Under(o.fps, t.minFps, v))
    || (v.metric == "emergency_transitions" && Over(o.emergencyTransitions as real, AsReal(t.maxEmergencyTransitions), v))
    || (v.metric == "survivability_score" && Under(o.survivabilityScore, t.minSurvivabilityScore, v))
  }

  predicate Over(observed: real, limit: Option<real>, v: Violation) {
    v.observed == observed && limit == Some(v.limit) && observed > v.limit
  }

  predicate Under(observed: Option<real>, limit: Option<real>, v: Violation) {
    Some(v.observed) == observed && limit == Some(v.limit) && v.observed < v.limit
  }

  lemma AboveListed(metric: string, observed: real, limit: Option<real>, v: Violation)
    ensures v in Above(metric, observed, limit) <==> v.metric == metric && Over(observed, limit, v)
  {
  }

  lemma BelowListed(metric: string, observed: Option<real>, limit: Option<real>, v: Violation)
    ensures v in Below(metric, observed, limit) <==> v.metric == metric && Under(observed, limit, v)
  {
  }

  /** The violations reported are the limits exceeded, each with what was observed. */
  lemma ViolationsListed(t: Thresholds, o: Observed, v: Violation)
    ensures v in Violations(t, o) <==> Exceeds(t, o, v)
  {
    AboveListed("dropped_frames", o.droppedFrames as real, AsReal(t.maxDroppedFrames), v);
    AboveListed("replay_drift_ms", o.replayDriftMs, t.maxReplayDriftMs, v);
    AboveListed("websocket_backlog", o.websocketBacklog as real, AsReal(t.maxWebsocketBacklog), v);
    AboveListed("memory_growth_bytes", o.memoryGrowthBytes as real, AsReal(t.maxMemoryGrowthBytes), v);
    BelowListed("fps", o.fps, t.minFps, v);
    AboveListed("emergency_transitions", o.emergencyTransitions as real, AsReal(t.maxEmergencyTransitions), v);
    BelowListed("survivability_score", o.survivabilityScore, t.minSurvivabilityScore, v);
  }

  // ---- aggregation ----

  function CountSignals(signals: seq<Signal>, p: Signal -> bool): nat {
    |Sequences.Filter(signals, p)|
  }

  function OfKind(kind: string): Signal -> bool {
    (s: Signal) => s.kind == kind
  }

  predicate Contains(text: string, part: string) {
    part <= text || (text != [] && Contains(text[1..], part))
  }

  function DroppedFrame(): Signal -> bool {
    (s: Signal) => s.kind == "failure" && Contains(s.detail, "render-frame-overrun")
  }

  /** The value of the last backlog_peak signal, or 0. */
  function WebsocketBacklog(signals: seq<Signal>): int {
    if signals == [] then 0
    else
      var s := signals[|signals| - 1];
      if s.kind == "custom" && Contains(s.detail, "backlog_peak") then Truncate(s.value)
      else WebsocketBacklog(signals[..|signals| - 1])
  }

  function Observe(signals: seq<Signal>, durationS: real, peakBytes: int, rendered: nat, emergencies: nat, score: real)
    : Observed
  {
    Observed(CountSignals(signals, DroppedFrame()), 0.0, WebsocketBacklog(signals), peakBytes,
             if rendered > 0 && durationS > 0.0 then Some(rendered as real / durationS) else None, emergencies,
             Some(score))
  }

  function AggregateOutcome(name: string, signals: seq<Signal>, t: Thresholds, durationS: real, ending: Ending,
                            warnOnly: bool, peakBytes: int): Outcome
  {
    var completed := CountSignals(signals, OfKind("operation"));
    var failed := CountSignals(signals, OfKind("failure"));
    var overloads := CountSignals(signals, OfKind("overload"));
    var emergencies := CountSignals(signals, OfKind("emergency"));
    var disconnects := CountSignals(signals, OfKind("websocket-disconnect"));
    var rendered := CountSignals(signals, OfKind("render-frame"));
    var score := SurvivabilityScore(completed, failed, overloads, emergencies, disconnects);
    var errored := !ending.Completed?;
    var violations := if errored then [] else Violations(t, Observe(signals, durationS, peakBytes, rendered, emergencies, score));
    Outcome(name, VerdictFor(violations, errored, warnOnly), durationS,
            completed, failed, overloads, emergencies, disconnects,
            CountSignals(signals, OfKind("replay-frame")), rendered, peakBytes,
            score, violations, ErrorDetail(ending))
  }

  // ---- what an outcome says of its signals ----

  /** How many of the signals are of a kind. */
  ghost function OfTheKind(signals: seq<Signal>, kind: string): nat {
    |set i | 0 <= i < |signals| && signals[i].kind == kind|
  }

  ghost function Places(signals: seq<Signal>, p: Signal -> bool): set<int> {
    set i | 0 <= i < |signals| && p(signals[i])
  }

  lemma {:induction false} PlacesGrow(signals: seq<Signal>, p: Signal -> bool)
    requires signals != []
    ensures var n := |signals| - 1;
            n !in Places(signals[..n], p)
            && Places(signals, p) == if p(signals[n]) then Places(signals[..n], p) + {n} else Places(signals[..n], p)
  {
  }

  lemma {:induction false} CountIsCardinality(signals: seq<Signal>, p: Signal -> bool)
    ensures CountSignals(signals, p) == |Places(signals, p)|
  {
    if signals != [] {
      CountIsCardinality(signals[..|signals| - 1], p);
      Sequences.FilterLast(signals, p);
      PlacesGrow(signals, p);
    }
  }

  lemma KindCounted(signals: seq<Signal>, kind: string)
    ensures CountSignals(signals, OfKind(kind)) == OfTheKind(signals, kind)
  {
    CountIsCardinality(signals, OfKind(kind));
    assert Places(signals, OfKind(kind)) == (set i | 0 <= i < |signals| && signals[i].kind == kind);
  }

  /** Each counter of an outcome is the number of signals of its kind. */
  lemma OutcomeCounts(name: string, signals: seq<Signal>, t: Thresholds, durationS: real, ending: Ending,
                      warnOnly: bool, peakBytes: int)
    ensures var o := AggregateOutcome(name, signals, t, durationS, ending, warnOnly, peakBytes);
            && o.operationsCompleted == OfTheKind(signals, "operation")
            && o.operationsFailed == OfTheKind(signals, "failure")
            && o.overloadTransitions == OfTheKind(signals, "overload")
            && o.emergencyActions == OfTheKind(signals, "emergency")
            && o.websocketDisconnects == OfTheKind(signals, "websocket-disconnect")
            && o.replayFrames == OfTheKind(signals, "replay-frame")
            && o.renderFrames == OfTheKind(signals, "render-frame")
  {
    KindCounted(signals, "operation");
    KindCounted(signals, "failure");
    KindCounted(signals, "overload");
    KindCounted(signals, "emergency");
    KindCounted(signals, "websocket-disconnect");
    KindCounted(signals, "replay-frame");
    KindCounted(signals, "render-frame");
  }

  /** The frames dropped and the backlog, as the thresholds see them. */
  lemma ObservedExactly(signals: seq<Signal>, durationS: real, peakBytes: int, rendered: nat, emergencies: nat, score: real)
    ensures var o := Observe(signals, durationS, peakBytes, rendered, emergencies, score);
            && o.droppedFrames == |set i | 0 <= i < |signals| && signals[i].kind == "failure"
                                           && Mentions(signals[i].detail, "render-frame-overrun")|
            && (forall i :: LastBacklog(signals, i) ==> o.websocketBacklog == Truncate(signals[i].value))
            && ((forall i :: 0 <= i < |signals| ==> !IsBacklog(signals[i])) ==> o.websocketBacklog == 0)
  {
    CountIsCardinality(signals, DroppedFrame());
    forall i | 0 <= i < |signals|
      ensures Contains(signals[i].detail, "render-frame-overrun") <==> Mentions(signals[i].detail, "render-frame-overrun")
    {
      ContainsExactly(signals[i].detail, "render-frame-overrun");
    }
    assert (set i | 0 <= i < |signals| && DroppedFrame()(signals[i]))
        == (set i | 0 <= i < |signals| && signals[i].kind == "failure" && Mentions(signals[i].detail, "render-frame-overrun"));
    BacklogExactly(signals);
  }

  /** The rest of what they see: the frame rate, if there are frames and time, and the figures as given. */
  lemma RatesExactly(signals: seq<Signal>, durationS: real, peakBytes: int, rendered: nat, emergencies: nat, score: real)
    ensures var o := Observe(signals, durationS, peakBytes, rendered, emergencies, score);
            && (o.fps.Some? <==> rendered > 0 && durationS > 0.0)
            && (o.fps.Some? ==> o.fps.value * durationS == rendered as real)
            && o.replayDriftMs == 0.0 && o.memoryGrowthBytes == peakBytes && o.emergencyTransitions == emergencies
            && o.survivabilityScore == Some(score)
  {
    if durationS > 0.0 {
      DivMul(rendered as real, durationS);
    }
  }

  ghost predicate Mentions(text: string, part: string) {
    exists i :: StandsAt(text, part, i)
  }

  predicate StandsAt(text: string, part: string, i: int) {
    0 <= i <= |text| && part <= text[i..]
  }

  lemma {:induction false} ContainsExactly(text: string, part: string)
    ensures Contains(text, part) <==> Mentions(text, part)
  {
    assert text[0..] == text;
    if part <= text {
      assert StandsAt(text, part, 0);
    } else if text != [] {
      ContainsExactly(text[1..], part);
      if i :| StandsAt(text[1..], part, i) {
        assert text[1..][i..] == text[i + 1..];
        assert StandsAt(text, part, i + 1);
      }
      if i :| StandsAt(text, part, i) {
        assert i > 0 && text[1..][i - 1..] == text[i..];
        assert StandsAt(text[1..], part, i - 1);
      }
    }
  }

  ghost predicate IsBacklog(s: Signal) {
    s.kind == "custom" && Mentions(s.detail, "backlog_peak")
  }

  ghost predicate LastBacklog(signals: seq<Signal>, i: int) {
    0 <= i < |signals| && IsBacklog(signals[i]) && forall j :: i < j < |signals| ==> !IsBacklog(signals[j])
  }

  lemma {:induction false} BacklogExactly(signals: seq<Signal>)
    ensures forall i :: LastBacklog(signals, i) ==> WebsocketBacklog(signals) == Truncate(signals[i].value)
    ensures (forall i :: 0 <= i < |signals| ==> !IsBacklog(signals[i])) ==> WebsocketBacklog(signals) == 0
  {
    if signals != [] {
      var n := |signals| - 1;
      BacklogExactly(signals[..n]);
      ContainsExactly(signals[n].detail, "backlog_peak");
      forall i | LastBacklog(signals, i) ensures WebsocketBacklog(signals) == Truncate(signals[i].value) {
        if i < n {
          assert LastBacklog(signals[..n], i);
        }
      }
    }
  }

  /** The verdict of an outcome: errored when the scenario did not complete; else passed within every limit; else
      warned or failed, as the caller asked. */
  lemma VerdictExactly(name: string, signals: seq<Signal>, t: Thresholds, durationS: real, ending: Ending,
                       warnOnly: bool, peakBytes: int)
    ensures var o := AggregateOutcome(name, signals, t, durationS, ending, warnOnly, peakBytes);
            var within := WithinLimits(t, Observe(signals, durationS, peakBytes, o.renderFrames, o.emergencyActions,
                                                  o.survivabilityScore));
            o.verdict == if ending.TimedOut? || ending.Raised? then Errored else if within then Passed
                         else if warnOnly then Warned else Failed
  {
    var o := AggregateOutcome(name, signals, t, durationS, ending, warnOnly, peakBytes);
    ViolationsExact(t, Observe(signals, durationS, peakBytes, o.renderFrames, o.emergencyActions, o.survivabilityScore));
  }

  /** Each kind of trouble costs by itself, up to its cap: half for failures, a fifth for each of the others. */
  lemma SingleLosses(completed: nat, n: nat)
    ensures SurvivabilityScore(completed, n, 0, 0, 0) == 1.0 - Least(0.5, 0.75 * FailureRatio(completed, n))
    ensures SurvivabilityScore(completed, 0, n, 0, 0) == 1.0 - Least(0.2, n as real / 50.0)
    ensures SurvivabilityScore(completed, 0, 0, n, 0) == 1.0 - Least(0.2, n as real / 20.0)
    ensures SurvivabilityScore(completed, 0, 0, 0, n) == 1.0 - Least(0.2, n as real / 200.0)
  {
    RatioBounds(completed, n);
    RatioBounds(completed, 0);
  }

  /** The failures among all the operations. */
  lemma FailuresShare(completed: nat, failed: nat)
    ensures FailureRatio(completed, failed) * Max(1, completed + failed) as real == failed as real
  {
    DivMul(failed as real, Max(1, completed + failed) as real);
  }

  /** Together they add up, to a whole at most. */
  lemma LossesAddUp(completed: nat, failed: nat, overloads: nat, emergencies: nat, disconnects: nat)
    ensures 1.0 - SurvivabilityScore(completed, failed, overloads, emergencies, disconnects)
         == Least(1.0, (1.0 - SurvivabilityScore(completed, failed, 0, 0, 0))
                       + (1.0 - SurvivabilityScore(completed, 0, overloads, 0, 0))
                       + (1.0 - SurvivabilityScore(completed, 0, 0, emergencies, 0))
                       + (1.0 - SurvivabilityScore(completed, 0, 0, 0, disconnects)))
  {
    RatioBounds(completed, failed);
    RatioBounds(completed, 0);
  }

  // ---- integrity ----

  function Counters(o: Outcome): seq<int> {
    [o.operationsCompleted, o.operationsFailed, o.overloadTransitions, o.emergencyActions,
     o.websocketDisconnects, o.replayFrames, o.renderFrames, o.peakMemoryBytes]
  }

  /** The outcome meets every invariant the integrity module lists. */
  ghost predicate Clean(o: Outcome) {
    && (forall c :: c in Counters(o) ==> c >= 0)
    && o.durationS >= 0.0
    && 0.0 <= o.survivabilityScore <= 1.0
    && AllNamed(o.violations)
    && (o.verdict == Errored ==> o.errorDetail != "")
  }

  ghost predicate AnyNegative(counters: seq<int>) {
    exists c :: c in counters && c < 0
  }

  lemma AnyNegativeAppend(counters: seq<int>, c: int)
    ensures AnyNegative(counters + [c]) <==> AnyNegative(counters) || c < 0
  {
    var all := counters + [c];
    assert all[|counters|] in all;
    assert forall x :: x in counters ==> x in all;
  }

  ghost predicate AnyUnnamed(violations: seq<Violation>) {
    exists v :: v in violations && v.metric == ""
  }

  /** check_outcome reports each kind of finding exactly when its invariant is broken. */
  method CheckOutcome(o: Outcome) returns (findings: seq<FindingKind>)
    ensures NegativeCounter in findings <==> AnyNegative(Counters(o))
    ensures DurationNonFinite in findings <==> o.durationS < 0.0
    ensures ScoreOutOfRange in findings <==> !(0.0 <= o.survivabilityScore <= 1.0)
    ensures ViolationWithoutMetric in findings <==> AnyUnnamed(o.violations)
    ensures ErroredWithoutDetail in findings <==> o.verdict == Errored && o.errorDetail == ""
    ensures findings == [] <==> Clean(o)
  {
    findings := [];
    var counters := Counters(o);
    for i := 0 to |counters|
      invariant forall f :: f in findings <==> f == NegativeCounter && AnyNegative(counters[..i])
    {
      assert counters[..i + 1] == counters[..i] + [counters[i]];
      AnyNegativeAppend(counters[..i], counters[i]);
      if counters[i] < 0 {
        findings := findings + [NegativeCounter];
      }
    }
    assert counters[..|counters|] == counters;
    if o.durationS < 0.0 {
      findings := findings + [DurationNonFinite];
    }
    if !(0.0 <= o.survivabilityScore <= 1.0) {
      findings := findings + [ScoreOutOfRange];
    }
    ghost var before := findings;
    for i := 0 to |o.violations|
      invariant forall f :: f in findings <==> f in before || (f == ViolationWithoutMetric && AnyUnnamed(o.violations[..i]))
    {
      assert o.violations[..i + 1] == o.violations[..i] + [o.violations[i]];
      if o.violations[i].metric == "" {
        assert o.violations[i] in o.violations[..i + 1];
        findings := findings + [ViolationWithoutMetric];
      }
    }
    assert o.violations[..|o.violations|] == o.violations;
    if o.verdict == Errored && o.errorDetail == "" {
      findings := findings + [ErroredWithoutDetail];
    }
    NoFindings(findings, o);
  }

  lemma NoFindings(findings: seq<FindingKind>, o: Outcome)
    requires NegativeCounter in findings <==> AnyNegative(Counters(o))
    requires DurationNonFinite in findings <==> o.durationS < 0.0
    requires ScoreOutOfRange in findings <==> !(0.0 <= o.survivabilityScore <= 1.0)
    requires ViolationWithoutMetric in findings <==> AnyUnnamed(o.violations)
    requires ErroredWithoutDetail in findings <==> o.verdict == Errored && o.errorDetail == ""
    ensures findings == [] <==> Clean(o)
  {
    if findings != [] {
      var f := findings[0];
      assert f in findings;
      match f
      case NegativeCounter =>
      case DurationNonFinite =>
      case ScoreOutOfRange =>
      case ViolationWithoutMetric =>
      case ErroredWithoutDetail =>
    }
  }

  /** Whatever the signals, thresholds and ending, the runner's outcome is clean. */
  lemma RunnerOutcomesAreClean(name: string, signals: seq<Signal>, t: Thresholds, durationS: real, ending: Ending,
                               warnOnly: bool, peakBytes: int)
    requires durationS >= 0.0 && peakBytes >= 0
    ensures Clean(AggregateOutcome(name, signals, t, durationS, ending, warnOnly, peakBytes))
  {
    var o := AggregateOutcome(name, signals, t, durationS, ending, warnOnly, peakBytes);
    ScoreBounds(o.operationsCompleted, o.operationsFailed, o.overloadTransitions, o.emergencyActions,
                o.websocketDisconnects);
    NoNegatives(o);
    ErrorsNamed(ending);
    RunnerViolationsNamed(name, signals, t, durationS, ending, warnOnly, peakBytes);
  }

  lemma NoNegatives(o: Outcome)
    requires o.operationsCompleted >= 0 && o.operationsFailed >= 0 && o.overloadTransitions >= 0
    requires o.emergencyActions >= 0 && o.websocketDisconnects >= 0 && o.replayFrames >= 0
    requires o.renderFrames >= 0 && o.peakMemoryBytes >= 0
    ensures forall c :: c in Counters(o) ==> c >= 0
  {
  }

  lemma ErrorsNamed(ending: Ending)
    ensures !ending.Completed? ==> ErrorDetail(ending) != ""
  {
    match ending
    case Completed =>
    case TimedOut(budget) => assert |ErrorDetail(ending)| > 0;
    case Raised(typeName, message) => assert |ErrorDetail(ending)| > 0;
  }

  lemma RunnerViolationsNamed(name: string, signals: seq<Signal>, t: Thresholds, durationS: real, ending: Ending,
                              warnOnly: bool, peakBytes: int)
    ensures var o := AggregateOutcome(name, signals, t, durationS, ending, warnOnly, peakBytes);
            AllNamed(o.violations) && (o.verdict == Errored ==> !ending.Completed?)
  {
    var o := AggregateOutcome(name, signals, t, durationS, ending, warnOnly, peakBytes);
    ViolationsExact(t, Observe(signals, durationS, peakBytes, o.renderFrames, o.emergencyActions, o.survivabilityScore));
  }
}
