/**
 The sample workload: producers and consumers on one bounded asyncio queue, a stop flag, cancellation
 of every task at whatever await it is suspended in, and a final drain. A step of the machine is what
 one task does between two awaits, as the event loop of Python 3.12 runs it.
 */
module SampleRuntime {
  import opened Prelude

  datatype Item = Item(sequence: nat, producer: nat)

  datatype Config = Config(producers: nat, consumers: nat, queueSize: nat, burstSize: nat)

  /** The bounds the argument parser enforces. */
  predicate ConfigOk(c: Config) {
    c.producers >= 1 && c.consumers >= 1 && c.queueSize >= 1 && c.burstSize >= 2
  }

  /** Where a producer is suspended, or how it ended. */
  datatype Producer =
    | Paused(tick: nat)                          // in asyncio.sleep, or not started
    | Putting(item: Item, left: nat, tick: nat)  // in queue.put on a full queue; `left` puts of the burst to go
    | Stopped
    | Cancelled

  datatype Consumer =
    | Ready                                      // not started
    | Getting                                    // in wait_for(queue.get())
    | Processing(item: Item)                     // in asyncio.sleep, task_done still owed
    | Returned
    | Aborted

  datatype Phase = Working | Cancelling | Finished

  datatype State = State(
    queue: seq<Item>, unfinished: nat, overdone: bool, counter: nat,
    producers: seq<Producer>, consumers: seq<Consumer>, stop: bool, phase: Phase,
    produced: seq<Item>, entered: seq<Item>, taken: seq<Item>, dropped: seq<Item>, drained: seq<Item>)

  datatype Action =
    | WakeProducer(p: nat)
    | FinishPut(p: nat)
    | WakeConsumer(c: nat)       // the first step, or the half-second timeout
    | Receive(c: nat)            // a suspended get finds an item
    | FinishItem(c: nat)
    | Signal                     // SIGINT or SIGTERM
    | DurationElapses
    | MainWakes                  // stop.wait() returns
    | CancelProducer(p: nat)
    | CancelConsumer(c: nat)
    | Drain

  function Initial(cfg: Config): State {
    State([], 0, false, 0,
          seq(cfg.producers, i => Paused(0)), seq(cfg.consumers, i => Ready), false, Working,
          [], [], [], [], [])
  }

  /** Queue.task_done; at zero it raises, which the model records instead. */
  function TaskDone(s: State): State {
    if s.unfinished == 0 then s.(overdone := true) else s.(unfinished := s.unfinished - 1)
  }

  /** Queue.put_nowait on a queue with room. */
  function Enqueue(s: State, item: Item): State {
    s.(queue := s.queue + [item], unfinished := s.unfinished + 1, entered := s.entered + [item])
  }

  /** Queue.get_nowait on a queue with an item. */
  function Dequeue(s: State): State
    requires s.queue != []
  {
    s.(queue := s.queue[1..], taken := s.taken + [s.queue[0]])
  }

  function SetProducer(s: State, p: nat, place: Producer): State
    requires p < |s.producers|
  {
    s.(producers := s.producers[p := place])
  }

  function SetConsumer(s: State, c: nat, place: Consumer): State
    requires c < |s.consumers|
  {
    s.(consumers := s.consumers[c := place])
  }

  /** The shared counter hands the producer its next item. */
  function Produce(s: State, p: nat): State {
    s.(counter := s.counter + 1, produced := s.produced + [Item(s.counter + 1, p)])
  }

  /** Up to `left` puts in a row: a put on a queue with room does not suspend. */
  function Fill(s: State, cfg: Config, p: nat, left: nat, tick: nat): (r: State)
    requires p < |s.producers|
    ensures |r.producers| == |s.producers|
    decreases left
  {
    if left == 0 || s.stop then SetProducer(s, p, Paused(tick))
    else
      var item := Item(s.counter + 1, p);
      var t := Produce(s, p);
      if |t.queue| < cfg.queueSize then Fill(Enqueue(t, item), cfg, p, left - 1, tick)
      else SetProducer(t, p, Putting(item, left - 1, tick))
  }

  /** The top of the producer's loop: every eighth tick is a burst. */
  function ProducerTop(s: State, cfg: Config, p: nat, tick: nat): State
    requires p < |s.producers|
  {
    if s.stop then SetProducer(s, p, Stopped)
    else Fill(s, cfg, p, if (tick + 1) % 8 == 0 then cfg.burstSize else 1, tick + 1)
  }

  /** The top of the consumer's loop: get returns at once when the queue has an item. */
  function ConsumerTop(s: State, c: nat): State
    requires c < |s.consumers|
  {
    if s.stop then SetConsumer(s, c, Returned)
    else if s.queue == [] then SetConsumer(s, c, Getting)
    else SetConsumer(Dequeue(s), c, Processing(s.queue[0]))
  }

  function DrainQueue(s: State): State
    decreases |s.queue|
  {
    if s.queue == [] then s
    else DrainQueue(TaskDone(s.(queue := s.queue[1..], drained := s.drained + [s.queue[0]])))
  }

  predicate ProducerEnded(p: Producer) {
    p.Stopped? || p.Cancelled?
  }

  predicate ConsumerEnded(c: Consumer) {
    c.Returned? || c.Aborted?
  }

  predicate AllEnded(s: State) {
    (forall p :: p in s.producers ==> ProducerEnded(p)) && (forall c :: c in s.consumers ==> ConsumerEnded(c))
  }

  predicate Enabled(s: State, cfg: Config, a: Action) {
    match a
    case WakeProducer(p) => s.phase.Working? && p < |s.producers| && s.producers[p].Paused?
    case FinishPut(p) =>
      s.phase.Working? && p < |s.producers| && s.producers[p].Putting? && |s.queue| < cfg.queueSize
    case WakeConsumer(c) => s.phase.Working? && c < |s.consumers| && (s.consumers[c].Ready? || s.consumers[c].Getting?)
    case Receive(c) => s.phase.Working? && c < |s.consumers| && s.consumers[c].Getting? && s.queue != []
    case FinishItem(c) => s.phase.Working? && c < |s.consumers| && s.consumers[c].Processing?
    case Signal => s.phase.Working?
    case DurationElapses => s.phase.Working?
    case MainWakes => s.phase.Working? && s.stop
    case CancelProducer(p) => s.phase.Cancelling? && p < |s.producers| && !ProducerEnded(s.producers[p])
    case CancelConsumer(c) => s.phase.Cancelling? && c < |s.consumers| && !ConsumerEnded(s.consumers[c])
    case Drain => s.phase.Cancelling? && AllEnded(s)
  }

  function Step(s: State, cfg: Config, a: Action): State
    requires Enabled(s, cfg, a)
  {
    match a
    case WakeProducer(p) => ProducerTop(s, cfg, p, s.producers[p].tick)
    case FinishPut(p) =>
      var place := s.producers[p];
      Fill(SetProducer(Enqueue(s, place.item), p, Paused(place.tick)), cfg, p, place.left, place.tick)
    case WakeConsumer(c) => ConsumerTop(s, c)
    case Receive(c) => SetConsumer(Dequeue(s), c, Processing(s.queue[0]))
    case FinishItem(c) => ConsumerTop(SetConsumer(TaskDone(s), c, Ready), c)
    case Signal => s.(stop := true)
    case DurationElapses => s.(stop := true, phase := Cancelling)
    case MainWakes => s.(phase := Cancelling)
    case CancelProducer(p) =>
      var lost := if s.producers[p].Putting? then [s.producers[p].item] else [];
      SetProducer(s.(dropped := s.dropped + lost), p, Cancelled)
    case CancelConsumer(c) =>
      SetConsumer(if s.consumers[c].Processing? then TaskDone(s) else s, c, Aborted)
    case Drain => DrainQueue(s).(phase := Finished)
  }

  ghost predicate Reaches(s: State, cfg: Config, actions: seq<Action>, t: State)
    decreases |actions|
  {
    if actions == [] then s == t
    else Enabled(s, cfg, actions[0]) && Reaches(Step(s, cfg, actions[0]), cfg, actions[1..], t)
  }

  ghost predicate Reachable(cfg: Config, t: State) {
    ConfigOk(cfg) && exists actions :: Reaches(Initial(cfg), cfg, actions, t)
  }

  // ---- counting tasks ----

  function Tally<T>(s: seq<T>, test: T -> bool): nat {
    if s == [] then 0 else One(test(s[0])) + Tally(s[1..], test)
  }

  lemma {:induction false} TallyUpdate<T>(s: seq<T>, i: nat, x: T, test: T -> bool)
    requires i < |s|
    ensures Tally(s[i := x], test) + One(test(s[i])) == Tally(s, test) + One(test(x))
  {
    if i == 0 {
      assert s[i := x][1..] == s[1..];
    } else {
      assert s[i := x][1..] == s[1..][i - 1 := x];
      TallyUpdate(s[1..], i - 1, x, test);
    }
  }

  const IS_PROCESSING: Consumer -> bool := (c: Consumer) => c.Processing?
  const IS_PUTTING: Producer -> bool := (p: Producer) => p.Putting?
  const IS_CANCELLED: Producer -> bool := (p: Producer) => p.Cancelled?
  const PRODUCER_LIVE: Producer -> bool := (p: Producer) => !ProducerEnded(p)
  const CONSUMER_LIVE: Consumer -> bool := (c: Consumer) => !ConsumerEnded(c)

  /** How many producers are suspended in put with this very item. */
  function Holding(ps: seq<Producer>, item: Item): nat {
    if ps == [] then 0 else Holds(ps[0], item) + Holding(ps[1..], item)
  }

  function Holds(p: Producer, item: Item): nat {
    One(p.Putting? && p.item == item)
  }

  lemma {:induction false} HoldingUpdate(ps: seq<Producer>, i: nat, place: Producer, item: Item)
    requires i < |ps|
    ensures Holding(ps[i := place], item) + Holds(ps[i], item) == Holding(ps, item) + Holds(place, item)
  {
    if i == 0 {
      assert ps[i := place][1..] == ps[1..];
    } else {
      assert ps[i := place][1..] == ps[1..][i - 1 := place];
      HoldingUpdate(ps[1..], i - 1, place, item);
    }
  }

  function Count(items: seq<Item>, item: Item): nat {
    multiset(items)[item]
  }

  lemma CountAppend(items: seq<Item>, last: Item, item: Item)
    ensures Count(items + [last], item) == Count(items, item) + One(last == item)
  {
  }

  // ---- the invariant ----

  /** What left the queue, then what is in it, is what entered it, in order; and every item not yet
      acknowledged is in the queue or being processed. */
  ghost predicate QueueOk(s: State, cfg: Config) {
    && |s.queue| <= cfg.queueSize
    && s.entered == s.taken + s.drained + s.queue
    && s.unfinished == |s.queue| + Tally(s.consumers, IS_PROCESSING)
    && !s.overdone
  }

  /** Sequence numbers count up from one, and the counter counts the items in all their places. */
  ghost predicate NumbersOk(s: State) {
    && |s.produced| == s.counter
    && s.counter == |s.entered| + |s.dropped| + Tally(s.producers, IS_PUTTING)
    && (forall i :: 0 <= i < |s.produced| ==> s.produced[i].sequence == i + 1)
  }

  /** Every item produced has entered the queue, was dropped, or is held by a suspended put, once. */
  ghost predicate ItemsOk(produced: seq<Item>, entered: seq<Item>, dropped: seq<Item>, ps: seq<Producer>) {
    forall item :: ItemPlaced(produced, entered, dropped, ps, item)
  }

  ghost predicate ItemPlaced(produced: seq<Item>, entered: seq<Item>, dropped: seq<Item>, ps: seq<Producer>, item: Item) {
    Count(produced, item) == Count(entered, item) + Count(dropped, item) + Holding(ps, item)
  }

  ghost predicate NewerThanOwn(items: seq<Item>, item: Item) {
    forall i :: 0 <= i < |items| && items[i].producer == item.producer ==> items[i].sequence < item.sequence
  }

  ghost predicate InProducerOrder(items: seq<Item>) {
    forall i, j :: 0 <= i < j < |items| && items[i].producer == items[j].producer ==> items[i].sequence < items[j].sequence
  }

  /** No item is newer than the counter, and what a producer holds is newer than all it has queued. */
  ghost predicate OrderOk(entered: seq<Item>, counter: nat, ps: seq<Producer>) {
    && InProducerOrder(entered)
    && (forall i :: 0 <= i < |entered| ==> entered[i].sequence <= counter)
    && (forall p :: 0 <= p < |ps| && ps[p].Putting? ==> HeldOk(entered, counter, p, ps[p].item))
  }

  ghost predicate HeldOk(entered: seq<Item>, counter: nat, p: nat, item: Item) {
    item.producer == p && item.sequence <= counter && NewerThanOwn(entered, item)
  }

  ghost predicate PhaseOk(s: State) {
    && |s.dropped| <= Tally(s.producers, IS_CANCELLED)
    && (s.phase.Working? ==> s.dropped == [] && Tally(s.producers, IS_CANCELLED) == 0)
    && (!s.phase.Finished? ==> s.drained == [])
    && (s.phase.Finished? ==> s.queue == [] && AllEnded(s))
    && (!s.phase.Working? ==> s.stop)
  }

  ghost predicate Inv(s: State, cfg: Config) {
    && |s.producers| == cfg.producers && |s.consumers| == cfg.consumers
    && QueueOk(s, cfg) && NumbersOk(s) && PhaseOk(s)
    && ItemsOk(s.produced, s.entered, s.dropped, s.producers)
    && OrderOk(s.entered, s.counter, s.producers)
  }

  // ---- one lemma for each way a step changes the state ----

  lemma InvInitial(cfg: Config)
    requires ConfigOk(cfg)
    ensures Inv(Initial(cfg), cfg)
  {
    var s := Initial(cfg);
    NoneCounted(s.consumers, IS_PROCESSING);
    NoneCounted(s.producers, IS_CANCELLED);
    NoneCounted(s.producers, IS_PUTTING);
    forall item ensures ItemPlaced(s.produced, s.entered, s.dropped, s.producers, item) {
      NoneHeld(s.producers, item);
    }
  }

  lemma {:induction false} NoneCounted<T>(s: seq<T>, test: T -> bool)
    requires forall i :: 0 <= i < |s| ==> !test(s[i])
    ensures Tally(s, test) == 0
  {
    if s != [] {
      NoneCounted(s[1..], test);
    }
  }

  lemma {:induction false} NoneHeld(ps: seq<Producer>, item: Item)
    requires forall i :: 0 <= i < |ps| ==> !ps[i].Putting?
    ensures Holding(ps, item) == 0
  {
    if ps != [] {
      NoneHeld(ps[1..], item);
    }
  }

  lemma ItemsMove(s: State, p: nat, place: Producer)
    requires ItemsOk(s.produced, s.entered, s.dropped, s.producers)
    requires p < |s.producers| && !s.producers[p].Putting? && !place.Putting?
    ensures ItemsOk(s.produced, s.entered, s.dropped, s.producers[p := place])
  {
    var ps := s.producers[p := place];
    forall x ensures ItemPlaced(s.produced, s.entered, s.dropped, ps, x) {
      assert ItemPlaced(s.produced, s.entered, s.dropped, s.producers, x);
      HoldingUpdate(s.producers, p, place, x);
    }
  }

  /** A producer that holds nothing before or after may change its place. */
  lemma InvMoveProducer(s: State, cfg: Config, p: nat, place: Producer)
    requires Inv(s, cfg) && s.phase.Working? && p < |s.producers|
    requires !s.producers[p].Putting? && !place.Putting? && !place.Cancelled?
    ensures Inv(SetProducer(s, p, place), cfg)
  {
    TallyUpdate(s.producers, p, place, IS_CANCELLED);
    TallyUpdate(s.producers, p, place, IS_PUTTING);
    ItemsMove(s, p, place);
  }

  lemma OrderExtends(entered: seq<Item>, item: Item)
    requires InProducerOrder(entered) && NewerThanOwn(entered, item)
    ensures InProducerOrder(entered + [item])
  {
  }

  lemma NewerThanAll(entered: seq<Item>, item: Item, bound: nat)
    requires forall i :: 0 <= i < |entered| ==> entered[i].sequence <= bound
    requires bound < item.sequence
    ensures NewerThanOwn(entered, item)
  {
  }

  /** An item of producer p, newer than all p has queued, may enter when p holds nothing any more. */
  lemma OrderPut(entered: seq<Item>, counter: nat, ps: seq<Producer>, p: nat, item: Item, place: Producer, after: nat)
    requires OrderOk(entered, counter, ps) && p < |ps| && !place.Putting?
    requires item.producer == p && NewerThanOwn(entered, item) && item.sequence <= after && counter <= after
    ensures OrderOk(entered + [item], after, ps[p := place])
  {
    OrderExtends(entered, item);
    var qs := ps[p := place];
    forall q | 0 <= q < |qs| && qs[q].Putting? ensures HeldOk(entered + [item], after, q, qs[q].item) {
      assert HeldOk(entered, counter, q, ps[q].item);
    }
  }

  /** The next item goes straight into a queue with room. */
  function PutNow(s: State, p: nat): State {
    Enqueue(Produce(s, p), Item(s.counter + 1, p))
  }

  lemma ItemsPutNow(s: State, p: nat)
    requires ItemsOk(s.produced, s.entered, s.dropped, s.producers)
    ensures var t := PutNow(s, p); ItemsOk(t.produced, t.entered, t.dropped, t.producers)
  {
    var item := Item(s.counter + 1, p);
    forall x ensures ItemPlaced(s.produced + [item], s.entered + [item], s.dropped, s.producers, x) {
      assert ItemPlaced(s.produced, s.entered, s.dropped, s.producers, x);
      CountAppend(s.produced, item, x);
      CountAppend(s.entered, item, x);
    }
  }

  lemma OrderPutNow(s: State, p: nat)
    requires OrderOk(s.entered, s.counter, s.producers) && p < |s.producers| && !s.producers[p].Putting?
    ensures var t := PutNow(s, p); OrderOk(t.entered, t.counter, t.producers)
  {
    var item := Item(s.counter + 1, p);
    NewerThanAll(s.entered, item, s.counter);
    OrderPut(s.entered, s.counter, s.producers, p, item, s.producers[p], s.counter + 1);
    assert s.producers[p := s.producers[p]] == s.producers;
  }

  lemma QueueGrows(s: State, item: Item)
    requires s.entered == s.taken + s.drained + s.queue
    ensures s.entered + [item] == s.taken + s.drained + (s.queue + [item])
  {
  }

  lemma QueuePutNow(s: State, cfg: Config, p: nat)
    requires QueueOk(s, cfg) && |s.queue| < cfg.queueSize
    ensures QueueOk(PutNow(s, p), cfg)
  {
    QueueGrows(s, Item(s.counter + 1, p));
  }

  lemma PhasePutNow(s: State, p: nat)
    requires PhaseOk(s) && s.phase.Working?
    ensures PhaseOk(PutNow(s, p))
  {
  }

  lemma NumbersGrow(s: State, p: nat)
    requires NumbersOk(s)
    ensures NumbersOk(PutNow(s, p))
  {
  }

  lemma InvPutNow(s: State, cfg: Config, p: nat)
    requires Inv(s, cfg) && s.phase.Working? && p < |s.producers|
    requires !s.producers[p].Putting? && |s.queue| < cfg.queueSize
    ensures Inv(PutNow(s, p), cfg)
  {
    ItemsPutNow(s, p);
    OrderPutNow(s, p);
    QueuePutNow(s, cfg, p);
    PhasePutNow(s, p);
    NumbersGrow(s, p);
  }

  /** The next item is held by a put that waits for room. */
  function HoldNext(s: State, p: nat, left: nat, tick: nat): State
    requires p < |s.producers|
  {
    SetProducer(Produce(s, p), p, Putting(Item(s.counter + 1, p), left, tick))
  }

  lemma ItemsHold(s: State, p: nat, left: nat, tick: nat)
    requires ItemsOk(s.produced, s.entered, s.dropped, s.producers)
    requires p < |s.producers| && !s.producers[p].Putting?
    ensures var t := HoldNext(s, p, left, tick); ItemsOk(t.produced, t.entered, t.dropped, t.producers)
  {
    var item := Item(s.counter + 1, p);
    var place := Putting(item, left, tick);
    var ps := s.producers[p := place];
    forall x ensures ItemPlaced(s.produced + [item], s.entered, s.dropped, ps, x) {
      assert ItemPlaced(s.produced, s.entered, s.dropped, s.producers, x);
      CountAppend(s.produced, item, x);
      HoldingUpdate(s.producers, p, place, x);
    }
  }

  lemma OrderHold(s: State, p: nat, left: nat, tick: nat)
    requires OrderOk(s.entered, s.counter, s.producers) && p < |s.producers|
    ensures var t := HoldNext(s, p, left, tick); OrderOk(t.entered, t.counter, t.producers)
  {
    var place := Putting(Item(s.counter + 1, p), left, tick);
    NewerThanAll(s.entered, place.item, s.counter);
    var ps := s.producers[p := place];
    forall q | 0 <= q < |ps| && ps[q].Putting? ensures HeldOk(s.entered, s.counter + 1, q, ps[q].item) {
      assert q != p ==> HeldOk(s.entered, s.counter, q, s.producers[q].item);
    }
  }

  lemma CountsHold(s: State, cfg: Config, p: nat, left: nat, tick: nat)
    requires QueueOk(s, cfg) && NumbersOk(s) && PhaseOk(s) && s.phase.Working?
    requires p < |s.producers| && !s.producers[p].Putting?
    ensures var t := HoldNext(s, p, left, tick); QueueOk(t, cfg) && NumbersOk(t) && PhaseOk(t)
  {
    var place := Putting(Item(s.counter + 1, p), left, tick);
    TallyUpdate(s.producers, p, place, IS_CANCELLED);
    TallyUpdate(s.producers, p, place, IS_PUTTING);
  }

  lemma InvHold(s: State, cfg: Config, p: nat, left: nat, tick: nat)
    requires Inv(s, cfg) && s.phase.Working? && p < |s.producers| && !s.producers[p].Putting?
    ensures Inv(HoldNext(s, p, left, tick), cfg)
  {
    ItemsHold(s, p, left, tick);
    OrderHold(s, p, left, tick);
    CountsHold(s, cfg, p, left, tick);
  }

  lemma ItemsRelease(s: State, p: nat, place: Producer)
    requires ItemsOk(s.produced, s.entered, s.dropped, s.producers)
    requires p < |s.producers| && s.producers[p].Putting? && !place.Putting?
    ensures ItemsOk(s.produced, s.entered + [s.producers[p].item], s.dropped, s.producers[p := place])
    ensures ItemsOk(s.produced, s.entered, s.dropped + [s.producers[p].item], s.producers[p := place])
  {
    var item := s.producers[p].item;
    var ps := s.producers[p := place];
    forall x
      ensures ItemPlaced(s.produced, s.entered + [item], s.dropped, ps, x)
      ensures ItemPlaced(s.produced, s.entered, s.dropped + [item], ps, x)
    {
      assert ItemPlaced(s.produced, s.entered, s.dropped, s.producers, x);
      CountAppend(s.entered, item, x);
      CountAppend(s.dropped, item, x);
      HoldingUpdate(s.producers, p, place, x);
    }
  }

  /** A held item enters the queue. */
  lemma InvReleasePut(s: State, cfg: Config, p: nat)
    requires Inv(s, cfg) && s.phase.Working? && p < |s.producers|
    requires s.producers[p].Putting? && |s.queue| < cfg.queueSize
    ensures Inv(SetProducer(Enqueue(s, s.producers[p].item), p, Paused(s.producers[p].tick)), cfg)
  {
    var item := s.producers[p].item;
    var place := Paused(s.producers[p].tick);
    TallyUpdate(s.producers, p, place, IS_CANCELLED);
    TallyUpdate(s.producers, p, place, IS_PUTTING);
    ItemsRelease(s, p, place);
    assert HeldOk(s.entered, s.counter, p, item);
    OrderPut(s.entered, s.counter, s.producers, p, item, place, s.counter);
    QueueGrows(s, item);
  }

  lemma {:induction false} InvFill(s: State, cfg: Config, p: nat, left: nat, tick: nat)
    requires Inv(s, cfg) && s.phase.Working? && p < |s.producers|
    requires !s.producers[p].Putting?
    ensures Inv(Fill(s, cfg, p, left, tick), cfg)
    decreases left
  {
    if left == 0 || s.stop {
      InvMoveProducer(s, cfg, p, Paused(tick));
    } else if |s.queue| < cfg.queueSize {
      InvPutNow(s, cfg, p);
      InvFill(PutNow(s, p), cfg, p, left - 1, tick);
    } else {
      InvHold(s, cfg, p, left - 1, tick);
    }
  }

  /** A consumer that processes nothing before or after may change its place. */
  lemma InvMoveConsumer(s: State, cfg: Config, c: nat, place: Consumer)
    requires Inv(s, cfg) && !s.phase.Finished? && c < |s.consumers|
    requires !s.consumers[c].Processing? && !place.Processing?
    ensures Inv(SetConsumer(s, c, place), cfg)
  {
    TallyUpdate(s.consumers, c, place, IS_PROCESSING);
  }

  lemma InvDequeue(s: State, cfg: Config, c: nat)
    requires Inv(s, cfg) && s.phase.Working? && c < |s.consumers|
    requires !s.consumers[c].Processing? && s.queue != []
    ensures Inv(SetConsumer(Dequeue(s), c, Processing(s.queue[0])), cfg)
  {
    TallyUpdate(s.consumers, c, Processing(s.queue[0]), IS_PROCESSING);
    assert s.taken + s.queue == (s.taken + [s.queue[0]]) + s.queue[1..];
  }

  lemma InvTaskDone(s: State, cfg: Config, c: nat, place: Consumer)
    requires Inv(s, cfg) && !s.phase.Finished? && c < |s.consumers|
    requires s.consumers[c].Processing? && !place.Processing?
    ensures Inv(SetConsumer(TaskDone(s), c, place), cfg)
  {
    TallyUpdate(s.consumers, c, place, IS_PROCESSING);
  }

  lemma InvConsumerTop(s: State, cfg: Config, c: nat)
    requires Inv(s, cfg) && s.phase.Working? && c < |s.consumers| && !s.consumers[c].Processing?
    ensures Inv(ConsumerTop(s, c), cfg)
  {
    if s.stop {
      InvMoveConsumer(s, cfg, c, Returned);
    } else if s.queue == [] {
      InvMoveConsumer(s, cfg, c, Getting);
    } else {
      InvDequeue(s, cfg, c);
    }
  }

  lemma InvCancelProducer(s: State, cfg: Config, p: nat)
    requires Inv(s, cfg) && Enabled(s, cfg, CancelProducer(p))
    ensures Inv(Step(s, cfg, CancelProducer(p)), cfg)
  {
    TallyUpdate(s.producers, p, Cancelled, IS_CANCELLED);
    TallyUpdate(s.producers, p, Cancelled, IS_PUTTING);
    if s.producers[p].Putting? {
      ItemsRelease(s, p, Cancelled);
    } else {
      assert s.dropped + [] == s.dropped;
      ItemsMove(s, p, Cancelled);
    }
  }

  /** Draining takes the queued items in order and acknowledges each once. */
  lemma {:induction false} DrainEmpties(s: State)
    requires s.unfinished >= |s.queue|
    ensures var t := DrainQueue(s);
            && t == s.(queue := [], unfinished := s.unfinished - |s.queue|, drained := s.drained + s.queue)
    decreases |s.queue|
  {
    if s.queue == [] {
      assert s.drained + s.queue == s.drained;
    } else {
      DrainEmpties(TaskDone(s.(queue := s.queue[1..], drained := s.drained + [s.queue[0]])));
      assert (s.drained + [s.queue[0]]) + s.queue[1..] == s.drained + s.queue;
    }
  }

  lemma InvDrain(s: State, cfg: Config)
    requires Inv(s, cfg) && Enabled(s, cfg, Drain)
    ensures Inv(Step(s, cfg, Drain), cfg)
  {
    DrainEmpties(s);
    var t := Step(s, cfg, Drain);
    assert t.entered == t.taken + t.drained + t.queue;
  }

  lemma InvStep(s: State, cfg: Config, a: Action)
    requires Inv(s, cfg) && Enabled(s, cfg, a)
    ensures Inv(Step(s, cfg, a), cfg)
  {
    match a
    case WakeProducer(p) =>
      if s.stop {
        InvMoveProducer(s, cfg, p, Stopped);
      } else {
        var tick := s.producers[p].tick + 1;
        InvFill(s, cfg, p, if tick % 8 == 0 then cfg.burstSize else 1, tick);
      }
    case FinishPut(p) =>
      InvReleasePut(s, cfg, p);
      var place := s.producers[p];
      InvFill(SetProducer(Enqueue(s, place.item), p, Paused(place.tick)), cfg, p, place.left, place.tick);
    case WakeConsumer(c) => InvConsumerTop(s, cfg, c);
    case Receive(c) => InvDequeue(s, cfg, c);
    case FinishItem(c) =>
      InvTaskDone(s, cfg, c, Ready);
      InvConsumerTop(SetConsumer(TaskDone(s), c, Ready), cfg, c);
    case Signal =>
    case DurationElapses =>
    case MainWakes =>
    case CancelProducer(p) => InvCancelProducer(s, cfg, p);
    case CancelConsumer(c) =>
      if s.consumers[c].Processing? {
        InvTaskDone(s, cfg, c, Aborted);
      } else {
        InvMoveConsumer(s, cfg, c, Aborted);
      }
    case Drain => InvDrain(s, cfg);
  }

  lemma {:induction false} RunKeepsInv(s: State, cfg: Config, actions: seq<Action>, t: State)
    requires Inv(s, cfg) && Reaches(s, cfg, actions, t)
    ensures Inv(t, cfg)
    decreases |actions|
  {
    if actions != [] {
      InvStep(s, cfg, actions[0]);
      RunKeepsInv(Step(s, cfg, actions[0]), cfg, actions[1..], t);
    }
  }

  lemma ReachableInv(cfg: Config, s: State)
    requires Reachable(cfg, s)
    ensures Inv(s, cfg)
  {
    var actions :| Reaches(Initial(cfg), cfg, actions, s);
    InvInitial(cfg);
    RunKeepsInv(Initial(cfg), cfg, actions, s);
  }

  // ---- what holds in every run ----

  /** The queue's unfinished count is what is queued plus what is being processed, task_done is never
      called at zero, and the queue never outgrows its size. */
  lemma QueueAccounting(cfg: Config, s: State)
    requires Reachable(cfg, s)
    ensures s.unfinished == |s.queue| + Tally(s.consumers, IS_PROCESSING)
    ensures |s.queue| <= cfg.queueSize && !s.overdone
  {
    ReachableInv(cfg, s);
  }

  /** First in, first out: what consumers took, then what the drain removed, then what is queued, is what
      entered, in order. */
  lemma FirstInFirstOut(cfg: Config, s: State)
    requires Reachable(cfg, s)
    ensures s.entered == s.taken + s.drained + s.queue
  {
    ReachableInv(cfg, s);
  }

  lemma CountAtLeastTwo(items: seq<Item>, i: nat, j: nat)
    requires i < j < |items| && items[i] == items[j]
    ensures Count(items, items[i]) >= 2
  {
    assert items == items[..j] + [items[j]] + items[j + 1..];
    assert items[i] in items[..j];
    assert multiset(items) == multiset(items[..j]) + multiset{items[j]} + multiset(items[j + 1..]);
  }

  lemma OccursOnce(items: seq<Item>, i: nat)
    requires i < |items| && items[i] !in items[..i] && items[i] !in items[i + 1..]
    ensures Count(items, items[i]) == 1
  {
    var before, after := items[..i], items[i + 1..];
    assert items == before + [items[i]] + after;
    assert multiset(items) == multiset(before) + multiset{items[i]} + multiset(after);
    assert items[i] !in multiset(before) && items[i] !in multiset(after);
  }

  /** Items numbered by their position occur once. */
  lemma NumberedOnce(s: State, item: Item)
    requires NumbersOk(s)
    ensures Count(s.produced, item) <= 1
  {
    if item in s.produced {
      var i :| 0 <= i < |s.produced| && s.produced[i] == item;
      var before, after := s.produced[..i], s.produced[i + 1..];
      assert forall k :: 0 <= k < |before| ==> before[k] == s.produced[k];
      assert forall k :: 0 <= k < |after| ==> after[k] == s.produced[i + 1 + k];
      OccursOnce(s.produced, i);
    } else {
      assert item !in multiset(s.produced);
    }
  }

  lemma NumberedDifferently(s: State, a: Item, b: Item)
    requires NumbersOk(s) && a in s.produced && b in s.produced && a.sequence == b.sequence
    ensures a == b
  {
    var i :| 0 <= i < |s.produced| && s.produced[i] == a;
    var j :| 0 <= j < |s.produced| && s.produced[j] == b;
  }

  /** No two places of the queue's history carry the same sequence number. */
  lemma SequenceNumbersDistinct(cfg: Config, s: State, i: nat, j: nat)
    requires Reachable(cfg, s) && i < j < |s.entered|
    ensures s.entered[i].sequence != s.entered[j].sequence
  {
    ReachableInv(cfg, s);
    var a, b := s.entered[i], s.entered[j];
    assert ItemPlaced(s.produced, s.entered, s.dropped, s.producers, a);
    assert ItemPlaced(s.produced, s.entered, s.dropped, s.producers, b);
    assert a in multiset(s.entered) && b in multiset(s.entered);
    if a.sequence == b.sequence {
      NumberedDifferently(s, a, b);
      CountAtLeastTwo(s.entered, i, j);
      NumberedOnce(s, a);
    }
  }

  /** An item lost to a cancelled put never entered the queue. */
  lemma DroppedNeverEntered(cfg: Config, s: State, item: Item)
    requires Reachable(cfg, s) && item in s.dropped
    ensures item !in s.entered
  {
    ReachableInv(cfg, s);
    assert item in multiset(s.dropped);
    assert ItemPlaced(s.produced, s.entered, s.dropped, s.producers, item);
    NumberedOnce(s, item);
  }

  /** Items are consumed, drained and queued in the order in which their producer made them. */
  lemma ProducerOrderKept(cfg: Config, s: State, i: nat, j: nat)
    requires Reachable(cfg, s) && i < j < |s.entered| && s.entered[i].producer == s.entered[j].producer
    ensures s.entered[i].sequence < s.entered[j].sequence
    ensures j < |s.taken| ==> s.taken[i].producer == s.taken[j].producer && s.taken[i].sequence < s.taken[j].sequence
  {
    ReachableInv(cfg, s);
    assert s.entered == s.taken + (s.drained + s.queue);
  }

  lemma {:induction false} TallyBound<T>(s: seq<T>, test: T -> bool)
    ensures Tally(s, test) <= |s|
  {
    if s != [] {
      TallyBound(s[1..], test);
    }
  }

  /** The counter is the items consumed, drained, queued, held by suspended puts and dropped; at most one
      item is dropped for each cancelled producer. */
  lemma ItemsConserved(cfg: Config, s: State)
    requires Reachable(cfg, s)
    ensures s.counter == |s.taken| + |s.drained| + |s.queue| + Tally(s.producers, IS_PUTTING) + |s.dropped|
    ensures |s.dropped| <= Tally(s.producers, IS_CANCELLED) <= cfg.producers
  {
    ReachableInv(cfg, s);
    TallyBound(s.producers, IS_CANCELLED);
  }

  /** After the drain the queue is empty, nothing is unfinished, and every item produced was consumed,
      drained or dropped exactly once. */
  lemma ShutdownIsClean(cfg: Config, s: State)
    requires Reachable(cfg, s) && s.phase.Finished?
    ensures s.queue == [] && s.unfinished == 0 && !s.overdone
    ensures multiset(s.produced) == multiset(s.taken) + multiset(s.drained) + multiset(s.dropped)
    ensures s.counter == |s.taken| + |s.drained| + |s.dropped|
  {
    ReachableInv(cfg, s);
    assert forall c :: 0 <= c < |s.consumers| ==> s.consumers[c] in s.consumers;
    assert forall p :: 0 <= p < |s.producers| ==> s.producers[p] in s.producers;
    NoneCounted(s.consumers, IS_PROCESSING);
    NoneCounted(s.producers, IS_PUTTING);
    assert s.entered == s.taken + s.drained;
    var placed := multiset(s.entered) + multiset(s.dropped);
    forall x ensures multiset(s.produced)[x] == placed[x] {
      assert ItemPlaced(s.produced, s.entered, s.dropped, s.producers, x);
      NoneHeld(s.producers, x);
    }
    assert multiset(s.produced) == placed;
  }

  // ---- the workload does not deadlock ----

  /** Until the stop flag is set no task ends. */
  ghost predicate Alive(s: State) {
    !s.stop ==>
      && (forall p :: 0 <= p < |s.producers| ==> !ProducerEnded(s.producers[p]))
      && (forall c :: 0 <= c < |s.consumers| ==> !ConsumerEnded(s.consumers[c]))
  }

  /** A burst moves one producer, to a sleep or a put. */
  lemma {:induction false} FillMoves(s: State, cfg: Config, p: nat, left: nat, tick: nat)
    requires p < |s.producers|
    ensures var t := Fill(s, cfg, p, left, tick);
            && t.stop == s.stop && t.phase == s.phase && t.consumers == s.consumers && !ProducerEnded(t.producers[p])
            && (forall q :: 0 <= q < |s.producers| && q != p ==> t.producers[q] == s.producers[q])
    decreases left
  {
    if !(left == 0 || s.stop) && |s.queue| < cfg.queueSize {
      FillMoves(PutNow(s, p), cfg, p, left - 1, tick);
    }
  }

  lemma StopStays(s: State, cfg: Config, a: Action)
    requires s.stop && Inv(s, cfg) && Enabled(s, cfg, a)
    ensures Step(s, cfg, a).stop
  {
    match a
    case WakeProducer(p) =>
    case FinishPut(p) =>
      var place := s.producers[p];
      FillMoves(SetProducer(Enqueue(s, place.item), p, Paused(place.tick)), cfg, p, place.left, place.tick);
    case Drain => DrainEmpties(s);
    case _ =>
  }

  lemma ProducerStays(s: State, cfg: Config, a: Action, p: nat)
    requires !s.stop && Alive(s) && Enabled(s, cfg, a) && (a == WakeProducer(p) || a == FinishPut(p))
    ensures Alive(Step(s, cfg, a))
  {
    var place := s.producers[p];
    if a.WakeProducer? {
      FillMoves(s, cfg, p, if (place.tick + 1) % 8 == 0 then cfg.burstSize else 1, place.tick + 1);
    } else {
      FillMoves(SetProducer(Enqueue(s, place.item), p, Paused(place.tick)), cfg, p, place.left, place.tick);
    }
  }

  lemma AliveStep(s: State, cfg: Config, a: Action)
    requires Alive(s) && Inv(s, cfg) && Enabled(s, cfg, a)
    ensures Alive(Step(s, cfg, a))
  {
    if s.stop {
      StopStays(s, cfg, a);
    } else if a.WakeProducer? || a.FinishPut? {
      ProducerStays(s, cfg, a, a.p);
    }
  }

  lemma {:induction false} RunKeepsAlive(s: State, cfg: Config, actions: seq<Action>, t: State)
    requires Inv(s, cfg) && Alive(s) && Reaches(s, cfg, actions, t)
    ensures Alive(t)
    decreases |actions|
  {
    if actions != [] {
      AliveStep(s, cfg, actions[0]);
      InvStep(s, cfg, actions[0]);
      RunKeepsAlive(Step(s, cfg, actions[0]), cfg, actions[1..], t);
    }
  }

  /** While the stop flag is not set the workload is at work and every task is still there. */
  lemma NoTaskEndsEarly(cfg: Config, s: State)
    requires Reachable(cfg, s) && !s.stop
    ensures s.phase.Working? && |s.producers| == cfg.producers && |s.consumers| == cfg.consumers
    ensures forall p :: 0 <= p < |s.producers| ==> !ProducerEnded(s.producers[p])
    ensures forall c :: 0 <= c < |s.consumers| ==> !ConsumerEnded(s.consumers[c])
  {
    var actions :| Reaches(Initial(cfg), cfg, actions, s);
    InvInitial(cfg);
    RunKeepsAlive(Initial(cfg), cfg, actions, s);
    ReachableInv(cfg, s);
  }

  /** The step a task takes next by itself. */
  function ProducerMove(s: State, p: nat): Action
    requires p < |s.producers|
  {
    if s.producers[p].Putting? then FinishPut(p) else WakeProducer(p)
  }

  function ConsumerMove(s: State, c: nat): Action
    requires c < |s.consumers|
  {
    if s.consumers[c].Processing? then FinishItem(c)
    else if s.consumers[c].Getting? && s.queue != [] then Receive(c)
    else WakeConsumer(c)
  }

  /** Until the stop flag is set every consumer can step, and every producer except one that waits to put into
      a full queue. */
  lemma WorkNeverStuck(cfg: Config, s: State)
    requires Reachable(cfg, s) && !s.stop
    ensures |s.producers| == cfg.producers && |s.consumers| == cfg.consumers
    ensures forall c :: 0 <= c < cfg.consumers ==> Enabled(s, cfg, ConsumerMove(s, c))
    ensures forall p :: 0 <= p < cfg.producers ==>
              (Enabled(s, cfg, ProducerMove(s, p)) <==> !(s.producers[p].Putting? && |s.queue| == cfg.queueSize))
  {
    NoTaskEndsEarly(cfg, s);
    QueueAccounting(cfg, s);
  }

  /** A full queue does not deadlock: one step of any consumer makes room, and then every waiting producer can
      finish its put. */
  lemma FullQueueDrains(cfg: Config, s: State, c: nat)
    requires Reachable(cfg, s) && !s.stop && |s.queue| == cfg.queueSize && c < cfg.consumers
    ensures |s.producers| == cfg.producers && |s.consumers| == cfg.consumers && Enabled(s, cfg, ConsumerMove(s, c))
    ensures var t := Step(s, cfg, ConsumerMove(s, c));
            && |t.queue| == cfg.queueSize - 1
            && forall p :: 0 <= p < cfg.producers && s.producers[p].Putting? ==> Enabled(t, cfg, FinishPut(p))
  {
    NoTaskEndsEarly(cfg, s);
  }

  // ---- how much is produced ----

  /** The items of one producer. */
  function Made(items: seq<Item>, p: nat): nat {
    if items == [] then 0 else Made(items[..|items| - 1], p) + One(items[|items| - 1].producer == p)
  }

  /** One item for every tick, and a burst in place of every eighth. */
  function ItemsOfTicks(cfg: Config, ticks: nat): int {
    ticks + (ticks / 8) * (cfg.burstSize - 1)
  }

  /** What a producer has made: the items of its ticks, less those of a burst that waits. */
  function Due(cfg: Config, place: Producer): int {
    match place
    case Paused(ticks) => ItemsOfTicks(cfg, ticks)
    case Putting(_, left, ticks) => ItemsOfTicks(cfg, ticks) - left
    case _ => 0
  }

  function AllDue(cfg: Config, ps: seq<Producer>): int {
    if ps == [] then 0 else Due(cfg, ps[0]) + AllDue(cfg, ps[1..])
  }

  lemma {:induction false} AllDueUpdate(cfg: Config, ps: seq<Producer>, i: nat, place: Producer)
    requires i < |ps|
    ensures AllDue(cfg, ps[i := place]) == AllDue(cfg, ps) - Due(cfg, ps[i]) + Due(cfg, place)
  {
    if i == 0 {
      assert ps[i := place][1..] == ps[1..];
    } else {
      assert ps[i := place][1..] == ps[1..][i - 1 := place];
      AllDueUpdate(cfg, ps[1..], i - 1, place);
    }
  }

  lemma MadeNext(items: seq<Item>, item: Item, p: nat)
    ensures Made(items + [item], p) == Made(items, p) + One(item.producer == p)
  {
    assert (items + [item])[..|items|] == items;
  }

  /** The next tick adds one item, or a burst when it is the eighth. */
  lemma NextTick(cfg: Config, ticks: nat)
    ensures ItemsOfTicks(cfg, ticks + 1) == ItemsOfTicks(cfg, ticks) + if (ticks + 1) % 8 == 0 then cfg.burstSize else 1
  {
    var q, b := ticks / 8, cfg.burstSize - 1;
    assert (ticks + 1) / 8 == q + One((ticks + 1) % 8 == 0);
    assert (q + 1) * b == q * b + b;
  }

  /** The puts of a burst still to start. */
  function Remaining(place: Producer): nat {
    if place.Putting? then place.left else 0
  }

  predicate AtTick(place: Producer, tick: nat) {
    (place.Paused? || place.Putting?) && place.tick == tick
  }

  /** A burst makes all its items but those still to start. */
  lemma {:induction false} FillMakes(s: State, cfg: Config, p: nat, left: nat, tick: nat)
    requires p < |s.producers| && !s.stop
    ensures var t := Fill(s, cfg, p, left, tick);
            && AtTick(t.producers[p], tick)
            && t.counter == s.counter + left - Remaining(t.producers[p])
            && Made(t.produced, p) == Made(s.produced, p) + left - Remaining(t.producers[p])
            && (forall q: nat :: q != p ==> Made(t.produced, q) == Made(s.produced, q))
            && t.producers == s.producers[p := t.producers[p]]
    decreases left
  {
    if left > 0 {
      var item := Item(s.counter + 1, p);
      forall q: nat ensures Made(s.produced + [item], q) == Made(s.produced, q) + One(p == q) {
        MadeNext(s.produced, item, q);
      }
      if |s.queue| < cfg.queueSize {
        FillMakes(PutNow(s, p), cfg, p, left - 1, tick);
      }
    }
  }

  /** Until the stop flag is set each producer has made what its ticks are worth. */
  ghost predicate OnSchedule(s: State, cfg: Config) {
    !s.stop ==>
      && s.counter == AllDue(cfg, s.producers)
      && forall p :: 0 <= p < |s.producers| ==> Made(s.produced, p) == Due(cfg, s.producers[p])
  }

  lemma BurstOnSchedule(s: State, cfg: Config, p: nat, left: nat, tick: nat, made: int)
    requires p < |s.producers| && !s.stop && made + left == ItemsOfTicks(cfg, tick) && Made(s.produced, p) == made
    requires s.counter == AllDue(cfg, s.producers) - Due(cfg, s.producers[p]) + made
    requires forall q :: 0 <= q < |s.producers| && q != p ==> Made(s.produced, q) == Due(cfg, s.producers[q])
    ensures OnSchedule(Fill(s, cfg, p, left, tick), cfg)
  {
    var t := Fill(s, cfg, p, left, tick);
    FillMoves(s, cfg, p, left, tick);
    FillMakes(s, cfg, p, left, tick);
    AllDueUpdate(cfg, s.producers, p, t.producers[p]);
  }

  lemma PutOnSchedule(s: State, cfg: Config, p: nat)
    requires OnSchedule(s, cfg) && !s.stop && Enabled(s, cfg, FinishPut(p))
    ensures OnSchedule(Step(s, cfg, FinishPut(p)), cfg)
  {
    var place := s.producers[p];
    var paused := SetProducer(Enqueue(s, place.item), p, Paused(place.tick));
    AllDueUpdate(cfg, s.producers, p, Paused(place.tick));
    BurstOnSchedule(paused, cfg, p, place.left, place.tick, Due(cfg, place));
  }

  lemma WakeOnSchedule(s: State, cfg: Config, p: nat)
    requires OnSchedule(s, cfg) && !s.stop && Enabled(s, cfg, WakeProducer(p))
    ensures OnSchedule(Step(s, cfg, WakeProducer(p)), cfg)
  {
    var tick := s.producers[p].tick;
    NextTick(cfg, tick);
    BurstOnSchedule(s, cfg, p, if (tick + 1) % 8 == 0 then cfg.burstSize else 1, tick + 1, Due(cfg, s.producers[p]));
  }

  lemma ScheduleStep(s: State, cfg: Config, a: Action)
    requires OnSchedule(s, cfg) && Inv(s, cfg) && Enabled(s, cfg, a)
    ensures OnSchedule(Step(s, cfg, a), cfg)
  {
    if s.stop {
      StopStays(s, cfg, a);
    } else {
      match a
      case WakeProducer(p) => WakeOnSchedule(s, cfg, p);
      case FinishPut(p) => PutOnSchedule(s, cfg, p);
      case _ =>
    }
  }

  lemma {:induction false} RunOnSchedule(s: State, cfg: Config, actions: seq<Action>, t: State)
    requires Inv(s, cfg) && OnSchedule(s, cfg) && Reaches(s, cfg, actions, t)
    ensures OnSchedule(t, cfg)
    decreases |actions|
  {
    if actions != [] {
      ScheduleStep(s, cfg, actions[0]);
      InvStep(s, cfg, actions[0]);
      RunOnSchedule(Step(s, cfg, actions[0]), cfg, actions[1..], t);
    }
  }

  lemma {:induction false} NothingDue(cfg: Config, ps: seq<Producer>)
    requires forall i :: 0 <= i < |ps| ==> ps[i] == Paused(0)
    ensures AllDue(cfg, ps) == 0
  {
    if ps != [] {
      NothingDue(cfg, ps[1..]);
    }
  }

  /** Until the stop flag is set, a producer that has come to tick t has made t items and burst_size - 1 more for
      every eighth, less what a waiting burst still has to start; and the counter is the sum over the producers. */
  lemma {:induction false} ProducedExactly(cfg: Config, s: State)
    requires Reachable(cfg, s) && !s.stop
    ensures |s.producers| == cfg.producers
    ensures forall p :: 0 <= p < cfg.producers ==>
              match s.producers[p]
              case Paused(t) => Made(s.produced, p) == t + (t / 8) * (cfg.burstSize - 1)
              case Putting(_, left, t) => Made(s.produced, p) == t + (t / 8) * (cfg.burstSize - 1) - left
              case _ => false
    ensures s.counter == AllDue(cfg, s.producers)
  {
    NoTaskEndsEarly(cfg, s);
    ReachableOnSchedule(cfg, s);
  }

  lemma {:induction false} ReachableOnSchedule(cfg: Config, s: State)
    requires Reachable(cfg, s)
    ensures OnSchedule(s, cfg)
  {
    var actions :| Reaches(Initial(cfg), cfg, actions, s);
    InvInitial(cfg);
    InitialOnSchedule(cfg);
    RunOnSchedule(Initial(cfg), cfg, actions, s);
  }

  lemma {:induction false} InitialOnSchedule(cfg: Config)
    ensures OnSchedule(Initial(cfg), cfg)
  {
    NothingDue(cfg, Initial(cfg).producers);
  }

  // ---- what the stop flag does ----

  /** A signal or the end of the duration sets the flag and nothing else does; the end of the duration, or main()
      waking up to the flag, starts the cancellations, and the drain ends them. */
  lemma PhaseStep(s: State, cfg: Config, a: Action)
    requires Inv(s, cfg) && Enabled(s, cfg, a)
    ensures var t := Step(s, cfg, a);
            && (t.stop <==> s.stop || a.Signal? || a.DurationElapses?)
            && (t.phase.Cancelling? <==> a.DurationElapses? || a.MainWakes? || (s.phase.Cancelling? && !a.Drain?))
            && (t.phase.Finished? <==> a.Drain? || s.phase.Finished?)
  {
    match a
    case WakeProducer(p) =>
      var tick := s.producers[p].tick;
      FillMoves(s, cfg, p, if (tick + 1) % 8 == 0 then cfg.burstSize else 1, tick + 1);
    case FinishPut(p) =>
      var place := s.producers[p];
      FillMoves(SetProducer(Enqueue(s, place.item), p, Paused(place.tick)), cfg, p, place.left, place.tick);
    case Drain => DrainEmpties(s);
    case _ =>
  }

  /** Once the flag is set nothing is produced: a producer that wakes stops, a put under way goes in and its burst
      ends there, and a consumer that comes back to its loop returns. */
  lemma StoppedStep(s: State, cfg: Config, a: Action)
    requires s.stop && Inv(s, cfg) && Enabled(s, cfg, a)
    ensures var t := Step(s, cfg, a);
            && t.stop && t.counter == s.counter && t.produced == s.produced
            && (a.WakeProducer? ==> t.producers == s.producers[a.p := Stopped])
            && (a.FinishPut? ==> t.producers == s.producers[a.p := Paused(s.producers[a.p].tick)]
                                 && t.queue == s.queue + [s.producers[a.p].item])
            && (a.WakeConsumer? || a.FinishItem? ==> t.consumers == s.consumers[a.c := Returned] && t.queue == s.queue)
  {
    match a
    case Drain => DrainEmpties(s);
    case _ =>
  }

  /** In every run from the stop flag on, the counter stands still. */
  lemma {:induction false} NothingMoreProduced(s: State, cfg: Config, actions: seq<Action>, t: State)
    requires s.stop && Inv(s, cfg) && Reaches(s, cfg, actions, t)
    ensures t.stop && t.counter == s.counter && t.produced == s.produced
    decreases |actions|
  {
    if actions != [] {
      StoppedStep(s, cfg, actions[0]);
      InvStep(s, cfg, actions[0]);
      NothingMoreProduced(Step(s, cfg, actions[0]), cfg, actions[1..], t);
    }
  }

  /** A consumer that has moved waits only for an empty queue, holds the oldest item, or has seen the flag. */
  lemma ConsumerTakesOldest(s: State, cfg: Config, a: Action, c: nat)
    requires Enabled(s, cfg, a) && (a == WakeConsumer(c) || a == FinishItem(c) || a == Receive(c))
    ensures var t := Step(s, cfg, a);
            && |t.consumers| == |s.consumers|
            && match t.consumers[c]
               case Getting => !s.stop && s.queue == [] && t.queue == []
               case Processing(item) => [item] + t.queue == s.queue && (s.stop ==> a.Receive?)
               case Returned => s.stop && t.queue == s.queue
               case _ => false
  {
  }

  // ---- shutting down ends ----

  function Live(s: State): nat {
    Tally(s.producers, PRODUCER_LIVE) + Tally(s.consumers, CONSUMER_LIVE)
  }

  lemma {:induction false} SomeCounted<T>(s: seq<T>, test: T -> bool) returns (i: nat)
    requires Tally(s, test) > 0
    ensures i < |s| && test(s[i])
  {
    if test(s[0]) {
      i := 0;
    } else {
      var j := SomeCounted(s[1..], test);
      i := j + 1;
    }
  }

  /** While tasks are being cancelled nothing is produced or consumed, and each step ends one task or, when
      all have ended, finishes. */
  lemma CancellationStep(s: State, cfg: Config, a: Action)
    requires Inv(s, cfg) && s.phase.Cancelling? && Enabled(s, cfg, a)
    ensures var t := Step(s, cfg, a);
            && t.produced == s.produced && t.taken == s.taken && t.entered == s.entered
            && ((t.phase.Cancelling? && Live(t) == Live(s) - 1) || (t.phase.Finished? && Live(s) == 0))
  {
    match a
    case CancelProducer(p) => TallyUpdate(s.producers, p, Cancelled, PRODUCER_LIVE);
    case CancelConsumer(c) => TallyUpdate(s.consumers, c, Aborted, CONSUMER_LIVE);
    case Drain =>
      DrainEmpties(s);
      NoneCounted(s.producers, PRODUCER_LIVE);
      NoneCounted(s.consumers, CONSUMER_LIVE);
  }

  lemma CancellationNeverStuck(s: State, cfg: Config) returns (a: Action)
    requires s.phase.Cancelling?
    ensures Enabled(s, cfg, a)
  {
    if Tally(s.producers, PRODUCER_LIVE) > 0 {
      var p := SomeCounted(s.producers, PRODUCER_LIVE);
      a := CancelProducer(p);
    } else if Tally(s.consumers, CONSUMER_LIVE) > 0 {
      var c := SomeCounted(s.consumers, CONSUMER_LIVE);
      a := CancelConsumer(c);
    } else {
      a := Drain;
      AllCounted(s.producers, PRODUCER_LIVE);
      AllCounted(s.consumers, CONSUMER_LIVE);
    }
  }

  lemma {:induction false} AllCounted<T>(s: seq<T>, test: T -> bool)
    requires Tally(s, test) == 0
    ensures forall i :: 0 <= i < |s| ==> !test(s[i])
  {
    if s != [] {
      AllCounted(s[1..], test);
      assert forall i :: 0 < i < |s| ==> s[i] == s[1..][i - 1];
    }
  }

  /** Shutdown takes one step per live task and the drain, whatever the order; it is finished exactly when
      all of them were taken, and what was produced and consumed before it stays. */
  lemma {:induction false} ShutdownTerminates(s: State, cfg: Config, actions: seq<Action>, t: State)
    requires Inv(s, cfg) && s.phase.Cancelling? && Reaches(s, cfg, actions, t)
    ensures |actions| <= Live(s) + 1
    ensures t.phase.Finished? <==> |actions| == Live(s) + 1
    ensures t.produced == s.produced && t.taken == s.taken && t.entered == s.entered
    decreases |actions|
  {
    if actions != [] {
      var next := Step(s, cfg, actions[0]);
      CancellationStep(s, cfg, actions[0]);
      InvStep(s, cfg, actions[0]);
      if next.phase.Cancelling? {
        ShutdownTerminates(next, cfg, actions[1..], t);
      } else {
        assert actions[1..] == [];
      }
    }
  }

  // ---- a burst ----

  /** A burst of `left` puts stops early only at a full queue, with one item in hand: it produces `left`
      items when there is room for them, and one more than the room otherwise. */
  lemma {:induction false} BurstFills(s: State, cfg: Config, p: nat, left: nat, tick: nat)
    requires p < |s.producers| && |s.queue| <= cfg.queueSize && !s.stop
    ensures var t := Fill(s, cfg, p, left, tick);
            var room := cfg.queueSize - |s.queue|;
            && t.counter == s.counter + Min(left, room + 1)
            && |t.queue| == |s.queue| + Min(left, room)
            && (t.producers[p].Putting? <==> left > room)
            && (left > room ==> t.producers[p] == Putting(Item(s.counter + room + 1, p), left - room - 1, tick))
    decreases left
  {
    if left > 0 && |s.queue| < cfg.queueSize {
      BurstFills(PutNow(s, p), cfg, p, left - 1, tick);
    }
  }

  /** The producer's burst loop, up to the put that suspends. */
  method PutBurst(s: State, cfg: Config, p: nat, left: nat, tick: nat) returns (t: State)
    requires p < |s.producers|
    ensures t == Fill(s, cfg, p, left, tick)
  {
    t := s;
    var puts := 0;
    while puts < left && !t.stop
      invariant puts <= left && |t.producers| == |s.producers|
      invariant Fill(t, cfg, p, left - puts, tick) == Fill(s, cfg, p, left, tick)
    {
      var item := Item(t.counter + 1, p);
      t := Produce(t, p);
      puts := puts + 1;
      if |t.queue| >= cfg.queueSize {
        t := SetProducer(t, p, Putting(item, left - puts, tick));
        return;
      }
      t := Enqueue(t, item);
    }
    t := SetProducer(t, p, Paused(tick));
  }

  /** The final drain loop of run_workload. */
  method DrainAll(s: State) returns (t: State)
    requires s.unfinished >= |s.queue|
    ensures t == DrainQueue(s)
    ensures t.queue == [] && t.drained == s.drained + s.queue && t.unfinished == s.unfinished - |s.queue|
  {
    DrainEmpties(s);
    t := s;
    while t.queue != []
      invariant DrainQueue(t) == DrainQueue(s)
      decreases |t.queue|
    {
      t := TaskDone(t.(queue := t.queue[1..], drained := t.drained + [t.queue[0]]));
    }
  }
}
