/** The open-loop latency harness: a queue run under a clock, with a fixed schedule of intended send times. */
module QueueLatency {
  import opened Words
  import SpscQueue

  /** `start` is the clock reading the producer takes before it raises the start flag. */
  datatype Plan = Plan(logCapacity: nat, ops: nat, start: nat, interval: nat)

  /** The intended send time of item `i`. */
  function Intended(plan: Plan, i: nat): nat {
    Wrap64(plan.start + i * plan.interval)
  }

  function Setup(plan: Plan): SpscQueue.Setup {
    SpscQueue.Setup(plan.logCapacity, seq(plan.ops, i requires 0 <= i => Intended(plan, i)))
  }

  /**
   * `ready` means the producer's wait loop for its current item is over; `popped` means `pop` has returned and
   * the receive time is yet to be taken.
   */
  datatype State = State(queue: SpscQueue.State, clock: nat, flag: bool, ready: bool, popped: bool, latencies: seq<int>)

  datatype Choice = Tick(d: nat) | Produce | Consume

  ghost predicate ValidPlan(plan: Plan) {
    SpscQueue.ValidSetup(Setup(plan)) && plan.start + plan.ops * plan.interval < TWO_63
  }

  predicate Shaped(plan: Plan, s: State) {
    SpscQueue.Sized(Setup(plan), s.queue) && |s.latencies| == plan.ops
  }

  function Init(plan: Plan): (s: State)
    ensures Shaped(plan, s)
  {
    State(SpscQueue.Init(Setup(plan)), plan.start, false, false, false, seq(plan.ops, i => 0))
  }

  function ProducerStep(plan: Plan, s: State): (s': State)
    requires Shaped(plan, s)
    ensures Shaped(plan, s')
  {
    var t := s.queue.producer;
    if !s.flag then s.(flag := true)
    else if t.pc == SpscQueue.LoadIndex && t.i < plan.ops && !s.ready then
      s.(ready := s.clock >= Intended(plan, t.i))
    else
      s.(queue := SpscQueue.ProducerStep(Setup(plan), s.queue), ready := s.ready && t.pc != SpscQueue.StoreIndex)
  }

  function ConsumerStep(plan: Plan, s: State): (s': State)
    requires Shaped(plan, s)
    ensures Shaped(plan, s')
  {
    var t := s.queue.consumer;
    if !s.flag then s
    else if s.popped then
      if 0 < t.i <= plan.ops
      then s.(popped := false, latencies := s.latencies[t.i - 1 := AsInt64(Wrap64(s.clock - t.value))])
      else s
    else
      s.(queue := SpscQueue.ConsumerStep(Setup(plan), s.queue), popped := t.pc == SpscQueue.StoreIndex)
  }

  function Step(plan: Plan, s: State, choice: Choice): (s': State)
    requires Shaped(plan, s)
    ensures Shaped(plan, s')
  {
    match choice
    case Tick(d) => s.(clock := s.clock + d)
    case Produce => ProducerStep(plan, s)
    case Consume => ConsumerStep(plan, s)
  }

  function Run(plan: Plan, schedule: seq<Choice>): (s: State)
    ensures Shaped(plan, s)
  {
    if schedule == [] then Init(plan)
    else Step(plan, Run(plan, schedule[..|schedule| - 1]), schedule[|schedule| - 1])
  }

  /** The clock readings the consumer has taken, one per received item. */
  function ReceivedAt(plan: Plan, schedule: seq<Choice>): seq<nat> {
    if schedule == [] then []
    else
      var before := schedule[..|schedule| - 1];
      var s := Run(plan, before);
      ReceivedAt(plan, before) + if schedule[|schedule| - 1] == Consume && s.flag && s.popped then [s.clock] else []
  }

  function Stamped(s: State): int {
    s.queue.consumer.i - if s.popped then 1 else 0
  }

  // ---------------------------------------------------------------- invariant

  /** No item is pushed before its intended time. */
  ghost predicate NeverEarly(plan: Plan, s: State) {
    && (forall k: nat :: k < s.queue.producer.i ==> Intended(plan, k) <= s.clock)
    && (s.ready || s.queue.producer.pc != SpscQueue.LoadIndex ==> Intended(plan, s.queue.producer.i) <= s.clock)
  }

  ghost predicate StampPending(plan: Plan, s: State) {
    s.popped ==> 0 < s.queue.consumer.i <= plan.ops && s.queue.consumer.pc == SpscQueue.LoadIndex &&
                 s.queue.consumer.value == Intended(plan, s.queue.consumer.i - 1)
  }

  /** Nothing is pushed before the start flag. */
  ghost predicate FlagFirst(s: State) {
    !s.flag ==> s.queue.producer.pc == SpscQueue.LoadIndex && s.queue.producer.i == 0
  }

  ghost predicate Inv(plan: Plan, s: State) {
    && Shaped(plan, s)
    && FlagFirst(s)
    && SpscQueue.Inv(Setup(plan), s.queue)
    && NeverEarly(plan, s)
    && StampPending(plan, s)
  }

  lemma ProducerStepInv(plan: Plan, s: State)
    requires ValidPlan(plan) && Inv(plan, s)
    ensures Inv(plan, ProducerStep(plan, s))
  {
    hide SpscQueue.Inv;
    SpscQueue.ProducerStepInv(Setup(plan), s.queue);
  }

  lemma ConsumerStepInv(plan: Plan, s: State)
    requires ValidPlan(plan) && Inv(plan, s)
    ensures Inv(plan, ConsumerStep(plan, s))
  {
    SpscQueue.ConsumerStepInv(Setup(plan), s.queue);
  }

  lemma {:induction false} RunInv(plan: Plan, schedule: seq<Choice>)
    requires ValidPlan(plan)
    ensures Inv(plan, Run(plan, schedule))
  {
    if schedule == [] {
      SpscQueue.InitInv(Setup(plan));
    } else {
      var before := schedule[..|schedule| - 1];
      RunInv(plan, before);
      match schedule[|schedule| - 1]
      case Tick(d) =>
      case Produce => ProducerStepInv(plan, Run(plan, before));
      case Consume => ConsumerStepInv(plan, Run(plan, before));
    }
  }

  /** Intended times do not wrap. */
  lemma IntendedExact(plan: Plan, i: nat)
    requires ValidPlan(plan) && i <= plan.ops
    ensures Intended(plan, i) == plan.start + i * plan.interval < TWO_63
  {
    MulMonotone(i, plan.ops, plan.interval);
    MulMonotone(0, i, plan.interval);
  }

  /** What the consumer has popped was due: the intended time of every received item has passed. */
  lemma PoppedWasDue(plan: Plan, s: State)
    requires Inv(plan, s)
    ensures forall k: nat :: k < s.queue.consumer.i ==> Intended(plan, k) <= s.clock
  {
  }

  // ---------------------------------------------------------------- theorems

  ghost predicate Recorded(plan: Plan, s: State, at: seq<nat>) {
    && 0 <= Stamped(s) == |at| <= |s.latencies|
    && (forall k :: 0 <= k < |at| ==> at[k] <= s.clock && s.latencies[k] == at[k] - Intended(plan, k))
    && (forall k :: 0 <= k < |at| ==> s.latencies[k] >= 0)
    && (forall j, k :: 0 <= j < k < |at| ==> at[j] <= at[k])
  }

  lemma StepRecords(plan: Plan, s: State, choice: Choice, at: seq<nat>)
    requires ValidPlan(plan) && Inv(plan, s) && Recorded(plan, s, at) && s.clock < TWO_63
    ensures Recorded(plan, Step(plan, s, choice),
                     at + if choice == Consume && s.flag && s.popped then [s.clock] else [])
  {
    hide Intended;
    if choice == Consume && s.flag && s.popped {
      PoppedWasDue(plan, s);
    } else {
      assert at + [] == at;
    }
  }

  lemma {:induction false} Records(plan: Plan, schedule: seq<Choice>)
    requires ValidPlan(plan) && Run(plan, schedule).clock < TWO_63
    ensures Recorded(plan, Run(plan, schedule), ReceivedAt(plan, schedule))
  {
    if schedule != [] {
      var before, choice := schedule[..|schedule| - 1], schedule[|schedule| - 1];
      assert Run(plan, before).clock <= Run(plan, schedule).clock;
      Records(plan, before);
      RunInv(plan, before);
      StepRecords(plan, Run(plan, before), choice, ReceivedAt(plan, before));
    }
  }

  /**
   * In every interleaving and for every monotone clock, latency `k` is the receive time minus the intended send
   * time `start + k * interval`, and it is never negative. How late earlier items were plays no part in it.
   */
  lemma LatencyFromIntended(plan: Plan, schedule: seq<Choice>, k: nat)
    requires ValidPlan(plan) && Run(plan, schedule).clock < TWO_63
    requires k < |ReceivedAt(plan, schedule)|
    ensures k < plan.ops
    ensures Run(plan, schedule).latencies[k] == ReceivedAt(plan, schedule)[k] - (plan.start + k * plan.interval)
    ensures Run(plan, schedule).latencies[k] >= 0
  {
    Records(plan, schedule);
    IntendedExact(plan, k);
  }

  /**
   * No coordinated omission: a stall seen by item `j` is charged to every later item that was due during it.
   * Item `k` is at least as late as item `j`, less the time between their intended sends.
   */
  lemma StallIsCharged(plan: Plan, schedule: seq<Choice>, j: nat, k: nat)
    requires ValidPlan(plan) && Run(plan, schedule).clock < TWO_63
    requires j <= k < |ReceivedAt(plan, schedule)| && k < plan.ops
    ensures Run(plan, schedule).latencies[k] >= Run(plan, schedule).latencies[j] - (k - j) * plan.interval
  {
    Records(plan, schedule);
    LatencyFromIntended(plan, schedule, j);
    LatencyFromIntended(plan, schedule, k);
    assert (k - j) * plan.interval == k * plan.interval - j * plan.interval;
  }

  /** Once every item has been stamped, the latency vector is filled. */
  lemma AllRecorded(plan: Plan, schedule: seq<Choice>)
    requires ValidPlan(plan) && Run(plan, schedule).clock < TWO_63
    requires Run(plan, schedule).queue.consumer.i == plan.ops && !Run(plan, schedule).popped
    ensures |ReceivedAt(plan, schedule)| == plan.ops
    ensures forall k :: 0 <= k < plan.ops ==> Run(plan, schedule).latencies[k] >= 0
  {
    Records(plan, schedule);
  }
}
