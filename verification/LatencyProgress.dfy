/** The open-loop harness moves: a due item is pushed, a pushed item is stamped, and every run can be completed. */
module LatencyProgress {
  import opened Words
  import opened QueueLatency
  import Q = SpscQueue

  function Repeat(choice: Choice, n: nat): seq<Choice> {
    seq(n, i => choice)
  }

  lemma RunOneMore(plan: Plan, schedule: seq<Choice>, choice: Choice)
    ensures Run(plan, schedule + [choice]) == Step(plan, Run(plan, schedule), choice)
  {
    var longer := schedule + [choice];
    assert longer[..|longer| - 1] == schedule;
  }

  /** The same thread moving `n` times, no tick between. */
  function Solo(plan: Plan, s: State, choice: Choice, n: nat): (s': State)
    requires Shaped(plan, s)
    ensures Shaped(plan, s')
    decreases n
  {
    if n == 0 then s else Solo(plan, Step(plan, s, choice), choice, n - 1)
  }

  lemma {:induction false} RunSolo(plan: Plan, schedule: seq<Choice>, choice: Choice, n: nat)
    ensures Run(plan, schedule + Repeat(choice, n)) == Solo(plan, Run(plan, schedule), choice, n)
    decreases n
  {
    hide Run, Step;
    if n == 0 {
      assert schedule + Repeat(choice, 0) == schedule;
    } else {
      RunOneMore(plan, schedule, choice);
      RunSolo(plan, schedule + [choice], choice, n - 1);
      assert schedule + Repeat(choice, n) == schedule + [choice] + Repeat(choice, n - 1);
    }
  }

  lemma StepInv(plan: Plan, s: State, choice: Choice)
    requires ValidPlan(plan) && Inv(plan, s)
    ensures Inv(plan, Step(plan, s, choice))
  {
    match choice
    case Tick(d) =>
    case Produce => ProducerStepInv(plan, s);
    case Consume => ConsumerStepInv(plan, s);
  }

  // ------------------------------------------------------------------- the producer

  function Published(s: State): nat {
    Q.Published(s.queue)
  }

  /** Item `k` is due: the clock has reached its intended time. */
  predicate Due(plan: Plan, s: State, k: nat) {
    s.clock >= plan.start + k * plan.interval
  }

  predicate Room(plan: Plan, s: State) {
    Published(s) < Q.Released(s.queue) + Q.Size(Setup(plan))
  }

  /** Accesses the producer still needs to publish its next item. */
  function ToPublish(s: State): nat {
    (if s.flag then 0 else 1) +
    match s.queue.producer.pc
    case StoreIndex => 6
    case LoadIndex => if s.ready then 4 else 5
    case Spin => 3
    case Payload => 2
    case StoreSequence => 1
  }

  lemma OneCloser(plan: Plan, s: State)
    requires ValidPlan(plan) && Inv(plan, s) && Published(s) < plan.ops && Due(plan, s, Published(s)) && Room(plan, s)
    ensures var s' := ProducerStep(plan, s);
      if ToPublish(s) == 1 then Published(s') == Published(s) + 1
      else Published(s') == Published(s) && ToPublish(s') == ToPublish(s) - 1 && s'.clock == s.clock && Room(plan, s')
  {
    hide Q.CellOk, Q.Size;
    IntendedExact(plan, Published(s));
    Q.SpinsExactlyAt(Setup(plan), s.queue);
  }

  lemma {:induction false} ComesOut(plan: Plan, s: State)
    requires ValidPlan(plan) && Inv(plan, s) && Published(s) < plan.ops && Due(plan, s, Published(s)) && Room(plan, s)
    ensures Published(Solo(plan, s, Produce, ToPublish(s))) == Published(s) + 1
    decreases ToPublish(s)
  {
    hide Q.Inv, NeverEarly, StampPending, ProducerStep, Room, Due;
    OneCloser(plan, s);
    var s' := Step(plan, s, Produce);
    if ToPublish(s) > 1 {
      StepInv(plan, s, Produce);
      SameDue(plan, s, s', Published(s));
      ComesOut(plan, s');
    } else {
      assert Solo(plan, s', Produce, 0) == s';
    }
  }

  lemma SameDue(plan: Plan, s: State, s': State, k: nat)
    requires Due(plan, s, k) && s'.clock == s.clock
    ensures Due(plan, s', k)
  {
  }

  /** What the producer alone can never change, and what bounds it. */
  lemma {:induction false} ProducerAlone(plan: Plan, s: State, n: nat)
    requires ValidPlan(plan) && Inv(plan, s)
    ensures var s' := Solo(plan, s, Produce, n);
      && Inv(plan, s') && s'.clock == s.clock
      && Q.Released(s'.queue) == Q.Released(s.queue) && Published(s') >= Published(s)
    decreases n
  {
    hide Q.Inv, NeverEarly, StampPending;
    if n > 0 {
      StepInv(plan, s, Produce);
      ProducerMoves(plan, s);
      ProducerAlone(plan, Step(plan, s, Produce), n - 1);
    }
  }

  lemma ProducerMoves(plan: Plan, s: State)
    requires ValidPlan(plan) && Inv(plan, s)
    ensures var s' := Step(plan, s, Produce);
      s'.clock == s.clock && Q.Released(s'.queue) == Q.Released(s.queue) && Published(s') >= Published(s)
  {
  }

  /** Whatever is published was due, and there was room for it. */
  lemma PublishedWasDue(plan: Plan, s: State, k: nat)
    requires ValidPlan(plan) && Inv(plan, s) && k < Published(s)
    ensures k < plan.ops && Due(plan, s, k) && k < Q.Released(s.queue) + Q.Size(Setup(plan))
  {
    IntendedExact(plan, k);
  }

  /**
   * The producer publishes its next item without any tick of the clock, within seven accesses of its own, exactly when
   * the item's intended time has come and the queue has room. It neither waits longer nor sends early.
   */
  lemma PublishesExactly(plan: Plan, schedule: seq<Choice>)
    requires ValidPlan(plan) && Published(Run(plan, schedule)) < plan.ops
    ensures var s := Run(plan, schedule);
      var k := Published(s);
      if s.clock >= plan.start + k * plan.interval && k < Q.Released(s.queue) + Q.Size(Setup(plan))
      then exists n: nat :: n <= 7 && Published(Run(plan, schedule + Repeat(Produce, n))) == k + 1
      else forall n: nat :: Published(Run(plan, schedule + Repeat(Produce, n))) == k
  {
    hide Inv;
    RunInv(plan, schedule);
    var s := Run(plan, schedule);
    var k := Published(s);
    if Due(plan, s, k) && Room(plan, s) {
      ComesOut(plan, s);
      RunSolo(plan, schedule, Produce, ToPublish(s));
      assert ToPublish(s) <= 7;
    } else {
      forall n: nat
        ensures Published(Run(plan, schedule + Repeat(Produce, n))) == k
      {
        RunSolo(plan, schedule, Produce, n);
        ProducerAlone(plan, s, n);
        if Published(Solo(plan, s, Produce, n)) > k {
          PublishedWasDue(plan, Solo(plan, s, Produce, n), k);
        }
      }
    }
  }

  // ------------------------------------------------------------------- the consumer

  /** Accesses the consumer still needs to stamp its next item. */
  function ToStamp(s: State): nat {
    if s.popped then 1
    else
      match s.queue.consumer.pc
      case LoadIndex => 6
      case Spin => 5
      case Payload => 4
      case StoreSequence => 3
      case StoreIndex => 2
  }

  lemma OneCloserToStamp(plan: Plan, s: State)
    requires ValidPlan(plan) && Inv(plan, s) && s.flag && Stamped(s) < Published(s)
    ensures var s' := ConsumerStep(plan, s);
      && s'.flag && Published(s') == Published(s)
      && if ToStamp(s) == 1 then Stamped(s') == Stamped(s) + 1
         else Stamped(s') == Stamped(s) && ToStamp(s') == ToStamp(s) - 1
  {
    hide Q.CellOk, Q.Size;
    Q.SpinsExactlyAt(Setup(plan), s.queue);
  }

  lemma {:induction false} GetsStamped(plan: Plan, s: State)
    requires ValidPlan(plan) && Inv(plan, s) && s.flag && Stamped(s) < Published(s)
    ensures Stamped(Solo(plan, s, Consume, ToStamp(s))) == Stamped(s) + 1
    decreases ToStamp(s)
  {
    hide Q.Inv, NeverEarly, StampPending, ConsumerStep, Stamped;
    OneCloserToStamp(plan, s);
    var s' := Step(plan, s, Consume);
    if ToStamp(s) > 1 {
      StepInv(plan, s, Consume);
      GetsStamped(plan, s');
    } else {
      assert Solo(plan, s', Consume, 0) == s';
    }
  }

  lemma ConsumerMoves(plan: Plan, s: State)
    requires ValidPlan(plan) && Inv(plan, s)
    ensures var s' := Step(plan, s, Consume);
      && s'.flag == s.flag && Published(s') == Published(s) && Stamped(s') >= Stamped(s)
      && (!s.flag ==> s' == s)
  {
  }

  lemma {:induction false} ConsumerAlone(plan: Plan, s: State, n: nat)
    requires ValidPlan(plan) && Inv(plan, s)
    ensures var s' := Solo(plan, s, Consume, n);
      && Inv(plan, s') && Published(s') == Published(s) && Stamped(s') >= Stamped(s)
      && (!s.flag ==> s' == s)
    decreases n
  {
    hide Q.Inv, NeverEarly, StampPending, Stamped, ConsumerStep;
    if n > 0 {
      StepInv(plan, s, Consume);
      ConsumerMoves(plan, s);
      ConsumerAlone(plan, Step(plan, s, Consume), n - 1);
    }
  }

  /**
   * The consumer stamps its next item, within six accesses of its own, exactly when the start flag is raised and the
   * item is published.
   */
  lemma StampsExactly(plan: Plan, schedule: seq<Choice>)
    requires ValidPlan(plan)
    ensures var s := Run(plan, schedule);
      if s.flag && Stamped(s) < Published(s)
      then exists n: nat :: n <= 6 && Stamped(Run(plan, schedule + Repeat(Consume, n))) == Stamped(s) + 1
      else forall n: nat :: Stamped(Run(plan, schedule + Repeat(Consume, n))) == Stamped(s)
  {
    hide Inv, Stamped;
    RunInv(plan, schedule);
    var s := Run(plan, schedule);
    if s.flag && Stamped(s) < Published(s) {
      GetsStamped(plan, s);
      RunSolo(plan, schedule, Consume, ToStamp(s));
      assert ToStamp(s) <= 6;
    } else {
      forall n: nat
        ensures Stamped(Run(plan, schedule + Repeat(Consume, n))) == Stamped(s)
      {
        RunSolo(plan, schedule, Consume, n);
        ConsumerAlone(plan, s, n);
        StampedBelow(plan, Solo(plan, s, Consume, n));
      }
    }
  }

  lemma StampedBelow(plan: Plan, s: State)
    requires Inv(plan, s)
    ensures Stamped(s) <= Published(s)
  {
  }

  // -------------------------------------------------------------------- completion

  predicate AllStamped(plan: Plan, s: State) {
    s.queue.consumer.i == plan.ops && !s.popped
  }

  lemma StampedCounts(plan: Plan, s: State)
    requires Inv(plan, s)
    ensures 0 <= Stamped(s) <= Published(s) <= plan.ops && (Stamped(s) == plan.ops <==> AllStamped(plan, s))
  {
  }

  /** With the last intended time reached, one more item can be published or stamped. */
  lemma OneMore(plan: Plan, schedule: seq<Choice>) returns (more: seq<Choice>)
    requires ValidPlan(plan) && !AllStamped(plan, Run(plan, schedule))
    requires Run(plan, schedule).clock >= plan.start + (plan.ops - 1) * plan.interval
    ensures |more| <= 7 && (forall i :: 0 <= i < |more| ==> !more[i].Tick?)
    ensures var s, s' := Run(plan, schedule), Run(plan, schedule + more);
      s'.clock == s.clock && Stamped(s') + Published(s') > Stamped(s) + Published(s)
  {
    hide Inv, Stamped, AllStamped, Run;
    RunInv(plan, schedule);
    var s := Run(plan, schedule);
    StampedCounts(plan, s);
    if s.flag && Stamped(s) < Published(s) {
      more := StampOne(plan, schedule);
    } else {
      NextIsDue(plan, s);
      more := PublishOne(plan, schedule);
    }
  }

  lemma StampOne(plan: Plan, schedule: seq<Choice>) returns (more: seq<Choice>)
    requires ValidPlan(plan) && Run(plan, schedule).flag
    requires Stamped(Run(plan, schedule)) < Published(Run(plan, schedule))
    ensures |more| <= 7 && (forall i :: 0 <= i < |more| ==> !more[i].Tick?)
    ensures var s, s' := Run(plan, schedule), Run(plan, schedule + more);
      s'.clock == s.clock && Stamped(s') == Stamped(s) + 1 && Published(s') == Published(s)
  {
    hide Inv, Stamped;
    RunInv(plan, schedule);
    var s := Run(plan, schedule);
    more := Repeat(Consume, ToStamp(s));
    RunSolo(plan, schedule, Consume, ToStamp(s));
    GetsStamped(plan, s);
    ConsumerAlone(plan, s, ToStamp(s));
    SameClock(plan, s, Consume, ToStamp(s));
  }

  lemma PublishOne(plan: Plan, schedule: seq<Choice>) returns (more: seq<Choice>)
    requires ValidPlan(plan) && Published(Run(plan, schedule)) < plan.ops
    requires Due(plan, Run(plan, schedule), Published(Run(plan, schedule))) && Room(plan, Run(plan, schedule))
    ensures |more| <= 7 && (forall i :: 0 <= i < |more| ==> !more[i].Tick?)
    ensures var s, s' := Run(plan, schedule), Run(plan, schedule + more);
      s'.clock == s.clock && Stamped(s') == Stamped(s) && Published(s') == Published(s) + 1
  {
    hide Inv;
    RunInv(plan, schedule);
    var s := Run(plan, schedule);
    more := Repeat(Produce, ToPublish(s));
    RunSolo(plan, schedule, Produce, ToPublish(s));
    ComesOut(plan, s);
    SameClock(plan, s, Produce, ToPublish(s));
    SameStamped(plan, s, ToPublish(s));
  }

  lemma {:induction false} SameClock(plan: Plan, s: State, choice: Choice, n: nat)
    requires Shaped(plan, s) && !choice.Tick?
    ensures Solo(plan, s, choice, n).clock == s.clock
    decreases n
  {
    if n > 0 {
      SameClock(plan, Step(plan, s, choice), choice, n - 1);
    }
  }

  lemma {:induction false} SameStamped(plan: Plan, s: State, n: nat)
    requires Shaped(plan, s)
    ensures Stamped(Solo(plan, s, Produce, n)) == Stamped(s)
    decreases n
  {
    if n > 0 {
      SameStamped(plan, Step(plan, s, Produce), n - 1);
    }
  }

  /** When nothing waits to be stamped, or nothing may be yet, the next item is due and has room. */
  lemma NextIsDue(plan: Plan, s: State)
    requires ValidPlan(plan) && Inv(plan, s) && !AllStamped(plan, s) && !(s.flag && Stamped(s) < Published(s))
    requires s.clock >= plan.start + (plan.ops - 1) * plan.interval
    ensures Published(s) < plan.ops && Due(plan, s, Published(s)) && Room(plan, s)
  {
    StampedCounts(plan, s);
    MulMonotone(Published(s), plan.ops - 1, plan.interval);
  }

  lemma {:induction false} CompleteFrom(plan: Plan, schedule: seq<Choice>, left: nat) returns (rest: seq<Choice>)
    requires ValidPlan(plan) && Run(plan, schedule).clock >= plan.start + (plan.ops - 1) * plan.interval
    requires 2 * plan.ops - Stamped(Run(plan, schedule)) - Published(Run(plan, schedule)) <= left
    ensures AllStamped(plan, Run(plan, schedule + rest)) && |rest| <= 7 * left
    ensures Run(plan, schedule + rest).clock == Run(plan, schedule).clock
    ensures forall i :: 0 <= i < |rest| ==> !rest[i].Tick?
    decreases left
  {
    hide Stamped, AllStamped, Run, Inv;
    RunInv(plan, schedule);
    StampedCounts(plan, Run(plan, schedule));
    if AllStamped(plan, Run(plan, schedule)) {
      rest := [];
      assert schedule + rest == schedule;
    } else {
      var more := OneMore(plan, schedule);
      RunInv(plan, schedule + more);
      StampedCounts(plan, Run(plan, schedule + more));
      var tail := CompleteFrom(plan, schedule + more, left - 1);
      rest := more + tail;
      assert schedule + rest == schedule + more + tail;
    }
  }

  /**
   * Every run whose clock has reached the last intended time, however it began, can be completed without a further
   * tick: all latencies get stamped at that very clock reading.
   */
  lemma CanComplete(plan: Plan, schedule: seq<Choice>)
    requires ValidPlan(plan) && Run(plan, schedule).clock >= plan.start + (plan.ops - 1) * plan.interval
    ensures exists rest: seq<Choice> ::
      && AllStamped(plan, Run(plan, schedule + rest)) && |rest| <= 14 * plan.ops
      && (forall i :: 0 <= i < |rest| ==> !rest[i].Tick?)
      && Run(plan, schedule + rest).clock == Run(plan, schedule).clock
  {
    RunInv(plan, schedule);
    StampedCounts(plan, Run(plan, schedule));
    var rest := CompleteFrom(plan, schedule, 2 * plan.ops);
  }

  /** The plan of the source: 1024 cells, two million items, 2000 ns apart, from any start in the first 290 years. */
  lemma ShippedPlanValid(start: nat)
    requires start + 2_000_000 * 2_000 < TWO_63
    ensures ValidPlan(Plan(10, 2_000_000, start, 2_000)) && Q.Size(Setup(Plan(10, 2_000_000, start, 2_000))) == 1024
  {
    var plan := Plan(10, 2_000_000, start, 2_000);
    assert Pow2(5) == 32;
    assert Pow2(10) == 1024;
    assert Q.Size(Setup(plan)) == 1024;
  }
}
