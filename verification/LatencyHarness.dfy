/** The latency harness executed in place, down to the reported percentiles. */
module LatencyHarness {
  import opened Words
  import opened QueueLatency
  import SpscQueue
  import SpscMachine
  import P = Percentiles
  import Counting

  class Harness {
    const plan: Plan
    const queue: SpscMachine.Machine
    var clock: nat
    var flag: bool
    var ready: bool
    var popped: bool
    const latencies: array<int>

    ghost predicate Valid()
      reads this, queue
    {
      && queue.u == Setup(plan)
      && queue.Valid()
      && latencies.Length == plan.ops
    }

    ghost function State(): (s: State)
      reads this, queue, queue.buffer, latencies
      requires Valid()
      ensures Shaped(plan, s)
    {
      QueueLatency.State(queue.State(), clock, flag, ready, popped, latencies[..])
    }

    /** Preallocates the latency vector and the queue; the producer has just read the clock. */
    constructor (plan: Plan)
      ensures Valid() && this.plan == plan && fresh(queue) && fresh(queue.buffer) && fresh(latencies)
      ensures State() == Init(plan)
    {
      this.plan := plan;
      queue := new SpscMachine.Machine(Setup(plan));
      clock, flag, ready, popped := plan.start, false, false, false;
      latencies := new int[plan.ops](_ => 0);
      new;
      assert latencies[..] == Init(plan).latencies;
    }

    /** The producer thread: raise the flag, wait for the intended time, push. */
    method ProducerAccess()
      requires Valid()
      modifies this`flag, this`ready, queue`tail, queue`producer, queue.buffer
      ensures Valid() && State() == ProducerStep(plan, old(State()))
    {
      var t := queue.producer;
      if !flag {
        flag := true;
      } else if t.pc == SpscQueue.LoadIndex && t.i < plan.ops && !ready {
        var intended := Intended(plan, t.i);
        ready := clock >= intended;
      } else {
        queue.PushAccess();
        if t.pc == SpscQueue.StoreIndex { ready := false; }
      }
    }

    /** The consumer thread: wait for the flag, pop, take the receive time and store the latency. */
    method ConsumerAccess()
      requires Valid()
      modifies this`popped, queue`head, queue`consumer, queue.buffer, latencies
      ensures Valid() && State() == ConsumerStep(plan, old(State()))
    {
      var t := queue.consumer;
      if flag {
        if popped {
          if 0 < t.i <= plan.ops {
            var received := clock;
            latencies[t.i - 1] := AsInt64(Wrap64(received - t.value));
            popped := false;
          }
        } else {
          queue.PopAccess();
          popped := t.pc == SpscQueue.StoreIndex;
        }
      }
    }

    method Execute(schedule: seq<Choice>)
      requires Valid() && State() == Init(plan)
      modifies this, queue, queue.buffer, latencies
      ensures Valid() && State() == Run(plan, schedule)
    {
      for n := 0 to |schedule|
        invariant Valid() && State() == Run(plan, schedule[..n])
      {
        assert schedule[..n + 1][..n] == schedule[..n];
        match schedule[n] {
          case Tick(d) => clock := clock + d;
          case Produce => ProducerAccess();
          case Consume => ConsumerAccess();
        }
      }
      assert schedule[..|schedule|] == schedule;
    }
  }

  /** Receive times minus the fixed schedule: what the reported percentiles are about. */
  function Lateness(plan: Plan, at: seq<nat>): (r: seq<int>)
    ensures |r| == |at|
    ensures forall k :: 0 <= k < |at| ==> r[k] == at[k] - (plan.start + k * plan.interval)
  {
    seq(|at|, k requires 0 <= k < |at| => at[k] - (plan.start + k * plan.interval))
  }

  /**
   * `main`: under any interleaving that delivers every item and any monotone clock, the reported values are the
   * order statistics of receive time minus intended send time, none is negative, and they are ordered.
   */
  method Measure(plan: Plan, schedule: seq<Choice>) returns (p: P.Percentiles)
    requires ValidPlan(plan) && plan.ops > 0 && Run(plan, schedule).clock < TWO_63
    requires Run(plan, schedule).queue.consumer.i == plan.ops && !Run(plan, schedule).popped
    ensures |ReceivedAt(plan, schedule)| == plan.ops
    ensures P.IsRank(Lateness(plan, ReceivedAt(plan, schedule)), P.Index(0.50, plan.ops), p.p50)
    ensures P.IsRank(Lateness(plan, ReceivedAt(plan, schedule)), P.Index(0.99, plan.ops), p.p99)
    ensures P.IsRank(Lateness(plan, ReceivedAt(plan, schedule)), P.Index(0.999, plan.ops), p.p999)
    ensures P.IsRank(Lateness(plan, ReceivedAt(plan, schedule)), P.Index(0.9999, plan.ops), p.p9999)
    ensures P.IsRank(Lateness(plan, ReceivedAt(plan, schedule)), plan.ops - 1, p.max)
    ensures P.IsQuantile(Lateness(plan, ReceivedAt(plan, schedule)), 0.50, p.p50)
    ensures P.IsQuantile(Lateness(plan, ReceivedAt(plan, schedule)), 0.99, p.p99)
    ensures P.IsQuantile(Lateness(plan, ReceivedAt(plan, schedule)), 0.999, p.p999)
    ensures P.IsQuantile(Lateness(plan, ReceivedAt(plan, schedule)), 0.9999, p.p9999)
    ensures 0 <= p.p50 <= p.p99 <= p.p999 <= p.p9999 <= p.max
  {
    var h := new Harness(plan);
    h.Execute(schedule);
    ghost var was := h.latencies[..];
    LatenessRecorded(plan, schedule);
    assert was == Lateness(plan, ReceivedAt(plan, schedule));
    p := P.ComputePercentiles(h.latencies);
    NonNegativeRank(was, P.Index(0.50, plan.ops), p.p50);
  }

  lemma LatenessRecorded(plan: Plan, schedule: seq<Choice>)
    requires ValidPlan(plan) && Run(plan, schedule).clock < TWO_63
    requires Run(plan, schedule).queue.consumer.i == plan.ops && !Run(plan, schedule).popped
    ensures |ReceivedAt(plan, schedule)| == plan.ops
    ensures Run(plan, schedule).latencies == Lateness(plan, ReceivedAt(plan, schedule))
    ensures forall k :: 0 <= k < plan.ops ==> Run(plan, schedule).latencies[k] >= 0
  {
    AllRecorded(plan, schedule);
    forall k | 0 <= k < plan.ops
      ensures Run(plan, schedule).latencies[k] == Lateness(plan, ReceivedAt(plan, schedule))[k]
    {
      LatencyFromIntended(plan, schedule, k);
    }
  }

  lemma NonNegativeRank(s: seq<int>, k: nat, v: int)
    requires P.IsRank(s, k, v) && forall i :: 0 <= i < |s| ==> s[i] >= 0
    ensures v >= 0
  {
    if v < 0 {
      Counting.CountNone(s, P.Below(v + 1));
    }
  }
}
