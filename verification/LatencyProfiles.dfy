/** Which receive times the open-loop harness can report: exactly the timely ones. */
module LatencyProfiles {
  import opened Words
  import opened QueueLatency
  import opened LatencyProgress

  /** Receive times that never go back, none before its item's intended time. */
  ghost predicate Timely(plan: Plan, at: seq<nat>) {
    && (forall k :: 0 <= k < |at| ==> plan.start + k * plan.interval <= at[k])
    && (forall j, k :: 0 <= j < k < |at| ==> at[j] <= at[k])
  }

  lemma ReceivedOneMore(plan: Plan, schedule: seq<Choice>, choice: Choice)
    ensures var s := Run(plan, schedule);
      ReceivedAt(plan, schedule + [choice])
        == ReceivedAt(plan, schedule) + if choice == Consume && s.flag && s.popped then [s.clock] else []
  {
    var longer := schedule + [choice];
    assert longer[..|longer| - 1] == schedule;
  }

  /** Without a tick, what is received is received at the present clock reading. */
  lemma {:induction false} ReceivedNow(plan: Plan, schedule: seq<Choice>, more: seq<Choice>)
    requires forall i :: 0 <= i < |more| ==> !more[i].Tick?
    ensures Run(plan, schedule + more).clock == Run(plan, schedule).clock
    ensures exists n: nat :: ReceivedAt(plan, schedule + more)
                          == ReceivedAt(plan, schedule) + Readings(Run(plan, schedule).clock, n)
  {
    hide Run, ReceivedAt;
    if more == [] {
      assert schedule + more == schedule;
      assert ReceivedAt(plan, schedule) + Readings(Run(plan, schedule).clock, 0) == ReceivedAt(plan, schedule);
    } else {
      var init, choice := more[..|more| - 1], more[|more| - 1];
      ReceivedNow(plan, schedule, init);
      assert schedule + more == schedule + init + [choice];
      RunOneMore(plan, schedule + init, choice);
      ReceivedOneMore(plan, schedule + init, choice);
      var now := Run(plan, schedule).clock;
      var n: nat :| ReceivedAt(plan, schedule + init) == ReceivedAt(plan, schedule) + Readings(now, n);
      assert ReceivedAt(plan, schedule) + Readings(now, n) + [now] == ReceivedAt(plan, schedule) + Readings(now, n + 1);
      assert ReceivedAt(plan, schedule) + Readings(now, n) + [] == ReceivedAt(plan, schedule) + Readings(now, n);
    }
  }

  /** The same clock reading `n` times. */
  function Readings(now: nat, n: nat): seq<nat> {
    seq(n, i => now)
  }

  /** The first `n` of the wanted receive times have been realised, and nothing else has been sent. */
  ghost predicate Realises(plan: Plan, at: seq<nat>, n: nat, schedule: seq<Choice>)
    requires n <= |at|
  {
    var s := Run(plan, schedule);
    && ReceivedAt(plan, schedule) == at[..n]
    && Published(s) == Stamped(s) == n
    && s.clock == if n == 0 then plan.start else at[n - 1]
  }

  /** Once something is published, the flag is up. */
  lemma FlagUp(plan: Plan, s: State)
    requires Inv(plan, s) && Published(s) > 0
    ensures s.flag
  {
  }

  lemma RoomWhenEmpty(plan: Plan, s: State)
    requires Inv(plan, s) && Published(s) == Stamped(s)
    ensures Room(plan, s)
  {
  }

  lemma ReceivedIsStamped(plan: Plan, schedule: seq<Choice>)
    requires ValidPlan(plan) && Run(plan, schedule).clock < TWO_63
    ensures |ReceivedAt(plan, schedule)| == Stamped(Run(plan, schedule))
  {
    Records(plan, schedule);
  }

  lemma TickOnly(plan: Plan, s: State, d: nat)
    requires Shaped(plan, s)
    ensures var s' := Step(plan, s, Tick(d));
      s'.clock == s.clock + d && Published(s') == Published(s) && Stamped(s') == Stamped(s)
  {
  }

  /** Wait for the reading wanted, send one item, receive it. */
  lemma RealiseOne(plan: Plan, at: seq<nat>, n: nat, before: seq<Choice>) returns (schedule: seq<Choice>)
    requires ValidPlan(plan) && n < |at| <= plan.ops && Timely(plan, at) && at[n] < TWO_63
    requires Realises(plan, at, n, before)
    ensures Realises(plan, at, n + 1, schedule)
  {
    hide Run, ReceivedAt, Inv, Stamped, Room, Published;
    assert plan.start + n * plan.interval <= at[n];
    var tick := Tick(at[n] - Run(plan, before).clock);
    var s1 := before + [tick];
    RunOneMore(plan, before, tick);
    TickOnly(plan, Run(plan, before), tick.d);
    ReceivedOneMore(plan, before, tick);
    RunInv(plan, s1);
    RoomWhenEmpty(plan, Run(plan, s1));
    var produce := PublishOne(plan, s1);
    var s2 := s1 + produce;
    RunInv(plan, s2);
    FlagUp(plan, Run(plan, s2));
    var consume := StampOne(plan, s2);
    schedule := s2 + consume;
    var more := produce + consume;
    assert schedule == s1 + more;
    ReceivedNow(plan, s1, more);
    ReceivedIsStamped(plan, schedule);
    var m: nat :| ReceivedAt(plan, schedule) == ReceivedAt(plan, s1) + Readings(at[n], m);
    assert ReceivedAt(plan, s1) == at[..n];
    assert at[..n + 1] == at[..n] + Readings(at[n], 1);
  }

  lemma {:induction false} RealiseAll(plan: Plan, at: seq<nat>, n: nat) returns (schedule: seq<Choice>)
    requires ValidPlan(plan) && n <= |at| <= plan.ops && Timely(plan, at)
    requires forall k :: 0 <= k < |at| ==> at[k] < TWO_63
    ensures Realises(plan, at, n, schedule)
  {
    if n == 0 {
      schedule := [];
    } else {
      schedule := RealiseAll(plan, at, n - 1);
      schedule := RealiseOne(plan, at, n - 1, schedule);
    }
  }

  /**
   * The harness adds and hides nothing: a sequence of receive times comes from some run if and only if it never goes
   * back and no item comes before its intended time. In particular some run has every item received on the instant,
   * and any pattern of stalls shows as it is.
   */
  lemma AttainableExactly(plan: Plan, at: seq<nat>)
    requires ValidPlan(plan) && |at| <= plan.ops && forall k :: 0 <= k < |at| ==> at[k] < TWO_63
    ensures (exists schedule :: Run(plan, schedule).clock < TWO_63 && ReceivedAt(plan, schedule) == at)
       <==> Timely(plan, at)
  {
    if Timely(plan, at) {
      var schedule := RealiseAll(plan, at, |at|);
      assert at[..|at|] == at;
      assert plan.start < TWO_63 by { MulMonotone(0, plan.ops, plan.interval); }
      assert Run(plan, schedule).clock < TWO_63 && ReceivedAt(plan, schedule) == at;
    }
    forall schedule | Run(plan, schedule).clock < TWO_63 && ReceivedAt(plan, schedule) == at
      ensures Timely(plan, at)
    {
      ReceivedTimely(plan, schedule);
    }
  }

  lemma ReceivedTimely(plan: Plan, schedule: seq<Choice>)
    requires ValidPlan(plan) && Run(plan, schedule).clock < TWO_63
    ensures |ReceivedAt(plan, schedule)| <= plan.ops && Timely(plan, ReceivedAt(plan, schedule))
  {
    Records(plan, schedule);
    var at := ReceivedAt(plan, schedule);
    forall k | 0 <= k < |at|
      ensures plan.start + k * plan.interval <= at[k]
    {
      LatencyFromIntended(plan, schedule, k);
    }
  }
}
