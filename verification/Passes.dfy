/** The publisher's passes come to an end and empty the queues (src/lddc.cpp, DistributePointCloudData,
    PollingLidarPointCloudData and the loops that publish). */
module Passes {
  import opened Wakeup

  /** At most this many steps look at the lidars from `k` on: four for each, and two for each frame. */
  function Ahead(used: seq<nat>, k: nat): nat
    decreases |used| - k
  {
    if k >= |used| then 0 else 4 + 2 * used[k] + Ahead(used, k + 1)
  }

  /** ... and this many until the pass leaves the lidar it is at. */
  function Here(s: System): nat
    requires Ready(s)
  {
    match s.consumer
    case Waiting => 0
    case At(i) => 1 + Ahead(s.used, i)
    case Outer(i) => (if s.used[i] == 0 then 1 else 3 + 2 * s.used[i]) + 1 + Ahead(s.used, i + 1)
    case Inner(i) => 2 + 2 * s.used[i] + 1 + Ahead(s.used, i + 1)
    case Popping(i) => (if s.used[i] == 0 then 3 else 1 + 2 * s.used[i]) + 1 + Ahead(s.used, i + 1)
  }

  /** A bound on the steps the publisher can take without another push: the rest of its pass, and one more
      pass for a pending token. */
  function Budget(s: System): nat
    requires Ready(s)
  {
    Here(s) + if s.count > 0 then s.count * (2 + Ahead(s.used, 0)) else 0
  }

  predicate OnlyConsumes(steps: seq<Step>) {
    forall k :: 0 <= k < |steps| ==> steps[k] == Consume
  }

  /* ---- every step is paid for ---- */

  lemma {:induction false} AheadAfterPop(used: seq<nat>, i: nat, k: nat)
    requires i < |used| && used[i] > 0
    ensures Ahead(used[i := used[i] - 1], k) == Ahead(used, k) - if k <= i then 2 else 0
    decreases |used| - k
  {
    if k < |used| {
      AheadAfterPop(used, i, k + 1);
    }
  }

  lemma HereStep(s: System)
    requires Ready(s) && !s.consumer.Waiting?
    ensures var t := ConsumeStep(s); Ready(t) && Here(t) < Here(s) && t.count == s.count
    ensures Ahead(ConsumeStep(s).used, 0) <= Ahead(s.used, 0)
  {
    if s.consumer.Popping? && s.used[s.consumer.i] > 0 {
      AheadAfterPop(s.used, s.consumer.i, s.consumer.i + 1);
      AheadAfterPop(s.used, s.consumer.i, 0);
    }
  }

  lemma Product(c: int, a: nat, b: nat)
    requires c >= 0 && a <= b
    ensures c * (2 + a) <= c * (2 + b)
  {
  }

  lemma StepIsPaid(s: System)
    requires Ready(s) && Enabled(s, Consume) && s.count <= 1
    ensures Ready(ConsumeStep(s)) && Budget(ConsumeStep(s)) < Budget(s) && ConsumeStep(s).count <= 1
  {
    if !s.consumer.Waiting? {
      HereStep(s);
      if s.count > 0 {
        Product(s.count, Ahead(ConsumeStep(s).used, 0), Ahead(s.used, 0));
      }
    }
    hide Ahead;
  }

  /** Without a push only the publisher moves: the producer stays where it is, no lidar begins to sample,
      and nothing becomes missed. */
  lemma ConsumeKeepsRest(s: System)
    requires Ready(s) && Enabled(s, Consume)
    ensures var t := ConsumeStep(s);
            t.producer == s.producer && t.sampling == s.sampling && t.missed <= s.missed && |t.used| == |s.used|
  {
  }

  lemma {:induction false} PassesArePaid(s: System, steps: seq<Step>)
    requires Inv(s) && Schedule(s, steps) && OnlyConsumes(steps)
    ensures var t := Play(s, steps);
            && |steps| + Budget(t) <= Budget(s) && Inv(t)
            && t.producer == s.producer && t.sampling == s.sampling && t.missed <= s.missed && |t.used| == |s.used|
    decreases |steps|
  {
    if steps != [] {
      assert steps[0] == Consume;
      StepKeeps(s, Consume);
      StepIsPaid(s);
      ConsumeKeepsRest(s);
      hide Inv, Budget, ConsumeStep;
      PassesArePaid(ConsumeStep(s), steps[1..]);
    }
  }

  /** Where the publisher can go no further, every sampling lidar that is not missed is empty. */
  lemma StoppedIsEmpty(s: System, i: Lidar)
    requires Inv(s) && s.producer.Idle? && !Enabled(s, Consume) && i < |s.used| && s.sampling[i] && i !in s.missed
    ensures s.used[i] == 0
  {
    assert LidarOk(s, i);
  }

  /** From any state reached in which the producer is idle: the publisher takes at most Budget steps, and
      when it waits in vain, the queue of every sampling lidar is empty, unless that lidar began to sample
      late. */
  lemma PassesEmptyQueues(start: System, before: seq<Step>, steps: seq<Step>, i: Lidar)
    requires Initial(start) && Schedule(start, before) && Play(start, before).producer.Idle?
    requires Schedule(Play(start, before), steps) && OnlyConsumes(steps)
    ensures var s := Play(start, before); var t := Play(s, steps);
            && |steps| <= Budget(s)
            && (|steps| == Budget(s) ==> !Enabled(t, Consume))
            && (!Enabled(t, Consume) && i < |t.used| && t.sampling[i] && !LateStart(start, before, i)
                ==> t.used[i] == 0)
  {
    InitialIsInv(start);
    PlayKeeps(start, before);
    var s := Play(start, before);
    PassesArePaid(s, steps);
    MissedIsLate(start, before, i);
    var t := Play(s, steps);
    hide Play, Schedule, LateStart, NoToken, Budget, Inv;
    if |steps| == Budget(s) && Enabled(t, Consume) {
      BudgetIsThere(t);
    }
    if !Enabled(t, Consume) && i < |t.used| && t.sampling[i] && !LateStart(start, before, i) {
      StoppedIsEmpty(t, i);
    }
  }

  lemma InitialIsInv(s: System)
    requires Initial(s)
    ensures Inv(s)
  {
  }

  lemma BudgetIsThere(s: System)
    requires Inv(s) && Enabled(s, Consume)
    ensures Budget(s) > 0
  {
    StepIsPaid(s);
    hide Budget;
  }
}
