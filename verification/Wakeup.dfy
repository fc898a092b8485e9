/** The point-cloud semaphore between the packet thread and the publisher thread, as interleaved
    steps (src/lds.cpp, PushLidarData; src/lddc.cpp, DistributePointCloudData,
    PollingLidarPointCloudData and the loops that publish; src/comm/semaphore.cpp). Queues are
    represented by how many frames they hold. */
module Wakeup {

  type Lidar = nat

  datatype Producer =
    | Idle
    | Pushing(i: Lidar)      // the queue is not full
    | Pushed(i: Lidar)       // about to ask whether the queue is empty
    | Counting(i: Lidar)     // about to read the semaphore's count
    | Signalling(i: Lidar)   // has read a count of zero

  datatype Consumer =
    | Waiting                // about to wait for the semaphore
    | At(i: Lidar)           // about to read the lidar's connect_state, or past the last lidar
    | Outer(i: Lidar)        // the loop of PollingLidarPointCloudData
    | Inner(i: Lidar)        // the loop of PublishPointcloud2 or PublishCustomPointcloud
    | Popping(i: Lidar)

  /** `missed` is history: lidars that began sampling with frames nobody was going to look at. */
  datatype System = System(
    room: seq<nat>, used: seq<nat>, sampling: seq<bool>, count: int,
    producer: Producer, consumer: Consumer, missed: set<Lidar>)

  datatype Step =
    | Push(i: Lidar)            // PushLidarData is called and checks whether the queue is full
    | Produce
    | Consume
    | StartSampling(i: Lidar)   // a callback sets connect_state

  predicate Shaped(s: System) {
    |s.used| == |s.room| == |s.sampling|
  }

  function Place(c: Consumer): nat
    requires !c.Waiting?
  {
    c.i
  }

  predicate ProducerIn(s: System) {
    s.producer.Idle? || s.producer.i < |s.used|
  }

  predicate ConsumerIn(s: System) {
    match s.consumer
    case Waiting => true
    case At(i) => i <= |s.used|
    case _ => s.consumer.i < |s.used|
  }

  predicate Ready(s: System) {
    Shaped(s) && ProducerIn(s) && ConsumerIn(s)
  }

  predicate Enabled(s: System, a: Step) {
    match a
    case Push(i) => s.producer.Idle? && i < |s.used|
    case Produce => !s.producer.Idle?
    case Consume => s.consumer.Waiting? ==> s.count > 0
    case StartSampling(i) => i < |s.used|
  }

  /** The consumer is in a pass that will still look at lidar `i`. */
  predicate PassCovers(s: System, i: Lidar) {
    !s.consumer.Waiting? && Place(s.consumer) <= i
  }

  function ProduceStep(s: System): System
    requires Ready(s) && !s.producer.Idle?
  {
    match s.producer
    case Pushing(i) => s.(used := s.used[i := s.used[i] + 1], producer := Pushed(i))
    case Pushed(i) => s.(producer := if s.used[i] == 0 then Idle else Counting(i))
    case Counting(i) => s.(producer := if s.count <= 0 then Signalling(i) else Idle)
    case Signalling(_) => s.(count := s.count + 1, producer := Idle, missed := {})
  }

  function ConsumeStep(s: System): System
    requires Ready(s) && Enabled(s, Consume)
  {
    match s.consumer
    case Waiting => s.(count := s.count - 1, consumer := At(0), missed := {})
    case At(i) =>
      if i == |s.used| then s.(consumer := Waiting)
      else if s.sampling[i] then s.(consumer := Outer(i))
      else s.(consumer := At(i + 1))
    case Outer(i) => s.(consumer := if s.used[i] == 0 then At(i + 1) else Inner(i))
    case Inner(i) => s.(consumer := if s.used[i] == 0 then Outer(i) else Popping(i))
    case Popping(i) => s.(used := if s.used[i] == 0 then s.used else s.used[i := s.used[i] - 1], consumer := Inner(i))
  }

  /** Beginning to sample goes unnoticed when frames are already there, no token is pending and the
      consumer's pass, if any, has left the lidar. */
  predicate Unnoticed(s: System, i: Lidar)
    requires Ready(s) && i < |s.used|
  {
    s.used[i] > 0 && s.count <= 0 && !PassCovers(s, i)
  }

  function Take(s: System, a: Step): System
    requires Ready(s) && Enabled(s, a)
  {
    match a
    case Push(i) => s.(producer := if s.used[i] >= s.room[i] then Counting(i) else Pushing(i))
    case Produce => ProduceStep(s)
    case Consume => ConsumeStep(s)
    case StartSampling(i) =>
      s.(sampling := s.sampling[i := true],
         missed := if !s.sampling[i] && Unnoticed(s, i) then s.missed + {i} else s.missed)
  }

  predicate Schedule(s: System, steps: seq<Step>)
    requires Ready(s)
    decreases |steps|
  {
    steps == [] || (Enabled(s, steps[0]) && Ready(Take(s, steps[0])) && Schedule(Take(s, steps[0]), steps[1..]))
  }

  function Play(s: System, steps: seq<Step>): (t: System)
    requires Ready(s) && Schedule(s, steps)
    ensures Ready(t)
    decreases |steps|
  {
    if steps == [] then s else Play(Take(s, steps[0]), steps[1..])
  }

  /** Any number of lidars, each with its queue empty. */
  predicate Initial(s: System) {
    && Shaped(s) && s.count == 0 && s.producer == Idle && s.consumer == Waiting && s.missed == {}
    && (forall i :: 0 <= i < |s.used| ==> s.used[i] == 0)
    && (forall i :: 0 <= i < |s.room| ==> s.room[i] > 0)
  }

  /* ---- no lost wakeup ---- */

  /** A lidar's frames will be looked at without another push. */
  predicate Awake(s: System, i: Lidar)
    requires Ready(s) && i < |s.used|
  {
    s.sampling[i] && s.used[i] > 0 ==> s.count > 0 || PassCovers(s, i)
  }

  /** The producer has changed the queue of lidar `i` and has not finished. */
  predicate InPush(s: System, i: Lidar) {
    (s.producer.Pushed? || s.producer.Counting? || s.producer.Signalling?) && s.producer.i == i
  }

  predicate LidarOk(s: System, i: Lidar)
    requires Ready(s) && i < |s.used|
  {
    && s.room[i] > 0
    && (i in s.missed ==> s.sampling[i] && Unnoticed(s, i))
    && (i in s.missed || InPush(s, i) || Awake(s, i))
  }

  ghost predicate Inv(s: System) {
    && Ready(s)
    && 0 <= s.count <= 1
    && (s.producer.Signalling? ==> s.count == 0)
    && (forall i :: 0 <= i < |s.used| ==> LidarOk(s, i))
    && (forall i :: i in s.missed ==> i < |s.used|)
  }

  lemma StartKeeps(s: System, j: Lidar)
    requires Inv(s) && Enabled(s, StartSampling(j))
    ensures Inv(Take(s, StartSampling(j)))
  {
    var n := Take(s, StartSampling(j));
    forall i | 0 <= i < |n.used|
      ensures LidarOk(n, i)
    {
      assert LidarOk(s, i);
    }
  }

  lemma PushKeeps(s: System, j: Lidar)
    requires Inv(s) && Enabled(s, Push(j))
    ensures Inv(Take(s, Push(j)))
  {
    var n := Take(s, Push(j));
    forall i | 0 <= i < |n.used|
      ensures LidarOk(n, i)
    {
      assert LidarOk(s, i);
    }
  }

  lemma ProduceKeeps(s: System)
    requires Inv(s) && Enabled(s, Produce)
    ensures Inv(ProduceStep(s))
  {
    var n := ProduceStep(s);
    forall i | 0 <= i < |n.used|
      ensures LidarOk(n, i)
    {
      assert LidarOk(s, i);
    }
  }

  lemma ConsumeKeeps(s: System)
    requires Inv(s) && Enabled(s, Consume)
    ensures Inv(ConsumeStep(s))
  {
    var n := ConsumeStep(s);
    forall i | 0 <= i < |n.used|
      ensures LidarOk(n, i)
    {
      assert LidarOk(s, i);
    }
  }

  lemma StepKeeps(s: System, a: Step)
    requires Inv(s) && Enabled(s, a)
    ensures Inv(Take(s, a))
  {
    hide Inv, ProduceStep, ConsumeStep;
    match a
    case Push(i) => PushKeeps(s, i);
    case Produce => ProduceKeeps(s);
    case Consume => ConsumeKeeps(s);
    case StartSampling(i) => StartKeeps(s, i);
  }

  lemma {:induction false} PlayKeeps(s: System, steps: seq<Step>)
    requires Inv(s) && Schedule(s, steps)
    ensures Inv(Play(s, steps))
    decreases |steps|
  {
    if steps != [] {
      StepKeeps(s, steps[0]);
      PlayKeeps(Take(s, steps[0]), steps[1..]);
    }
  }

  /** The step leaves a token, or takes one and begins a pass at the first lidar. */
  predicate GivesToken(s: System, a: Step) {
    (a == Produce && s.producer.Signalling?) || (a == Consume && s.consumer.Waiting?)
  }

  predicate NoToken(s: System, steps: seq<Step>)
    requires Ready(s) && Schedule(s, steps)
    decreases |steps|
  {
    steps != [] ==> !GivesToken(s, steps[0]) && NoToken(Take(s, steps[0]), steps[1..])
  }

  /** Somewhere in the schedule a callback lets lidar `i` begin to sample although frames are already
      there, no token is pending and the publisher's pass has left the lidar; and no token follows. */
  predicate LateStart(s: System, steps: seq<Step>, i: Lidar)
    requires Ready(s) && Schedule(s, steps)
    decreases |steps|
  {
    steps != [] &&
    var n := Take(s, steps[0]);
    || (steps[0] == StartSampling(i) && !s.sampling[i] && Unnoticed(s, i) && NoToken(n, steps[1..]))
    || LateStart(n, steps[1..], i)
  }

  /** What is missed at the end was missed at the start, or began late on the way. */
  lemma {:induction false} MissedIsLate(s: System, steps: seq<Step>, i: Lidar)
    requires Ready(s) && Schedule(s, steps)
    ensures i in Play(s, steps).missed <==> (i in s.missed && NoToken(s, steps)) || LateStart(s, steps, i)
    decreases |steps|
  {
    if steps != [] {
      MissedIsLate(Take(s, steps[0]), steps[1..], i);
      MissedStep(s, steps[0], i);
      hide Take, Unnoticed, GivesToken;
    }
  }

  lemma MissedStep(s: System, a: Step, i: Lidar)
    requires Ready(s) && Enabled(s, a)
    ensures i in Take(s, a).missed <==>
      (i in s.missed && !GivesToken(s, a)) || (a == StartSampling(i) && !s.sampling[i] && Unnoticed(s, i))
  {
  }

  /** The semaphore stays a binary token, and with the producer idle every sampling lidar that has
      frames has a token pending or the consumer's pass still ahead of it, unless exactly this happened:
      the lidar began to sample late, and no token has been given since. */
  lemma NoLostWakeup(s: System, steps: seq<Step>, i: Lidar)
    requires Initial(s) && Schedule(s, steps)
    requires i < |Play(s, steps).used| && Play(s, steps).producer.Idle?
    ensures 0 <= Play(s, steps).count <= 1
    ensures Awake(Play(s, steps), i) <==> !LateStart(s, steps, i)
  {
    assert forall j :: 0 <= j < |s.used| ==> LidarOk(s, j);
    PlayKeeps(s, steps);
    MissedIsLate(s, steps, i);
    hide Play, Initial, Schedule, LateStart, NoToken;
    assert LidarOk(Play(s, steps), i);
  }

  /** What the callbacks can see to: a lidar begins to sample only while its queue is empty. */
  predicate StartsEmpty(s: System, steps: seq<Step>)
    requires Ready(s) && Schedule(s, steps)
    decreases |steps|
  {
    steps != [] ==>
      && (steps[0].StartSampling? ==> s.sampling[steps[0].i] || s.used[steps[0].i] == 0)
      && StartsEmpty(Take(s, steps[0]), steps[1..])
  }

  lemma {:induction false} StartsEmptyIsNeverLate(s: System, steps: seq<Step>, i: Lidar)
    requires Ready(s) && Schedule(s, steps) && StartsEmpty(s, steps)
    ensures !LateStart(s, steps, i)
    decreases |steps|
  {
    if steps != [] {
      StartsEmptyIsNeverLate(Take(s, steps[0]), steps[1..], i);
      hide Take;
    }
  }

  /** Then no wakeup is ever lost: whenever the producer is idle, every sampling lidar that has frames has
      a token pending or the consumer's pass still ahead of it. */
  lemma StartingEmptyLosesNothing(s: System, steps: seq<Step>, i: Lidar)
    requires Initial(s) && Schedule(s, steps) && StartsEmpty(s, steps)
    requires i < |Play(s, steps).used| && Play(s, steps).producer.Idle?
    ensures Awake(Play(s, steps), i)
  {
    NoLostWakeup(s, steps, i);
    StartsEmptyIsNeverLate(s, steps, i);
    hide Play, Initial, Schedule, LateStart, StartsEmpty, Awake;
  }

  lemma Stay(s: System)
    requires Ready(s)
    ensures Schedule(s, []) && Play(s, []) == s
  {
  }

  lemma Prepend(s: System, a: Step, t: System, steps: seq<Step>)
    requires Ready(s) && Enabled(s, a) && Take(s, a) == t && Ready(t) && Schedule(t, steps)
    ensures Schedule(s, [a] + steps) && Play(s, [a] + steps) == Play(t, steps)
  {
    assert ([a] + steps)[1..] == steps;
  }

  function OneLidar(used: nat, sampling: bool, count: int, p: Producer, c: Consumer, missed: set<Lidar>): System {
    System([4], [used], [sampling], count, p, c, missed)
  }

  lemma OnePush() returns (steps: seq<Step>)
    ensures forall rest: seq<Step> :: Schedule(OneLidar(1, false, 1, Idle, Waiting, {}), rest) ==>
      var s := OneLidar(0, false, 0, Idle, Waiting, {});
      && Schedule(s, steps + rest)
      && Play(s, steps + rest) == Play(OneLidar(1, false, 1, Idle, Waiting, {}), rest)
  {
    steps := [Push(0), Produce, Produce, Produce, Produce];
    forall rest: seq<Step> | Schedule(OneLidar(1, false, 1, Idle, Waiting, {}), rest)
      ensures var s := OneLidar(0, false, 0, Idle, Waiting, {});
              && Schedule(s, steps + rest)
              && Play(s, steps + rest) == Play(OneLidar(1, false, 1, Idle, Waiting, {}), rest)
    {
      hide Schedule, Play;
      var t1 := OneLidar(0, false, 0, Pushing(0), Waiting, {});
      var t2 := OneLidar(1, false, 0, Pushed(0), Waiting, {});
      var t3 := OneLidar(1, false, 0, Counting(0), Waiting, {});
      var t4 := OneLidar(1, false, 0, Signalling(0), Waiting, {});
      Prepend(t4, Produce, OneLidar(1, false, 1, Idle, Waiting, {}), rest);
      Prepend(t3, Produce, t4, [Produce] + rest);
      Prepend(t2, Produce, t3, [Produce] + ([Produce] + rest));
      Prepend(t1, Produce, t2, [Produce] + ([Produce] + ([Produce] + rest)));
      Prepend(OneLidar(0, false, 0, Idle, Waiting, {}), Push(0), t1,
              [Produce] + ([Produce] + ([Produce] + ([Produce] + rest))));
      assert steps + rest == [Push(0)] + ([Produce] + ([Produce] + ([Produce] + ([Produce] + rest))));
    }
  }

  lemma SkippingPass() returns (steps: seq<Step>)
    ensures Schedule(OneLidar(1, false, 1, Idle, Waiting, {}), steps)
    ensures Play(OneLidar(1, false, 1, Idle, Waiting, {}), steps) == OneLidar(1, true, 0, Idle, Waiting, {0})
  {
    hide Schedule, Play;
    var t1 := OneLidar(1, false, 0, Idle, At(0), {});
    var t2 := OneLidar(1, false, 0, Idle, At(1), {});
    var t3 := OneLidar(1, false, 0, Idle, Waiting, {});
    var t4 := OneLidar(1, true, 0, Idle, Waiting, {0});
    Stay(t4);
    Prepend(t3, StartSampling(0), t4, []);
    Prepend(t2, Consume, t3, [StartSampling(0)] + []);
    Prepend(t1, Consume, t2, [Consume] + ([StartSampling(0)] + []));
    steps := [Consume] + ([Consume] + ([Consume] + ([StartSampling(0)] + [])));
    Prepend(OneLidar(1, false, 1, Idle, Waiting, {}), Consume, t1, [Consume] + ([Consume] + ([StartSampling(0)] + [])));
  }

  /** The exception is real: a lidar whose frames were skipped because it was not sampling yet begins
      to sample, and nobody is going to look at them before the next push. */
  lemma StartSamplingCanBeMissed()
    ensures exists s: System, steps: seq<Step> ::
      Initial(s) && Schedule(s, steps) && Play(s, steps).producer.Idle? && 0 < |Play(s, steps).used|
      && !Awake(Play(s, steps), 0)
  {
    var push := OnePush();
    var pass := SkippingPass();
    hide Schedule, Play;
    var s := OneLidar(0, false, 0, Idle, Waiting, {});
    assert Initial(s) && Schedule(s, push + pass);
  }
}
