/** The safety-evidence monitor of one lidar (src/lidar_dtc_monitor.h). Times are nanoseconds of a
    steady clock. */
module Monitor {
  import opened Doubles

  const CATEGORIES: nat := 11
  const TIME: nat := 1
  const NEVER: nat := 0xFFFF_FFFF_FFFF_FFFF

  datatype Condition = Unknown | Pass | Fail

  datatype Usability = Unavailable | Usable | Unusable

  datatype Config = Config(
    dataTimeout: nat, stateTimeout: nat, startupGrace: nat, minValidPoints: nat, maxSyncOffset: int)

  /** The category of a native alarm; -1 if the alarm is not recognised. */
  function Category(id: nat): (c: int)
    ensures -1 <= c < CATEGORIES
  {
    if id == 0x0104 || id == 0x0304 then 0
    else if id == 0x0402 || id == 0x0403 || id == 0x0404 || 0x0406 <= id <= 0x040A then 1
    else if 0x0210 <= id <= 0x0219 || id == 0x021C then 2
    else if id == 0x0102 || id == 0x0103 || id == 0x0111 || id == 0x0112 || id == 0x0114 || id == 0x0115 then 3
    else if id == 0x0116 then 4
    else if id == 0x0105 then 5
    else if id == 0x0113 then 6
    else if id == 0x0117 then 7
    else if id == 0x0118 then 8
    else if id == 0x0401 then 9
    else if id == 0x0405 then 10
    else -1
  }

  function Id(code: nat): nat {
    code / 0x1_0000
  }

  function Level(code: nat): nat {
    code % 0x100
  }

  function AgeUs(now: int, then_: int, seen: bool): nat {
    if !seen then NEVER else if now < then_ then 0 else (now - then_) / 1000
  }

  /* ---- observations ---- */

  /** One time-synchronisation status. */
  datatype Sync = Sync(kind: nat, local: nat, last: nat, offset: int, now: int)

  datatype Observation =
    | Hms(codes: seq<nat>, now: int)
    | WorkState(state: nat, now: int)
    | TimeSync(sample: Sync)
    | Packet(now: int)
    | Cloud(stamp: nat, points: nat, now: int)

  /* ---- the monitor's state, by the evidence it holds ---- */

  datatype HmsSeen = HmsSeen(seen: bool, codes: seq<nat>, time: int, count: nat)
  datatype WorkSeen = WorkSeen(seen: bool, state: nat, time: int)
  datatype PacketSeen = PacketSeen(seen: bool, time: int)
  datatype CloudSeen = CloudSeen(seen: bool, stamp: nat, time: int)
  datatype Ptp = Ptp(seen: bool, verified: bool, last: nat, time: int)
  datatype Bounded = Bounded(
    seen: bool, local: nat, last: nat, offset: int, time: int, advances: nat, advanceTime: int)

  datatype State = State(
    hms: HmsSeen, work: WorkSeen, packet: PacketSeen, cloud: CloudSeen, ptp: Ptp, bounded: Bounded)

  const FRESH := State(
    HmsSeen(false, [0, 0, 0, 0, 0, 0, 0, 0], 0, 0), WorkSeen(false, 0, 0), PacketSeen(false, 0), CloudSeen(false, 0, 0),
    Ptp(false, false, 0, 0), Bounded(false, 0, 0, 0, 0, 0, 0))

  const BOUND: int := 1_000_000
  const MAX_LAG: nat := 2_500_000_000

  /** The device clock has run on with the host's since the previous sample. */
  predicate Follows(local: nat, now: int, prevLocal: nat, prevNow: int) {
    local >= prevLocal && now >= prevNow && DoubleDistance(local - prevLocal, now - prevNow) <= BOUND
  }

  /** Up to 2^53 ns, about 104 days, between two samples the test in doubles is the exact one; beyond that it
      is at most 2048 ns off. */
  lemma FollowsExactly(local: nat, now: int, prevLocal: nat, prevNow: int)
    requires prevLocal <= local < prevLocal + 0x1_0000_0000_0000_0000
    requires prevNow <= now < prevNow + 0x1_0000_0000_0000_0000
    ensures var d := Distance(local - prevLocal, now - prevNow);
            && (local - prevLocal <= TWO_53 && now - prevNow <= TWO_53 ==>
                  (Follows(local, now, prevLocal, prevNow) <==> d <= BOUND))
            && (d <= BOUND - 2048 ==> Follows(local, now, prevLocal, prevNow))
            && (Follows(local, now, prevLocal, prevNow) ==> d <= BOUND + 2048)
  {
    hide DoubleDistance, Distance;
    var a, b := local - prevLocal, now - prevNow;
    if a <= TWO_53 && b <= TWO_53 {
      TestIsExact(a, b, BOUND);
    }
    TestIsClose(a, b, BOUND);
  }

  /** A sample good enough for the bounded-warning proof, apart from its predecessor. */
  predicate Tight(s: Sync) {
    s.kind == 1 && s.last != 0 && s.last <= s.local <= s.last + MAX_LAG && -BOUND <= s.offset <= BOUND
  }

  function StepBounded(b: Bounded, s: Sync): Bounded {
    var bounded := Tight(s) && (!b.seen || s.last >= b.last);
    var continuous := b.seen && Follows(s.local, s.now, b.local, b.time);
    var advance := bounded && continuous && s.last > b.last;
    Bounded(true, s.local, s.last, s.offset, s.now,
            if !bounded || !continuous then 0
            else if advance then (if b.advances + 1 < 2 then b.advances + 1 else 2)
            else b.advances,
            if advance then s.now else b.advanceTime)
  }

  predicate Healthy(cfg: Config, s: Sync) {
    && s.kind == 1 && s.last != 0 && s.last <= s.local <= s.last + cfg.stateTimeout
    && -cfg.maxSyncOffset <= s.offset <= cfg.maxSyncOffset
  }

  function StepPtp(cfg: Config, p: Ptp, s: Sync): Ptp {
    if !Healthy(cfg, s) || (p.seen && s.last < p.last) then p.(verified := false)
    else if !p.seen || s.last > p.last then Ptp(true, true, s.last, s.now)
    else p
  }

  function StepCloud(cfg: Config, c: CloudSeen, stamp: nat, points: nat, now: int): CloudSeen {
    if stamp > c.stamp && points >= cfg.minValidPoints then CloudSeen(true, stamp, now) else c
  }

  function Observe(cfg: Config, s: State, o: Observation): State {
    match o
    case Hms(codes, now) => s.(hms := HmsSeen(true, codes, now, (s.hms.count + 1) % 0x1_0000_0000))
    case WorkState(state, now) => s.(work := WorkSeen(true, state, now))
    case TimeSync(t) => s.(bounded := StepBounded(s.bounded, t), ptp := StepPtp(cfg, s.ptp, t))
    case Packet(now) => s.(packet := PacketSeen(true, now))
    case Cloud(stamp, points, now) => s.(cloud := StepCloud(cfg, s.cloud, stamp, points, now))
  }

  /** The state after a whole run of observations. */
  function Run(cfg: Config, trace: seq<Observation>): State {
    if trace == [] then FRESH
    else Observe(cfg, Run(cfg, trace[..|trace| - 1]), trace[|trace| - 1])
  }

  /* ---- what Evaluate judges by ---- */

  predicate HmsFresh(cfg: Config, s: State, now: int) {
    s.hms.seen && now - s.hms.time <= cfg.stateTimeout
  }

  predicate HealthyPtp(cfg: Config, p: Ptp, now: int) {
    p.verified && p.seen && now - p.time <= cfg.stateTimeout
  }

  predicate WorkFresh(cfg: Config, s: State, now: int) {
    s.work.seen && now - s.work.time <= cfg.stateTimeout
  }

  predicate CloudFresh(cfg: Config, s: State, now: int) {
    s.cloud.seen && now - s.cloud.time <= cfg.dataTimeout
  }

  predicate PacketFresh(cfg: Config, s: State, now: int) {
    s.packet.seen && now - s.packet.time <= cfg.dataTimeout
  }

  predicate GpsWarning(id: nat) {
    id == 0x0404 || 0x0407 <= id <= 0x0409
  }

  /** What may be masked or treated as advisory is always an alarm about time. */
  lemma WarningsAreTime(id: nat)
    ensures GpsWarning(id) || id == 0x0406 ==> Category(id) == TIME
    ensures Category(id) == TIME ==> GpsWarning(id) || id in {0x0402, 0x0403, 0x0406, 0x040A}
  {
  }

  /** The alarm counts as a failure of category `c`. */
  predicate Fails(code: nat, ptp: bool, c: nat) {
    code != 0 && Category(Id(code)) == c && !(ptp && Level(code) == 2 && GpsWarning(Id(code)))
  }

  predicate Fatal(code: nat) {
    code != 0 && Level(code) == 4
  }

  /** The accuracy warning that may be treated as advisory. */
  predicate Advisory(code: nat) {
    code != 0 && Id(code) == 0x0406 && Level(code) == 2
  }

  /** An alarm that forbids it: not recognised, or a time alarm other than the allowlisted warnings. */
  predicate Incompatible(code: nat) {
    code != 0 && (Category(Id(code)) < 0
                  || (Category(Id(code)) == TIME
                      && !(Level(code) == 2 && (Id(code) == 0x0406 || GpsWarning(Id(code))))))
  }

  predicate AnyFatal(cfg: Config, s: State, now: int) {
    HmsFresh(cfg, s, now) && exists k :: 0 <= k < |s.hms.codes| && Fatal(s.hms.codes[k])
  }

  datatype Report = Report(
    conditions: seq<Condition>, hmsSeq: nat, hmsAge: nat, usability: Usability,
    boundedWarning: bool, offset: int, evidenceAge: nat)

  /** Current cloud, packets, alarms and work state, all normal. */
  predicate AllGood(cfg: Config, s: State, now: int) {
    && CloudFresh(cfg, s, now) && PacketFresh(cfg, s, now)
    && HmsFresh(cfg, s, now) && !AnyFatal(cfg, s, now)
    && WorkFresh(cfg, s, now) && s.work.state == 1
  }

  /** Evidence that the lidar must not be relied on. */
  predicate KnownBad(cfg: Config, s: State, start: int, now: int) {
    || AnyFatal(cfg, s, now)
    || (WorkFresh(cfg, s, now) && s.work.state == 4)
    || ((!CloudFresh(cfg, s, now) || !PacketFresh(cfg, s, now)) && (s.cloud.seen || now - start >= cfg.startupGrace))
    || (WorkFresh(cfg, s, now) && s.work.state != 1 && now - start >= cfg.startupGrace)
  }

  /** The alarms allow the bounded warning. */
  predicate AlarmsAdvisory(cfg: Config, s: State, now: int) {
    && HmsFresh(cfg, s, now)
    && (exists k :: 0 <= k < |s.hms.codes| && Advisory(s.hms.codes[k]))
    && (forall k :: 0 <= k < |s.hms.codes| ==> !Incompatible(s.hms.codes[k]))
  }

  predicate EvidenceFresh(cfg: Config, b: Bounded, now: int) {
    && b.advances >= 2
    && AgeUs(now, b.advanceTime, true) <= 2_500_000
    && now - b.advanceTime <= cfg.stateTimeout
    && -BOUND <= b.offset <= BOUND
  }

  /* ---- the report ---- */

  function ConditionOf(cfg: Config, s: State, now: int, c: nat): Condition {
    if !HmsFresh(cfg, s, now) then Unknown
    else if exists k :: 0 <= k < |s.hms.codes| && Fails(s.hms.codes[k], HealthyPtp(cfg, s.ptp, now), c) then Fail
    else Pass
  }

  function UsabilityOf(cfg: Config, s: State, start: int, now: int): Usability {
    if KnownBad(cfg, s, start, now) then Unusable else if AllGood(cfg, s, now) then Usable else Unavailable
  }

  function Assess(cfg: Config, s: State, start: int, now: int): Report {
    Report(seq(CATEGORIES, c requires 0 <= c < CATEGORIES => ConditionOf(cfg, s, now, c)), s.hms.count,
           AgeUs(now, s.hms.time, s.hms.seen), UsabilityOf(cfg, s, start, now),
           AlarmsAdvisory(cfg, s, now) && AllGood(cfg, s, now) && EvidenceFresh(cfg, s.bounded, now),
           s.bounded.offset, AgeUs(now, s.bounded.advanceTime, s.bounded.advances >= 2))
  }

  /* ---- the monitor ---- */

  class Monitor {
    const config: Config
    const start: int
    var hms: seq<nat>
    var hmsTime: int
    var hmsSeq: nat
    var workState: nat
    var stateTime: int
    var packetTime: int
    var validTime: int
    var validStamp: nat
    var syncTime: int
    var lastSync: nat
    var hmsSeen: bool
    var stateSeen: bool
    var packetSeen: bool
    var validSeen: bool
    var syncSeen: bool
    var ptpVerified: bool
    var boundedSeen: bool
    var boundedAdvances: nat
    var boundedLocal: nat
    var boundedLastSync: nat
    var boundedOffset: int
    var boundedSampleTime: int
    var boundedAdvanceTime: int

    ghost function HmsValue(): HmsSeen
      reads `hmsSeen, `hms, `hmsTime, `hmsSeq
    {
      HmsSeen(hmsSeen, hms, hmsTime, hmsSeq)
    }

    ghost function WorkValue(): WorkSeen
      reads `stateSeen, `workState, `stateTime
    {
      WorkSeen(stateSeen, workState, stateTime)
    }

    ghost function PacketValue(): PacketSeen
      reads `packetSeen, `packetTime
    {
      PacketSeen(packetSeen, packetTime)
    }

    ghost function CloudValue(): CloudSeen
      reads `validSeen, `validStamp, `validTime
    {
      CloudSeen(validSeen, validStamp, validTime)
    }

    ghost function PtpValue(): Ptp
      reads `syncSeen, `ptpVerified, `lastSync, `syncTime
    {
      Ptp(syncSeen, ptpVerified, lastSync, syncTime)
    }

    ghost function BoundedValue(): Bounded
      reads `boundedSeen, `boundedLocal, `boundedLastSync, `boundedOffset, `boundedSampleTime,
            `boundedAdvances, `boundedAdvanceTime
    {
      Bounded(boundedSeen, boundedLocal, boundedLastSync, boundedOffset, boundedSampleTime,
              boundedAdvances, boundedAdvanceTime)
    }

    ghost function Value(): State
      reads this
    {
      State(HmsValue(), WorkValue(), PacketValue(), CloudValue(), PtpValue(), BoundedValue())
    }

    constructor (config: Config, start: int)
      ensures this.config == config && this.start == start && Value() == Run(config, [])
    {
      this.config, this.start := config, start;
      hms, hmsTime, hmsSeq := [0, 0, 0, 0, 0, 0, 0, 0], 0, 0;
      workState, stateTime, packetTime, validTime, validStamp := 0, 0, 0, 0, 0;
      syncTime, lastSync := 0, 0;
      hmsSeen, stateSeen, packetSeen, validSeen, syncSeen, ptpVerified, boundedSeen :=
        false, false, false, false, false, false, false;
      boundedAdvances, boundedLocal, boundedLastSync, boundedOffset := 0, 0, 0, 0;
      boundedSampleTime, boundedAdvanceTime := 0, 0;
    }

    method ObserveHms(codes: seq<nat>, now: int)
      modifies `hms, `hmsTime, `hmsSeen, `hmsSeq
      ensures Value() == Observe(config, old(Value()), Hms(codes, now))
    {
      hide WorkValue, PacketValue, CloudValue, PtpValue, BoundedValue;
      hms := codes;
      hmsTime := now;
      hmsSeen := true;
      hmsSeq := (hmsSeq + 1) % 0x1_0000_0000;
    }

    method ObserveWorkState(state: nat, now: int)
      modifies `workState, `stateTime, `stateSeen
      ensures Value() == Observe(config, old(Value()), WorkState(state, now))
    {
      hide HmsValue, PacketValue, CloudValue, PtpValue, BoundedValue;
      workState := state;
      stateTime := now;
      stateSeen := true;
    }

    /** The first half of ObserveTimeSync: the proof for the bounded warning. */
    method ProveBounded(kind: nat, local: nat, last: nat, offset: int, now: int)
      modifies this`boundedSeen, this`boundedAdvances, this`boundedLocal, this`boundedLastSync,
               this`boundedOffset, this`boundedSampleTime, this`boundedAdvanceTime
      ensures BoundedValue() == StepBounded(old(BoundedValue()), Sync(kind, local, last, offset, now))
    {
      var hostDelta := now - boundedSampleTime;
      var clockContinuous := boundedSeen && local >= boundedLocal && hostDelta >= 0
                             && DoubleDistance(local - boundedLocal, hostDelta) <= BOUND;
      var bounded := kind == 1 && last != 0 && local >= last && local - last <= MAX_LAG
                     && offset >= -BOUND && offset <= BOUND && (!boundedSeen || last >= boundedLastSync);
      if !bounded || !clockContinuous {
        boundedAdvances := 0;
      } else if last > boundedLastSync {
        boundedAdvances := if boundedAdvances + 1 < 2 then boundedAdvances + 1 else 2;
        boundedAdvanceTime := now;
      }
      boundedSeen := true;
      boundedLocal := local;
      boundedLastSync := last;
      boundedSampleTime := now;
      boundedOffset := offset;
    }

    /** The second half: the proof that PTP is healthy. */
    method ProvePtp(kind: nat, local: nat, last: nat, offset: int, now: int)
      modifies this`ptpVerified, this`lastSync, this`syncTime, this`syncSeen
      ensures PtpValue() == StepPtp(config, old(PtpValue()), Sync(kind, local, last, offset, now))
    {
      var healthy := kind == 1 && last != 0 && local >= last && local - last <= config.stateTimeout
                     && offset >= -config.maxSyncOffset && offset <= config.maxSyncOffset;
      if !healthy || (syncSeen && last < lastSync) {
        ptpVerified := false;
        return;
      }
      if !syncSeen || last > lastSync {
        lastSync := last;
        syncTime := now;
        syncSeen, ptpVerified := true, true;
      }
    }

    method ObserveTimeSync(kind: nat, local: nat, last: nat, offset: int, now: int)
      modifies `boundedSeen, `boundedAdvances, `boundedLocal, `boundedLastSync, `boundedOffset,
               `boundedSampleTime, `boundedAdvanceTime, `ptpVerified, `lastSync, `syncTime, `syncSeen
      ensures Value() == Observe(config, old(Value()), TimeSync(Sync(kind, local, last, offset, now)))
    {
      hide StepBounded, StepPtp, HmsValue, WorkValue, PacketValue, CloudValue, PtpValue, BoundedValue;
      ProveBounded(kind, local, last, offset, now);
      ProvePtp(kind, local, last, offset, now);
    }

    method ObservePacket(now: int)
      modifies `packetTime, `packetSeen
      ensures Value() == Observe(config, old(Value()), Packet(now))
    {
      packetTime := now;
      packetSeen := true;
    }

    method ObserveCloud(stamp: nat, validPoints: nat, now: int)
      modifies `validStamp, `validTime, `validSeen
      ensures Value() == Observe(config, old(Value()), Cloud(stamp, validPoints, now))
    {
      if stamp > validStamp && validPoints >= config.minValidPoints {
        validStamp := stamp;
        validTime := now;
        validSeen := true;
      }
    }

    /** The loop's turn for one alarm code. */
    method JudgeAlarm(code: nat, healthyPtp: bool, before: seq<Condition>)
        returns (conditions: seq<Condition>, advisory: bool, incompatible: bool, fatal: bool)
      requires |before| == CATEGORIES
      ensures |conditions| == CATEGORIES
      ensures forall c :: 0 <= c < CATEGORIES ==>
        conditions[c] == if Fails(code, healthyPtp, c) then Fail else before[c]
      ensures advisory == Advisory(code) && incompatible == Incompatible(code) && fatal == Fatal(code)
    {
      assert Category(0x0406) == TIME;
      hide Category;
      conditions, advisory, incompatible, fatal := before, false, false, false;
      if code == 0 { return; }
      var id, level := Id(code), Level(code);
      fatal := level == 4;
      var category := Category(id);
      incompatible := category < 0;
      if category == 1 {
        advisory := id == 0x0406 && level == 2;
        incompatible := incompatible || level != 2 || !(id == 0x0406 || id == 0x0404 || 0x0407 <= id <= 0x0409);
      }
      if healthyPtp && level == 2 && (id == 0x0404 || 0x0407 <= id <= 0x0409) { return; }
      if category >= 0 {
        conditions := conditions[category := Fail];
      }
    }

    /** Evaluate's loop over the fresh alarms. */
    method JudgeAlarms(healthyPtp: bool)
        returns (conditions: seq<Condition>, advisory: bool, incompatible: bool, fatal: bool)
      ensures |conditions| == CATEGORIES
      ensures forall c :: 0 <= c < CATEGORIES ==>
        conditions[c] == if exists k :: 0 <= k < |hms| && Fails(hms[k], healthyPtp, c) then Fail else Pass
      ensures advisory <==> exists k :: 0 <= k < |hms| && Advisory(hms[k])
      ensures incompatible <==> exists k :: 0 <= k < |hms| && Incompatible(hms[k])
      ensures fatal <==> exists k :: 0 <= k < |hms| && Fatal(hms[k])
    {
      hide Fails, Advisory, Incompatible, Fatal;
      conditions := seq(CATEGORIES, _ => Pass);
      advisory, incompatible, fatal := false, false, false;
      for i := 0 to |hms|
        invariant |conditions| == CATEGORIES
        invariant forall c :: 0 <= c < CATEGORIES ==>
          conditions[c] == if exists k :: 0 <= k < i && Fails(hms[k], healthyPtp, c) then Fail else Pass
        invariant advisory <==> exists k :: 0 <= k < i && Advisory(hms[k])
        invariant incompatible <==> exists k :: 0 <= k < i && Incompatible(hms[k])
        invariant fatal <==> exists k :: 0 <= k < i && Fatal(hms[k])
      {
        var a, n, f;
        conditions, a, n, f := JudgeAlarm(hms[i], healthyPtp, conditions);
        advisory, incompatible, fatal := advisory || a, incompatible || n, fatal || f;
      }
    }

    method Judge(now: int) returns (usability: Usability, hmsFresh: bool, fatal: bool, advisory: bool,
                                    incompatible: bool, conditions: seq<Condition>)
      ensures usability.Usable? <==> AllGood(config, Value(), now)
      ensures usability.Unusable? <==> KnownBad(config, Value(), start, now)
      ensures hmsFresh == HmsFresh(config, Value(), now)
      ensures hmsFresh && advisory && !incompatible <==> AlarmsAdvisory(config, Value(), now)
      ensures |conditions| == CATEGORIES
      ensures forall c :: 0 <= c < CATEGORIES ==>
        conditions[c] == if !hmsFresh then Unknown
                         else if exists k :: 0 <= k < |hms| && Fails(hms[k], HealthyPtp(config, PtpValue(), now), c)
                           then Fail
                         else Pass
    {
      hmsFresh := hmsSeen && now - hmsTime <= config.stateTimeout;
      var healthyPtp := ptpVerified && syncSeen && now - syncTime <= config.stateTimeout;
      conditions := seq(CATEGORIES, _ => Unknown);
      advisory, incompatible, fatal := false, false, false;
      if hmsFresh {
        conditions, advisory, incompatible, fatal := JudgeAlarms(healthyPtp);
      }
      hide Fails, Advisory, Incompatible, Fatal;
      usability := JudgeUse(now, hmsFresh, fatal);
    }

    /** Evaluate's decision on usability. */
    method JudgeUse(now: int, hmsFresh: bool, fatal: bool) returns (usability: Usability)
      requires hmsFresh == HmsFresh(config, Value(), now) && fatal == AnyFatal(config, Value(), now)
      ensures usability.Usable? <==> AllGood(config, Value(), now)
      ensures usability.Unusable? <==> KnownBad(config, Value(), start, now)
    {
      hide AnyFatal;
      var stateFresh := stateSeen && now - stateTime <= config.stateTimeout;
      var validFresh := validSeen && now - validTime <= config.dataTimeout;
      var packetFresh := packetSeen && now - packetTime <= config.dataTimeout;
      if fatal || (stateFresh && workState == 4) {
        usability := Unusable;
      } else if (!validFresh || !packetFresh) && (validSeen || now - start >= config.startupGrace) {
        usability := Unusable;
      } else if validFresh && packetFresh && hmsFresh && stateFresh && workState == 1 {
        usability := Usable;
      } else if stateFresh && workState != 1 && now - start >= config.startupGrace {
        usability := Unusable;
      } else {
        usability := Unavailable;
      }
    }

    /** The whole report from the evidence held. */
    method Evaluate(now: int) returns (r: Report)
      ensures r == Assess(config, Value(), start, now)
    {
      var usability, hmsFresh, fatal, advisory, incompatible, conditions := Judge(now);
      hide Fails, AlarmsAdvisory, AllGood, KnownBad;
      assert forall c :: 0 <= c < CATEGORIES ==> conditions[c] == ConditionOf(config, Value(), now, c);
      var evidenceAge := AgeUs(now, boundedAdvanceTime, boundedAdvances >= 2);
      var warning := hmsFresh && advisory && !incompatible && usability == Usable && boundedAdvances >= 2
                     && evidenceAge <= 2_500_000 && now - boundedAdvanceTime <= config.stateTimeout
                     && boundedOffset >= -BOUND && boundedOffset <= BOUND;
      r := Report(conditions, hmsSeq, AgeUs(now, hmsTime, hmsSeen), usability, warning, boundedOffset, evidenceAge);
    }
  }
}
