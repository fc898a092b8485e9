/** The monitor's report, clause by clause, in terms of the run of observations behind it and of what the
    observations say by themselves (src/lidar_dtc_monitor.h, Evaluate). */
module Judgement {
  import opened Monitor
  import opened Signals
  import opened Evidence

  /* ---- conditions ---- */

  /** The alarm counts against category `c`: its id is one of the category's, and it is no GPS or PPS
      warning while PTP is proven. */
  ghost predicate Against(cfg: Config, trace: seq<Observation>, now: int, code: nat, c: nat)
    requires c < 11
  {
    && Alarm(code, ALARM_IDS[c])
    && !(PtpProven(cfg, Syncs(trace), now) && WarningLevel(code) && Alarm(code, GPS_IDS))
  }

  ghost predicate FailedBy(cfg: Config, trace: seq<Observation>, now: int, c: nat, h: nat)
    requires c < 11
  {
    && CurrentAlarms(cfg, trace, now, h)
    && exists k :: 0 <= k < |trace[h].codes| && Against(cfg, trace, now, trace[h].codes[k], c)
  }

  lemma FailsAmong(cfg: Config, trace: seq<Observation>, now: int, codes: seq<nat>, c: nat)
    requires c < 11
    ensures var ptp := HealthyPtp(cfg, Run(cfg, trace).ptp, now);
            (exists k :: 0 <= k < |codes| && Fails(codes[k], ptp, c))
            <==> exists k :: 0 <= k < |codes| && Against(cfg, trace, now, codes[k], c)
  {
    HealthyPtpExactly(cfg, trace, now);
    hide Run, HealthyPtp, PtpProven, Syncs, Fails, Alarm, WarningLevel;
    var ptp := HealthyPtp(cfg, Run(cfg, trace).ptp, now);
    forall k | 0 <= k < |codes|
      ensures Fails(codes[k], ptp, c) <==> Against(cfg, trace, now, codes[k], c)
    {
      FailsIs(codes[k], ptp, c);
    }
    hide Against;
  }

  lemma AssessedAs(cfg: Config, s: State, start: int, now: int, c: nat)
    requires c < 11
    ensures var r := Assess(cfg, s, start, now); |r.conditions| == 11 && r.conditions[c] == ConditionOf(cfg, s, now, c)
  {
    hide ConditionOf, UsabilityOf, AllGood, AlarmsAdvisory, EvidenceFresh, AgeUs;
  }

  /** The alarms the monitor judges by are those of the newest report, if that is recent. */
  lemma AlarmsAre(cfg: Config, trace: seq<Observation>, now: int)
    ensures var s := Run(cfg, trace);
            && (HmsFresh(cfg, s, now) <==> exists h: nat :: CurrentAlarms(cfg, trace, now, h))
            && (forall h: nat :: CurrentAlarms(cfg, trace, now, h) ==>
                  h < |trace| && trace[h].Hms? && trace[h].codes == s.hms.codes)
  {
    NewestParts(cfg, trace);
    NewestExact(trace, HmsKind);
    hide Run, NewestIndex, Newest;
    var h := NewestIndex(trace, HmsKind);
    if h >= 0 {
      assert Newest(trace, HmsKind, h);
    }
    if HmsFresh(cfg, Run(cfg, trace), now) {
      assert CurrentAlarms(cfg, trace, now, h);
    }
  }

  /** A condition is unknown exactly without a recent alarm report, and failed exactly when the newest
      report is recent and has an alarm that counts against its category. */
  lemma ConditionsExactly(cfg: Config, trace: seq<Observation>, start: int, now: int, c: nat)
    requires c < 11
    ensures var r := Assess(cfg, Run(cfg, trace), start, now);
            && |r.conditions| == 11
            && (r.conditions[c].Unknown? <==> forall h: nat :: !CurrentAlarms(cfg, trace, now, h))
            && (r.conditions[c].Fail? <==> exists h: nat :: FailedBy(cfg, trace, now, c, h))
  {
    hide Run, Assess, HmsFresh, CurrentAlarms, HealthyPtp, Fails, Against;
    AssessedAs(cfg, Run(cfg, trace), start, now, c);
    AlarmsAre(cfg, trace, now);
    FailsAmong(cfg, trace, now, Run(cfg, trace).hms.codes, c);
    if h: nat :| CurrentAlarms(cfg, trace, now, h) {
      assert trace[h].codes == Run(cfg, trace).hms.codes;
      assert FailedBy(cfg, trace, now, c, h)
          <==> exists k :: 0 <= k < |trace[h].codes| && Against(cfg, trace, now, trace[h].codes[k], c);
    }
  }

  /** A time alarm is kept out of the time condition exactly when it is a GPS or PPS warning and PTP is
      proven. */
  lemma MaskedExactly(cfg: Config, trace: seq<Observation>, now: int, code: nat)
    requires Alarm(code, TIME_IDS)
    ensures !Fails(code, HealthyPtp(cfg, Run(cfg, trace).ptp, now), TIME)
            <==> PtpProven(cfg, Syncs(trace), now) && WarningLevel(code) && Alarm(code, GPS_IDS)
  {
    HealthyPtpExactly(cfg, trace, now);
    FailsIs(code, HealthyPtp(cfg, Run(cfg, trace).ptp, now), TIME);
    assert ALARM_IDS[TIME] == TIME_IDS;
    hide Run, HealthyPtp, PtpProven, Syncs, Fails, Alarm, WarningLevel;
  }

  /* ---- usability ---- */

  ghost predicate CurrentCloud(cfg: Config, trace: seq<Observation>, now: int, c: nat) {
    LastProgress(cfg, trace, c) && trace[c].Cloud? && Recent(now, trace[c].now, cfg.dataTimeout)
  }

  ghost predicate CurrentPacket(cfg: Config, trace: seq<Observation>, now: int, p: nat) {
    Newest(trace, PacketKind, p) && trace[p].Packet? && Recent(now, trace[p].now, cfg.dataTimeout)
  }

  ghost predicate CurrentWork(cfg: Config, trace: seq<Observation>, now: int, w: nat) {
    Newest(trace, WorkKind, w) && trace[w].WorkState? && Recent(now, trace[w].now, cfg.stateTimeout)
  }

  ghost predicate FatalBy(cfg: Config, trace: seq<Observation>, now: int, h: nat) {
    CurrentAlarms(cfg, trace, now, h) && exists k :: 0 <= k < |trace[h].codes| && FatalAlarm(trace[h].codes[k])
  }

  /** Clouds or packets have stopped, and the lidar has sent clouds before or has had time to begin. */
  ghost predicate Silent(cfg: Config, trace: seq<Observation>, start: int, now: int) {
    && ((forall c: nat :: !CurrentCloud(cfg, trace, now, c)) || (forall p: nat :: !CurrentPacket(cfg, trace, now, p)))
    && ((exists i: nat :: NewStamp(cfg, trace, i)) || now - start >= cfg.startupGrace)
  }

  /** The lidar is known not to work: a fatal alarm, the error state, silence, or another state than
      sampling after the time to start. */
  ghost predicate Broken(cfg: Config, trace: seq<Observation>, start: int, now: int) {
    || (exists h: nat :: FatalBy(cfg, trace, now, h))
    || (exists w: nat :: CurrentWork(cfg, trace, now, w) && trace[w].state == 4)
    || Silent(cfg, trace, start, now)
    || (now - start >= cfg.startupGrace && exists w: nat :: CurrentWork(cfg, trace, now, w) && trace[w].state != 1)
  }

  lemma FatalExactly(cfg: Config, trace: seq<Observation>, now: int)
    ensures AnyFatal(cfg, Run(cfg, trace), now) <==> exists h: nat :: FatalBy(cfg, trace, now, h)
  {
    NewestParts(cfg, trace);
    NewestExact(trace, HmsKind);
    FatalAmong(Run(cfg, trace).hms.codes);
    hide Run, NewestIndex, Newest, Fatal, FatalAlarm;
    var h := NewestIndex(trace, HmsKind);
    if h >= 0 {
      assert Newest(trace, HmsKind, h);
    }
    if AnyFatal(cfg, Run(cfg, trace), now) {
      assert FatalBy(cfg, trace, now, h);
    }
  }

  lemma WorkExactly(cfg: Config, trace: seq<Observation>, now: int)
    ensures var s := Run(cfg, trace);
            && (forall w: nat :: CurrentWork(cfg, trace, now, w)
                                 ==> WorkFresh(cfg, s, now) && trace[w].state == s.work.state)
            && (WorkFresh(cfg, s, now) ==> exists w: nat :: CurrentWork(cfg, trace, now, w))
  {
    NewestParts(cfg, trace);
    NewestExact(trace, WorkKind);
    hide Run, NewestIndex, Newest;
    var w := NewestIndex(trace, WorkKind);
    if w >= 0 {
      assert Newest(trace, WorkKind, w);
    }
    if WorkFresh(cfg, Run(cfg, trace), now) {
      assert CurrentWork(cfg, trace, now, w);
    }
  }

  lemma PacketExactly(cfg: Config, trace: seq<Observation>, now: int)
    ensures PacketFresh(cfg, Run(cfg, trace), now) <==> exists p: nat :: CurrentPacket(cfg, trace, now, p)
  {
    NewestParts(cfg, trace);
    NewestExact(trace, PacketKind);
    hide Run, NewestIndex, Newest;
    var p := NewestIndex(trace, PacketKind);
    if p >= 0 {
      assert Newest(trace, PacketKind, p);
    }
    if PacketFresh(cfg, Run(cfg, trace), now) {
      assert CurrentPacket(cfg, trace, now, p);
    }
  }

  lemma CloudExactly(cfg: Config, trace: seq<Observation>, now: int)
    ensures CloudFresh(cfg, Run(cfg, trace), now) <==> exists c: nat :: CurrentCloud(cfg, trace, now, c)
    ensures Run(cfg, trace).cloud.seen <==> exists i: nat :: NewStamp(cfg, trace, i)
  {
    CloudExact(cfg, trace);
    LastProgressExact(cfg, trace);
    hide Run, NewestStamp, LastProgress;
    var c := NewestStamp(cfg, trace);
    if c >= 0 {
      assert LastProgress(cfg, trace, c) && NewStamp(cfg, trace, c);
    }
    if CloudFresh(cfg, Run(cfg, trace), now) {
      assert CurrentCloud(cfg, trace, now, c);
    }
  }

  /** Unusable is judged exactly when the lidar is known not to work. */
  lemma UnusableExactly(cfg: Config, trace: seq<Observation>, start: int, now: int)
    ensures Assess(cfg, Run(cfg, trace), start, now).usability.Unusable? <==> Broken(cfg, trace, start, now)
  {
    FatalExactly(cfg, trace, now);
    WorkExactly(cfg, trace, now);
    PacketExactly(cfg, trace, now);
    CloudExactly(cfg, trace, now);
    hide Run, ConditionOf, AgeUs, AllGood, AlarmsAdvisory, EvidenceFresh, AnyFatal, CloudFresh, PacketFresh, WorkFresh;
    hide FatalBy, CurrentWork, CurrentPacket, CurrentCloud, NewStamp;
  }

  /** Usable is judged exactly when the newest evidence of all four kinds is recent and normal. */
  lemma UsabilityExactly(cfg: Config, trace: seq<Observation>, start: int, now: int)
    ensures Assess(cfg, Run(cfg, trace), start, now).usability.Usable?
            <==> exists c: nat, p: nat, h: nat, w: nat :: NormalBy(cfg, trace, now, c, p, h, w)
  {
    UsableExactly(cfg, trace, now);
    GoodIsNotBad(cfg, Run(cfg, trace), start, now);
    hide Run, ConditionOf, AgeUs, AllGood, KnownBad, AlarmsAdvisory, EvidenceFresh, NormalBy;
  }

  lemma GoodIsNotBad(cfg: Config, s: State, start: int, now: int)
    ensures !(AllGood(cfg, s, now) && KnownBad(cfg, s, start, now))
  {
    hide AnyFatal;
  }

  /* ---- the bounded warning and the ages ---- */

  lemma WarningExactly(cfg: Config, trace: seq<Observation>, start: int, now: int)
    ensures Assess(cfg, Run(cfg, trace), start, now).boundedWarning
            <==> (exists h: nat :: AdvisoryBy(cfg, trace, now, h))
                 && (exists c: nat, p: nat, h: nat, w: nat :: NormalBy(cfg, trace, now, c, p, h, w))
                 && ProvenRecently(cfg, Syncs(trace), now)
  {
    BoundedWarningExactly(cfg, trace, now);
    hide Run, ConditionOf, AgeUs, AllGood, KnownBad, AlarmsAdvisory, EvidenceFresh, NormalBy, AdvisoryBy;
    hide ProvenRecently;
  }

  /** Microseconds since then, none before it. */
  function Micros(now: int, then_: int): nat {
    if now >= then_ then (now - then_) / 1000 else 0
  }

  function Reports(trace: seq<Observation>): nat {
    if trace == [] then 0 else Reports(trace[..|trace| - 1]) + if trace[|trace| - 1].Hms? then 1 else 0
  }

  lemma {:induction false} ReportsCounted(cfg: Config, trace: seq<Observation>)
    ensures Run(cfg, trace).hms.count == Reports(trace) % 0x1_0000_0000
    decreases |trace|
  {
    if trace != [] {
      ReportsCounted(cfg, trace[..|trace| - 1]);
      hide StepBounded, StepPtp, StepCloud;
    }
  }

  /** The age of the alarms is the time since the newest report, and the number is that of the reports. */
  lemma HmsExactly(cfg: Config, trace: seq<Observation>, start: int, now: int)
    ensures var r := Assess(cfg, Run(cfg, trace), start, now);
            && r.hmsSeq == Reports(trace) % 0x1_0000_0000
            && (forall h: nat :: Newest(trace, HmsKind, h) ==> trace[h].Hms? && r.hmsAge == Micros(now, trace[h].now))
            && ((forall h: nat :: !Newest(trace, HmsKind, h)) ==> r.hmsAge == 0xFFFF_FFFF_FFFF_FFFF)
  {
    ReportsCounted(cfg, trace);
    NewestParts(cfg, trace);
    NewestExact(trace, HmsKind);
    hide Run, NewestIndex, Newest, ConditionOf, UsabilityOf, AllGood, AlarmsAdvisory, EvidenceFresh, Reports;
    var h := NewestIndex(trace, HmsKind);
    if h >= 0 {
      assert Newest(trace, HmsKind, h);
    }
  }

  /** The age of the timing evidence is the time since the newest advance of an unbroken run with two, and
      the offset is that of the newest sample. */
  lemma TimingExactly(cfg: Config, trace: seq<Observation>, start: int, now: int)
    ensures var r := Assess(cfg, Run(cfg, trace), start, now); var ts := Syncs(trace);
            && r.offset == (if ts == [] then 0 else ts[|ts| - 1].offset)
            && (forall i: nat, j: nat :: Proven(ts, i, j) ==> r.evidenceAge == Micros(now, ts[j].now))
            && ((forall i: nat, j: nat :: !Proven(ts, i, j)) ==> r.evidenceAge == 0xFFFF_FFFF_FFFF_FFFF)
  {
    var ts := Syncs(trace);
    SyncParts(cfg, trace);
    BoundedExact(ts);
    hide Run, Syncs, BoundedOf, ConditionOf, UsabilityOf, AllGood, AlarmsAdvisory, EvidenceFresh, Advances, Proven;
    if |Advances(ts)| >= 2 {
      ProvenFrom(ts);
    } else {
      assert ts == [] ==> BoundedOf(ts) == FRESH.bounded by {
        NoSamples();
      }
    }
    forall i: nat, j: nat | Proven(ts, i, j)
      ensures |Advances(ts)| >= 2 && Advances(ts)[|Advances(ts)| - 1] == j
    {
      ProvenGives(ts, i, j);
    }
  }

  lemma NoSamples()
    ensures BoundedOf([]) == FRESH.bounded
  {
  }
}
