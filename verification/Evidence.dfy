/** What the monitor's judgements mean about the whole run of observations behind them
    (src/lidar_dtc_monitor.h). */
module Evidence {
  import opened Monitor
  import opened Signals

  /* ---- the observations of one kind ---- */

  function Syncs(trace: seq<Observation>): seq<Sync> {
    if trace == [] then []
    else
      var before, o := Syncs(trace[..|trace| - 1]), trace[|trace| - 1];
      if o.TimeSync? then before + [o.sample] else before
  }

  function BoundedOf(ts: seq<Sync>): Bounded {
    if ts == [] then FRESH.bounded else StepBounded(BoundedOf(ts[..|ts| - 1]), ts[|ts| - 1])
  }

  function PtpOf(cfg: Config, ts: seq<Sync>): Ptp {
    if ts == [] then FRESH.ptp else StepPtp(cfg, PtpOf(cfg, ts[..|ts| - 1]), ts[|ts| - 1])
  }

  lemma {:induction false} SyncParts(cfg: Config, trace: seq<Observation>)
    ensures Run(cfg, trace).bounded == BoundedOf(Syncs(trace))
    ensures Run(cfg, trace).ptp == PtpOf(cfg, Syncs(trace))
    decreases |trace|
  {
    if trace != [] {
      var before, o := trace[..|trace| - 1], trace[|trace| - 1];
      SyncParts(cfg, before);
      hide StepBounded, StepPtp;
      if o.TimeSync? {
        assert Syncs(trace)[..|Syncs(trace)| - 1] == Syncs(before);
      }
    }
  }

  /* ---- the bounded-warning proof ---- */

  /** Sample `i` is bounded and carries on from the sample before it. */
  predicate Good(ts: seq<Sync>, i: nat) {
    && 0 < i < |ts| && BoundedSample(ts[i]) && ts[i].last >= ts[i - 1].last
    && RunsOn(ts[i - 1], ts[i])
  }

  predicate Advance(ts: seq<Sync>, i: nat) {
    Good(ts, i) && ts[i].last > ts[i - 1].last
  }

  /** From sample `a` to the newest one nothing breaks the run. */
  ghost predicate UnbrokenFrom(ts: seq<Sync>, a: nat) {
    forall i: nat :: a <= i < |ts| ==> Good(ts, i)
  }

  /** The advances in the unbroken run at the end. */
  function Advances(ts: seq<Sync>): seq<nat> {
    if ts == [] then []
    else
      var n := |ts| - 1;
      if !Good(ts, n) then []
      else if ts[n].last > ts[n - 1].last then Advances(ts[..n]) + [n]
      else Advances(ts[..n])
  }

  lemma GoodPrefix(ts: seq<Sync>, n: nat, i: nat)
    requires i < n <= |ts|
    ensures Good(ts[..n], i) <==> Good(ts, i)
    ensures Advance(ts[..n], i) <==> Advance(ts, i)
  {
  }

  lemma {:induction false} AdvancesExact(ts: seq<Sync>, i: nat)
    ensures i in Advances(ts) <==> Advance(ts, i) && UnbrokenFrom(ts, i)
    decreases |ts|
  {
    if ts != [] {
      var n := |ts| - 1;
      AdvancesExact(ts[..n], i);
      forall k: nat | k < n
        ensures Good(ts[..n], k) <==> Good(ts, k)
        ensures Advance(ts[..n], k) <==> Advance(ts, k)
      {
        GoodPrefix(ts, n, k);
      }
      hide BoundedSample, RunsOn;
      if i < n {
        if UnbrokenFrom(ts, i) {
          assert UnbrokenFrom(ts[..n], i);
        }
      }
    }
  }

  lemma {:induction false} AdvancesSorted(ts: seq<Sync>)
    ensures forall k :: 0 <= k < |Advances(ts)| ==> Advances(ts)[k] < |ts|
    ensures forall j, k :: 0 <= j < k < |Advances(ts)| ==> Advances(ts)[j] < Advances(ts)[k]
    decreases |ts|
  {
    if ts != [] {
      AdvancesSorted(ts[..|ts| - 1]);
      hide Good;
    }
  }

  lemma GoodIs(ts: seq<Sync>, n: nat)
    requires n < |ts|
    ensures Good(ts, n) <==>
            n > 0 && Tight(ts[n]) && ts[n].last >= ts[n - 1].last
            && Follows(ts[n].local, ts[n].now, ts[n - 1].local, ts[n - 1].now)
  {
    if n > 0 {
      SamplesAre(Config(0, 0, 0, 0, 0), ts[n - 1], ts[n]);
      SamplesAre(Config(0, 0, 0, 0, 0), ts[n], ts[n]);
    }
    hide BoundedSample, RunsOn, Tight, Follows;
  }

  lemma {:induction false} BoundedExact(ts: seq<Sync>)
    ensures var b := BoundedOf(ts); var a := Advances(ts);
            && b.seen == (ts != [])
            && (ts != [] ==> var s := ts[|ts| - 1];
                             b.local == s.local && b.last == s.last && b.offset == s.offset && b.time == s.now)
            && b.advances == (if |a| < 2 then |a| else 2)
            && (|a| > 0 ==> a[|a| - 1] < |ts| && b.advanceTime == ts[a[|a| - 1]].now)
    decreases |ts|
  {
    if ts != [] {
      var n := |ts| - 1;
      BoundedExact(ts[..n]);
      AdvancesSorted(ts[..n]);
      GoodIs(ts, n);
      hide BoundedSample, RunsOn, Tight, Follows, Good;
    }
  }

  /** The newest sample ends an unbroken run with two strict advances, of which `j` is the newest. */
  ghost predicate Proven(ts: seq<Sync>, i: nat, j: nat) {
    i < j && Advance(ts, i) && Advance(ts, j) && UnbrokenFrom(ts, i)
    && forall k: nat :: j < k < |ts| ==> !Advance(ts, k)
  }

  ghost predicate ProvenRecently(cfg: Config, ts: seq<Sync>, now: int) {
    exists i: nat, j: nat ::
      Proven(ts, i, j) && now - ts[j].now < 2_500_001_000 && now - ts[j].now <= cfg.stateTimeout
  }

  lemma ProvenGives(ts: seq<Sync>, i: nat, j: nat)
    requires Proven(ts, i, j)
    ensures |Advances(ts)| >= 2 && Advances(ts)[|Advances(ts)| - 1] == j
  {
    assert UnbrokenFrom(ts, j);
    AdvancesExact(ts, i);
    AdvancesExact(ts, j);
    AdvancesSorted(ts);
    var a := Advances(ts);
    AdvancesExact(ts, a[|a| - 1]);
  }

  lemma ProvenFrom(ts: seq<Sync>)
    requires |Advances(ts)| >= 2
    ensures var a := Advances(ts); Proven(ts, a[|a| - 2], a[|a| - 1])
    ensures ts != [] && Good(ts, |ts| - 1)
  {
    var a := Advances(ts);
    AdvancesSorted(ts);
    AdvancesExact(ts, a[|a| - 2]);
    AdvancesExact(ts, a[|a| - 1]);
    var j := a[|a| - 1];
    forall k: nat | j < k < |ts|
      ensures !Advance(ts, k)
    {
      AdvancesExact(ts, k);
      if Advance(ts, k) {
        assert UnbrokenFrom(ts, k);
      }
    }
  }

  /** The timing evidence is sound and complete: it counts as fresh exactly when the samples end in an
      unbroken run of bounded, clock-continuous samples with at least two strict advances of the sync
      time, the newest of them recent. */
  lemma TimingEvidence(cfg: Config, trace: seq<Observation>, now: int)
    ensures EvidenceFresh(cfg, Run(cfg, trace).bounded, now) <==> ProvenRecently(cfg, Syncs(trace), now)
  {
    var ts := Syncs(trace);
    SyncParts(cfg, trace);
    BoundedExact(ts);
    hide Run, Syncs, BoundedOf;
    if |Advances(ts)| >= 2 {
      ProvenFrom(ts);
    }
    forall i: nat, j: nat | Proven(ts, i, j)
      ensures |Advances(ts)| >= 2 && Advances(ts)[|Advances(ts)| - 1] == j
    {
      ProvenGives(ts, i, j);
    }
    hide Advances, Proven;
  }

  /* ---- the PTP proof ---- */

  /** A healthy sample whose sync time is newer than that of every healthy sample before it. */
  ghost predicate NewMaximum(cfg: Config, ts: seq<Sync>, i: nat) {
    && i < |ts| && HealthySample(cfg, ts[i])
    && forall j: nat :: j < i && HealthySample(cfg, ts[j]) ==> ts[j].last < ts[i].last
  }

  /** No sample after `i` is unhealthy, regresses or is newer. */
  ghost predicate HeldSince(cfg: Config, ts: seq<Sync>, i: nat) {
    forall j: nat :: i < j < |ts| ==> HealthySample(cfg, ts[j]) && i < |ts| && ts[j].last == ts[i].last
  }

  /** The index of the newest maximum, -1 if there is none. */
  function LastMaximum(cfg: Config, ts: seq<Sync>): (r: int)
    ensures -1 <= r < |ts|
  {
    if ts == [] then -1
    else
      var n := |ts| - 1;
      var r := LastMaximum(cfg, ts[..n]);
      if HealthySample(cfg, ts[n]) && (r < 0 || ts[n].last > ts[r].last) then n else r
  }

  lemma {:induction false} LastMaximumExact(cfg: Config, ts: seq<Sync>)
    ensures var r := LastMaximum(cfg, ts);
            && (r >= 0 ==> NewMaximum(cfg, ts, r))
            && forall j: nat :: j < |ts| && HealthySample(cfg, ts[j]) ==> r >= 0 && ts[j].last <= ts[r].last
    decreases |ts|
  {
    if ts != [] {
      var n := |ts| - 1;
      LastMaximumExact(cfg, ts[..n]);
      hide HealthySample;
      assert forall j: nat :: j < n ==> ts[..n][j] == ts[j];
      var r := LastMaximum(cfg, ts[..n]);
      if r >= 0 {
        assert NewMaximum(cfg, ts[..n], r);
      }
    }
  }

  lemma HeldStep(cfg: Config, ts: seq<Sync>, n: nat, r: nat)
    requires r < n == |ts| - 1
    ensures HeldSince(cfg, ts, r)
            <==> HeldSince(cfg, ts[..n], r) && HealthySample(cfg, ts[n]) && ts[n].last == ts[r].last
  {
    hide HealthySample;
    assert forall j: nat :: j < n ==> ts[..n][j] == ts[j];
  }

  lemma HeldAtEnd(cfg: Config, ts: seq<Sync>, n: nat)
    requires n == |ts| - 1
    ensures HeldSince(cfg, ts, n)
  {
  }

  lemma {:induction false} PtpExact(cfg: Config, ts: seq<Sync>)
    ensures var p := PtpOf(cfg, ts); var r := LastMaximum(cfg, ts);
            && p.seen == (r >= 0)
            && (r >= 0 ==> p.last == ts[r].last && p.time == ts[r].now)
            && (p.verified <==> r >= 0 && HeldSince(cfg, ts, r))
    decreases |ts|
  {
    hide HealthySample, HeldSince, Healthy;
    if ts != [] {
      var n := |ts| - 1;
      SamplesAre(cfg, ts[n], ts[n]);
      PtpExact(cfg, ts[..n]);
      var r := LastMaximum(cfg, ts[..n]);
      HeldAtEnd(cfg, ts, n);
      if r >= 0 {
        HeldStep(cfg, ts, n, r);
      }
    }
  }

  ghost predicate PtpProven(cfg: Config, ts: seq<Sync>, now: int) {
    exists i: nat :: NewMaximum(cfg, ts, i) && HeldSince(cfg, ts, i) && now - ts[i].now <= cfg.stateTimeout
  }

  /** PTP counts as healthy exactly when a healthy sample with a strictly new maximum lies within the
      timeout and every sample since has been healthy and has repeated it. */
  lemma HealthyPtpExactly(cfg: Config, trace: seq<Observation>, now: int)
    ensures HealthyPtp(cfg, Run(cfg, trace).ptp, now) <==> PtpProven(cfg, Syncs(trace), now)
  {
    var ts := Syncs(trace);
    SyncParts(cfg, trace);
    PtpExact(cfg, ts);
    LastMaximumExact(cfg, ts);
    hide Run, Syncs, PtpOf, LastMaximum, HealthySample;
    var r := LastMaximum(cfg, ts);
    if PtpProven(cfg, ts, now) {
      var i: nat :| NewMaximum(cfg, ts, i) && HeldSince(cfg, ts, i) && now - ts[i].now <= cfg.stateTimeout;
      assert i == r;
    }
  }

  /** The remembered sync time is the greatest one of all healthy samples ever seen. */
  lemma LastSyncIsMaximum(cfg: Config, trace: seq<Observation>)
    ensures var p := Run(cfg, trace).ptp; var ts := Syncs(trace);
            && (forall j: nat :: j < |ts| && HealthySample(cfg, ts[j]) ==> p.seen && ts[j].last <= p.last)
            && (p.seen ==> exists i: nat :: NewMaximum(cfg, ts, i) && ts[i].last == p.last && ts[i].now == p.time)
  {
    var ts := Syncs(trace);
    SyncParts(cfg, trace);
    PtpExact(cfg, ts);
    LastMaximumExact(cfg, ts);
    hide Run, Syncs, PtpOf, LastMaximum, HealthySample;
  }

  /** Frozen evidence never renews itself: whatever samples follow, as long as none brings a sync time
      beyond the maximum, PTP is not proven afterwards unless it was proven before by the same age. */
  lemma {:induction false} FrozenPtpStaysOld(cfg: Config, p: Ptp, more: seq<Sync>, now: int)
    requires p.seen && forall k :: 0 <= k < |more| ==> more[k].last <= p.last
    requires HealthyPtp(cfg, PtpAfter(cfg, p, more), now)
    ensures HealthyPtp(cfg, p, now)
    decreases |more|
  {
    if more != [] {
      FrozenPtpStaysOld(cfg, StepPtp(cfg, p, more[0]), more[1..], now);
    }
  }

  function PtpAfter(cfg: Config, p: Ptp, more: seq<Sync>): Ptp
    decreases |more|
  {
    if more == [] then p else PtpAfter(cfg, StepPtp(cfg, p, more[0]), more[1..])
  }

  /* ---- the newest observation of a kind ---- */

  datatype Kind = HmsKind | WorkKind | PacketKind

  predicate Is(o: Observation, kind: Kind) {
    match kind
    case HmsKind => o.Hms?
    case WorkKind => o.WorkState?
    case PacketKind => o.Packet?
  }

  ghost predicate Newest(trace: seq<Observation>, kind: Kind, i: nat) {
    i < |trace| && Is(trace[i], kind) && forall j: nat :: i < j < |trace| ==> !Is(trace[j], kind)
  }

  function NewestIndex(trace: seq<Observation>, kind: Kind): (r: int)
    ensures -1 <= r < |trace|
  {
    if trace == [] then -1
    else if Is(trace[|trace| - 1], kind) then |trace| - 1
    else NewestIndex(trace[..|trace| - 1], kind)
  }

  lemma {:induction false} NewestExact(trace: seq<Observation>, kind: Kind)
    ensures forall i: nat :: Newest(trace, kind, i) <==> i == NewestIndex(trace, kind)
    decreases |trace|
  {
    if trace != [] {
      var n := |trace| - 1;
      NewestExact(trace[..n], kind);
      hide Is;
      assert forall j: nat :: j < n ==> trace[..n][j] == trace[j];
      forall i: nat
        ensures Newest(trace, kind, i) <==> i == NewestIndex(trace, kind)
      {
        assert i < n && !Is(trace[n], kind) ==> (Newest(trace, kind, i) <==> Newest(trace[..n], kind, i));
      }
    }
  }

  lemma {:induction false} NewestParts(cfg: Config, trace: seq<Observation>)
    ensures var s := Run(cfg, trace);
            var h, w, p := NewestIndex(trace, HmsKind), NewestIndex(trace, WorkKind), NewestIndex(trace, PacketKind);
            && s.hms.seen == (h >= 0) && s.work.seen == (w >= 0) && s.packet.seen == (p >= 0)
            && (h >= 0 ==> trace[h].Hms? && s.hms.codes == trace[h].codes && s.hms.time == trace[h].now)
            && (w >= 0 ==> trace[w].WorkState? && s.work.state == trace[w].state && s.work.time == trace[w].now)
            && (p >= 0 ==> trace[p].Packet? && s.packet.time == trace[p].now)
    decreases |trace|
  {
    if trace != [] {
      NewestParts(cfg, trace[..|trace| - 1]);
      hide StepBounded, StepPtp, StepCloud;
    }
  }

  /* ---- cloud progress ---- */

  predicate Qualifies(cfg: Config, o: Observation) {
    o.Cloud? && o.points >= cfg.minValidPoints
  }

  /** A cloud with enough points whose stamp is newer than that of every such cloud before it. */
  ghost predicate NewStamp(cfg: Config, trace: seq<Observation>, i: nat) {
    && i < |trace| && Qualifies(cfg, trace[i]) && trace[i].stamp > 0
    && forall j: nat :: j < i && Qualifies(cfg, trace[j]) ==> trace[j].stamp < trace[i].stamp
  }

  function NewestStamp(cfg: Config, trace: seq<Observation>): (r: int)
    ensures -1 <= r < |trace| && (r >= 0 ==> Qualifies(cfg, trace[r]))
  {
    if trace == [] then -1
    else
      var n := |trace| - 1;
      var r := NewestStamp(cfg, trace[..n]);
      if Qualifies(cfg, trace[n]) && trace[n].stamp > (if r < 0 then 0 else trace[r].stamp) then n else r
  }

  lemma {:induction false} CloudExact(cfg: Config, trace: seq<Observation>)
    ensures var c := Run(cfg, trace).cloud; var r := NewestStamp(cfg, trace);
            && c.seen == (r >= 0) && c.stamp == (if r >= 0 then trace[r].stamp else 0)
            && (r >= 0 ==> c.time == trace[r].now && NewStamp(cfg, trace, r))
            && (forall j: nat :: j < |trace| && Qualifies(cfg, trace[j]) ==> trace[j].stamp <= c.stamp)
    decreases |trace|
  {
    if trace != [] {
      var n := |trace| - 1;
      CloudExact(cfg, trace[..n]);
      hide StepBounded, StepPtp;
      assert forall j: nat :: j < n ==> trace[..n][j] == trace[j];
      var r := NewestStamp(cfg, trace[..n]);
      if r >= 0 {
        assert NewStamp(cfg, trace[..n], r);
      }
    }
  }

  /** The remembered stamp is the greatest one of all clouds with enough points. */
  lemma ValidStampIsMaximum(cfg: Config, trace: seq<Observation>)
    ensures var c := Run(cfg, trace).cloud;
            && (forall j: nat :: j < |trace| && Qualifies(cfg, trace[j]) ==> trace[j].stamp <= c.stamp)
            && (c.stamp > 0 ==> exists i: nat :: NewStamp(cfg, trace, i) && trace[i].stamp == c.stamp)
  {
    CloudExact(cfg, trace);
    hide Run;
  }

  /** The cloud progress seen last. */
  ghost predicate LastProgress(cfg: Config, trace: seq<Observation>, i: nat) {
    NewStamp(cfg, trace, i) && forall j: nat :: i < j < |trace| ==> !NewStamp(cfg, trace, j)
  }

  lemma LastProgressExact(cfg: Config, trace: seq<Observation>)
    ensures forall i: nat :: LastProgress(cfg, trace, i) <==> i == NewestStamp(cfg, trace)
  {
    CloudExact(cfg, trace);
    hide Run, NewestStamp, Qualifies;
  }

  /* ---- the judgements over the whole run ---- */

  predicate Recent(now: int, then_: int, timeout: nat) {
    now - then_ <= timeout
  }

  /** Current alarms: `h` is the newest alarm report and it is recent. */
  ghost predicate CurrentAlarms(cfg: Config, trace: seq<Observation>, now: int, h: nat) {
    Newest(trace, HmsKind, h) && trace[h].Hms? && Recent(now, trace[h].now, cfg.stateTimeout)
  }

  /** Cloud progress `c`, packet `p`, alarm report `h` and work state `w` are the newest of their kinds,
      recent and normal. */
  ghost predicate NormalBy(cfg: Config, trace: seq<Observation>, now: int, c: nat, p: nat, h: nat, w: nat) {
    && LastProgress(cfg, trace, c) && trace[c].Cloud? && Recent(now, trace[c].now, cfg.dataTimeout)
    && Newest(trace, PacketKind, p) && trace[p].Packet? && Recent(now, trace[p].now, cfg.dataTimeout)
    && CurrentAlarms(cfg, trace, now, h)
    && (forall k :: 0 <= k < |trace[h].codes| ==> !FatalAlarm(trace[h].codes[k]))
    && Newest(trace, WorkKind, w) && trace[w].WorkState? && Recent(now, trace[w].now, cfg.stateTimeout)
    && trace[w].state == 1
  }

  lemma FatalAmong(codes: seq<nat>)
    ensures (exists k :: 0 <= k < |codes| && Fatal(codes[k])) <==> exists k :: 0 <= k < |codes| && FatalAlarm(codes[k])
  {
    hide Fatal, FatalAlarm;
    forall k | 0 <= k < |codes|
      ensures Fatal(codes[k]) <==> FatalAlarm(codes[k])
    {
      FatalIs(codes[k]);
    }
  }

  /** Usable is never judged from old, frozen or broken evidence, and is judged whenever the evidence is
      current and normal. */
  lemma UsableExactly(cfg: Config, trace: seq<Observation>, now: int)
    ensures AllGood(cfg, Run(cfg, trace), now)
            <==> exists c: nat, p: nat, h: nat, w: nat :: NormalBy(cfg, trace, now, c, p, h, w)
  {
    NewestParts(cfg, trace);
    CloudExact(cfg, trace);
    LastProgressExact(cfg, trace);
    NewestExact(trace, HmsKind);
    NewestExact(trace, WorkKind);
    NewestExact(trace, PacketKind);
    FatalAmong(Run(cfg, trace).hms.codes);
    hide Run, NewestIndex, NewestStamp, Newest, LastProgress, Fatal, FatalAlarm, NewStamp;
    var c, p, h, w := NewestStamp(cfg, trace), NewestIndex(trace, PacketKind),
                        NewestIndex(trace, HmsKind), NewestIndex(trace, WorkKind);
    if AllGood(cfg, Run(cfg, trace), now) {
      assert NormalBy(cfg, trace, now, c, p, h, w);
    }
  }

  /** The alarms of report `h` include the accuracy warning and nothing that forbids it. */
  ghost predicate AdvisoryBy(cfg: Config, trace: seq<Observation>, now: int, h: nat) {
    && CurrentAlarms(cfg, trace, now, h)
    && (exists k :: 0 <= k < |trace[h].codes| && AccuracyWarning(trace[h].codes[k]))
    && (forall k :: 0 <= k < |trace[h].codes| ==> !Forbids(trace[h].codes[k]))
  }

  /** The bounded timing warning is reported exactly when the newest alarms are recent, contain the
      level-2 accuracy warning and nothing unrecognised or otherwise wrong about time, the lidar is
      usable, and the timing is proven by an unbroken, advancing, recent run of samples. */
  lemma BoundedWarningExactly(cfg: Config, trace: seq<Observation>, now: int)
    ensures var s := Run(cfg, trace);
            AlarmsAdvisory(cfg, s, now) && AllGood(cfg, s, now) && EvidenceFresh(cfg, s.bounded, now)
            <==> (exists h: nat :: AdvisoryBy(cfg, trace, now, h))
                 && (exists c: nat, p: nat, h: nat, w: nat :: NormalBy(cfg, trace, now, c, p, h, w))
                 && ProvenRecently(cfg, Syncs(trace), now)
  {
    UsableExactly(cfg, trace, now);
    TimingEvidence(cfg, trace, now);
    AdvisoryExactly(cfg, trace, now);
    hide Run, AllGood, AlarmsAdvisory, EvidenceFresh, AdvisoryBy, NormalBy, ProvenRecently;
  }

  lemma AdvisoryAmong(codes: seq<nat>)
    ensures (exists k :: 0 <= k < |codes| && Advisory(codes[k]))
            <==> exists k :: 0 <= k < |codes| && AccuracyWarning(codes[k])
    ensures (forall k :: 0 <= k < |codes| ==> !Incompatible(codes[k]))
            <==> forall k :: 0 <= k < |codes| ==> !Forbids(codes[k])
  {
    hide Advisory, AccuracyWarning, Incompatible, Forbids;
    forall k | 0 <= k < |codes|
      ensures Advisory(codes[k]) <==> AccuracyWarning(codes[k])
      ensures Incompatible(codes[k]) <==> Forbids(codes[k])
    {
      AdvisoryIs(codes[k]);
      IncompatibleIs(codes[k]);
    }
  }

  lemma AdvisoryExactly(cfg: Config, trace: seq<Observation>, now: int)
    ensures AlarmsAdvisory(cfg, Run(cfg, trace), now) <==> exists h: nat :: AdvisoryBy(cfg, trace, now, h)
  {
    NewestParts(cfg, trace);
    NewestExact(trace, HmsKind);
    AdvisoryAmong(Run(cfg, trace).hms.codes);
    hide Run, NewestIndex, Newest, Advisory, Incompatible, AccuracyWarning, Forbids;
    if AlarmsAdvisory(cfg, Run(cfg, trace), now) {
      assert AdvisoryBy(cfg, trace, now, NewestIndex(trace, HmsKind));
    }
  }
}
