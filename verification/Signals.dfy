/** What single observations say: alarm codes by their ids and levels, and time samples by their numbers
    (src/lidar_dtc_monitor.h). */
module Signals {
  import opened Doubles
  import opened Monitor

  /* ---- alarm codes ---- */

  const DATA_IDS: set<int> := {0x0104, 0x0304}
  const TIME_IDS: set<int> := {0x0402, 0x0403, 0x0404, 0x0406, 0x0407, 0x0408, 0x0409, 0x040A}
  const SCAN_IDS: set<int> := {0x0210, 0x0211, 0x0212, 0x0213, 0x0214, 0x0215, 0x0216, 0x0217, 0x0218, 0x0219, 0x021C}
  const TEMPERATURE_IDS: set<int> := {0x0102, 0x0103, 0x0111, 0x0112, 0x0114, 0x0115}
  const VOLTAGE_IDS: set<int> := {0x0116}
  const UPGRADE_IDS: set<int> := {0x0105}
  const IMU_IDS: set<int> := {0x0113}
  const PARAMETER_IDS: set<int> := {0x0117}
  const HARDWARE_IDS: set<int> := {0x0118}
  const ETHERNET_HISTORY_IDS: set<int> := {0x0401}
  const SYNC_HISTORY_IDS: set<int> := {0x0405}

  /** The alarm ids by category. */
  const ALARM_IDS: seq<set<int>> :=
    [DATA_IDS, TIME_IDS, SCAN_IDS, TEMPERATURE_IDS, VOLTAGE_IDS, UPGRADE_IDS, IMU_IDS, PARAMETER_IDS, HARDWARE_IDS,
     ETHERNET_HISTORY_IDS, SYNC_HISTORY_IDS]

  /** The warnings about GPS and PPS, which say nothing about PTP. */
  const GPS_IDS: set<int> := {0x0404, 0x0407, 0x0408, 0x0409}

  const ACCURACY_ID: int := 0x0406

  /** An alarm code has its id in the upper 16 bits and its level in the lowest 8. */
  predicate Alarm(code: nat, ids: set<int>) {
    code != 0 && code / 0x1_0000 in ids
  }

  predicate WarningLevel(code: nat) {
    code % 0x100 == 2
  }

  predicate FatalAlarm(code: nat) {
    code != 0 && code % 0x100 == 4
  }

  predicate Recognised(code: nat) {
    exists c :: 0 <= c < 11 && Alarm(code, ALARM_IDS[c])
  }

  /** No alarm id belongs to two categories. */
  lemma IdsAreDisjoint(c: nat, d: nat, id: int)
    requires c < d < 11
    ensures !(id in ALARM_IDS[c] && id in ALARM_IDS[d])
  {
    CategoryIds(id);
  }

  /** The table of the driver is this one: an id has a category exactly if it stands in its set. */
  lemma CategoryIds(id: int)
    ensures id >= 0 ==> forall c :: 0 <= c < 11 ==> (Category(id) == c <==> id in ALARM_IDS[c])
    ensures id < 0 ==> forall c :: 0 <= c < 11 ==> id !in ALARM_IDS[c]
  {
    forall c | 0 <= c < 11
      ensures id >= 0 ==> (Category(id) == c <==> id in ALARM_IDS[c])
      ensures id < 0 ==> id !in ALARM_IDS[c]
    {
      assert c in {0, 1, 2, 3, 4, 5, 6, 7, 8, 9, 10};
    }
  }

  lemma FailsIs(code: nat, ptp: bool, c: nat)
    requires c < 11
    ensures Fails(code, ptp, c) <==> Alarm(code, ALARM_IDS[c]) && !(ptp && WarningLevel(code) && Alarm(code, GPS_IDS))
  {
    CategoryIds(code / 0x1_0000);
    hide Category;
  }

  lemma FatalIs(code: nat)
    ensures Fatal(code) <==> FatalAlarm(code)
  {
  }

  predicate AccuracyWarning(code: nat) {
    Alarm(code, {ACCURACY_ID}) && WarningLevel(code)
  }

  /** An alarm that forbids the bounded warning is not recognised at all, or it is about time and is none of
      the accuracy, GPS and PPS warnings. */
  predicate Forbids(code: nat) {
    code != 0 && (!Recognised(code)
                  || (Alarm(code, TIME_IDS) && !(WarningLevel(code) && Alarm(code, GPS_IDS + {ACCURACY_ID}))))
  }

  lemma AdvisoryIs(code: nat)
    ensures Advisory(code) <==> AccuracyWarning(code)
  {
  }

  lemma IncompatibleIs(code: nat)
    ensures Incompatible(code) <==> Forbids(code)
  {
    var id := code / 0x1_0000;
    CategoryIds(id);
    assert ALARM_IDS[1] == TIME_IDS;
    if code != 0 && Category(id) >= 0 {
      assert Alarm(code, ALARM_IDS[Category(id)]);
    }
    hide Category;
  }

  /* ---- time samples ---- */

  /** Type 1 (PTP), locked at most 2.5 s ago, with an offset of at most 1 ms. */
  predicate BoundedSample(s: Sync) {
    && s.kind == 1 && s.last > 0 && s.local >= s.last && s.local - s.last <= 2_500_000_000
    && -1_000_000 <= s.offset <= 1_000_000
  }

  /** From one sample to the next both clocks have run on, by the same time up to 1 ms. */
  predicate RunsOn(s: Sync, next: Sync) {
    && next.local >= s.local && next.now >= s.now
    && DoubleDistance(next.local - s.local, next.now - s.now) <= 1_000_000
  }

  /** Type 1 (PTP), locked at most the timeout ago, with an offset within the configured bound. */
  predicate HealthySample(cfg: Config, s: Sync) {
    && s.kind == 1 && s.last > 0 && s.local >= s.last && s.local - s.last <= cfg.stateTimeout
    && s.offset >= -cfg.maxSyncOffset && s.offset <= cfg.maxSyncOffset
  }

  lemma SamplesAre(cfg: Config, s: Sync, next: Sync)
    ensures Tight(s) <==> BoundedSample(s)
    ensures Healthy(cfg, s) <==> HealthySample(cfg, s)
    ensures Follows(next.local, next.now, s.local, s.now) <==> RunsOn(s, next)
  {
    hide DoubleDistance;
  }
}
