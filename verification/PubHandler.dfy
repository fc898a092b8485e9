/** From raw packets to published frames (src/comm/pub_handler.cpp, RawDataProcess, CheckTimer and the
    per-lidar buffers). Decoding a packet into points is an input; clocks are inputs. */
module PubHandler {
  import opened Frames

  const MAX_LIDARS: nat := 32
  const NS_PER_MS: nat := 1_000_000
  const TWO_64: nat := 0x1_0000_0000_0000_0000

  type Id = nat

  /** publish_interval_, publish_interval_tolerance_ and publish_interval_ms_ */
  datatype Config = Config(interval: nat, tolerance: nat, intervalMs: nat)

  predicate Sane(cfg: Config) {
    cfg.intervalMs > 0
  }

  /** One packet taken from the queue, with the sync mode and the host clock that CheckTimer then sees. */
  datatype RawPacket = RawPacket(id: Id, points: seq<Point>, sync: bool, now: int)

  /** One lidar's part of a published frame. */
  datatype PointPacket = PointPacket(handle: Id, baseTime: nat, points: seq<Point>)

  /** The lidars known so far in ascending order, their buffers, and the host timer. */
  datatype Hub = Hub(ids: seq<Id>, buffers: map<Id, seq<Point>>, first: bool, lastPub: int)

  const START := Hub([], map[], true, 0)

  function BaseTime(points: seq<Point>): nat {
    if points == [] then 0 else points[0].time
  }

  function RecentTime(points: seq<Point>): nat {
    if points == [] then 0 else points[|points| - 1].time
  }

  /** A frame is due by the time stamps of the points, in 64-bit arithmetic. */
  predicate SyncDue(cfg: Config, points: seq<Point>)
    requires Sane(cfg)
  {
    var recentMs := RecentTime(points) / NS_PER_MS;
    && recentMs % cfg.intervalMs == 0 && recentMs != 0
    && (RecentTime(points) - BaseTime(points)) % TWO_64 >= cfg.tolerance
  }

  /** The ascending list of ids with `id` in it. */
  function InsertId(ids: seq<Id>, id: Id): (r: seq<Id>)
    ensures forall x :: x in r <==> x in ids || x == id
  {
    if ids == [] then [id]
    else if ids[0] == id then ids
    else if id < ids[0] then [id] + ids
    else [ids[0]] + InsertId(ids[1..], id)
  }

  predicate Ascending(ids: seq<Id>) {
    forall i, j :: 0 <= i < j < |ids| ==> ids[i] < ids[j]
  }

  lemma {:induction false} InsertIdAscending(ids: seq<Id>, id: Id)
    requires Ascending(ids)
    ensures Ascending(InsertId(ids, id))
    ensures |ids| <= |InsertId(ids, id)| <= |ids| + 1
    decreases |ids|
  {
    if ids != [] && ids[0] < id {
      InsertIdAscending(ids[1..], id);
      var rest := InsertId(ids[1..], id);
      forall j | 0 <= j < |rest|
        ensures ids[0] < rest[j]
      {
        assert rest[j] in rest;
      }
    }
  }

  function BufferOf(h: Hub, id: Id): seq<Point> {
    if id in h.buffers then h.buffers[id] else []
  }

  ghost predicate Shaped(h: Hub) {
    Ascending(h.ids) && forall id :: id in h.ids <==> id in h.buffers
  }

  /** PointCloudProcess. */
  function Received(h: Hub, id: Id, points: seq<Point>): Hub {
    h.(ids := InsertId(h.ids, id), buffers := h.buffers[id := BufferOf(h, id) + points])
  }

  /** The packets of a frame with all lidars among `ids` that have points. */
  function Gather(h: Hub, ids: seq<Id>): seq<PointPacket> {
    if ids == [] then []
    else
      var points := BufferOf(h, ids[0]);
      if points == [] then Gather(h, ids[1..])
      else [PointPacket(ids[0], BaseTime(points), points)] + Gather(h, ids[1..])
  }

  function Emptied(h: Hub, ids: seq<Id>): (e: Hub)
    ensures e.ids == h.ids
  {
    h.(buffers := map id | id in h.buffers :: if id in ids then [] else h.buffers[id])
  }

  /** CheckTimer: the new state, and the frame if one is published. */
  datatype Outcome = Outcome(hub: Hub, frames: seq<seq<PointPacket>>)

  function Checked(cfg: Config, h: Hub, id: Id, sync: bool, now: int): Outcome
    requires Sane(cfg)
  {
    if sync then
      if SyncDue(cfg, BufferOf(h, id)) then Outcome(Emptied(h, [id]), [Gather(h, [id])])
      else Outcome(h, [])
    else if h.first then Outcome(h.(first := false, lastPub := now), [])
    else if now - h.lastPub < cfg.interval then Outcome(h, [])
    else Outcome(Emptied(h, h.ids).(lastPub := h.lastPub + cfg.interval), [Gather(h, h.ids)])
  }

  function Process(cfg: Config, h: Hub, p: RawPacket): Outcome
    requires Sane(cfg)
  {
    Checked(cfg, Received(h, p.id, p.points), p.id, p.sync, p.now)
  }

  /** RawDataProcess on a list of packets. */
  function ProcessAll(cfg: Config, packets: seq<RawPacket>): Outcome
    requires Sane(cfg)
  {
    if packets == [] then Outcome(START, [])
    else
      var before := ProcessAll(cfg, packets[..|packets| - 1]);
      var o := Process(cfg, before.hub, packets[|packets| - 1]);
      Outcome(o.hub, before.frames + o.frames)
  }

  /* ---- no point is lost, doubled or moved ---- */

  /** The decoded points of a lidar, in order of arrival. */
  function Decoded(packets: seq<RawPacket>, id: Id): seq<Point> {
    if packets == [] then []
    else
      var p := packets[|packets| - 1];
      Decoded(packets[..|packets| - 1], id) + if p.id == id then p.points else []
  }

  function PacketPoints(frame: seq<PointPacket>, id: Id): seq<Point> {
    if frame == [] then []
    else (if frame[0].handle == id then frame[0].points else []) + PacketPoints(frame[1..], id)
  }

  /** The points of a lidar in the published frames. */
  function Delivered(frames: seq<seq<PointPacket>>, id: Id): seq<Point> {
    if frames == [] then []
    else Delivered(frames[..|frames| - 1], id) + PacketPoints(frames[|frames| - 1], id)
  }

  lemma {:induction false} GatherPoints(h: Hub, ids: seq<Id>, id: Id)
    requires Ascending(ids)
    ensures PacketPoints(Gather(h, ids), id) == if id in ids then BufferOf(h, id) else []
    decreases |ids|
  {
    if ids != [] {
      GatherPoints(h, ids[1..], id);
      if id == ids[0] {
        forall j | 0 <= j < |ids[1..]|
          ensures ids[1..][j] != id
        {
          assert ids[0] < ids[j + 1];
        }
      }
      var rest := Gather(h, ids[1..]);
      var points := BufferOf(h, ids[0]);
      if points != [] {
        var whole := [PointPacket(ids[0], BaseTime(points), points)] + rest;
        assert whole[1..] == rest;
      }
    }
  }

  lemma {:induction false} DeliveredAppend(a: seq<seq<PointPacket>>, b: seq<seq<PointPacket>>, id: Id)
    requires |b| <= 1
    ensures Delivered(a + b, id) == Delivered(a, id) + Now(b, id)
  {
    if b == [] {
      assert a + b == a;
    } else {
      assert (a + b)[..|a|] == a;
    }
  }

  /** The points of a lidar in the frames of one call of CheckTimer. */
  function Now(frames: seq<seq<PointPacket>>, id: Id): seq<Point> {
    if frames == [] then [] else PacketPoints(frames[0], id)
  }

  lemma EmptiedShaped(h: Hub, ids: seq<Id>)
    requires Shaped(h)
    ensures Shaped(Emptied(h, ids))
  {
  }

  lemma FlushConserves(h: Hub, ids: seq<Id>, x: Id)
    requires Ascending(ids)
    ensures PacketPoints(Gather(h, ids), x) + BufferOf(Emptied(h, ids), x) == BufferOf(h, x)
  {
    GatherPoints(h, ids, x);
    hide PacketPoints, Gather;
    assert BufferOf(h, x) + [] == BufferOf(h, x);
    assert [] + BufferOf(h, x) == BufferOf(h, x);
  }

  lemma SameTimer(h: Hub, ids: seq<Id>)
    ensures Emptied(h, ids).first == h.first && Emptied(h, ids).lastPub == h.lastPub
  {
  }

  lemma Retimed(h: Hub, first: bool, lastPub: int, x: Id)
    ensures var r := h.(first := first, lastPub := lastPub);
            (Shaped(r) <==> Shaped(h)) && BufferOf(r, x) == BufferOf(h, x)
  {
  }

  lemma CheckTimerConserves(cfg: Config, h: Hub, id: Id, sync: bool, now: int, x: Id)
    requires Sane(cfg) && Shaped(h) && id in h.ids
    ensures var o := Checked(cfg, h, id, sync, now);
            && Shaped(o.hub) && |o.frames| <= 1 && o.hub.ids == h.ids
            && Now(o.frames, x) + BufferOf(o.hub, x) == BufferOf(h, x)
  {
    hide SyncDue, PacketPoints, Gather, Emptied;
    if sync {
      FlushConserves(h, [id], x);
      EmptiedShaped(h, [id]);
    } else {
      FlushConserves(h, h.ids, x);
      EmptiedShaped(h, h.ids);
      Retimed(Emptied(h, h.ids), h.first, h.lastPub + cfg.interval, x);
      SameTimer(h, h.ids);
      Retimed(h, false, now, x);
    }
    hide Shaped, BufferOf;
    assert [] + BufferOf(h, x) == BufferOf(h, x);
  }

  lemma ReceivedShaped(h: Hub, id: Id, points: seq<Point>)
    requires Shaped(h)
    ensures Shaped(Received(h, id, points)) && id in Received(h, id, points).ids
  {
    InsertIdAscending(h.ids, id);
  }

  lemma Rebalance(delivered: seq<Point>, buffer: seq<Point>, more: seq<Point>, now: seq<Point>, rest: seq<Point>)
    requires now + rest == buffer + more
    ensures (delivered + now) + rest == (delivered + buffer) + more
  {
    assert (delivered + now) + rest == delivered + (now + rest);
    assert (delivered + buffer) + more == delivered + (buffer + more);
  }

  /** Point conservation: under any order of packets from any lidars, any switching of the sync mode and
      any clock, the points delivered for a lidar followed by those still buffered are its decoded points,
      in order. */
  lemma {:induction false} PointsConserved(cfg: Config, packets: seq<RawPacket>, id: Id)
    requires Sane(cfg)
    ensures var o := ProcessAll(cfg, packets);
            Shaped(o.hub) && Delivered(o.frames, id) + BufferOf(o.hub, id) == Decoded(packets, id)
    decreases |packets|
  {
    if packets != [] {
      var p := packets[|packets| - 1];
      var before := ProcessAll(cfg, packets[..|packets| - 1]);
      PointsConserved(cfg, packets[..|packets| - 1], id);
      var r := Received(before.hub, p.id, p.points);
      ReceivedShaped(before.hub, p.id, p.points);
      CheckTimerConserves(cfg, r, p.id, p.sync, p.now, id);
      var o := Checked(cfg, r, p.id, p.sync, p.now);
      DeliveredAppend(before.frames, o.frames, id);
      var more := if p.id == id then p.points else [];
      assert BufferOf(r, id) == BufferOf(before.hub, id) + more;
      hide Checked, Shaped, Received, BufferOf, Delivered;
      Rebalance(Delivered(before.frames, id), BufferOf(before.hub, id), more, Now(o.frames, id), BufferOf(o.hub, id));
    }
  }

  /** Every published packet has points and carries the time of its first point; a frame holds each lidar
      at most once, and no more lidars than are known. */
  predicate FrameOk(frame: seq<PointPacket>, lidars: nat) {
    && |frame| <= lidars
    && (forall k :: 0 <= k < |frame| ==> frame[k].points != [] && frame[k].baseTime == frame[k].points[0].time)
    && (forall j, k :: 0 <= j < k < |frame| ==> frame[j].handle < frame[k].handle)
  }

  lemma {:induction false} GatherOk(h: Hub, ids: seq<Id>)
    requires Ascending(ids)
    ensures FrameOk(Gather(h, ids), |ids|)
    ensures forall k :: 0 <= k < |Gather(h, ids)| ==> Gather(h, ids)[k].handle in ids
    decreases |ids|
  {
    if ids != [] {
      GatherOk(h, ids[1..]);
      forall j | 1 <= j < |ids|
        ensures ids[0] < ids[j]
      {
      }
      var rest := Gather(h, ids[1..]);
      forall k | 0 <= k < |rest|
        ensures ids[0] < rest[k].handle
      {
        assert rest[k].handle in ids[1..];
      }
    }
  }

  lemma CheckTimerOk(cfg: Config, h: Hub, id: Id, sync: bool, now: int)
    requires Sane(cfg) && Shaped(h) && id in h.ids
    ensures forall k :: 0 <= k < |Checked(cfg, h, id, sync, now).frames| ==>
      FrameOk(Checked(cfg, h, id, sync, now).frames[k], |h.ids|)
  {
    GatherOk(h, h.ids);
    GatherOk(h, [id]);
    assert |h.ids| >= 1;
    hide Gather, SyncDue, Emptied;
  }

  lemma FrameOkMore(frame: seq<PointPacket>, few: nat, many: nat)
    requires FrameOk(frame, few) && few <= many
    ensures FrameOk(frame, many)
  {
  }

  /** In every run, every published frame is in order. */
  lemma {:induction false} FramesOk(cfg: Config, packets: seq<RawPacket>, k: nat)
    requires Sane(cfg)
    ensures var o := ProcessAll(cfg, packets);
            Shaped(o.hub) && (k < |o.frames| ==> FrameOk(o.frames[k], |o.hub.ids|))
    decreases |packets|
  {
    if packets != [] {
      var p := packets[|packets| - 1];
      var before := ProcessAll(cfg, packets[..|packets| - 1]);
      FramesOk(cfg, packets[..|packets| - 1], k);
      var r := Received(before.hub, p.id, p.points);
      ReceivedShaped(before.hub, p.id, p.points);
      InsertIdAscending(before.hub.ids, p.id);
      CheckTimerOk(cfg, r, p.id, p.sync, p.now);
      CheckTimerConserves(cfg, r, p.id, p.sync, p.now, p.id);
      hide FrameOk, Checked, Shaped;
      if k < |before.frames| {
        FrameOkMore(before.frames[k], |before.hub.ids|, |r.ids|);
      }
    }
  }

  /** With time synchronisation a frame holds just the lidar whose packet came, ends at a multiple of the
      publishing interval, spans at least the tolerance, and leaves every other lidar's points alone. */
  lemma SyncFrame(cfg: Config, h: Hub, p: RawPacket, x: Id)
    requires Sane(cfg) && Shaped(h) && p.sync && Process(cfg, h, p).frames != []
    ensures var frame := Process(cfg, h, p).frames[0];
            && |frame| == 1 && frame[0].handle == p.id
            && frame[0].points == BufferOf(h, p.id) + p.points
            && RecentTime(frame[0].points) / NS_PER_MS % cfg.intervalMs == 0
            && (RecentTime(frame[0].points) - frame[0].baseTime) % TWO_64 >= cfg.tolerance
    ensures x != p.id ==> BufferOf(Process(cfg, h, p).hub, x) == BufferOf(h, x)
  {
    var r := Received(h, p.id, p.points);
    assert BufferOf(r, p.id) == BufferOf(h, p.id) + p.points;
    assert x != p.id ==> BufferOf(r, x) == BufferOf(h, x);
    DueHasPoints(cfg, BufferOf(r, p.id));
    GatherOneOrNone(r, p.id);
    EmptiedOthers(r, p.id, x);
    hide SyncDue, Gather, Emptied, Received, BufferOf, BaseTime, RecentTime;
  }

  lemma DueHasPoints(cfg: Config, points: seq<Point>)
    requires Sane(cfg)
    ensures SyncDue(cfg, points) ==> points != [] && RecentTime(points) / NS_PER_MS % cfg.intervalMs == 0
    ensures SyncDue(cfg, points) ==> (RecentTime(points) - BaseTime(points)) % TWO_64 >= cfg.tolerance
  {
  }

  lemma GatherOneOrNone(h: Hub, id: Id)
    ensures BufferOf(h, id) == [] ==> Gather(h, [id]) == []
    ensures BufferOf(h, id) != [] ==> Gather(h, [id]) == [PointPacket(id, BaseTime(BufferOf(h, id)), BufferOf(h, id))]
  {
  }

  lemma EmptiedOthers(h: Hub, id: Id, x: Id)
    ensures x != id ==> BufferOf(Emptied(h, [id]), x) == BufferOf(h, x)
  {
  }

  /** How many frames were published by the host's clock, and when that clock was first looked at. */
  function HostFrames(cfg: Config, packets: seq<RawPacket>): nat
    requires Sane(cfg)
  {
    if packets == [] then 0
    else
      var before, p := packets[..|packets| - 1], packets[|packets| - 1];
      HostFrames(cfg, before) + if p.sync then 0 else |Process(cfg, ProcessAll(cfg, before).hub, p).frames|
  }

  function FirstHost(packets: seq<RawPacket>): int {
    if packets == [] then 0 else if !packets[0].sync then packets[0].now else FirstHost(packets[1..])
  }

  predicate AnyHost(packets: seq<RawPacket>) {
    exists k :: 0 <= k < |packets| && !packets[k].sync
  }

  lemma {:induction false} FirstHostSnoc(packets: seq<RawPacket>, p: RawPacket)
    ensures AnyHost(packets + [p]) <==> AnyHost(packets) || !p.sync
    ensures FirstHost(packets + [p]) == if AnyHost(packets) then FirstHost(packets) else if p.sync then 0 else p.now
    decreases |packets|
  {
    var all := packets + [p];
    assert all[|packets|] == p;
    assert forall k :: 0 <= k < |packets| ==> all[k] == packets[k];
    if packets != [] {
      assert all[1..] == packets[1..] + [p];
      FirstHostSnoc(packets[1..], p);
      assert forall k :: 0 <= k < |packets[1..]| ==> packets[1..][k] == packets[k + 1];
      assert forall k :: 1 <= k < |packets| ==> packets[k] == packets[1..][k - 1];
    }
  }

  /** The host's timer stands at its first look plus one interval for each frame published by it. */
  predicate OnPace(cfg: Config, packets: seq<RawPacket>)
    requires Sane(cfg)
  {
    var h := ProcessAll(cfg, packets).hub;
    && h.first == !AnyHost(packets)
    && (AnyHost(packets) ==> h.lastPub == FirstHost(packets) + Intervals(cfg, HostFrames(cfg, packets)))
    && (!AnyHost(packets) ==> HostFrames(cfg, packets) == 0)
  }

  /** Without time synchronisation frames keep the pace of the host's clock without drift, whatever
      happens in between. */
  lemma {:induction false} HostPace(cfg: Config, packets: seq<RawPacket>)
    requires Sane(cfg)
    ensures OnPace(cfg, packets)
    decreases |packets|
  {
    if packets != [] {
      HostPace(cfg, packets[..|packets| - 1]);
      PaceOn(cfg, packets);
    }
  }

  lemma PaceOn(cfg: Config, packets: seq<RawPacket>)
    requires Sane(cfg) && packets != [] && OnPace(cfg, packets[..|packets| - 1])
    ensures OnPace(cfg, packets)
  {
    hide Process, AnyHost, FirstHost, ProcessAll, HostFrames, Intervals;
    var before, p := packets[..|packets| - 1], packets[|packets| - 1];
    HostStep(cfg, packets);
    assert packets == before + [p];
    FirstHostSnoc(before, p);
    PaceStep(cfg, ProcessAll(cfg, before).hub, p);
    OneMoreInterval(cfg, HostFrames(cfg, before));
  }

  lemma HostStep(cfg: Config, packets: seq<RawPacket>)
    requires Sane(cfg) && packets != []
    ensures var before, p := packets[..|packets| - 1], packets[|packets| - 1];
            var o := Process(cfg, ProcessAll(cfg, before).hub, p);
            && ProcessAll(cfg, packets).hub == o.hub
            && HostFrames(cfg, packets) == HostFrames(cfg, before) + if p.sync then 0 else |o.frames|
  {
    hide Process;
  }

  function Intervals(cfg: Config, n: nat): int {
    n * cfg.interval
  }

  lemma OneMoreInterval(cfg: Config, n: nat)
    ensures Intervals(cfg, n + 1) == Intervals(cfg, n) + cfg.interval && Intervals(cfg, 0) == 0
  {
  }

  lemma PaceStep(cfg: Config, h: Hub, p: RawPacket)
    requires Sane(cfg)
    ensures var o := Process(cfg, h, p);
            && (p.sync ==> o.hub.first == h.first && o.hub.lastPub == h.lastPub)
            && (!p.sync ==> !o.hub.first && |o.frames| <= 1 && (h.first ==> o.frames == []))
            && (!p.sync && h.first ==> o.hub.lastPub == p.now)
            && (!p.sync && !h.first ==> o.hub.lastPub == if o.frames == [] then h.lastPub else h.lastPub + cfg.interval)
            && (!p.sync && o.frames != [] ==> o.hub.lastPub <= p.now)
  {
    hide SyncDue, Gather;
  }

  /* ---- the handler ---- */

  lemma {:induction false} GatherSnoc(h: Hub, ids: seq<Id>, id: Id)
    ensures Gather(h, ids + [id]) == Gather(h, ids) + Gather(h, [id])
    decreases |ids|
  {
    if ids == [] {
      assert [] + [id] == [id];
    } else {
      assert (ids + [id])[0] == ids[0] && (ids + [id])[1..] == ids[1..] + [id];
      GatherSnoc(h, ids[1..], id);
    }
  }

  lemma EmptiedSnoc(h: Hub, ids: seq<Id>, id: Id)
    requires id in h.buffers
    ensures Emptied(h, ids + [id]).buffers == Emptied(h, ids).buffers[id := []]
  {
  }

  class PubHandler {
    const config: Config
    var ids: seq<Id>                       // the keys of lidar_process_handlers_, in the map's order
    var buffers: map<Id, seq<Point>>       // their points_clouds_
    var points: map<Id, seq<Point>>        // points_
    var first: bool
    var lastPub: int
    const baseTime: array<nat>             // frame_.base_time
    const lidarPoint: array<PointPacket>   // frame_.lidar_point
    var lidarNum: nat
    var published: seq<seq<PointPacket>>   // the frames handed to the callback

    ghost function Value(): Hub
      reads this
    {
      Hub(ids, buffers, first, lastPub)
    }

    ghost predicate Valid()
      reads this
    {
      Sane(config) && Shaped(Value()) && baseTime.Length == MAX_LIDARS && lidarPoint.Length == MAX_LIDARS
    }

    constructor (config: Config)
      requires Sane(config)
      ensures Valid() && this.config == config && Value() == START && published == [] && lidarNum == 0
      ensures fresh(baseTime) && fresh(lidarPoint)
    {
      this.config := config;
      ids, buffers, points, first, lastPub := [], map[], map[], true, 0;
      baseTime := new nat[MAX_LIDARS];
      lidarPoint := new PointPacket[MAX_LIDARS](_ => PointPacket(0, 0, []));
      lidarNum, published := 0, [];
    }

    /** The first `n` entries of frame_. */
    function Frame(n: nat): seq<PointPacket>
      requires n <= baseTime.Length && n <= lidarPoint.Length
      reads baseTime, lidarPoint
    {
      seq(n, k requires 0 <= k < n reads baseTime, lidarPoint requires n <= baseTime.Length && n <= lidarPoint.Length =>
        lidarPoint[k].(baseTime := baseTime[k]))
    }

    method SetBaseTime(t: nat)
      requires baseTime.Length == MAX_LIDARS && lidarPoint.Length == MAX_LIDARS && lidarNum < MAX_LIDARS
      modifies baseTime
      ensures baseTime[lidarNum] == t && Frame(lidarNum) == old(Frame(lidarNum))
    {
      ghost var before := Frame(lidarNum);
      baseTime[lidarNum] := t;
      assert Frame(lidarNum) == before;
    }

    method AddPoints(id: Id, pts: seq<Point>)
      requires baseTime.Length == MAX_LIDARS && lidarPoint.Length == MAX_LIDARS && lidarNum < MAX_LIDARS
      modifies `lidarNum, lidarPoint
      ensures lidarNum == old(lidarNum) + 1
      ensures Frame(lidarNum) == old(Frame(lidarNum)) + [PointPacket(id, baseTime[old(lidarNum)], pts)]
    {
      ghost var before := Frame(lidarNum);
      lidarPoint[lidarNum] := PointPacket(id, 0, pts);
      assert Frame(lidarNum) == before;
      lidarNum := lidarNum + 1;
      assert Frame(lidarNum) == before + [PointPacket(id, baseTime[lidarNum - 1], pts)];
    }

    /** The body of CheckTimer's loop: moves a lidar's points into the frame, if it has any. */
    method TakePoints(id: Id)
      requires Valid() && id in buffers && lidarNum < MAX_LIDARS
      modifies `buffers, `points, `lidarNum, baseTime, lidarPoint
      ensures buffers == old(buffers)[id := []] && id in points && points[id] == old(buffers[id])
      ensures lidarNum <= MAX_LIDARS && Frame(lidarNum) == old(Frame(lidarNum)) + Gather(old(Value()), [id])
    {
      GatherOneOrNone(Value(), id);
      hide Gather, Shaped;
      SetBaseTime(BaseTime(buffers[id]));
      points := points[id := buffers[id]];
      buffers := buffers[id := []];
      if points[id] == [] {
        return;
      }
      AddPoints(id, points[id]);
    }

    method PublishPointCloud()
      requires baseTime.Length == lidarPoint.Length == MAX_LIDARS && lidarNum <= MAX_LIDARS
      modifies `published, `lidarNum
      ensures published == old(published) + [old(Frame(lidarNum))] && lidarNum == 0
    {
      published := published + [Frame(lidarNum)];
      lidarNum := 0;
    }

    /** The loop of CheckTimer is at the lidar with place `k`; `h` was the state before it. */
    ghost predicate Gathering(h: Hub, k: nat)
      reads this, baseTime, lidarPoint
    {
      && Sane(config) && baseTime.Length == MAX_LIDARS && lidarPoint.Length == MAX_LIDARS
      && Shaped(h) && k <= |h.ids| <= MAX_LIDARS && lidarNum <= k
      && Frame(lidarNum) == Gather(h, h.ids[..k])
      && Value() == h.(buffers := Emptied(h, h.ids[..k]).buffers)
    }

    method TakeNext(ghost h: Hub, k: nat)
      requires Gathering(h, k) && k < |h.ids|
      modifies `buffers, `points, `lidarNum, baseTime, lidarPoint
      ensures Gathering(h, k + 1)
    {
      GatherStep(h, k);
      SameGather(Value(), h, ids[k]);
      EmptiedShaped(h, h.ids[..k]);
      RetimedShaped(Value(), h, h.ids[..k]);
      hide Gather, Emptied, Shaped;
      TakePoints(ids[k]);
    }

    /** A frame with all lidars. */
    method GatherAll()
      requires Valid() && |ids| <= MAX_LIDARS && lidarNum == 0
      modifies `buffers, `points, `lidarNum, baseTime, lidarPoint
      ensures lidarNum <= MAX_LIDARS && Frame(lidarNum) == Gather(old(Value()), ids)
      ensures buffers == Emptied(old(Value()), ids).buffers
    {
      ghost var h := Value();
      assert ids[..0] == [] && ids[..|ids|] == ids;
      EmptiedNone(h);
      assert Gathering(h, 0);
      hide Gather, Emptied;
      for k := 0 to |ids|
        invariant Gathering(h, k)
      {
        TakeNext(h, k);
      }
    }

    /** The sync branch of CheckTimer. */
    method CheckSync(id: Id)
      requires Valid() && id in ids && lidarNum == 0
      modifies `buffers, `points, `lidarNum, `published, baseTime, lidarPoint
      ensures var due := SyncDue(config, old(BufferOf(Value(), id)));
              && Value() == (if due then Emptied(old(Value()), [id]) else old(Value()))
              && published == old(published) + (if due then [Gather(old(Value()), [id])] else [])
      ensures lidarNum == 0
    {
      EmptiedOne(Value(), id);
      var recentMs := RecentTime(buffers[id]) / NS_PER_MS;
      if recentMs % config.intervalMs != 0 || recentMs == 0 {
        assert published + [] == published;
        return;
      }
      var diff := (RecentTime(buffers[id]) - BaseTime(buffers[id])) % TWO_64;
      if diff < config.tolerance {
        assert published + [] == published;
        return;
      }
      assert SyncDue(config, buffers[id]) && buffers[id] != [];
      assert |Gather(Value(), [id])| == 1;
      hide SyncDue, Gather, Emptied;
      assert Frame(0) == [];
      assert [] + Gather(Value(), [id]) == Gather(Value(), [id]);
      TakePoints(id);
      if points[id] == [] {
        return;
      }
      PublishPointCloud();
    }

    method CheckTimer(id: Id, sync: bool, now: int)
      requires Valid() && id in ids && lidarNum == 0 && |ids| <= MAX_LIDARS
      modifies `buffers, `points, `lidarNum, `published, `first, `lastPub, baseTime, lidarPoint
      ensures var o := Checked(config, old(Value()), id, sync, now);
              Value() == o.hub && published == old(published) + o.frames && lidarNum == 0
    {
      hide SyncDue, Gather;
      if sync {
        CheckSync(id);
      } else {
        if first {
          lastPub := now;
          first := false;
          assert published + [] == published;
          return;
        }
        if now - lastPub < config.interval {
          assert published + [] == published;
          return;
        }
        lastPub := lastPub + config.interval;
        ghost var h := Value();
        Retimed(old(Value()), first, lastPub, id);
        SameBuffers(old(Value()), h, ids);
        hide Shaped, Emptied;
        GatherAll();
        PublishPointCloud();
      }
    }

    /** PointCloudProcess, with the lidar's handler made on its first packet. */
    method PointCloudProcess(id: Id, decoded: seq<Point>)
      requires Valid()
      modifies `ids, `buffers
      ensures Valid() && Value() == Received(old(Value()), id, decoded) && id in ids
    {
      ReceivedShaped(Value(), id, decoded);
      if id in buffers {
        InsertPresent(ids, id);
      }
      hide Shaped, InsertId;
      if id !in buffers {
        buffers := buffers[id := []];
        ids := InsertId(ids, id);
      }
      buffers := buffers[id := buffers[id] + decoded];
    }

    /** The loop of RawDataProcess over the packets that arrive. */
    method RawDataProcess(packets: seq<RawPacket>)
      requires Valid() && Value() == START && published == [] && lidarNum == 0
      requires |ProcessAll(config, packets).hub.ids| <= MAX_LIDARS
      modifies `ids, `buffers, `points, `lidarNum, `published, `first, `lastPub, baseTime, lidarPoint
      ensures Valid() && Value() == ProcessAll(config, packets).hub && published == ProcessAll(config, packets).frames
    {
      hide ProcessAll, Checked, Received, Shaped;
      ProcessNone(config, packets);
      for k := 0 to |packets|
        invariant Valid() && lidarNum == 0
        invariant Value() == ProcessAll(config, packets[..k]).hub
        invariant published == ProcessAll(config, packets[..k]).frames
      {
        ProcessSnoc(config, packets, k);
        IdsGrow(config, packets, k + 1);
        var p := packets[k];
        PointCloudProcess(p.id, p.points);
        CheckTimerConserves(config, Value(), p.id, p.sync, p.now, p.id);
        CheckTimer(p.id, p.sync, p.now);
      }
      assert packets[..|packets|] == packets;
    }
  }

  lemma InsertPresent(ids: seq<Id>, id: Id)
    requires Ascending(ids) && id in ids
    ensures InsertId(ids, id) == ids
  {
    if ids[0] != id {
      assert exists j :: 0 < j < |ids| && ids[j] == id;
      InsertPresent(ids[1..], id);
    }
  }

  lemma ProcessNone(cfg: Config, packets: seq<RawPacket>)
    requires Sane(cfg)
    ensures ProcessAll(cfg, packets[..0]) == Outcome(START, [])
  {
  }

  lemma ProcessSnoc(cfg: Config, packets: seq<RawPacket>, k: nat)
    requires Sane(cfg) && k < |packets|
    ensures var before := ProcessAll(cfg, packets[..k]); var o := Process(cfg, before.hub, packets[k]);
            ProcessAll(cfg, packets[..k + 1]) == Outcome(o.hub, before.frames + o.frames)
    ensures k == 0 ==> ProcessAll(cfg, packets[..k]) == Outcome(START, [])
  {
    assert packets[..k + 1][..k] == packets[..k];
    hide Process;
  }

  /** Lidars are only added. */
  lemma {:induction false} IdsGrow(cfg: Config, packets: seq<RawPacket>, k: nat)
    requires Sane(cfg) && k <= |packets|
    ensures |ProcessAll(cfg, packets[..k]).hub.ids| <= |ProcessAll(cfg, packets).hub.ids|
    ensures Shaped(ProcessAll(cfg, packets[..k]).hub)
    decreases |packets| - k
  {
    PointsConserved(cfg, packets[..k], 0);
    if k < |packets| {
      IdsGrow(cfg, packets, k + 1);
      IdsStep(cfg, packets, k);
      hide ProcessAll, Shaped;
    } else {
      assert packets[..k] == packets;
    }
  }

  lemma IdsStep(cfg: Config, packets: seq<RawPacket>, k: nat)
    requires Sane(cfg) && k < |packets| && Shaped(ProcessAll(cfg, packets[..k]).hub)
    ensures |ProcessAll(cfg, packets[..k]).hub.ids| <= |ProcessAll(cfg, packets[..k + 1]).hub.ids|
  {
    ProcessSnoc(cfg, packets, k);
    hide ProcessAll, Checked;
    var before, p := ProcessAll(cfg, packets[..k]).hub, packets[k];
    InsertIdAscending(before.ids, p.id);
    ReceivedShaped(before, p.id, p.points);
    CheckTimerConserves(cfg, Received(before, p.id, p.points), p.id, p.sync, p.now, p.id);
  }

  lemma EmptiedOne(h: Hub, id: Id)
    requires Shaped(h) && id in h.ids
    ensures id in h.buffers && Emptied(h, [id]) == h.(buffers := h.buffers[id := []])
  {
  }

  lemma GatherStep(h: Hub, k: nat)
    requires Shaped(h) && k < |h.ids|
    ensures Gather(h, h.ids[..k + 1]) == Gather(h, h.ids[..k]) + Gather(h, [h.ids[k]]) && |Gather(h, [h.ids[k]])| <= 1
    ensures h.ids[k] in h.buffers
    ensures Emptied(h, h.ids[..k + 1]).buffers == Emptied(h, h.ids[..k]).buffers[h.ids[k] := []]
    ensures h.ids[k] in Emptied(h, h.ids[..k]).buffers
    ensures Emptied(h, h.ids[..k]).buffers[h.ids[k]] == h.buffers[h.ids[k]]
  {
    assert h.ids[..k + 1] == h.ids[..k] + [h.ids[k]];
    GatherSnoc(h, h.ids[..k], h.ids[k]);
    NotYetEmptied(h, k);
    EmptiedSnoc(h, h.ids[..k], h.ids[k]);
  }

  lemma RetimedShaped(v: Hub, h: Hub, ids: seq<Id>)
    requires v == h.(buffers := Emptied(h, ids).buffers) && Shaped(Emptied(h, ids))
    ensures Shaped(v)
  {
  }

  lemma EmptiedNone(h: Hub)
    ensures Emptied(h, []).buffers == h.buffers
  {
  }

  lemma NotYetEmptied(h: Hub, k: nat)
    requires Shaped(h) && k < |h.ids|
    ensures h.ids[k] in Emptied(h, h.ids[..k]).buffers
    ensures Emptied(h, h.ids[..k]).buffers[h.ids[k]] == h.buffers[h.ids[k]]
  {
    assert h.ids[k] in h.ids;
  }

  lemma SameGather(a: Hub, b: Hub, id: Id)
    requires BufferOf(a, id) == BufferOf(b, id)
    ensures Gather(a, [id]) == Gather(b, [id])
  {
  }

  lemma {:induction false} SameBuffers(a: Hub, b: Hub, ids: seq<Id>)
    requires a.buffers == b.buffers
    ensures Gather(a, ids) == Gather(b, ids) && Emptied(a, ids).buffers == Emptied(b, ids).buffers
    decreases |ids|
  {
    if ids != [] {
      SameBuffers(a, b, ids[1..]);
    }
  }
}
