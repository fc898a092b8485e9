/** When a frame is published and what is in it (src/comm/pub_handler.cpp, CheckTimer), in terms of the
    points themselves and of the clock. */
module FrameGates {
  import opened Frames
  import opened PubHandler

  /** The lidar's points with those of the packet. */
  function Gathered(h: Hub, p: RawPacket, id: Id): seq<Point> {
    BufferOf(h, id) + if id == p.id then p.points else []
  }

  lemma ReceivedIs(h: Hub, p: RawPacket, id: Id)
    ensures BufferOf(Received(h, p.id, p.points), id) == Gathered(h, p, id)
  {
  }

  /** A lidar's points span a frame: the last one lies in a millisecond that is a multiple of the interval,
      and it is at least the tolerance later than the first one, in 64-bit arithmetic. */
  predicate Spans(cfg: Config, points: seq<Point>)
    requires Sane(cfg)
  {
    points != [] &&
    var first, last := points[0].time, points[|points| - 1].time;
    && last / 1_000_000 != 0 && (last / 1_000_000) % cfg.intervalMs == 0
    && (last - first) % 0x1_0000_0000_0000_0000 >= cfg.tolerance
  }

  /** With time synchronisation a frame is published exactly when the lidar's points span one. */
  lemma SyncExactly(cfg: Config, h: Hub, p: RawPacket)
    requires Sane(cfg) && p.sync
    ensures |Process(cfg, h, p).frames| == if Spans(cfg, BufferOf(h, p.id) + p.points) then 1 else 0
  {
    ReceivedIs(h, p, p.id);
    hide Received, Gather, Emptied, BufferOf;
  }

  /** Without it a frame is published exactly when the clock has been looked at before and an interval has
      passed since the last frame was due. */
  lemma HostExactly(cfg: Config, h: Hub, p: RawPacket)
    requires Sane(cfg) && !p.sync
    ensures |Process(cfg, h, p).frames| == if !h.first && p.now >= h.lastPub + cfg.interval then 1 else 0
  {
    hide BufferOf, Gather, Emptied;
  }

  /** What Process takes out: nothing, the packet's lidar, or all lidars. */
  lemma OutcomeIs(cfg: Config, h: Hub, p: RawPacket)
    requires Sane(cfg)
    ensures var r, o := Received(h, p.id, p.points), Process(cfg, h, p);
            var ids := if p.sync then [p.id] else r.ids;
            if o.frames == [] then o.hub.buffers == r.buffers
            else o.frames[0] == Gather(r, ids) && o.hub.buffers == Emptied(r, ids).buffers
  {
    hide Received, Gather, Emptied, BufferOf, SyncDue;
  }

  lemma SameBuffers(h: Hub, g: Hub, id: Id)
    requires h.buffers == g.buffers
    ensures BufferOf(h, id) == BufferOf(g, id)
  {
  }

  /** What a frame holds for a lidar: with time synchronisation all points of the packet's lidar and none
      of the others, otherwise all points of every lidar. What is in the frame leaves the buffer, and
      everything else stays in it. */
  lemma FrameHolds(cfg: Config, h: Hub, p: RawPacket, id: Id)
    requires Sane(cfg) && Shaped(h)
    ensures var o := Process(cfg, h, p);
            var taken := o.frames != [] && (p.sync ==> id == p.id);
            && (o.frames != [] ==> PacketPoints(o.frames[0], id) == if taken then Gathered(h, p, id) else [])
            && BufferOf(o.hub, id) == if taken then [] else Gathered(h, p, id)
  {
    hide Received, Gather, Emptied, BufferOf, Shaped, PacketPoints, Gathered, Process, Ascending;
    var r, o := Received(h, p.id, p.points), Process(cfg, h, p);
    var ids := if p.sync then [p.id] else r.ids;
    OutcomeIs(cfg, h, p);
    ReceivedIs(h, p, id);
    ReceivedShaped(h, p.id, p.points);
    NotKnown(r, id);
    OneAscends(p.id);
    GatherPoints(r, ids, id);
    EmptiedHolds(r, ids, id);
    SameBuffers(o.hub, if o.frames == [] then r else Emptied(r, ids), id);
  }

  lemma OneAscends(id: Id)
    ensures Ascending([id])
  {
  }

  lemma EmptiedHolds(h: Hub, ids: seq<Id>, id: Id)
    ensures BufferOf(Emptied(h, ids), id) == if id in ids then [] else BufferOf(h, id)
  {
  }

  lemma NotKnown(h: Hub, id: Id)
    requires Shaped(h)
    ensures Ascending(h.ids) && (id !in h.ids ==> BufferOf(h, id) == [])
  {
  }
}
