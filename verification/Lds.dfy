/** Storing published frames in the lidars' rings and taking them out again (src/lds.cpp,
    StoragePointData and PushLidarData). A ring is represented by the frames it holds. */
module Lds {
  import opened Account
  import opened Frames
  import opened PubHandler
  import opened Arithmetic
  import opened RingQueue
  import RingSteps

  /** One lidar's ring: what waits in it, what was taken, and the account of what was offered. */
  datatype Ring = Ring(waiting: seq<Frame>, taken: seq<Frame>, account: Account)

  const NEW := Ring([], [], EMPTY)

  function Offer(r: Ring, f: Frame, capacity: nat): Ring {
    var keep := |r.waiting| < capacity;
    Ring(if keep then r.waiting + [f] else r.waiting, r.taken, Note(r.account, f, keep, |r.taken|))
  }

  function Pop(r: Ring): Ring {
    if r.waiting == [] then r else r.(waiting := r.waiting[1..], taken := r.taken + [r.waiting[0]])
  }

  /** One lidar's part of a frame. `index` is the cache of lidar indexes; a lidar without one is skipped. */
  function StorePart(rings: seq<Ring>, p: PointPacket, index: map<Id, nat>, capacity: nat): (s: seq<Ring>)
    ensures |s| == |rings|
  {
    if p.handle in index && index[p.handle] < |rings| then
      rings[index[p.handle] := Offer(rings[index[p.handle]], Frame(p.baseTime, p.points), capacity)]
    else rings
  }

  function StoreAll(rings: seq<Ring>, frame: seq<PointPacket>, index: map<Id, nat>, capacity: nat): (s: seq<Ring>)
    ensures |s| == |rings|
    decreases |frame|
  {
    if frame == [] then rings else StoreAll(StorePart(rings, frame[0], index, capacity), frame[1..], index, capacity)
  }

  datatype Event = Store(frame: seq<PointPacket>) | Take(i: nat)

  function Run(n: nat, index: map<Id, nat>, capacity: nat, events: seq<Event>): (s: seq<Ring>)
    ensures |s| == n
  {
    if events == [] then seq(n, _ => NEW)
    else
      var rings := Run(n, index, capacity, events[..|events| - 1]);
      match events[|events| - 1]
      case Store(frame) => StoreAll(rings, frame, index, capacity)
      case Take(i) => if i < n then rings[i := Pop(rings[i])] else rings
  }

  /* ---- what a ring keeps ---- */

  /** What was taken, followed by what is waiting, is in order what entered the ring. */
  ghost predicate RingOk(r: Ring, capacity: nat) {
    |r.waiting| <= capacity && Tallied(r.account, r.taken + r.waiting, capacity)
  }

  lemma PushKeeps(r: Ring, f: Frame, capacity: nat)
    requires RingOk(r, capacity)
    ensures RingOk(Offer(r, f, capacity), capacity)
  {
    NoteKeeps(r.account, r.taken + r.waiting, capacity, f, |r.taken|);
    hide Tallied;
    var n := Offer(r, f, capacity);
    assert n.taken + n.waiting == (r.taken + r.waiting) + if |r.waiting| < capacity then [f] else [];
  }

  lemma PopKeeps(r: Ring, capacity: nat)
    requires RingOk(r, capacity)
    ensures RingOk(Pop(r), capacity)
  {
    hide Tallied;
    if r.waiting != [] {
      assert r.taken + r.waiting == (r.taken + [r.waiting[0]]) + r.waiting[1..];
    }
  }

  ghost predicate AllOk(rings: seq<Ring>, capacity: nat) {
    forall i :: 0 <= i < |rings| ==> RingOk(rings[i], capacity)
  }

  lemma AllOkUpdate(rings: seq<Ring>, capacity: nat, k: nat, r: Ring)
    requires AllOk(rings, capacity) && k < |rings| && RingOk(r, capacity)
    ensures AllOk(rings[k := r], capacity)
  {
    hide RingOk;
  }

  lemma PartKeeps(rings: seq<Ring>, p: PointPacket, index: map<Id, nat>, capacity: nat)
    requires AllOk(rings, capacity)
    ensures AllOk(StorePart(rings, p, index, capacity), capacity)
  {
    hide RingOk;
    if p.handle in index && index[p.handle] < |rings| {
      var k, f := index[p.handle], Frame(p.baseTime, p.points);
      PushKeeps(rings[k], f, capacity);
      AllOkUpdate(rings, capacity, k, Offer(rings[k], f, capacity));
    }
  }

  lemma {:induction false} StoreKeeps(rings: seq<Ring>, frame: seq<PointPacket>, index: map<Id, nat>, capacity: nat)
    requires AllOk(rings, capacity)
    ensures AllOk(StoreAll(rings, frame, index, capacity), capacity)
    decreases |frame|
  {
    hide AllOk, StorePart;
    if frame != [] {
      PartKeeps(rings, frame[0], index, capacity);
      StoreKeeps(StorePart(rings, frame[0], index, capacity), frame[1..], index, capacity);
    }
  }

  lemma {:induction false} RunKeeps(n: nat, index: map<Id, nat>, capacity: nat, events: seq<Event>)
    ensures AllOk(Run(n, index, capacity, events), capacity)
    decreases |events|
  {
    if events != [] {
      RunKeeps(n, index, capacity, events[..|events| - 1]);
      var rings := Run(n, index, capacity, events[..|events| - 1]);
      var e := events[|events| - 1];
      if e.Store? {
        StoreKeeps(rings, e.frame, index, capacity);
      } else if e.i < n {
        PopKeeps(rings[e.i], capacity);
        AllOkUpdate(rings, capacity, e.i, Pop(rings[e.i]));
      }
      hide AllOk, RingOk, StoreAll;
    } else {
      assert RingOk(NEW, capacity);
    }
  }

  /* ---- from the decoded points to the ring ---- */

  /** The frames that the stored frames hold for a lidar. */
  function FramesIn(frame: seq<PointPacket>, id: Id): seq<Frame> {
    if frame == [] then []
    else FrameOf(frame[0], id) + FramesIn(frame[1..], id)
  }

  function Stored(events: seq<Event>): seq<seq<PointPacket>> {
    if events == [] then []
    else
      var before, e := Stored(events[..|events| - 1]), events[|events| - 1];
      if e.Store? then before + [e.frame] else before
  }

  function FramesOf(frames: seq<seq<PointPacket>>, id: Id): seq<Frame> {
    if frames == [] then [] else FramesOf(frames[..|frames| - 1], id) + FramesIn(frames[|frames| - 1], id)
  }

  function Flat(fs: seq<Frame>): seq<Point> {
    if fs == [] then [] else Flat(fs[..|fs| - 1]) + fs[|fs| - 1].points
  }

  ghost predicate Injective(index: map<Id, nat>) {
    forall a, b :: a in index && b in index && index[a] == index[b] ==> a == b
  }

  /** The frame that a part of a stored frame is for a lidar. */
  function FrameOf(p: PointPacket, id: Id): seq<Frame> {
    if p.handle == id then [Frame(p.baseTime, p.points)] else []
  }

  lemma PartOffers(rings: seq<Ring>, p: PointPacket, index: map<Id, nat>, capacity: nat, id: Id)
    requires Injective(index) && id in index && index[id] < |rings|
    ensures StorePart(rings, p, index, capacity)[index[id]].account.offered
            == rings[index[id]].account.offered + FrameOf(p, id)
  {
  }

  lemma {:induction false} StoreOffers(rings: seq<Ring>, frame: seq<PointPacket>, index: map<Id, nat>, capacity: nat,
                                       id: Id)
    requires Injective(index) && id in index && index[id] < |rings|
    ensures StoreAll(rings, frame, index, capacity)[index[id]].account.offered
            == rings[index[id]].account.offered + FramesIn(frame, id)
    decreases |frame|
  {
    hide StorePart, Injective;
    if frame != [] {
      var next := StorePart(rings, frame[0], index, capacity);
      PartOffers(rings, frame[0], index, capacity, id);
      StoreOffers(next, frame[1..], index, capacity, id);
      hide FrameOf;
      var offered := rings[index[id]].account.offered;
      assert (offered + FrameOf(frame[0], id)) + FramesIn(frame[1..], id)
          == offered + (FrameOf(frame[0], id) + FramesIn(frame[1..], id));
    }
  }

  lemma {:induction false} RunOffers(n: nat, index: map<Id, nat>, capacity: nat, events: seq<Event>, id: Id)
    requires Injective(index) && id in index && index[id] < n
    ensures Run(n, index, capacity, events)[index[id]].account.offered == FramesOf(Stored(events), id)
    decreases |events|
  {
    if events != [] {
      RunOffers(n, index, capacity, events[..|events| - 1], id);
      var rings := Run(n, index, capacity, events[..|events| - 1]);
      var e := events[|events| - 1];
      if e.Store? {
        StoreOffers(rings, e.frame, index, capacity, id);
        var before := Stored(events[..|events| - 1]);
        assert (before + [e.frame])[..|before|] == before;
      }
      hide StoreAll, FramesIn;
    }
  }

  lemma {:induction false} FlatAppend(a: seq<Frame>, b: seq<Frame>)
    ensures Flat(a + b) == Flat(a) + Flat(b)
    decreases |b|
  {
    if b == [] {
      assert a + b == a;
    } else {
      var c, x := b[..|b| - 1], b[|b| - 1].points;
      FlatAppend(a, c);
      assert (a + b)[..|a + b| - 1] == a + c;
      assert (Flat(a) + Flat(c)) + x == Flat(a) + (Flat(c) + x);
    }
  }

  lemma {:induction false} FramesInPoints(frame: seq<PointPacket>, id: Id)
    ensures Flat(FramesIn(frame, id)) == PacketPoints(frame, id)
    decreases |frame|
  {
    if frame != [] {
      FramesInPoints(frame[1..], id);
      var head := FrameOf(frame[0], id);
      FlatAppend(head, FramesIn(frame[1..], id));
      FlatHead(head, if frame[0].handle == id then frame[0].points else []);
      hide Flat;
    }
  }

  lemma FlatHead(head: seq<Frame>, points: seq<Point>)
    requires |head| <= 1 && points == if head == [] then [] else head[0].points
    ensures Flat(head) == points
  {
    if head != [] {
      assert head[..0] == [];
    }
  }

  lemma {:induction false} FramesOfPoints(frames: seq<seq<PointPacket>>, id: Id)
    ensures Flat(FramesOf(frames, id)) == Delivered(frames, id)
    decreases |frames|
  {
    if frames != [] {
      FramesOfPoints(frames[..|frames| - 1], id);
      FramesInPoints(frames[|frames| - 1], id);
      FlatAppend(FramesOf(frames[..|frames| - 1], id), FramesIn(frames[|frames| - 1], id));
      hide Flat, FramesIn, PacketPoints;
    }
  }

  /** From packet to publisher, for a lidar whose frames are stored in its ring as they are published and
      taken out at any time: the points of the frames offered to the ring, followed by the points still
      buffered, are the lidar's decoded points in order; what the publisher has taken, followed by what
      waits in the ring, are the offered frames without those that met a full ring. */
  lemma EndToEnd(cfg: Config, packets: seq<RawPacket>, n: nat, index: map<Id, nat>, capacity: nat,
                 events: seq<Event>, id: Id)
    requires Sane(cfg) && Injective(index) && id in index && index[id] < n
    requires Stored(events) == ProcessAll(cfg, packets).frames
    ensures var r := Run(n, index, capacity, events)[index[id]];
            && Flat(r.account.offered) + BufferOf(ProcessAll(cfg, packets).hub, id) == Decoded(packets, id)
            && RingOk(r, capacity)
  {
    RunOffers(n, index, capacity, events, id);
    RunKeeps(n, index, capacity, events);
    FramesOfPoints(Stored(events), id);
    PointsConserved(cfg, packets, id);
    hide Run, RingOk, Flat, Decoded, BufferOf, ProcessAll, Stored, Shaped;
  }

  /** The same with the ring's two threads interleaved step by step, at every moment: of the lidar's
      published parts those in `due` have not been offered yet. */
  lemma EndToEndInterleaved(cfg: Config, packets: seq<RawPacket>, id: Id,
                            s: RingSteps.System, steps: seq<RingSteps.Step>, due: seq<Frame>)
    requires Sane(cfg) && RingSteps.Initial(s) && RingSteps.Schedule(s, steps)
    requires RingSteps.Offers(steps) + due == FramesOf(ProcessAll(cfg, packets).frames, id)
    ensures var t := RingSteps.Play(s, steps);
            && Flat(t.account.offered) + Flat(due) + BufferOf(ProcessAll(cfg, packets).hub, id) == Decoded(packets, id)
            && t.popped <= RingSteps.Entered(t)
            && Tallied(t.account, RingSteps.Entered(t), Pow2(s.k))
  {
    RingSteps.LossIsAccounted(s, steps);
    FlatAppend(RingSteps.Offers(steps), due);
    FramesOfPoints(ProcessAll(cfg, packets).frames, id);
    PointsConserved(cfg, packets, id);
    hide Tallied, Flat, Decoded, BufferOf, ProcessAll, Shaped, RingSteps.Play, RingSteps.Offers, Pow2;
  }

  /* ---- the class ---- */

  /** The number of frames for which InitQueue makes room. */
  ghost predicate IsCapacity(queueSize: Uint32, c: nat) {
    && IsPow2(c)
    && (IsPow2(queueSize) ==> c == queueSize)
    && (queueSize <= 0x8000_0000 ==> queueSize <= c && forall k: nat :: queueSize <= Pow2(k) ==> c <= Pow2(k))
    && (queueSize > 0x8000_0000 ==> c == 0x8000_0000)
  }

  lemma CapacityUnique(queueSize: Uint32, c: nat, d: nat)
    requires IsCapacity(queueSize, c) && IsCapacity(queueSize, d)
    ensures c == d
  {
    var j: nat :| c == Pow2(j);
    var k: nat :| d == Pow2(k);
  }

  class Lds {
    const queueSize: Uint32                  // CalculatePacketQueueSize
    const index: map<Id, nat>                // the cache of lidar indexes
    const queues: seq<LidarDataQueue>        // the lidars' queues
    ghost const capacity: nat
    var pcdCount: int                        // the count of pcd_semaphore_

    ghost predicate QueueOk(q: LidarDataQueue)
      reads q, q.storage
    {
      q.storage != null ==> q.Valid() && q.size == capacity
    }

    ghost predicate Valid()
      reads this, queues, set i | 0 <= i < |queues| :: queues[i].storage
    {
      && IsCapacity(queueSize, capacity)
      && (forall i :: 0 <= i < |queues| ==> QueueOk(queues[i]))
      && (forall i, j :: 0 <= i < j < |queues| ==> queues[i] != queues[j])
      && (forall i, j :: 0 <= i < j < |queues| && queues[i].storage != null ==> queues[i].storage != queues[j].storage)
    }

    /** What the queue of lidar `i` holds; nothing before its first frame. */
    ghost function Held(i: nat): seq<Frame>
      requires i < |queues| && QueueOk(queues[i])
      reads queues[i], queues[i].storage
    {
      if queues[i].storage == null then [] else queues[i].Contents()
    }

    method InitIfNew(q: LidarDataQueue)
      requires IsCapacity(queueSize, capacity) && QueueOk(q)
      modifies q
      ensures QueueOk(q) && q.storage != null
      ensures if old(q.storage) == null then fresh(q.storage) && q.Contents() == []
              else q.storage == old(q.storage) && q.Contents() == old(q.Contents())
    {
      if q.storage == null {
        q.InitQueue(queueSize);
        SizeIsCapacity(q);
      }
    }

    /** PushLidarData on one queue. */
    method PushTo(q: LidarDataQueue, frame: Frame)
      requires IsCapacity(queueSize, capacity) && QueueOk(q)
      modifies `pcdCount, q, q.storage
      ensures QueueOk(q) && q.storage != null
      ensures q.storage == old(q.storage) || (old(q.storage) == null && fresh(q.storage))
      ensures var held := if old(q.storage) == null then [] else old(q.Contents());
              q.Contents() == if |held| < capacity then held + [frame] else held
      ensures pcdCount == if old(pcdCount) <= 0 then old(pcdCount) + 1 else old(pcdCount)
    {
      hide IsCapacity, LidarDataQueue.Contents, LidarDataQueue.Valid;
      InitIfNew(q);
      var full := q.IsFull();
      if !full {
        q.PushAny(frame);
        var empty := q.IsEmpty();
        if !empty {
          if pcdCount <= 0 {
            pcdCount := pcdCount + 1;
          }
        }
      } else {
        if pcdCount <= 0 {
          pcdCount := pcdCount + 1;
        }
      }
    }

    /** Keeps the frame if there is room, and sees to it that the publisher has a token in any case. */
    method PushLidarData(frame: Frame, i: nat)
      requires Valid() && i < |queues|
      modifies `pcdCount, queues[i], queues[i].storage
      ensures Valid()
      ensures Held(i) == if old(|Held(i)|) < capacity then old(Held(i)) + [frame] else old(Held(i))
      ensures forall j :: 0 <= j < |queues| && j != i ==> Held(j) == old(Held(j))
      ensures queues[i].storage == old(queues[i].storage) || fresh(queues[i].storage)
      ensures pcdCount == if old(pcdCount) <= 0 then old(pcdCount) + 1 else old(pcdCount)
    {
      hide IsCapacity, LidarDataQueue.Contents, LidarDataQueue.Valid;
      PushTo(queues[i], frame);
    }

    lemma SizeIsCapacity(q: LidarDataQueue)
      requires q.storage != null && q.Valid() && IsCapacity(queueSize, capacity)
      requires IsPow2(queueSize) ==> q.size == queueSize
      requires queueSize <= 0x8000_0000 ==> q.size >= queueSize
      requires queueSize <= 0x8000_0000 ==> forall k: nat :: queueSize <= Pow2(k) ==> q.size <= Pow2(k)
      requires queueSize > 0x8000_0000 ==> q.size == 0x8000_0000
      ensures q.size == capacity
    {
      CapacityUnique(queueSize, q.size, capacity);
    }

    /** The queues hold what the rings say. */
    ghost predicate Shows(rings: seq<Ring>)
      requires Valid()
      reads this, queues, set i | 0 <= i < |queues| :: queues[i].storage
    {
      |rings| == |queues| && forall i :: 0 <= i < |queues| ==> Held(i) == rings[i].waiting
    }

    /** The loop's turn for one lidar's part. */
    method StoreOne(p: PointPacket, ghost rings: seq<Ring>)
      requires Valid() && Shows(rings) && 0 <= pcdCount <= 1
      modifies `pcdCount, queues, set i | 0 <= i < |queues| :: queues[i].storage
      ensures Valid() && Shows(StorePart(rings, p, index, capacity)) && 0 <= pcdCount <= 1
      ensures forall i :: 0 <= i < |queues| ==> queues[i].storage == old(queues[i].storage) || fresh(queues[i].storage)
    {
      hide IsCapacity, LidarDataQueue.Contents, LidarDataQueue.Valid;
      if p.handle !in index || index[p.handle] >= |queues| {
        return;
      }
      PushLidarData(Frame(p.baseTime, p.points), index[p.handle]);
    }

    /** Stores every lidar's part of a frame in the lidar's queue. */
    method StoragePointData(frame: seq<PointPacket>, ghost rings: seq<Ring>)
      requires Valid() && Shows(rings) && 0 <= pcdCount <= 1
      modifies `pcdCount, queues, set i | 0 <= i < |queues| :: queues[i].storage
      ensures Valid() && Shows(StoreAll(rings, frame, index, capacity)) && 0 <= pcdCount <= 1
    {
      hide Lds.Valid, Shows, QueueOk, StorePart;
      ghost var now := rings;
      assert frame[0..] == frame;
      for k := 0 to |frame|
        invariant Valid() && Shows(now) && 0 <= pcdCount <= 1
        invariant StoreAll(now, frame[k..], index, capacity) == StoreAll(rings, frame, index, capacity)
        invariant forall i :: 0 <= i < |queues| ==>
                    queues[i].storage == old(queues[i].storage) || fresh(queues[i].storage)
      {
        StoreStep(now, frame, k, index, capacity);
        StoreOne(frame[k], now);
        now := StorePart(now, frame[k], index, capacity);
      }
    }
  }

  lemma StoreStep(rings: seq<Ring>, frame: seq<PointPacket>, k: nat, index: map<Id, nat>, capacity: nat)
    requires k < |frame|
    ensures StoreAll(rings, frame[k..], index, capacity)
            == StoreAll(StorePart(rings, frame[k], index, capacity), frame[k + 1..], index, capacity)
  {
    assert frame[k..][1..] == frame[k + 1..];
  }
}
