/** The publisher thread's side of the point-cloud path (src/lddc.cpp, PollingLidarPointCloudData,
    PublishPointcloud2 and PublishCustomPointcloud). */
module Lddc {
  import opened Frames
  import opened RingQueue

  /** The frames that are published: those with points. */
  function WithPoints(fs: seq<Frame>): seq<Frame> {
    if fs == [] then []
    else if fs[0].points == [] then WithPoints(fs[1..])
    else [fs[0]] + WithPoints(fs[1..])
  }

  lemma Splits(published: seq<Frame>, frame: Frame, next: seq<Frame>)
    ensures published + WithPoints([frame] + next)
            == (if frame.points == [] then published else published + [frame]) + WithPoints(next)
  {
    assert ([frame] + next)[1..] == next;
    hide WithPoints;
    assert published + ([frame] + WithPoints(next)) == (published + [frame]) + WithPoints(next);
  }

  /** Drains a queue: every frame that waited in it is published, in order, and none is left. */
  method PublishFrames(queue: LidarDataQueue) returns (published: seq<Frame>)
    requires queue.Valid()
    modifies queue`rd, queue`read
    ensures queue.Valid() && queue.Contents() == []
    ensures published == WithPoints(old(queue.Contents()))
  {
    hide LidarDataQueue.Contents, LidarDataQueue.Valid;
    published := [];
    ghost var rest := queue.Contents();
    assert [] + WithPoints(rest) == WithPoints(rest);
    while true
      invariant queue.Valid() && rest == queue.Contents()
      invariant published + WithPoints(rest) == WithPoints(old(queue.Contents()))
      decreases |rest|
    {
      var empty := queue.IsEmpty();
      if empty {
        assert published + [] == published;
        break;
      }
      var ok, frame := queue.Pop();
      Splits(published, frame, queue.Contents());
      if frame.points != [] {
        published := published + [frame];
      }
      rest := queue.Contents();
    }
  }
}
