/** Points and the frames that travel from the packet thread to the publisher. */
module Frames {
  /** A decoded point: its time stamp, and the rest of it as one opaque number. */
  datatype Point = Point(time: nat, body: int)

  datatype Frame = Frame(baseTime: nat, points: seq<Point>)
}
