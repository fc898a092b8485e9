/** The packet thread and the publisher thread on one ring, as interleaved steps that each touch one
    field (src/comm/ldq.cpp, QueuePushAny, QueuePrePop and QueuePopUpdate; src/lds.cpp, PushLidarData). */
module RingSteps {
  import opened Account
  import opened Arithmetic
  import opened Frames
  import opened RingQueue

  /** A StoragePacket in the ring, of which each field is written on its own. */
  datatype Cell = Cell(baseTime: nat, pointsNum: nat, points: seq<Point>)

  function Filled(f: Frame): Cell {
    Cell(f.baseTime, |f.points|, f.points)
  }

  /** What the producer has done of QueuePushAny. */
  datatype Producer =
    | Away                     // outside
    | Checked(frame: Frame)    // has seen that the queue is not full
    | BaseSet(frame: Frame)
    | NumSet(frame: Frame)
    | Cleared(frame: Frame)
    | Copied(frame: Frame)     // about to advance wr_idx

  /** What the consumer has read in QueuePrePop. */
  datatype Consumer =
    | Out
    | Seen                     // has seen that the queue is not empty
    | GotBase(baseTime: nat)
    | GotNum(baseTime: nat, pointsNum: nat)
    | GotAll(frame: Frame)     // about to advance rd_idx

  /** `pushed`, `popped` and the account are history. */
  datatype System = System(
    k: nat, cells: seq<Cell>, rd: Uint32, wr: Uint32,
    producer: Producer, consumer: Consumer,
    pushed: seq<Frame>, popped: seq<Frame>, account: Account)

  datatype Step =
    | Offer(frame: Frame)  // the producer checks for room
    | Produce              // its next store
    | Look                 // the consumer checks for a frame
    | Consume              // its next load or, at the end, advancing rd_idx

  predicate Ready(s: System) {
    s.k <= 31 && |s.cells| == Pow2(s.k)
  }

  predicate Enabled(s: System, a: Step) {
    match a
    case Offer(_) => s.producer.Away?
    case Produce => !s.producer.Away?
    case Look => s.consumer.Out?
    case Consume => !s.consumer.Out?
  }

  function Mask(s: System): nat
  {
    Pow2(s.k) - 1
  }

  function WriteCell(s: System): (i: nat)
    requires Ready(s)
    ensures i < |s.cells|
  {
    MaskBound(s.wr, s.k);
    And(s.wr, Mask(s))
  }

  function ReadCell(s: System): (i: nat)
    requires Ready(s)
    ensures i < |s.cells|
  {
    MaskBound(s.rd, s.k);
    And(s.rd, Mask(s))
  }

  lemma MaskBound(x: nat, k: nat)
    ensures And(x, Pow2(k) - 1) < Pow2(k)
  {
    AndMask(x, k);
  }

  function SetCell(s: System, c: Cell, p: Producer): System
    requires Ready(s)
  {
    s.(cells := s.cells[WriteCell(s) := c], producer := p)
  }

  function ProduceStep(s: System): System
    requires Ready(s) && !s.producer.Away?
  {
    var c := s.cells[WriteCell(s)];
    match s.producer
    case Checked(f) => SetCell(s, c.(baseTime := f.baseTime), BaseSet(f))
    case BaseSet(f) => SetCell(s, c.(pointsNum := |f.points|), NumSet(f))
    case NumSet(f) => SetCell(s, c.(points := []), Cleared(f))
    case Cleared(f) => SetCell(s, c.(points := f.points), Copied(f))
    case Copied(f) => s.(wr := Next(s.wr), producer := Away, pushed := s.pushed + [f])
  }

  /** Copies as many points as were counted, as far as there are so many. */
  function Taken(c: Cell, n: nat): seq<Point> {
    if n <= |c.points| then c.points[..n] else c.points
  }

  function ConsumeStep(s: System): System
    requires Ready(s) && !s.consumer.Out?
  {
    var c := s.cells[ReadCell(s)];
    match s.consumer
    case Seen => s.(consumer := GotBase(c.baseTime))
    case GotBase(b) => s.(consumer := GotNum(b, c.pointsNum))
    case GotNum(b, n) => s.(consumer := GotAll(Frame(b, Taken(c, n))))
    case GotAll(f) => s.(rd := Next(s.rd), consumer := Out, popped := s.popped + [f])
  }

  function Take(s: System, a: Step): System
    requires Ready(s) && Enabled(s, a)
  {
    match a
    case Offer(f) =>
      var full := Minus(s.wr, s.rd) > Mask(s);
      s.(producer := if full then Away else Checked(f), account := Note(s.account, f, !full, |s.popped|))
    case Produce => ProduceStep(s)
    case Look => if s.rd == s.wr then s else s.(consumer := Seen)
    case Consume => ConsumeStep(s)
  }

  predicate Schedule(s: System, steps: seq<Step>)
    requires Ready(s)
    decreases |steps|
  {
    steps == [] || (Enabled(s, steps[0]) && Schedule(Take(s, steps[0]), steps[1..]))
  }

  function Play(s: System, steps: seq<Step>): System
    requires Ready(s) && Schedule(s, steps)
    decreases |steps|
  {
    if steps == [] then s else Play(Take(s, steps[0]), steps[1..])
  }

  /** The state InitQueue leaves, whatever is in the new slots. */
  predicate Initial(s: System) {
    Ready(s) && s == System(s.k, s.cells, 0, 0, Away, Out, [], [], EMPTY)
  }

  /* ---- what every interleaving keeps ---- */

  /** Every frame put and not yet taken is whole in its slot. */
  predicate WindowOk(s: System)
    requires Ready(s)
  {
    forall j :: |s.popped| <= j < |s.pushed| ==> s.cells[Slot(j, s.k)] == Filled(s.pushed[j])
  }

  predicate ProducerOk(s: System)
    requires Ready(s)
  {
    && (!s.producer.Away? ==> |s.pushed| < |s.popped| + Pow2(s.k))
    && var c := s.cells[Slot(|s.pushed|, s.k)];
       match s.producer
       case BaseSet(f) => c.baseTime == f.baseTime
       case NumSet(f) => c.baseTime == f.baseTime && c.pointsNum == |f.points|
       case Cleared(f) => c.baseTime == f.baseTime && c.pointsNum == |f.points|
       case Copied(f) => c == Filled(f)
       case _ => true
  }

  predicate ConsumerOk(s: System) {
    !s.consumer.Out? ==>
      && |s.popped| < |s.pushed|
      && var f := s.pushed[|s.popped|];
         match s.consumer
         case GotBase(b) => b == f.baseTime
         case GotNum(b, n) => b == f.baseTime && n == |f.points|
         case GotAll(g) => g == f
         case _ => true
  }

  predicate Counted(s: System) {
    && |s.popped| <= |s.pushed| <= |s.popped| + Pow2(s.k)
    && s.rd == Low(|s.popped|) && s.wr == Low(|s.pushed|)
    && s.popped == s.pushed[..|s.popped|]
  }

  ghost predicate Inv(s: System) {
    Ready(s) && Counted(s) && WindowOk(s) && ProducerOk(s) && ConsumerOk(s)
  }

  /** The slot that the producer writes is never one the consumer may read. */
  lemma WriteCellIsFree(s: System, j: nat)
    requires Inv(s) && !s.producer.Away? && |s.popped| <= j < |s.pushed|
    ensures WriteCell(s) == Slot(|s.pushed|, s.k) != Slot(j, s.k)
  {
    MaskedIndex(|s.pushed|, s.k);
    SlotsDiffer(j, |s.pushed|, s.k);
  }

  lemma OfferKeeps(s: System, f: Frame)
    requires Inv(s) && s.producer.Away?
    ensures Inv(Take(s, Offer(f)))
  {
    hide Slot;
    Exponent31(s.k);
    UsedSize(|s.popped|, |s.pushed|);
  }

  lemma StoreKeeps(s: System, c: Cell, p: Producer)
    requires Inv(s) && !s.producer.Away? && !p.Away?
    ensures var n := SetCell(s, c, p);
            && Ready(n) && Counted(n) && WindowOk(n) && ConsumerOk(n)
            && n.cells[Slot(|n.pushed|, n.k)] == c && |n.pushed| < |n.popped| + Pow2(n.k)
  {
    var n := SetCell(s, c, p);
    MaskedIndex(|s.pushed|, s.k);
    forall j | |s.popped| <= j < |s.pushed|
      ensures n.cells[Slot(j, n.k)] == Filled(n.pushed[j])
    {
      WriteCellIsFree(s, j);
    }
  }

  lemma PutKeeps(s: System)
    requires Inv(s) && s.producer.Copied?
    ensures Inv(ProduceStep(s))
  {
    NextLow(|s.pushed|);
    hide Slot, And, Low;
    var n := ProduceStep(s);
    forall j | |n.popped| <= j < |n.pushed|
      ensures n.cells[Slot(j, n.k)] == Filled(n.pushed[j])
    {
      assert j < |s.pushed| ==> s.cells[Slot(j, s.k)] == Filled(s.pushed[j]);
    }
  }

  lemma ProduceKeeps(s: System)
    requires Inv(s) && !s.producer.Away?
    ensures Inv(ProduceStep(s))
  {
    MaskedIndex(|s.pushed|, s.k);
    hide Slot, And, Low, WindowOk;
    var c := s.cells[WriteCell(s)];
    match s.producer
    case Checked(f) => StoreKeeps(s, c.(baseTime := f.baseTime), BaseSet(f));
    case BaseSet(f) => StoreKeeps(s, c.(pointsNum := |f.points|), NumSet(f));
    case NumSet(f) => StoreKeeps(s, c.(points := []), Cleared(f));
    case Cleared(f) => StoreKeeps(s, c.(points := f.points), Copied(f));
    case Copied(f) => PutKeeps(s);
  }

  /** What the consumer looks at is the oldest frame, whole. */
  lemma ReadCellHolds(s: System)
    requires Inv(s) && !s.consumer.Out?
    ensures s.cells[ReadCell(s)] == Filled(s.pushed[|s.popped|])
  {
    MaskedIndex(|s.popped|, s.k);
    hide Slot, And, Low;
  }

  lemma ReadKeeps(s: System)
    requires Inv(s) && !s.consumer.Out? && !s.consumer.GotAll?
    ensures Inv(ConsumeStep(s))
  {
    ReadCellHolds(s);
    hide Slot, ReadCell, Low;
  }

  lemma GotKeeps(s: System)
    requires Inv(s) && s.consumer.GotAll?
    ensures Inv(ConsumeStep(s))
  {
    NextLow(|s.popped|);
    hide Slot, ReadCell, Low;
  }

  lemma ConsumeKeeps(s: System)
    requires Inv(s) && !s.consumer.Out?
    ensures Inv(ConsumeStep(s))
  {
    hide Inv, ConsumeStep;
    if s.consumer.GotAll? {
      GotKeeps(s);
    } else {
      ReadKeeps(s);
    }
  }

  lemma StepKeeps(s: System, a: Step)
    requires Inv(s) && Enabled(s, a)
    ensures Inv(Take(s, a))
  {
    match a
    case Offer(f) => OfferKeeps(s, f);
    case Produce => ProduceKeeps(s);
    case Look =>
      hide Slot;
      Exponent31(s.k);
      EmptyExactly(|s.popped|, |s.pushed|);
    case Consume => ConsumeKeeps(s);
  }

  lemma {:induction false} PlayKeeps(s: System, steps: seq<Step>)
    requires Inv(s) && Schedule(s, steps)
    ensures Inv(Play(s, steps))
    decreases |steps|
  {
    if steps != [] {
      StepKeeps(s, steps[0]);
      PlayKeeps(Take(s, steps[0]), steps[1..]);
    }
  }

  /** However the two threads interleave and however often the 32-bit indices wrap: what the consumer
      has taken is a prefix of the whole frames the producer has put, at most a ring's size behind. */
  lemma TakenInOrder(s: System, steps: seq<Step>)
    requires Initial(s) && Schedule(s, steps)
    ensures var t := Play(s, steps);
            t.popped <= t.pushed && |t.pushed| - |t.popped| <= Pow2(s.k)
  {
    PlayKeeps(s, steps);
    PlayRing(s, steps);
  }

  /** The two checks are exact: a frame is turned away only from a full ring, and the consumer sees a
      frame exactly when there is one. */
  lemma ChecksAreExact(s: System, f: Frame)
    requires Inv(s)
    ensures s.producer.Away? ==> (Take(s, Offer(f)).producer.Away? <==> |s.pushed| - |s.popped| == Pow2(s.k))
    ensures s.consumer.Out? ==> (Take(s, Look).consumer.Seen? <==> s.popped != s.pushed)
  {
    hide Slot;
    Exponent31(s.k);
    UsedSize(|s.popped|, |s.pushed|);
    EmptyExactly(|s.popped|, |s.pushed|);
  }

  lemma {:induction false} PlayRing(s: System, steps: seq<Step>)
    requires Ready(s) && Schedule(s, steps)
    ensures Play(s, steps).k == s.k
    decreases |steps|
  {
    if steps != [] {
      PlayRing(Take(s, steps[0]), steps[1..]);
    }
  }

  /* ---- the frames that were turned away ---- */

  /** The frames offered, in order. */
  function Offers(steps: seq<Step>): (fs: seq<Frame>)
    ensures |fs| <= |steps|
  {
    if steps == [] then []
    else (if steps[0].Offer? then [steps[0].frame] else []) + Offers(steps[1..])
  }

  /** All frames that entered the ring: those put, and the one being put. */
  function Entered(s: System): seq<Frame> {
    s.pushed + if s.producer.Away? then [] else [s.producer.frame]
  }

  ghost predicate AccountOk(s: System) {
    Tallied(s.account, Entered(s), Pow2(s.k))
  }

  lemma OfferCounts(s: System, f: Frame)
    requires Inv(s) && s.producer.Away? && AccountOk(s)
    ensures AccountOk(Take(s, Offer(f)))
  {
    ChecksAreExact(s, f);
    NoteKeeps(s.account, s.pushed, Pow2(s.k), f, |s.popped|);
    hide Tallied, Pow2, Minus, Low, WindowOk, ProducerOk, ConsumerOk;
    assert Entered(s) == s.pushed;
    var full := |s.pushed| - |s.popped| == Pow2(s.k);
    assert Entered(Take(s, Offer(f))) == s.pushed + if full then [] else [f];
  }

  /** Of all steps only an offer changes the account or what has entered. */
  lemma OthersCountNothing(s: System, a: Step)
    requires Ready(s) && Enabled(s, a) && !a.Offer?
    ensures Take(s, a).account == s.account && Entered(Take(s, a)) == Entered(s) && Take(s, a).k == s.k
  {
    hide And, Taken;
  }

  lemma {:induction false} PlayCounts(s: System, steps: seq<Step>)
    requires Inv(s) && AccountOk(s) && Schedule(s, steps)
    ensures AccountOk(Play(s, steps))
    ensures Play(s, steps).account.offered == s.account.offered + Offers(steps)
    decreases |steps|
  {
    if steps != [] {
      var a := steps[0];
      StepKeeps(s, a);
      if a.Offer? {
        OfferCounts(s, a.frame);
      } else {
        OthersCountNothing(s, a);
      }
      PlayCounts(Take(s, a), steps[1..]);
      OfferedHere(s, a);
      hide Take, Inv;
    }
  }

  lemma OfferedHere(s: System, a: Step)
    requires Ready(s) && Enabled(s, a)
    ensures Take(s, a).account.offered == s.account.offered + if a.Offer? then [a.frame] else []
  {
    if !a.Offer? {
      OthersCountNothing(s, a);
    }
    hide And, Minus, ProduceStep, ConsumeStep;
  }

  /** However the two threads interleave: what the consumer has taken is in order what entered the ring
      first, and what entered is every frame offered but exactly those that came when the frames that
      had entered and were not yet taken filled the ring. */
  lemma LossIsAccounted(s: System, steps: seq<Step>)
    requires Initial(s) && Schedule(s, steps)
    ensures var t := Play(s, steps);
            && t.account.offered == Offers(steps)
            && t.popped <= Entered(t) && Tallied(t.account, Entered(t), Pow2(s.k))
  {
    PlayCounts(s, steps);
    PlayRing(s, steps);
    TakenInOrder(s, steps);
    hide Tallied, Play, Pow2;
  }
}
