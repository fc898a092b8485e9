/** Producers, Stop and the writer thread of the state recorder as interleaved steps
    (src/lidar_state_recorder.cpp, RecordObservation, Stop and Run). */
module Shutdown {
  import opened RecordQueue

  type Thread = nat

  /** Where the writer thread is. */
  datatype Writer =
    | AtLoop                   // about to pop
    | Writing(row: Record)     // popped a row, about to hand it to Write
    | AtCheck                  // found the queue empty, about to read `accepting`
    | Sleeping                 // waiting to be woken
    | AtRecheck                // not accepting any more, about to pop once again
    | AtEnd                    // left the loop, about to number the shutdown row
    | WritingLast(row: Record) // about to hand the shutdown row to Write
    | Done

  datatype System = System(
    h: History,                        // the queue, and what it accepted and handed out
    accepting: bool,
    producers: map<Thread, Record>,    // past the check of `accepting`, not yet in Push
    stoppers: set<Thread>,             // past Close, not yet past clearing `accepting`
    writer: Writer,
    written: seq<Record>)              // handed to Write, in order

  /** Constructed: the startup row has been offered to an empty queue, then the writer starts. */
  function Initial(capacity: nat, startup: Record, now: int): System {
    System(Apply(Start(capacity), Push(startup, true, true, now)), true, map[], {}, AtLoop, [])
  }

  datatype Step =
    | Check(t: Thread, row: Record)                            // RecordObservation reads `accepting`
    | Offer(t: Thread, filter: bool, locked: bool, now: int)   // ... and calls Push
    | CloseQueue(t: Thread)                                    // Stop closes the queue
    | ClearAccepting(t: Thread)                                // ... and clears `accepting`
    | Turn(shutdown: Record)                                   // the writer's next step

  predicate Enabled(s: System, a: Step) {
    match a
    case Check(t, _) => t !in s.producers
    case Offer(t, _, _, _) => t in s.producers
    case CloseQueue(t) => t !in s.stoppers
    case ClearAccepting(t) => t in s.stoppers
    case Turn(shutdown) => !s.writer.Done? && shutdown.source.Shutdown?
  }

  function PopOr(s: System, empty: Writer): System {
    if s.h.q.rows == [] then s.(writer := empty)
    else s.(h := Apply(s.h, Pop), writer := Writing(s.h.q.rows[0]))
  }

  function WriterTurn(s: System, shutdown: Record): System
    requires !s.writer.Done?
  {
    match s.writer
    case AtLoop => PopOr(s, AtCheck)
    case Writing(row) => s.(written := s.written + [row], writer := AtLoop)
    case AtCheck => s.(writer := if s.accepting then Sleeping else AtRecheck)
    case Sleeping => s.(writer := AtLoop)
    case AtRecheck => PopOr(s, AtEnd)
    case AtEnd =>
      s.(h := s.h.(q := s.h.q.(sequence := s.h.q.sequence + 1)),
         writer := WritingLast(shutdown.(seqNo := s.h.q.sequence + 1)))
    case WritingLast(row) => s.(written := s.written + [row], writer := Done)
  }

  function Take(s: System, a: Step): System
    requires Enabled(s, a)
  {
    match a
    case Check(t, row) => if s.accepting then s.(producers := s.producers[t := row]) else s
    case Offer(t, filter, locked, now) =>
      s.(h := Apply(s.h, Push(s.producers[t], filter, locked, now)), producers := s.producers - {t})
    case CloseQueue(t) => s.(h := Apply(s.h, Close), stoppers := s.stoppers + {t})
    case ClearAccepting(t) => s.(accepting := false, stoppers := s.stoppers - {t})
    case Turn(shutdown) => WriterTurn(s, shutdown)
  }

  /** A schedule is any sequence of enabled steps. */
  predicate Schedule(s: System, steps: seq<Step>)
    decreases |steps|
  {
    steps == [] || (Enabled(s, steps[0]) && Schedule(Take(s, steps[0]), steps[1..]))
  }

  function Play(s: System, steps: seq<Step>): System
    requires Schedule(s, steps)
    decreases |steps|
  {
    if steps == [] then s else Play(Take(s, steps[0]), steps[1..])
  }

  /* ---- what every interleaving keeps ---- */

  /** The row the writer has popped and not yet handed to Write. */
  function InHand(w: Writer): seq<Record> {
    if w.Writing? then [w.row] else []
  }

  predicate Ended(w: Writer) {
    w.WritingLast? || w.Done?
  }

  /** The queue accounting, with the shutdown row's number taken off once it is given out. */
  function Rows(s: System): History {
    if Ended(s.writer) then s.h.(q := s.h.q.(sequence := |s.h.accepted|)) else s.h
  }

  ghost predicate Inv(s: System) {
    && Accounted(Rows(s))
    && (!s.accepting ==> s.h.q.closed)
    && (s.stoppers != {} ==> s.h.q.closed)
    && (s.writer.AtRecheck? ==> !s.accepting)
    && (s.writer.AtEnd? || Ended(s.writer) ==> !s.accepting && s.h.q.rows == [])
    && (Ended(s.writer) ==> s.h.q.sequence == |s.h.accepted| + 1)
    && (!s.writer.Done? ==> s.written + InHand(s.writer) == s.h.popped)
    && (s.writer.WritingLast? ==> IsShutdown(s, s.writer.row))
    && (s.writer.Done? ==> |s.written| > 0 && s.written[..|s.written| - 1] == s.h.popped
                           && IsShutdown(s, s.written[|s.written| - 1]))
  }

  predicate IsShutdown(s: System, row: Record) {
    row.source.Shutdown? && row.seqNo == |s.h.accepted| + 1
  }

  lemma StartAccounted(capacity: nat)
    ensures Accounted(Start(capacity))
  {
  }

  lemma InitialInv(capacity: nat, startup: Record, now: int)
    ensures Inv(Initial(capacity, startup, now))
  {
    StartAccounted(capacity);
    hide LastOf;
    OfferFrame(Start(capacity), startup, true, true, now);
    ApplyAccounted(Start(capacity), Push(startup, true, true, now));
  }

  lemma ClosedRejects(h: History, row: Record, filter: bool, locked: bool, now: int)
    requires h.q.closed
    ensures var n := Apply(h, Push(row, filter, locked, now));
            && n.accepted == h.accepted && n.popped == h.popped && n.q.rows == h.q.rows
            && n.q.closed && n.q.sequence == h.q.sequence && n.q.last == h.q.last && n.q.capacity == h.q.capacity
            && n.pushes == h.pushes + 1 && n.q.dropped == h.q.dropped + 1 && n.q.suppressed == h.q.suppressed
  {
  }

  lemma OfferKeeps(s: System, a: Step)
    requires Inv(s) && a.Offer? && Enabled(s, a)
    ensures Inv(Take(s, a))
  {
    hide LastOf;
    var row := s.producers[a.t];
    if s.h.q.closed {
      ClosedRejects(s.h, row, a.filter, a.locked, a.now);
    } else {
      ApplyAccounted(s.h, Push(row, a.filter, a.locked, a.now));
      OfferFrame(s.h, row, a.filter, a.locked, a.now);
    }
  }

  lemma OfferFrame(h: History, row: Record, filter: bool, locked: bool, now: int)
    ensures var n := Apply(h, Push(row, filter, locked, now)); n.popped == h.popped && n.q.closed == h.q.closed
  {
  }

  lemma PopKeeps(s: System, empty: Writer)
    requires Inv(s) && ((s.writer.AtLoop? && empty == AtCheck) || (s.writer.AtRecheck? && empty == AtEnd))
    ensures Inv(PopOr(s, empty))
  {
    hide LastOf;
    ApplyAccounted(s.h, Pop);
    if s.h.q.rows != [] {
      assert s.written + [s.h.q.rows[0]] == s.h.popped + [s.h.q.rows[0]];
    }
  }

  lemma TurnKeeps(s: System, shutdown: Record)
    requires Inv(s) && !s.writer.Done? && shutdown.source.Shutdown?
    ensures Inv(WriterTurn(s, shutdown))
  {
    hide LastOf;
    if s.writer.AtLoop? {
      PopKeeps(s, AtCheck);
    } else if s.writer.AtRecheck? {
      PopKeeps(s, AtEnd);
    } else if s.writer.AtEnd? {
      var n := WriterTurn(s, shutdown);
      assert Rows(n).q == s.h.q;
    } else if s.writer.WritingLast? {
      var n := WriterTurn(s, shutdown);
      assert n.written[..|n.written| - 1] == s.written;
    } else if s.writer.Writing? {
      assert s.written + [s.writer.row] + [] == s.written + [s.writer.row];
    }
  }

  lemma StepKeeps(s: System, a: Step)
    requires Inv(s) && Enabled(s, a)
    ensures Inv(Take(s, a))
  {
    match a
    case Offer(_, _, _, _) => OfferKeeps(s, a);
    case Turn(shutdown) => TurnKeeps(s, shutdown);
    case CloseQueue(_) =>
      hide LastOf;
      if !s.h.q.closed {
        ApplyAccounted(s.h, Close);
      }
    case Check(_, _) => hide LastOf;
    case ClearAccepting(_) => hide LastOf;
  }

  lemma {:induction false} PlayKeeps(s: System, steps: seq<Step>)
    requires Inv(s) && Schedule(s, steps)
    ensures Inv(Play(s, steps))
    decreases |steps|
  {
    if steps != [] {
      StepKeeps(s, steps[0]);
      PlayKeeps(Take(s, steps[0]), steps[1..]);
    }
  }

  lemma ReachedInv(capacity: nat, startup: Record, now: int, steps: seq<Step>)
    requires Schedule(Initial(capacity, startup, now), steps)
    ensures Inv(Play(Initial(capacity, startup, now), steps))
  {
    InitialInv(capacity, startup, now);
    PlayKeeps(Initial(capacity, startup, now), steps);
  }

  /** In every interleaving: once the recorder is not accepting the queue is closed; at any moment
      the rows handed to Write are the oldest accepted rows, each once, in order. */
  lemma WrittenInOrder(capacity: nat, startup: Record, now: int, steps: seq<Step>)
    requires Schedule(Initial(capacity, startup, now), steps)
    ensures var s := Play(Initial(capacity, startup, now), steps);
            && (!s.accepting ==> s.h.q.closed)
            && (!s.writer.Done? ==> s.written <= s.h.accepted)
            && (forall k :: 0 <= k < |s.h.accepted| ==> s.h.accepted[k].seqNo == k + 1)
  {
    ReachedInv(capacity, startup, now, steps);
    hide LastOf, Initial, Play;
  }

  /** When the writer is done, it has handed over every accepted row exactly once, in the order of
      their numbers, and then one shutdown row whose number is greater than all of theirs. */
  lemma DrainedAtEnd(capacity: nat, startup: Record, now: int, steps: seq<Step>)
    requires Schedule(Initial(capacity, startup, now), steps)
    requires Play(Initial(capacity, startup, now), steps).writer.Done?
    ensures var s := Play(Initial(capacity, startup, now), steps);
            exists last :: s.written == s.h.accepted + [last] && last.source.Shutdown?
              && last.seqNo == |s.h.accepted| + 1
    ensures var s := Play(Initial(capacity, startup, now), steps);
            forall k :: 0 <= k < |s.written| ==> s.written[k].seqNo == k + 1
  {
    ReachedInv(capacity, startup, now, steps);
    hide LastOf, Initial, Play;
    var s := Play(Initial(capacity, startup, now), steps);
    assert s.h.popped + [] == s.h.popped;
    assert s.written == s.h.accepted + [s.written[|s.written| - 1]];
  }

  /* ---- termination after Stop ---- */

  function Rank(w: Writer): nat {
    match w
    case Writing(_) => 8
    case Sleeping => 8
    case AtLoop => 7
    case AtCheck => 6
    case AtRecheck => 5
    case AtEnd => 4
    case WritingLast(_) => 3
    case Done => 0
  }

  /** A bound on the writer's remaining steps once nothing is accepted any more. */
  function Remaining(s: System): nat {
    4 * |s.h.q.rows| + Rank(s.writer)
  }

  function WriterSteps(steps: seq<Step>): nat {
    if steps == [] then 0 else (if steps[0].Turn? then 1 else 0) + WriterSteps(steps[1..])
  }

  lemma StoppingStep(s: System, a: Step)
    requires Inv(s) && !s.accepting && Enabled(s, a)
    ensures !Take(s, a).accepting
    ensures Remaining(Take(s, a)) + (if a.Turn? then 1 else 0) <= Remaining(s)
  {
    hide LastOf;
    if a.Offer? {
      ClosedRejects(s.h, s.producers[a.t], a.filter, a.locked, a.now);
    }
  }

  /** Once Stop has cleared `accepting`, the writer's loop comes to its end: whatever the other
      threads still do, the writer takes at most Remaining more steps. */
  lemma {:induction false} WriterTerminates(s: System, steps: seq<Step>)
    requires Inv(s) && !s.accepting && Schedule(s, steps)
    ensures WriterSteps(steps) + Remaining(Play(s, steps)) <= Remaining(s)
    decreases |steps|
  {
    if steps != [] {
      StepKeeps(s, steps[0]);
      StoppingStep(s, steps[0]);
      WriterTerminates(Take(s, steps[0]), steps[1..]);
    }
  }

  /** ... and it is never stuck before that: a step that brings it closer to the end is enabled. */
  lemma WriterProgresses(s: System, shutdown: Record)
    requires Inv(s) && !s.accepting && !s.writer.Done? && shutdown.source.Shutdown?
    ensures Enabled(s, Turn(shutdown)) && Remaining(Take(s, Turn(shutdown))) < Remaining(s)
  {
    StoppingStep(s, Turn(shutdown));
  }

  /* ---- progress, whether or not the recorder is accepting ---- */

  /** How many writer steps it takes until the first `n` accepted rows have been handed to Write. */
  function Distance(s: System, n: nat): nat {
    if |s.h.popped| < n then
      2 * (n - |s.h.popped|)
      + (if s.writer.AtCheck? then 2 else if s.writer.Writing? || s.writer.Sleeping? then 1 else 0)
    else if s.writer.Writing? && |s.h.popped| == n then 1
    else 0
  }

  lemma TurnIsCloser(s: System, n: nat, shutdown: Record)
    requires Inv(s) && !s.writer.Done? && shutdown.source.Shutdown? && n <= |s.h.accepted|
    ensures var t := WriterTurn(s, shutdown); Distance(t, n) < Distance(s, n) || Distance(s, n) == Distance(t, n) == 0
  {
    hide LastOf;
  }

  lemma OthersDoNotMatter(s: System, n: nat, a: Step)
    requires Enabled(s, a) && !a.Turn?
    ensures Distance(Take(s, a), n) == Distance(s, n)
  {
    if a.Offer? {
      OfferFrame(s.h, s.producers[a.t], a.filter, a.locked, a.now);
    }
    hide PushRow, Distance;
  }

  lemma AcceptedGrows(s: System, a: Step)
    requires Enabled(s, a)
    ensures s.h.accepted <= Take(s, a).h.accepted
  {
    hide PushRow, Decide;
  }

  lemma {:induction false} PlayIsCloser(s: System, steps: seq<Step>, n: nat)
    requires Inv(s) && Schedule(s, steps) && n <= |s.h.accepted|
    ensures var t := Play(s, steps);
            && s.h.accepted <= t.h.accepted
            && (Distance(t, n) == 0 || Distance(t, n) + WriterSteps(steps) <= Distance(s, n))
    decreases |steps|
  {
    hide Distance, Inv, Take;
    if steps != [] {
      var a := steps[0];
      StepKeeps(s, a);
      AcceptedGrows(s, a);
      StepIsCloser(s, n, a);
      PlayIsCloser(Take(s, a), steps[1..], n);
    }
  }

  lemma StepIsCloser(s: System, n: nat, a: Step)
    requires Inv(s) && Enabled(s, a) && n <= |s.h.accepted|
    ensures var d, e := Distance(s, n), Distance(Take(s, a), n);
            if a.Turn? then e < d || d == e == 0 else e == d
  {
    hide Distance, Inv, WriterTurn;
    if a.Turn? {
      TurnIsCloser(s, n, a.shutdown);
    } else {
      OthersDoNotMatter(s, n, a);
    }
  }

  lemma DistanceBound(s: System)
    requires Inv(s)
    ensures Distance(s, |s.h.accepted|) <= 2 * |s.h.q.rows| + 2
  {
    hide LastOf;
  }

  lemma NothingLeft(s: System, rows: seq<Record>)
    requires Inv(s) && rows <= s.h.accepted && Distance(s, |rows|) == 0
    ensures rows <= s.written
  {
    hide LastOf;
  }

  lemma RowsReachWriteFrom(s: System, steps: seq<Step>)
    requires Inv(s) && Schedule(s, steps) && WriterSteps(steps) >= 2 * |s.h.q.rows| + 2
    ensures s.h.accepted <= Play(s, steps).written
  {
    hide Distance, Inv;
    PlayKeeps(s, steps);
    PlayIsCloser(s, steps, |s.h.accepted|);
    DistanceBound(s);
    NothingLeft(Play(s, steps), s.h.accepted);
  }

  /** While the recorder runs as well as while it stops: from any state reached, whatever the other threads
      do, two steps of the writer for each waiting row and two more see to it that every row accepted so
      far has been handed to Write, in order. */
  lemma RowsReachWrite(capacity: nat, startup: Record, now: int, before: seq<Step>, steps: seq<Step>)
    requires Schedule(Initial(capacity, startup, now), before)
    requires var s := Play(Initial(capacity, startup, now), before);
             Schedule(s, steps) && WriterSteps(steps) >= 2 * |s.h.q.rows| + 2
    ensures var s := Play(Initial(capacity, startup, now), before); s.h.accepted <= Play(s, steps).written
  {
    ReachedInv(capacity, startup, now, before);
    RowsReachWriteFrom(Play(Initial(capacity, startup, now), before), steps);
  }
}
