/** The bounded, never-blocking queue of diagnostic rows (src/lidar_state_recorder.cpp, RecordQueue).
    A snapshot is represented by the list of its field values; counters are unbounded. */
module RecordQueue {

  datatype Source = Startup | StatePush | Query | Shutdown | Failure

  datatype Result = NotApplicable | Success | SubmitFailed | Timeout | SdkError | InvalidResponse | Pending

  datatype Record = Record(source: Source, result: Result, fields: seq<int>, steadyNs: int, seqNo: nat)

  /** What the rate limiter remembers of the last accepted push. */
  datatype LastPush = NoPush | LastPush(fields: seq<int>, result: Result, ns: int)

  datatype Queue = Queue(
    capacity: nat, rows: seq<Record>, sequence: nat,
    dropped: nat, suppressed: nat, closed: bool, last: LastPush)

  const MIN_INTERVAL: int := 200_000_000

  /** The constructor never makes a queue without room. */
  function Empty(capacity: nat): Queue {
    Queue(if capacity == 0 then 1 else capacity, [], 0, 0, 0, false, NoPush)
  }

  function Stamp(r: Record, now: int): Record {
    if r.steadyNs == 0 then r.(steadyNs := now) else r
  }

  datatype Verdict = Accepted | Dropped | Suppressed

  /** What Push decides about a row; `locked` is whether the mutex was free. */
  function Decide(q: Queue, r: Record, filter: bool, locked: bool): Verdict {
    if !locked then Dropped
    else if q.closed then Dropped
    else if filter && r.source == StatePush && q.last.LastPush?
            && r.result == q.last.result && r.fields == q.last.fields then Suppressed
    else if filter && r.source == StatePush && q.last.LastPush?
            && r.steadyNs - q.last.ns < MIN_INTERVAL then Dropped
    else if |q.rows| == q.capacity then Dropped
    else Accepted
  }

  function Numbered(q: Queue, r: Record): Record {
    r.(seqNo := q.sequence + 1)
  }

  function Enqueue(q: Queue, r: Record): Queue {
    q.(sequence := q.sequence + 1,
       rows := q.rows + [Numbered(q, r)],
       last := if r.source == StatePush then LastPush(r.fields, r.result, r.steadyNs) else q.last)
  }

  function PushRow(q: Queue, r: Record, filter: bool, locked: bool, now: int): Queue {
    var s := Stamp(r, now);
    match Decide(q, s, filter, locked)
    case Accepted => Enqueue(q, s)
    case Dropped => q.(dropped := q.dropped + 1)
    case Suppressed => q.(suppressed := q.suppressed + 1)
  }

  /* ---- runs ---- */

  datatype Op =
    | Push(row: Record, filter: bool, locked: bool, now: int)
    | Pop
    | Close

  /** The queue together with what has been accepted and handed out so far. */
  datatype History = History(q: Queue, accepted: seq<Record>, popped: seq<Record>, pushes: nat)

  function Start(capacity: nat): History {
    History(Empty(capacity), [], [], 0)
  }

  function Apply(h: History, op: Op): History {
    match op
    case Push(row, filter, locked, now) =>
      var s := Stamp(row, now);
      History(PushRow(h.q, row, filter, locked, now),
              if Decide(h.q, s, filter, locked) == Accepted then h.accepted + [Numbered(h.q, s)] else h.accepted,
              h.popped, h.pushes + 1)
    case Pop =>
      if h.q.rows == [] then h
      else h.(q := h.q.(rows := h.q.rows[1..]), popped := h.popped + [h.q.rows[0]])
    case Close => h.(q := h.q.(closed := true))
  }

  function Run(h: History, ops: seq<Op>): History
    decreases |ops|
  {
    if ops == [] then h else Run(Apply(h, ops[0]), ops[1..])
  }

  /** The state pushes among the rows, in order. */
  function Pushes(rows: seq<Record>): seq<Record> {
    if rows == [] then []
    else if rows[|rows| - 1].source == StatePush then Pushes(rows[..|rows| - 1]) + [rows[|rows| - 1]]
    else Pushes(rows[..|rows| - 1])
  }

  /** What the queue's memory of the last push must be after `rows` were accepted. */
  function LastOf(rows: seq<Record>): LastPush {
    var ps := Pushes(rows);
    if ps == [] then NoPush
    else var p := ps[|ps| - 1]; LastPush(p.fields, p.result, p.steadyNs)
  }

  predicate Accounted(h: History) {
    && h.q.capacity > 0
    && |h.q.rows| <= h.q.capacity
    && h.pushes == |h.accepted| + h.q.dropped + h.q.suppressed
    && h.accepted == h.popped + h.q.rows
    && h.q.sequence == |h.accepted|
    && (forall k :: 0 <= k < |h.accepted| ==> h.accepted[k].seqNo == k + 1)
    && h.q.last == LastOf(h.accepted)
  }

  lemma PushesSnoc(rows: seq<Record>, r: Record)
    ensures Pushes(rows + [r]) == if r.source == StatePush then Pushes(rows) + [r] else Pushes(rows)
  {
    assert (rows + [r])[..|rows|] == rows;
  }

  lemma EnqueueAccounted(h: History, s: Record)
    requires Accounted(h) && |h.q.rows| < h.q.capacity
    ensures Accounted(History(Enqueue(h.q, s), h.accepted + [Numbered(h.q, s)], h.popped, h.pushes + 1))
  {
    PushesSnoc(h.accepted, Numbered(h.q, s));
    hide Pushes;
    assert h.accepted + [Numbered(h.q, s)] == h.popped + (h.q.rows + [Numbered(h.q, s)]);
  }

  lemma ApplyAccounted(h: History, op: Op)
    requires Accounted(h)
    ensures Accounted(Apply(h, op))
  {
    hide LastOf;
    match op
    case Push(row, filter, locked, now) =>
      var s := Stamp(row, now);
      if Decide(h.q, s, filter, locked) == Accepted {
        EnqueueAccounted(h, s);
      }
    case Pop =>
      if h.q.rows != [] {
        assert h.popped + h.q.rows == (h.popped + [h.q.rows[0]]) + h.q.rows[1..];
      }
    case Close =>
  }

  /** Over any run: every push is accepted, dropped or suppressed; accepted rows are exactly those
      handed out plus those waiting, in order; they are numbered 1, 2, 3, ... without gaps. */
  lemma {:induction false} RunAccounted(h: History, ops: seq<Op>)
    requires Accounted(h)
    ensures Accounted(Run(h, ops))
    decreases |ops|
  {
    if ops != [] {
      ApplyAccounted(h, ops[0]);
      RunAccounted(Apply(h, ops[0]), ops[1..]);
    }
  }

  /** A suppressed row has the contents of the last push that was accepted. */
  lemma SuppressedRepeats(h: History, row: Record, filter: bool, locked: bool, now: int)
    requires Accounted(h)
    ensures Decide(h.q, Stamp(row, now), filter, locked) == Suppressed <==>
              && locked && !h.q.closed && filter && row.source == StatePush
              && var ps := Pushes(h.accepted);
                 ps != [] && row.fields == ps[|ps| - 1].fields && row.result == ps[|ps| - 1].result
  {
  }

  /** A row is accepted exactly when the lock is free, the queue is open and has room, and, for a filtered
      state push, when it differs from the last accepted push and comes late enough after it. */
  lemma AcceptedExactly(h: History, row: Record, filter: bool, locked: bool, now: int)
    requires Accounted(h)
    ensures Apply(h, Push(row, filter, locked, now)).accepted != h.accepted <==>
              && locked && !h.q.closed && |h.accepted| - |h.popped| < h.q.capacity
              && var ps := Pushes(h.accepted);
                 filter && row.source == StatePush && ps != [] ==>
                   && (row.fields != ps[|ps| - 1].fields || row.result != ps[|ps| - 1].result)
                   && (if row.steadyNs == 0 then now else row.steadyNs) - ps[|ps| - 1].steadyNs >= 200_000_000
  {
    hide Pushes;
  }

  /** What is accepted is the row that was pushed, with the time of the push if it had none and with the
      next number; nothing else ever changes what was accepted. */
  lemma AcceptedRow(h: History, row: Record, filter: bool, locked: bool, now: int)
    requires Accounted(h)
    ensures var n := Apply(h, Push(row, filter, locked, now));
            n.accepted == h.accepted ||
            n.accepted == h.accepted + [Record(row.source, row.result, row.fields,
                                               if row.steadyNs == 0 then now else row.steadyNs, |h.accepted| + 1)]
    ensures Apply(h, Pop).accepted == h.accepted && Apply(h, Close).accepted == h.accepted
  {
    hide LastOf;
  }

  /* ---- the rate limit ---- */

  /** Every push passes the filter, as every caller in the driver asks for. */
  predicate AllFiltered(ops: seq<Op>) {
    forall k :: 0 <= k < |ops| && ops[k].Push? ==> ops[k].filter
  }

  /** Neighbouring pushes are at least the minimum interval apart. */
  predicate Spaced(ps: seq<Record>) {
    forall k :: 0 < k < |ps| ==> ps[k].steadyNs - ps[k - 1].steadyNs >= MIN_INTERVAL
  }

  lemma SpacedSnoc(ps: seq<Record>, r: Record)
    requires Spaced(ps) && (ps == [] || r.steadyNs - ps[|ps| - 1].steadyNs >= MIN_INTERVAL)
    ensures Spaced(ps + [r])
  {
  }

  lemma ApplySpaced(h: History, op: Op)
    requires Accounted(h) && (op.Push? ==> op.filter) && Spaced(Pushes(h.accepted))
    ensures Spaced(Pushes(Apply(h, op).accepted))
  {
    if op.Push? {
      var s := Stamp(op.row, op.now);
      PushesSnoc(h.accepted, Numbered(h.q, s));
      hide Spaced, Pushes;
      if Decide(h.q, s, op.filter, op.locked) == Accepted && s.source == StatePush {
        SpacedSnoc(Pushes(h.accepted), Numbered(h.q, s));
      }
    }
  }

  lemma {:induction false} RunSpaced(h: History, ops: seq<Op>)
    requires Accounted(h) && AllFiltered(ops) && Spaced(Pushes(h.accepted))
    ensures Spaced(Pushes(Run(h, ops).accepted))
    decreases |ops|
  {
    if ops != [] {
      assert ops[0].Push? ==> ops[0].filter;
      assert AllFiltered(ops[1..]);
      ApplyAccounted(h, ops[0]);
      ApplySpaced(h, ops[0]);
      hide Apply, Accounted, Spaced, AllFiltered, Pushes;
      RunSpaced(Apply(h, ops[0]), ops[1..]);
    }
  }

  lemma {:induction false} SpacedApart(ps: seq<Record>, i: nat, j: nat)
    requires Spaced(ps) && i <= j < |ps|
    ensures ps[j].steadyNs - ps[i].steadyNs >= (j - i) * MIN_INTERVAL
    decreases j - i
  {
    if i < j { SpacedApart(ps, i, j - 1); }
  }

  /** At most one push more than the number of intervals fits in a window: if the accepted pushes
      `i` to `j` all lie within `window`, they are at most `window / MIN_INTERVAL + 1`. */
  lemma RateLimit(capacity: nat, ops: seq<Op>, i: nat, j: nat, window: nat)
    requires AllFiltered(ops)
    requires i <= j < |Pushes(Run(Start(capacity), ops).accepted)|
    requires var ps := Pushes(Run(Start(capacity), ops).accepted);
             ps[j].steadyNs - ps[i].steadyNs <= window
    ensures j - i + 1 <= window / MIN_INTERVAL + 1
  {
    RunSpaced(Start(capacity), ops);
    SpacedApart(Pushes(Run(Start(capacity), ops).accepted), i, j);
  }

  /* ---- the queue as a program ---- */

  /** The slot `x` steps from the start of a ring of `n` slots, for `x` less than two turns. */
  function Slot(x: nat, n: nat): nat {
    if x < n then x else x - n
  }

  lemma Wrap(x: nat, n: nat)
    requires n > 0 && x < 2 * n
    ensures x % n == Slot(x, n) < n
  {
    var q, m := x / n, x % n;
    assert x == q * n + m && m < n;
    if x < n {
      assert q == 0;
    } else {
      assert q == 1;
    }
  }

  /** The `size` elements of a ring from `head` on. */
  function Window(ring: seq<Record>, head: nat, size: nat): (w: seq<Record>)
    requires head < |ring| && size <= |ring|
    ensures |w| == size
    ensures forall k :: 0 <= k < size ==> w[k] == ring[Slot(head + k, |ring|)]
  {
    seq(size, k requires 0 <= k < size => ring[Slot(head + k, |ring|)])
  }

  lemma WindowAppend(ring: seq<Record>, head: nat, size: nat, r: Record)
    requires head < |ring| && size < |ring|
    ensures Window(ring[Slot(head + size, |ring|) := r], head, size + 1) == Window(ring, head, size) + [r]
  {
    var updated := ring[Slot(head + size, |ring|) := r];
    assert forall k :: 0 <= k < size ==> Window(updated, head, size + 1)[k] == Window(ring, head, size)[k];
  }

  lemma WindowPop(ring: seq<Record>, head: nat, size: nat)
    requires head < |ring| && 0 < size <= |ring|
    ensures Window(ring, head, size)[0] == ring[head]
    ensures Window(ring, Slot(head + 1, |ring|), size - 1) == Window(ring, head, size)[1..]
  {
    var a, b := Window(ring, Slot(head + 1, |ring|), size - 1), Window(ring, head, size)[1..];
    assert |a| == |b|;
    forall k | 0 <= k < |a| ensures a[k] == b[k] {
      assert b[k] == Window(ring, head, size)[k + 1];
    }
  }

  const NO_RECORD: Record := Record(Query, NotApplicable, [], 0, 0)

  class RecordQueue {
    const rows: array<Record>
    var head: nat
    var size: nat
    var sequence: nat
    var dropped: nat
    var suppressed: nat
    var hasPush: bool
    var closed: bool
    var lastFields: seq<int>
    var lastResult: Result
    var lastNs: int

    ghost predicate Valid()
      reads this
    {
      rows.Length > 0 && head < rows.Length && size <= rows.Length
    }

    /** The waiting rows, oldest first. */
    ghost function Waiting(): seq<Record>
      requires Valid()
      reads this, rows
    {
      Window(rows[..], head, size)
    }

    ghost function Contents(): Queue
      requires Valid()
      reads this, rows
    {
      Queue(rows.Length, Waiting(), sequence, dropped, suppressed, closed,
            if hasPush then LastPush(lastFields, lastResult, lastNs) else NoPush)
    }

    constructor (capacity: nat)
      ensures Valid() && fresh(rows) && Contents() == Empty(capacity)
    {
      rows := new Record[if capacity == 0 then 1 else capacity](_ => NO_RECORD);
      head, size, sequence, dropped, suppressed := 0, 0, 0, 0, 0;
      hasPush, closed := false, false;
      lastFields, lastResult, lastNs := [], NotApplicable, 0;
    }

    method Append(record: Record)
      requires Valid() && size < rows.Length
      modifies rows, this`size
      ensures Valid() && Waiting() == old(Waiting()) + [record]
    {
      Wrap(head + size, rows.Length);
      WindowAppend(rows[..], head, size, record);
      ghost var before := rows[..];
      rows[(head + size) % rows.Length] := record;
      assert rows[..] == before[Slot(head + size, rows.Length) := record];
      size := size + 1;
    }

    method Push(record: Record, filter: bool, locked: bool, now: int) returns (accepted: bool)
      requires Valid()
      modifies this, rows
      ensures Valid() && Contents() == PushRow(old(Contents()), record, filter, locked, now)
      ensures accepted == (Decide(old(Contents()), Stamp(record, now), filter, locked) == Accepted)
    {
      hide Window, Enqueue;
      if !locked {
        dropped := dropped + 1;
        return false;
      }
      if closed {
        dropped := dropped + 1;
        return false;
      }
      var row := Stamp(record, now);
      if filter && row.source == StatePush && hasPush {
        if row.result == lastResult && row.fields == lastFields {
          suppressed := suppressed + 1;
          return false;
        }
        if row.steadyNs - lastNs < MIN_INTERVAL {
          dropped := dropped + 1;
          return false;
        }
      }
      if size == rows.Length {
        dropped := dropped + 1;
        return false;
      }
      Accept(row);
      return true;
    }

    /** The last part of Push: the row is numbered, stored, and remembered for the rate limit. */
    method Accept(row: Record)
      requires Valid() && size < rows.Length
      modifies this, rows
      ensures Valid() && Contents() == Enqueue(old(Contents()), row)
    {
      hide Window;
      sequence := sequence + 1;
      Append(row.(seqNo := sequence));
      if row.source == StatePush {
        hasPush := true;
        lastFields, lastResult, lastNs := row.fields, row.result, row.steadyNs;
      }
    }

    method Pop() returns (found: bool, record: Record)
      requires Valid()
      modifies this`head, this`size
      ensures Valid() && found == (old(Waiting()) != [])
      ensures found ==> record == old(Waiting())[0] && Contents() == old(Contents()).(rows := old(Waiting())[1..])
      ensures !found ==> Contents() == old(Contents())
    {
      hide Window;
      if size == 0 {
        return false, NO_RECORD;
      }
      found, record := true, rows[head];
      WindowPop(rows[..], head, size);
      Wrap(head + 1, rows.Length);
      head := (head + 1) % rows.Length;
      size := size - 1;
    }

    method NextSequence() returns (n: nat)
      requires Valid()
      modifies this`sequence
      ensures Valid() && n == old(sequence) + 1 && Contents() == old(Contents()).(sequence := n)
    {
      sequence := sequence + 1;
      n := sequence;
    }

    method Close()
      requires Valid()
      modifies this`closed
      ensures Valid() && Contents() == old(Contents()).(closed := true)
    {
      closed := true;
    }
  }
}
