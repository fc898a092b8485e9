/** What becomes of the rows handed to the log: every row is written whole or counted in write_errors_
    (src/lidar_state_recorder.cpp, Write, WriteError and Run). */
module RowFates {
  import opened Bytes
  import opened CrashLog
  import RecordQueue
  import Shutdown

  /** The rows that Write is called with. */
  function Calls(steps: seq<Step>): (lines: seq<Text>)
    ensures |lines| <= |steps|
  {
    if steps == [] then [] else (if steps[0].Call? then [steps[0].line] else []) + Calls(steps[1..])
  }

  predicate Alive(steps: seq<Step>) {
    forall k :: 0 <= k < |steps| ==> steps[k] != Die
  }

  function Concat(chunks: seq<Text>): Text {
    if chunks == [] then [] else Concat(chunks[..|chunks| - 1]) + chunks[|chunks| - 1]
  }

  /** How many rows were not written whole. */
  function Short(lines: seq<Text>, chunks: seq<Text>): nat
    requires |lines| == |chunks|
  {
    if lines == [] then 0
    else
      var n := |lines| - 1;
      Short(lines[..n], chunks[..n]) + if chunks[n] == lines[n] then 0 else 1
  }

  lemma ConcatSnoc(chunks: seq<Text>, c: Text)
    ensures Concat(chunks + [c]) == Concat(chunks) + c
  {
    assert (chunks + [c])[..|chunks|] == chunks;
  }

  lemma ShortSnoc(lines: seq<Text>, chunks: seq<Text>, line: Text, c: Text)
    requires |lines| == |chunks|
    ensures Short(lines + [line], chunks + [c]) == Short(lines, chunks) + if c == line then 0 else 1
  {
    assert (lines + [line])[..|lines|] == lines && (chunks + [c])[..|chunks|] == chunks;
  }

  /** How much of the pending row has been written. */
  function Offset(pc: Pc): nat {
    if pc.Write? then pc.offset else 0
  }

  /* ---- one row ---- */

  /** The row is given up: its error is counted. */
  predicate GivesUp(p: Process, q: Process) {
    q.pc.Idle? && q.errors == p.errors + 1 && q.written == p.written
  }

  /** The row is behind, written to its end. */
  predicate Completes(p: Process, q: Process, line: Text) {
    && q.pc.Idle? && q.errors == p.errors && Offset(p.pc) <= |line|
    && q.written == p.written + line[Offset(p.pc)..]
  }

  /** The row is still pending, and as much more of it written as the offset has moved. */
  predicate Continues(p: Process, q: Process, line: Text) {
    && !q.pc.Idle? && q.pc.line == line && q.errors == p.errors && Offset(p.pc) <= Offset(q.pc) < |line|
    && q.written == p.written + line[Offset(p.pc)..Offset(q.pc)]
  }

  lemma BeginOutcome(limit: nat, p: Process, line: Text)
    requires p.pc.Idle? && |line| > 0
    ensures var q := Begin(limit, p, line); GivesUp(p, q) || Continues(p, q, line)
  {
    assert p.written + line[0..0] == p.written;
  }

  lemma WriteOutcome(limit: nat, p: Process, o: Outcome)
    requires Ready(p) && p.pc.Write?
    ensures var q := Turn(limit, p, o);
            GivesUp(p, q) || Completes(p, q, p.pc.line) || Continues(p, q, p.pc.line)
  {
    var line, offset := p.pc.line, p.pc.offset;
    assert p.written + line[offset..offset] == p.written;
    hide Appended;
    var n := Count(o, |line| - offset);
    assert offset + n == |line| ==> line[offset..offset + n] == line[offset..];
  }

  lemma TurnOutcome(limit: nat, p: Process, o: Outcome)
    requires Ready(p) && !p.pc.Idle? && |p.pc.line| > 0
    ensures var q := Turn(limit, p, o);
            GivesUp(p, q) || Completes(p, q, p.pc.line) || Continues(p, q, p.pc.line)
  {
    if p.pc.Write? {
      WriteOutcome(limit, p, o);
    } else {
      OtherOutcome(limit, p, o);
    }
    hide Turn, GivesUp, Completes, Continues;
  }

  lemma OtherOutcome(limit: nat, p: Process, o: Outcome)
    requires Ready(p) && !p.pc.Idle? && !p.pc.Write? && |p.pc.line| > 0
    ensures var q := Turn(limit, p, o); GivesUp(p, q) || Continues(p, q, p.pc.line)
  {
    assert p.written + p.pc.line[0..0] == p.written;
    hide Data, Created, Renamed, WriteTurn;
  }

  /* ---- a whole run ---- */

  /** What has been written of the pending row. */
  function Part(pc: Pc): Text {
    if pc.Idle? || Offset(pc) > |pc.line| then [] else pc.line[..Offset(pc)]
  }

  /** A part of every row, from its beginning. */
  ghost predicate Begins(lines: seq<Text>, chunks: seq<Text>) {
    |chunks| == |lines| && forall k :: 0 <= k < |lines| ==> chunks[k] <= lines[k]
  }

  lemma BeginsSnoc(lines: seq<Text>, chunks: seq<Text>, line: Text, c: Text)
    requires Begins(lines, chunks) && c <= line
    ensures |lines| == |chunks| && Begins(lines + [line], chunks + [c])
  {
  }

  /** `lines` are the rows that are behind, and `chunks` what the log has got of them: a part of each
      from its beginning. A row is short exactly if its error is counted. */
  ghost predicate Fates(start: Process, p: Process, lines: seq<Text>, chunks: seq<Text>) {
    && Begins(lines, chunks)
    && p.written == start.written + Concat(chunks) + Part(p.pc)
    && p.errors == start.errors + Short(lines, chunks)
    && (!p.pc.Idle? ==> Offset(p.pc) < |p.pc.line|)
  }

  function PendingLine(pc: Pc): seq<Text> {
    if pc.Idle? then [] else [pc.line]
  }

  lemma GivenUp(start: Process, p: Process, q: Process, lines: seq<Text>, chunks: seq<Text>)
    requires !p.pc.Idle? && Fates(start, p, lines, chunks) && GivesUp(p, q)
    ensures Fates(start, q, lines + [p.pc.line], chunks + [Part(p.pc)])
  {
    var line, c := p.pc.line, Part(p.pc);
    hide Concat, Short, Begins;
    ConcatSnoc(chunks, c);
    BeginsSnoc(lines, chunks, line, c);
    ShortSnoc(lines, chunks, line, c);
    Associative(start.written, Concat(chunks), c);
    assert |c| < |line|;
    hide Part;
    NothingMore(start.written + Concat(chunks + [c]), q.pc);
  }

  lemma NothingMore(t: Text, pc: Pc)
    requires pc.Idle?
    ensures t + Part(pc) == t
  {
  }

  lemma Completed(start: Process, p: Process, q: Process, lines: seq<Text>, chunks: seq<Text>)
    requires !p.pc.Idle? && Fates(start, p, lines, chunks) && Completes(p, q, p.pc.line)
    ensures Fates(start, q, lines + [p.pc.line], chunks + [p.pc.line])
  {
    var line, c, rest := p.pc.line, Part(p.pc), p.pc.line[Offset(p.pc)..];
    assert line == c + rest;
    hide Concat, Short, Begins, Part;
    BeginsSnoc(lines, chunks, line, line);
    ShortSnoc(lines, chunks, line, line);
    CompletedText(start.written, chunks, line, c, rest, p.written, q.written);
    NothingMore(start.written + Concat(chunks + [line]), q.pc);
  }

  lemma CompletedText(before: Text, chunks: seq<Text>, line: Text, c: Text, rest: Text, was: Text, now: Text)
    requires line == c + rest && was == before + Concat(chunks) + c && now == was + rest
    ensures now == before + Concat(chunks + [line])
  {
    hide Concat;
    ConcatSnoc(chunks, line);
    Assembled(before, Concat(chunks), c, rest);
  }

  lemma Assembled(a: Text, b: Text, c: Text, rest: Text)
    ensures a + b + c + rest == a + (b + (c + rest))
  {
    Associative(a + b, c, rest);
    Associative(a, b, c + rest);
  }

  lemma Continued(start: Process, p: Process, q: Process, lines: seq<Text>, chunks: seq<Text>)
    requires !p.pc.Idle? && Fates(start, p, lines, chunks) && Continues(p, q, p.pc.line)
    ensures Fates(start, q, lines, chunks)
  {
    hide Concat, Short, Begins;
    var line, a, b := p.pc.line, Offset(p.pc), Offset(q.pc);
    Associative(start.written + Concat(chunks), line[..a], line[a..b]);
    assert line[..b] == line[..a] + line[a..b];
  }

  lemma TurnFates(limit: nat, start: Process, p: Process, o: Outcome, lines: seq<Text>, chunks: seq<Text>)
      returns (ls: seq<Text>, cs: seq<Text>)
    requires Ready(p) && !p.pc.Idle? && Fates(start, p, lines, chunks)
    ensures var q := Turn(limit, p, o);
            Fates(start, q, ls, cs) && ls + PendingLine(q.pc) == lines + PendingLine(p.pc)
  {
    hide Turn, Fates;
    assert |p.pc.line| > 0 by { FatesPending(start, p, lines, chunks); }
    TurnOutcome(limit, p, o);
    var q := Turn(limit, p, o);
    if Continues(p, q, p.pc.line) {
      Continued(start, p, q, lines, chunks);
      ls, cs := lines, chunks;
    } else if GivesUp(p, q) {
      GivenUp(start, p, q, lines, chunks);
      ls, cs := lines + [p.pc.line], chunks + [Part(p.pc)];
    } else {
      Completed(start, p, q, lines, chunks);
      ls, cs := lines + [p.pc.line], chunks + [p.pc.line];
    }
  }

  lemma FatesPending(start: Process, p: Process, lines: seq<Text>, chunks: seq<Text>)
    requires Fates(start, p, lines, chunks) && !p.pc.Idle?
    ensures |p.pc.line| > 0
  {
    hide Concat, Short;
  }

  lemma CallFates(limit: nat, start: Process, p: Process, line: Text, lines: seq<Text>, chunks: seq<Text>)
      returns (ls: seq<Text>, cs: seq<Text>)
    requires p.pc.Idle? && |line| > 0 && Fates(start, p, lines, chunks)
    ensures var q := Begin(limit, p, line); Fates(start, q, ls, cs) && ls + PendingLine(q.pc) == lines + [line]
  {
    BeginOutcome(limit, p, line);
    hide Begin;
    var q := Begin(limit, p, line);
    if GivesUp(p, q) {
      CalledGivenUp(start, p, q, line, lines, chunks);
      ls, cs := lines + [line], chunks + [[]];
    } else {
      CalledContinued(start, p, q, line, lines, chunks);
      ls, cs := lines, chunks;
    }
  }

  lemma CalledGivenUp(start: Process, p: Process, q: Process, line: Text, lines: seq<Text>, chunks: seq<Text>)
    requires p.pc.Idle? && |line| > 0 && Fates(start, p, lines, chunks) && GivesUp(p, q)
    ensures Fates(start, q, lines + [line], chunks + [[]])
  {
    hide Concat, Short, Begins;
    ConcatSnoc(chunks, []);
    BeginsSnoc(lines, chunks, line, []);
    ShortSnoc(lines, chunks, line, []);
  }

  lemma CalledContinued(start: Process, p: Process, q: Process, line: Text, lines: seq<Text>, chunks: seq<Text>)
    requires p.pc.Idle? && |line| > 0 && Fates(start, p, lines, chunks) && Continues(p, q, line)
    ensures Fates(start, q, lines, chunks)
  {
    hide Concat, Short;
  }

  lemma {:induction false} PlayFates(limit: nat, start: Process, p: Process, steps: seq<Step>,
                                     lines: seq<Text>, chunks: seq<Text>) returns (ls: seq<Text>, cs: seq<Text>)
    requires Schedule(limit, p, steps) && Alive(steps) && Fates(start, p, lines, chunks)
    ensures var q := Play(limit, p, steps);
            Fates(start, q, ls, cs) && ls + PendingLine(q.pc) == lines + PendingLine(p.pc) + Calls(steps)
    decreases |steps|
  {
    if steps == [] {
      ls, cs := lines, chunks;
    } else {
      assert Alive(steps[1..]);
      ls, cs := StepFates(limit, start, p, steps[0], lines, chunks);
      hide Fates, Alive;
      var q := Take(limit, p, steps[0]);
      var before := ls + PendingLine(q.pc);
      ls, cs := PlayFates(limit, start, q, steps[1..], ls, cs);
      CallsStep(lines + PendingLine(p.pc), steps);
    }
  }

  lemma CallsStep(before: seq<Text>, steps: seq<Step>)
    requires steps != []
    ensures before + Calls(steps) == before + (if steps[0].Call? then [steps[0].line] else []) + Calls(steps[1..])
  {
    hide Calls;
    FirstCall(steps);
    var first := if steps[0].Call? then [steps[0].line] else [];
    assert before + (first + Calls(steps[1..])) == before + first + Calls(steps[1..]);
  }

  lemma FirstCall(steps: seq<Step>)
    requires steps != []
    ensures Calls(steps) == (if steps[0].Call? then [steps[0].line] else []) + Calls(steps[1..])
  {
  }

  lemma StepFates(limit: nat, start: Process, p: Process, a: Step, lines: seq<Text>, chunks: seq<Text>)
      returns (ls: seq<Text>, cs: seq<Text>)
    requires Enabled(p, a) && a != Die && Fates(start, p, lines, chunks)
    ensures var q := Take(limit, p, a);
            && Fates(start, q, ls, cs)
            && ls + PendingLine(q.pc) == lines + PendingLine(p.pc) + if a.Call? then [a.line] else []
  {
    hide Fates, Begin, Turn;
    if a.Call? {
      ls, cs := CallFates(limit, start, p, a.line, lines, chunks);
    } else {
      ls, cs := TurnFates(limit, start, p, a.o, lines, chunks);
    }
  }

  /** As long as the process lives, whichever calls fail or write only a part: what the run adds to the
      log is, in order, a part of every row from its beginning, and as many errors are counted as rows
      are short; at the end of a run in the middle of Write, the part written of that row comes last. */
  lemma WholeOrCounted(limit: nat, start: Process, steps: seq<Step>) returns (lines: seq<Text>, chunks: seq<Text>)
    requires start.pc.Idle? && Schedule(limit, start, steps) && Alive(steps)
    ensures var p := Play(limit, start, steps);
            Fates(start, p, lines, chunks) && lines + PendingLine(p.pc) == Calls(steps)
  {
    lines, chunks := PlayFates(limit, start, start, steps, [], []);
    hide Fates, Play;
  }

  /** From producer to file: when the writer thread is done, every row the queue accepted and the
      shutdown row behind them are whole in what was written, or short and counted as an error. */
  lemma AcceptedWrittenOrCounted(capacity: nat, startup: RecordQueue.Record, now: int, steps: seq<Shutdown.Step>,
                                 serialize: RecordQueue.Record -> Text,
                                 limit: nat, start: Process, calls: seq<Step>) returns (chunks: seq<Text>)
    requires var first := Shutdown.Initial(capacity, startup, now);
             Shutdown.Schedule(first, steps) && Shutdown.Play(first, steps).writer.Done?
    requires start.pc.Idle? && Schedule(limit, start, calls) && Alive(calls) && Play(limit, start, calls).pc.Idle?
    requires var s := Shutdown.Play(Shutdown.Initial(capacity, startup, now), steps);
             Calls(calls) == seq(|s.written|, k requires 0 <= k < |s.written| => serialize(s.written[k]))
    ensures var s := Shutdown.Play(Shutdown.Initial(capacity, startup, now), steps);
            var p := Play(limit, start, calls);
            && |chunks| == |Calls(calls)| == |s.h.accepted| + 1
            && (forall k :: 0 <= k < |s.h.accepted| ==> chunks[k] <= serialize(s.h.accepted[k]))
            && p.written == start.written + Concat(chunks)
            && p.errors == start.errors + Short(Calls(calls), chunks)
  {
    var lines;
    lines, chunks := WholeOrCounted(limit, start, calls);
    assert lines == Calls(calls);
    Shutdown.DrainedAtEnd(capacity, startup, now, steps);
    hide Shutdown.Play, Play, Calls, Concat, Short, Shutdown.Initial;
  }
}
