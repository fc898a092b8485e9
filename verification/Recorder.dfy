/** The recorder's file handling as its methods do it (src/lidar_state_recorder.cpp, Open, Rotate,
    Write and WriteError), proved to take exactly the steps of CrashLog. */
module Recorder {
  import opened Bytes
  import opened CrashLog

  /** What became of a method: it returned true or false, or the process died in it. */
  datatype Reply = Yes | No | Dead

  /* ---- the steps a list of answers leads through ---- */

  function Run(limit: nat, p: Process, answers: seq<Outcome>): Process {
    if answers == [] then p
    else
      var q := Run(limit, p, answers[..|answers| - 1]);
      if q.pc.Idle? || !Ready(q) then q else Turn(limit, q, answers[|answers| - 1])
  }

  lemma RunSnoc(limit: nat, p: Process, answers: seq<Outcome>, k: nat)
    requires k < |answers|
    ensures var q := Run(limit, p, answers[..k]);
            Run(limit, p, answers[..k + 1]) == if q.pc.Idle? || !Ready(q) then q else Turn(limit, q, answers[k])
  {
    assert answers[..k + 1][..k] == answers[..k];
  }

  lemma NextAnswer(limit: nat, p: Process, before: seq<Outcome>, script: seq<Outcome>, q: Process)
    requires 0 < |script| <= |before| && script == before[|before| - |script|..]
    requires Run(limit, p, before[..|before| - |script|]) == q && !q.pc.Idle? && Ready(q)
    ensures Run(limit, p, before[..|before| - |script| + 1]) == Turn(limit, q, script[0])
    ensures script[1..] == before[|before| - |script| + 1..]
  {
    RunSnoc(limit, p, before, |before| - |script|);
    hide Run, Turn, Ready;
    assert before[|before| - |script|] == script[0];
  }

  lemma {:induction false} RunKeeps(limit: nat, p: Process, answers: seq<Outcome>)
    requires Inv(limit, p)
    ensures Inv(limit, Run(limit, p, answers))
    decreases |answers|
  {
    if answers != [] {
      RunKeeps(limit, p, answers[..|answers| - 1]);
      var q := Run(limit, p, answers[..|answers| - 1]);
      if !q.pc.Idle? {
        TurnKeeps(limit, q, answers[|answers| - 1]);
      }
    }
  }

  /** How many more calls it takes when all of them succeed. */
  function Left(pc: Pc): nat {
    match pc
    case Idle => 0
    case MakeDirectory(_) => 10
    case Open(_) => 9
    case Stat(_) => 8
    case Unlink(_) => 7
    case Rename(_, i) => 4 + i
    case Reopen(_) => 3
    case Restat(_) => 2
    case Write(_, _) => 1
  }

  lemma DoneTurn(limit: nat, p: Process)
    requires Inv(limit, p) && !p.pc.Idle?
    ensures Ready(p) && Left(Turn(limit, p, Done).pc) < Left(p.pc) && Turn(limit, p, Done).errors == p.errors
  {
    hide FilesOk, Joined, IsRow, Appendable, Appended;
  }

  /** Write is not only safe: when every call succeeds, at most ten of them write the row and no error is
      counted. */
  lemma {:induction false} SucceedsWhenCallsDo(limit: nat, p: Process, answers: seq<Outcome>)
    requires Inv(limit, p) && forall k :: 0 <= k < |answers| ==> answers[k] == Done
    ensures var q := Run(limit, p, answers);
            && Inv(limit, q) && q.errors == p.errors
            && (q.pc.Idle? || Left(q.pc) + |answers| <= Left(p.pc))
    decreases |answers|
  {
    if answers != [] {
      SucceedsWhenCallsDo(limit, p, answers[..|answers| - 1]);
      var q := Run(limit, p, answers[..|answers| - 1]);
      hide Inv, Turn;
      if !q.pc.Idle? {
        DoneTurn(limit, q);
        TurnKeeps(limit, q, Done);
      }
    }
  }

  /* ---- what a successful Write leaves ---- */

  /** The files moved on by one place, the oldest one gone. */
  function Shifted(fs: Files): Files {
    [Missing, fs[0], fs[1], fs[2]]
  }

  /** ... when the places above `i` are done. */
  function Moved(fs: Files, i: int): Files {
    if i >= 2 then fs
    else if i == 1 then [fs[0], fs[1], Missing, fs[2]]
    else if i == 0 then [fs[0], Missing, fs[1], fs[2]]
    else Shifted(fs)
  }

  lemma MovedOne(fs: Files, i: nat)
    requires i < 3 && fs[3].Missing?
    ensures Renamed(Moved(fs, i), i) == Moved(fs, i - 1)
  {
  }

  function WithRow(f: File, line: Text): File {
    Appended(f, line, 0, |line|)
  }

  /** The file while the row is being written. */
  function Partly(f: File, line: Text, offset: nat): File
    requires offset <= |line|
  {
    if offset == 0 then f else Appended(f, line, 0, offset)
  }

  /** Chunks add up. */
  lemma PartlyMore(f: File, line: Text, offset: nat, n: nat)
    requires 0 < n && offset + n <= |line|
    ensures Appended(Partly(f, line, offset), line, offset, n) == Partly(f, line, offset + n)
  {
    if offset > 0 {
      assert line[0..offset] + line[offset..offset + n] == line[0..offset + n];
      Associative(Data(f), line[0..offset], line[offset..offset + n]);
      var pieces := if f.Present? then f.pieces else [];
      assert (pieces + [Row(line, offset)])[..|pieces|] == pieces;
    }
  }

  /** The row goes to the open file if it fits, else to a fresh one; a file left by another process or
      by a failed call is never appended to. */
  function Logged(limit: nat, fs: Files, fd: bool, size: nat, line: Text): Files {
    if (if fd then size + |line| <= limit else Data(fs[0]) == []) then fs[0 := WithRow(fs[0], line)]
    else Shifted(fs)[0 := WithRow(Missing, line)]
  }

  /** A current file without bytes is as good as none. */
  lemma EmptyCurrent(limit: nat, p: Process)
    requires Inv(limit, p)
    ensures Data(p.files[0]) == [] ==> Created(p.files)[0] == EMPTY
    ensures forall line: Text :: WithRow(EMPTY, line) == WithRow(Missing, line)
  {
    if p.files[0].Present? {
      EmptyFile(limit, p.files[0]);
    }
  }

  class Recorder {
    const fileBytes: nat
    var files: Files             // the directory
    var fd: bool                 // whether fd_ is open (on the current file)
    var fileSize: nat
    var writeErrors: nat
    var script: seq<Outcome>     // the operating system's answers to come; behind them the process dies
    ghost var written: Text
    ghost var lost: Text

    ghost function State(pc: Pc): Process
      reads this
    {
      Process(files, fd, fileSize, writeErrors, pc, written, lost)
    }

    /** The answers used up since `before`. */
    ghost function Used(before: seq<Outcome>): seq<Outcome>
      reads `script
    {
      if |script| <= |before| then before[..|before| - |script|] else []
    }

    /** The steps from `p` on have led here. */
    ghost predicate Reached(p: Process, before: seq<Outcome>, pc: Pc)
      reads this
    {
      && |script| <= |before| && script == before[|before| - |script|..]
      && Run(fileBytes, p, Used(before)) == State(pc)
    }

    /** ... or to a failed call, of which WriteError is still to take note. */
    ghost predicate Refused(p: Process, before: seq<Outcome>)
      reads this
    {
      && |script| <= |before| && script == before[|before| - |script|..]
      && Run(fileBytes, p, Used(before)) == Fail(State(Idle))
    }

    /** ... or to a file too full for the row, which Rotate is still to close. */
    ghost predicate Rotating(p: Process, before: seq<Outcome>, line: Text)
      reads this
    {
      && |script| <= |before| && script == before[|before| - |script|..]
      && Run(fileBytes, p, Used(before)) == State(Unlink(line)).(fd := false)
    }

    ghost predicate Answers(p: Process, before: seq<Outcome>, reply: Reply, pc: Pc)
      reads this
    {
      match reply
      case Yes => Reached(p, before, pc)
      case No => Refused(p, before)
      case Dead => script == [] && !pc.Idle? && Reached(p, before, pc)
    }

    method Ask() returns (o: Outcome)
      requires script != []
      modifies this`script
      ensures o == old(script)[0] && script == old(script)[1..]
    {
      o := script[0];
      script := script[1..];
    }

    /** The step that the next answer leads to. */
    lemma OneMore(p: Process, before: seq<Outcome>, pc: Pc)
      requires Reached(p, before, pc) && script != [] && !pc.Idle? && Ready(State(pc))
      ensures Run(fileBytes, p, before[..|before| - |script| + 1]) == Turn(fileBytes, State(pc), script[0])
      ensures script[1..] == before[|before| - |script| + 1..]
    {
      NextAnswer(fileBytes, p, before, script, State(pc));
    }

    method UnlinkOldest(ghost p: Process, ghost before: seq<Outcome>, ghost line: Text)
        returns (reply: Reply, ghost pc: Pc)
      requires Reached(p, before, Unlink(line))
      modifies this`files, this`script, this`lost
      ensures Answers(p, before, reply, pc)
      ensures reply.Yes? ==> pc == Rename(line, 2) && files == old(files)[3 := Missing]
      ensures reply.Dead? ==> pc == Unlink(line)
    {
      hide Run;
      if script == [] { return Dead, Unlink(line); }
      OneMore(p, before, Unlink(line));
      var o := Ask();
      if !o.Done? { return No, Idle; }
      lost := lost + Data(files[3]);
      files := files[3 := Missing];
      return Yes, Rename(line, 2);
    }

    method RenameOne(ghost p: Process, ghost before: seq<Outcome>, ghost line: Text, i: nat)
        returns (reply: Reply, ghost pc: Pc)
      requires i < 3 && Reached(p, before, Rename(line, i))
      modifies this`files, this`script
      ensures Answers(p, before, reply, pc)
      ensures reply.Yes? ==> files == Renamed(old(files), i)
      ensures reply.Yes? ==> pc == if i == 0 then Reopen(line) else Rename(line, i - 1)
      ensures reply.Dead? ==> pc == Rename(line, i)
    {
      hide Run;
      if script == [] { return Dead, Rename(line, i); }
      OneMore(p, before, Rename(line, i));
      var o := Ask();
      if !o.Done? { return No, Idle; }
      files := Renamed(files, i);
      return Yes, if i == 0 then Reopen(line) else Rename(line, i - 1);
    }

    /** Rotate's loop over the files. */
    method RenameAll(ghost p: Process, ghost before: seq<Outcome>, ghost line: Text)
        returns (reply: Reply, ghost pc: Pc)
      requires Reached(p, before, Rename(line, 2)) && files[3].Missing?
      modifies this`files, this`script
      ensures Answers(p, before, reply, pc)
      ensures reply.Yes? ==> pc == Reopen(line) && files == Shifted(old(files))
    {
      hide Run;
      var i := 2;
      pc := Rename(line, 2);
      while i >= 0
        invariant -1 <= i <= 2
        invariant pc == if i >= 0 then Rename(line, i) else Reopen(line)
        invariant Reached(p, before, pc)
        invariant files == Moved(old(files), i)
      {
        MovedOne(old(files), i);
        reply, pc := RenameOne(p, before, line, i);
        if !reply.Yes? { return; }
        i := i - 1;
      }
      reply := Yes;
    }

    method CreateCurrent(ghost p: Process, ghost before: seq<Outcome>, ghost line: Text)
        returns (reply: Reply, ghost pc: Pc)
      requires Reached(p, before, Reopen(line))
      modifies this`files, this`fd, this`fileSize, this`script
      ensures Answers(p, before, reply, pc)
      ensures reply.Yes? ==> pc == Restat(line) && files == Created(old(files)) && fd && fileSize == 0
    {
      hide Run;
      if script == [] { return Dead, Reopen(line); }
      OneMore(p, before, Reopen(line));
      var o := Ask();
      fileSize := 0;
      if !o.Done? { return No, Idle; }
      fd := true;
      files := Created(files);
      return Yes, Restat(line);
    }

    method StatCreated(ghost p: Process, ghost before: seq<Outcome>, ghost line: Text)
        returns (reply: Reply, ghost pc: Pc)
      requires Reached(p, before, Restat(line)) && fileSize + |line| <= fileBytes
      modifies this`fd, this`script
      ensures Answers(p, before, reply, pc)
      ensures reply.Yes? ==> pc == CrashLog.Write(line, 0) && fd == old(fd)
    {
      hide Run;
      if script == [] { return Dead, Restat(line); }
      OneMore(p, before, Restat(line));
      var o := Ask();
      if !o.Done? {
        fd := false;
        return No, Idle;
      }
      return Yes, CrashLog.Write(line, 0);
    }

    method Rotate(ghost p: Process, ghost before: seq<Outcome>, ghost line: Text)
        returns (reply: Reply, ghost pc: Pc)
      requires Rotating(p, before, line) && |line| <= fileBytes
      modifies this`files, this`fd, this`fileSize, this`script, this`lost
      ensures Answers(p, before, reply, pc)
      ensures reply.Yes? ==> pc == CrashLog.Write(line, 0) && fd && fileSize == 0
      ensures reply.Yes? ==> files == Shifted(old(files))[0 := EMPTY]
    {
      hide Run;
      fd := false;
      reply, pc := RotateClosed(p, before, line);
    }

    /** Rotate behind closing the file. */
    method RotateClosed(ghost p: Process, ghost before: seq<Outcome>, ghost line: Text)
        returns (reply: Reply, ghost pc: Pc)
      requires Reached(p, before, Unlink(line)) && !fd && |line| <= fileBytes
      modifies this`files, this`fd, this`fileSize, this`script, this`lost
      ensures Answers(p, before, reply, pc)
      ensures reply.Yes? ==> pc == CrashLog.Write(line, 0) && fd && fileSize == 0
      ensures reply.Yes? ==> files == Shifted(old(files))[0 := EMPTY]
    {
      hide Run, Reached, Refused;
      reply, pc := UnlinkOldest(p, before, line);
      if !reply.Yes? { return; }
      reply, pc := RenameAll(p, before, line);
      if !reply.Yes? { return; }
      reply, pc := CreateCurrent(p, before, line);
      if !reply.Yes? { return; }
      reply, pc := StatCreated(p, before, line);
    }

    /** The first three calls of Open. */
    method OpenCurrent(ghost p: Process, ghost before: seq<Outcome>, ghost line: Text)
        returns (reply: Reply, ghost pc: Pc)
      requires Reached(p, before, CrashLog.MakeDirectory(line)) && !fd
      modifies this`files, this`fd, this`script
      ensures Answers(p, before, reply, pc)
      ensures reply.Yes? ==> pc == Stat(line) && files == Created(old(files)) && fd
      ensures reply.No? ==> !fd
    {
      hide Run;
      if script == [] { return Dead, CrashLog.MakeDirectory(line); }
      OneMore(p, before, CrashLog.MakeDirectory(line));
      var o := Ask();
      if !o.Done? { return No, Idle; }
      if script == [] { return Dead, CrashLog.Open(line); }
      OneMore(p, before, CrashLog.Open(line));
      o := Ask();
      if !o.Done? { return No, Idle; }
      fd := true;
      files := Created(files);
      return Yes, Stat(line);
    }

    method Open(ghost p: Process, ghost before: seq<Outcome>, ghost line: Text)
        returns (reply: Reply, ghost pc: Pc)
      requires fd || (Reached(p, before, CrashLog.MakeDirectory(line)) && |line| <= fileBytes)
      modifies this`files, this`fd, this`fileSize, this`script, this`lost
      ensures old(fd) ==> reply.Yes? && State(Idle) == old(State(Idle)) && script == old(script)
      ensures !old(fd) ==> Answers(p, before, reply, pc)
      ensures !old(fd) && reply.Yes? ==> pc == CrashLog.Write(line, 0) && fd && fileSize == 0
      ensures !old(fd) && reply.Yes? ==> files == if Data(old(files)[0]) == [] then Created(old(files))
                                                  else Shifted(old(files))[0 := EMPTY]
    {
      hide Run, Reached, Refused;
      if fd { return Yes, Idle; }
      reply, pc := OpenCurrent(p, before, line);
      if !reply.Yes? { return; }
      reply, pc := StatCurrent(p, before, line);
    }

    /** A file that is not empty is rotated away. */
    method StatCurrent(ghost p: Process, ghost before: seq<Outcome>, ghost line: Text)
        returns (reply: Reply, ghost pc: Pc)
      requires Reached(p, before, Stat(line)) && fd && |line| <= fileBytes
      modifies this`files, this`fd, this`fileSize, this`script, this`lost
      ensures Answers(p, before, reply, pc)
      ensures reply.Yes? ==> pc == CrashLog.Write(line, 0) && fd && fileSize == 0
      ensures reply.Yes? ==> files == if Data(old(files)[0]) == [] then old(files) else Shifted(old(files))[0 := EMPTY]
    {
      hide Run;
      if script == [] { return Dead, Stat(line); }
      OneMore(p, before, Stat(line));
      var o := Ask();
      if !o.Done? {
        fd := false;
        return No, Idle;
      }
      fileSize := |Data(files[0])|;
      if fileSize > 0 {
        reply, pc := Rotate(p, before, line);
      } else {
        return Yes, CrashLog.Write(line, 0);
      }
    }

    /** One write call; an interrupted call leaves the offset where it is. */
    method WriteSome(ghost p: Process, ghost before: seq<Outcome>, line: Text, offset: nat)
        returns (reply: Reply, behind: nat)
      requires offset < |line| && script != [] && Reached(p, before, CrashLog.Write(line, offset))
      modifies this`files, this`script, this`written
      ensures |script| < |old(script)| && script == old(script)[1..]
      ensures !reply.Dead? && (reply.No? ==> Refused(p, before))
      ensures reply.Yes? ==> offset <= behind <= |line|
      ensures reply.Yes? ==> files == if behind == offset then old(files)
                                      else old(files)[0 := Appended(old(files)[0], line, offset, behind - offset)]
      ensures reply.Yes? && behind < |line| ==> Reached(p, before, CrashLog.Write(line, behind))
      ensures reply.Yes? && behind == |line| ==>
                Run(fileBytes, p, Used(before)) == State(Idle).(size := fileSize + |line|)
      ensures |script| <= |before| && script == before[|before| - |script|..]
    {
      hide Run;
      OneMore(p, before, CrashLog.Write(line, offset));
      var o := Ask();
      if o.Interrupted? { return Yes, offset; }
      var n := Count(o, |line| - offset);
      hide Count;
      if n == 0 { return No, offset; }
      files := files[0 := Appended(files[0], line, offset, n)];
      written := written + line[offset..offset + n];
      return Yes, offset + n;
    }

    /** The loop of Write over the pieces that the write call accepts. */
    method Append(ghost p: Process, ghost before: seq<Outcome>, line: Text)
        returns (reply: Reply, ghost pc: Pc)
      requires Reached(p, before, CrashLog.Write(line, 0)) && |line| > 0
      modifies this`files, this`fileSize, this`script, this`written
      ensures Answers(p, before, reply, pc)
      ensures reply.Yes? ==> pc == Idle && files == old(files)[0 := WithRow(old(files)[0], line)]
    {
      hide Run, Appended;
      var offset := 0;
      while offset < |line|
        invariant 0 <= offset <= |line|
        invariant offset < |line| ==> Reached(p, before, CrashLog.Write(line, offset))
        invariant offset == |line| ==> Run(fileBytes, p, Used(before)) == State(Idle).(size := fileSize + |line|)
        invariant |script| <= |before| && script == before[|before| - |script|..]
        invariant files == old(files)[0 := Partly(old(files)[0], line, offset)]
        decreases |script|
      {
        if script == [] { return Dead, CrashLog.Write(line, offset); }
        var behind;
        reply, behind := WriteSome(p, before, line, offset);
        if reply.No? { return No, Idle; }
        if behind > offset {
          PartlyMore(old(files)[0], line, offset, behind - offset);
        }
        offset := behind;
      }
      fileSize := fileSize + |line|;
      return Yes, Idle;
    }

    /** Write is called, before its first system call. */
    lemma Started(line: Text)
      requires |line| > 0
      ensures var p := Begin(fileBytes, State(Idle), line);
              if |line| > fileBytes then Refused(p, script)
              else if !fd then Reached(p, script, CrashLog.MakeDirectory(line))
              else if fileSize + |line| > fileBytes then Rotating(p, script, line)
              else Reached(p, script, CrashLog.Write(line, 0))
    {
      var p, before := Begin(fileBytes, State(Idle), line), script;
      assert before[|before| - |script|..] == before && Used(before) == [];
      assert Run(fileBytes, p, []) == p;
      hide Run;
    }

    /** What Write does before its loop: the row fits into an open file, which ends with a whole row. */
    method Prepare(ghost p: Process, ghost before: seq<Outcome>, line: Text) returns (reply: Reply, ghost pc: Pc)
      requires |line| <= fileBytes
      requires if !fd then Reached(p, before, CrashLog.MakeDirectory(line))
               else if fileSize + |line| > fileBytes then Rotating(p, before, line)
               else Reached(p, before, CrashLog.Write(line, 0))
      modifies this`files, this`fd, this`fileSize, this`script, this`lost
      ensures Answers(p, before, reply, pc)
      ensures reply.Yes? ==> pc == CrashLog.Write(line, 0)
      ensures reply.Yes? ==> files == Prepared(old(files), old(fd), old(fileSize), line)
    {
      hide Run, Reached, Refused, Rotating, Used;
      reply, pc := Open(p, before, line);
      if !reply.Yes? { return; }
      if fileSize + |line| > fileBytes {
        reply, pc := Rotate(p, before, line);
        if !reply.Yes? { return; }
      } else {
        pc := CrashLog.Write(line, 0);
      }
    }

    /** The files in front of Write's loop. */
    ghost function Prepared(fs: Files, fd: bool, size: nat, line: Text): Files {
      if fd then (if size + |line| <= fileBytes then fs else Shifted(fs)[0 := EMPTY])
      else if Data(fs[0]) == [] then Created(fs)
      else Shifted(fs)[0 := EMPTY]
    }

    lemma LoggedIs(line: Text)
      requires Inv(fileBytes, State(Idle))
      ensures var fs := Prepared(files, fd, fileSize, line);
              fs[0 := WithRow(fs[0], line)] == Logged(fileBytes, files, fd, fileSize, line)
    {
      EmptyCurrent(fileBytes, State(Idle));
      hide Inv, WithRow;
    }

    /** Write: on success the row is in the files as Logged says. */
    method Write(line: Text) returns (reply: Reply, ghost pc: Pc)
      requires IsRow(line) && Inv(fileBytes, State(Idle))
      modifies this`files, this`fd, this`fileSize, this`script, this`lost, this`written
      ensures Answers(Begin(fileBytes, old(State(Idle)), line), old(script), reply, pc)
      ensures reply.Yes? ==> pc == Idle && |line| <= fileBytes
      ensures reply.Yes? ==> files == Logged(fileBytes, old(files), old(fd), old(fileSize), line)
    {
      assert |line| > 0;
      hide IsRow, Inv, Begin, Reached, Refused, Rotating, Run, Logged, Prepared, WithRow;
      ghost var p, before := Begin(fileBytes, State(Idle), line), script;
      Started(line);
      LoggedIs(line);
      if |line| > fileBytes { return No, Idle; }
      reply, pc := Prepare(p, before, line);
      if !reply.Yes? { return; }
      reply, pc := Append(p, before, line);
    }

    method WriteError()
      modifies this`fd, this`writeErrors
      ensures State(Idle) == Fail(old(State(Idle)))
    {
      writeErrors := writeErrors + 1;
      fd := false;
    }

    /** What Run does with a row. Whether the calls work, fail or end with the process dying, the log
        stays within its invariant and has taken the steps of CrashLog; each row is written whole or
        counted as an error. */
    method Log(line: Text) returns (reply: Reply, ghost pc: Pc)
      requires IsRow(line) && Inv(fileBytes, State(Idle))
      modifies this`files, this`fd, this`fileSize, this`writeErrors, this`script, this`lost, this`written
      ensures Inv(fileBytes, State(pc))
      ensures Reached(Begin(fileBytes, old(State(Idle)), line), old(script), pc)
      ensures if reply.Dead? then script == [] && !pc.Idle? else pc == Idle
      ensures writeErrors == old(writeErrors) + if reply.No? then 1 else 0
      ensures reply.Yes? ==> files == Logged(fileBytes, old(files), old(fd), old(fileSize), line)
    {
      ghost var p, before := Begin(fileBytes, State(Idle), line), script;
      hide Inv, Run, Logged, Begin, IsRow, Used;
      BeginKeeps(fileBytes, State(Idle), line);
      reply, pc := Write(line);
      if reply.No? {
        WriteError();
        pc := Idle;
      }
      RunKeeps(fileBytes, p, Used(before));
    }
  }
}
