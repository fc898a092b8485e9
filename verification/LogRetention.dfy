/** How much of its past the row log keeps: it rotates only when it must (src/lidar_state_recorder.cpp,
    Open, Rotate and Write). */
module LogRetention {
  import opened Bytes
  import opened CrashLog
  import opened RowFates

  /* ---- one step ---- */

  /** A rotation begins exactly when a row does not fit behind the current file, or when a file that was
      left with bytes in it is opened. */
  lemma RotatesExactly(limit: nat, p: Process, a: Step)
    requires Inv(limit, p) && Enabled(p, a) && !p.pc.Unlink?
    ensures Take(limit, p, a).pc.Unlink? <==>
            || (a.Call? && p.fd && |a.line| <= limit && |Data(p.files[0])| + |a.line| > limit)
            || (a == Answer(Done) && p.pc.Stat? && Data(p.files[0]) != [])
  {
    hide FileOk, Joined, IsRow;
  }

  /** Bytes are given up only with the oldest of the four files, when a rotation removes it. */
  lemma RemovesExactly(limit: nat, p: Process, a: Step)
    requires Inv(limit, p) && Enabled(p, a)
    ensures Take(limit, p, a).lost
            == if a == Answer(Done) && p.pc.Unlink? then p.lost + Data(p.files[3]) else p.lost
  {
    hide FileOk, Joined, IsRow;
  }

  /* ---- runs in which nothing fails ---- */

  function Kept(f: File): seq<File> {
    if Data(f) == [] then [] else [f]
  }

  /** The files with something in them, from the oldest to the newest. */
  function Live(fs: Files): seq<File> {
    Kept(fs[3]) + Kept(fs[2]) + Kept(fs[1]) + Kept(fs[0])
  }

  /** The first row of a file. */
  function First(f: File): Text {
    if f.Present? && f.pieces != [] && f.pieces[0].Row? then f.pieces[0].line else []
  }

  /** The file had no room for the first row of the next one. */
  predicate NoRoom(limit: nat, live: seq<File>, k: nat)
    requires k + 1 < |live|
  {
    |Data(live[k])| + |First(live[k + 1])| > limit
  }

  predicate Packed(limit: nat, live: seq<File>) {
    forall k: nat :: k + 1 < |live| ==> NoRoom(limit, live, k)
  }

  /** The newest file has no room for the row. */
  predicate Full(limit: nat, live: seq<File>, line: Text) {
    live != [] ==> |Data(live[|live| - 1])| + |line| > limit
  }

  /** The row that waits for an empty file. */
  predicate Waits(p: Process) {
    || p.pc.Unlink? || p.pc.Rename? || p.pc.Reopen? || p.pc.Restat?
    || (p.pc.Write? && Data(p.files[0]) == [])
  }

  predicate Unopened(p: Process) {
    p.pc.MakeDirectory? || p.pc.Open? || p.pc.Stat? || (p.pc.Idle? && !p.fd)
  }

  predicate Filled(fs: Files, i: nat) {
    i < 4 && Data(fs[i]) != []
  }

  /** Where the files with something in them are: in front, but for the place that a rotation has just
      made free. */
  predicate Placed(p: Process) {
    var fs := p.files;
    match p.pc
    case Unlink(_) => (Filled(fs, 3) ==> Filled(fs, 2)) && (Filled(fs, 2) ==> Filled(fs, 1)) && Filled(fs, 0)
    case Rename(_, i) =>
      && Filled(fs, 0) && !Filled(fs, i + 1)
      && (if i == 2 then Filled(fs, 2) ==> Filled(fs, 1)
          else if i == 1 then Filled(fs, 3) ==> Filled(fs, 1)
          else Filled(fs, 3) ==> Filled(fs, 2))
    case Reopen(_) => (Filled(fs, 3) ==> Filled(fs, 2)) && (Filled(fs, 2) ==> Filled(fs, 1)) && !Filled(fs, 0)
    case _ =>
      && (Filled(fs, 3) ==> Filled(fs, 2)) && (Filled(fs, 2) ==> Filled(fs, 1))
      && (Filled(fs, 1) ==> Filled(fs, 0) || Waits(p))
  }

  predicate Dense(limit: nat, p: Process) {
    && Packed(limit, Live(p.files))
    && (Waits(p) ==> Full(limit, Live(p.files), p.pc.line))
    && (Unopened(p) ==> Live(p.files) == [])
    && Placed(p)
    && (p.lost != [] ==> |Live(p.files)| >= 3)
  }

  /* ---- every step keeps it ---- */

  lemma LiveRenamed(fs: Files, i: nat)
    requires i < 3 && !Filled(fs, i + 1)
    ensures Live(Renamed(fs, i)) == Live(fs)
  {
    assert Kept(Missing) == [] && (fs[i].Missing? ==> Kept(fs[i]) == []) && Kept(fs[i + 1]) == [];
    var a, b, c, d := Kept(fs[3]), Kept(fs[2]), Kept(fs[1]), Kept(fs[0]);
    hide Kept, Data, Filled;
    Nothing(a);
    Nothing(a + b);
    Nothing(a + b + c);
    assert i == 2 ==> [] + b == b + [];
  }

  lemma Nothing(live: seq<File>)
    ensures live + [] == live && [] + live == live
  {
  }

  lemma LiveCreated(fs: Files)
    ensures Live(Created(fs)) == Live(fs)
  {
  }

  lemma LiveUnlinked(fs: Files)
    ensures Live(fs) == Kept(fs[3]) + Live(fs[3 := Missing])
  {
    assert Kept(fs[3]) + Kept(fs[2]) + Kept(fs[1]) + Kept(fs[0])
        == Kept(fs[3]) + (Kept(fs[2]) + Kept(fs[1]) + Kept(fs[0]));
    assert [] + Kept(fs[2]) == Kept(fs[2]);
  }

  /** Taking the oldest file away. */
  lemma PackedRest(limit: nat, f: File, live: seq<File>, line: Text)
    requires Packed(limit, Kept(f) + live) && Full(limit, Kept(f) + live, line)
    ensures Packed(limit, live) && Full(limit, live, line)
  {
    var all := Kept(f) + live;
    if Data(f) == [] {
      assert all == live;
    } else {
      assert live != [] ==> all[|all| - 1] == live[|live| - 1];
      hide First, Data, Kept;
      PackedTail(limit, f, live);
    }
  }

  lemma PackedTail(limit: nat, f: File, live: seq<File>)
    requires Packed(limit, [f] + live)
    ensures Packed(limit, live)
  {
    hide First, Data;
    var all := [f] + live;
    forall k: nat | k + 1 < |live|
      ensures NoRoom(limit, live, k)
    {
      assert NoRoom(limit, all, k + 1);
      assert all[k + 1] == live[k] && all[k + 2] == live[k + 1];
    }
  }

  lemma UnlinkDense(limit: nat, p: Process)
    requires Dense(limit, p) && p.pc.Unlink?
    ensures Dense(limit, Turn(limit, p, Done))
  {
    var fs := p.files[3 := Missing];
    assert !Filled(fs, 3);
    LiveUnlinked(p.files);
    CountLive(p.files);
    CountLive(fs);
    hide Packed, Full, Live, Kept, Data;
    PackedRest(limit, p.files[3], Live(fs), p.pc.line);
    UnlinkPlaced(limit, p);
  }

  lemma UnlinkPlaced(limit: nat, p: Process)
    requires Placed(p) && p.pc.Unlink?
    ensures var fs := p.files[3 := Missing];
            && Filled(fs, 0) && (Filled(fs, 2) ==> Filled(fs, 1)) && !Filled(fs, 3) && Placed(Turn(limit, p, Done))
            && (Filled(p.files, 3) ==> Filled(fs, 2))
            && (Data(p.files[3]) != [] <==> Filled(p.files, 3))
            && (!Filled(p.files, 3) ==> Filled(fs, 1) == Filled(p.files, 1) && Filled(fs, 2) == Filled(p.files, 2))
  {
  }

  function One(b: bool): nat {
    if b then 1 else 0
  }

  lemma CountLive(fs: Files)
    ensures |Live(fs)| == One(Filled(fs, 3)) + One(Filled(fs, 2)) + One(Filled(fs, 1)) + One(Filled(fs, 0))
  {
  }

  lemma FilledRenamed(fs: Files, i: nat)
    requires i < 3 && !Filled(fs, i + 1)
    ensures var gs := Renamed(fs, i);
            && !Filled(gs, i) && (Filled(gs, i + 1) <==> Filled(fs, i))
            && forall j: nat :: j != i && j != i + 1 ==> (Filled(gs, j) <==> Filled(fs, j))
  {
  }

  lemma RenamePlaced(limit: nat, p: Process)
    requires Placed(p) && p.pc.Rename? && Ready(p)
    ensures Placed(Turn(limit, p, Done)) && !Filled(p.files, p.pc.i + 1)
  {
    FilledRenamed(p.files, p.pc.i);
    hide Renamed, Filled;
  }

  lemma RenameDense(limit: nat, p: Process)
    requires Dense(limit, p) && p.pc.Rename? && Ready(p)
    ensures Dense(limit, Turn(limit, p, Done))
  {
    LiveRenamed(p.files, p.pc.i);
    RenamePlaced(limit, p);
    hide Packed, Full, Live, Renamed, Placed;
  }

  lemma OpenDense(limit: nat, p: Process)
    requires Dense(limit, p) && Inv(limit, p)
    requires p.pc.MakeDirectory? || p.pc.Open? || p.pc.Stat? || p.pc.Reopen? || p.pc.Restat?
    ensures Dense(limit, Turn(limit, p, Done))
  {
    LiveCreated(p.files);
    CountLive(p.files);
    hide Packed, Live, FileOk, Joined, IsRow;
  }

  lemma CallDense(limit: nat, p: Process, line: Text)
    requires Dense(limit, p) && Inv(limit, p) && p.pc.Idle? && |line| <= limit
    ensures Dense(limit, Begin(limit, p, line))
  {
    CountLive(p.files);
    LastLive(p.files);
    hide Packed, Live, FileOk, Joined, IsRow;
  }

  lemma LastLive(fs: Files)
    ensures Filled(fs, 0) ==> Live(fs) != [] && Live(fs)[|Live(fs)| - 1] == fs[0]
  {
  }

  /** The first row of a file stays its first row when the file grows. */
  lemma FirstGrows(limit: nat, f: File, size: nat, line: Text, offset: nat, n: nat)
    requires FileOk(limit, f) && f.Present? && LineOk(limit, line) && WriteOk(limit, f, size, line, offset)
    requires 0 < n && offset + n <= |line|
    ensures var g := Appended(f, line, offset, n);
            && |Data(g)| == |Data(f)| + n
            && (Data(f) != [] ==> First(g) == First(f))
            && (Data(f) == [] ==> First(g) == line && offset == 0)
  {
    EmptyFile(limit, f);
    if f.data != [] {
      FilledPieces(limit, f);
    }
    hide FileOk, IsRow, Appendable;
  }

  lemma FilledPieces(limit: nat, f: File)
    requires FileOk(limit, f) && f.Present? && f.data != []
    ensures f.pieces != []
  {
  }

  lemma LiveGrown(fs: Files, g: File)
    requires Data(g) != []
    ensures var rest := Kept(fs[3]) + Kept(fs[2]) + Kept(fs[1]);
            Live(fs) == rest + Kept(fs[0]) && Live(fs[0 := g]) == rest + [g]
  {
  }

  lemma PackedGrown(limit: nat, rest: seq<File>, f: File, g: File, line: Text)
    requires Packed(limit, rest + Kept(f)) && Data(g) != []
    requires Data(f) != [] ==> First(g) == First(f)
    requires Data(f) == [] ==> First(g) == line && Full(limit, rest, line)
    ensures Packed(limit, rest + [g])
  {
    var before, after := rest + Kept(f), rest + [g];
    hide First;
    forall k: nat | k + 1 < |after|
      ensures NoRoom(limit, after, k)
    {
      assert after[k] == rest[k] == before[k];
      if k + 1 < |before| {
        assert NoRoom(limit, before, k);
      }
    }
  }

  lemma WriteDense(limit: nat, p: Process, n: nat)
    requires Dense(limit, p) && Inv(limit, p) && p.pc.Write?
    requires 0 < n && p.pc.offset + n <= |p.pc.line|
    ensures Dense(limit, Written(p, p.pc.line, p.pc.offset, n))
  {
    var line, offset, f := p.pc.line, p.pc.offset, p.files[0];
    var g, rest := Appended(f, line, offset, n), Kept(p.files[3]) + Kept(p.files[2]) + Kept(p.files[1]);
    WriteHolds(limit, p);
    FirstGrows(limit, f, p.size, line, offset, n);
    LiveGrown(p.files, g);
    WrittenPlaced(p, g);
    assert Data(f) == [] ==> Kept(f) == [] && rest + [] == rest;
    LongerLive(rest, f, g);
    WrittenShape(p, n);
    hide Inv, Appended, First, Packed, Live, Placed, FileOk, IsRow, WriteOk, Kept, Data, Appendable, Written;
    PackedGrown(limit, rest, f, g, line);
  }

  lemma WrittenShape(p: Process, n: nat)
    requires p.pc.Write? && p.pc.offset + n <= |p.pc.line|
    ensures var q := Written(p, p.pc.line, p.pc.offset, n);
            && q.files == p.files[0 := Appended(p.files[0], p.pc.line, p.pc.offset, n)]
            && q.lost == p.lost && q.fd == p.fd && (q.pc.Idle? || q.pc.Write?)
  {
    hide Appended;
  }

  lemma LongerLive(rest: seq<File>, f: File, g: File)
    ensures |rest + Kept(f)| <= |rest + [g]|
  {
  }

  /** Once something of a row is written, the current file has something in it. */
  lemma WrittenPlaced(p: Process, g: File)
    requires Placed(p) && p.pc.Write? && Data(g) != []
    ensures forall q: Process :: q.files == p.files[0 := g] && (q.pc.Idle? || q.pc.Write?) ==> Placed(q) && !Waits(q)
  {
  }

  lemma WriteHolds(limit: nat, p: Process)
    requires Inv(limit, p) && p.pc.Write?
    ensures p.fd && p.files[0].Present? && FileOk(limit, p.files[0]) && LineOk(limit, p.pc.line)
    ensures WriteOk(limit, p.files[0], p.size, p.pc.line, p.pc.offset)
  {
    hide FileOk, Joined, IsRow;
  }

  /** A step in which no error is counted and the process does not die. */
  lemma StepDense(limit: nat, p: Process, a: Step)
    requires Dense(limit, p) && Inv(limit, p) && Enabled(p, a)
    requires a != Die && Take(limit, p, a).errors == p.errors
    ensures Dense(limit, Take(limit, p, a))
  {
    hide Dense, Inv;
    if a.Call? {
      CallDense(limit, p, a.line);
    } else if p.pc.Write? {
      hide Written;
      var n := Count(a.o, |p.pc.line| - p.pc.offset);
      if !a.o.Interrupted? {
        WriteDense(limit, p, n);
      }
    } else {
      assert a.o == Done;
      if p.pc.Unlink? {
        UnlinkDense(limit, p);
      } else if p.pc.Rename? {
        RenameDense(limit, p);
      } else {
        OpenDense(limit, p);
      }
    }
  }

  lemma StepCounts(limit: nat, p: Process, a: Step)
    requires Enabled(p, a) && a != Die
    ensures Take(limit, p, a).errors >= p.errors
  {
  }

  lemma {:induction false} PlayCounts(limit: nat, p: Process, steps: seq<Step>)
    requires Schedule(limit, p, steps) && Alive(steps)
    ensures Play(limit, p, steps).errors >= p.errors
    decreases |steps|
  {
    hide Enabled, Take;
    if steps != [] {
      StepCounts(limit, p, steps[0]);
      PlayCounts(limit, Take(limit, p, steps[0]), steps[1..]);
    }
  }

  lemma {:induction false} PlayDense(limit: nat, p: Process, steps: seq<Step>)
    requires Dense(limit, p) && Inv(limit, p) && Schedule(limit, p, steps) && Alive(steps)
    requires Play(limit, p, steps).errors == p.errors
    ensures Dense(limit, Play(limit, p, steps))
    decreases |steps|
  {
    hide Dense, Inv, Enabled, Take;
    if steps != [] {
      var q := Take(limit, p, steps[0]);
      StepCounts(limit, p, steps[0]);
      PlayCounts(limit, q, steps[1..]);
      StepDense(limit, p, steps[0]);
      StepKeeps(limit, p, steps[0]);
      PlayDense(limit, q, steps[1..]);
    }
  }

  /** What the log keeps. From an empty directory, as long as no error has been counted and the process
      lives: no file but the newest had room for the first row of the file after it, and once anything has
      been given up, at least three files have something in them. */
  lemma KeepsFullFiles(limit: nat, start: Process, steps: seq<Step>)
    requires Initial(start) && start.files == [Missing, Missing, Missing, Missing]
    requires Schedule(limit, start, steps) && Alive(steps) && Play(limit, start, steps).errors == 0
    ensures var p := Play(limit, start, steps);
            && (forall k: nat :: k + 1 < |Live(p.files)| ==> NoRoom(limit, Live(p.files), k))
            && (p.lost != [] ==> |Live(p.files)| >= 3)
  {
    InitialInv(limit, start);
    assert Dense(limit, start);
    hide Inv, Schedule, Play, Alive, Live, First;
    PlayDense(limit, start, steps);
  }
}
