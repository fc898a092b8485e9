/** The rotating row log of the state recorder (src/lidar_state_recorder.cpp, Open, Rotate, Write
    and WriteError), one system call at a time, so that every call may fail and the process may
    die between any two of them. */
module CrashLog {
  import opened Bytes

  /** What Serialize produces: one line, ended by the only newline in it. */
  predicate IsRow(line: Text) {
    |line| > 0 && line[|line| - 1] == LF && forall k :: 0 <= k < |line| - 1 ==> line[k] != LF
  }

  /** A piece of a file: a row of which the first `done` bytes reached the file, or what the file
      held before the first recorder came. */
  datatype Piece = Row(line: Text, done: nat) | Foreign(bytes: Text)

  predicate Sound(a: Piece) {
    if a.Row? then IsRow(a.line) && 0 < a.done <= |a.line| else a.bytes != []
  }

  predicate Whole(a: Piece) {
    a.Row? && a.done == |a.line|
  }

  function Shown(a: Piece): Text {
    if a.Foreign? then a.bytes else if a.done <= |a.line| then a.line[..a.done] else a.line
  }

  function Flat(pieces: seq<Piece>): Text {
    if pieces == [] then [] else Flat(pieces[..|pieces| - 1]) + Shown(pieces[|pieces| - 1])
  }

  /** A file's bytes, and as history the pieces they came in. */
  datatype File = Missing | Present(data: Text, pieces: seq<Piece>)

  function Data(f: File): Text {
    if f.Present? then f.data else []
  }

  const EMPTY := Present([], [])

  /** Where the writer thread is: the system call it is about to make for `line`. */
  datatype Pc =
    | Idle
    | MakeDirectory(line: Text)
    | Open(line: Text)
    | Stat(line: Text)
    | Unlink(line: Text)              // Rotate: path.3
    | Rename(line: Text, i: nat)      // Rotate: path.i to path.(i+1), path.0 being the current file
    | Reopen(line: Text)
    | Restat(line: Text)
    | Write(line: Text, offset: nat)

  /** How the operating system answers. For Unlink and Rename, Done covers a missing file (ENOENT). */
  datatype Outcome = Done | Failed | Interrupted | Wrote(count: nat)

  /** path, path.1, path.2 and path.3 */
  type Files = fs: seq<File> | |fs| == 4 witness [Missing, Missing, Missing, Missing]

  /** `written` (all bytes given to the log so far) and `lost` (those removed with an old file) are
      history. */
  datatype Process = Process(
    files: Files, fd: bool, size: nat, errors: nat, pc: Pc, written: Text, lost: Text)

  /** The files' bytes in order of age. */
  function Joined(fs: Files): Text {
    Data(fs[3]) + Data(fs[2]) + Data(fs[1]) + Data(fs[0])
  }

  /* ---- the system calls ---- */

  function Fail(p: Process): Process {
    p.(errors := p.errors + 1, fd := false, pc := Idle)
  }

  function Created(fs: Files): Files {
    if fs[0].Missing? then fs[0 := EMPTY] else fs
  }

  function Renamed(fs: Files, i: nat): Files
    requires i < 3
  {
    if fs[i].Missing? then fs else fs[i + 1 := fs[i]][i := Missing]
  }

  /** The pieces of a file to which `n` bytes of the line are appended, from `offset` on. */
  function Grown(pieces: seq<Piece>, line: Text, offset: nat, n: nat): seq<Piece> {
    (if offset == 0 || pieces == [] then pieces else pieces[..|pieces| - 1]) + [Row(line, offset + n)]
  }

  function Appended(f: File, line: Text, offset: nat, n: nat): File
    requires offset + n <= |line|
  {
    Present(Data(f) + line[offset..offset + n], Grown(if f.Present? then f.pieces else [], line, offset, n))
  }

  /** How many bytes a write call accepts; 0 stands for any error. */
  function Count(o: Outcome, left: nat): (n: nat)
    ensures n <= left
  {
    match o
    case Done => left
    case Wrote(n) => if n <= left then n else left
    case _ => 0
  }

  predicate Ready(p: Process) {
    && (p.pc.Rename? ==> p.pc.i < 3)
    && (p.pc.Write? ==> p.pc.offset < |p.pc.line|)
  }

  function WriteTurn(p: Process, line: Text, offset: nat, o: Outcome): Process
    requires offset < |line|
  {
    var n := Count(o, |line| - offset);
    if o.Interrupted? then p
    else if n == 0 then Fail(p)
    else Written(p, line, offset, n)
  }

  /** Behind `n` more bytes of the line. */
  function Written(p: Process, line: Text, offset: nat, n: nat): Process
    requires offset + n <= |line|
  {
    var q := p.(files := p.files[0 := Appended(p.files[0], line, offset, n)],
                written := p.written + line[offset..offset + n]);
    if offset + n == |line| then q.(size := q.size + |line|, pc := Idle) else q.(pc := Write(line, offset + n))
  }

  /** Write after Open has returned true. */
  function Opened(limit: nat, p: Process, line: Text): Process {
    if p.size + |line| > limit then p.(fd := false, pc := Unlink(line)) else p.(pc := Write(line, 0))
  }

  /** Write is called. */
  function Begin(limit: nat, p: Process, line: Text): Process {
    if |line| > limit then Fail(p)
    else if p.fd then Opened(limit, p, line)
    else p.(pc := MakeDirectory(line))
  }

  /** One system call. */
  function Turn(limit: nat, p: Process, o: Outcome): Process
    requires Ready(p) && !p.pc.Idle?
  {
    match p.pc
    case Write(line, offset) => WriteTurn(p, line, offset, o)
    case MakeDirectory(line) => if o.Done? then p.(pc := Open(line)) else Fail(p)
    case Open(line) => if o.Done? then p.(files := Created(p.files), fd := true, pc := Stat(line)) else Fail(p)
    case Stat(line) =>
      if !o.Done? then Fail(p)
      else
        var q := p.(size := |Data(p.files[0])|);
        if q.size > 0 then q.(fd := false, pc := Unlink(line)) else Opened(limit, q, line)
    case Unlink(line) =>
      if o.Done? then p.(files := p.files[3 := Missing], lost := p.lost + Data(p.files[3]), pc := Rename(line, 2))
      else Fail(p)
    case Rename(line, i) =>
      if o.Done? then p.(files := Renamed(p.files, i), pc := if i == 0 then Reopen(line) else Rename(line, i - 1))
      else Fail(p)
    case Reopen(line) =>
      if o.Done? then p.(files := Created(p.files), fd := true, size := 0, pc := Restat(line))
      else Fail(p.(size := 0))
    case Restat(line) => if o.Done? then Opened(limit, p, line) else Fail(p)
  }

  /* ---- runs ---- */

  datatype Step =
    | Call(line: Text)    // Write is called with a serialised row
    | Answer(o: Outcome)  // the operating system answers the pending call
    | Die                 // the process is killed; a new one starts with no file open

  predicate Enabled(p: Process, a: Step) {
    match a
    case Call(line) => p.pc.Idle? && IsRow(line)
    case Answer(_) => !p.pc.Idle? && Ready(p)
    case Die => true
  }

  function Take(limit: nat, p: Process, a: Step): Process
    requires Enabled(p, a)
  {
    match a
    case Call(line) => Begin(limit, p, line)
    case Answer(o) => Turn(limit, p, o)
    case Die => p.(fd := false, size := 0, errors := 0, pc := Idle)
  }

  predicate Schedule(limit: nat, p: Process, steps: seq<Step>)
    decreases |steps|
  {
    steps == [] || (Enabled(p, steps[0]) && Schedule(limit, Take(limit, p, steps[0]), steps[1..]))
  }

  function Play(limit: nat, p: Process, steps: seq<Step>): Process
    requires Schedule(limit, p, steps)
    decreases |steps|
  {
    if steps == [] then p else Play(limit, Take(limit, p, steps[0]), steps[1..])
  }

  /** A recorder comes to a directory that may hold anything. */
  function Found(data: Text): File {
    Present(data, if data == [] then [] else [Foreign(data)])
  }

  predicate AsFound(f: File) {
    f.Missing? || f == Found(f.data)
  }

  predicate Initial(p: Process) {
    && p == Process(p.files, false, 0, 0, Idle, Joined(p.files), [])
    && forall i :: 0 <= i < 4 ==> AsFound(p.files[i])
  }

  /* ---- what every step keeps ---- */

  predicate AllSound(pieces: seq<Piece>) {
    forall k :: 0 <= k < |pieces| ==> Sound(pieces[k])
  }

  predicate AllWhole(pieces: seq<Piece>) {
    forall k :: 0 <= k < |pieces| ==> Whole(pieces[k])
  }

  /** Whole rows, but the last one may be torn. */
  predicate LastTorn(pieces: seq<Piece>) {
    pieces == [] || AllWhole(pieces[..|pieces| - 1])
  }

  predicate IsForeign(f: File) {
    f.Present? && |f.pieces| > 0 && f.pieces[|f.pieces| - 1].Foreign?
  }

  predicate FileOk(limit: nat, f: File) {
    f.Present? ==>
      && AllSound(f.pieces)
      && f.data == Flat(f.pieces)
      && LastTorn(f.pieces)
      && (!IsForeign(f) ==> |f.data| <= limit)
  }

  predicate LineOk(limit: nat, line: Text) {
    IsRow(line) && 0 < |line| <= limit
  }

  /** A row may be appended: the file ends with a whole row. */
  predicate Appendable(limit: nat, f: File, size: nat) {
    f.Present? && AllWhole(f.pieces) && size == |f.data| <= limit
  }

  predicate WriteOk(limit: nat, f: File, size: nat, line: Text, offset: nat) {
    && offset < |line| && size + |line| <= limit
    && if offset == 0 then Appendable(limit, f, size)
       else f.Present? && |f.pieces| > 0 && f.pieces[|f.pieces| - 1] == Row(line, offset) && |f.data| == size + offset
  }

  predicate PcOk(limit: nat, p: Process) {
    match p.pc
    case Idle => p.fd ==> Appendable(limit, p.files[0], p.size)
    case MakeDirectory(line) => !p.fd && LineOk(limit, line)
    case Open(line) => !p.fd && LineOk(limit, line)
    case Stat(line) => p.fd && LineOk(limit, line) && p.files[0].Present?
    case Unlink(line) => !p.fd && LineOk(limit, line)
    case Rename(line, i) => !p.fd && LineOk(limit, line) && i < 3 && p.files[i + 1].Missing?
    case Reopen(line) => !p.fd && LineOk(limit, line) && p.files[0].Missing?
    case Restat(line) => p.fd && LineOk(limit, line) && p.files[0] == EMPTY && p.size == 0
    case Write(line, offset) => p.fd && LineOk(limit, line) && WriteOk(limit, p.files[0], p.size, line, offset)
  }

  predicate FilesOk(limit: nat, fs: Files) {
    FileOk(limit, fs[0]) && FileOk(limit, fs[1]) && FileOk(limit, fs[2]) && FileOk(limit, fs[3])
  }

  ghost predicate Inv(limit: nat, p: Process) {
    && p.written == p.lost + Joined(p.files)
    && FilesOk(limit, p.files)
    && PcOk(limit, p)
  }

  lemma FlatSnoc(pieces: seq<Piece>, a: Piece)
    ensures Flat(pieces + [a]) == Flat(pieces) + Shown(a)
  {
    assert (pieces + [a])[..|pieces|] == pieces;
  }

  predicate EndsWith(pieces: seq<Piece>, line: Text, offset: nat) {
    offset > 0 ==> |pieces| > 0 && pieces[|pieces| - 1] == Row(line, offset)
  }

  lemma ShownMore(line: Text, offset: nat, n: nat)
    requires offset + n <= |line|
    ensures Shown(Row(line, offset + n)) == Shown(Row(line, offset)) + line[offset..offset + n]
  {
  }

  lemma GrownFlat(pieces: seq<Piece>, line: Text, offset: nat, n: nat)
    requires offset + n <= |line| && EndsWith(pieces, line, offset)
    ensures Flat(Grown(pieces, line, offset, n)) == Flat(pieces) + line[offset..offset + n]
  {
    hide Flat, Shown;
    ShownMore(line, offset, n);
    if offset == 0 {
      FlatSnoc(pieces, Row(line, n));
      NothingShown(line);
    } else {
      var kept := pieces[..|pieces| - 1];
      FlatSnoc(kept, Row(line, offset + n));
      FlatSnoc(kept, Row(line, offset));
      assert kept + [Row(line, offset)] == pieces;
      Associative(Flat(kept), Shown(Row(line, offset)), line[offset..offset + n]);
    }
  }

  lemma NothingShown(line: Text)
    ensures forall t: Text :: Shown(Row(line, 0)) + t == t
  {
  }

  lemma GrownPieces(pieces: seq<Piece>, line: Text, offset: nat, n: nat)
    requires AllSound(pieces) && EndsWith(pieces, line, offset)
    requires IsRow(line) && 0 < n && offset + n <= |line|
    requires if offset == 0 then AllWhole(pieces) else LastTorn(pieces)
    ensures var g := Grown(pieces, line, offset, n);
            && AllSound(g) && LastTorn(g) && |g| > 0 && g[|g| - 1] == Row(line, offset + n)
            && (offset + n == |line| ==> AllWhole(g))
  {
    hide IsRow;
    var g := Grown(pieces, line, offset, n);
    var kept := g[..|g| - 1];
    assert kept == if offset == 0 then pieces else pieces[..|pieces| - 1];
    assert forall k :: 0 <= k < |g| - 1 ==> g[k] == kept[k];
  }

  /** A chunk of the pending row leaves the file in order, in the middle of the row or behind it. */
  lemma AppendedOk(limit: nat, f: File, size: nat, line: Text, offset: nat, n: nat)
    requires FileOk(limit, f) && LineOk(limit, line) && WriteOk(limit, f, size, line, offset)
    requires 0 < n && offset + n <= |line|
    ensures var g := Appended(f, line, offset, n);
            && FileOk(limit, g) && Data(g) == Data(f) + line[offset..offset + n]
            && (offset + n < |line| ==> WriteOk(limit, g, size, line, offset + n))
            && (offset + n == |line| ==> Appendable(limit, g, size + |line|))
  {
    GrownFlat(f.pieces, line, offset, n);
    GrownPieces(f.pieces, line, offset, n);
    hide Flat, IsRow, AllSound, AllWhole, LastTorn, Grown;
  }

  lemma JoinedAppend(fs: Files, f: File, chunk: Text)
    requires Data(f) == Data(fs[0]) + chunk
    ensures Joined(fs[0 := f]) == Joined(fs) + chunk
  {
    Associative(Data(fs[3]) + Data(fs[2]) + Data(fs[1]), Data(fs[0]), chunk);
  }

  lemma ChunkKeeps(limit: nat, p: Process, line: Text, offset: nat, n: nat)
    requires Inv(limit, p) && p.pc == Write(line, offset) && 0 < n && offset + n <= |line|
    ensures Inv(limit, Written(p, line, offset, n))
  {
    hide FileOk, WriteOk, Appendable, Appended, LineOk, Joined;
    var f := Appended(p.files[0], line, offset, n);
    AppendedOk(limit, p.files[0], p.size, line, offset, n);
    var chunk := line[offset..offset + n];
    JoinedAppend(p.files, f, chunk);
    Associative(p.lost, Joined(p.files), chunk);
    var fs := p.files[0 := f];
    assert FilesOk(limit, fs);
  }

  lemma FailKeeps(limit: nat, p: Process)
    requires Inv(limit, p)
    ensures Inv(limit, Fail(p))
  {
    hide Joined, FileOk, LineOk, WriteOk, Appendable;
  }

  lemma PcReady(limit: nat, p: Process)
    requires Inv(limit, p)
    ensures Ready(p)
  {
    hide FileOk, Joined, IsRow, Appendable;
  }

  lemma WriteKeeps(limit: nat, p: Process, o: Outcome)
    requires Inv(limit, p) && p.pc.Write?
    ensures p.pc.offset < |p.pc.line| && Inv(limit, WriteTurn(p, p.pc.line, p.pc.offset, o))
  {
    hide Inv, Written, Count, Fail;
    PcReady(limit, p);
    var line, offset := p.pc.line, p.pc.offset;
    var n := Count(o, |line| - offset);
    WriteTurnIs(p, line, offset, o, n);
    hide WriteTurn;
    if n > 0 && !o.Interrupted? {
      ChunkKeeps(limit, p, line, offset, n);
    } else {
      FailKeeps(limit, p);
    }
  }

  lemma WriteTurnIs(p: Process, line: Text, offset: nat, o: Outcome, n: nat)
    requires offset < |line| && n == Count(o, |line| - offset)
    ensures WriteTurn(p, line, offset, o)
            == if o.Interrupted? then p else if n == 0 then Fail(p) else Written(p, line, offset, n)
  {
  }

  lemma StatKeeps(limit: nat, p: Process, o: Outcome)
    requires Inv(limit, p) && p.pc.Stat?
    ensures Inv(limit, Turn(limit, p, o))
  {
    EmptyFile(limit, p.files[0]);
    hide FileOk, IsRow, Joined;
  }

  /** A file without bytes has no torn row in it. */
  lemma EmptyFile(limit: nat, f: File)
    requires FileOk(limit, f) && f.Present?
    ensures f.data == [] ==> f == EMPTY
  {
    if f.pieces != [] {
      assert Sound(f.pieces[|f.pieces| - 1]);
    }
  }

  lemma OpenKeeps(limit: nat, p: Process, o: Outcome)
    requires Inv(limit, p) && (p.pc.MakeDirectory? || p.pc.Open? || p.pc.Reopen? || p.pc.Restat?)
    ensures Inv(limit, Turn(limit, p, o))
  {
    EmptyOk(limit);
    CreatedJoined(p.files);
    hide FileOk, IsRow, Joined;
  }

  lemma CreatedJoined(fs: Files)
    ensures Joined(Created(fs)) == Joined(fs)
  {
  }

  lemma EmptyOk(limit: nat)
    ensures FileOk(limit, EMPTY) && FileOk(limit, Missing)
  {
  }

  lemma UnlinkedJoined(fs: Files)
    ensures Joined(fs) == Data(fs[3]) + Joined(fs[3 := Missing])
  {
    Associative(Data(fs[3]), Data(fs[2]), Data(fs[1]));
    Associative(Data(fs[3]), Data(fs[2]) + Data(fs[1]), Data(fs[0]));
    assert Data(Missing) + Data(fs[2]) == Data(fs[2]);
  }

  lemma UnlinkKeeps(limit: nat, p: Process, o: Outcome)
    requires Inv(limit, p) && p.pc.Unlink?
    ensures Inv(limit, Turn(limit, p, o))
  {
    EmptyOk(limit);
    UnlinkedJoined(p.files);
    Associative(p.lost, Data(p.files[3]), Joined(p.files[3 := Missing]));
    hide FileOk, LineOk, Joined;
  }

  /** The place a file is moved to is always free, so moving it changes no byte. */
  lemma RenamedJoined(fs: Files, i: nat)
    requires i < 3 && fs[i + 1].Missing?
    ensures Joined(Renamed(fs, i)) == Joined(fs)
  {
  }

  lemma RenamedOk(limit: nat, fs: Files, i: nat)
    requires i < 3 && FilesOk(limit, fs)
    ensures FilesOk(limit, Renamed(fs, i)) && Renamed(fs, i)[i].Missing?
  {
    EmptyOk(limit);
    hide FileOk;
  }

  lemma RenameKeeps(limit: nat, p: Process, o: Outcome)
    requires Inv(limit, p) && p.pc.Rename?
    ensures Inv(limit, Turn(limit, p, o))
  {
    hide FilesOk, LineOk, Joined, Renamed, Appendable, WriteOk;
    if o.Done? {
      RenamedJoined(p.files, p.pc.i);
      RenamedOk(limit, p.files, p.pc.i);
    }
  }

  lemma TurnKeeps(limit: nat, p: Process, o: Outcome)
    requires Inv(limit, p) && !p.pc.Idle?
    ensures Ready(p) && Inv(limit, Turn(limit, p, o))
  {
    hide FileOk, Joined, IsRow, Appendable;
    if p.pc.Write? {
      WriteKeeps(limit, p, o);
    } else if p.pc.Stat? {
      StatKeeps(limit, p, o);
    } else if p.pc.Unlink? {
      UnlinkKeeps(limit, p, o);
    } else if p.pc.Rename? {
      RenameKeeps(limit, p, o);
    } else {
      OpenKeeps(limit, p, o);
    }
    hide Inv;
  }

  lemma BeginKeeps(limit: nat, p: Process, line: Text)
    requires Inv(limit, p) && p.pc.Idle? && IsRow(line)
    ensures Inv(limit, Begin(limit, p, line))
  {
    assert |line| > 0;
    hide IsRow;
    FailKeeps(limit, p);
    hide FilesOk, Joined, Appendable;
  }

  lemma StepKeeps(limit: nat, p: Process, a: Step)
    requires Inv(limit, p) && Enabled(p, a)
    ensures Inv(limit, Take(limit, p, a))
  {
    hide FileOk, Joined, IsRow, Appendable;
    if a.Answer? {
      TurnKeeps(limit, p, a.o);
    } else if a.Call? {
      BeginKeeps(limit, p, a.line);
    }
  }

  lemma {:induction false} PlayKeeps(limit: nat, p: Process, steps: seq<Step>)
    requires Inv(limit, p) && Schedule(limit, p, steps)
    ensures Inv(limit, Play(limit, p, steps))
    decreases |steps|
  {
    if steps != [] {
      StepKeeps(limit, p, steps[0]);
      PlayKeeps(limit, Take(limit, p, steps[0]), steps[1..]);
    }
  }

  lemma InitialInv(limit: nat, p: Process)
    requires Initial(p)
    ensures Inv(limit, p)
  {
    FoundAt(limit, p, 0);
    FoundAt(limit, p, 1);
    FoundAt(limit, p, 2);
    FoundAt(limit, p, 3);
    hide FileOk, AsFound, Joined;
    assert [] + Joined(p.files) == Joined(p.files);
  }

  lemma FoundAt(limit: nat, p: Process, i: nat)
    requires Initial(p) && i < 4
    ensures FileOk(limit, p.files[i])
  {
    FoundOk(limit, p.files[i]);
    hide FileOk, AsFound, Joined;
  }

  lemma FoundOk(limit: nat, f: File)
    requires AsFound(f)
    ensures FileOk(limit, f)
  {
    if f.Present? && f.data != [] {
      FlatSnoc([], Foreign(f.data));
      assert [] + [Foreign(f.data)] == f.pieces;
    }
  }

  /** The crash tolerance of the log. Whatever the directory held, whichever calls fail or write only
      a part, and wherever the process dies: the files, from the oldest to the current one, hold a
      suffix of the bytes written, in order; a file the recorder wrote is whole rows and at most one
      torn row, which is its last, and it is no longer than the limit. */
  lemma CrashTolerant(limit: nat, start: Process, steps: seq<Step>, i: nat)
    requires Initial(start) && Schedule(limit, start, steps) && i < 4
    ensures var p := Play(limit, start, steps);
            && p.written == p.lost + Joined(p.files)
            && (p.files[i].Present? && !IsForeign(p.files[i]) ==>
                  && |p.files[i].data| <= limit
                  && p.files[i].data == Flat(p.files[i].pieces)
                  && AllSound(p.files[i].pieces) && LastTorn(p.files[i].pieces))
  {
    InitialInv(limit, start);
    PlayKeeps(limit, start, steps);
    InvGives(limit, Play(limit, start, steps), i);
    hide Play, Initial, Joined, Schedule, Inv;
  }

  lemma InvGives(limit: nat, p: Process, i: nat)
    requires Inv(limit, p) && i < 4
    ensures p.written == p.lost + Joined(p.files) && FileOk(limit, p.files[i])
  {
    hide FileOk, PcOk, Joined;
  }

  /* ---- what a reader of a file sees ---- */

  /** A file split at its newlines: the complete lines, and what is left behind the last newline. */
  datatype Split = Split(lines: seq<Text>, rest: Text)

  function Lines(data: Text): Split {
    if data == [] then Split([], [])
    else
      var before := Lines(data[..|data| - 1]);
      var c := data[|data| - 1];
      if c == LF then Split(before.lines + [before.rest + [c]], []) else before.(rest := before.rest + [c])
  }

  lemma LinesSnoc(data: Text, c: Byte)
    requires c != LF
    ensures Lines(data + [c]) == Lines(data).(rest := Lines(data).rest + [c])
  {
    assert (data + [c])[..|data|] == data;
  }

  lemma {:induction false} LinesWithin(data: Text, part: Text)
    requires forall k :: 0 <= k < |part| ==> part[k] != LF
    ensures Lines(data + part) == Lines(data).(rest := Lines(data).rest + part)
    decreases |part|
  {
    hide Lines;
    if part == [] {
      assert data + part == data;
      assert Lines(data).rest + part == Lines(data).rest;
    } else {
      var front, c := part[..|part| - 1], part[|part| - 1];
      assert part == front + [c];
      LinesWithin(data, front);
      LinesSnoc(data + front, c);
      Associative(data, front, [c]);
      Associative(Lines(data).rest, front, [c]);
    }
  }

  lemma LinesRow(data: Text, line: Text)
    requires IsRow(line)
    ensures Lines(data + line) == Split(Lines(data).lines + [Lines(data).rest + line], [])
  {
    hide Lines;
    var front := line[..|line| - 1];
    assert line == front + [LF];
    LinesWithin(data, front);
    LinesNewline(data + front);
    hide IsRow;
    Associative(data, front, [LF]);
    Associative(Lines(data).rest, front, [LF]);
  }

  lemma LinesNewline(data: Text)
    ensures Lines(data + [LF]) == Split(Lines(data).lines + [Lines(data).rest + [LF]], [])
  {
    assert (data + [LF])[..|data|] == data;
  }

  function RowLines(pieces: seq<Piece>): seq<Text> {
    if pieces == [] then []
    else
      var front := RowLines(pieces[..|pieces| - 1]);
      if Whole(pieces[|pieces| - 1]) then front + [pieces[|pieces| - 1].line] else front
  }

  function TornPart(pieces: seq<Piece>): Text {
    if pieces == [] || Whole(pieces[|pieces| - 1]) then [] else Shown(pieces[|pieces| - 1])
  }

  /** Splitting such a file at its newlines gives back exactly the whole rows, each of them complete;
      a torn row is the rest behind the last newline and cannot be taken for a row. */
  lemma {:induction false} ReaderSeesWholeRows(pieces: seq<Piece>)
    requires AllSound(pieces) && LastTorn(pieces)
    requires pieces == [] || pieces[|pieces| - 1].Row?
    ensures Lines(Flat(pieces)) == Split(RowLines(pieces), TornPart(pieces))
    decreases |pieces|
  {
    if pieces != [] {
      var front, last := pieces[..|pieces| - 1], pieces[|pieces| - 1];
      FrontWhole(pieces);
      ReaderSeesWholeRows(front);
      assert Sound(last);
      hide LastTorn, AllSound;
      if last.done == |last.line| {
        assert Shown(last) == last.line;
        LinesRow(Flat(front), last.line);
        assert [] + last.line == last.line;
      } else {
        LinesWithin(Flat(front), Shown(last));
        assert [] + Shown(last) == Shown(last);
      }
    }
  }

  lemma FrontWhole(pieces: seq<Piece>)
    requires AllSound(pieces) && LastTorn(pieces) && pieces != []
    ensures var front := pieces[..|pieces| - 1];
            && AllSound(front) && LastTorn(front) && TornPart(front) == []
            && (front == [] || front[|front| - 1].Row?)
  {
    var front := pieces[..|pieces| - 1];
    if front != [] {
      assert Whole(front[|front| - 1]);
    }
  }
}
