/** Rows as Serialize makes them, one compact JSON document and a newline (src/lidar_state_recorder.cpp,
    Serialize): they are rows for the log, and a reader gets them back from it. */
module StateRows {
  import opened Bytes
  import opened JsonEvents
  import opened JsonWriter
  import opened JsonRoundTrip
  import JsonString
  import JsonNumber
  import opened JsonTree
  import opened StateRecord
  import R = JsonReader
  import CrashLog

  predicate OneLine(t: Text) {
    forall k :: 0 <= k < |t| ==> t[k] >= 0x20
  }

  lemma OneLineConcat(a: Text, b: Text)
    ensures OneLine(a + b) <==> OneLine(a) && OneLine(b)
  {
    assert forall k :: 0 <= k < |a| ==> (a + b)[k] == a[k];
    assert forall k :: 0 <= k < |b| ==> (a + b)[|a| + k] == b[k];
  }

  lemma {:induction false} DecimalIsOneLine(n: nat)
    ensures OneLine(JsonNumber.Decimal(n))
    decreases n
  {
    if n >= 10 {
      DecimalIsOneLine(n / 10);
    }
  }

  lemma TokenIsOneLine(e: Event)
    requires Printable(e)
    ensures OneLine(Token(e))
  {
    match e
    case String(s) => QuotedIsOneLine(s);
    case Key(s) => QuotedIsOneLine(s);
    case Int(n) => IntIsOneLine(n);
    case Uint(n) => IntIsOneLine(n);
    case Int64(n) => IntIsOneLine(n);
    case Uint64(n) => IntIsOneLine(n);
    case _ =>
  }

  lemma IntIsOneLine(n: int)
    ensures OneLine(JsonNumber.DecimalInt(n))
  {
    if n < 0 {
      DecimalIsOneLine(-n);
      OneLineConcat([MINUS], JsonNumber.Decimal(-n));
    } else {
      DecimalIsOneLine(n);
    }
  }

  lemma QuotedIsOneLine(s: Text)
    ensures OneLine(JsonString.Quoted(s))
  {
    JsonString.EscapeIsPrintable(s);
    OneLineConcat([QUOTE], JsonString.Escape(s));
    OneLineConcat([QUOTE] + JsonString.Escape(s), [QUOTE]);
  }

  /** Compact JSON has no control character in it, whatever the strings contain. */
  lemma {:induction false} CompactIsOneLine(w: Writing, tr: seq<Event>)
    requires Allowed(w, tr)
    ensures OneLine(Written(Compact, w, tr))
    decreases |tr|
  {
    if tr != [] {
      var e := tr[0];
      CompactIsOneLine(Next(w, e), tr[1..]);
      TokenIsOneLine(e);
      hide Token, Next, Accepts;
      assert OneLine(Separator(w));
      OneLineConcat([], Token(e));
      OneLineConcat(Separator(w) + [], Token(e));
      OneLineConcat(EventText(Compact, w, e), Written(Compact, Next(w, e), tr[1..]));
    }
  }

  /** What Serialize makes of a row. */
  function RowOf(r: StateRow): Text {
    CallsFormTheValue(r);
    Written(Compact, FRESH, Calls(r)) + [LF]
  }

  /** Serialize as it does it: its calls on a writer, and the newline. */
  method Serialize(r: StateRow) returns (line: Text)
    ensures line == RowOf(r)
  {
    CallsFormTheValue(r);
    hide Calls, Written, Allowed;
    var buffer := new OutputStream();
    var w := new Writer(Compact, buffer);
    assert w.State() == FRESH;
    w.HandleAll(Calls(r));
    assert [] + Written(Compact, FRESH, Calls(r)) == Written(Compact, FRESH, Calls(r));
    line := buffer.out + [LF];
  }

  /** What Serialize makes is a row for the log: its newline is the only one, and there is no other
      control character in it. */
  lemma SerializedIsRow(r: StateRow)
    ensures CrashLog.IsRow(RowOf(r)) && OneLine(RowOf(r)[..|RowOf(r)| - 1])
  {
    hide Written, Calls, OneLine, Value, CrashLog.IsRow;
    CallsFormTheValue(r);
    CompactIsOneLine(FRESH, Calls(r));
    LineIsRow(Written(Compact, FRESH, Calls(r)));
  }

  lemma LineIsRow(s: Text)
    requires OneLine(s)
    ensures CrashLog.IsRow(s + [LF]) && (s + [LF])[..|s + [LF]| - 1] == s
  {
  }

  lemma {:induction false} RowLinesAre(pieces: seq<CrashLog.Piece>, k: nat)
    requires CrashLog.LastTorn(pieces) && k < |CrashLog.RowLines(pieces)|
    ensures |CrashLog.RowLines(pieces)| <= |pieces| && pieces[k].Row? && CrashLog.RowLines(pieces)[k] == pieces[k].line
    decreases |pieces|
  {
    var front := pieces[..|pieces| - 1];
    WholeCount(pieces);
    if k < |CrashLog.RowLines(front)| {
      if front != [] {
        assert CrashLog.AllWhole(front);
        assert CrashLog.LastTorn(front);
      }
      RowLinesAre(front, k);
    }
  }

  lemma {:induction false} WholeCount(pieces: seq<CrashLog.Piece>)
    requires CrashLog.LastTorn(pieces)
    ensures pieces != [] ==> |CrashLog.RowLines(pieces[..|pieces| - 1])| == |pieces| - 1
    decreases |pieces|
  {
    if pieces != [] {
      AllWholeLines(pieces[..|pieces| - 1]);
    }
  }

  lemma {:induction false} AllWholeLines(pieces: seq<CrashLog.Piece>)
    requires CrashLog.AllWhole(pieces)
    ensures |CrashLog.RowLines(pieces)| == |pieces|
    decreases |pieces|
  {
    if pieces != [] {
      AllWholeLines(pieces[..|pieces| - 1]);
    }
  }

  /** Parsing the line without its newline succeeds and gives the events of the row's value. */
  ghost predicate ReadsBack(c: R.Config, line: Text, r: StateRow) {
    && |line| > 0 && InRange(Value(r))
    && R.ReadDocument(c, line[..|line| - 1]) == R.Parsed(true, |line| - 1, Events(Value(r)))
  }

  lemma RowReadsBack(c: R.Config, r: StateRow)
    ensures ReadsBack(c, RowOf(r), r)
  {
    hide Calls, Value, Written, Events;
    CallsFormTheValue(r);
    ReadingUndoesWriting(c, Compact, Calls(r));
    var s := Written(Compact, FRESH, Calls(r));
    assert (s + [LF])[..|s|] == s;
  }

  /** The files of the log hold these rows. */
  predicate Serialized(pieces: seq<CrashLog.Piece>, rows: seq<StateRow>) {
    |rows| == |pieces| && forall i :: 0 <= i < |pieces| ==> pieces[i].Row? && pieces[i].line == RowOf(rows[i])
  }

  /** After any crash: a file whose rows came from Serialize, split at its newlines, gives every row but a
      torn last one, and parsing each line gives the value of the row it was written for. */
  lemma ReaderRecoversRows(c: R.Config, pieces: seq<CrashLog.Piece>, rows: seq<StateRow>, k: nat)
    requires CrashLog.AllSound(pieces) && CrashLog.LastTorn(pieces) && Serialized(pieces, rows)
    ensures |pieces| - 1 <= |CrashLog.Lines(CrashLog.Flat(pieces)).lines| <= |pieces|
    ensures k < |CrashLog.Lines(CrashLog.Flat(pieces)).lines| ==>
      ReadsBack(c, CrashLog.Lines(CrashLog.Flat(pieces)).lines[k], rows[k])
  {
    hide RowOf, ReadsBack, CrashLog.Flat, CrashLog.Lines, CrashLog.AllSound;
    CrashLog.ReaderSeesWholeRows(pieces);
    WholeCount(pieces);
    if k < |CrashLog.RowLines(pieces)| {
      RowLinesAre(pieces, k);
      RowReadsBack(c, rows[k]);
    }
  }

  /* ---- how the history script splits a file ---- */

  /** Splitting behind LF, CR and CR LF, the line ends kept. */
  function SplitLines(data: Text): CrashLog.Split {
    if data == [] then CrashLog.Split([], [])
    else
      var before, c := SplitLines(data[..|data| - 1]), data[|data| - 1];
      if c == LF && before.rest == [] && EndsInReturn(before.lines) then
        before.(lines := before.lines[..|before.lines| - 1] + [before.lines[|before.lines| - 1] + [c]])
      else if c == LF || c == CR then CrashLog.Split(before.lines + [before.rest + [c]], [])
      else before.(rest := before.rest + [c])
  }

  predicate EndsInReturn(lines: seq<Text>) {
    |lines| > 0 && var last := lines[|lines| - 1]; |last| > 0 && last[|last| - 1] == CR
  }

  predicate NoReturn(t: Text) {
    forall k :: 0 <= k < |t| ==> t[k] != CR
  }

  lemma {:induction false} SplitsAlike(data: Text)
    requires NoReturn(data)
    ensures SplitLines(data) == CrashLog.Lines(data) && !EndsInReturn(SplitLines(data).lines)
    decreases |data|
  {
    if data != [] {
      SplitsAlike(data[..|data| - 1]);
    }
  }

  lemma {:induction false} FlatNoReturn(pieces: seq<CrashLog.Piece>, rows: seq<StateRow>)
    requires Serialized(pieces, rows)
    ensures NoReturn(CrashLog.Flat(pieces))
    decreases |pieces|
  {
    hide RowOf;
    if pieces != [] {
      var n := |pieces| - 1;
      FlatNoReturn(pieces[..n], rows[..n]);
      SerializedIsRow(rows[n]);
      assert pieces[n].line == RowOf(rows[n]);
      ShownNoReturn(pieces[n]);
      hide CrashLog.Shown, OneLine, Serialized;
    }
  }

  lemma ShownNoReturn(piece: CrashLog.Piece)
    requires piece.Row? && |piece.line| > 0 && piece.line[|piece.line| - 1] == LF
    requires OneLine(piece.line[..|piece.line| - 1])
    ensures NoReturn(CrashLog.Shown(piece))
  {
    var t, n := piece.line, |piece.line| - 1;
    forall k | 0 <= k < |t|
      ensures t[k] != CR
    {
      assert k < n ==> t[..n][k] == t[k];
    }
  }

  /** The history script splits such a file exactly at the ends of its rows as well: every line but a torn
      last one, which alone does not end in a newline, is a whole row. */
  lemma ScriptSplitsAtRows(pieces: seq<CrashLog.Piece>, rows: seq<StateRow>)
    requires CrashLog.AllSound(pieces) && CrashLog.LastTorn(pieces) && Serialized(pieces, rows)
    ensures SplitLines(CrashLog.Flat(pieces)) == CrashLog.Split(CrashLog.RowLines(pieces), CrashLog.TornPart(pieces))
  {
    FlatNoReturn(pieces, rows);
    SplitsAlike(CrashLog.Flat(pieces));
    CrashLog.ReaderSeesWholeRows(pieces);
  }
}
