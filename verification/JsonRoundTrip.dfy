/** Reading undoes writing, for compact and indented text and for both parsers. */
module JsonRoundTrip {
  import opened Bytes
  import opened JsonEvents
  import JsonString
  import JsonNumber
  import R = JsonReader
  import M = JsonMachine
  import opened JsonWriter

  /** The integer a number event carries. */
  function Number(e: Event): int
    requires Printable(e) && (e.Int? || e.Uint? || e.Int64? || e.Uint64?)
  {
    match e
    case Int(i) => i
    case Uint(u) => u
    case Int64(i) => i
    case Uint64(u) => u
  }

  /** What the reader sends for an event written in state `w`: the same event, with the number under
      its canonical type and with the 32-bit count of members or elements. */
  function ReadAs(w: Writing, e: Event): Event
    requires Accepts(w, e)
  {
    match e
    case EndObject(_) => EndObject(Top(w).valueCount / 2 % 0x1_0000_0000)
    case EndArray(_) => EndArray(Top(w).valueCount % 0x1_0000_0000)
    case Int(i) => JsonNumber.CanonicalInt(i)
    case Uint(u) => JsonNumber.CanonicalInt(u)
    case Int64(i) => JsonNumber.CanonicalInt(i)
    case Uint64(u) => JsonNumber.CanonicalInt(u)
    case _ => e
  }

  function ReadAllAs(w: Writing, tr: seq<Event>): seq<Event>
    requires Allowed(w, tr)
    decreases |tr|
  {
    if tr == [] then [] else [ReadAs(w, tr[0])] + ReadAllAs(Next(w, tr[0]), tr[1..])
  }

  /* ---- writer states and automaton configurations ---- */

  /** Commas written so far on one level. */
  function Commas(l: Level): nat {
    if l.valueCount == 0 then 0
    else if l.inArray then l.valueCount - 1
    else (l.valueCount - 1) / 2
  }

  function ReturnState(levels: seq<Level>, k: nat): M.State
    requires k < |levels|
  {
    if k == 0 then M.Start else if levels[k - 1].inArray then M.Element else M.MemberValue
  }

  function Frames(levels: seq<Level>): seq<M.Frame> {
    seq(|levels|, k requires 0 <= k < |levels| =>
      M.Frame(ReturnState(levels, k), Commas(levels[k]) % 0x1_0000_0000))
  }

  /** The automaton's state after the text written so far. */
  function StateOf(w: Writing): M.State {
    if w.levels == [] then (if w.hasRoot then M.Finish else M.Start)
    else var l := Top(w);
      if l.inArray then (if l.valueCount == 0 then M.ArrayInitial else M.Element)
      else if l.valueCount == 0 then M.ObjectInitial
      else if l.valueCount % 2 == 1 then M.MemberKey
      else M.MemberValue
  }

  /** The automaton's state in front of the next value or name, separators read. */
  function ReadyState(w: Writing): M.State {
    if w.levels == [] then M.Start
    else var l := Top(w);
      if l.inArray then (if l.valueCount == 0 then M.ArrayInitial else M.ElementDelimiter)
      else if l.valueCount == 0 then M.ObjectInitial
      else if l.valueCount % 2 == 1 then M.KeyValueDelimiter
      else M.MemberDelimiter
  }

  /** The states a writer can be in: every enclosing level has the open value counted. */
  predicate Consistent(w: Writing) {
    && (w.levels != [] ==> w.hasRoot)
    && forall k :: 0 <= k < |w.levels| - 1 ==>
         w.levels[k].valueCount > 0 && (!w.levels[k].inArray ==> w.levels[k].valueCount % 2 == 0)
  }

  function Config(w: Writing, i: nat, evs: seq<Event>): M.Machine {
    M.Machine(StateOf(w), Frames(w.levels), i, evs)
  }

  function Ready(w: Writing, i: nat, evs: seq<Event>): M.Machine {
    M.Machine(ReadyState(w), Frames(Started(w).levels), i, evs)
  }

  lemma ConfigValid(s: Text, w: Writing, i: nat, evs: seq<Event>)
    requires Consistent(w) && i <= |s|
    ensures M.Valid(s, Config(w, i, evs))
  {
  }

  lemma ReadyValid(s: Text, w: Writing, i: nat, evs: seq<Event>)
    requires Consistent(w) && i <= |s|
    ensures M.Valid(s, Ready(w, i, evs))
  {
  }

  lemma NextConsistent(w: Writing, e: Event)
    requires Consistent(w) && Accepts(w, e)
    ensures Consistent(Next(w, e))
  {
  }

  /* ---- white space ---- */

  predicate AllSpace(t: Text) {
    forall k :: 0 <= k < |t| ==> R.IsSpace(t[k])
  }

  lemma {:induction false} SkipAll(s: Text, i: nat, t: Text)
    requires At(s, i, t) && AllSpace(t)
    ensures R.SkipSpace(s, i) == R.SkipSpace(s, i + |t|)
    decreases |t|
  {
    if t != [] {
      AtPeek(s, i, t, 0);
      assert t == [t[0]] + t[1..];
      AtSplit(s, i, [t[0]], t[1..]);
      SkipAll(s, i + 1, t[1..]);
    }
  }

  lemma {:induction false} RepeatSpace(c: Byte, n: nat)
    requires R.IsSpace(c)
    ensures AllSpace(Repeat(c, n))
  {
    if n > 0 { RepeatSpace(c, n - 1); }
  }

  lemma SpaceIsSpace(f: Format, w: Writing)
    requires Legal(f)
    ensures AllSpace(LeadingSpace(f, w))
    ensures w.levels != [] ==> AllSpace(ClosingSpace(f, w))
  {
    if f.Pretty? {
      RepeatSpace(f.indentChar, |w.levels| * f.indentCount);
      if w.levels != [] {
        RepeatSpace(f.indentChar, |Popped(w).levels| * f.indentCount);
      }
    }
  }

  /* ---- tokens ---- */

  /** The first unit and the rest of a literal. */
  lemma LiteralAt(s: Text, i: nat, first: Byte, rest: Text, ev: Event)
    requires At(s, i, [first] + rest) && NUL !in rest
    ensures i < |s| && Peek(s, i) == first && R.ReadLiteral(s, i, rest, ev) == R.Parsed(true, i + 1 + |rest|, [ev])
  {
    AtSplit(s, i, [first], rest);
    AtPeek(s, i, [first], 0);
    MatchesAt(s, i + 1, rest);
    hide R.Matches;
  }

  lemma ReadLiteralToken(c: R.Config, s: Text, i: nat, e: Event)
    requires e.Null? || e.Bool?
    requires At(s, i, Token(e))
    ensures R.ReadValue(c, s, i) == R.Parsed(true, i + |Token(e)|, [e])
  {
    hide R.ReadLiteral, R.ReadObject, R.ReadArray, At;
    if e.Null? {
      assert Token(e) == [0x6E] + R.ULL;
      LiteralAt(s, i, 0x6E, R.ULL, e);
    } else if e.b {
      assert Token(e) == [0x74] + R.RUE;
      LiteralAt(s, i, 0x74, R.RUE, e);
    } else {
      assert Token(e) == [0x66] + R.ALSE;
      LiteralAt(s, i, 0x66, R.ALSE, e);
    }
  }

  lemma {:induction false} MatchesAt(s: Text, i: nat, t: Text)
    requires At(s, i, t) && NUL !in t
    ensures R.Matches(s, i, t)
    decreases |t|
  {
    if t != [] {
      AtPeek(s, i, t, 0);
      assert t == [t[0]] + t[1..];
      AtSplit(s, i, [t[0]], t[1..]);
      MatchesAt(s, i + 1, t[1..]);
    }
  }

  lemma ReadQuoted(s: Text, i: nat, b: Text, isKey: bool)
    requires At(s, i, JsonString.Quoted(b))
    ensures Peek(s, i) == QUOTE
    ensures R.ReadKeyOrString(s, i, isKey)
         == R.Parsed(true, i + |JsonString.Quoted(b)|, [if isKey then Key(b) else String(b)])
  {
    AtPeek(s, i, JsonString.Quoted(b), 0);
    assert JsonString.Quoted(b) == [QUOTE] + (JsonString.Escape(b) + [QUOTE]);
    AtSplit(s, i, [QUOTE], JsonString.Escape(b) + [QUOTE]);
    JsonString.ReadEscaped(s, i + 1, b);
  }

  lemma ReadNumberToken(c: R.Config, s: Text, i: nat, n: int)
    requires -0x8000_0000_0000_0000 <= n <= 0xFFFF_FFFF_FFFF_FFFF
    requires At(s, i, JsonNumber.DecimalInt(n))
    requires JsonNumber.EndsNumber(Peek(s, i + |JsonNumber.DecimalInt(n)|))
    ensures R.ReadValue(c, s, i)
         == R.Parsed(true, i + |JsonNumber.DecimalInt(n)|, [JsonNumber.CanonicalInt(n)])
    ensures IsDigit(Peek(s, i)) || Peek(s, i) == MINUS
  {
    JsonNumber.ReadDecimal(c.tooBig, s, i, n);
    AtPeek(s, i, JsonNumber.DecimalInt(n), 0);
    JsonNumber.DecimalDigits(if n < 0 then -n else n);
  }

  predicate IsScalar(e: Event) {
    !Closes(e) && !e.StartObject? && !e.StartArray? && !e.Key?
  }

  /** The first unit of a value is no white space and no bracket that closes. */
  predicate StartsValue(c: Byte) {
    !R.IsSpace(c) && c != RBRACKET && c != RBRACE
  }

  lemma ReadToken(c: R.Config, s: Text, i: nat, w: Writing, e: Event)
    requires Accepts(w, e) && IsScalar(e)
    requires At(s, i, Token(e)) && JsonNumber.EndsNumber(Peek(s, i + |Token(e)|))
    ensures R.ReadValue(c, s, i) == R.Parsed(true, i + |Token(e)|, [ReadAs(w, e)])
    ensures StartsValue(Peek(s, i))
  {
    if e.Null? || e.Bool? {
      ReadLiteralToken(c, s, i, e);
      AtPeek(s, i, Token(e), 0);
    } else if e.String? {
      ReadQuoted(s, i, e.str, false);
    } else {
      ReadNumberToken(c, s, i, Number(e));
    }
  }

  /* ---- one event ---- */

  lemma ReadyPlain(w: Writing)
    requires Separator(w) == [] && (w.levels == [] ==> !w.hasRoot)
    ensures StateOf(w) == ReadyState(w) && Frames(Started(w).levels) == Frames(w.levels)
  {
  }

  lemma ReadyComma(c: R.Config, s: Text, w: Writing, i: nat, evs: seq<Event>)
    requires Consistent(w) && i < |s| && Separator(w) == [COMMA] && Peek(s, i) == COMMA
    ensures var p := R.SkipSpace(s, i + 1);
            && M.Valid(s, Config(w, i, evs)) && M.Valid(s, Ready(w, p, evs))
            && M.Run(c, s, Config(w, i, evs)) == M.Run(c, s, Ready(w, p, evs))
  {
    hide M.Run;
    ConfigValid(s, w, i, evs);
    ReadyValid(s, w, R.SkipSpace(s, i + 1), evs);
    M.StepComma(c, s, Config(w, i, evs));
    FramesComma(w);
  }

  lemma ReadyColon(c: R.Config, s: Text, w: Writing, i: nat, evs: seq<Event>)
    requires Consistent(w) && i < |s| && Separator(w) == [COLON] && Peek(s, i) == COLON
    ensures var p := R.SkipSpace(s, i + 1);
            && M.Valid(s, Config(w, i, evs)) && M.Valid(s, Ready(w, p, evs))
            && M.Run(c, s, Config(w, i, evs)) == M.Run(c, s, Ready(w, p, evs))
  {
    hide M.Run;
    ConfigValid(s, w, i, evs);
    ReadyValid(s, w, R.SkipSpace(s, i + 1), evs);
    M.StepColon(c, s, Config(w, i, evs));
    assert Frames(Started(w).levels) == Frames(w.levels);
  }

  lemma SeparatorShape(w: Writing)
    ensures Separator(w) == [] || Separator(w) == [COMMA] || Separator(w) == [COLON]
    ensures (w.levels == [] ==> !w.hasRoot) ==> StateOf(w) != M.Finish
  {
  }

  /** The separator and white space in front of a value or name bring the automaton in front of it. */
  lemma SeparatorStep(c: R.Config, f: Format, s: Text, w: Writing, i: nat, evs: seq<Event>)
    requires Legal(f) && Consistent(w) && (w.levels == [] ==> !w.hasRoot)
    requires At(s, i, Separator(w) + LeadingSpace(f, w))
    requires !R.IsSpace(Peek(s, i + |Separator(w) + LeadingSpace(f, w)|))
    ensures var p := i + |Separator(w) + LeadingSpace(f, w)|;
            && M.Valid(s, Config(w, i, evs)) && M.Valid(s, Ready(w, p, evs))
            && M.Continue(c, s, Config(w, i, evs)) == M.Run(c, s, Ready(w, p, evs))
  {
    hide M.Run, M.Valid, Separator, LeadingSpace, StateOf, ReadyState, Frames, Consistent;
    var sep, space := Separator(w), LeadingSpace(f, w);
    var p := i + |sep + space|;
    AtSplit(s, i, sep, space);
    SpaceIsSpace(f, w);
    SkipAll(s, i + |sep|, space);
    ConfigValid(s, w, i, evs);
    ConfigValid(s, w, R.SkipSpace(s, i), evs);
    ReadyValid(s, w, p, evs);
    SeparatorShape(w);
    assert M.Continue(c, s, Config(w, i, evs)) == M.Run(c, s, Config(w, R.SkipSpace(s, i), evs));
    if sep == [] {
      ReadyPlain(w);
    } else {
      AtPeek(s, i, sep, 0);
      if sep == [COMMA] {
        ReadyComma(c, s, w, i, evs);
      } else {
        ReadyColon(c, s, w, i, evs);
      }
    }
  }

  /** A comma counts on the innermost level. */
  lemma FramesComma(w: Writing)
    requires w.levels != [] && Top(w).valueCount > 0 && (Top(w).inArray || Top(w).valueCount % 2 == 0)
    ensures var fs := Frames(w.levels);
            Frames(Started(w).levels) == M.Pop(fs) + [M.Frame(M.Top(fs).ret, R.Count(M.Top(fs).count))]
  {
    var n := |w.levels| - 1;
    var ls := Started(w).levels;
    CommasCount(Top(w));
    assert forall k :: 0 <= k < n ==> ls[k] == w.levels[k];
    assert forall k :: 0 <= k <= n ==> ReturnState(ls, k) == ReturnState(w.levels, k);
    hide ReturnState, Commas;
  }

  lemma CommasCount(l: Level)
    requires l.valueCount > 0 && (l.inArray || l.valueCount % 2 == 0)
    ensures Commas(l.(valueCount := l.valueCount + 1)) % 0x1_0000_0000 == R.Count(Commas(l) % 0x1_0000_0000)
  {
    MoreCommas(l);
    CountNext(Commas(l));
    hide Commas, R.Count;
  }

  lemma MoreCommas(l: Level)
    requires l.valueCount > 0 && (l.inArray || l.valueCount % 2 == 0)
    ensures Commas(l.(valueCount := l.valueCount + 1)) == Commas(l) + 1
  {
  }

  lemma CountNext(n: nat)
    ensures (n + 1) % 0x1_0000_0000 == R.Count(n % 0x1_0000_0000)
  {
  }

  lemma ScalarStep(c: R.Config, s: Text, w: Writing, e: Event, i: nat, evs: seq<Event>)
    requires Consistent(w) && Accepts(w, e) && IsScalar(e)
    requires At(s, i, Token(e)) && JsonNumber.EndsNumber(Peek(s, i + |Token(e)|))
    ensures M.Valid(s, Ready(w, i, evs)) && M.Valid(s, Config(Next(w, e), i + |Token(e)|, evs + [ReadAs(w, e)]))
    ensures M.Run(c, s, Ready(w, i, evs)) == M.Continue(c, s, Config(Next(w, e), i + |Token(e)|, evs + [ReadAs(w, e)]))
  {
    hide Token, M.Run, M.Continue, R.ReadValue;
    ReadyValid(s, w, i, evs);
    NextConsistent(w, e);
    ConfigValid(s, Next(w, e), i + |Token(e)|, evs + [ReadAs(w, e)]);
    ReadToken(c, s, i, w, e);
    M.ValueAgrees(c, s, Ready(w, i, evs));
  }

  lemma KeyStep(c: R.Config, s: Text, w: Writing, e: Event, i: nat, evs: seq<Event>)
    requires Consistent(w) && Accepts(w, e) && e.Key? && At(s, i, Token(e))
    ensures M.Valid(s, Ready(w, i, evs)) && M.Valid(s, Config(Next(w, e), i + |Token(e)|, evs + [e]))
    ensures M.Run(c, s, Ready(w, i, evs)) == M.Continue(c, s, Config(Next(w, e), i + |Token(e)|, evs + [e]))
  {
    hide JsonString.Quoted, R.ReadKeyOrString, M.Run;
    ReadyValid(s, w, i, evs);
    NextConsistent(w, e);
    ConfigValid(s, Next(w, e), i + |Token(e)|, evs + [e]);
    ReadQuoted(s, i, e.key, true);
    M.StepKey(c, s, Ready(w, i, evs));
  }

  lemma OpenStep(c: R.Config, s: Text, w: Writing, e: Event, i: nat, evs: seq<Event>)
    requires Consistent(w) && Accepts(w, e) && (e.StartObject? || e.StartArray?) && At(s, i, Token(e))
    ensures M.Valid(s, Ready(w, i, evs)) && M.Valid(s, Config(Next(w, e), i + 1, evs + [e]))
    ensures M.Run(c, s, Ready(w, i, evs)) == M.Continue(c, s, Config(Next(w, e), i + 1, evs + [e]))
  {
    hide M.Run, M.Valid, Consistent;
    ReadyValid(s, w, i, evs);
    NextConsistent(w, e);
    ConfigValid(s, Next(w, e), i + 1, evs + [e]);
    AtPeek(s, i, Token(e), 0);
    FramesOpen(w, e);
    hide Frames;
    M.StepOpen(c, s, Ready(w, i, evs));
  }

  lemma FramesOpen(w: Writing, e: Event)
    requires Accepts(w, e) && (e.StartObject? || e.StartArray?)
    ensures M.ExpectsAny(Ready(w, 0, []))
    ensures Frames(Next(w, e).levels) == Frames(Started(w).levels) + [M.Frame(M.Enclosing(ReadyState(w)), 0)]
    ensures StateOf(Next(w, e)) == if e.StartObject? then M.ObjectInitial else M.ArrayInitial
  {
  }

  /** From the one configuration the automaton goes on as from the other. */
  ghost predicate Leads(c: R.Config, s: Text, m: M.Machine, n: M.Machine) {
    M.Valid(s, m) && M.Valid(s, n) && M.Continue(c, s, m) == M.Continue(c, s, n)
  }

  /** Past the white space in front of the next unit. */
  lemma PastSpace(c: R.Config, s: Text, w: Writing, i: nat, p: nat, evs: seq<Event>)
    requires Consistent(w) && w.levels != [] && i <= |s| && p == R.SkipSpace(s, i)
    ensures M.Valid(s, Config(w, i, evs)) && M.Valid(s, Config(w, p, evs))
    ensures M.Continue(c, s, Config(w, i, evs)) == M.Run(c, s, Config(w, p, evs))
  {
    hide M.Run, M.Valid, Consistent, Frames, R.SkipSpace;
    ConfigValid(s, w, i, evs);
    ConfigValid(s, w, p, evs);
    NotFinished(w);
  }

  lemma AtBounds(s: Text, i: nat, t: Text)
    requires At(s, i, t)
    ensures i + |t| <= |s|
  {
  }

  lemma ClosingText(f: Format, s: Text, w: Writing, e: Event, i: nat)
    requires Legal(f) && Accepts(w, e) && Closes(e) && At(s, i, EventText(f, w, e))
    ensures var p := i + |ClosingSpace(f, w)|;
            && i <= |s| && p < |s| && R.SkipSpace(s, i) == p && p + 1 == i + |EventText(f, w, e)|
            && Peek(s, p) == if e.EndArray? then RBRACKET else RBRACE
  {
    hide ClosingSpace, R.SkipSpace, At;
    var space := ClosingSpace(f, w);
    assert At(s, i, space + Token(e)) && |Token(e)| == 1;
    AtBounds(s, i, space + Token(e));
    AtSplit(s, i, space, Token(e));
    SpaceIsSpace(f, w);
    SkipAll(s, i, space);
    AtPeek(s, i + |space|, Token(e), 0);
  }

  lemma CloseStep(c: R.Config, f: Format, s: Text, w: Writing, e: Event, i: nat, evs: seq<Event>)
    requires Legal(f) && Consistent(w) && Accepts(w, e) && Closes(e)
    requires At(s, i, EventText(f, w, e))
    ensures Leads(c, s, Config(w, i, evs), Config(Popped(w), i + |EventText(f, w, e)|, evs + [ReadAs(w, e)]))
  {
    hide M.Run, M.Valid, M.Continue, Config, ClosingSpace, EventText, Consistent, ReadAs, Legal, At, R.SkipSpace;
    var p := i + |ClosingSpace(f, w)|;
    ClosingText(f, s, w, e, i);
    PastSpace(c, s, w, i, p, evs);
    if e.EndArray? {
      CloseArrayBracket(c, s, w, e, p, evs);
    } else {
      CloseObjectBracket(c, s, w, e, p, evs);
    }
  }

  lemma NotFinished(w: Writing)
    requires w.levels != []
    ensures StateOf(w) != M.Finish
  {
  }

  /** The automaton has the writer's count. */
  lemma CountIs(w: Writing, e: Event, p: nat, evs: seq<Event>)
    requires Accepts(w, e) && Closes(e)
    ensures Config(w, p, evs).stack != []
    ensures var n := M.ClosingCount(Config(w, p, evs));
            ReadAs(w, e) == if e.EndArray? then EndArray(n) else EndObject(n)
  {
    FramesPop(w);
    ClosingCountIs(Top(w));
    hide Frames, Commas, M.Pop;
  }

  lemma ClosingCountIs(l: Level)
    requires l.inArray || l.valueCount % 2 == 0
    ensures (if l.valueCount == 0 then 0 else R.Count(Commas(l) % 0x1_0000_0000))
            == (if l.inArray then l.valueCount else l.valueCount / 2) % 0x1_0000_0000
  {
    if l.valueCount > 0 {
      CountNext(Commas(l));
    }
  }

  lemma ClosedIs(w: Writing, p: nat, evs: seq<Event>, ev: Event)
    requires Consistent(w) && w.levels != []
    ensures Config(w, p, evs).stack != []
    ensures M.Close(Config(w, p, evs), ev) == Config(Popped(w), p + 1, evs + [ev])
  {
    FramesPop(w);
    ReturnedState(w);
    hide Frames, Commas, M.Pop, M.Returned, StateOf, Consistent;
  }

  lemma CloseArrayBracket(c: R.Config, s: Text, w: Writing, e: Event, p: nat, evs: seq<Event>)
    requires Consistent(w) && Accepts(w, e) && e.EndArray? && p <= |s| && Peek(s, p) == RBRACKET
    ensures M.Valid(s, Config(w, p, evs)) && M.Valid(s, Config(Popped(w), p + 1, evs + [ReadAs(w, e)]))
    ensures M.Run(c, s, Config(w, p, evs)) == M.Continue(c, s, Config(Popped(w), p + 1, evs + [ReadAs(w, e)]))
  {
    hide M.Run, M.Continue, M.Valid, Frames, Consistent, ReadAs, M.Close, M.ClosingCount;
    ConfigValid(s, w, p, evs);
    CountIs(w, e, p, evs);
    ClosedIs(w, p, evs, ReadAs(w, e));
    M.StepCloseArray(c, s, Config(w, p, evs));
  }

  lemma CloseObjectBracket(c: R.Config, s: Text, w: Writing, e: Event, p: nat, evs: seq<Event>)
    requires Consistent(w) && Accepts(w, e) && e.EndObject? && p <= |s| && Peek(s, p) == RBRACE
    ensures M.Valid(s, Config(w, p, evs)) && M.Valid(s, Config(Popped(w), p + 1, evs + [ReadAs(w, e)]))
    ensures M.Run(c, s, Config(w, p, evs)) == M.Continue(c, s, Config(Popped(w), p + 1, evs + [ReadAs(w, e)]))
  {
    hide M.Run, M.Continue, M.Valid, Frames, Consistent, ReadAs, M.Close, M.ClosingCount;
    ConfigValid(s, w, p, evs);
    CountIs(w, e, p, evs);
    ClosedIs(w, p, evs, ReadAs(w, e));
    M.StepCloseObject(c, s, Config(w, p, evs));
  }

  lemma FramesPop(w: Writing)
    requires w.levels != []
    ensures var fs := Frames(w.levels);
            && Frames(Popped(w).levels) == M.Pop(fs)
            && M.Top(fs) == M.Frame(ReturnState(w.levels, |w.levels| - 1), Commas(Top(w)) % 0x1_0000_0000)
  {
  }

  /** Closing a level returns to the state of the enclosing one. */
  lemma ReturnedState(w: Writing)
    requires Consistent(w) && w.levels != []
    ensures StateOf(Popped(w)) == M.Returned(ReturnState(w.levels, |w.levels| - 1))
  {
  }

  /** The unit behind the text of an event, if any, does not continue a number just written. */
  lemma NextUnit(f: Format, w: Writing, e: Event)
    requires Accepts(w, e) && w.levels != [] && Top(w).valueCount > 0
    ensures |EventText(f, w, e)| > 0 && JsonNumber.EndsNumber(EventText(f, w, e)[0])
  {
    if Closes(e) {
      var space := ClosingSpace(f, w);
      assert EventText(f, w, e)[0] == if space == [] then Token(e)[0] else space[0];
    } else {
      assert EventText(f, w, e)[0] == Separator(w)[0];
    }
  }

  /** A value or name behind its separator. */
  lemma OpeningStep(c: R.Config, s: Text, w: Writing, e: Event, p: nat, evs: seq<Event>)
    requires Consistent(w) && Accepts(w, e) && !Closes(e) && At(s, p, Token(e))
    requires IsScalar(e) ==> JsonNumber.EndsNumber(Peek(s, p + |Token(e)|))
    ensures !R.IsSpace(Peek(s, p))
    ensures M.Valid(s, Ready(w, p, evs)) && M.Valid(s, Config(Next(w, e), p + |Token(e)|, evs + [ReadAs(w, e)]))
    ensures M.Run(c, s, Ready(w, p, evs))
            == M.Continue(c, s, Config(Next(w, e), p + |Token(e)|, evs + [ReadAs(w, e)]))
  {
    hide Token, M.Run, M.Continue, M.Valid, Config, Ready, ReadAs, Next, Accepts;
    if IsScalar(e) {
      ReadToken(c, s, p, w, e);
      ScalarStep(c, s, w, e, p, evs);
    } else {
      TokenStart(s, p, w, e);
      if e.Key? {
        KeyStep(c, s, w, e, p, evs);
      } else {
        OpenStep(c, s, w, e, p, evs);
      }
    }
  }

  lemma FreshRoot(w: Writing, e: Event)
    requires Accepts(w, e) && !Closes(e)
    ensures Printable(e) && (w.levels == [] ==> !w.hasRoot)
  {
  }

  lemma ClosedState(w: Writing, e: Event)
    requires Accepts(w, e) && Closes(e)
    ensures Next(w, e) == Popped(w)
  {
  }

  lemma EventStep(c: R.Config, f: Format, s: Text, w: Writing, e: Event, i: nat, evs: seq<Event>)
    requires Legal(f) && Consistent(w) && Accepts(w, e) && At(s, i, EventText(f, w, e))
    requires IsScalar(e) ==> JsonNumber.EndsNumber(Peek(s, i + |EventText(f, w, e)|))
    ensures Leads(c, s, Config(w, i, evs), Config(Next(w, e), i + |EventText(f, w, e)|, evs + [ReadAs(w, e)]))
  {
    hide Token, M.Run, M.Continue, M.Valid, Config, Ready, ReadAs, Next, Accepts, Separator, LeadingSpace, ClosingSpace;
    if Closes(e) {
      ClosedState(w, e);
      CloseStep(c, f, s, w, e, i, evs);
    } else {
      FreshRoot(w, e);
      var lead := Separator(w) + LeadingSpace(f, w);
      AtSplit(s, i, lead, Token(e));
      OpeningStep(c, s, w, e, i + |lead|, evs);
      SeparatorStep(c, f, s, w, i, evs);
      assert i + |lead| + |Token(e)| == i + |EventText(f, w, e)|;
    }
  }

  lemma TokenStart(s: Text, p: nat, w: Writing, e: Event)
    requires Accepts(w, e) && !IsScalar(e) && At(s, p, Token(e))
    ensures !R.IsSpace(Peek(s, p)) && (!e.Key? ==> |Token(e)| == 1)
    ensures ReadAs(w, e) == e || Closes(e)
  {
    AtPeek(s, p, Token(e), 0);
  }

  /* ---- whole traces ---- */

  lemma Finished(c: R.Config, s: Text, w: Writing, evs: seq<Event>)
    requires Consistent(w) && Complete(w)
    ensures M.Valid(s, Config(w, |s|, evs))
    ensures M.Continue(c, s, Config(w, |s|, evs)) == R.Parsed(true, |s|, evs)
  {
    ConfigValid(s, w, |s|, evs);
    M.RunFinished(c, s, Config(w, |s|, evs));
  }

  /** The first event of the trace, in front of the text of the others. */
  lemma FirstStep(c: R.Config, f: Format, s: Text, w: Writing, e: Event, rest: seq<Event>, i: nat, evs: seq<Event>)
    requires Legal(f) && Consistent(w) && Accepts(w, e) && Allowed(Next(w, e), rest)
    requires At(s, i, EventText(f, w, e) + Written(f, Next(w, e), rest))
    requires i + |EventText(f, w, e)| + |Written(f, Next(w, e), rest)| == |s|
    ensures var j := i + |EventText(f, w, e)|;
            && At(s, j, Written(f, Next(w, e), rest))
            && Leads(c, s, Config(w, i, evs), Config(Next(w, e), j, evs + [ReadAs(w, e)]))
  {
    hide EventText, ReadAs, M.Continue, Next, Config, M.Valid, Accepts, IsScalar, Consistent, Written, Allowed;
    var t, u := EventText(f, w, e), Written(f, Next(w, e), rest);
    AtSplit(s, i, t, u);
    var j := i + |t|;
    if IsScalar(e) {
      if u != [] {
        Following(f, w, e, rest);
        AtPeek(s, j, u, 0);
      } else {
        assert Peek(s, j) == NUL;
      }
    }
    EventStep(c, f, s, w, e, i, evs);
  }

  lemma {:induction false} TraceStep(c: R.Config, f: Format, s: Text, w: Writing, tr: seq<Event>,
                                     i: nat, evs: seq<Event>)
    requires Legal(f) && Consistent(w) && Allowed(w, tr) && Complete(Final(w, tr))
    requires At(s, i, Written(f, w, tr)) && i + |Written(f, w, tr)| == |s|
    ensures M.Valid(s, Config(w, i, evs))
    ensures M.Continue(c, s, Config(w, i, evs)) == R.Parsed(true, |s|, evs + ReadAllAs(w, tr))
    decreases |tr|
  {
    hide EventText, ReadAs, M.Continue, Next, Config, M.Valid, Accepts, Consistent, Complete, At;
    if tr == [] {
      assert evs + [] == evs;
      Finished(c, s, w, evs);
    } else {
      var e, rest := tr[0], tr[1..];
      FirstStep(c, f, s, w, e, rest, i, evs);
      NextConsistent(w, e);
      TraceStep(c, f, s, Next(w, e), rest, i + |EventText(f, w, e)|, evs + [ReadAs(w, e)]);
      var read := ReadAllAs(Next(w, e), rest);
      assert evs + [ReadAs(w, e)] + read == evs + ([ReadAs(w, e)] + read);
    }
  }

  /** What follows a scalar is a separator, white space or a closing bracket. */
  lemma Following(f: Format, w: Writing, e: Event, rest: seq<Event>)
    requires Accepts(w, e) && IsScalar(e) && Consistent(w)
    requires Allowed(Next(w, e), rest) && Written(f, Next(w, e), rest) != []
    ensures JsonNumber.EndsNumber(Written(f, Next(w, e), rest)[0])
  {
    var w' := Next(w, e);
    assert rest != [] && Accepts(w', rest[0]);
    assert w'.levels != [];
    NextUnit(f, w', rest[0]);
    var t := EventText(f, w', rest[0]);
    assert Written(f, w', rest)[0] == t[0];
  }

  /** For every trace that forms one JSON value and every legal format, both parsers accept the text
      written for it, consume all of it and send the same trace, with the right counts. */
  lemma ReadingUndoesWriting(c: R.Config, f: Format, tr: seq<Event>)
    requires Legal(f) && WellNested(tr)
    ensures var s := Written(f, FRESH, tr); var r := R.Parsed(true, |s|, ReadAllAs(FRESH, tr));
            R.ReadDocument(c, s) == r && M.RunDocument(c, s) == r
  {
    hide Written, ReadAllAs, M.Run, R.ReadDocument;
    var s := Written(f, FRESH, tr);
    assert s[0..0 + |s|] == s;
    TraceStep(c, f, s, FRESH, tr, 0, []);
    assert [] + ReadAllAs(FRESH, tr) == ReadAllAs(FRESH, tr);
    assert Frames(FRESH.levels) == [];
    assert M.Continue(c, s, Config(FRESH, 0, [])) == M.Run(c, s, M.Initial(s));
    M.ParsersAgree(c, s);
  }
}
