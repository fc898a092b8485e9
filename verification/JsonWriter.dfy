/** The JSON writers (3rdparty/rapidjson/writer.h, 3rdparty/rapidjson/prettywriter.h). */
module JsonWriter {
  import opened Bytes
  import opened JsonEvents
  import JsonString
  import JsonNumber

  /** Writer prints compactly; PrettyWriter indents. */
  datatype Format = Compact | Pretty(indentChar: Byte, indentCount: nat, singleLineArray: bool)

  /** SetIndent accepts the four white-space characters only. */
  predicate Legal(f: Format) {
    f.Pretty? ==> f.indentChar in {SPACE, TAB, LF, CR}
  }

  datatype Level = Level(inArray: bool, valueCount: nat)

  datatype Writing = Writing(levels: seq<Level>, hasRoot: bool)

  const FRESH: Writing := Writing([], false)

  function Top(w: Writing): Level
    requires w.levels != []
  {
    w.levels[|w.levels| - 1]
  }

  function Popped(w: Writing): Writing
    requires w.levels != []
  {
    w.(levels := w.levels[..|w.levels| - 1])
  }

  /** The writer's IsComplete. */
  predicate Complete(w: Writing) {
    w.hasRoot && w.levels == []
  }

  /** Numbers within the range of their handler method; floating-point numbers are not printed here. */
  predicate Printable(e: Event) {
    match e
    case Int(i) => -0x8000_0000 <= i < 0x8000_0000
    case Uint(u) => u <= 0xFFFF_FFFF
    case Int64(i) => -0x8000_0000_0000_0000 <= i < 0x8000_0000_0000_0000
    case Uint64(u) => u <= 0xFFFF_FFFF_FFFF_FFFF
    case Double(_) => false
    case _ => true
  }

  /** The writer's assertions: where each event is allowed. */
  predicate Accepts(w: Writing, e: Event) {
    && Printable(e)
    && match e
       case Key(_) => w.levels != [] && !Top(w).inArray && Top(w).valueCount % 2 == 0
       case EndObject(_) => w.levels != [] && !Top(w).inArray && Top(w).valueCount % 2 == 0
       case EndArray(_) => w.levels != [] && Top(w).inArray
       case _ => if w.levels == [] then !w.hasRoot else Top(w).inArray || Top(w).valueCount % 2 == 1
  }

  /** The state behind Prefix: a value has been started. */
  function Started(w: Writing): Writing {
    if w.levels == [] then w.(hasRoot := true)
    else w.(levels := w.levels[..|w.levels| - 1] + [Top(w).(valueCount := Top(w).valueCount + 1)])
  }

  function Next(w: Writing, e: Event): Writing
    requires Accepts(w, e)
  {
    match e
    case StartObject => var v := Started(w); v.(levels := v.levels + [Level(false, 0)])
    case StartArray => var v := Started(w); v.(levels := v.levels + [Level(true, 0)])
    case EndObject(_) => Popped(w)
    case EndArray(_) => Popped(w)
    case _ => Started(w)
  }

  /* ---- the text ---- */

  function Repeat(c: Byte, n: nat): Text {
    if n == 0 then [] else Repeat(c, n - 1) + [c]
  }

  function Indent(f: Format, w: Writing): Text
    requires f.Pretty?
  {
    Repeat(f.indentChar, |w.levels| * f.indentCount)
  }

  /** The comma or colon in front of a value. */
  function Separator(w: Writing): Text {
    if w.levels == [] || Top(w).valueCount == 0 then []
    else if Top(w).inArray || Top(w).valueCount % 2 == 0 then [COMMA]
    else [COLON]
  }

  /** The white space in front of a value or name. */
  function LeadingSpace(f: Format, w: Writing): Text {
    if f.Compact? || w.levels == [] then []
    else if Top(w).inArray then
      if !f.singleLineArray then [LF] + Indent(f, w)
      else if Top(w).valueCount > 0 then [SPACE] else []
    else if Top(w).valueCount % 2 == 0 then [LF] + Indent(f, w)
    else [SPACE]
  }

  /** The white space in front of a closing bracket. */
  function ClosingSpace(f: Format, w: Writing): Text
    requires w.levels != []
  {
    if f.Compact? || Top(w).valueCount == 0 || (Top(w).inArray && f.singleLineArray) then []
    else [LF] + Indent(f, Popped(w))
  }

  const NULL_TEXT: Text := [0x6E, 0x75, 0x6C, 0x6C]
  const TRUE_TEXT: Text := [0x74, 0x72, 0x75, 0x65]
  const FALSE_TEXT: Text := [0x66, 0x61, 0x6C, 0x73, 0x65]

  function Token(e: Event): Text
    requires Printable(e)
  {
    match e
    case Null => NULL_TEXT
    case Bool(b) => if b then TRUE_TEXT else FALSE_TEXT
    case Int(i) => JsonNumber.DecimalInt(i)
    case Uint(u) => JsonNumber.DecimalInt(u)
    case Int64(i) => JsonNumber.DecimalInt(i)
    case Uint64(u) => JsonNumber.DecimalInt(u)
    case Double(t) => t
    case String(s) => JsonString.Quoted(s)
    case Key(s) => JsonString.Quoted(s)
    case StartObject => [LBRACE]
    case EndObject(_) => [RBRACE]
    case StartArray => [LBRACKET]
    case EndArray(_) => [RBRACKET]
  }

  predicate Closes(e: Event) {
    e.EndObject? || e.EndArray?
  }

  /** What one event adds to the output. */
  function EventText(f: Format, w: Writing, e: Event): Text
    requires Accepts(w, e)
  {
    if Closes(e) then ClosingSpace(f, w) + Token(e)
    else Separator(w) + LeadingSpace(f, w) + Token(e)
  }

  /** The writer allows the whole trace. */
  predicate Allowed(w: Writing, tr: seq<Event>)
    decreases |tr|
  {
    tr == [] || (Accepts(w, tr[0]) && Allowed(Next(w, tr[0]), tr[1..]))
  }

  function Final(w: Writing, tr: seq<Event>): Writing
    requires Allowed(w, tr)
    decreases |tr|
  {
    if tr == [] then w else Final(Next(w, tr[0]), tr[1..])
  }

  function Written(f: Format, w: Writing, tr: seq<Event>): Text
    requires Allowed(w, tr)
    decreases |tr|
  {
    if tr == [] then [] else EventText(f, w, tr[0]) + Written(f, Next(w, tr[0]), tr[1..])
  }

  /** A trace that forms exactly one JSON value. */
  predicate WellNested(tr: seq<Event>) {
    Allowed(FRESH, tr) && Complete(Final(FRESH, tr))
  }

  /* ---- the writer as a program ---- */

  class Writer {
    const format: Format
    const os: OutputStream
    var levels: seq<Level>
    var hasRoot: bool

    constructor (format: Format, os: OutputStream)
      requires Legal(format)
      ensures this.format == format && this.os == os && State() == FRESH
    {
      this.format := format;
      this.os := os;
      levels := [];
      hasRoot := false;
    }

    function State(): Writing
      reads this
    {
      Writing(levels, hasRoot)
    }

    method PutN(c: Byte, n: nat)
      modifies os
      ensures os.out == old(os.out) + Repeat(c, n)
    {
      for k := 0 to n
        invariant os.out == old(os.out) + Repeat(c, k)
      {
        os.Put(c);
      }
    }

    method WriteIndent()
      requires format.Pretty?
      modifies os
      ensures os.out == old(os.out) + Indent(format, State())
    {
      PutN(format.indentChar, |levels| * format.indentCount);
    }

    /** What Prefix puts for a value that is not the root. */
    method PutCompact(level: Level)
      requires format.Compact? && levels != [] && level == Top(State())
      modifies os
      ensures os.out == old(os.out) + (Separator(State()) + LeadingSpace(format, State()))
    {
      if level.valueCount > 0 {
        if level.inArray {
          os.Put(COMMA);
        } else {
          os.Put(if level.valueCount % 2 == 0 then COMMA else COLON);
        }
      }
    }

    /** What PrettyPrefix puts for a value that is not the root. */
    method PutPretty(level: Level)
      requires format.Pretty? && levels != [] && level == Top(State())
      modifies os
      ensures os.out == old(os.out) + (Separator(State()) + LeadingSpace(format, State()))
    {
      hide Indent;
      if level.inArray {
        if level.valueCount > 0 {
          os.Put(COMMA);
          if format.singleLineArray {
            os.Put(SPACE);
          }
        }
        if !format.singleLineArray {
          os.Put(LF);
          WriteIndent();
        }
      } else {
        if level.valueCount > 0 {
          if level.valueCount % 2 == 0 {
            os.Put(COMMA);
            os.Put(LF);
          } else {
            os.Put(COLON);
            os.Put(SPACE);
          }
        } else {
          os.Put(LF);
        }
        if level.valueCount % 2 == 0 {
          WriteIndent();
        }
      }
    }

    /** Separator, white space and bookkeeping in front of a value or name. */
    method Prefix()
      requires levels == [] ==> !hasRoot
      modifies this, os
      ensures os.out == old(os.out) + old(Separator(State()) + LeadingSpace(format, State()))
      ensures State() == Started(old(State()))
    {
      if levels != [] {
        var level := levels[|levels| - 1];
        if format.Compact? {
          PutCompact(level);
        } else {
          PutPretty(level);
        }
        levels := levels[..|levels| - 1] + [level.(valueCount := level.valueCount + 1)];
      } else {
        hasRoot := true;
      }
    }

    /** Null, Bool, Int, Uint, Int64, Uint64, String and Key. */
    method Scalar(e: Event)
      requires Accepts(State(), e) && !Closes(e) && !e.StartObject? && !e.StartArray?
      modifies this, os
      ensures os.out == old(os.out) + old(EventText(format, State(), e))
      ensures State() == Next(old(State()), e)
    {
      hide Separator, LeadingSpace, Started, JsonString.Escape, JsonNumber.DecimalInt;
      ghost var w, out := State(), os.out;
      Prefix();
      assert out + (Separator(w) + LeadingSpace(format, w)) + Token(e)
          == out + (Separator(w) + LeadingSpace(format, w) + Token(e));
      if e.String? {
        var _ := JsonString.WriteString(os, e.str);
      } else if e.Key? {
        var _ := JsonString.WriteString(os, e.key);
      } else {
        os.PutAll(Token(e));
      }
    }

    method Start(e: Event)
      requires Accepts(State(), e) && (e.StartObject? || e.StartArray?)
      modifies this, os
      ensures os.out == old(os.out) + old(EventText(format, State(), e))
      ensures State() == Next(old(State()), e)
    {
      Prefix();
      levels := levels + [Level(e.StartArray?, 0)];
      os.Put(if e.StartArray? then LBRACKET else LBRACE);
    }

    method End(e: Event)
      requires Accepts(State(), e) && Closes(e)
      modifies this, os
      ensures os.out == old(os.out) + old(EventText(format, State(), e))
      ensures State() == Next(old(State()), e)
    {
      hide Indent;
      ghost var w, out := State(), os.out;
      var empty := levels[|levels| - 1].valueCount == 0;
      levels := levels[..|levels| - 1];
      assert State() == Popped(w);
      if format.Pretty? && !empty && !(e.EndArray? && format.singleLineArray) {
        os.Put(LF);
        WriteIndent();
        assert os.out == out + ([LF] + Indent(format, Popped(w)));
      }
      assert os.out == out + ClosingSpace(format, w);
      os.Put(if e.EndArray? then RBRACKET else RBRACE);
      assert os.out == out + (ClosingSpace(format, w) + Token(e));
    }

    /** One call of the handler interface. */
    method Handle(e: Event)
      requires Accepts(State(), e)
      modifies this, os
      ensures os.out == old(os.out) + old(EventText(format, State(), e))
      ensures State() == Next(old(State()), e)
    {
      if Closes(e) {
        End(e);
      } else if e.StartObject? || e.StartArray? {
        Start(e);
      } else {
        Scalar(e);
      }
    }

    /** Any allowed sequence of calls writes exactly the text of the trace. */
    method HandleAll(tr: seq<Event>)
      requires Allowed(State(), tr)
      modifies this, os
      ensures os.out == old(os.out) + Written(format, old(State()), tr)
      ensures State() == Final(old(State()), tr)
      decreases |tr|
    {
      hide EventText, Accepts, Next;
      if tr != [] {
        ghost var w, out := State(), os.out;
        Handle(tr[0]);
        HandleAll(tr[1..]);
        ghost var head, tail := EventText(format, w, tr[0]), Written(format, Next(w, tr[0]), tr[1..]);
        assert out + head + tail == out + (head + tail);
      }
    }
  }
}
