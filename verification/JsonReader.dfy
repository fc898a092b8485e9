/** The recursive-descent JSON reader (3rdparty/rapidjson/reader.h, Parse and ParseValue). */
module JsonReader {
  import opened Bytes
  import opened JsonEvents
  import JsonString
  import JsonNumber

  /** Parse flags, and the decision which literals exceed the double range. */
  datatype Config = Config(trailingCommas: bool, stopWhenDone: bool, tooBig: Text -> bool)

  /** Verdict, position behind what was read, and the events sent to an accepting handler, also
      those sent before an error. */
  datatype Parsed = Parsed(ok: bool, pos: nat, evs: seq<Event>)

  function Fail(evs: seq<Event>): Parsed {
    Parsed(false, 0, evs)
  }

  /** Put events in front. */
  function After(evs: seq<Event>, r: Parsed): Parsed {
    Parsed(r.ok, r.pos, evs + r.evs)
  }

  predicate IsSpace(c: Byte) {
    c == SPACE || c == LF || c == CR || c == TAB
  }

  function SkipSpace(s: Text, i: nat): (j: nat)
    requires i <= |s|
    ensures i <= j <= |s| && !IsSpace(Peek(s, j))
    ensures forall k :: i <= k < j ==> IsSpace(s[k])
    decreases |s| - i
  {
    if IsSpace(Peek(s, i)) then SkipSpace(s, i + 1) else i
  }

  /** Member and element counts are 32-bit. */
  function Count(n: nat): nat {
    (n + 1) % 0x1_0000_0000
  }

  const ULL: Text := [0x75, 0x6C, 0x6C]
  const RUE: Text := [0x72, 0x75, 0x65]
  const ALSE: Text := [0x61, 0x6C, 0x73, 0x65]

  /** The rest of a literal name, unit by unit. */
  predicate Matches(s: Text, i: nat, rest: Text)
    decreases |rest|
  {
    rest == [] || (rest[0] != NUL && Peek(s, i) == rest[0] && Matches(s, i + 1, rest[1..]))
  }

  lemma {:induction false} MatchesInside(s: Text, i: nat, rest: Text)
    requires i <= |s| && Matches(s, i, rest)
    ensures i + |rest| <= |s|
    decreases |rest|
  {
    if rest != [] { MatchesInside(s, i + 1, rest[1..]); }
  }

  function ReadLiteral(s: Text, i: nat, rest: Text, ev: Event): (r: Parsed)
    requires i < |s|
    ensures if r.ok then i < r.pos <= |s| else r.pos == 0
  {
    if Matches(s, i + 1, rest) then
      MatchesInside(s, i + 1, rest);
      Parsed(true, i + 1 + |rest|, [ev])
    else Fail([])
  }

  function ReadKeyOrString(s: Text, i: nat, isKey: bool): (r: Parsed)
    requires i < |s|
    ensures if r.ok then i < r.pos <= |s| else r.pos == 0
  {
    match JsonString.ReadString(s, i + 1)
    case StringError => Fail([])
    case StringOk(next, bytes) => Parsed(true, next, [if isKey then Key(bytes) else String(bytes)])
  }

  /** Every value that is not an object or array. */
  function ReadScalar(c: Config, s: Text, i: nat): (r: Parsed)
    requires i <= |s|
    ensures if r.ok then i < r.pos <= |s| else r.pos == 0
  {
    var u := Peek(s, i);
    if u == 0x6E then ReadLiteral(s, i, ULL, Null)
    else if u == 0x74 then ReadLiteral(s, i, RUE, Bool(true))
    else if u == 0x66 then ReadLiteral(s, i, ALSE, Bool(false))
    else if u == QUOTE then ReadKeyOrString(s, i, false)
    else match JsonNumber.ReadNumber(c.tooBig, s, i)
      case NumberError => Fail([])
      case NumberOk(next, ev) => Parsed(true, next, [ev])
  }

  function ReadValue(c: Config, s: Text, i: nat): (r: Parsed)
    requires i <= |s|
    ensures if r.ok then i < r.pos <= |s| else r.pos == 0
    decreases |s| - i, 1
  {
    if Peek(s, i) == LBRACE then ReadObject(c, s, i)
    else if Peek(s, i) == LBRACKET then ReadArray(c, s, i)
    else ReadScalar(c, s, i)
  }

  function ReadObject(c: Config, s: Text, i: nat): (r: Parsed)
    requires i < |s|
    ensures if r.ok then i < r.pos <= |s| else r.pos == 0
    decreases |s| - i, 0
  {
    var j := SkipSpace(s, i + 1);
    if Peek(s, j) == RBRACE then Parsed(true, j + 1, [StartObject, EndObject(0)])
    else After([StartObject], ReadMembers(c, s, j, 0))
  }

  /** A member name and its value, up to the comma or brace behind them. */
  function ReadMember(c: Config, s: Text, i: nat): (r: Parsed)
    requires i <= |s|
    ensures if r.ok then i < r.pos <= |s| else r.pos == 0
    decreases |s| - i, 2
  {
    if Peek(s, i) != QUOTE then Fail([]) else
    var k := ReadKeyOrString(s, i, true);
    if !k.ok then k else
    var j := SkipSpace(s, k.pos);
    if Peek(s, j) != COLON then Fail(k.evs) else
    var v := ReadValue(c, s, SkipSpace(s, j + 1));
    if !v.ok then Fail(k.evs + v.evs) else Parsed(true, SkipSpace(s, v.pos), k.evs + v.evs)
  }

  /** One turn of the member or element loop: an error, the closing bracket, or the next turn. */
  datatype Turn = Broken(evs: seq<Event>) | Closed(evs: seq<Event>, pos: nat) | Next(evs: seq<Event>, pos: nat)

  function MemberTurn(c: Config, s: Text, i: nat, count: nat): (t: Turn)
    requires i <= |s|
    ensures !t.Broken? ==> i < t.pos <= |s|
    decreases |s| - i, 3
  {
    var m := ReadMember(c, s, i);
    if !m.ok then Broken(m.evs)
    else if Peek(s, m.pos) == COMMA then
      var j := SkipSpace(s, m.pos + 1);
      if c.trailingCommas && Peek(s, j) == RBRACE then Closed(m.evs + [EndObject(Count(count))], j + 1)
      else Next(m.evs, j)
    else if Peek(s, m.pos) == RBRACE then Closed(m.evs + [EndObject(Count(count))], m.pos + 1)
    else Broken(m.evs)
  }

  /** The members from a member name on, `count` members having been read. */
  function ReadMembers(c: Config, s: Text, i: nat, count: nat): (r: Parsed)
    requires i <= |s|
    ensures if r.ok then i < r.pos <= |s| else r.pos == 0
    decreases |s| - i, 4
  {
    match MemberTurn(c, s, i, count)
    case Broken(evs) => Fail(evs)
    case Closed(evs, pos) => Parsed(true, pos, evs)
    case Next(evs, pos) => After(evs, ReadMembers(c, s, pos, Count(count)))
  }

  function ReadArray(c: Config, s: Text, i: nat): (r: Parsed)
    requires i < |s|
    ensures if r.ok then i < r.pos <= |s| else r.pos == 0
    decreases |s| - i, 0
  {
    var j := SkipSpace(s, i + 1);
    if Peek(s, j) == RBRACKET then Parsed(true, j + 1, [StartArray, EndArray(0)])
    else After([StartArray], ReadElements(c, s, j, 0))
  }

  function ElementTurn(c: Config, s: Text, i: nat, count: nat): (t: Turn)
    requires i <= |s|
    ensures !t.Broken? ==> i < t.pos <= |s|
    decreases |s| - i, 3
  {
    var v := ReadValue(c, s, i);
    if !v.ok then Broken(v.evs) else
    var e := SkipSpace(s, v.pos);
    if Peek(s, e) == COMMA then
      var j := SkipSpace(s, e + 1);
      if c.trailingCommas && Peek(s, j) == RBRACKET then Closed(v.evs + [EndArray(Count(count))], j + 1)
      else Next(v.evs, j)
    else if Peek(s, e) == RBRACKET then Closed(v.evs + [EndArray(Count(count))], e + 1)
    else Broken(v.evs)
  }

  /** The elements from a value on, `count` elements having been read. */
  function ReadElements(c: Config, s: Text, i: nat, count: nat): (r: Parsed)
    requires i <= |s|
    ensures if r.ok then i < r.pos <= |s| else r.pos == 0
    decreases |s| - i, 4
  {
    match ElementTurn(c, s, i, count)
    case Broken(evs) => Fail(evs)
    case Closed(evs, pos) => Parsed(true, pos, evs)
    case Next(evs, pos) => After(evs, ReadElements(c, s, pos, Count(count)))
  }

  /** A whole document. */
  function ReadDocument(c: Config, s: Text): (r: Parsed) {
    var i := SkipSpace(s, 0);
    if Peek(s, i) == NUL then Fail([]) else
    var v := ReadValue(c, s, i);
    if !v.ok || c.stopWhenDone then v else
    var j := SkipSpace(s, v.pos);
    if Peek(s, j) != NUL then Fail(v.evs) else Parsed(true, j, v.evs)
  }

  lemma Appended(before: seq<Event>, evs: seq<Event>, ev: Event)
    ensures (before + evs) + [ev] == before + (evs + [ev])
  {
  }

  /** The reader: an input stream, the events its handler has received, and the error flag. */
  class Reader {
    const cfg: Config
    const input: InputStream
    var events: seq<Event>
    var error: bool

    constructor (cfg: Config, input: InputStream)
      ensures this.cfg == cfg && this.input == input && events == [] && !error
    {
      this.cfg := cfg;
      this.input := input;
      events := [];
      error := false;
    }

    ghost predicate Ready()
      reads this, input
    {
      !error && input.pos <= |input.src|
    }

    /** The reader did what `r` says, starting with the events `before`. */
    ghost predicate Did(r: Parsed, before: seq<Event>)
      reads this, input
    {
      && error == !r.ok
      && events == before + r.evs
      && (r.ok ==> input.pos == r.pos)
      && input.pos <= |input.src|
    }

    method SkipWhitespace()
      requires Ready()
      modifies input`pos
      ensures input.pos == SkipSpace(input.src, old(input.pos))
    {
      while IsSpace(Peek(input.src, input.pos))
        invariant input.pos <= |input.src|
        invariant SkipSpace(input.src, input.pos) == SkipSpace(input.src, old(input.pos))
        decreases |input.src| - input.pos
      {
        var _ := input.Take();
      }
    }

    method Send(ev: Event)
      modifies this`events
      ensures events == old(events) + [ev]
    {
      events := events + [ev];
    }

    method ParseLiteral(rest: Text, ev: Event)
      requires Ready() && input.pos < |input.src|
      modifies this`events, this`error, input`pos
      ensures Did(ReadLiteral(input.src, old(input.pos), rest, ev), old(events))
    {
      var _ := input.Take();
      ghost var start := input.pos;
      var k := 0;
      assert rest[0..] == rest;
      while k < |rest| && rest[k] != NUL && Peek(input.src, input.pos) == rest[k]
        invariant !error && events == old(events)
        invariant k <= |rest| && input.pos == old(input.pos) + 1 + k <= |input.src|
        invariant Matches(input.src, input.pos, rest[k..]) == Matches(input.src, start, rest)
      {
        var _ := input.Take();
        assert rest[k..][1..] == rest[k + 1..];
        k := k + 1;
      }
      if k == |rest| {
        assert Matches(input.src, input.pos, rest[k..]);
        Send(ev);
      } else {
        assert !Matches(input.src, input.pos, rest[k..]);
        error := true;
      }
    }

    method ParseString(isKey: bool)
      requires Ready() && input.pos < |input.src|
      modifies this`events, this`error, input`pos
      ensures Did(ReadKeyOrString(input.src, old(input.pos), isKey), old(events))
    {
      var _ := input.Take();
      var stack := new OutputStream();
      ghost var r := JsonString.ReadString(input.src, input.pos);
      var ok := JsonString.ParseStringToStream(input, stack);
      if !ok {
        error := true;
        return;
      }
      var length := |stack.out| - 1;
      var str := stack.out[..length];
      assert str == r.bytes;
      Send(if isKey then Key(str) else String(str));
    }

    method ParseNumber()
      requires Ready()
      modifies this`events, this`error, input`pos
      ensures var r := JsonNumber.ReadNumber(cfg.tooBig, input.src, old(input.pos));
              Did(if r.NumberOk? then Parsed(true, r.next, [r.ev]) else Fail([]), old(events))
    {
      var ok, ev := JsonNumber.ParseNumber(input, cfg.tooBig);
      if ok {
        Send(ev);
      } else {
        error := true;
      }
    }

    method ParseScalar()
      requires Ready()
      modifies this`events, this`error, input`pos
      ensures Did(ReadScalar(cfg, input.src, old(input.pos)), old(events))
    {
      var u := Peek(input.src, input.pos);
      if u == 0x6E {
        ParseLiteral(ULL, Null);
      } else if u == 0x74 {
        ParseLiteral(RUE, Bool(true));
      } else if u == 0x66 {
        ParseLiteral(ALSE, Bool(false));
      } else if u == QUOTE {
        ParseString(false);
      } else {
        ParseNumber();
      }
    }

    method ParseValue()
      requires Ready()
      modifies this`events, this`error, input`pos
      ensures Did(ReadValue(cfg, input.src, old(input.pos)), old(events))
      decreases |input.src| - input.pos, 1
    {
      var u := Peek(input.src, input.pos);
      if u == LBRACE {
        ParseObject();
      } else if u == LBRACKET {
        ParseArray();
      } else {
        ParseScalar();
      }
    }

    method ParseMember()
      requires Ready()
      modifies this`events, this`error, input`pos
      ensures Did(ReadMember(cfg, input.src, old(input.pos)), old(events))
      decreases |input.src| - input.pos, 2
    {
      ghost var before := events;
      if Peek(input.src, input.pos) != QUOTE {
        error := true;
        return;
      }
      ParseString(true);
      if error {
        return;
      }
      ghost var k := ReadKeyOrString(input.src, old(input.pos), true);
      SkipWhitespace();
      var colon := JsonString.Consume(input, COLON);
      if !colon {
        error := true;
        return;
      }
      SkipWhitespace();
      ghost var v := ReadValue(cfg, input.src, input.pos);
      ParseValue();
      assert before + k.evs + v.evs == before + (k.evs + v.evs);
      if error {
        return;
      }
      SkipWhitespace();
    }

    method ParseObject()
      requires Ready() && input.pos < |input.src|
      modifies this`events, this`error, input`pos
      ensures Did(ReadObject(cfg, input.src, old(input.pos)), old(events))
      decreases |input.src| - input.pos, 0
    {
      var _ := input.Take();
      Send(StartObject);
      SkipWhitespace();
      var closed := JsonString.Consume(input, RBRACE);
      if closed {
        Send(EndObject(0));
      } else {
        ghost var r := ReadMembers(cfg, input.src, input.pos, 0);
        ParseMembers();
        assert old(events) + [StartObject] + r.evs == old(events) + ([StartObject] + r.evs);
      }
    }

    /** One turn of the member loop. */
    method ParseMemberTurn(count: nat) returns (open: bool)
      requires Ready()
      modifies this`events, this`error, input`pos
      ensures var t := MemberTurn(cfg, input.src, old(input.pos), count);
              && error == t.Broken? && (error ==> !open) && open == t.Next?
              && events == old(events) + t.evs
              && input.pos <= |input.src|
              && (!error ==> input.pos == t.pos)
      decreases |input.src| - input.pos, 3
    {
      hide ReadMember, Count, SkipSpace;
      ghost var m, before := ReadMember(cfg, input.src, input.pos), events;
      open := false;
      ParseMember();
      if error {
        return;
      }
      var u := Peek(input.src, input.pos);
      if u == COMMA {
        var _ := input.Take();
        SkipWhitespace();
      } else if u == RBRACE {
        var _ := input.Take();
        Send(EndObject(Count(count)));
        Appended(before, m.evs, EndObject(Count(count)));
        return;
      } else {
        error := true;
        return;
      }
      if cfg.trailingCommas {
        if Peek(input.src, input.pos) == RBRACE {
          Send(EndObject(Count(count)));
          Appended(before, m.evs, EndObject(Count(count)));
          var _ := input.Take();
          return;
        }
      }
      open := true;
    }

    /** The member loop. */
    method ParseMembers()
      requires Ready()
      modifies this`events, this`error, input`pos
      ensures Did(ReadMembers(cfg, input.src, old(input.pos), 0), old(events))
      decreases |input.src| - input.pos, 4
    {
      hide MemberTurn, Count;
      var memberCount: nat := 0;
      var open := true;
      ghost var whole := ReadMembers(cfg, input.src, input.pos, 0);
      ghost var read: seq<Event> := [];
      assert read + whole.evs == whole.evs;
      while open
        invariant !error && old(input.pos) <= input.pos <= |input.src|
        invariant events == old(events) + read
        invariant open ==> whole == After(read, ReadMembers(cfg, input.src, input.pos, memberCount))
        invariant !open ==> whole == Parsed(true, input.pos, read)
        decreases open, |input.src| - input.pos
      {
        ghost var had := read;
        ghost var t := MemberTurn(cfg, input.src, input.pos, memberCount);
        open := ParseMemberTurn(memberCount);
        read := read + t.evs;
        assert events == old(events) + read;
        if error {
          return;
        }
        memberCount := Count(memberCount);
        if open {
          ghost var rest := ReadMembers(cfg, input.src, input.pos, memberCount);
          assert had + (t.evs + rest.evs) == read + rest.evs;
        }
      }
    }

    method ParseArray()
      requires Ready() && input.pos < |input.src|
      modifies this`events, this`error, input`pos
      ensures Did(ReadArray(cfg, input.src, old(input.pos)), old(events))
      decreases |input.src| - input.pos, 0
    {
      var _ := input.Take();
      Send(StartArray);
      SkipWhitespace();
      var closed := JsonString.Consume(input, RBRACKET);
      if closed {
        Send(EndArray(0));
      } else {
        ghost var r := ReadElements(cfg, input.src, input.pos, 0);
        ParseElements();
        assert old(events) + [StartArray] + r.evs == old(events) + ([StartArray] + r.evs);
      }
    }

    /** One turn of the element loop. */
    method ParseElementTurn(count: nat) returns (open: bool)
      requires Ready()
      modifies this`events, this`error, input`pos
      ensures var t := ElementTurn(cfg, input.src, old(input.pos), count);
              && error == t.Broken? && (error ==> !open) && open == t.Next?
              && events == old(events) + t.evs
              && input.pos <= |input.src|
              && (!error ==> input.pos == t.pos)
      decreases |input.src| - input.pos, 3
    {
      hide ReadValue, Count, SkipSpace;
      ghost var v, before := ReadValue(cfg, input.src, input.pos), events;
      open := false;
      ParseValue();
      if error {
        return;
      }
      SkipWhitespace();
      var comma := JsonString.Consume(input, COMMA);
      if comma {
        SkipWhitespace();
      } else {
        var closed := JsonString.Consume(input, RBRACKET);
        if closed {
          Send(EndArray(Count(count)));
          Appended(before, v.evs, EndArray(Count(count)));
        } else {
          error := true;
        }
        return;
      }
      if cfg.trailingCommas {
        if Peek(input.src, input.pos) == RBRACKET {
          Send(EndArray(Count(count)));
          Appended(before, v.evs, EndArray(Count(count)));
          var _ := input.Take();
          return;
        }
      }
      open := true;
    }

    /** The element loop. */
    method ParseElements()
      requires Ready()
      modifies this`events, this`error, input`pos
      ensures Did(ReadElements(cfg, input.src, old(input.pos), 0), old(events))
      decreases |input.src| - input.pos, 4
    {
      hide ElementTurn, Count;
      var elementCount: nat := 0;
      var open := true;
      ghost var whole := ReadElements(cfg, input.src, input.pos, 0);
      ghost var read: seq<Event> := [];
      assert read + whole.evs == whole.evs;
      while open
        invariant !error && old(input.pos) <= input.pos <= |input.src|
        invariant events == old(events) + read
        invariant open ==> whole == After(read, ReadElements(cfg, input.src, input.pos, elementCount))
        invariant !open ==> whole == Parsed(true, input.pos, read)
        decreases open, |input.src| - input.pos
      {
        ghost var had := read;
        ghost var t := ElementTurn(cfg, input.src, input.pos, elementCount);
        open := ParseElementTurn(elementCount);
        read := read + t.evs;
        assert events == old(events) + read;
        if error {
          return;
        }
        elementCount := Count(elementCount);
        if open {
          ghost var rest := ReadElements(cfg, input.src, input.pos, elementCount);
          assert had + (t.evs + rest.evs) == read + rest.evs;
        }
      }
    }

    method Parse()
      requires Ready() && input.pos == 0 && events == []
      modifies this`events, this`error, input`pos
      ensures Did(ReadDocument(cfg, input.src), [])
    {
      SkipWhitespace();
      if Peek(input.src, input.pos) == NUL {
        error := true;
        return;
      }
      ParseValue();
      if error {
        return;
      }
      if !cfg.stopWhenDone {
        SkipWhitespace();
        if Peek(input.src, input.pos) != NUL {
          error := true;
        }
      }
    }
  }
}
