/** What a handler can rely on: the events are properly nested on every input, also on a malformed one and up
    to the error (3rdparty/rapidjson/reader.h, ParseValue, ParseObject and ParseArray). */
module JsonNesting {
  import opened Bytes
  import opened Wrappers
  import opened JsonEvents
  import opened JsonReader
  import JsonMachine

  /** In an array, in front of a name or of the end of an object, and in front of the value behind a name. */
  datatype Level = InArray | BeforeName | BeforeValue

  /** The arrays and objects that are open, and whether the document's value has begun. */
  datatype Nesting = Nesting(levels: seq<Level>, begun: bool)

  const START := Nesting([], false)

  predicate On(w: Nesting, l: Level) {
    w.levels != [] && w.levels[|w.levels| - 1] == l
  }

  predicate WantsValue(w: Nesting) {
    if w.levels == [] then !w.begun else !On(w, BeforeName)
  }

  function Below(w: Nesting): Nesting
    requires w.levels != []
  {
    w.(levels := w.levels[..|w.levels| - 1])
  }

  function Above(w: Nesting, l: Level): Nesting {
    w.(levels := w.levels + [l])
  }

  /** A value has begun. */
  function WithValue(w: Nesting): Nesting
    requires WantsValue(w)
  {
    if w.levels == [] then w.(begun := true) else if On(w, BeforeValue) then Above(Below(w), BeforeName) else w
  }

  /** The state behind an event; None where the event must not come. */
  function Step(w: Nesting, e: Event): Option<Nesting> {
    match e
    case Key(_) => if On(w, BeforeName) then Some(Above(Below(w), BeforeValue)) else None
    case EndObject(_) => if On(w, BeforeName) then Some(Below(w)) else None
    case EndArray(_) => if On(w, InArray) then Some(Below(w)) else None
    case StartObject => if WantsValue(w) then Some(Above(WithValue(w), BeforeName)) else None
    case StartArray => if WantsValue(w) then Some(Above(WithValue(w), InArray)) else None
    case _ => if WantsValue(w) then Some(WithValue(w)) else None
  }

  function Nest(w: Nesting, tr: seq<Event>): Option<Nesting>
    decreases |tr|
  {
    if tr == [] then Some(w)
    else if Step(w, tr[0]).None? then None
    else Nest(Step(w, tr[0]).value, tr[1..])
  }

  lemma {:induction false} NestConcat(w: Nesting, a: seq<Event>, b: seq<Event>)
    requires Nest(w, a).Some?
    ensures Nest(w, a + b) == Nest(Nest(w, a).value, b)
    decreases |a|
  {
    hide Step;
    if a == [] {
      assert a + b == b;
    } else {
      assert (a + b)[0] == a[0] && (a + b)[1..] == a[1..] + b;
      NestConcat(Step(w, a[0]).value, a[1..], b);
    }
  }

  lemma NestOne(w: Nesting, e: Event)
    ensures Nest(w, [e]) == Step(w, e)
  {
    hide Step;
    assert [e][1..] == [];
    if Step(w, e).Some? {
      assert Nest(Step(w, e).value, []) == Step(w, e);
    }
  }

  /** An event of a scalar. */
  predicate IsScalar(e: Event) {
    !e.Key? && !e.StartObject? && !e.StartArray? && !e.EndObject? && !e.EndArray?
  }

  lemma ScalarEvents(c: Config, s: Text, i: nat)
    requires i <= |s|
    ensures var r := ReadScalar(c, s, i); if r.ok then |r.evs| == 1 && IsScalar(r.evs[0]) else r.evs == []
  {
  }

  lemma KeyEvents(s: Text, i: nat)
    requires i < |s| && Peek(s, i) == QUOTE
    ensures var r := ReadKeyOrString(s, i, true); if r.ok then |r.evs| == 1 && r.evs[0].Key? else r.evs == []
  {
  }

  /** A value nests, and has been put when it is complete. */
  ghost predicate Puts(w: Nesting, r: Parsed, after: Nesting) {
    Nest(w, r.evs).Some? && (r.ok ==> Nest(w, r.evs) == Some(after))
  }

  lemma {:induction false} ValueNests(c: Config, s: Text, i: nat, w: Nesting)
    requires i <= |s| && WantsValue(w)
    ensures Puts(w, ReadValue(c, s, i), WithValue(w))
    decreases |s| - i, 1
  {
    hide ReadScalar, ReadObject, ReadArray, Step;
    if Peek(s, i) == LBRACE {
      ObjectNests(c, s, i, w);
    } else if Peek(s, i) == LBRACKET {
      ArrayNests(c, s, i, w);
    } else {
      ScalarNests(c, s, i, w);
    }
  }

  lemma ScalarNests(c: Config, s: Text, i: nat, w: Nesting)
    requires i <= |s| && WantsValue(w)
    ensures Puts(w, ReadScalar(c, s, i), WithValue(w))
  {
    ScalarEvents(c, s, i);
    hide ReadScalar;
    var r := ReadScalar(c, s, i);
    if r.ok {
      NestOne(w, r.evs[0]);
      assert r.evs == [r.evs[0]];
    }
  }

  /** The opening bracket, and then what is read behind it. */
  lemma OpenNests(w: Nesting, open: Event, r: Parsed)
    requires WantsValue(w) && (open.StartObject? || open.StartArray?)
    requires Puts(Above(WithValue(w), if open.StartObject? then BeforeName else InArray), r, WithValue(w))
    ensures Puts(w, After([open], r), WithValue(w))
  {
    NestOne(w, open);
    NestConcat(w, [open], r.evs);
    hide Nest;
  }

  lemma ClosesAtOnce(w: Nesting, open: Event, close: Event)
    requires WantsValue(w)
    requires (open.StartObject? && close.EndObject?) || (open.StartArray? && close.EndArray?)
    ensures Nest(w, [open, close]) == Some(WithValue(w))
  {
    NestOne(w, open);
    NestConcat(w, [open], [close]);
    var v := Step(w, open).value;
    NestOne(v, close);
    assert Below(v) == WithValue(w);
    hide Nest;
  }

  lemma {:induction false} ObjectNests(c: Config, s: Text, i: nat, w: Nesting)
    requires i < |s| && WantsValue(w)
    ensures Puts(w, ReadObject(c, s, i), WithValue(w))
    decreases |s| - i, 0
  {
    hide ReadMembers, SkipSpace, Step, WithValue;
    var j := SkipSpace(s, i + 1);
    if Peek(s, j) == RBRACE {
      ClosesAtOnce(w, StartObject, EndObject(0));
    } else {
      var v := Above(WithValue(w), BeforeName);
      assert Below(v) == WithValue(w);
      MembersNest(c, s, j, 0, v);
      OpenNests(w, StartObject, ReadMembers(c, s, j, 0));
    }
  }

  lemma {:induction false} ArrayNests(c: Config, s: Text, i: nat, w: Nesting)
    requires i < |s| && WantsValue(w)
    ensures Puts(w, ReadArray(c, s, i), WithValue(w))
    decreases |s| - i, 0
  {
    hide ReadElements, SkipSpace, Step, WithValue;
    var j := SkipSpace(s, i + 1);
    if Peek(s, j) == RBRACKET {
      ClosesAtOnce(w, StartArray, EndArray(0));
    } else {
      var v := Above(WithValue(w), InArray);
      assert Below(v) == WithValue(w);
      ElementsNest(c, s, j, 0, v);
      OpenNests(w, StartArray, ReadElements(c, s, j, 0));
    }
  }

  /** Behind a name, and behind the value that follows it. */
  lemma NameNests(w: Nesting, key: Event, r: Parsed)
    requires On(w, BeforeName) && key.Key?
    requires Puts(Above(Below(w), BeforeValue), r, w)
    ensures Puts(w, Parsed(r.ok, r.pos, [key] + r.evs), w)
  {
    NestOne(w, key);
    NestConcat(w, [key], r.evs);
    hide Nest;
  }

  lemma BehindName(w: Nesting)
    requires On(w, BeforeName)
    ensures var v := Above(Below(w), BeforeValue); WantsValue(v) && WithValue(v) == w
  {
    var v := Above(Below(w), BeforeValue);
    assert Below(v) == Below(w);
    assert Above(Below(w), BeforeName) == w;
  }

  lemma NameAlone(w: Nesting, key: Event)
    requires On(w, BeforeName) && key.Key?
    ensures Nest(w, [key]).Some?
  {
    NestOne(w, key);
  }

  lemma {:induction false} MemberNests(c: Config, s: Text, i: nat, w: Nesting)
    requires i <= |s| && On(w, BeforeName)
    ensures Puts(w, ReadMember(c, s, i), w)
    decreases |s| - i, 2
  {
    hide ReadKeyOrString, ReadValue, SkipSpace, Step, WithValue, WantsValue;
    if Peek(s, i) == QUOTE {
      KeyEvents(s, i);
      var k := ReadKeyOrString(s, i, true);
      if k.ok {
        assert k.evs == [k.evs[0]];
        NameAlone(w, k.evs[0]);
        var j := SkipSpace(s, k.pos);
        if Peek(s, j) == COLON {
          var d := SkipSpace(s, j + 1);
          BehindName(w);
          ValueNests(c, s, d, Above(Below(w), BeforeValue));
          NameNests(w, k.evs[0], ReadValue(c, s, d));
        }
      }
    }
  }

  /** One item and its closing bracket. */
  lemma LastNests(w: Nesting, evs: seq<Event>, close: Event)
    requires w.levels != [] && Nest(w, evs) == Some(w) && Step(w, close) == Some(Below(w))
    ensures Nest(w, evs + [close]) == Some(Below(w))
  {
    NestConcat(w, evs, [close]);
    NestOne(w, close);
  }

  /** One item and the rest. */
  lemma RestNests(w: Nesting, evs: seq<Event>, r: Parsed, after: Nesting)
    requires Nest(w, evs) == Some(w) && Puts(w, r, after)
    ensures Puts(w, After(evs, r), after)
  {
    NestConcat(w, evs, r.evs);
    hide Nest;
  }

  lemma {:induction false} MembersNest(c: Config, s: Text, i: nat, count: nat, w: Nesting)
    requires i <= |s| && On(w, BeforeName)
    ensures Puts(w, ReadMembers(c, s, i, count), Below(w))
    decreases |s| - i, 4
  {
    hide ReadMember, SkipSpace, Count, Nest;
    var m := ReadMember(c, s, i);
    MemberNests(c, s, i, w);
    if m.ok {
      LastNests(w, m.evs, EndObject(Count(count)));
    }
    var t := MemberTurn(c, s, i, count);
    if t.Next? {
      MembersNest(c, s, t.pos, Count(count), w);
      RestNests(w, t.evs, ReadMembers(c, s, t.pos, Count(count)), Below(w));
    }
  }

  lemma {:induction false} ElementsNest(c: Config, s: Text, i: nat, count: nat, w: Nesting)
    requires i <= |s| && On(w, InArray)
    ensures Puts(w, ReadElements(c, s, i, count), Below(w))
    decreases |s| - i, 4
  {
    hide ReadValue, SkipSpace, Count, Nest;
    var v := ReadValue(c, s, i);
    ValueNests(c, s, i, w);
    if v.ok {
      LastNests(w, v.evs, EndArray(Count(count)));
    }
    var t := ElementTurn(c, s, i, count);
    if t.Next? {
      ElementsNest(c, s, t.pos, Count(count), w);
      RestNests(w, t.evs, ReadElements(c, s, t.pos, Count(count)), Below(w));
    }
  }

  /** Whatever the input is, both parsers send a handler events that nest, and behind a document that is read
      to its end nothing is left open. */
  lemma EventsNest(c: Config, s: Text)
    ensures var r := ReadDocument(c, s);
            && JsonMachine.RunDocument(c, s).evs == r.evs
            && Nest(START, r.evs).Some?
            && (r.ok ==> Nest(START, r.evs) == Some(Nesting([], true)))
  {
    JsonMachine.ParsersAgree(c, s);
    var i := SkipSpace(s, 0);
    ValueNests(c, s, i, START);
    hide ReadValue, SkipSpace, JsonMachine.RunDocument;
  }
}
