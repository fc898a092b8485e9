/** JSON values as trees, and the round trip from a tree through text and back. */
module JsonTree {
  import opened Bytes
  import opened JsonEvents
  import JsonNumber
  import R = JsonReader
  import M = JsonMachine
  import opened JsonWriter
  import opened JsonRoundTrip

  datatype Json =
    | NullValue
    | BoolValue(b: bool)
    | NumberValue(n: int)
    | StringValue(str: Text)
    | ArrayValue(elements: seq<Json>)
    | ObjectValue(members: seq<Member>)

  datatype Member = Member(name: Text, value: Json)

  /** Numbers are 64-bit integers and sizes are 32-bit. */
  predicate InRange(t: Json) {
    match t
    case NumberValue(n) => -0x8000_0000_0000_0000 <= n <= 0xFFFF_FFFF_FFFF_FFFF
    case ArrayValue(es) => |es| < 0x1_0000_0000 && forall e <- es :: InRange(e)
    case ObjectValue(ms) => |ms| < 0x1_0000_0000 && forall m <- ms :: InRange(m.value)
    case _ => true
  }

  /** The events of a value, in document order, with its sizes. */
  function Events(t: Json): seq<Event>
    requires InRange(t)
    decreases t, 0
  {
    match t
    case NullValue => [Null]
    case BoolValue(b) => [Bool(b)]
    case NumberValue(n) => [JsonNumber.CanonicalInt(n)]
    case StringValue(s) => [String(s)]
    case ArrayValue(es) => [StartArray] + ElementEvents(es) + [EndArray(|es|)]
    case ObjectValue(ms) => [StartObject] + MemberEvents(ms) + [EndObject(|ms|)]
  }

  function ElementEvents(es: seq<Json>): seq<Event>
    requires forall e <- es :: InRange(e)
    decreases es, 1
  {
    if es == [] then [] else Events(es[0]) + ElementEvents(es[1..])
  }

  function MemberEvents(ms: seq<Member>): seq<Event>
    requires forall m <- ms :: InRange(m.value)
    decreases ms, 1
  {
    if ms == [] then [] else
    assert ms[0] in ms;
    [Key(ms[0].name)] + Events(ms[0].value) + MemberEvents(ms[1..])
  }

  /* ---- traces of trees are well-nested ---- */

  /** The writer, in state `w`, takes the trace, ends in `v`, and the reader gets the same trace. */
  predicate Takes(w: Writing, tr: seq<Event>, v: Writing) {
    Allowed(w, tr) && Final(w, tr) == v && ReadAllAs(w, tr) == tr
  }

  lemma {:induction false} TakesConcat(w: Writing, a: seq<Event>, v: Writing, b: seq<Event>, u: Writing)
    requires Takes(w, a, v) && Takes(v, b, u)
    ensures Takes(w, a + b, u)
    decreases |a|
  {
    hide Accepts, Next, ReadAs;
    if a == [] {
      assert a + b == b;
    } else {
      assert (a + b)[0] == a[0] && (a + b)[1..] == a[1..] + b;
      assert ReadAllAs(w, a)[0] == a[0] && ReadAllAs(w, a)[1..] == a[1..];
      TakesConcat(Next(w, a[0]), a[1..], v, b, u);
    }
  }

  lemma TakesOne(w: Writing, e: Event)
    requires Accepts(w, e) && ReadAs(w, e) == e
    ensures Takes(w, [e], Next(w, e))
  {
    hide Accepts, Next, ReadAs;
    assert [e][0] == e && [e][1..] == [];
    assert Allowed(Next(w, e), []) && Final(Next(w, e), []) == Next(w, e);
    assert Allowed(w, [e]);
    assert ReadAllAs(w, [e]) == [ReadAs(w, e)] + ReadAllAs(Next(w, e), []);
  }

  predicate ExpectsValue(w: Writing) {
    if w.levels == [] then !w.hasRoot else Top(w).inArray || Top(w).valueCount % 2 == 1
  }

  lemma {:induction false} TakesTree(w: Writing, t: Json)
    requires InRange(t) && ExpectsValue(w)
    ensures Takes(w, Events(t), Started(w))
    decreases t, 0
  {
    match t
    case ArrayValue(es) => TakesArray(w, es);
    case ObjectValue(ms) => TakesObject(w, ms);
    case NullValue => TakesOne(w, Null);
    case BoolValue(b) => TakesOne(w, Bool(b));
    case NumberValue(n) => TakesOne(w, JsonNumber.CanonicalInt(n));
    case StringValue(s) => TakesOne(w, String(s));
  }

  /** A whole array or object, from its opening to its closing event. */
  lemma TakesBracketed(w: Writing, open: Event, inner: seq<Event>, close: Event, u: Writing)
    requires Accepts(w, open) && (open.StartArray? || open.StartObject?)
    requires Takes(Next(w, open), inner, u)
    requires Accepts(u, close) && ReadAs(u, close) == close && Next(u, close) == Started(w)
    ensures Takes(w, [open] + inner + [close], Started(w))
  {
    TakesOne(w, open);
    TakesOne(u, close);
    hide Takes, Accepts;
    TakesConcat(w, [open], Next(w, open), inner, u);
    TakesConcat(w, [open] + inner, u, [close], Started(w));
  }

  /** A level with `l` on top of the levels of `w`. */
  function OnTop(w: Writing, l: Level): (v: Writing)
    ensures v.levels != []
  {
    w.(levels := w.levels + [l])
  }

  lemma GrownOnTop(w: Writing, l: Level, n: nat)
    ensures Grown(OnTop(w, l), n) == OnTop(w, l.(valueCount := l.valueCount + n))
    ensures Top(OnTop(w, l)) == l && Popped(OnTop(w, l)) == w
  {
    assert Popped(OnTop(w, l)).levels == w.levels;
    assert Grown(OnTop(w, l), n).levels == OnTop(w, l.(valueCount := l.valueCount + n)).levels;
  }

  lemma Opens(w: Writing)
    requires ExpectsValue(w)
    ensures Next(w, StartArray) == OnTop(Started(w), Level(true, 0))
    ensures Next(w, StartObject) == OnTop(Started(w), Level(false, 0))
  {
  }

  lemma {:induction false} TakesArray(w: Writing, es: seq<Json>)
    requires InRange(ArrayValue(es)) && ExpectsValue(w)
    ensures Takes(w, Events(ArrayValue(es)), Started(w))
    decreases es, 2
  {
    hide Takes, Grown, Started, OnTop;
    var v := OnTop(Started(w), Level(true, 0));
    var u := OnTop(Started(w), Level(true, |es|));
    assert Next(w, StartArray) == v by { Opens(w); }
    GrownOnTop(Started(w), Level(true, 0), |es|);
    GrownOnTop(Started(w), Level(true, |es|), 0);
    TakesElements(v, es);
    TakesBracketed(w, StartArray, ElementEvents(es), EndArray(|es|), u);
  }

  lemma {:induction false} TakesObject(w: Writing, ms: seq<Member>)
    requires InRange(ObjectValue(ms)) && ExpectsValue(w)
    ensures Takes(w, Events(ObjectValue(ms)), Started(w))
    decreases ms, 2
  {
    hide Takes, Grown, Started, OnTop;
    var v := OnTop(Started(w), Level(false, 0));
    var u := OnTop(Started(w), Level(false, 2 * |ms|));
    assert Next(w, StartObject) == v by { Opens(w); }
    GrownOnTop(Started(w), Level(false, 0), 2 * |ms|);
    GrownOnTop(Started(w), Level(false, 2 * |ms|), 0);
    TakesMembers(v, ms);
    TakesBracketed(w, StartObject, MemberEvents(ms), EndObject(|ms|), u);
  }

  /** `n` more values on the innermost level. */
  function Grown(w: Writing, n: nat): Writing
    requires w.levels != []
  {
    w.(levels := w.levels[..|w.levels| - 1] + [Top(w).(valueCount := Top(w).valueCount + n)])
  }

  lemma GrownStarted(w: Writing, n: nat)
    requires w.levels != []
    ensures Grown(Started(w), n) == Grown(w, n + 1) && Grown(w, 0) == w
  {
    assert Grown(w, 0).levels == w.levels;
    assert Grown(Started(w), n).levels == Grown(w, n + 1).levels;
  }

  lemma {:induction false} TakesElements(w: Writing, es: seq<Json>)
    requires w.levels != [] && Top(w).inArray && forall e <- es :: InRange(e)
    ensures Takes(w, ElementEvents(es), Grown(w, |es|))
    decreases es, 1
  {
    GrownStarted(w, |es|);
    if es != [] {
      GrownStarted(w, |es| - 1);
      TakesTree(w, es[0]);
      TakesElements(Started(w), es[1..]);
      TakesConcat(w, Events(es[0]), Started(w), ElementEvents(es[1..]), Grown(w, |es|));
    }
  }

  lemma {:induction false} TakesMembers(w: Writing, ms: seq<Member>)
    requires w.levels != [] && !Top(w).inArray && Top(w).valueCount % 2 == 0
    requires forall m <- ms :: InRange(m.value)
    ensures Takes(w, MemberEvents(ms), Grown(w, 2 * |ms|))
    decreases ms, 1
  {
    GrownStarted(w, 0);
    if ms != [] {
      var m := ms[0];
      assert m in ms;
      var v, u := Started(w), Started(Started(w));
      TakesOne(w, Key(m.name));
      TakesTree(v, m.value);
      TakesConcat(w, [Key(m.name)], v, Events(m.value), u);
      TakesMembers(u, ms[1..]);
      GrownStarted(v, 2 * |ms| - 2);
      GrownStarted(w, 2 * |ms| - 1);
      TakesConcat(w, [Key(m.name)] + Events(m.value), u, MemberEvents(ms[1..]), Grown(w, 2 * |ms|));
    }
  }

  /** Every tree, written in any legal format, is read back by both parsers as the same events. */
  lemma TreeRoundTrip(c: R.Config, f: Format, t: Json)
    requires Legal(f) && InRange(t)
    ensures WellNested(Events(t))
    ensures var s := Written(f, FRESH, Events(t)); var r := R.Parsed(true, |s|, Events(t));
            R.ReadDocument(c, s) == r && M.RunDocument(c, s) == r
  {
    TakesTree(FRESH, t);
    ReadingUndoesWriting(c, f, Events(t));
  }
}
