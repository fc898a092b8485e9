/** How a tree is laid out in JSON text, said once over the tree, without the writer's levels and value
    counts (3rdparty/rapidjson/writer.h, Prefix; 3rdparty/rapidjson/prettywriter.h, PrettyPrefix). */
module JsonLayout {
  import opened Bytes
  import opened JsonEvents
  import opened JsonWriter
  import opened JsonTree
  import JsonNumber
  import JsonString

  /** A new line, indented for this depth. */
  function NewLine(f: Format, depth: nat): Text
    requires f.Pretty?
  {
    [0x0A] + Repeat(f.indentChar, depth * f.indentCount)
  }

  /** In front of an element: its own line, or one line for the whole array. */
  function ElementGap(f: Format, depth: nat, first: bool): Text {
    if f.Compact? then []
    else if !f.singleLineArray then NewLine(f, depth)
    else if first then [] else [0x20]
  }

  function MemberGap(f: Format, depth: nat): Text {
    if f.Compact? then [] else NewLine(f, depth)
  }

  function ColonText(f: Format): Text {
    if f.Compact? then [0x3A] else [0x3A, 0x20]
  }

  function CommaUnless(first: bool): Text {
    if first then [] else [0x2C]
  }

  function Layout(f: Format, depth: nat, t: Json): Text
    decreases t, 0
  {
    match t
    case NullValue => [0x6E, 0x75, 0x6C, 0x6C]
    case BoolValue(b) => if b then [0x74, 0x72, 0x75, 0x65] else [0x66, 0x61, 0x6C, 0x73, 0x65]
    case NumberValue(n) => JsonNumber.DecimalInt(n)
    case StringValue(s) => JsonString.Quoted(s)
    case ArrayValue(es) =>
      var close := if es == [] || (f.Pretty? && f.singleLineArray) then [] else MemberGap(f, depth);
      [0x5B] + Elements(f, depth + 1, es, true) + (close + [0x5D])
    case ObjectValue(ms) =>
      var close := if ms == [] then [] else MemberGap(f, depth);
      [0x7B] + Members(f, depth + 1, ms, true) + (close + [0x7D])
  }

  /** Elements at this depth; `first` is whether none stands in front of them. */
  function Elements(f: Format, depth: nat, es: seq<Json>, first: bool): Text
    decreases es, 1
  {
    if es == [] then []
    else CommaUnless(first) + ElementGap(f, depth, first) + Layout(f, depth, es[0]) + Elements(f, depth, es[1..], false)
  }

  function Members(f: Format, depth: nat, ms: seq<Member>, first: bool): Text
    decreases ms, 1
  {
    if ms == [] then []
    else
      assert ms[0] in ms;
      CommaUnless(first) + MemberGap(f, depth) + JsonString.Quoted(ms[0].name) + ColonText(f)
      + Layout(f, depth, ms[0].value) + Members(f, depth, ms[1..], false)
  }

  /* ---- the writer puts the layout ---- */

  /** The writer's text for a trace that it takes, followed by another one. */
  lemma {:induction false} WrittenConcat(f: Format, w: Writing, a: seq<Event>, v: Writing, b: seq<Event>)
    requires Allowed(w, a) && Final(w, a) == v && Allowed(v, b)
    ensures Allowed(w, a + b) && Written(f, w, a + b) == Written(f, w, a) + Written(f, v, b)
    decreases |a|
  {
    hide Accepts, Next, EventText;
    if a == [] {
      assert a + b == b;
    } else {
      assert (a + b)[0] == a[0] && (a + b)[1..] == a[1..] + b;
      WrittenConcat(f, Next(w, a[0]), a[1..], v, b);
      Associative(EventText(f, w, a[0]), Written(f, Next(w, a[0]), a[1..]), Written(f, v, b));
    }
  }

  lemma WrittenOne(f: Format, w: Writing, e: Event)
    requires Accepts(w, e)
    ensures Allowed(w, [e]) && Final(w, [e]) == Next(w, e) && Written(f, w, [e]) == EventText(f, w, e)
  {
    hide Accepts, Next, EventText;
    assert [e][0] == e && [e][1..] == [];
    assert Allowed(Next(w, e), []) && Written(f, Next(w, e), []) == [];
    assert Written(f, w, [e]) == EventText(f, w, e) + Written(f, Next(w, e), []);
  }

  /** What stands in front of a value in this state. */
  function Front(f: Format, w: Writing): Text {
    Separator(w) + LeadingSpace(f, w)
  }

  lemma DecimalToken(n: int)
    requires -0x8000_0000_0000_0000 <= n <= 0xFFFF_FFFF_FFFF_FFFF
    ensures var e := JsonNumber.CanonicalInt(n);
            Printable(e) && !Closes(e) && !e.Key? && !e.StartArray? && !e.StartObject?
            && Token(e) == JsonNumber.DecimalInt(n)
  {
    hide JsonNumber.DecimalInt;
  }

  lemma ScalarText(f: Format, w: Writing, t: Json)
    requires InRange(t) && ExpectsValue(w) && !t.ArrayValue? && !t.ObjectValue?
    ensures Allowed(w, Events(t)) && Written(f, w, Events(t)) == Front(f, w) + Layout(f, |w.levels|, t)
  {
    hide Separator, LeadingSpace, JsonNumber.DecimalInt, JsonString.Quoted;
    if t.NumberValue? {
      DecimalToken(t.n);
    }
    var e := if t.NullValue? then Null else if t.BoolValue? then Bool(t.b) else if t.StringValue? then String(t.str)
             else JsonNumber.CanonicalInt(t.n);
    assert Events(t) == [e];
    WrittenOne(f, w, e);
  }

  /** The brackets around what was written between them. */
  lemma BracketedText(f: Format, w: Writing, open: Event, inner: seq<Event>, close: Event, v: Writing, u: Writing)
    requires Accepts(w, open) && Next(w, open) == v && !Closes(open)
    requires Allowed(v, inner) && Final(v, inner) == u && Accepts(u, close) && Closes(close)
    ensures Allowed(w, [open] + inner + [close])
    ensures Written(f, w, [open] + inner + [close])
            == Front(f, w) + (Token(open) + Written(f, v, inner) + (ClosingSpace(f, u) + Token(close)))
  {
    WrittenOne(f, w, open);
    WrittenOne(f, u, close);
    hide Accepts, Next, Token, ClosingSpace, Separator, LeadingSpace, Allowed, Final, Written;
    WrittenConcat(f, v, inner, u, [close]);
    WrittenConcat(f, w, [open], v, inner + [close]);
    assert [open] + (inner + [close]) == [open] + inner + [close];
    var mid, end := Written(f, v, inner), ClosingSpace(f, u) + Token(close);
    Associative(Front(f, w), Token(open), mid + end);
    Associative(Token(open), mid, end);
  }

  lemma {:induction false} TreeText(f: Format, w: Writing, t: Json)
    requires InRange(t) && ExpectsValue(w)
    ensures Allowed(w, Events(t)) && Written(f, w, Events(t)) == Front(f, w) + Layout(f, |w.levels|, t)
    decreases t, 0
  {
    if t.ArrayValue? {
      ArrayText(f, w, t.elements);
    } else if t.ObjectValue? {
      ObjectText(f, w, t.members);
    } else {
      ScalarText(f, w, t);
    }
  }

  /** A level on top, and what closing it puts. */
  lemma ClosingText(f: Format, w: Writing, l: Level)
    ensures var u := OnTop(w, l); var single := f.Pretty? && f.singleLineArray && l.inArray;
            && |u.levels| == |w.levels| + 1 && Top(u) == l
            && ClosingSpace(f, u) == if l.valueCount == 0 || single then [] else MemberGap(f, |w.levels|)
  {
    GrownOnTop(w, l, 0);
    hide Repeat;
  }

  lemma StartedDepth(w: Writing)
    ensures |Started(w).levels| == |w.levels|
  {
  }

  lemma {:induction false} ArrayText(f: Format, w: Writing, es: seq<Json>)
    requires InRange(ArrayValue(es)) && ExpectsValue(w)
    ensures var t := ArrayValue(es);
            Allowed(w, Events(t)) && Written(f, w, Events(t)) == Front(f, w) + Layout(f, |w.levels|, t)
    decreases es, 2
  {
    hide Grown, Started, OnTop, ClosingSpace, Written, Allowed, Final, Front, MemberGap, Elements, ElementEvents;
    var b := Started(w);
    var v, u := OnTop(b, Level(true, 0)), OnTop(b, Level(true, |es|));
    Opens(w);
    StartedDepth(w);
    ClosingText(f, b, Level(true, 0));
    ClosingText(f, b, Level(true, |es|));
    ElementsEnd(b, es);
    ElementsText(f, v, es);
    BracketedText(f, w, StartArray, ElementEvents(es), EndArray(|es|), v, u);
  }

  lemma ArrayCloses(b: Writing, n: nat)
    ensures Accepts(OnTop(b, Level(true, n)), EndArray(n))
  {
  }

  /** The levels behind the elements of an array. */
  lemma ElementsEnd(b: Writing, es: seq<Json>)
    requires forall e <- es :: InRange(e)
    ensures var v, u := OnTop(b, Level(true, 0)), OnTop(b, Level(true, |es|));
            Allowed(v, ElementEvents(es)) && Final(v, ElementEvents(es)) == u && Accepts(u, EndArray(|es|))
  {
    hide OnTop, Grown, InRange, Top, JsonTree.ElementEvents, Allowed, Final, Accepts;
    GrownOnTop(b, Level(true, 0), |es|);
    TakesElements(OnTop(b, Level(true, 0)), es);
    ArrayCloses(b, |es|);
  }

  lemma ObjectCloses(b: Writing, n: nat)
    ensures Accepts(OnTop(b, Level(false, 2 * n)), EndObject(n))
  {
  }

  lemma MembersEnd(b: Writing, ms: seq<Member>)
    requires forall m <- ms :: InRange(m.value)
    ensures var v, u := OnTop(b, Level(false, 0)), OnTop(b, Level(false, 2 * |ms|));
            Allowed(v, MemberEvents(ms)) && Final(v, MemberEvents(ms)) == u && Accepts(u, EndObject(|ms|))
  {
    hide OnTop, Grown, InRange, Top, MemberEvents, Allowed, Final, Accepts;
    GrownOnTop(b, Level(false, 0), 2 * |ms|);
    TakesMembers(OnTop(b, Level(false, 0)), ms);
    ObjectCloses(b, |ms|);
  }

  lemma {:induction false} ObjectText(f: Format, w: Writing, ms: seq<Member>)
    requires InRange(ObjectValue(ms)) && ExpectsValue(w)
    ensures var t := ObjectValue(ms);
            Allowed(w, Events(t)) && Written(f, w, Events(t)) == Front(f, w) + Layout(f, |w.levels|, t)
    decreases ms, 2
  {
    hide Grown, Started, OnTop, ClosingSpace, Written, Allowed, Final, Front, MemberGap, Members, MemberEvents;
    var b := Started(w);
    var v, u := OnTop(b, Level(false, 0)), OnTop(b, Level(false, 2 * |ms|));
    Opens(w);
    StartedDepth(w);
    ClosingText(f, b, Level(false, 0));
    ClosingText(f, b, Level(false, 2 * |ms|));
    MembersEnd(b, ms);
    MembersText(f, v, ms);
    BracketedText(f, w, StartObject, MemberEvents(ms), EndObject(|ms|), v, u);
  }

  /** In front of an element. */
  lemma ElementFront(f: Format, w: Writing)
    requires w.levels != [] && Top(w).inArray
    ensures var first := Top(w).valueCount == 0;
            Front(f, w) == CommaUnless(first) + ElementGap(f, |w.levels|, first)
    ensures Top(Started(w)).inArray && Top(Started(w)).valueCount == Top(w).valueCount + 1
    ensures |Started(w).levels| == |w.levels|
  {
    hide Repeat;
  }

  lemma {:induction false} ElementsText(f: Format, w: Writing, es: seq<Json>)
    requires w.levels != [] && Top(w).inArray && forall e <- es :: InRange(e)
    ensures Allowed(w, ElementEvents(es))
    ensures Written(f, w, ElementEvents(es)) == Elements(f, |w.levels|, es, Top(w).valueCount == 0)
    decreases es, 1
  {
    if es != [] {
      var v := Started(w);
      var first, depth := Top(w).valueCount == 0, |w.levels|;
      ElementFront(f, w);
      TreeText(f, w, es[0]);
      TakesTree(w, es[0]);
      hide Started, Front, Separator, LeadingSpace, Layout, Written, Events, Top, CommaUnless, ElementGap, InRange;
      ElementsText(f, v, es[1..]);
      WrittenConcat(f, w, Events(es[0]), v, ElementEvents(es[1..]));
    }
  }

  /** In front of a name, and in front of the value behind it. */
  lemma MemberFront(f: Format, w: Writing)
    requires w.levels != [] && !Top(w).inArray && Top(w).valueCount % 2 == 0
    ensures Front(f, w) == CommaUnless(Top(w).valueCount == 0) + MemberGap(f, |w.levels|)
    ensures var v := Started(w);
            && |v.levels| == |w.levels| && !Top(v).inArray && Top(v).valueCount == Top(w).valueCount + 1
            && Front(f, v) == ColonText(f)
  {
    hide Repeat;
  }

  lemma StartedTwice(w: Writing)
    requires w.levels != []
    ensures var u := Started(Started(w));
            && |u.levels| == |w.levels| && Top(u).inArray == Top(w).inArray
            && Top(u).valueCount == Top(w).valueCount + 2
  {
  }

  /** One member. */
  lemma {:induction false} MemberText(f: Format, w: Writing, ms: seq<Member>)
    requires w.levels != [] && !Top(w).inArray && Top(w).valueCount % 2 == 0 && ms != [] && InRange(ms[0].value)
    ensures var m, u := ms[0], Started(Started(w)); var tr := [Key(m.name)] + Events(m.value);
            && Allowed(w, tr) && Final(w, tr) == u
            && Written(f, w, tr) == CommaUnless(Top(w).valueCount == 0) + MemberGap(f, |w.levels|)
                                    + JsonString.Quoted(m.name) + ColonText(f) + Layout(f, |w.levels|, m.value)
    decreases ms, 0
  {
    var m, v := ms[0], Started(w);
    assert m in ms;
    MemberFront(f, w);
    WrittenOne(f, w, Key(m.name));
    TakesOne(w, Key(m.name));
    TreeText(f, v, m.value);
    TakesTree(v, m.value);
    TakesConcat(w, [Key(m.name)], v, Events(m.value), Started(v));
    hide Started, Separator, LeadingSpace, Layout, Written, Events, Top, CommaUnless, MemberGap, InRange;
    hide JsonString.Quoted;
    WrittenConcat(f, w, [Key(m.name)], v, Events(m.value));
    Associative(Front(f, w) + JsonString.Quoted(m.name), ColonText(f), Layout(f, |w.levels|, m.value));
  }

  lemma {:induction false} MembersText(f: Format, w: Writing, ms: seq<Member>)
    requires w.levels != [] && !Top(w).inArray && Top(w).valueCount % 2 == 0 && forall m <- ms :: InRange(m.value)
    ensures Allowed(w, MemberEvents(ms))
    ensures Written(f, w, MemberEvents(ms)) == Members(f, |w.levels|, ms, Top(w).valueCount == 0)
    decreases ms, 1
  {
    if ms != [] {
      var u := Started(Started(w));
      assert ms[0] in ms;
      MemberText(f, w, ms);
      StartedTwice(w);
      hide Started, Layout, Written, Events, Top, CommaUnless, MemberGap, InRange, JsonString.Quoted, ColonText;
      MembersText(f, u, ms[1..]);
      WrittenConcat(f, w, [Key(ms[0].name)] + Events(ms[0].value), u, MemberEvents(ms[1..]));
    }
  }

  /** The writer's calls for a tree put exactly its layout: what its level stack and value counts do is to
      put commas between items, colons behind names, and every item on its own line at its depth. */
  lemma WrittenIsLayout(f: Format, t: Json)
    requires InRange(t)
    ensures Allowed(FRESH, Events(t)) && Written(f, FRESH, Events(t)) == Layout(f, 0, t)
  {
    TreeText(f, FRESH, t);
    hide Written, Layout, Events;
    assert Front(f, FRESH) == [];
  }
}
