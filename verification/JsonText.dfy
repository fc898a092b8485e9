/** Which texts are JSON, RFC 8259, and the events they stand for: syntax trees with their white space,
    against the readers (3rdparty/rapidjson/reader.h, Parse and ParseValue). */
module JsonText {
  import opened Bytes
  import opened JsonEvents
  import opened Wrappers
  import opened JsonReader
  import JsonMachine
  import JsonNumber
  import N = NumberText
  import S = StringText

  /** An element of an array: its value, the white space behind it, and behind a comma, if there is one. */
  datatype Element = Element(value: Doc, after: Text, comma: Option<Text>)

  /** A member of an object: its name, the white space around the colon, and the rest. */
  datatype Entry = Entry(name: seq<S.Unit>, before: Text, behind: Text, element: Element)

  datatype Doc =
    | NullDoc
    | BoolDoc(b: bool)
    | NumberDoc(number: N.Literal)
    | StringDoc(units: seq<S.Unit>)
    | ArrayDoc(lead: Text, elements: seq<Element>)
    | ObjectDoc(lead: Text, entries: seq<Entry>)

  /* ---- the text ---- */

  function CommaText(comma: Option<Text>): Text {
    if comma.None? then [] else [0x2C] + comma.value
  }

  function QuotedText(us: seq<S.Unit>): Text {
    [0x22] + (S.SpelledAll(us) + [0x22])
  }

  function TextOf(d: Doc): Text
    decreases d, 0
  {
    match d
    case NullDoc => [0x6E, 0x75, 0x6C, 0x6C]
    case BoolDoc(b) => if b then [0x74, 0x72, 0x75, 0x65] else [0x66, 0x61, 0x6C, 0x73, 0x65]
    case NumberDoc(l) => N.Spelled(l)
    case StringDoc(us) => QuotedText(us)
    case ArrayDoc(lead, es) => [0x5B] + (lead + (ElementsText(es) + [0x5D]))
    case ObjectDoc(lead, ms) => [0x7B] + (lead + (EntriesText(ms) + [0x7D]))
  }

  function ElementText(e: Element): Text
    decreases e, 0
  {
    TextOf(e.value) + (e.after + CommaText(e.comma))
  }

  function ElementsText(es: seq<Element>): Text
    decreases es, 1
  {
    if es == [] then []
    else
      assert es[0] in es;
      ElementText(es[0]) + ElementsText(es[1..])
  }

  function EntryText(m: Entry): Text
    decreases m, 0
  {
    QuotedText(m.name) + (m.before + ([0x3A] + (m.behind + ElementText(m.element))))
  }

  function EntriesText(ms: seq<Entry>): Text
    decreases ms, 1
  {
    if ms == [] then []
    else
      assert ms[0] in ms;
      EntryText(ms[0]) + EntriesText(ms[1..])
  }

  /* ---- the grammar ---- */

  predicate IsWhite(t: Text) {
    forall k :: 0 <= k < |t| ==> t[k] in {0x20, 0x0A, 0x0D, 0x09}
  }

  /** Every item but the last is followed by a comma, and the last one only if trailing commas are allowed. */
  predicate CommaOk(c: Config, comma: Option<Text>, last: bool) {
    && (comma.Some? ==> IsWhite(comma.value))
    && (if last then comma.Some? ==> c.trailingCommas else comma.Some?)
  }

  predicate IsDoc(c: Config, d: Doc)
    decreases d, 0
  {
    match d
    case NullDoc => true
    case BoolDoc(_) => true
    case NumberDoc(l) => N.IsLiteral(l) && (N.IsInteger(l) || !c.tooBig(N.Spelled(l)))
    case StringDoc(us) => S.AllUnits(us)
    case ArrayDoc(lead, es) => IsWhite(lead) && AreElements(c, es)
    case ObjectDoc(lead, ms) => IsWhite(lead) && AreEntries(c, ms)
  }

  predicate IsElement(c: Config, e: Element, last: bool)
    decreases e, 0
  {
    IsDoc(c, e.value) && IsWhite(e.after) && CommaOk(c, e.comma, last)
  }

  predicate AreElements(c: Config, es: seq<Element>)
    decreases es, 1
  {
    es != [] ==>
      assert es[0] in es;
      IsElement(c, es[0], |es| == 1) && AreElements(c, es[1..])
  }

  predicate IsEntry(c: Config, m: Entry, last: bool)
    decreases m, 0
  {
    S.AllUnits(m.name) && IsWhite(m.before) && IsWhite(m.behind) && IsElement(c, m.element, last)
  }

  predicate AreEntries(c: Config, ms: seq<Entry>)
    decreases ms, 1
  {
    ms != [] ==>
      assert ms[0] in ms;
      IsEntry(c, ms[0], |ms| == 1) && AreEntries(c, ms[1..])
  }

  /* ---- the events ---- */

  /** Elements and members are counted in 32 bits. */
  function Wrapped(n: nat): nat {
    n % 0x1_0000_0000
  }

  function EventsOf(c: Config, d: Doc): seq<Event>
    requires IsDoc(c, d)
    decreases d, 0
  {
    match d
    case NullDoc => [Null]
    case BoolDoc(b) => [Bool(b)]
    case NumberDoc(l) => [N.EventOf(l)]
    case StringDoc(us) => [String(S.MeaningAll(us))]
    case ArrayDoc(_, es) => [StartArray] + (ElementEvents(c, es) + [EndArray(Wrapped(|es|))])
    case ObjectDoc(_, ms) => [StartObject] + (EntryEvents(c, ms) + [EndObject(Wrapped(|ms|))])
  }

  function ElementEvents(c: Config, es: seq<Element>): seq<Event>
    requires AreElements(c, es)
    decreases es, 1
  {
    if es == [] then []
    else
      assert es[0] in es && IsElement(c, es[0], |es| == 1);
      EventsOf(c, es[0].value) + ElementEvents(c, es[1..])
  }

  function EntryEvents(c: Config, ms: seq<Entry>): seq<Event>
    requires AreEntries(c, ms)
    decreases ms, 1
  {
    if ms == [] then []
    else
      assert ms[0] in ms && IsEntry(c, ms[0], |ms| == 1);
      assert IsElement(c, ms[0].element, |ms| == 1);
      [Key(S.MeaningAll(ms[0].name))] + EventsOf(c, ms[0].element.value) + EntryEvents(c, ms[1..])
  }

  /** What stands behind the value does not continue it. */
  predicate Ends(d: Doc, c: Byte) {
    d.NumberDoc? ==> !N.GoesOn(d.number, c)
  }

  /* ---- white space and first units ---- */

  lemma {:induction false} SkipWhite(s: Text, i: nat, t: Text)
    requires At(s, i, t) && IsWhite(t) && !IsSpace(Peek(s, i + |t|))
    ensures i <= |s| && SkipSpace(s, i) == i + |t|
    decreases |t|
  {
    if t != [] {
      AtPeek(s, i, t, 0);
      assert t == [t[0]] + t[1..];
      AtSplit(s, i, [t[0]], t[1..]);
      SkipWhite(s, i + 1, t[1..]);
    }
  }

  /** A value begins with a unit that is neither NUL nor white space nor a bracket that closes. */
  predicate Begins(c: Byte) {
    !IsSpace(c) && c != 0x5D && c != 0x7D && c != NUL
  }

  lemma NumberBegins(l: N.Literal)
    requires N.IsLiteral(l)
    ensures N.Spelled(l) != [] && (N.Spelled(l)[0] == 0x2D || 0x30 <= N.Spelled(l)[0] <= 0x39)
  {
    assert l.whole != [] && 0x30 <= l.whole[0] <= 0x39;
    var sign := N.Sign(l.minus);
    assert N.Spelled(l)[0] == if l.minus then 0x2D else l.whole[0];
  }

  lemma DocBegins(c: Config, d: Doc)
    requires IsDoc(c, d)
    ensures TextOf(d) != [] && Begins(TextOf(d)[0])
    ensures TextOf(d)[0] == 0x7B <==> d.ObjectDoc?
    ensures TextOf(d)[0] == 0x5B <==> d.ArrayDoc?
  {
    if d.NumberDoc? {
      NumberBegins(d.number);
    }
    hide N.Spelled, N.IsLiteral, S.SpelledAll, ElementsText, EntriesText;
  }

  lemma BeginsAt(c: Config, s: Text, i: nat, d: Doc)
    requires IsDoc(c, d) && At(s, i, TextOf(d))
    ensures i < |s| && Peek(s, i) == TextOf(d)[0] && TextOf(d) != []
  {
    DocBegins(c, d);
    AtPeek(s, i, TextOf(d), 0);
  }

  /* ---- scalars ---- */

  lemma {:induction false} WordMatches(s: Text, i: nat, t: Text)
    requires At(s, i, t) && forall k :: 0 <= k < |t| ==> t[k] != NUL
    ensures Matches(s, i, t)
    decreases |t|
  {
    if t != [] {
      AtPeek(s, i, t, 0);
      assert t == [t[0]] + t[1..];
      AtSplit(s, i, [t[0]], t[1..]);
      WordMatches(s, i + 1, t[1..]);
    }
  }

  lemma WordRead(s: Text, i: nat, first: Byte, rest: Text, ev: Event)
    requires At(s, i, [first] + rest) && forall k :: 0 <= k < |rest| ==> rest[k] != NUL
    ensures i < |s| && Peek(s, i) == first && ReadLiteral(s, i, rest, ev) == Parsed(true, i + 1 + |rest|, [ev])
  {
    AtSplit(s, i, [first], rest);
    AtPeek(s, i, [first], 0);
    WordMatches(s, i + 1, rest);
    hide Matches;
  }

  lemma NullRead(c: Config, s: Text, i: nat)
    requires At(s, i, TextOf(NullDoc))
    ensures i < |s| && ReadValue(c, s, i) == Parsed(true, i + |TextOf(NullDoc)|, [Null])
  {
    hide ReadLiteral, ReadObject, ReadArray, At;
    assert TextOf(NullDoc) == [0x6E] + ULL;
    WordRead(s, i, 0x6E, ULL, Null);
  }

  lemma BoolRead(c: Config, s: Text, i: nat, b: bool)
    requires At(s, i, TextOf(BoolDoc(b)))
    ensures i < |s| && ReadValue(c, s, i) == Parsed(true, i + |TextOf(BoolDoc(b))|, [Bool(b)])
  {
    hide ReadLiteral, ReadObject, ReadArray, At;
    if b {
      assert TextOf(BoolDoc(b)) == [0x74] + RUE;
      WordRead(s, i, 0x74, RUE, Bool(true));
    } else {
      assert TextOf(BoolDoc(b)) == [0x66] + ALSE;
      WordRead(s, i, 0x66, ALSE, Bool(false));
    }
  }

  /** A string literal with its quotes. */
  lemma QuotedRead(s: Text, i: nat, us: seq<S.Unit>, isKey: bool)
    requires S.AllUnits(us) && At(s, i, QuotedText(us))
    ensures i < |s| && Peek(s, i) == QUOTE
    ensures var b := S.MeaningAll(us);
            ReadKeyOrString(s, i, isKey) == Parsed(true, i + |QuotedText(us)|, [if isKey then Key(b) else String(b)])
  {
    AtSplit(s, i, [0x22], S.SpelledAll(us) + [0x22]);
    AtPeek(s, i, [0x22], 0);
    S.LiteralRead(s, i + 1, us);
    hide S.SpelledAll, S.MeaningAll, S.AllUnits, At;
  }

  lemma StringRead(c: Config, s: Text, i: nat, us: seq<S.Unit>)
    requires S.AllUnits(us) && At(s, i, QuotedText(us))
    ensures i < |s| && ReadValue(c, s, i) == Parsed(true, i + |QuotedText(us)|, [String(S.MeaningAll(us))])
  {
    hide ReadKeyOrString, ReadObject, ReadArray, QuotedText, S.MeaningAll;
    QuotedRead(s, i, us, false);
  }

  lemma NumberRead(c: Config, s: Text, i: nat, l: N.Literal)
    requires IsDoc(c, NumberDoc(l)) && At(s, i, N.Spelled(l)) && !N.GoesOn(l, Peek(s, i + |N.Spelled(l)|))
    ensures i < |s| && ReadValue(c, s, i) == Parsed(true, i + |N.Spelled(l)|, [N.EventOf(l)])
  {
    N.LiteralIsRead(c.tooBig, s, i, l);
    NumberBegins(l);
    AtPeek(s, i, N.Spelled(l), 0);
    hide N.Spelled, N.EventOf, N.GoesOn, N.IsLiteral, ReadObject, ReadArray, ReadLiteral, ReadKeyOrString;
  }

  /* ---- one turn of the loops ---- */

  lemma CountNext(n: nat)
    ensures Count(Wrapped(n)) == Wrapped(n + 1)
  {
  }

  /** What stands behind an item: the closing bracket, or the beginning of the next item. */
  predicate Behind(c: Byte, close: Byte, last: bool) {
    if last then c == close else Begins(c)
  }

  /** Where the loops find the white space behind a value at `p`, its comma at `q` and the next item at `r`. */
  predicate Laid(s: Text, p: nat, q: nat, r: nat, comma: bool) {
    && p <= q <= r <= |s| && SkipSpace(s, p) == q
    && (if comma then q < r && Peek(s, q) == COMMA && SkipSpace(s, q + 1) == r else r == q)
  }

  lemma BehindIsNoSpace(c: Byte, close: Byte, last: bool)
    requires close in {0x5D, 0x7D} && Behind(c, close, last)
    ensures !IsSpace(c)
  {
  }

  lemma CommaLaid(s: Text, p: nat, after: Text, comma: Text)
    requires IsWhite(after) && IsWhite(comma) && At(s, p, after + ([0x2C] + comma))
    requires !IsSpace(Peek(s, p + |after + ([0x2C] + comma)|))
    ensures Laid(s, p, p + |after|, p + |after + ([0x2C] + comma)|, true)
  {
    hide IsWhite, At, IsSpace;
    var q := p + |after|;
    AtSplit(s, p, after, [0x2C] + comma);
    AtSplit(s, q, [0x2C], comma);
    AtPeek(s, q, [0x2C], 0);
    SkipWhite(s, q + 1, comma);
    CommaIsNoSpace();
    SkipWhite(s, p, after);
  }

  lemma CommaIsNoSpace()
    ensures !IsSpace(0x2C)
  {
  }

  /** Past the white space behind a value, and past its comma. */
  lemma ElementEnd(c: Config, s: Text, p: nat, e: Element, last: bool, close: Byte)
    requires IsElement(c, e, last) && At(s, p, e.after + CommaText(e.comma)) && close in {0x5D, 0x7D}
    requires Behind(Peek(s, p + |e.after + CommaText(e.comma)|), close, last)
    ensures Laid(s, p, p + |e.after|, p + |e.after + CommaText(e.comma)|, e.comma.Some?)
  {
    hide IsDoc, IsSpace, At, IsWhite, Behind;
    BehindIsNoSpace(Peek(s, p + |e.after + CommaText(e.comma)|), close, last);
    if e.comma.Some? {
      CommaLaid(s, p, e.after, e.comma.value);
    } else {
      assert e.after + [] == e.after;
      SkipWhite(s, p, e.after);
    }
  }

  /** The unit behind a value in an array or object ends it. */
  lemma ElementEnds(c: Config, s: Text, p: nat, e: Element, last: bool, close: Byte)
    requires IsElement(c, e, last) && At(s, p, e.after + CommaText(e.comma)) && close in {0x5D, 0x7D}
    requires Behind(Peek(s, p + |e.after + CommaText(e.comma)|), close, last)
    ensures Ends(e.value, Peek(s, p))
  {
    hide IsDoc, N.IsLiteral;
    if e.after != [] {
      AtPeek(s, p, e.after + CommaText(e.comma), 0);
      assert (e.after + CommaText(e.comma))[0] == e.after[0];
    } else if e.comma.Some? {
      AtPeek(s, p, e.after + CommaText(e.comma), 0);
      assert (e.after + CommaText(e.comma))[0] == 0x2C;
    }
  }

  lemma ElementTurnIs(c: Config, s: Text, i: nat, v: Parsed, q: nat, r: nat, comma: bool, last: bool, count: nat)
    requires i <= |s| && ReadValue(c, s, i) == v && v.ok && Laid(s, v.pos, q, r, comma)
    requires (if last then comma ==> c.trailingCommas else comma) && Behind(Peek(s, r), 0x5D, last)
    ensures ElementTurn(c, s, i, count)
            == if last then Closed(v.evs + [EndArray(Count(count))], r + 1) else Next(v.evs, r)
  {
    hide ReadValue, SkipSpace, Count;
  }

  lemma ElementTurnRead(c: Config, s: Text, i: nat, e: Element, last: bool, count: nat)
    requires IsElement(c, e, last) && At(s, i, ElementText(e)) && Behind(Peek(s, i + |ElementText(e)|), 0x5D, last)
    requires i <= |s| && ReadValue(c, s, i) == Parsed(true, i + |TextOf(e.value)|, EventsOf(c, e.value))
    ensures var evs, p := EventsOf(c, e.value), i + |ElementText(e)|;
            ElementTurn(c, s, i, count) == if last then Closed(evs + [EndArray(Count(count))], p + 1) else Next(evs, p)
  {
    hide ReadValue, TextOf, EventsOf, CommaText, At, IsDoc, Laid, Behind, ElementTurn, IsWhite;
    var p := i + |TextOf(e.value)|;
    AtSplit(s, i, TextOf(e.value), e.after + CommaText(e.comma));
    ElementEnd(c, s, p, e, last, 0x5D);
    var q, r := p + |e.after|, p + |e.after + CommaText(e.comma)|;
    ElementTurnIs(c, s, i, ReadValue(c, s, i), q, r, e.comma.Some?, last, count);
  }

  /** Where a member's parts stand. */
  lemma EntryAts(s: Text, i: nat, m: Entry)
    requires At(s, i, EntryText(m))
    ensures var a := i + |QuotedText(m.name)|; var b := a + |m.before|; var d := b + 1 + |m.behind|;
            && At(s, i, QuotedText(m.name)) && At(s, a, m.before) && At(s, b, [0x3A]) && At(s, b + 1, m.behind)
            && At(s, d, ElementText(m.element)) && d + |ElementText(m.element)| == i + |EntryText(m)|
  {
    hide QuotedText, ElementText, At;
    var element := ElementText(m.element);
    var a := i + |QuotedText(m.name)|;
    var b := a + |m.before|;
    AtSplit(s, i, QuotedText(m.name), m.before + ([0x3A] + (m.behind + element)));
    AtSplit(s, a, m.before, [0x3A] + (m.behind + element));
    AtSplit(s, b, [0x3A], m.behind + element);
    AtSplit(s, b + 1, m.behind, element);
  }

  lemma EntryParts(c: Config, s: Text, i: nat, m: Entry)
    requires S.AllUnits(m.name) && IsWhite(m.before) && IsWhite(m.behind) && IsDoc(c, m.element.value)
    requires At(s, i, EntryText(m))
    ensures var a := i + |QuotedText(m.name)|; var b := a + |m.before|; var d := b + 1 + |m.behind|;
            && At(s, i, QuotedText(m.name)) && At(s, d, ElementText(m.element))
            && d + |ElementText(m.element)| == i + |EntryText(m)|
            && a <= b < d <= |s| && SkipSpace(s, a) == b && Peek(s, b) == COLON && SkipSpace(s, b + 1) == d
  {
    hide IsDoc, QuotedText, ElementText, At, IsWhite, IsSpace, EntryText;
    EntryAts(s, i, m);
    var a := i + |QuotedText(m.name)|;
    var b := a + |m.before|;
    AtPeek(s, b, [0x3A], 0);
    ElementBegins(c, s, b + 1 + |m.behind|, m.element);
    SkipWhite(s, b + 1, m.behind);
    ColonIsNoSpace();
    SkipWhite(s, a, m.before);
  }

  lemma ColonIsNoSpace()
    ensures !IsSpace(0x3A)
  {
  }

  lemma ElementBegins(c: Config, s: Text, i: nat, e: Element)
    requires IsDoc(c, e.value) && At(s, i, ElementText(e))
    ensures i < |s| && Begins(Peek(s, i))
  {
    hide IsDoc, TextOf, CommaText;
    AtSplit(s, i, TextOf(e.value), e.after + CommaText(e.comma));
    DocBegins(c, e.value);
    BeginsAt(c, s, i, e.value);
  }

  lemma MemberIs(c: Config, s: Text, i: nat, k: Parsed, b: nat, d: nat, v: Parsed, q: nat)
    requires i <= |s| && Peek(s, i) == QUOTE && k.ok && k.pos <= |s| && v.ok && v.pos <= |s| && b < |s| && d <= |s|
    requires ReadKeyOrString(s, i, true) == k && SkipSpace(s, k.pos) == b && Peek(s, b) == COLON
    requires SkipSpace(s, b + 1) == d && ReadValue(c, s, d) == v && SkipSpace(s, v.pos) == q
    ensures ReadMember(c, s, i) == Parsed(true, q, k.evs + v.evs)
  {
    hide ReadKeyOrString, SkipSpace, ReadValue;
  }

  lemma MemberTurnIs(c: Config, s: Text, i: nat, m: Parsed, p: nat, r: nat, comma: bool, last: bool, count: nat)
    requires i <= |s| && ReadMember(c, s, i) == m && m.ok && Laid(s, p, m.pos, r, comma)
    requires (if last then comma ==> c.trailingCommas else comma) && Behind(Peek(s, r), 0x7D, last)
    ensures MemberTurn(c, s, i, count)
            == if last then Closed(m.evs + [EndObject(Count(count))], r + 1) else Next(m.evs, r)
  {
    hide ReadMember, SkipSpace, Count;
  }

  /** The events of a member. */
  function MemberEvents(c: Config, m: Entry): seq<Event>
    requires IsDoc(c, m.element.value) && S.AllUnits(m.name)
  {
    [Key(S.MeaningAll(m.name))] + EventsOf(c, m.element.value)
  }

  /** Where the value of a member begins. */
  function ValueAt(i: nat, m: Entry): nat {
    i + |QuotedText(m.name)| + |m.before| + 1 + |m.behind|
  }

  lemma MemberTurnRead(c: Config, s: Text, i: nat, m: Entry, last: bool, count: nat)
    requires IsEntry(c, m, last) && At(s, i, EntryText(m)) && Behind(Peek(s, i + |EntryText(m)|), 0x7D, last)
    requires IsElement(c, m.element, last) && i <= |s| && ValueAt(i, m) <= |s|
    requires ReadValue(c, s, ValueAt(i, m))
             == Parsed(true, ValueAt(i, m) + |TextOf(m.element.value)|, EventsOf(c, m.element.value))
    ensures var evs, p := MemberEvents(c, m), i + |EntryText(m)|;
            MemberTurn(c, s, i, count) == if last then Closed(evs + [EndObject(Count(count))], p + 1) else Next(evs, p)
  {
    hide ReadValue, TextOf, EventsOf, CommaText, At, IsDoc, Laid, Behind, MemberTurn, IsWhite, ReadMember, QuotedText;
    hide S.MeaningAll, S.AllUnits, EntryText, SkipSpace, ReadKeyOrString;
    var e := m.element;
    EntryParts(c, s, i, m);
    var d := ValueAt(i, m);
    var p := d + |TextOf(e.value)|;
    AtSplit(s, d, TextOf(e.value), e.after + CommaText(e.comma));
    ElementEnd(c, s, p, e, last, 0x7D);
    LaidSkips(s, p, p + |e.after|, p + |e.after + CommaText(e.comma)|, e.comma.Some?);
    QuotedRead(s, i, m.name, true);
    var a := i + |QuotedText(m.name)|;
    MemberIs(c, s, i, ReadKeyOrString(s, i, true), a + |m.before|, d, ReadValue(c, s, d), p + |e.after|);
    MemberTurnIs(c, s, i, ReadMember(c, s, i), p, p + |e.after + CommaText(e.comma)|, e.comma.Some?, last, count);
  }

  lemma LaidSkips(s: Text, p: nat, q: nat, r: nat, comma: bool)
    requires Laid(s, p, q, r, comma)
    ensures p <= |s| && SkipSpace(s, p) == q
  {
  }

  /* ---- a JSON text is read as its events ---- */

  lemma FirstElement(c: Config, es: seq<Element>)
    requires AreElements(c, es) && es != []
    ensures IsElement(c, es[0], |es| == 1) && IsDoc(c, es[0].value) && AreElements(c, es[1..])
    ensures ElementsText(es) == ElementText(es[0]) + ElementsText(es[1..])
    ensures ElementEvents(c, es) == EventsOf(c, es[0].value) + ElementEvents(c, es[1..])
  {
    hide IsDoc, ElementText, EventsOf;
  }

  /** The first of several items, and what stands behind it. */
  lemma SplitBefore(s: Text, i: nat, first: Text, rest: Text, close: Byte)
    requires At(s, i, (first + rest) + [close])
    ensures At(s, i, first) && At(s, i + |first|, rest + [close]) && At(s, i + |first|, rest)
    ensures rest == [] ==> Peek(s, i + |first|) == close
  {
    hide At;
    Associative(first, rest, [close]);
    AtSplit(s, i, first, rest + [close]);
    AtSplit(s, i + |first|, rest, [close]);
    AtPeek(s, i + |first| + |rest|, [close], 0);
  }

  /** What stands behind the first element. */
  lemma ElementsAt(c: Config, s: Text, i: nat, es: seq<Element>)
    requires AreElements(c, es) && es != [] && At(s, i, ElementsText(es) + [0x5D])
    ensures var p := i + |ElementText(es[0])|;
            && At(s, i, ElementText(es[0])) && Behind(Peek(s, p), 0x5D, |es| == 1)
            && At(s, p, ElementsText(es[1..]) + [0x5D])
  {
    hide IsElement, ElementText, At, AreElements, ElementsText, Behind, IsDoc, EventsOf, ElementEvents;
    FirstElement(c, es);
    SplitBefore(s, i, ElementText(es[0]), ElementsText(es[1..]), 0x5D);
    ElementsBehind(c, s, i + |ElementText(es[0])|, es[1..]);
  }

  lemma ElementsBehind(c: Config, s: Text, p: nat, es: seq<Element>)
    requires AreElements(c, es) && At(s, p, ElementsText(es)) && (ElementsText(es) == [] ==> Peek(s, p) == 0x5D)
    ensures Behind(Peek(s, p), 0x5D, es == [])
  {
    hide At, AreElements, ElementsText, Begins;
    if es == [] {
      NoElements(c);
    } else {
      NextElementBegins(c, s, p, es);
    }
  }

  lemma NextElementBegins(c: Config, s: Text, p: nat, es: seq<Element>)
    requires AreElements(c, es) && es != [] && At(s, p, ElementsText(es))
    ensures Begins(Peek(s, p))
  {
    FirstElement(c, es);
    hide IsElement, ElementText, AreElements, ElementsText;
    AtSplit(s, p, ElementText(es[0]), ElementsText(es[1..]));
    ElementBegins(c, s, p, es[0]);
  }

  lemma ElementsClosed(c: Config, s: Text, i: nat, count: nat, evs: seq<Event>, p: nat)
    requires i <= |s| && ElementTurn(c, s, i, count) == Closed(evs, p)
    ensures ReadElements(c, s, i, count) == Parsed(true, p, evs)
  {
    hide ElementTurn;
  }

  lemma ElementsNext(c: Config, s: Text, i: nat, count: nat, evs: seq<Event>, p: nat)
    requires i <= |s| && ElementTurn(c, s, i, count) == Next(evs, p)
    ensures i < p <= |s| && ReadElements(c, s, i, count) == After(evs, ReadElements(c, s, p, Count(count)))
  {
    hide ElementTurn, Count;
  }

  /** The first element of the rest has been read as its value. */
  ghost predicate FirstRead(c: Config, s: Text, i: nat, es: seq<Element>)
    requires es != [] && IsDoc(c, es[0].value)
  {
    i <= |s| && ReadValue(c, s, i) == Parsed(true, i + |TextOf(es[0].value)|, EventsOf(c, es[0].value))
  }

  lemma LastElement(c: Config, s: Text, i: nat, es: seq<Element>, n: nat)
    requires AreElements(c, es) && |es| == 1 && IsDoc(c, es[0].value) && FirstRead(c, s, i, es)
    requires At(s, i, ElementText(es[0])) && Behind(Peek(s, i + |ElementText(es[0])|), 0x5D, true)
    ensures i <= |s|
    ensures ReadElements(c, s, i, Wrapped(n))
            == Parsed(true, i + |ElementsText(es)| + 1, ElementEvents(c, es) + [EndArray(Wrapped(n + 1))])
  {
    hide AreElements, IsElement, ElementText, At, ReadValue, ReadElements, Behind, ElementsText, ElementEvents;
    hide Wrapped, EventsOf, TextOf, Count, ElementTurn, IsDoc;
    FirstElement(c, es);
    ElementTurnRead(c, s, i, es[0], true, Wrapped(n));
    CountNext(n);
    OneElement(c, es);
    ElementsClosed(c, s, i, Wrapped(n), EventsOf(c, es[0].value) + [EndArray(Wrapped(n + 1))],
                   i + |ElementText(es[0])| + 1);
  }

  lemma MoreElements(c: Config, s: Text, i: nat, es: seq<Element>, n: nat, end: Event)
    requires AreElements(c, es) && |es| > 1 && IsDoc(c, es[0].value) && FirstRead(c, s, i, es)
    requires At(s, i, ElementText(es[0])) && Behind(Peek(s, i + |ElementText(es[0])|), 0x5D, false)
    requires AreElements(c, es[1..]) && i + |ElementText(es[0])| <= |s|
    requires var p := i + |ElementText(es[0])|;
             ReadElements(c, s, p, Wrapped(n + 1))
             == Parsed(true, p + |ElementsText(es[1..])| + 1, ElementEvents(c, es[1..]) + [end])
    ensures i <= |s|
    ensures ReadElements(c, s, i, Wrapped(n))
            == Parsed(true, i + |ElementsText(es)| + 1, ElementEvents(c, es) + [end])
  {
    hide AreElements, IsElement, ElementText, At, ReadValue, ReadElements, Behind, ElementsText, ElementEvents;
    hide Wrapped, EventsOf, TextOf, Count, ElementTurn, IsDoc;
    var e, p := es[0], i + |ElementText(es[0])|;
    FirstElement(c, es);
    ElementTurnRead(c, s, i, e, false, Wrapped(n));
    CountNext(n);
    ElementsNext(c, s, i, Wrapped(n), EventsOf(c, e.value), p);
    Appended(EventsOf(c, e.value), ElementEvents(c, es[1..]), end);
  }

  lemma {:induction false} ElementsRead(c: Config, s: Text, i: nat, es: seq<Element>, n: nat, total: nat)
    requires AreElements(c, es) && es != [] && At(s, i, ElementsText(es) + [0x5D]) && total == n + |es|
    ensures i <= |s|
    ensures ReadElements(c, s, i, Wrapped(n))
            == Parsed(true, i + |ElementsText(es)| + 1, ElementEvents(c, es) + [EndArray(Wrapped(total))])
    decreases es, 2
  {
    hide Wrapped, IsElement, AreElements, ElementText, At, ReadValue, Behind, ElementsText, ElementEvents, EventsOf;
    hide TextOf, IsDoc, ReadElements, FirstRead;
    FirstIsRead(c, s, i, es);
    if |es| == 1 {
      LastElement(c, s, i, es, n);
    } else {
      assert es[0] in es;
      var p, m := i + |ElementText(es[0])|, n + 1;
      ElementsRead(c, s, p, es[1..], m, total);
      MoreElements(c, s, i, es, n, EndArray(Wrapped(total)));
    }
  }

  lemma OneElement(c: Config, es: seq<Element>)
    requires AreElements(c, es) && |es| == 1
    ensures IsDoc(c, es[0].value) && ElementEvents(c, es) == EventsOf(c, es[0].value)
    ensures ElementsText(es) == ElementText(es[0])
  {
    FirstElement(c, es);
    hide IsElement, ElementText, EventsOf, IsDoc;
    assert EventsOf(c, es[0].value) + [] == EventsOf(c, es[0].value);
    assert ElementText(es[0]) + [] == ElementText(es[0]);
  }

  /** Where the first element ends, and its value. */
  lemma {:induction false} FirstIsRead(c: Config, s: Text, i: nat, es: seq<Element>)
    requires AreElements(c, es) && es != [] && At(s, i, ElementsText(es) + [0x5D])
    ensures IsDoc(c, es[0].value) && FirstRead(c, s, i, es) && AreElements(c, es[1..])
    ensures var p := i + |ElementText(es[0])|;
            && At(s, i, ElementText(es[0])) && Behind(Peek(s, p), 0x5D, |es| == 1)
            && At(s, p, ElementsText(es[1..]) + [0x5D])
    decreases es, 1
  {
    hide IsElement, AreElements, ElementText, At, ReadValue, Behind, ElementsText, ElementEvents, EventsOf, TextOf;
    hide IsDoc, FirstRead;
    FirstElement(c, es);
    ElementsAt(c, s, i, es);
    ElementRead(c, s, i, es, |es| == 1);
  }

  /** The value of the first element. */
  lemma {:induction false} ElementRead(c: Config, s: Text, i: nat, es: seq<Element>, last: bool)
    requires es != [] && IsElement(c, es[0], last) && IsDoc(c, es[0].value)
    requires At(s, i, ElementText(es[0])) && Behind(Peek(s, i + |ElementText(es[0])|), 0x5D, last)
    ensures FirstRead(c, s, i, es)
    decreases es, 0
  {
    hide IsDoc, TextOf, CommaText, At, Behind, Ends, ReadValue, EventsOf;
    var e := es[0];
    assert e in es;
    AtSplit(s, i, TextOf(e.value), e.after + CommaText(e.comma));
    ElementEnds(c, s, i + |TextOf(e.value)|, e, last, 0x5D);
    DocRead(c, s, i, e.value);
  }

  /** Past the opening bracket and the white space behind it. */
  lemma ArrayOpens(c: Config, s: Text, i: nat, lead: Text, es: seq<Element>)
    requires IsWhite(lead) && AreElements(c, es) && At(s, i, TextOf(ArrayDoc(lead, es)))
    ensures var j := i + 1 + |lead|;
            && i < j <= |s| && Peek(s, i) == 0x5B && At(s, j, ElementsText(es) + [0x5D]) && SkipSpace(s, i + 1) == j
            && (Peek(s, j) == 0x5D <==> es == [])
            && i + |TextOf(ArrayDoc(lead, es))| == j + |ElementsText(es)| + 1
  {
    hide IsWhite, AreElements, ElementsText, At;
    var rest := ElementsText(es) + [0x5D];
    AtSplit(s, i, [0x5B], lead + rest);
    AtSplit(s, i + 1, lead, rest);
    AtPeek(s, i, [0x5B], 0);
    ArrayLead(c, s, i + 1 + |lead|, es);
    SkipWhite(s, i + 1, lead);
    Bounded(s, i, [0x5B]);
  }

  lemma Bounded(s: Text, i: nat, t: Text)
    requires At(s, i, t)
    ensures i + |t| <= |s|
  {
  }

  lemma ArrayIs(c: Config, s: Text, i: nat, j: nat, r: Parsed)
    requires i < j <= |s| && SkipSpace(s, i + 1) == j && r.ok
    requires if Peek(s, j) == RBRACKET then r == Parsed(true, j + 1, [EndArray(0)]) else ReadElements(c, s, j, 0) == r
    ensures ReadArray(c, s, i) == Parsed(true, r.pos, [StartArray] + r.evs)
  {
    hide ReadElements, SkipSpace;
  }

  lemma {:induction false} ArrayRead(c: Config, s: Text, i: nat, lead: Text, es: seq<Element>)
    requires IsWhite(lead) && AreElements(c, es) && At(s, i, TextOf(ArrayDoc(lead, es)))
    ensures var d := ArrayDoc(lead, es);
            i < |s| && ReadArray(c, s, i) == Parsed(true, i + |TextOf(d)|, EventsOf(c, d))
    decreases es, 3
  {
    hide IsWhite, AreElements, ElementsText, At, ReadElements, ElementEvents, ReadArray, SkipSpace;
    ArrayOpens(c, s, i, lead, es);
    var j := i + 1 + |lead|;
    var evs := ElementEvents(c, es) + [EndArray(Wrapped(|es|))];
    if es == [] {
      NoElements(c);
    } else {
      ElementsRead(c, s, j, es, 0, |es|);
    }
    ArrayIs(c, s, i, j, Parsed(true, j + |ElementsText(es)| + 1, evs));
  }

  lemma NoElements(c: Config)
    ensures ElementsText([]) == [] && ElementEvents(c, []) == []
    ensures AreElements(c, [])
  {
  }

  lemma ArrayLead(c: Config, s: Text, j: nat, es: seq<Element>)
    requires AreElements(c, es) && At(s, j, ElementsText(es) + [0x5D])
    ensures !IsSpace(Peek(s, j)) && (Peek(s, j) == 0x5D <==> es == [])
  {
    hide At, AreElements;
    if es == [] {
      assert [] + [0x5D] == [0x5D];
      AtPeek(s, j, [0x5D], 0);
    } else {
      AtSplit(s, j, ElementsText(es), [0x5D]);
      NextElementBegins(c, s, j, es);
    }
  }

  /* ---- objects ---- */

  lemma FirstEntry(c: Config, ms: seq<Entry>)
    requires AreEntries(c, ms) && ms != []
    ensures IsEntry(c, ms[0], |ms| == 1) && IsElement(c, ms[0].element, |ms| == 1) && IsDoc(c, ms[0].element.value)
    ensures S.AllUnits(ms[0].name) && AreEntries(c, ms[1..])
    ensures EntriesText(ms) == EntryText(ms[0]) + EntriesText(ms[1..])
    ensures EntryEvents(c, ms) == MemberEvents(c, ms[0]) + EntryEvents(c, ms[1..])
  {
    assert IsElement(c, ms[0].element, |ms| == 1);
    hide IsDoc, EntryText, EventsOf, S.AllUnits, S.MeaningAll;
  }

  lemma EntryBegins(s: Text, i: nat, m: Entry)
    requires At(s, i, EntryText(m))
    ensures Peek(s, i) == QUOTE
  {
    EntryAts(s, i, m);
    AtPeek(s, i, QuotedText(m.name), 0);
    hide At, EntryText;
  }

  lemma NextEntryBegins(c: Config, s: Text, p: nat, ms: seq<Entry>)
    requires AreEntries(c, ms) && ms != [] && At(s, p, EntriesText(ms))
    ensures Peek(s, p) == QUOTE
  {
    FirstEntry(c, ms);
    hide IsEntry, EntryText, AreEntries, EntriesText, At;
    AtSplit(s, p, EntryText(ms[0]), EntriesText(ms[1..]));
    EntryBegins(s, p, ms[0]);
  }

  lemma EntriesAt(c: Config, s: Text, i: nat, ms: seq<Entry>)
    requires AreEntries(c, ms) && ms != [] && At(s, i, EntriesText(ms) + [0x7D])
    ensures var p := i + |EntryText(ms[0])|;
            && At(s, i, EntryText(ms[0])) && Behind(Peek(s, p), 0x7D, |ms| == 1)
            && At(s, p, EntriesText(ms[1..]) + [0x7D])
  {
    hide IsEntry, IsElement, EntryText, At, AreEntries, EntriesText, Behind, IsDoc, S.AllUnits, MemberEvents;
    hide EntryEvents;
    FirstEntry(c, ms);
    SplitBefore(s, i, EntryText(ms[0]), EntriesText(ms[1..]), 0x7D);
    EntriesBehind(c, s, i + |EntryText(ms[0])|, ms[1..]);
  }

  lemma EntriesBehind(c: Config, s: Text, p: nat, ms: seq<Entry>)
    requires AreEntries(c, ms) && At(s, p, EntriesText(ms)) && (EntriesText(ms) == [] ==> Peek(s, p) == 0x7D)
    ensures Behind(Peek(s, p), 0x7D, ms == [])
  {
    hide At, AreEntries, EntriesText;
    if ms == [] {
      NoEntries(c);
    } else {
      NextEntryBegins(c, s, p, ms);
    }
  }

  lemma MembersClosed(c: Config, s: Text, i: nat, count: nat, evs: seq<Event>, p: nat)
    requires i <= |s| && MemberTurn(c, s, i, count) == Closed(evs, p)
    ensures ReadMembers(c, s, i, count) == Parsed(true, p, evs)
  {
    hide MemberTurn;
  }

  lemma MembersNext(c: Config, s: Text, i: nat, count: nat, evs: seq<Event>, p: nat)
    requires i <= |s| && MemberTurn(c, s, i, count) == Next(evs, p)
    ensures i < p <= |s| && ReadMembers(c, s, i, count) == After(evs, ReadMembers(c, s, p, Count(count)))
  {
    hide MemberTurn, Count;
  }

  lemma OneEntry(c: Config, ms: seq<Entry>)
    requires AreEntries(c, ms) && |ms| == 1
    ensures IsDoc(c, ms[0].element.value) && S.AllUnits(ms[0].name) && EntryEvents(c, ms) == MemberEvents(c, ms[0])
    ensures EntriesText(ms) == EntryText(ms[0])
  {
    FirstEntry(c, ms);
    hide IsEntry, EntryText, MemberEvents, IsDoc, S.AllUnits;
    assert MemberEvents(c, ms[0]) + [] == MemberEvents(c, ms[0]);
    assert EntryText(ms[0]) + [] == EntryText(ms[0]);
  }

  /** The value of the first member of the rest has been read. */
  ghost predicate FirstValueRead(c: Config, s: Text, i: nat, m: Entry)
    requires IsDoc(c, m.element.value)
  {
    && i <= |s| && ValueAt(i, m) <= |s|
    && ReadValue(c, s, ValueAt(i, m))
       == Parsed(true, ValueAt(i, m) + |TextOf(m.element.value)|, EventsOf(c, m.element.value))
  }

  lemma LastMember(c: Config, s: Text, i: nat, ms: seq<Entry>, n: nat)
    requires AreEntries(c, ms) && |ms| == 1 && IsDoc(c, ms[0].element.value) && FirstValueRead(c, s, i, ms[0])
    requires At(s, i, EntryText(ms[0])) && Behind(Peek(s, i + |EntryText(ms[0])|), 0x7D, true)
    ensures i <= |s|
    ensures ReadMembers(c, s, i, Wrapped(n))
            == Parsed(true, i + |EntriesText(ms)| + 1, EntryEvents(c, ms) + [EndObject(Wrapped(n + 1))])
  {
    hide Wrapped;
    hide AreEntries, IsEntry, EntryText, At, ReadValue, ReadMembers, Behind, EntriesText, EntryEvents, MemberEvents;
    hide TextOf, Count, MemberTurn, IsDoc, IsElement, S.AllUnits, ValueAt, EventsOf;
    FirstEntry(c, ms);
    MemberTurnRead(c, s, i, ms[0], true, Wrapped(n));
    CountNext(n);
    OneEntry(c, ms);
    MembersClosed(c, s, i, Wrapped(n), MemberEvents(c, ms[0]) + [EndObject(Wrapped(n + 1))],
                  i + |EntryText(ms[0])| + 1);
  }

  lemma MoreMembers(c: Config, s: Text, i: nat, ms: seq<Entry>, n: nat, end: Event)
    requires AreEntries(c, ms) && |ms| > 1 && IsDoc(c, ms[0].element.value) && FirstValueRead(c, s, i, ms[0])
    requires At(s, i, EntryText(ms[0])) && Behind(Peek(s, i + |EntryText(ms[0])|), 0x7D, false)
    requires AreEntries(c, ms[1..]) && i + |EntryText(ms[0])| <= |s|
    requires var p := i + |EntryText(ms[0])|;
             ReadMembers(c, s, p, Wrapped(n + 1))
             == Parsed(true, p + |EntriesText(ms[1..])| + 1, EntryEvents(c, ms[1..]) + [end])
    ensures i <= |s|
    ensures ReadMembers(c, s, i, Wrapped(n))
            == Parsed(true, i + |EntriesText(ms)| + 1, EntryEvents(c, ms) + [end])
  {
    hide Wrapped;
    hide AreEntries, IsEntry, EntryText, At, ReadValue, ReadMembers, Behind, EntriesText, EntryEvents, MemberEvents;
    hide TextOf, Count, MemberTurn, IsDoc, IsElement, S.AllUnits, ValueAt, EventsOf;
    var m, p := ms[0], i + |EntryText(ms[0])|;
    FirstEntry(c, ms);
    MemberTurnRead(c, s, i, m, false, Wrapped(n));
    CountNext(n);
    MembersNext(c, s, i, Wrapped(n), MemberEvents(c, m), p);
    Appended(MemberEvents(c, m), EntryEvents(c, ms[1..]), end);
  }

  /** The value of the first member. */
  lemma {:induction false} EntryRead(c: Config, s: Text, i: nat, ms: seq<Entry>, last: bool)
    requires ms != [] && IsEntry(c, ms[0], last) && IsElement(c, ms[0].element, last) && IsDoc(c, ms[0].element.value)
    requires At(s, i, EntryText(ms[0])) && Behind(Peek(s, i + |EntryText(ms[0])|), 0x7D, last)
    ensures FirstValueRead(c, s, i, ms[0])
    decreases ms, 0
  {
    hide IsDoc, TextOf, CommaText, At, Behind, Ends, ReadValue, EventsOf, IsWhite, S.AllUnits, QuotedText, EntryText;
    var m := ms[0];
    assert m in ms;
    EntryParts(c, s, i, m);
    var e, d := m.element, ValueAt(i, m);
    AtSplit(s, d, TextOf(e.value), e.after + CommaText(e.comma));
    ElementEnds(c, s, d + |TextOf(e.value)|, e, last, 0x7D);
    DocRead(c, s, d, e.value);
  }

  /** Where the first member ends, and its value. */
  lemma {:induction false} FirstValueIsRead(c: Config, s: Text, i: nat, ms: seq<Entry>)
    requires AreEntries(c, ms) && ms != [] && At(s, i, EntriesText(ms) + [0x7D])
    ensures IsDoc(c, ms[0].element.value) && FirstValueRead(c, s, i, ms[0]) && AreEntries(c, ms[1..])
    ensures var p := i + |EntryText(ms[0])|;
            && At(s, i, EntryText(ms[0])) && Behind(Peek(s, p), 0x7D, |ms| == 1)
            && At(s, p, EntriesText(ms[1..]) + [0x7D])
    decreases ms, 1
  {
    hide IsEntry, AreEntries, EntryText, At, ReadValue, Behind, EntriesText, EntryEvents, EventsOf, TextOf, IsDoc;
    hide IsElement, MemberEvents, S.AllUnits, FirstValueRead;
    FirstEntry(c, ms);
    EntriesAt(c, s, i, ms);
    EntryRead(c, s, i, ms, |ms| == 1);
  }

  lemma {:induction false} EntriesRead(c: Config, s: Text, i: nat, ms: seq<Entry>, n: nat, total: nat)
    requires AreEntries(c, ms) && ms != [] && At(s, i, EntriesText(ms) + [0x7D]) && total == n + |ms|
    ensures i <= |s|
    ensures ReadMembers(c, s, i, Wrapped(n))
            == Parsed(true, i + |EntriesText(ms)| + 1, EntryEvents(c, ms) + [EndObject(Wrapped(total))])
    decreases ms, 2
  {
    hide Wrapped, IsEntry, AreEntries, EntryText, At, ReadValue, Behind, EntriesText, EntryEvents, EventsOf, TextOf;
    hide IsDoc, ReadMembers, IsElement, MemberEvents, S.AllUnits, FirstValueRead;
    FirstValueIsRead(c, s, i, ms);
    if |ms| == 1 {
      LastMember(c, s, i, ms, n);
    } else {
      assert ms[0] in ms;
      var p, m := i + |EntryText(ms[0])|, n + 1;
      EntriesRead(c, s, p, ms[1..], m, total);
      MoreMembers(c, s, i, ms, n, EndObject(Wrapped(total)));
    }
  }

  lemma NoEntries(c: Config)
    ensures EntriesText([]) == [] && AreEntries(c, []) && EntryEvents(c, []) == []
  {
  }

  lemma ObjectLead(c: Config, s: Text, j: nat, ms: seq<Entry>)
    requires AreEntries(c, ms) && At(s, j, EntriesText(ms) + [0x7D])
    ensures !IsSpace(Peek(s, j)) && (Peek(s, j) == 0x7D <==> ms == [])
  {
    hide At, AreEntries;
    if ms == [] {
      assert [] + [0x7D] == [0x7D];
      AtPeek(s, j, [0x7D], 0);
    } else {
      AtSplit(s, j, EntriesText(ms), [0x7D]);
      NextEntryBegins(c, s, j, ms);
    }
  }

  lemma ObjectOpens(c: Config, s: Text, i: nat, lead: Text, ms: seq<Entry>)
    requires IsWhite(lead) && AreEntries(c, ms) && At(s, i, TextOf(ObjectDoc(lead, ms)))
    ensures var j := i + 1 + |lead|;
            && i < j <= |s| && Peek(s, i) == 0x7B && At(s, j, EntriesText(ms) + [0x7D]) && SkipSpace(s, i + 1) == j
            && (Peek(s, j) == 0x7D <==> ms == [])
            && i + |TextOf(ObjectDoc(lead, ms))| == j + |EntriesText(ms)| + 1
  {
    hide IsWhite, AreEntries, EntriesText, At;
    var rest := EntriesText(ms) + [0x7D];
    AtSplit(s, i, [0x7B], lead + rest);
    AtSplit(s, i + 1, lead, rest);
    AtPeek(s, i, [0x7B], 0);
    ObjectLead(c, s, i + 1 + |lead|, ms);
    SkipWhite(s, i + 1, lead);
    Bounded(s, i, [0x7B]);
  }

  lemma ObjectIs(c: Config, s: Text, i: nat, j: nat, r: Parsed)
    requires i < j <= |s| && SkipSpace(s, i + 1) == j && r.ok
    requires if Peek(s, j) == RBRACE then r == Parsed(true, j + 1, [EndObject(0)]) else ReadMembers(c, s, j, 0) == r
    ensures ReadObject(c, s, i) == Parsed(true, r.pos, [StartObject] + r.evs)
  {
    hide ReadMembers, SkipSpace;
  }

  lemma {:induction false} ObjectRead(c: Config, s: Text, i: nat, lead: Text, ms: seq<Entry>)
    requires IsWhite(lead) && AreEntries(c, ms) && At(s, i, TextOf(ObjectDoc(lead, ms)))
    ensures i < |s|
    ensures ReadObject(c, s, i) == Parsed(true, i + |TextOf(ObjectDoc(lead, ms))|, EventsOf(c, ObjectDoc(lead, ms)))
    decreases ms, 3
  {
    hide IsWhite, AreEntries, EntriesText, At, ReadMembers, EntryEvents, ReadObject, SkipSpace;
    ObjectOpens(c, s, i, lead, ms);
    var j := i + 1 + |lead|;
    var evs := EntryEvents(c, ms) + [EndObject(Wrapped(|ms|))];
    if ms == [] {
      NoEntries(c);
    } else {
      EntriesRead(c, s, j, ms, 0, |ms|);
    }
    ObjectIs(c, s, i, j, Parsed(true, j + |EntriesText(ms)| + 1, evs));
  }

  /** A JSON value is read to its end, as its events, if what stands behind it does not continue it. */
  lemma {:induction false} DocRead(c: Config, s: Text, i: nat, d: Doc)
    requires IsDoc(c, d) && At(s, i, TextOf(d)) && Ends(d, Peek(s, i + |TextOf(d)|))
    ensures i <= |s| && ReadValue(c, s, i) == Parsed(true, i + |TextOf(d)|, EventsOf(c, d))
    decreases d, 0
  {
    hide At, IsWhite, AreElements, N.IsLiteral;
    match d
    case NullDoc => NullRead(c, s, i);
    case BoolDoc(b) => BoolRead(c, s, i, b);
    case NumberDoc(l) => NumberRead(c, s, i, l);
    case StringDoc(us) => StringRead(c, s, i, us);
    case ArrayDoc(lead, es) =>
      BeginsAt(c, s, i, d);
      ArrayRead(c, s, i, lead, es);
    case ObjectDoc(lead, ms) =>
      BeginsAt(c, s, i, d);
      ObjectRead(c, s, i, lead, ms);
  }

  /* ---- what is read is a JSON text ---- */

  lemma AtJoin(s: Text, i: nat, a: Text, b: Text)
    requires At(s, i, a) && At(s, i + |a|, b)
    ensures At(s, i, a + b)
  {
    var j, k := i + |a|, i + |a| + |b|;
    assert s[i..k] == s[i..j] + s[j..k];
  }

  lemma Slice(s: Text, i: nat, j: nat)
    requires i <= j <= |s|
    ensures At(s, i, s[i..j]) && |s[i..j]| == j - i
  {
  }

  lemma OneAt(s: Text, i: nat, c: Byte)
    requires Peek(s, i) == c && c != NUL
    ensures At(s, i, [c])
  {
    assert s[i..i + 1] == [s[i]];
  }

  lemma WhiteFound(s: Text, i: nat)
    requires i <= |s|
    ensures IsWhite(s[i..SkipSpace(s, i)])
  {
  }

  lemma {:induction false} WordFound(s: Text, i: nat, t: Text)
    requires i <= |s| && Matches(s, i, t)
    ensures At(s, i, t)
    decreases |t|
  {
    if t != [] {
      WordFound(s, i + 1, t[1..]);
      OneAt(s, i, t[0]);
      AtJoin(s, i, [t[0]], t[1..]);
      assert t == [t[0]] + t[1..];
    }
  }

  lemma LiteralFound(s: Text, i: nat, rest: Text, ev: Event)
    requires i < |s| && ReadLiteral(s, i, rest, ev).ok
    ensures At(s, i, [s[i]] + rest) && ReadLiteral(s, i, rest, ev).pos == i + |[s[i]] + rest|
  {
    WordFound(s, i + 1, rest);
    assert s[i..i + 1] == [s[i]];
    AtJoin(s, i, [s[i]], rest);
    hide Matches;
  }

  lemma QuotedFound(s: Text, i: nat, isKey: bool) returns (us: seq<S.Unit>)
    requires i < |s| && Peek(s, i) == QUOTE && ReadKeyOrString(s, i, isKey).ok
    ensures S.AllUnits(us) && At(s, i, QuotedText(us)) && ReadKeyOrString(s, i, isKey).pos == i + |QuotedText(us)|
  {
    us := S.LiteralFound(s, i + 1);
    OneAt(s, i, 0x22);
    hide At, S.SpelledAll, S.AllUnits, S.MeaningAll;
    AtJoin(s, i, [0x22], S.SpelledAll(us) + [0x22]);
    QuotedRead(s, i, us, isKey);
  }

  lemma ScalarFound(c: Config, s: Text, i: nat) returns (d: Doc)
    requires i <= |s| && Peek(s, i) != LBRACE && Peek(s, i) != LBRACKET && ReadScalar(c, s, i).ok
    ensures IsDoc(c, d) && At(s, i, TextOf(d)) && ReadScalar(c, s, i).pos == i + |TextOf(d)|
    ensures Ends(d, Peek(s, i + |TextOf(d)|))
  {
    hide ReadLiteral, ReadKeyOrString, At, N.Spelled, N.GoesOn, N.EventOf, S.AllUnits, S.SpelledAll;
    var u := Peek(s, i);
    if u == 0x6E {
      LiteralFound(s, i, ULL, Null);
      d := NullDoc;
      assert TextOf(d) == [u] + ULL;
    } else if u == 0x74 {
      LiteralFound(s, i, RUE, Bool(true));
      d := BoolDoc(true);
      assert TextOf(d) == [u] + RUE;
    } else if u == 0x66 {
      LiteralFound(s, i, ALSE, Bool(false));
      d := BoolDoc(false);
      assert TextOf(d) == [u] + ALSE;
    } else if u == QUOTE {
      var us := QuotedFound(s, i, false);
      d := StringDoc(us);
    } else {
      d := NumberFound(c, s, i);
    }
  }

  lemma NumberFound(c: Config, s: Text, i: nat) returns (d: Doc)
    requires i <= |s| && JsonNumber.ReadNumber(c.tooBig, s, i).NumberOk?
    ensures d.NumberDoc? && IsDoc(c, d) && At(s, i, TextOf(d))
    ensures JsonNumber.ReadNumber(c.tooBig, s, i).next == i + |TextOf(d)|
    ensures Ends(d, Peek(s, i + |TextOf(d)|))
  {
    var l := N.ReadIsLiteral(c.tooBig, s, i);
    N.LiteralIsRead(c.tooBig, s, i, l);
    d := NumberDoc(l);
    hide N.Spelled, N.GoesOn, N.IsLiteral, N.EventOf, JsonNumber.ReadNumber, At, N.IsInteger;
  }

  /** The white space, the comma and the white space behind a value. */
  lemma RestFound(s: Text, p: nat, comma: bool) returns (after: Text, space: Option<Text>)
    requires p <= |s| && (comma ==> Peek(s, SkipSpace(s, p)) == COMMA)
    ensures IsWhite(after) && (space.Some? <==> comma) && (comma ==> IsWhite(space.value))
    ensures At(s, p, after + CommaText(space))
    ensures SkipSpace(s, p) < |s| || !comma
    ensures p + |after + CommaText(space)| == if comma then SkipSpace(s, SkipSpace(s, p) + 1) else SkipSpace(s, p)
  {
    hide At, SkipSpace, IsWhite;
    var q := SkipSpace(s, p);
    WhiteFound(s, p);
    Slice(s, p, q);
    after := s[p..q];
    if comma {
      var white := CommaFound(s, q);
      space := Some(white);
      AtJoin(s, p, after, CommaText(space));
    } else {
      space := None;
      assert after + [] == after;
    }
  }

  /** The white space behind a comma. */
  lemma CommaFound(s: Text, q: nat) returns (space: Text)
    requires Peek(s, q) == COMMA
    ensures q < |s| && IsWhite(space) && At(s, q, CommaText(Some(space)))
    ensures q + |CommaText(Some(space))| == SkipSpace(s, q + 1)
  {
    hide At, SkipSpace, IsWhite;
    OneAt(s, q, COMMA);
    var r := SkipSpace(s, q + 1);
    WhiteFound(s, q + 1);
    Slice(s, q + 1, r);
    space := s[q + 1..r];
    AtJoin(s, q, [0x2C], space);
  }

  /** The element that a turn of the loop has read. */
  lemma ElementFound(c: Config, s: Text, i: nat, count: nat, d: Doc) returns (e: Element)
    requires i <= |s| && !ElementTurn(c, s, i, count).Broken? && ReadValue(c, s, i).ok
    requires IsDoc(c, d) && At(s, i, TextOf(d)) && ReadValue(c, s, i).pos == i + |TextOf(d)|
    ensures var t := ElementTurn(c, s, i, count); var p := i + |ElementText(e)|;
            && IsElement(c, e, t.Closed?) && e.value == d && At(s, i, ElementText(e))
            && (if t.Closed? then t.pos == p + 1 && Peek(s, p) == 0x5D else t.pos == p)
  {
    hide ReadValue, IsDoc, TextOf, At, SkipSpace, Count;
    var v := ReadValue(c, s, i);
    var comma := Peek(s, SkipSpace(s, v.pos)) == COMMA;
    var after, space := RestFound(s, v.pos, comma);
    e := Element(d, after, space);
    AtJoin(s, i, TextOf(d), after + CommaText(space));
    hide CommaText, IsWhite;
  }

  lemma TurnOk(c: Config, s: Text, i: nat, count: nat)
    requires i <= |s| && !ElementTurn(c, s, i, count).Broken?
    ensures ReadValue(c, s, i).ok
  {
    hide ReadValue, SkipSpace;
  }

  lemma ElementsTurn(c: Config, s: Text, i: nat, count: nat)
    requires i <= |s| && ReadElements(c, s, i, count).ok
    ensures var t := ElementTurn(c, s, i, count);
            && !t.Broken? && i < t.pos <= |s|
            && (t.Closed? ==> ReadElements(c, s, i, count).pos == t.pos)
            && (t.Next? ==> ReadElements(c, s, t.pos, Count(count)).ok
                            && ReadElements(c, s, i, count).pos == ReadElements(c, s, t.pos, Count(count)).pos)
  {
    hide ElementTurn, Count;
  }

  lemma JoinedBefore(s: Text, i: nat, first: Text, rest: Text, close: Byte)
    requires At(s, i, first) && At(s, i + |first|, rest + [close])
    ensures At(s, i, (first + rest) + [close])
  {
    hide At;
    AtJoin(s, i, first, rest + [close]);
    Associative(first, rest, [close]);
  }

  lemma {:induction false} ElementsFound(c: Config, s: Text, i: nat, count: nat) returns (es: seq<Element>)
    requires i <= |s| && ReadElements(c, s, i, count).ok
    ensures es != [] && AreElements(c, es) && At(s, i, ElementsText(es) + [0x5D])
    ensures ReadElements(c, s, i, count).pos == i + |ElementsText(es)| + 1
    decreases |s| - i, 4
  {
    hide ReadElements, ElementTurn, IsDoc, TextOf, At, ElementText, Count, IsElement;
    ElementsTurn(c, s, i, count);
    TurnOk(c, s, i, count);
    var d := DocFound(c, s, i);
    var e := ElementFound(c, s, i, count, d);
    var p := i + |ElementText(e)|;
    var t := ElementTurn(c, s, i, count);
    if t.Closed? {
      es := [e];
      SingleElement(c, e);
      OneAt(s, p, 0x5D);
      AtJoin(s, i, ElementText(e), [0x5D]);
    } else {
      var rest := ElementsFound(c, s, p, Count(count));
      es := [e] + rest;
      MoreElementsText(c, e, rest);
      JoinedBefore(s, i, ElementText(e), ElementsText(rest), 0x5D);
    }
  }

  lemma SingleElement(c: Config, e: Element)
    requires IsElement(c, e, true)
    ensures AreElements(c, [e]) && ElementsText([e]) == ElementText(e)
  {
    hide IsElement, ElementText;
    assert [e][0] == e && [e][1..] == [];
    NoElements(c);
    assert ElementText(e) + [] == ElementText(e);
  }

  lemma MoreElementsText(c: Config, e: Element, rest: seq<Element>)
    requires IsElement(c, e, false) && AreElements(c, rest) && rest != []
    ensures AreElements(c, [e] + rest) && ElementsText([e] + rest) == ElementText(e) + ElementsText(rest)
  {
    hide IsElement, ElementText;
    assert ([e] + rest)[0] == e && ([e] + rest)[1..] == rest;
  }

  lemma {:induction false} ArrayFound(c: Config, s: Text, i: nat) returns (d: Doc)
    requires i < |s| && Peek(s, i) == LBRACKET && ReadArray(c, s, i).ok
    ensures IsDoc(c, d) && d.ArrayDoc? && At(s, i, TextOf(d)) && ReadArray(c, s, i).pos == i + |TextOf(d)|
    decreases |s| - i, 0
  {
    hide ReadElements, At, AreElements, ElementsText, SkipSpace, IsWhite;
    var j := SkipSpace(s, i + 1);
    WhiteFound(s, i + 1);
    Slice(s, i + 1, j);
    var lead := s[i + 1..j];
    OneAt(s, i, 0x5B);
    var es: seq<Element> := [];
    if Peek(s, j) == RBRACKET {
      NoElements(c);
      OneAt(s, j, 0x5D);
      assert [] + [0x5D] == [0x5D];
    } else {
      es := ElementsFound(c, s, j, 0);
    }
    d := ArrayDoc(lead, es);
    AtJoin(s, i + 1, lead, ElementsText(es) + [0x5D]);
    AtJoin(s, i, [0x5B], lead + (ElementsText(es) + [0x5D]));
  }

  /** The parts that ReadMember has read. */
  lemma MemberParts(c: Config, s: Text, i: nat)
    requires i <= |s| && ReadMember(c, s, i).ok
    ensures i < |s| && Peek(s, i) == QUOTE && ReadKeyOrString(s, i, true).ok
    ensures var a := ReadKeyOrString(s, i, true).pos; var b := SkipSpace(s, a); var d := SkipSpace(s, b + 1);
            && i < a <= b < d <= |s| && Peek(s, b) == COLON && ReadValue(c, s, d).ok
            && ReadMember(c, s, i).pos == SkipSpace(s, ReadValue(c, s, d).pos)
  {
    hide ReadKeyOrString, ReadValue;
  }

  lemma MemberTurnOk(c: Config, s: Text, i: nat, count: nat)
    requires i <= |s| && !MemberTurn(c, s, i, count).Broken?
    ensures ReadMember(c, s, i).ok
    ensures var t := MemberTurn(c, s, i, count); var q := ReadMember(c, s, i).pos;
            var comma := Peek(s, q) == COMMA; var r := if comma then SkipSpace(s, q + 1) else q;
            && CommaAllowed(c, comma, t.Closed?)
            && (if t.Closed? then t.pos == r + 1 && Peek(s, r) == 0x7D else t.pos == r)
  {
    hide ReadMember, SkipSpace, Count;
  }

  predicate CommaAllowed(c: Config, comma: bool, last: bool) {
    if last then comma ==> c.trailingCommas else comma
  }

  /** The member at `i` with this name and value, with a comma behind it or without. */
  lemma EntryMade(c: Config, s: Text, i: nat, us: seq<S.Unit>, value: Doc, b: nat, d: nat, comma: bool, last: bool)
    returns (m: Entry)
    requires S.AllUnits(us) && At(s, i, QuotedText(us)) && IsDoc(c, value) && At(s, d, TextOf(value))
    requires var a := i + |QuotedText(us)|;
             a <= b < d <= |s| && SkipSpace(s, a) == b && Peek(s, b) == COLON && SkipSpace(s, b + 1) == d
    requires var p := d + |TextOf(value)|;
             p <= |s| && (comma ==> Peek(s, SkipSpace(s, p)) == COMMA) && CommaAllowed(c, comma, last)
    ensures IsEntry(c, m, last) && At(s, i, EntryText(m))
    ensures var p := d + |TextOf(value)|; SkipSpace(s, p) < |s| || !comma
    ensures var p := d + |TextOf(value)|;
            i + |EntryText(m)| == if comma then SkipSpace(s, SkipSpace(s, p) + 1) else SkipSpace(s, p)
  {
    hide IsDoc, TextOf, At, SkipSpace, QuotedText, S.AllUnits, IsWhite, EntryText;
    var p := d + |TextOf(value)|;
    var after, space := RestFound(s, p, comma);
    AtJoin(s, d, TextOf(value), after + CommaText(space));
    m := Entry(us, s[i + |QuotedText(us)|..b], s[b + 1..d], Element(value, after, space));
    EntryStands(s, i, m, b, d);
    hide CommaText;
  }

  /** The member that a turn of the loop has read. */
  lemma EntryFound(c: Config, s: Text, i: nat, count: nat, us: seq<S.Unit>, value: Doc, b: nat, d: nat)
    returns (m: Entry)
    requires i <= |s| && !MemberTurn(c, s, i, count).Broken? && ReadMember(c, s, i).ok
    requires S.AllUnits(us) && At(s, i, QuotedText(us)) && IsDoc(c, value) && At(s, d, TextOf(value))
    requires var a := i + |QuotedText(us)|;
             a <= b < d <= |s| && SkipSpace(s, a) == b && Peek(s, b) == COLON && SkipSpace(s, b + 1) == d
    requires d + |TextOf(value)| <= |s| && ReadMember(c, s, i).pos == SkipSpace(s, d + |TextOf(value)|)
    ensures var t := MemberTurn(c, s, i, count); var p := i + |EntryText(m)|;
            && IsEntry(c, m, t.Closed?) && At(s, i, EntryText(m))
            && (if t.Closed? then t.pos == p + 1 && Peek(s, p) == 0x7D else t.pos == p)
  {
    hide IsDoc, TextOf, At, SkipSpace, ReadMember, MemberTurn, QuotedText, S.AllUnits, IsEntry, EntryText, CommaAllowed;
    MemberTurnOk(c, s, i, count);
    var comma := Peek(s, ReadMember(c, s, i).pos) == COMMA;
    m := EntryMade(c, s, i, us, value, b, d, comma, MemberTurn(c, s, i, count).Closed?);
  }

  lemma EntryStands(s: Text, i: nat, m: Entry, b: nat, d: nat)
    requires var a := i + |QuotedText(m.name)|;
             && a <= b < d <= |s| && SkipSpace(s, a) == b && Peek(s, b) == COLON && SkipSpace(s, b + 1) == d
             && m.before == s[a..b] && m.behind == s[b + 1..d]
    requires At(s, i, QuotedText(m.name)) && At(s, d, ElementText(m.element))
    ensures IsWhite(m.before) && IsWhite(m.behind)
    ensures At(s, i, EntryText(m)) && i + |EntryText(m)| == d + |ElementText(m.element)|
  {
    hide QuotedText, ElementText, At, EntryText, IsWhite, SkipSpace;
    var a := i + |QuotedText(m.name)|;
    WhiteFound(s, a);
    WhiteFound(s, b + 1);
    Slice(s, a, b);
    Slice(s, b + 1, d);
    EntryJoined(s, i, m);
    EntryLength(m);
  }

  lemma EntryLength(m: Entry)
    ensures |EntryText(m)| == |QuotedText(m.name)| + |m.before| + 1 + |m.behind| + |ElementText(m.element)|
  {
    hide QuotedText, ElementText;
  }

  lemma EntryJoined(s: Text, i: nat, m: Entry)
    requires var a := i + |QuotedText(m.name)|; var b := a + |m.before|; var d := b + 1 + |m.behind|;
             && At(s, i, QuotedText(m.name)) && At(s, a, m.before) && Peek(s, b) == COLON && At(s, b + 1, m.behind)
             && At(s, d, ElementText(m.element))
    ensures At(s, i, EntryText(m))
  {
    hide QuotedText, ElementText, At;
    var a := i + |QuotedText(m.name)|;
    var b := a + |m.before|;
    var element := ElementText(m.element);
    OneAt(s, b, 0x3A);
    AtJoin(s, b + 1, m.behind, element);
    AtJoin(s, b, [0x3A], m.behind + element);
    AtJoin(s, a, m.before, [0x3A] + (m.behind + element));
    AtJoin(s, i, QuotedText(m.name), m.before + ([0x3A] + (m.behind + element)));
  }

  lemma MembersTurn(c: Config, s: Text, i: nat, count: nat)
    requires i <= |s| && ReadMembers(c, s, i, count).ok
    ensures var t := MemberTurn(c, s, i, count);
            && !t.Broken? && i < t.pos <= |s|
            && (t.Closed? ==> ReadMembers(c, s, i, count).pos == t.pos)
            && (t.Next? ==> ReadMembers(c, s, t.pos, Count(count)).ok
                            && ReadMembers(c, s, i, count).pos == ReadMembers(c, s, t.pos, Count(count)).pos)
  {
    hide MemberTurn, Count;
  }

  lemma SingleEntry(c: Config, m: Entry)
    requires IsEntry(c, m, true)
    ensures AreEntries(c, [m]) && EntriesText([m]) == EntryText(m)
  {
    hide IsEntry, EntryText;
    assert [m][0] == m && [m][1..] == [];
    NoEntries(c);
    assert EntryText(m) + [] == EntryText(m);
  }

  lemma MoreEntriesText(c: Config, m: Entry, rest: seq<Entry>)
    requires IsEntry(c, m, false) && AreEntries(c, rest) && rest != []
    ensures AreEntries(c, [m] + rest) && EntriesText([m] + rest) == EntryText(m) + EntriesText(rest)
  {
    hide IsEntry, EntryText;
    assert ([m] + rest)[0] == m && ([m] + rest)[1..] == rest;
  }

  lemma {:induction false} FirstFound(c: Config, s: Text, i: nat, count: nat) returns (m: Entry)
    requires i <= |s| && !MemberTurn(c, s, i, count).Broken?
    ensures var t := MemberTurn(c, s, i, count); var p := i + |EntryText(m)|;
            && IsEntry(c, m, t.Closed?) && At(s, i, EntryText(m))
            && (if t.Closed? then t.pos == p + 1 && Peek(s, p) == 0x7D else t.pos == p)
    decreases |s| - i, 3
  {
    hide MemberTurn, IsDoc, TextOf, At, EntryText, Count, IsEntry, ReadMember, SkipSpace, QuotedText;
    hide ReadKeyOrString, S.AllUnits, ReadValue;
    MemberTurnOk(c, s, i, count);
    MemberParts(c, s, i);
    var us := QuotedFound(s, i, true);
    var b := SkipSpace(s, i + |QuotedText(us)|);
    var d := SkipSpace(s, b + 1);
    var value := DocFound(c, s, d);
    m := EntryFound(c, s, i, count, us, value, b, d);
  }

  lemma {:induction false} EntriesFound(c: Config, s: Text, i: nat, count: nat) returns (ms: seq<Entry>)
    requires i <= |s| && ReadMembers(c, s, i, count).ok
    ensures ms != [] && AreEntries(c, ms) && At(s, i, EntriesText(ms) + [0x7D])
    ensures ReadMembers(c, s, i, count).pos == i + |EntriesText(ms)| + 1
    decreases |s| - i, 4
  {
    hide ReadMembers, MemberTurn, At, EntryText, Count, IsEntry;
    MembersTurn(c, s, i, count);
    var m := FirstFound(c, s, i, count);
    var p := i + |EntryText(m)|;
    if MemberTurn(c, s, i, count).Closed? {
      ms := [m];
      SingleEntry(c, m);
      OneAt(s, p, 0x7D);
      AtJoin(s, i, EntryText(m), [0x7D]);
    } else {
      var rest := EntriesFound(c, s, p, Count(count));
      ms := [m] + rest;
      MoreEntriesText(c, m, rest);
      JoinedBefore(s, i, EntryText(m), EntriesText(rest), 0x7D);
    }
  }

  lemma {:induction false} ObjectFound(c: Config, s: Text, i: nat) returns (d: Doc)
    requires i < |s| && Peek(s, i) == LBRACE && ReadObject(c, s, i).ok
    ensures IsDoc(c, d) && d.ObjectDoc? && At(s, i, TextOf(d)) && ReadObject(c, s, i).pos == i + |TextOf(d)|
    decreases |s| - i, 0
  {
    hide ReadMembers, At, AreEntries, EntriesText, SkipSpace, IsWhite;
    var j := SkipSpace(s, i + 1);
    WhiteFound(s, i + 1);
    Slice(s, i + 1, j);
    var lead := s[i + 1..j];
    OneAt(s, i, 0x7B);
    var ms: seq<Entry> := [];
    if Peek(s, j) == RBRACE {
      NoEntries(c);
      OneAt(s, j, 0x7D);
      assert [] + [0x7D] == [0x7D];
    } else {
      ms := EntriesFound(c, s, j, 0);
    }
    d := ObjectDoc(lead, ms);
    AtJoin(s, i + 1, lead, EntriesText(ms) + [0x7D]);
    AtJoin(s, i, [0x7B], lead + (EntriesText(ms) + [0x7D]));
  }

  /** What is read as a value is a JSON text. */
  lemma {:induction false} DocFound(c: Config, s: Text, i: nat) returns (d: Doc)
    requires i <= |s| && ReadValue(c, s, i).ok
    ensures IsDoc(c, d) && At(s, i, TextOf(d)) && ReadValue(c, s, i).pos == i + |TextOf(d)|
    ensures Ends(d, Peek(s, i + |TextOf(d)|))
    decreases |s| - i, 1
  {
    hide IsDoc, TextOf, At, ReadArray, ReadObject, ReadScalar;
    if Peek(s, i) == LBRACE {
      d := ObjectFound(c, s, i);
    } else if Peek(s, i) == LBRACKET {
      d := ArrayFound(c, s, i);
    } else {
      d := ScalarFound(c, s, i);
    }
  }

  /* ---- the theorem ---- */

  /** The value `d` stands at `i`, ends at `j`, and stands for these events. */
  ghost predicate Reads(c: Config, s: Text, i: nat, j: nat, evs: seq<Event>, d: Doc) {
    IsDoc(c, d) && At(s, i, TextOf(d)) && j == i + |TextOf(d)| && Ends(d, Peek(s, j)) && evs == EventsOf(c, d)
  }

  /** Exactly the values of the grammar are read, each to its end, and as the events of its syntax tree. */
  lemma ValueExactly(c: Config, s: Text, i: nat, j: nat, evs: seq<Event>)
    requires i <= |s|
    ensures ReadValue(c, s, i) == Parsed(true, j, evs) <==> exists d :: Reads(c, s, i, j, evs, d)
  {
    hide ReadValue, IsDoc, TextOf, EventsOf, At, Ends;
    if ReadValue(c, s, i) == Parsed(true, j, evs) {
      var d := DocFound(c, s, i);
      DocRead(c, s, i, d);
      assert Reads(c, s, i, j, evs, d);
    }
    if d :| Reads(c, s, i, j, evs, d) {
      DocRead(c, s, i, d);
    }
  }

  /** A document: white space, a value from `i` to `k`, and unless the parser stops behind it, white space up
      to the end of the text, which is its first NUL. */
  ghost predicate IsText(c: Config, s: Text, i: nat, k: nat, j: nat, evs: seq<Event>, d: Doc) {
    && i <= k <= |s| && IsWhite(s[..i]) && Reads(c, s, i, k, evs, d)
    && if c.stopWhenDone then j == k else k <= j <= |s| && IsWhite(s[k..j]) && Peek(s, j) == NUL
  }

  lemma WhiteEnds(s: Text, k: nat, j: nat)
    requires k <= j <= |s| && IsWhite(s[k..j]) && !IsSpace(Peek(s, j))
    ensures SkipSpace(s, k) == j
  {
    Slice(s, k, j);
    SkipWhite(s, k, s[k..j]);
  }

  /** Both parsers accept exactly the documents of the grammar, stop where they end, and send the events of
      their syntax trees. */
  lemma DocumentExactly(c: Config, s: Text, j: nat, evs: seq<Event>)
    ensures ReadDocument(c, s) == Parsed(true, j, evs) <==> exists i, k, d :: IsText(c, s, i, k, j, evs, d)
    ensures JsonMachine.RunDocument(c, s) == Parsed(true, j, evs)
            <==> exists i, k, d :: IsText(c, s, i, k, j, evs, d)
  {
    hide ReadDocument, JsonMachine.RunDocument, IsText;
    JsonMachine.ParsersAgree(c, s);
    if ReadDocument(c, s) == Parsed(true, j, evs) {
      var i, k, d := DocumentFound(c, s, j, evs);
    }
    if i, k, d :| IsText(c, s, i, k, j, evs, d) {
      DocumentRead(c, s, i, k, j, evs, d);
    }
  }

  lemma DocumentFound(c: Config, s: Text, j: nat, evs: seq<Event>) returns (i: nat, k: nat, d: Doc)
    requires ReadDocument(c, s) == Parsed(true, j, evs)
    ensures IsText(c, s, i, k, j, evs, d)
  {
    hide ReadValue, Reads, IsWhite;
    i := SkipSpace(s, 0);
    WhiteFound(s, 0);
    assert s[0..i] == s[..i];
    k := ReadValue(c, s, i).pos;
    ValueExactly(c, s, i, k, evs);
    d :| Reads(c, s, i, k, evs, d);
    if !c.stopWhenDone {
      WhiteFound(s, k);
    }
  }

  lemma DocumentRead(c: Config, s: Text, i: nat, k: nat, j: nat, evs: seq<Event>, d: Doc)
    requires IsText(c, s, i, k, j, evs, d)
    ensures ReadDocument(c, s) == Parsed(true, j, evs)
  {
    hide ReadValue, Reads, IsWhite, SkipSpace;
    ReadsSomething(c, s, i, k, evs, d);
    assert s[0..i] == s[..i];
    WhiteEnds(s, 0, i);
    ValueExactly(c, s, i, k, evs);
    if !c.stopWhenDone {
      WhiteEnds(s, k, j);
    }
  }

  lemma ReadsSomething(c: Config, s: Text, i: nat, k: nat, evs: seq<Event>, d: Doc)
    requires Reads(c, s, i, k, evs, d)
    ensures Begins(Peek(s, i))
  {
    DocBegins(c, d);
    BeginsAt(c, s, i, d);
    hide IsDoc, TextOf, EventsOf, At;
  }
}
