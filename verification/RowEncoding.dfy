/** The rows of the state recorder are UTF-8 when the texts in them are: the writer escapes control
    characters and copies all other bytes (3rdparty/rapidjson/writer.h, WriteString). */
module RowEncoding {
  import opened Bytes
  import opened JsonEvents
  import opened JsonWriter
  import opened StateRecord
  import JsonString
  import JsonNumber
  import JsonRoundTrip
  import RecordQueue
  import StateRows
  import Utf8

  predicate AllAscii(t: Text) {
    forall k :: 0 <= k < |t| ==> t[k] < 0x80
  }

  lemma WellFormedCons(u: Text, s: Text)
    requires Utf8.Utf8Char(u) && Utf8.WellFormed(s)
    ensures Utf8.WellFormed(u + s)
  {
    assert (u + s)[..|u|] == u && (u + s)[|u|..] == s;
  }

  lemma FirstChar(s: Text) returns (u: Text, rest: Text)
    requires Utf8.WellFormed(s) && s != []
    ensures s == u + rest && |u| > 0 && Utf8.Utf8Char(u) && Utf8.WellFormed(rest)
  {
    var n :| 1 <= n <= |s| && Utf8.Utf8Char(s[..n]) && Utf8.WellFormed(s[n..]);
    u, rest := s[..n], s[n..];
  }

  lemma {:induction false} WellFormedConcat(a: Text, b: Text)
    requires Utf8.WellFormed(a) && Utf8.WellFormed(b)
    ensures Utf8.WellFormed(a + b)
    decreases |a|
  {
    hide Utf8.WellFormed, Utf8.Utf8Char;
    if a == [] {
      assert a + b == b;
    } else {
      var u, rest := FirstChar(a);
      WellFormedConcat(rest, b);
      WellFormedCons(u, rest + b);
      Associative(u, rest, b);
    }
  }

  lemma {:induction false} AsciiWellFormed(t: Text)
    requires AllAscii(t)
    ensures Utf8.WellFormed(t)
    decreases |t|
  {
    if t != [] {
      AsciiWellFormed(t[1..]);
      WellFormedCons([t[0]], t[1..]);
      assert t == [t[0]] + t[1..];
    }
  }

  lemma {:induction false} EscapeConcat(a: Text, b: Text)
    ensures JsonString.Escape(a + b) == JsonString.Escape(a) + JsonString.Escape(b)
    decreases |a|
  {
    hide JsonString.EscapeByte;
    if a == [] {
      assert a + b == b;
    } else {
      EscapeConcat(a[1..], b);
      assert (a + b)[1..] == a[1..] + b;
      Associative(JsonString.EscapeByte(a[0]), JsonString.Escape(a[1..]), JsonString.Escape(b));
    }
  }

  /** Bytes above ASCII are copied. */
  lemma {:induction false} EscapeHigh(u: Text)
    requires forall k :: 0 <= k < |u| ==> u[k] >= 0x80
    ensures JsonString.Escape(u) == u
    decreases |u|
  {
    if u != [] {
      EscapeHigh(u[1..]);
      assert u == [u[0]] + u[1..];
    }
  }

  lemma EscapeLow(c: Byte)
    requires c < 0x80
    ensures AllAscii(JsonString.EscapeByte(c))
  {
  }

  lemma OneByte(c: Byte)
    ensures JsonString.Escape([c]) == JsonString.EscapeByte(c)
  {
    assert [c][1..] == [];
    assert JsonString.EscapeByte(c) + [] == JsonString.EscapeByte(c);
  }

  lemma EscapeChar(u: Text)
    requires Utf8.Utf8Char(u)
    ensures Utf8.WellFormed(JsonString.Escape(u))
  {
    if |u| == 1 {
      assert u == [u[0]];
      OneByte(u[0]);
      EscapeLow(u[0]);
      AsciiWellFormed(JsonString.EscapeByte(u[0]));
    } else {
      EscapeHigh(u);
      assert Utf8.WellFormed([]);
      WellFormedCons(u, []);
      assert u + [] == u;
    }
    hide Utf8.WellFormed, JsonString.Escape, JsonString.EscapeByte;
  }

  lemma {:induction false} EscapeWellFormed(s: Text)
    requires Utf8.WellFormed(s)
    ensures Utf8.WellFormed(JsonString.Escape(s))
    decreases |s|
  {
    hide Utf8.WellFormed, Utf8.Utf8Char;
    if s != [] {
      var u, rest := FirstChar(s);
      EscapeWellFormed(rest);
      EscapeChar(u);
      EscapeConcat(u, rest);
      WellFormedConcat(JsonString.Escape(u), JsonString.Escape(rest));
    }
  }

  /* ---- events ---- */

  ghost predicate Encoded(e: Event) {
    match e
    case String(s) => Utf8.WellFormed(s)
    case Key(s) => Utf8.WellFormed(s)
    case _ => true
  }

  lemma QuotedWellFormed(s: Text)
    requires Utf8.WellFormed(s)
    ensures Utf8.WellFormed(JsonString.Quoted(s))
  {
    EscapeWellFormed(s);
    AsciiWellFormed([QUOTE]);
    hide Utf8.WellFormed, JsonString.Escape;
    WellFormedConcat([QUOTE], JsonString.Escape(s));
    WellFormedConcat([QUOTE] + JsonString.Escape(s), [QUOTE]);
  }

  lemma {:induction false} DecimalIsAscii(n: nat)
    ensures AllAscii(JsonNumber.Decimal(n))
    decreases n
  {
    if n >= 10 {
      DecimalIsAscii(n / 10);
    }
  }

  lemma IntIsAscii(n: int)
    ensures AllAscii(JsonNumber.DecimalInt(n))
  {
    DecimalIsAscii(if n < 0 then -n else n);
    hide JsonNumber.Decimal;
  }

  lemma PlainTokenIsAscii(e: Event)
    requires Printable(e) && !e.String? && !e.Key?
    ensures AllAscii(Token(e))
  {
    if IsNumber(e) {
      IntIsAscii(JsonRoundTrip.Number(e));
    }
    hide JsonNumber.DecimalInt;
  }

  lemma TokenWellFormed(e: Event)
    requires Printable(e) && Encoded(e)
    ensures Utf8.WellFormed(Token(e))
  {
    hide Utf8.WellFormed;
    if e.String? {
      QuotedWellFormed(e.str);
    } else if e.Key? {
      QuotedWellFormed(e.key);
    } else {
      PlainTokenIsAscii(e);
      AsciiWellFormed(Token(e));
    }
  }

  lemma EventWellFormed(w: Writing, e: Event)
    requires Accepts(w, e) && Encoded(e)
    ensures Utf8.WellFormed(EventText(Compact, w, e))
  {
    TokenWellFormed(e);
    hide Token, Accepts, Utf8.WellFormed, Encoded;
    AsciiWellFormed(Separator(w));
    assert Separator(w) + [] == Separator(w) && [] + Token(e) == Token(e);
    WellFormedConcat(Separator(w), Token(e));
  }

  ghost predicate AllEncoded(tr: seq<Event>) {
    forall k :: 0 <= k < |tr| ==> Encoded(tr[k])
  }

  /** Compact JSON is UTF-8 if its strings are. */
  lemma {:induction false} WrittenWellFormed(w: Writing, tr: seq<Event>)
    requires Allowed(w, tr) && AllEncoded(tr)
    ensures Utf8.WellFormed(Written(Compact, w, tr))
    decreases |tr|
  {
    hide Accepts, Next, EventText, Encoded, Utf8.WellFormed;
    if tr == [] {
      AsciiWellFormed([]);
    } else {
      EventWellFormed(w, tr[0]);
      WrittenWellFormed(Next(w, tr[0]), tr[1..]);
      WellFormedConcat(EventText(Compact, w, tr[0]), Written(Compact, Next(w, tr[0]), tr[1..]));
    }
  }

  /* ---- rows ---- */

  /** The texts of the row that are not fixed names. */
  ghost predicate TextsEncoded(r: StateRow) {
    && Utf8.WellFormed(r.session) && Utf8.WellFormed(r.role) && Utf8.WellFormed(r.ip) && Utf8.WellFormed(r.detail)
    && Utf8.WellFormed(r.scheduling)
    && (r.status[8] == Valid ==> Utf8.WellFormed(r.fields.serial))
  }

  ghost predicate ItemEncoded(i: Item) {
    match i
    case One(e) => Encoded(e)
    case Many(_) => true
    case Table(es) => forall e <- es :: Utf8.WellFormed(e.name) && ItemEncoded(e.item)
  }

  ghost predicate EntryEncoded(e: Entry) {
    Utf8.WellFormed(e.name) && ItemEncoded(e.item)
  }

  ghost predicate EntriesEncoded(es: seq<Entry>) {
    forall k :: 0 <= k < |es| ==> EntryEncoded(es[k])
  }

  lemma {:induction false} NumbersEncoded(ns: seq<Uint32>)
    ensures AllEncoded(NumberCalls(ns))
    decreases |ns|
  {
    if ns != [] {
      NumbersEncoded(ns[1..]);
    }
  }

  lemma {:induction false} ItemCallsEncoded(i: Item)
    requires ItemEncoded(i)
    ensures AllEncoded(ItemCalls(i))
    decreases i, 0
  {
    hide Utf8.WellFormed;
    match i
    case One(e) =>
    case Many(ns) => NumbersEncoded(ns);
    case Table(es) => EntryCallsEncoded(es);
  }

  lemma {:induction false} EntryCallsEncoded(es: seq<Entry>)
    requires forall e <- es :: Utf8.WellFormed(e.name) && ItemEncoded(e.item)
    ensures AllEncoded(EntryCalls(es))
    decreases es, 1
  {
    hide Utf8.WellFormed;
    if es != [] {
      assert es[0] in es;
      ItemCallsEncoded(es[0].item);
      EntryCallsEncoded(es[1..]);
    }
  }

  lemma NameEncoded(name: string)
    ensures Utf8.WellFormed(Ascii(name))
  {
    AsciiWellFormed(Ascii(name));
  }

  lemma NamesEncoded()
    ensures forall name: string :: Utf8.WellFormed(Ascii(name))
  {
    hide Ascii, Utf8.WellFormed;
    forall name: string
      ensures Utf8.WellFormed(Ascii(name))
    {
      NameEncoded(name);
    }
  }

  lemma NamedEncoded()
    ensures forall name: string, item: Item {:trigger Named(name, item)} ::
              ItemEncoded(item) ==> EntryEncoded(Named(name, item))
  {
    NamesEncoded();
    hide Ascii, Utf8.WellFormed, ItemEncoded;
  }

  lemma {:induction false} TableEncoded(es: seq<Entry>)
    requires EntriesEncoded(es)
    ensures ItemEncoded(Table(es))
  {
    hide Utf8.WellFormed;
  }

  lemma IdentityEncoded(r: StateRow)
    ensures EntriesEncoded(Identity(r))
  {
    NamesEncoded();
    NamedEncoded();
    hide Ascii, Utf8.WellFormed, Named, EntryEncoded;
  }

  lemma KindsEncoded(source: RecordQueue.Source, result: RecordQueue.Result)
    ensures Utf8.WellFormed(SourceName(source)) && Utf8.WellFormed(ResultName(result))
  {
    NamesEncoded();
    hide Ascii, Utf8.WellFormed;
  }

  lemma OriginEncoded(r: StateRow)
    requires TextsEncoded(r)
    ensures EntriesEncoded(Origin(r))
  {
    KindsEncoded(r.source, r.result);
    NamedEncoded();
    hide Ascii, Utf8.WellFormed, Named, EntryEncoded, SourceName, ResultName;
  }

  lemma TotalsEncoded(r: StateRow)
    requires TextsEncoded(r)
    ensures EntriesEncoded(Totals(r))
  {
    NamesEncoded();
    NamedEncoded();
    hide Ascii, Utf8.WellFormed, Named, EntryEncoded;
  }

  lemma FieldEncoded(r: StateRow, i: nat)
    requires TextsEncoded(r) && i < FIELD_COUNT
    ensures ItemEncoded(FieldItem(r, i))
    ensures Utf8.WellFormed(StatusName(r.status[i])) && Utf8.WellFormed(FieldSource(r, i))
  {
    NamesEncoded();
    hide Ascii, Utf8.WellFormed;
  }

  lemma FieldTablesEncoded(r: StateRow)
    requires TextsEncoded(r)
    ensures EntriesEncoded(FieldValues(r)) && EntriesEncoded(FieldStatuses(r)) && EntriesEncoded(FieldSources(r))
  {
    NamedEncoded();
    hide Named, EntryEncoded, Ascii, Utf8.WellFormed, FieldItem, StatusName, FieldSource, TextsEncoded;
    forall i: nat | i < FIELD_COUNT
      ensures ItemEncoded(FieldItem(r, i))
      ensures Utf8.WellFormed(StatusName(r.status[i])) && Utf8.WellFormed(FieldSource(r, i))
    {
      FieldEncoded(r, i);
    }
  }

  lemma TablesEncoded(r: StateRow)
    requires TextsEncoded(r)
    ensures EntriesEncoded(FieldTables(r))
  {
    FieldTablesEncoded(r);
    TableEncoded(FieldValues(r));
    TableEncoded(FieldStatuses(r));
    TableEncoded(FieldSources(r));
    NamedEncoded();
    hide Named, EntryEncoded, Ascii, Utf8.WellFormed, ItemEncoded, TextsEncoded;
    hide FieldValues, FieldStatuses, FieldSources;
  }

  lemma ContentEncoded(r: StateRow)
    requires TextsEncoded(r)
    ensures ItemEncoded(Content(r))
  {
    IdentityEncoded(r);
    OriginEncoded(r);
    TablesEncoded(r);
    TotalsEncoded(r);
    hide Identity, Origin, FieldTables, Totals, ItemEncoded, EntryEncoded;
    TableEncoded(Identity(r) + Origin(r) + FieldTables(r) + Totals(r));
  }

  lemma RowCallsEncoded(r: StateRow)
    requires TextsEncoded(r)
    ensures AllEncoded(Calls(r))
  {
    ContentEncoded(r);
    ItemCallsEncoded(Content(r));
    hide Content, ItemCalls, AllEncoded, ItemEncoded;
  }

  /** A row whose texts are UTF-8 is UTF-8 as a whole. */
  lemma RowIsUtf8(r: StateRow)
    requires TextsEncoded(r)
    ensures Utf8.WellFormed(StateRows.RowOf(r))
  {
    RowCallsEncoded(r);
    CallsFormTheValue(r);
    AsciiWellFormed([LF]);
    hide Calls, Written, Utf8.WellFormed, TextsEncoded, AllEncoded, Value;
    WrittenWellFormed(FRESH, Calls(r));
    WellFormedConcat(Written(Compact, FRESH, Calls(r)), [LF]);
  }
}
