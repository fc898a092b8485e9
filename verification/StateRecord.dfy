/** One row of the state recorder, the calls that Serialize makes for it, and the JSON value it stands
    for (src/lidar_state_recorder.h, Record and Snapshot; src/lidar_state_recorder.cpp, Serialize). */
module StateRecord {
  import opened Bytes
  import opened JsonEvents
  import opened JsonWriter
  import opened JsonRoundTrip
  import opened JsonTree
  import opened Wrappers
  import JsonNumber
  import Q = RecordQueue

  type Uint8 = x: int | 0 <= x < 0x100
  type Uint32 = x: int | 0 <= x < 0x1_0000_0000
  type Uint64 = x: int | 0 <= x < 0x1_0000_0000_0000_0000
  type Int32 = x: int | -0x8000_0000 <= x < 0x8000_0000
  type Int64 = x: int | -0x8000_0000_0000_0000 <= x < 0x8000_0000_0000_0000

  datatype Status = Missing | Valid | Invalid | NotAvailable | NoResponseLength

  const FIELD_COUNT := 14

  type Statuses = s: seq<Status> | |s| == FIELD_COUNT witness seq(FIELD_COUNT, _ => Missing)
  type Alarms = s: seq<Uint32> | |s| == 8 witness [0, 0, 0, 0, 0, 0, 0, 0]
  type Version = s: seq<Uint8> | |s| == 4 witness [0, 0, 0, 0]

  /** The texts are those in front of a terminating NUL. */
  datatype StateRow = StateRow(
    wall: Int64, steady: Int64, seqNo: Uint64, pid: Int32, session: Text, role: Text, handle: Uint32, ip: Text,
    source: Q.Source, result: Q.Result, sdkStatus: Option<Int32>, retCode: Option<Int32>, detail: Text,
    status: Statuses, fields: Fields,
    dropped: Uint64, errors: Uint64, suppressed: Uint64, scheduling: Text)

  datatype Fields = Fields(
    hms: Alarms, workState: Uint8, syncType: Uint8, localTime: Uint64, lastSync: Uint64, timeOffset: Int64,
    coreTemp: Int32, powerupCount: Uint32, serial: Text,
    appVersion: Version, loaderVersion: Version, hardwareVersion: Version)

  function Ascii(s: string): (t: Text)
    ensures |t| == |s| && forall k :: 0 <= k < |t| ==> t[k] < 0x80
  {
    seq(|s|, k requires 0 <= k < |s| => if s[k] < 128 as char then s[k] as int else 0x3F)
  }

  /* ---- Serialize ---- */

  /** What the row says under a name: one value, an array of numbers, or an object. */
  datatype Item = One(e: Event) | Many(numbers: seq<Uint32>) | Table(entries: seq<Entry>)

  datatype Entry = Entry(name: Text, item: Item)

  const FIELD_NAMES: seq<string> := [
    "hms_code", "cur_work_state", "time_sync_type", "local_time_now", "last_sync_time", "time_offset", "core_temp",
    "powerup_cnt", "sn", "version_app", "version_loader", "version_hardware", "voltage", "uptime"]

  function StatusName(s: Status): Text {
    Ascii(match s
          case Missing => "missing"
          case Valid => "valid"
          case Invalid => "invalid"
          case NotAvailable => "not_available"
          case NoResponseLength => "no_response_length")
  }

  function SourceName(s: Q.Source): Text {
    Ascii(match s
          case Startup => "startup"
          case StatePush => "state_push"
          case Query => "query"
          case Shutdown => "shutdown"
          case Failure => "error")
  }

  function ResultName(r: Q.Result): Text {
    Ascii(match r
          case NotApplicable => "not_applicable"
          case Success => "success"
          case SubmitFailed => "submit_failed"
          case Timeout => "timeout"
          case SdkError => "sdk_error"
          case InvalidResponse => "invalid_response"
          case Pending => "pending")
  }

  function OrNull(n: Option<Int32>): Item {
    if n.Some? then One(Int(n.value)) else One(Null)
  }

  /** The switch over the fields. */
  function FieldItem(r: StateRow, i: nat): Item
    requires i < FIELD_COUNT
  {
    var f := r.fields;
    if r.status[i] != Valid then One(Null)
    else match i
      case 0 => Many(f.hms)
      case 1 => One(Uint(f.workState))
      case 2 => One(Uint(f.syncType))
      case 3 => One(Uint64(f.localTime))
      case 4 => One(Uint64(f.lastSync))
      case 5 => One(Int64(f.timeOffset))
      case 6 => One(Int(f.coreTemp))
      case 7 => One(Uint(f.powerupCount))
      case 8 => One(String(f.serial))
      case 9 => Many(f.appVersion)
      case 10 => Many(f.loaderVersion)
      case 11 => Many(f.hardwareVersion)
      case _ => One(Null)
  }

  function FieldSource(r: StateRow, i: nat): Text
    requires i < FIELD_COUNT
  {
    if r.status[i] in {Valid, Invalid} then SourceName(r.source) else Ascii("unavailable")
  }

  function Named(name: string, item: Item): Entry {
    Entry(Ascii(name), item)
  }

  /** Which row it is, and whose. */
  function Identity(r: StateRow): seq<Entry> {
    [Named("schema", One(Int(1))), Named("kind", One(String(Ascii("livox_raw_state")))),
     Named("wall_ns", One(Int64(r.wall))), Named("steady_ns", One(Int64(r.steady))),
     Named("seq", One(Uint64(r.seqNo))), Named("pid", One(Int(r.pid)))]
  }

  function Origin(r: StateRow): seq<Entry> {
    [Named("session", One(String(r.session))), Named("role", One(String(r.role))),
     Named("handle", One(Uint(r.handle))), Named("ip", One(String(r.ip))),
     Named("source", One(String(SourceName(r.source)))), Named("query_result", One(String(ResultName(r.result)))),
     Named("sdk_status", OrNull(r.sdkStatus)), Named("ret_code", OrNull(r.retCode)),
     Named("detail", One(String(r.detail)))]
  }

  function FieldValues(r: StateRow): seq<Entry> {
    seq(FIELD_COUNT, i requires 0 <= i < FIELD_COUNT => Named(FIELD_NAMES[i], FieldItem(r, i)))
  }

  function FieldStatuses(r: StateRow): seq<Entry> {
    seq(FIELD_COUNT, i requires 0 <= i < FIELD_COUNT => Named(FIELD_NAMES[i], One(String(StatusName(r.status[i])))))
  }

  function FieldSources(r: StateRow): seq<Entry> {
    seq(FIELD_COUNT, i requires 0 <= i < FIELD_COUNT => Named(FIELD_NAMES[i], One(String(FieldSource(r, i)))))
  }

  function FieldTables(r: StateRow): seq<Entry> {
    [Named("fields", Table(FieldValues(r))), Named("field_status", Table(FieldStatuses(r))),
     Named("field_sources", Table(FieldSources(r)))]
  }

  function Totals(r: StateRow): seq<Entry> {
    [Named("core_temp_unit", One(String(Ascii("sdk_raw_unit_unspecified")))),
     Named("dropped_total", One(Uint64(r.dropped))), Named("write_errors_total", One(Uint64(r.errors))),
     Named("suppressed_push_total", One(Uint64(r.suppressed))), Named("writer_scheduling", One(String(r.scheduling)))]
  }

  function Content(r: StateRow): Item {
    Table(Identity(r) + Origin(r) + FieldTables(r) + Totals(r))
  }

  /** The calls for an item; StartArray, EndArray and their like are called without a count. */
  function ItemCalls(i: Item): seq<Event>
    decreases i, 0
  {
    match i
    case One(e) => [e]
    case Many(ns) => [StartArray] + NumberCalls(ns) + [EndArray(0)]
    case Table(es) => [StartObject] + EntryCalls(es) + [EndObject(0)]
  }

  function NumberCalls(ns: seq<Uint32>): seq<Event> {
    if ns == [] then [] else [Uint(ns[0])] + NumberCalls(ns[1..])
  }

  function EntryCalls(es: seq<Entry>): seq<Event>
    decreases es, 1
  {
    if es == [] then []
    else
      assert es[0] in es;
      [Key(es[0].name)] + ItemCalls(es[0].item) + EntryCalls(es[1..])
  }

  /** The calls that Serialize makes. */
  function Calls(r: StateRow): seq<Event> {
    ItemCalls(Content(r))
  }

  /* ---- the value a row stands for ---- */

  function ScalarTree(e: Event): Json {
    match e
    case Bool(b) => BoolValue(b)
    case Int(n) => NumberValue(n)
    case Uint(n) => NumberValue(n)
    case Int64(n) => NumberValue(n)
    case Uint64(n) => NumberValue(n)
    case String(s) => StringValue(s)
    case _ => NullValue
  }

  function ItemTree(i: Item): Json
    decreases i, 0
  {
    match i
    case One(e) => ScalarTree(e)
    case Many(ns) => ArrayValue(NumberTrees(ns))
    case Table(es) => ObjectValue(EntryTrees(es))
  }

  function NumberTrees(ns: seq<Uint32>): (ts: seq<Json>)
    ensures |ts| == |ns| && forall t <- ts :: InRange(t)
  {
    if ns == [] then [] else [NumberValue(ns[0])] + NumberTrees(ns[1..])
  }

  function EntryTrees(es: seq<Entry>): (ms: seq<Member>)
    ensures |ms| == |es|
    decreases es, 1
  {
    if es == [] then []
    else
      assert es[0] in es;
      [Member(es[0].name, ItemTree(es[0].item))] + EntryTrees(es[1..])
  }

  /** The row as a JSON value. */
  function Value(r: StateRow): Json {
    ItemTree(Content(r))
  }

  predicate Writable(i: Item) {
    match i
    case One(e) => IsScalar(e) && Printable(e)
    case Many(ns) => |ns| < 0x1_0000_0000
    case Table(es) => |es| < 0x1_0000_0000 && forall e <- es :: Writable(e.item)
  }

  /** Events that look alike in the text: the same number under any type, brackets whatever the count. */
  predicate Alike(a: Event, b: Event) {
    && Printable(a) && Printable(b)
    && match a
       case EndObject(_) => b.EndObject?
       case EndArray(_) => b.EndArray?
       case _ => a == b || (IsNumber(a) && IsNumber(b) && Number(a) == Number(b))
  }

  predicate IsNumber(e: Event) {
    e.Int? || e.Uint? || e.Int64? || e.Uint64?
  }

  predicate AllAlike(a: seq<Event>, b: seq<Event>) {
    |a| == |b| && forall k :: 0 <= k < |a| ==> Alike(a[k], b[k])
  }

  lemma {:induction false} AlikeConcat(a: seq<Event>, b: seq<Event>, c: seq<Event>, d: seq<Event>)
    requires AllAlike(a, b) && AllAlike(c, d)
    ensures AllAlike(a + c, b + d)
  {
    hide Alike;
  }

  lemma {:induction false} AlikeBracketed(open: Event, a: seq<Event>, b: seq<Event>, close: Event, end: Event)
    requires AllAlike(a, b) && Alike(open, open) && Alike(close, end)
    ensures AllAlike([open] + a + [close], [open] + b + [end])
  {
    hide Alike;
    assert AllAlike([open], [open]) && AllAlike([close], [end]);
    AlikeConcat([open], [open], a, b);
    AlikeConcat([open] + a, [open] + b, [close], [end]);
  }

  lemma ScalarAlike(e: Event)
    requires IsScalar(e) && Printable(e)
    ensures InRange(ScalarTree(e)) && AllAlike([e], Events(ScalarTree(e)))
  {
    if IsNumber(e) {
      CanonicalAlike(e);
    }
  }

  lemma CanonicalAlike(e: Event)
    requires IsNumber(e) && Printable(e)
    ensures Alike(e, JsonNumber.CanonicalInt(Number(e)))
  {
  }

  lemma {:induction false} NumbersAlike(ns: seq<Uint32>)
    ensures AllAlike(NumberCalls(ns), ElementEvents(NumberTrees(ns)))
    decreases |ns|
  {
    if ns != [] {
      NumbersAlike(ns[1..]);
      ScalarAlike(Uint(ns[0]));
      hide AllAlike;
      var ts := NumberTrees(ns);
      assert ts[1..] == NumberTrees(ns[1..]);
      AlikeConcat([Uint(ns[0])], Events(ts[0]), NumberCalls(ns[1..]), ElementEvents(ts[1..]));
    }
  }

  lemma {:induction false} EntriesAlike(es: seq<Entry>)
    requires forall e <- es :: Writable(e.item)
    ensures forall m <- EntryTrees(es) :: InRange(m.value)
    ensures AllAlike(EntryCalls(es), MemberEvents(EntryTrees(es)))
    decreases es, 1
  {
    if es != [] {
      var e := es[0];
      assert e in es;
      ItemAlike(e.item);
      EntriesAlike(es[1..]);
      hide AllAlike;
      var ms := EntryTrees(es);
      assert ms == [Member(e.name, ItemTree(e.item))] + EntryTrees(es[1..]);
      assert AllAlike([Key(e.name)], [Key(e.name)]) by { hide *; OneAlike(Key(e.name)); }
      AlikeConcat([Key(e.name)], [Key(e.name)], ItemCalls(e.item), Events(ItemTree(e.item)));
      AlikeConcat([Key(e.name)] + ItemCalls(e.item), [Key(e.name)] + Events(ItemTree(e.item)),
                  EntryCalls(es[1..]), MemberEvents(ms[1..]));
    }
  }

  lemma OneAlike(e: Event)
    requires Printable(e)
    ensures AllAlike([e], [e])
  {
  }

  lemma {:induction false} ManyAlike(ns: seq<Uint32>)
    requires |ns| < 0x1_0000_0000
    ensures InRange(ItemTree(Many(ns))) && AllAlike(ItemCalls(Many(ns)), Events(ItemTree(Many(ns))))
  {
    NumbersAlike(ns);
    hide AllAlike;
    AlikeBracketed(StartArray, NumberCalls(ns), ElementEvents(NumberTrees(ns)), EndArray(0), EndArray(|ns|));
  }

  lemma {:induction false} TableAlike(es: seq<Entry>)
    requires |es| < 0x1_0000_0000 && forall m <- EntryTrees(es) :: InRange(m.value)
    requires AllAlike(EntryCalls(es), MemberEvents(EntryTrees(es)))
    ensures InRange(ItemTree(Table(es))) && AllAlike(ItemCalls(Table(es)), Events(ItemTree(Table(es))))
  {
    hide AllAlike;
    AlikeBracketed(StartObject, EntryCalls(es), MemberEvents(EntryTrees(es)), EndObject(0), EndObject(|es|));
  }

  /** The calls for an item look like the events of its value. */
  lemma {:induction false} ItemAlike(i: Item)
    requires Writable(i)
    ensures InRange(ItemTree(i)) && AllAlike(ItemCalls(i), Events(ItemTree(i)))
    decreases i, 0
  {
    hide AllAlike;
    match i
    case One(e) => ScalarAlike(e);
    case Many(ns) => ManyAlike(ns);
    case Table(es) =>
      EntriesAlike(es);
      TableAlike(es);
  }

  /* ---- traces that look alike are written and read alike ---- */

  lemma AlikeAccepted(w: Writing, a: Event, b: Event)
    requires Alike(a, b)
    ensures Accepts(w, a) <==> Accepts(w, b)
    ensures Accepts(w, a) ==> Next(w, a) == Next(w, b)
  {
    hide Started, Popped;
  }

  lemma AlikeTexts(w: Writing, a: Event, b: Event)
    requires Alike(a, b) && Accepts(w, a) && Accepts(w, b)
    ensures ReadAs(w, a) == ReadAs(w, b)
    ensures EventText(Compact, w, a) == EventText(Compact, w, b)
  {
    hide Accepts, Separator, LeadingSpace, ClosingSpace, JsonNumber.DecimalInt, JsonNumber.CanonicalInt;
  }

  lemma {:induction false} AlikeTrace(w: Writing, a: seq<Event>, b: seq<Event>)
    requires AllAlike(a, b)
    ensures Allowed(w, a) <==> Allowed(w, b)
    ensures Allowed(w, a) ==> Final(w, a) == Final(w, b) && ReadAllAs(w, a) == ReadAllAs(w, b)
    ensures Allowed(w, a) ==> Written(Compact, w, a) == Written(Compact, w, b)
    decreases |a|
  {
    hide Alike, Accepts, Next, EventText, ReadAs;
    if a != [] {
      AlikeAccepted(w, a[0], b[0]);
      if Accepts(w, a[0]) {
        AlikeTexts(w, a[0], b[0]);
        AlikeTrace(Next(w, a[0]), a[1..], b[1..]);
      }
    }
  }

  lemma FieldWritable(r: StateRow, i: nat)
    requires i < FIELD_COUNT
    ensures Writable(FieldItem(r, i))
  {
  }

  predicate AllWritable(es: seq<Entry>) {
    forall k :: 0 <= k < |es| ==> Writable(es[k].item)
  }

  lemma IdentityWritable(r: StateRow)
    ensures AllWritable(Identity(r))
  {
    hide Ascii;
  }

  lemma OriginWritable(r: StateRow)
    ensures AllWritable(Origin(r))
  {
    hide Ascii;
  }

  lemma TotalsWritable(r: StateRow)
    ensures AllWritable(Totals(r))
  {
    hide Ascii;
  }

  lemma FieldsWritable(r: StateRow)
    ensures AllWritable(FieldValues(r)) && AllWritable(FieldStatuses(r)) && AllWritable(FieldSources(r))
  {
    hide FieldItem, FieldSource, Ascii;
    forall i: nat | i < FIELD_COUNT
      ensures Writable(FieldItem(r, i))
    {
      FieldWritable(r, i);
    }
  }

  lemma {:induction false} TableWritable(es: seq<Entry>)
    requires AllWritable(es) && |es| < 100
    ensures Writable(Table(es))
  {
  }

  lemma TablesWritable(r: StateRow)
    ensures AllWritable(FieldTables(r))
  {
    FieldsWritable(r);
    hide Ascii, AllWritable;
    TableWritable(FieldValues(r));
    TableWritable(FieldStatuses(r));
    TableWritable(FieldSources(r));
    TablesOf(r);
  }

  lemma TablesOf(r: StateRow)
    requires Writable(Table(FieldValues(r))) && Writable(Table(FieldStatuses(r))) && Writable(Table(FieldSources(r)))
    ensures AllWritable(FieldTables(r))
  {
    hide Writable, FieldValues, FieldStatuses, FieldSources;
  }

  lemma {:induction false} RowWritable(r: StateRow)
    ensures Writable(Content(r))
  {
    IdentityWritable(r);
    OriginWritable(r);
    TablesWritable(r);
    TotalsWritable(r);
    assert |Identity(r)| + |Origin(r)| + |FieldTables(r)| + |Totals(r)| < 100;
    hide Identity, Origin, FieldTables, Totals;
    TableWritable(Identity(r) + Origin(r) + FieldTables(r) + Totals(r));
  }

  /** Whatever the row: Serialize's calls form one JSON value, and a reader of their text gets the
      events of the row's value, with its counts. */
  lemma {:induction false} CallsFormTheValue(r: StateRow)
    ensures InRange(Value(r)) && WellNested(Calls(r)) && ReadAllAs(FRESH, Calls(r)) == Events(Value(r))
    ensures Allowed(FRESH, Events(Value(r)))
    ensures Written(Compact, FRESH, Calls(r)) == Written(Compact, FRESH, Events(Value(r)))
  {
    hide Content;
    RowWritable(r);
    ItemAlike(Content(r));
    AlikeTrace(FRESH, Calls(r), Events(Value(r)));
    TakesTree(FRESH, Value(r));
    hide AllAlike, Calls, Value;
  }
}
