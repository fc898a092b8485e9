/** What the row of a record says, member by member (src/lidar_state_recorder.cpp, Serialize): from the
    JSON value every field of the record can be read back. */
module RowContents {
  import opened Bytes
  import opened JsonEvents
  import opened JsonTree
  import opened StateRecord
  import opened Wrappers
  import Q = RecordQueue

  /* ---- members by name ---- */

  /** The object has exactly one member of this name, and that is `x`. */
  ghost predicate Says(ms: seq<Member>, name: string, x: Json) {
    exists k :: 0 <= k < |ms| && ms[k] == Member(Ascii(name), x)
      && forall j :: 0 <= j < |ms| && j != k ==> ms[j].name != Ascii(name)
  }

  /** The names in a row, and in the objects with one member for every field. */
  const NAMES: seq<string> := [
    "schema", "kind", "wall_ns", "steady_ns", "seq", "pid", "session", "role", "handle", "ip", "source",
    "query_result", "sdk_status", "ret_code", "detail", "fields", "field_status", "field_sources",
    "core_temp_unit", "dropped_total", "write_errors_total", "suppressed_push_total", "writer_scheduling"]

  const FIELDS: seq<string> := [
    "hms_code", "cur_work_state", "time_sync_type", "local_time_now", "last_sync_time", "time_offset",
    "core_temp", "powerup_cnt", "sn", "version_app", "version_loader", "version_hardware", "voltage", "uptime"]

  /** A number that tells the names apart: the length and the first two letters. */
  function Mark(t: Text): nat {
    if |t| < 2 then 0 else |t| * 0x1_0000 + (t[0] as nat) * 0x100 + t[1] as nat
  }

  function NamePlace(t: Text): int {
    var m := Mark(t);
    if m == 0x67363 then 0
    else if m == 0x46B69 then 1
    else if m == 0x77761 then 2
    else if m == 0x97374 then 3
    else if m == 0x37365 then 4
    else if m == 0x37069 then 5
    else if m == 0x77365 then 6
    else if m == 0x4726F then 7
    else if m == 0x66861 then 8
    else if m == 0x26970 then 9
    else if m == 0x6736F then 10
    else if m == 0xC7175 then 11
    else if m == 0xA7364 then 12
    else if m == 0x87265 then 13
    else if m == 0x66465 then 14
    else if m == 0x66669 then 15
    else if m == 0xC6669 then 16
    else if m == 0xD6669 then 17
    else if m == 0xE636F then 18
    else if m == 0xD6472 then 19
    else if m == 0x127772 then 20
    else if m == 0x157375 then 21
    else if m == 0x117772 then 22
    else -1
  }

  function FieldPlace(t: Text): int {
    var m := Mark(t);
    if m == 0x8686D then 0
    else if m == 0xE6375 then 1
    else if m == 0xE7469 then 2
    else if m == 0xE6C6F then 3
    else if m == 0xE6C61 then 4
    else if m == 0xB7469 then 5
    else if m == 0x9636F then 6
    else if m == 0xB706F then 7
    else if m == 0x2736E then 8
    else if m == 0xB7665 then 9
    else if m == 0xE7665 then 10
    else if m == 0x107665 then 11
    else if m == 0x7766F then 12
    else if m == 0x67570 then 13
    else -1
  }

  lemma EarlyMarks(k: nat)
    requires k < 12
    ensures NamePlace(Ascii(NAMES[k])) == k
  {
    assert k in {0, 1, 2, 3, 4, 5, 6, 7, 8, 9, 10, 11};
  }

  lemma LateMarks(k: nat)
    requires 12 <= k < |NAMES|
    ensures NamePlace(Ascii(NAMES[k])) == k
  {
    assert k in {12, 13, 14, 15, 16, 17, 18, 19, 20, 21, 22};
  }

  lemma NameMarks(k: nat)
    requires k < |NAMES|
    ensures NamePlace(Ascii(NAMES[k])) == k
  {
    hide NamePlace, Ascii;
    if k < 12 {
      EarlyMarks(k);
    } else {
      LateMarks(k);
    }
  }

  lemma FieldMarks(k: nat)
    requires k < |FIELDS|
    ensures FieldPlace(Ascii(FIELDS[k])) == k
  {
    assert k in {0, 1, 2, 3, 4, 5, 6, 7, 8, 9, 10, 11, 12, 13};
  }

  predicate Named(ms: seq<Member>, names: seq<string>) {
    |ms| == |names| && forall k :: 0 <= k < |ms| ==> ms[k].name == Ascii(names[k])
  }

  /** In an object with these names each member is the only one of its name. */
  lemma NamesAreUnique(ms: seq<Member>, k: nat)
    requires Named(ms, NAMES) && k < |ms|
    ensures Says(ms, NAMES[k], ms[k].value)
  {
    hide NamePlace, Ascii;
    NameMarks(k);
    forall j | 0 <= j < |ms| && j != k
      ensures ms[j].name != Ascii(NAMES[k])
    {
      NameMarks(j);
    }
    assert ms[k] == Member(Ascii(NAMES[k]), ms[k].value);
  }

  lemma FieldsAreUnique(ms: seq<Member>, k: nat)
    requires Named(ms, FIELDS) && k < |ms|
    ensures Says(ms, FIELDS[k], ms[k].value)
  {
    hide FieldPlace, Ascii;
    FieldMarks(k);
    forall j | 0 <= j < |ms| && j != k
      ensures ms[j].name != Ascii(FIELDS[k])
    {
      FieldMarks(j);
    }
    assert ms[k] == Member(Ascii(FIELDS[k]), ms[k].value);
  }

  lemma {:induction false} EntryAt(es: seq<Entry>, k: nat)
    requires k < |es|
    ensures EntryTrees(es)[k] == Member(es[k].name, ItemTree(es[k].item))
    decreases |es|
  {
    if k > 0 {
      EntryAt(es[1..], k - 1);
    }
  }

  /* ---- the row ---- */

  function Entries(r: StateRow): seq<Entry> {
    Identity(r) + Origin(r) + FieldTables(r) + Totals(r)
  }

  /** The members of the row's value. */
  function Members(r: StateRow): seq<Member> {
    EntryTrees(Entries(r))
  }

  lemma ValueIs(r: StateRow)
    ensures Value(r) == ObjectValue(Members(r))
  {
  }

  lemma EntriesAre(r: StateRow, k: nat)
    requires k < |NAMES|
    ensures |Entries(r)| == |NAMES|
    ensures Entries(r)[k] == if k < 6 then Identity(r)[k] else if k < 15 then Origin(r)[k - 6]
                             else if k < 18 then FieldTables(r)[k - 15] else Totals(r)[k - 18]
  {
    assert |Identity(r)| == 6 && |Origin(r)| == 9 && |FieldTables(r)| == 3 && |Totals(r)| == 5;
    hide Identity, Origin, FieldTables, Totals;
  }

  lemma IdentityNames(r: StateRow, k: nat)
    requires k < 6
    ensures Identity(r)[k].name == Ascii(NAMES[k])
  {
    hide Ascii;
    assert k in {0, 1, 2, 3, 4, 5};
  }

  lemma OriginNames(r: StateRow, k: nat)
    requires k < 9
    ensures Origin(r)[k].name == Ascii(NAMES[k + 6])
  {
    hide Ascii;
    assert k in {0, 1, 2, 3, 4, 5, 6, 7, 8};
  }

  lemma TableNames(r: StateRow, k: nat)
    requires k < 3
    ensures FieldTables(r)[k].name == Ascii(NAMES[k + 15])
  {
    hide Ascii, FieldValues, FieldStatuses, FieldSources;
    assert k in {0, 1, 2};
  }

  lemma TotalNames(r: StateRow, k: nat)
    requires k < 5
    ensures Totals(r)[k].name == Ascii(NAMES[k + 18])
  {
    hide Ascii;
    assert k in {0, 1, 2, 3, 4};
  }

  lemma RowIsNamed(r: StateRow)
    ensures Named(Members(r), NAMES)
  {
    hide Ascii, Identity, Origin, FieldTables, Totals;
    EntriesAre(r, 0);
    forall k | 0 <= k < |NAMES|
      ensures Members(r)[k].name == Ascii(NAMES[k])
    {
      MemberIs(r, k);
      if k < 6 {
        IdentityNames(r, k);
      } else if k < 15 {
        OriginNames(r, k - 6);
      } else if k < 18 {
        TableNames(r, k - 15);
      } else {
        TotalNames(r, k - 18);
      }
    }
  }

  lemma MemberIs(r: StateRow, k: nat)
    requires k < |NAMES|
    ensures |Members(r)| == |NAMES|
    ensures var e := if k < 6 then Identity(r)[k] else if k < 15 then Origin(r)[k - 6]
                     else if k < 18 then FieldTables(r)[k - 15] else Totals(r)[k - 18];
            Members(r)[k] == Member(e.name, ItemTree(e.item))
  {
    EntriesAre(r, k);
    EntryAt(Entries(r), k);
    hide Identity, Origin, FieldTables, Totals, EntryTrees, ItemTree, Entries;
  }

  /** The member of a name is the value that Serialize writes behind it. */
  lemma IdentitySays(r: StateRow, k: nat)
    requires k < 6
    ensures Says(Members(r), NAMES[k], ItemTree(Identity(r)[k].item))
  {
    RowIsNamed(r);
    MemberIs(r, k);
    hide Identity, Origin, FieldTables, Totals, Members, Named, Says, ItemTree;
    NamesAreUnique(Members(r), k);
  }

  lemma OriginSays(r: StateRow, k: nat)
    requires k < 9
    ensures Says(Members(r), NAMES[k + 6], ItemTree(Origin(r)[k].item))
  {
    RowIsNamed(r);
    MemberIs(r, k + 6);
    hide Identity, Origin, FieldTables, Totals, Members, Named, Says, ItemTree;
    NamesAreUnique(Members(r), k + 6);
  }

  lemma TableSays(r: StateRow, k: nat)
    requires k < 3
    ensures Says(Members(r), NAMES[k + 15], ItemTree(FieldTables(r)[k].item))
  {
    RowIsNamed(r);
    MemberIs(r, k + 15);
    hide Identity, Origin, FieldTables, Totals, Members, Named, Says, ItemTree;
    NamesAreUnique(Members(r), k + 15);
  }

  lemma TotalSays(r: StateRow, k: nat)
    requires k < 5
    ensures Says(Members(r), NAMES[k + 18], ItemTree(Totals(r)[k].item))
  {
    RowIsNamed(r);
    MemberIs(r, k + 18);
    hide Identity, Origin, FieldTables, Totals, Members, Named, Says, ItemTree;
    NamesAreUnique(Members(r), k + 18);
  }

  lemma IdentityValues(r: StateRow)
    ensures ItemTree(Identity(r)[0].item) == NumberValue(1)
    ensures ItemTree(Identity(r)[1].item) == StringValue(Ascii("livox_raw_state"))
    ensures ItemTree(Identity(r)[2].item) == NumberValue(r.wall)
    ensures ItemTree(Identity(r)[3].item) == NumberValue(r.steady)
    ensures ItemTree(Identity(r)[4].item) == NumberValue(r.seqNo)
    ensures ItemTree(Identity(r)[5].item) == NumberValue(r.pid)
  {
    hide Ascii;
  }

  /** Which row it is. */
  lemma RowSaysIdentity(r: StateRow)
    ensures var ms := Members(r);
            && Says(ms, "schema", NumberValue(1)) && Says(ms, "kind", StringValue(Ascii("livox_raw_state")))
            && Says(ms, "wall_ns", NumberValue(r.wall)) && Says(ms, "steady_ns", NumberValue(r.steady))
            && Says(ms, "seq", NumberValue(r.seqNo)) && Says(ms, "pid", NumberValue(r.pid))
  {
    hide Says, Members, Ascii, Identity, ItemTree;
    IdentityValues(r);
    IdentitySays(r, 0);
    IdentitySays(r, 1);
    IdentitySays(r, 2);
    IdentitySays(r, 3);
    IdentitySays(r, 4);
    IdentitySays(r, 5);
  }

  /** The names of the sources and results. */
  const SOURCES: map<Q.Source, string> := map[
    Q.Startup := "startup", Q.StatePush := "state_push", Q.Query := "query", Q.Shutdown := "shutdown",
    Q.Failure := "error"]

  const RESULTS: map<Q.Result, string> := map[
    Q.NotApplicable := "not_applicable", Q.Success := "success", Q.SubmitFailed := "submit_failed",
    Q.Timeout := "timeout", Q.SdkError := "sdk_error", Q.InvalidResponse := "invalid_response", Q.Pending := "pending"]

  const STATUSES: map<Status, string> := map[
    Missing := "missing", Valid := "valid", Invalid := "invalid", NotAvailable := "not_available",
    NoResponseLength := "no_response_length"]

  lemma KindNames(source: Q.Source, result: Q.Result, status: Status)
    ensures source in SOURCES && SourceName(source) == Ascii(SOURCES[source])
    ensures result in RESULTS && ResultName(result) == Ascii(RESULTS[result])
    ensures status in STATUSES && StatusName(status) == Ascii(STATUSES[status])
  {
    hide Ascii;
  }

  function NumberOrNull(n: Option<Int32>): Json {
    if n.None? then NullValue else NumberValue(n.value)
  }

  lemma OriginItems(r: StateRow)
    ensures Origin(r)[0].item == One(String(r.session)) && Origin(r)[1].item == One(String(r.role))
    ensures Origin(r)[2].item == One(Uint(r.handle)) && Origin(r)[3].item == One(String(r.ip))
    ensures Origin(r)[4].item == One(String(SourceName(r.source)))
    ensures Origin(r)[5].item == One(String(ResultName(r.result)))
    ensures Origin(r)[6].item == OrNull(r.sdkStatus) && Origin(r)[7].item == OrNull(r.retCode)
    ensures Origin(r)[8].item == One(String(r.detail))
  {
    hide Ascii, SourceName, ResultName, OrNull;
  }

  lemma OriginValues(r: StateRow)
    ensures ItemTree(Origin(r)[0].item) == StringValue(r.session)
    ensures ItemTree(Origin(r)[1].item) == StringValue(r.role)
    ensures ItemTree(Origin(r)[2].item) == NumberValue(r.handle)
    ensures ItemTree(Origin(r)[3].item) == StringValue(r.ip)
    ensures ItemTree(Origin(r)[4].item) == StringValue(SourceName(r.source))
    ensures ItemTree(Origin(r)[5].item) == StringValue(ResultName(r.result))
    ensures ItemTree(Origin(r)[6].item) == NumberOrNull(r.sdkStatus)
    ensures ItemTree(Origin(r)[7].item) == NumberOrNull(r.retCode)
    ensures ItemTree(Origin(r)[8].item) == StringValue(r.detail)
  {
    OriginItems(r);
    hide Origin, SourceName, ResultName;
  }

  /** Whose row it is, and what it reports. */
  lemma RowSaysOrigin(r: StateRow)
    ensures r.source in SOURCES && r.result in RESULTS
    ensures var ms := Members(r);
            && Says(ms, "session", StringValue(r.session)) && Says(ms, "role", StringValue(r.role))
            && Says(ms, "handle", NumberValue(r.handle)) && Says(ms, "ip", StringValue(r.ip))
            && Says(ms, "source", StringValue(Ascii(SOURCES[r.source])))
            && Says(ms, "query_result", StringValue(Ascii(RESULTS[r.result])))
            && Says(ms, "sdk_status", NumberOrNull(r.sdkStatus)) && Says(ms, "ret_code", NumberOrNull(r.retCode))
            && Says(ms, "detail", StringValue(r.detail))
  {
    hide Says, Members, Ascii, Origin, ItemTree, SourceName, ResultName;
    KindNames(r.source, r.result, Missing);
    OriginValues(r);
    OriginSays(r, 0);
    OriginSays(r, 1);
    OriginSays(r, 2);
    OriginSays(r, 3);
    OriginSays(r, 4);
    OriginSays(r, 5);
    OriginSays(r, 6);
    OriginSays(r, 7);
    OriginSays(r, 8);
  }

  lemma TotalValues(r: StateRow)
    ensures ItemTree(Totals(r)[0].item) == StringValue(Ascii("sdk_raw_unit_unspecified"))
    ensures ItemTree(Totals(r)[1].item) == NumberValue(r.dropped)
    ensures ItemTree(Totals(r)[2].item) == NumberValue(r.errors)
    ensures ItemTree(Totals(r)[3].item) == NumberValue(r.suppressed)
    ensures ItemTree(Totals(r)[4].item) == StringValue(r.scheduling)
  {
    hide Ascii;
  }

  /** The counters and the rest. */
  lemma RowSaysTotals(r: StateRow)
    ensures var ms := Members(r);
            && Says(ms, "core_temp_unit", StringValue(Ascii("sdk_raw_unit_unspecified")))
            && Says(ms, "dropped_total", NumberValue(r.dropped))
            && Says(ms, "write_errors_total", NumberValue(r.errors))
            && Says(ms, "suppressed_push_total", NumberValue(r.suppressed))
            && Says(ms, "writer_scheduling", StringValue(r.scheduling))
  {
    hide Says, Members, Ascii, Totals, ItemTree;
    TotalValues(r);
    TotalSays(r, 0);
    TotalSays(r, 1);
    TotalSays(r, 2);
    TotalSays(r, 3);
    TotalSays(r, 4);
  }

  /* ---- the fields ---- */

  function ValueMembers(r: StateRow): seq<Member> {
    EntryTrees(FieldValues(r))
  }

  function StatusMembers(r: StateRow): seq<Member> {
    EntryTrees(FieldStatuses(r))
  }

  function SourceMembers(r: StateRow): seq<Member> {
    EntryTrees(FieldSources(r))
  }

  lemma TableValues(r: StateRow)
    ensures ItemTree(FieldTables(r)[0].item) == ObjectValue(ValueMembers(r))
    ensures ItemTree(FieldTables(r)[1].item) == ObjectValue(StatusMembers(r))
    ensures ItemTree(FieldTables(r)[2].item) == ObjectValue(SourceMembers(r))
  {
    hide Ascii, FieldValues, FieldStatuses, FieldSources;
  }

  /** The three objects with one member for every field. */
  lemma RowSaysTables(r: StateRow)
    ensures var ms := Members(r);
            && Says(ms, "fields", ObjectValue(ValueMembers(r)))
            && Says(ms, "field_status", ObjectValue(StatusMembers(r)))
            && Says(ms, "field_sources", ObjectValue(SourceMembers(r)))
  {
    hide Says, Members, Ascii, FieldTables, ItemTree, ValueMembers, StatusMembers, SourceMembers;
    TableValues(r);
    TableSays(r, 0);
    TableSays(r, 1);
    TableSays(r, 2);
  }

  lemma FieldNamesAre(k: nat)
    requires k < FIELD_COUNT
    ensures FIELD_NAMES[k] == FIELDS[k] && |FIELDS| == FIELD_COUNT
  {
  }

  lemma FieldsNamed(r: StateRow)
    ensures Named(ValueMembers(r), FIELDS) && Named(StatusMembers(r), FIELDS) && Named(SourceMembers(r), FIELDS)
  {
    hide Ascii, FieldItem, FieldSource, StatusName;
    FieldNamesAre(0);
    forall k: nat | k < FIELD_COUNT
      ensures ValueMembers(r)[k].name == Ascii(FIELDS[k]) && StatusMembers(r)[k].name == Ascii(FIELDS[k])
      ensures SourceMembers(r)[k].name == Ascii(FIELDS[k])
    {
      FieldNamesAre(k);
      EntryAt(FieldValues(r), k);
      EntryAt(FieldStatuses(r), k);
      EntryAt(FieldSources(r), k);
    }
  }

  /** The member of each field in the three objects. */
  lemma FieldSays(r: StateRow, k: nat)
    requires k < FIELD_COUNT
    ensures Says(ValueMembers(r), FIELDS[k], ItemTree(FieldItem(r, k)))
    ensures Says(StatusMembers(r), FIELDS[k], StringValue(StatusName(r.status[k])))
    ensures Says(SourceMembers(r), FIELDS[k], StringValue(FieldSource(r, k)))
  {
    FieldsNamed(r);
    EntryAt(FieldValues(r), k);
    EntryAt(FieldStatuses(r), k);
    EntryAt(FieldSources(r), k);
    hide Ascii, FieldItem, FieldSource, StatusName, Says, Named;
    FieldsAreUnique(ValueMembers(r), k);
    FieldsAreUnique(StatusMembers(r), k);
    FieldsAreUnique(SourceMembers(r), k);
  }

  /** Every field has its status, and the row's source where a measurement came with the row. */
  lemma RowSaysStatus(r: StateRow, k: nat)
    requires k < FIELD_COUNT
    ensures r.status[k] in STATUSES && r.source in SOURCES
    ensures Says(StatusMembers(r), FIELDS[k], StringValue(Ascii(STATUSES[r.status[k]])))
    ensures var measured := r.status[k] == Valid || r.status[k] == Invalid;
            Says(SourceMembers(r), FIELDS[k], StringValue(Ascii(if measured then SOURCES[r.source] else "unavailable")))
  {
    KindNames(r.source, r.result, r.status[k]);
    hide Ascii, Says, StatusName, SourceName, ItemTree, FieldItem, StatusMembers, SourceMembers;
    FieldSays(r, k);
  }

  function Numbers(ns: seq<Uint32>): seq<Json> {
    seq(|ns|, k requires 0 <= k < |ns| => NumberValue(ns[k]))
  }

  lemma {:induction false} NumbersAre(ns: seq<Uint32>)
    ensures ItemTree(Many(ns)) == ArrayValue(Numbers(ns))
    decreases |ns|
  {
    if ns != [] {
      NumbersAre(ns[1..]);
      assert NumberTrees(ns) == [NumberValue(ns[0])] + NumberTrees(ns[1..]);
      assert Numbers(ns) == [NumberValue(ns[0])] + Numbers(ns[1..]);
    }
  }

  /** What a field is if it is valid; the last two are never measured. */
  function Measured(f: Fields, k: nat): Json
    requires k < FIELD_COUNT
  {
    [ArrayValue(Numbers(f.hms)), NumberValue(f.workState), NumberValue(f.syncType), NumberValue(f.localTime),
     NumberValue(f.lastSync), NumberValue(f.timeOffset), NumberValue(f.coreTemp), NumberValue(f.powerupCount),
     StringValue(f.serial), ArrayValue(Numbers(f.appVersion)), ArrayValue(Numbers(f.loaderVersion)),
     ArrayValue(Numbers(f.hardwareVersion)), NullValue, NullValue][k]
  }

  /** A field that is not valid is null; a valid one is what was measured. */
  lemma RowSaysField(r: StateRow, k: nat)
    requires k < FIELD_COUNT
    ensures Says(ValueMembers(r), FIELDS[k], if r.status[k] == Valid then Measured(r.fields, k) else NullValue)
  {
    FieldIs(r, k);
    hide Ascii, Says, StatusName, FieldSource, ItemTree, FieldItem, Measured, ValueMembers;
    FieldSays(r, k);
  }

  lemma FieldIs(r: StateRow, k: nat)
    requires k < FIELD_COUNT
    ensures ItemTree(FieldItem(r, k)) == if r.status[k] == Valid then Measured(r.fields, k) else NullValue
  {
    NumbersAre(r.fields.hms);
    NumbersAre(r.fields.appVersion);
    NumbersAre(r.fields.loaderVersion);
    NumbersAre(r.fields.hardwareVersion);
    hide Numbers, NumberTrees;
    assert k in {0, 1, 2, 3, 4, 5, 6, 7, 8, 9, 10, 11, 12, 13};
  }
}
