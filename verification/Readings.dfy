/** What the history says, in terms of the stored rows and readings themselves (scripts/diagnose_lidar.py,
    device_history). */
module Readings {
  import opened Wrappers
  import opened History

  function Reading(r: Row, k: Key): Field {
    if k == WorkState then r.work
    else if k == HmsCode then r.hms
    else if k == SyncType then r.sync
    else r.powerup
  }

  /** Two readings say the same: equal numbers, or lists with the same codes other than 0. */
  predicate SameReading(a: Raw, b: Raw) {
    match a
    case Number(n) => b == Number(n)
    case List(x) => b.List? && (forall c <- x :: c != 0 ==> c in b.codes) && (forall c <- b.codes :: c != 0 ==> c in x)
  }

  /** A reported value is the number read, or exactly the codes read other than 0. */
  ghost predicate Tells(v: Value, raw: Raw) {
    match raw
    case Number(n) => v == Plain(n)
    case List(x) => v.Codes? && forall c: nat :: c in v.codes <==> c != 0 && c in x
  }

  /** An alarm list with an error: a code other than 0 of level 3 or 4. */
  predicate ListsError(raw: Raw) {
    raw.List? && exists c :: c in raw.codes && c != 0 && (c % 0x100 == 3 || c % 0x100 == 4)
  }

  /** Nothing was measured, and nothing went wrong: a push or lifecycle row without the key, or an answered
      query that does not carry it. */
  predicate Silent(r: Row, k: Key) {
    var f := Reading(r, k);
    f.Unread? &&
    match f.status
    case Missing => (r.source == StatePush || r.source == Startup || r.source == Shutdown)
                    && (r.result == Success || r.result == NotApplicable)
    case NotAvailable => r.source == Query && r.result == Success
    case NoResponseLength => r.source == Query && r.result == Success
    case Invalid => false
    case UnknownStatus => false
  }

  /** Row `m` follows on the row before it. */
  predicate FollowsOn(rows: seq<Row>, m: nat) {
    0 < m < |rows| && Unbroken(rows[m - 1], rows[m])
  }

  /** Rows `i` and `j` both have a reading; every row between them follows on its neighbour and is silent
      about the key. */
  ghost predicate Joined(rows: seq<Row>, i: nat, j: nat, k: Key) {
    && i < j < |rows| && Reading(rows[i], k).Read? && Reading(rows[j], k).Read?
    && (forall m :: i < m <= j ==> FollowsOn(rows, m))
    && (forall m :: i < m < j ==> Silent(rows[m], k))
  }

  /* ---- the same as the specification of the fold ---- */

  lemma ReadingIs(r: Row, k: Key)
    ensures FieldOf(r, k) == Reading(r, k)
  {
  }

  lemma SilentIs(r: Row, k: Key)
    ensures Partial(r, k) <==> Silent(r, k)
  {
    ReadingIs(r, k);
    hide FieldOf, Reading;
  }

  lemma CodesOf(x: seq<nat>, c: nat)
    ensures c in Compare(List(x)).codes <==> c != 0 && c in x
  {
  }

  lemma SameLists(x: seq<nat>, y: seq<nat>)
    ensures Compare(List(x)) == Compare(List(y)) <==> SameReading(List(x), List(y))
  {
    hide Compare;
    CodesValue(x);
    CodesValue(y);
    var a, b := Compare(List(x)), Compare(List(y));
    forall c: nat
      ensures c in a.codes <==> c != 0 && c in x
      ensures c in b.codes <==> c != 0 && c in y
    {
      CodesOf(x, c);
      CodesOf(y, c);
    }
    if SameReading(List(x), List(y)) {
      assert a.codes == b.codes;
    }
  }

  lemma CodesValue(x: seq<nat>)
    ensures Compare(List(x)).Codes?
  {
  }

  lemma SameIs(a: Raw, b: Raw)
    ensures Compare(a) == Compare(b) <==> SameReading(a, b)
    ensures Tells(Compare(a), a)
  {
    if a.List? && b.List? {
      SameLists(a.codes, b.codes);
    }
  }

  lemma ChainIs(rows: seq<Row>, i: nat, j: nat)
    requires i < j < |rows|
    ensures (forall m :: i < m <= j ==> !Gap(rows, m)) <==> forall m :: i < m <= j ==> FollowsOn(rows, m)
  {
    hide Gap, Unbroken;
    forall m | i < m <= j
      ensures !Gap(rows, m) <==> FollowsOn(rows, m)
    {
      GapExactly(rows, m);
    }
  }

  lemma SilenceIs(rows: seq<Row>, i: nat, j: nat, k: Key)
    requires i < j < |rows|
    ensures (forall m :: i < m < j ==> Partial(rows[m], k)) <==> forall m :: i < m < j ==> Silent(rows[m], k)
  {
    hide Partial, Silent;
    forall m | i < m < j
      ensures Partial(rows[m], k) <==> Silent(rows[m], k)
    {
      SilentIs(rows[m], k);
    }
  }

  lemma JoinedIs(rows: seq<Row>, i: nat, j: nat, k: Key)
    ensures Linked(rows, i, j, k) <==> Joined(rows, i, j, k)
  {
    hide FieldOf, Reading, Gap, Unbroken, Partial, Silent;
    if i < j < |rows| {
      ReadingIs(rows[i], k);
      ReadingIs(rows[j], k);
      ChainIs(rows, i, j);
      SilenceIs(rows, i, j, k);
      LinkedParts(rows, i, j, k);
    }
  }

  lemma LinkedParts(rows: seq<Row>, i: nat, j: nat, k: Key)
    requires i < j < |rows|
    ensures Linked(rows, i, j, k) <==>
            && FieldOf(rows[i], k).Read? && FieldOf(rows[j], k).Read?
            && (forall m :: i < m <= j ==> !Gap(rows, m)) && (forall m :: i < m < j ==> Partial(rows[m], k))
  {
    hide FieldOf, Gap, Partial;
  }

  /* ---- the laws ---- */

  /** Between joined readings a change is reported exactly when they differ, with what was read before and
      after and with the two rows. */
  lemma JoinedChange(rows: seq<Row>, i: nat, j: nat, k: Key)
    requires Joined(rows, i, j, k)
    ensures var a, b := Reading(rows[i], k).raw, Reading(rows[j], k).raw;
            var r := ChangeAt(rows, j, k);
            && (r.None? <==> SameReading(a, b))
            && (r.Some? ==> && r.value.kind == ObservedChange && r.value.beforeAt == Some(i) && r.value.afterAt == j
                            && r.value.before.Some? && Tells(r.value.before.value, a) && Tells(r.value.after, b))
  {
    JoinedIs(rows, i, j, k);
    ReadingIs(rows[i], k);
    ReadingIs(rows[j], k);
    SameIs(Reading(rows[i], k).raw, Reading(rows[j], k).raw);
    SameIs(Reading(rows[j], k).raw, Reading(rows[i], k).raw);
    CarriedIsLast(rows, i, j, k);
    hide Last, Compare, SameReading, Tells, Gap, FieldOf, Reading, SeenBefore, Partial, Joined;
  }

  /** A reading that nothing joins to an earlier one is reported as it is: as the first one if there is no
      earlier reading at all, else as the first after a gap. */
  lemma FreshReading(rows: seq<Row>, j: nat, k: Key)
    requires j < |rows| && Reading(rows[j], k).Read? && forall i: nat :: !Joined(rows, i, j, k)
    ensures var r := ChangeAt(rows, j, k);
            && r.Some? && r.value.before.None? && r.value.beforeAt.None? && r.value.afterAt == j
            && Tells(r.value.after, Reading(rows[j], k).raw)
            && r.value.kind == if exists i :: 0 <= i < j && Reading(rows[i], k).Read? then ObservedAfterGap
                               else FirstObserved
  {
    forall i: nat
      ensures !Linked(rows, i, j, k)
    {
      JoinedIs(rows, i, j, k);
    }
    NothingRemembered(rows, j, k);
    ReadingIs(rows[j], k);
    SameIs(Reading(rows[j], k).raw, Reading(rows[j], k).raw);
    SeenIs(rows, j, k);
    hide Compare, Tells, Gap, FieldOf, Reading, Remembered, SeenBefore, Linked, Joined;
  }

  lemma SeenIs(rows: seq<Row>, j: nat, k: Key)
    requires j <= |rows|
    ensures SeenBefore(rows, j, k) <==> exists i :: 0 <= i < j && Reading(rows[i], k).Read?
  {
    forall i | 0 <= i < j
      ensures FieldOf(rows[i], k) == Reading(rows[i], k)
    {
      ReadingIs(rows[i], k);
    }
    hide FieldOf, Reading;
  }

  lemma NothingRemembered(rows: seq<Row>, j: nat, k: Key)
    requires j < |rows| && FieldOf(rows[j], k).Read? && forall i: nat :: !Linked(rows, i, j, k)
    ensures Remembered(rows, j, k).None?
  {
    hide Linked, Remembered, FieldOf;
    if Remembered(rows, j, k).Some? {
      RememberedIsLinked(rows, j, k);
    }
  }

  lemma RememberedIsLinked(rows: seq<Row>, j: nat, k: Key)
    requires j < |rows| && FieldOf(rows[j], k).Read? && Remembered(rows, j, k).Some?
    ensures Linked(rows, Remembered(rows, j, k).value.at, j, k)
  {
    LastExact(rows, j, k);
    hide Last, Compare, Gap, FieldOf, Partial, Carried;
  }

  /** A row without a reading reports nothing. */
  lemma NoReading(rows: seq<Row>, j: nat, k: Key)
    requires j < |rows| && Reading(rows[j], k).Unread?
    ensures ChangeAt(rows, j, k).None?
  {
    ReadingIs(rows[j], k);
    hide FieldOf, Reading;
  }

  /** The first row of a session begins with a gap unless both loss counters are there and zero. */
  lemma FirstGapExactly(rows: seq<Row>)
    requires rows != []
    ensures Gap(rows, 0) <==> !(rows[0].dropped == Some(0) && rows[0].errors == Some(0))
  {
  }

  /** The error flag is set exactly by a reading that nothing joins to an earlier one: the error state, or a
      list with an error. */
  lemma ErrorExactly(rows: seq<Row>, n: nat)
    requires n < |rows|
    ensures ErrorAtFirst(rows, n) <==>
            || (rows[n].work == Read(Number(4)) && forall i: nat :: !Joined(rows, i, n, WorkState))
            || (rows[n].hms.Read? && ListsError(rows[n].hms.raw) && forall i: nat :: !Joined(rows, i, n, HmsCode))
  {
    FirstSightIs(rows, n, WorkState);
    FirstSightIs(rows, n, HmsCode);
    if rows[n].hms.Read? {
      ErrorIs(rows[n].hms.raw);
    }
    hide Remembered, Joined, Compare, HasError, ListsError;
  }

  lemma ErrorIs(raw: Raw)
    ensures HasError(Compare(raw)) <==> ListsError(raw)
  {
    if ListsError(raw) {
      var c :| c in raw.codes && c != 0 && (c % 0x100 == 3 || c % 0x100 == 4);
      assert c in Compare(raw).codes;
    }
  }

  lemma FirstSightIs(rows: seq<Row>, n: nat, k: Key)
    requires n < |rows|
    ensures FirstSightOf(rows, n, k) <==> Reading(rows[n], k).Read? && forall i: nat :: !Joined(rows, i, n, k)
  {
    ReadingIs(rows[n], k);
    hide Linked, Joined, Gap, FieldOf, Reading, Remembered;
    forall i: nat
      ensures Linked(rows, i, n, k) <==> Joined(rows, i, n, k)
    {
      JoinedIs(rows, i, n, k);
    }
    if FieldOf(rows[n], k).Read? && forall i: nat :: !Linked(rows, i, n, k) {
      NothingRemembered(rows, n, k);
    }
    if i: nat :| Linked(rows, i, n, k) {
      LinkedIsRemembered(rows, i, n, k);
    }
  }

  lemma LinkedIsRemembered(rows: seq<Row>, i: nat, j: nat, k: Key)
    requires Linked(rows, i, j, k)
    ensures Remembered(rows, j, k).Some?
  {
    CarriedIsLast(rows, i, j, k);
    hide Last, Compare, Gap, FieldOf, Partial, Carried;
  }

  /** A transition is marked continuous exactly if its row follows on the row before it, and the transitions
      stand in the order of their rows. */
  lemma {:induction false} ContinuousExactly(rows: seq<Row>, n: nat, x: nat)
    requires n <= |rows| && x < |Transitions(rows, n)|
    ensures var t := Transitions(rows, n)[x];
            && t.at < n && (t.continuous <==> FollowsOn(rows, t.at))
            && forall y :: 0 <= y < x ==> Transitions(rows, n)[y].at < t.at
    decreases n
  {
    hide Changes, Gap, Unbroken;
    var m := n - 1;
    if m > 0 {
      GapExactly(rows, m);
    }
    if x < |Transitions(rows, m)| {
      ContinuousExactly(rows, m, x);
    }
    forall y | 0 <= y < |Transitions(rows, m)|
      ensures Transitions(rows, m)[y].at < m
    {
      ContinuousExactly(rows, m, y);
    }
  }
}
