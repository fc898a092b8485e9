/** Rebuilding what happened from the stored rows of one lidar (scripts/diagnose_lidar.py,
    device_history): grouping into sessions, gap detection and the fold over a session's rows.
    A row's evidence is represented by its place in the session. */
module History {

  import opened Wrappers

  datatype Key = WorkState | HmsCode | SyncType | PowerupCount

  const KEYS := [WorkState, HmsCode, SyncType, PowerupCount]

  datatype Status = Missing | Invalid | NotAvailable | NoResponseLength | UnknownStatus

  datatype Raw = Number(n: nat) | List(codes: seq<nat>)

  datatype Field = Read(raw: Raw) | Unread(status: Status)

  datatype Source = StatePush | Startup | Shutdown | Query | OtherSource

  datatype QueryResult = Success | NotApplicable | OtherResult

  datatype Row = Row(
    seqNo: nat, steady: nat, pid: nat, barrier: nat, source: Source, result: QueryResult,
    work: Field, hms: Field, sync: Field, powerup: Field, dropped: Option<nat>, errors: Option<nat>)

  function FieldOf(r: Row, k: Key): Field {
    match k
    case WorkState => r.work
    case HmsCode => r.hms
    case SyncType => r.sync
    case PowerupCount => r.powerup
  }

  /** What values are compared by: of an alarm list only the set of its codes counts. */
  datatype Value = Plain(n: nat) | Codes(codes: set<nat>)

  function Compare(raw: Raw): Value {
    if raw.Number? then Plain(raw.n) else Codes(set c | c in raw.codes && c != 0)
  }

  /** A missing key that is no invalid measurement: the row is a partial observation. */
  predicate Partial(r: Row, k: Key) {
    FieldOf(r, k).Unread? &&
    var status := FieldOf(r, k).status;
    || (r.source in {StatePush, Startup, Shutdown} && status == Missing && r.result in {Success, NotApplicable})
    || (r.source == Query && r.result == Success && status in {NoResponseLength, NotAvailable})
  }

  datatype Reason =
    | SequenceGap | ClockOrPid | Unreadable
    | DroppedMissing | DroppedChanged | ErrorsMissing | ErrorsChanged

  /** A loss counter says that rows were lost before this one, or says nothing. */
  predicate CounterMoved(current: Option<nat>, prior: Option<nat>, hasPrevious: bool) {
    current.Some? && (prior.None? || current.value > prior.value || (hasPrevious && current.value < prior.value))
  }

  predicate Applies(reason: Reason, previous: Option<Row>, r: Row) {
    var priorDropped := if previous.Some? then previous.value.dropped else Some(0);
    var priorErrors := if previous.Some? then previous.value.errors else Some(0);
    match reason
    case SequenceGap => previous.Some? && r.seqNo != previous.value.seqNo + 1
    case ClockOrPid => previous.Some? && (r.steady < previous.value.steady || r.pid != previous.value.pid)
    case Unreadable => previous.Some? && r.barrier != previous.value.barrier
    case DroppedMissing => r.dropped.None?
    case DroppedChanged => CounterMoved(r.dropped, priorDropped, previous.Some?)
    case ErrorsMissing => r.errors.None?
    case ErrorsChanged => CounterMoved(r.errors, priorErrors, previous.Some?)
  }

  function Reasons(previous: Option<Row>, r: Row): (s: seq<Reason>) {
    (if Applies(SequenceGap, previous, r) then [SequenceGap] else []) +
    (if Applies(ClockOrPid, previous, r) then [ClockOrPid] else []) +
    (if Applies(Unreadable, previous, r) then [Unreadable] else []) +
    (if Applies(DroppedMissing, previous, r) then [DroppedMissing] else []) +
    (if Applies(DroppedChanged, previous, r) then [DroppedChanged] else []) +
    (if Applies(ErrorsMissing, previous, r) then [ErrorsMissing] else []) +
    (if Applies(ErrorsChanged, previous, r) then [ErrorsChanged] else [])
  }

  /* ---- the fold over a session's rows, key by key ---- */

  datatype Seen = Seen(value: Value, at: nat)

  datatype Kind = FirstObserved | ObservedAfterGap | ObservedChange

  datatype Change = Change(before: Option<Value>, after: Value, kind: Kind, beforeAt: Option<nat>, afterAt: nat)

  function Before(rows: seq<Row>, n: nat): Option<Row>
    requires n < |rows|
  {
    if n == 0 then None else Some(rows[n - 1])
  }

  predicate Gap(rows: seq<Row>, n: nat)
    requires n < |rows|
  {
    Reasons(Before(rows, n), rows[n]) != []
  }

  /** What is remembered of key `k` when row `n` is looked at, gap taken into account. */
  function Remembered(rows: seq<Row>, n: nat, k: Key): Option<Seen>
    requires n < |rows|
    decreases n, 1
  {
    if Gap(rows, n) then None else Last(rows, n, k)
  }

  /** last_values and last_evidence for key `k` behind the first `n` rows. */
  function Last(rows: seq<Row>, n: nat, k: Key): Option<Seen>
    requires n <= |rows|
    decreases n, 0
  {
    if n == 0 then None
    else
      var f := FieldOf(rows[n - 1], k);
      if f.Read? then Some(Seen(Compare(f.raw), n - 1))
      else if Partial(rows[n - 1], k) then Remembered(rows, n - 1, k)
      else None
  }

  /** seen_fields: the key was read in one of the first `n` rows. */
  predicate SeenBefore(rows: seq<Row>, n: nat, k: Key)
    requires n <= |rows|
  {
    exists i :: 0 <= i < n && FieldOf(rows[i], k).Read?
  }

  /** The change that row `n` reports for key `k`. */
  function ChangeAt(rows: seq<Row>, n: nat, k: Key): Option<Change>
    requires n < |rows|
  {
    var f := FieldOf(rows[n], k);
    if f.Unread? then None
    else
      var v, was := Compare(f.raw), Remembered(rows, n, k);
      if was.None? then
        Some(Change(None, v, if SeenBefore(rows, n, k) then ObservedAfterGap else FirstObserved, None, n))
      else if v != was.value.value then
        Some(Change(Some(was.value.value), v, ObservedChange, Some(was.value.at), n))
      else None
  }

  /* ---- what a reported change means ---- */

  /** Rows `i` and `n` with nothing between them that could hide a value of `k`: no gap, and only
      partial rows that say nothing about it. */
  ghost predicate Carried(rows: seq<Row>, i: nat, n: nat, k: Key) {
    && i < n <= |rows|
    && FieldOf(rows[i], k).Read?
    && (forall m :: i < m < n ==> !Gap(rows, m) && Partial(rows[m], k))
  }

  /** Successive valid observations of `k`. */
  ghost predicate Linked(rows: seq<Row>, i: nat, j: nat, k: Key) {
    j < |rows| && Carried(rows, i, j, k) && !Gap(rows, j) && FieldOf(rows[j], k).Read?
  }

  lemma {:induction false} LastIsCarried(rows: seq<Row>, n: nat, k: Key)
    requires n <= |rows|
    ensures Last(rows, n, k).Some? ==>
      var s := Last(rows, n, k).value;
      Carried(rows, s.at, n, k) && s.value == Compare(FieldOf(rows[s.at], k).raw)
    decreases n
  {
    if n > 0 {
      LastIsCarried(rows, n - 1, k);
      if Last(rows, n - 1, k).Some? && !Gap(rows, n - 1) && Partial(rows[n - 1], k) {
        CarryOn(rows, Last(rows, n - 1, k).value.at, n, k);
      }
      if FieldOf(rows[n - 1], k).Read? {
        assert Carried(rows, n - 1, n, k);
      }
      hide Partial, Gap, Compare, FieldOf, Carried;
    }
  }

  lemma CarryOn(rows: seq<Row>, i: nat, n: nat, k: Key)
    requires 0 < n <= |rows| && Carried(rows, i, n - 1, k) && !Gap(rows, n - 1) && Partial(rows[n - 1], k)
    ensures Carried(rows, i, n, k)
  {
    hide Gap, Partial;
  }

  lemma CarriedBefore(rows: seq<Row>, i: nat, n: nat, k: Key)
    requires 0 < n <= |rows| && Carried(rows, i, n, k)
    ensures if i == n - 1 then FieldOf(rows[i], k).Read?
            else Carried(rows, i, n - 1, k) && !Gap(rows, n - 1) && Partial(rows[n - 1], k)
  {
    hide Gap, Partial, FieldOf;
  }

  lemma {:induction false} CarriedIsLast(rows: seq<Row>, i: nat, n: nat, k: Key)
    requires n <= |rows| && Carried(rows, i, n, k)
    ensures i < n && Last(rows, n, k) == Some(Seen(Compare(FieldOf(rows[i], k).raw), i))
    decreases n
  {
    assert i < n;
    hide Partial, Gap, Compare, FieldOf, Carried;
    CarriedBefore(rows, i, n, k);
    PartialIsUnread(rows[n - 1], k);
    if i < n - 1 {
      CarriedIsLast(rows, i, n - 1, k);
    }
  }

  lemma LastExact(rows: seq<Row>, n: nat, k: Key)
    requires n <= |rows|
    ensures Last(rows, n, k).Some? ==>
      var s := Last(rows, n, k).value;
      Carried(rows, s.at, n, k) && s.value == Compare(FieldOf(rows[s.at], k).raw)
    ensures forall i: nat :: Carried(rows, i, n, k) ==> Last(rows, n, k).Some? && Last(rows, n, k).value.at == i
  {
    LastIsCarried(rows, n, k);
    hide Last, Compare, Partial;
    forall i: nat | Carried(rows, i, n, k)
      ensures Last(rows, n, k).Some? && Last(rows, n, k).value.at == i
    {
      CarriedIsLast(rows, i, n, k);
    }
  }

  lemma PartialIsUnread(r: Row, k: Key)
    ensures Partial(r, k) ==> FieldOf(r, k).Unread?
  {
  }

  /** An observed change is reported exactly between successive valid observations that differ, with
      their values and their evidence: none is invented and none goes unreported. */
  lemma ObservedChangeExactly(rows: seq<Row>, j: nat, k: Key, c: Change)
    requires j < |rows|
    ensures ChangeAt(rows, j, k) == Some(c) && c.kind == ObservedChange <==>
      exists i: nat :: Linked(rows, i, j, k)
        && Compare(FieldOf(rows[i], k).raw) != Compare(FieldOf(rows[j], k).raw)
        && c == Change(Some(Compare(FieldOf(rows[i], k).raw)), Compare(FieldOf(rows[j], k).raw),
                       ObservedChange, Some(i), j)
  {
    LastExact(rows, j, k);
    hide Partial, Gap, Compare, Last, SeenBefore;
    var was := Remembered(rows, j, k);
    if was.Some? && FieldOf(rows[j], k).Read? {
      assert Linked(rows, was.value.at, j, k);
    }
  }

  /** A value is reported as first observed, or as observed after a gap, exactly when no earlier
      observation can be linked to it. */
  lemma FirstObservationExactly(rows: seq<Row>, j: nat, k: Key)
    requires j < |rows|
    ensures (exists c :: ChangeAt(rows, j, k) == Some(c) && c.kind != ObservedChange) <==>
      FieldOf(rows[j], k).Read? && forall i: nat :: !Linked(rows, i, j, k)
    ensures forall c :: ChangeAt(rows, j, k) == Some(c) && c.kind != ObservedChange ==>
      (c.kind == FirstObserved <==> forall i :: 0 <= i < j ==> FieldOf(rows[i], k).Unread?)
  {
    LastExact(rows, j, k);
    hide Partial, Gap, Compare, Last;
    var was := Remembered(rows, j, k);
    if was.Some? && FieldOf(rows[j], k).Read? {
      assert Linked(rows, was.value.at, j, k);
    }
    if was.None? && FieldOf(rows[j], k).Read? {
      var c := ChangeAt(rows, j, k).value;
      assert ChangeAt(rows, j, k) == Some(c) && c.kind != ObservedChange;
    }
  }

  /** Two neighbouring rows without a gap between them. */
  predicate Unbroken(a: Row, b: Row) {
    && b.seqNo == a.seqNo + 1 && b.pid == a.pid && b.barrier == a.barrier && b.steady >= a.steady
    && a.dropped.Some? && b.dropped == a.dropped && a.errors.Some? && b.errors == a.errors
  }

  lemma GapExactly(rows: seq<Row>, n: nat)
    requires 0 < n < |rows|
    ensures !Gap(rows, n) <==> Unbroken(rows[n - 1], rows[n])
  {
  }

  /** The rows an observed change joins: consecutive numbers all the way, one process, no unreadable
      row and no lost or failed row between them. */
  lemma {:induction false} LinkedIsContiguous(rows: seq<Row>, i: nat, m: nat)
    requires i <= m < |rows| && forall x :: i < x <= m ==> !Gap(rows, x)
    ensures rows[m].seqNo == rows[i].seqNo + (m - i)
    ensures rows[m].pid == rows[i].pid && rows[m].barrier == rows[i].barrier
    ensures rows[m].steady >= rows[i].steady
    ensures rows[m].dropped == rows[i].dropped && rows[m].errors == rows[i].errors
    decreases m
  {
    if i < m {
      GapExactly(rows, m);
      LinkedIsContiguous(rows, i, m - 1);
    }
  }

  /* ---- the transitions, and replaying them ---- */

  datatype Transition = Transition(at: nat, changes: map<Key, Change>, continuous: bool)

  function Changes(rows: seq<Row>, n: nat): map<Key, Change>
    requires n < |rows|
  {
    map k | k in KEYS && ChangeAt(rows, n, k).Some? :: ChangeAt(rows, n, k).value
  }

  function Transitions(rows: seq<Row>, n: nat): seq<Transition>
    requires n <= |rows|
  {
    if n == 0 then []
    else if Changes(rows, n - 1) == map[] then Transitions(rows, n - 1)
    else Transitions(rows, n - 1) + [Transition(n - 1, Changes(rows, n - 1), n > 1 && !Gap(rows, n - 1))]
  }

  function Gaps(rows: seq<Row>, n: nat): seq<nat>
    requires n <= |rows|
  {
    if n == 0 then [] else if Gap(rows, n - 1) then Gaps(rows, n - 1) + [n - 1] else Gaps(rows, n - 1)
  }

  /** The change for `k` that the transitions hold for row `at`. */
  function Reported(ts: seq<Transition>, at: nat, k: Key): Option<Change> {
    if ts == [] then None
    else
      var t := ts[|ts| - 1];
      if t.at == at && k in t.changes then Some(t.changes[k]) else Reported(ts[..|ts| - 1], at, k)
  }

  lemma ReportedSnoc(ts: seq<Transition>, t: Transition, at: nat, k: Key)
    ensures Reported(ts + [t], at, k)
            == if t.at == at && k in t.changes then Some(t.changes[k]) else Reported(ts, at, k)
  {
    assert (ts + [t])[..|ts|] == ts;
  }

  lemma ChangesLookup(rows: seq<Row>, n: nat, k: Key)
    requires n < |rows|
    ensures k in Changes(rows, n) <==> ChangeAt(rows, n, k).Some?
    ensures k in Changes(rows, n) ==> Changes(rows, n)[k] == ChangeAt(rows, n, k).value
  {
    hide ChangeAt;
    assert k in KEYS;
  }

  /** What row `n` adds to the transitions. */
  lemma ReportedStep(rows: seq<Row>, n: nat, at: nat, k: Key)
    requires n < |rows|
    ensures Reported(Transitions(rows, n + 1), at, k) ==
            if at == n && ChangeAt(rows, n, k).Some? then ChangeAt(rows, n, k)
            else Reported(Transitions(rows, n), at, k)
  {
    ChangesLookup(rows, n, k);
    var t := Transition(n, Changes(rows, n), n > 0 && !Gap(rows, n));
    ReportedSnoc(Transitions(rows, n), t, at, k);
    hide ChangeAt, Gap, Reported, Changes;
  }

  lemma {:induction false} ReportedExact(rows: seq<Row>, n: nat, at: nat, k: Key)
    requires n <= |rows|
    ensures Reported(Transitions(rows, n), at, k) == if at < n then ChangeAt(rows, at, k) else None
    decreases n
  {
    hide ChangeAt;
    if n > 0 {
      var before := n - 1;
      ReportedStep(rows, before, at, k);
      ReportedExact(rows, before, at, k);
      hide Reported, Transitions;
    }
  }

  /** The remembered values as far as the transitions tell them: forgotten at every gap and at every
      invalid read, changed only as reported. */
  function Replayed(rows: seq<Row>, ts: seq<Transition>, n: nat, k: Key): Option<Value>
    requires n <= |rows|
  {
    if n == 0 then None
    else
      var base := if Gap(rows, n - 1) then None else Replayed(rows, ts, n - 1, k);
      var change := Reported(ts, n - 1, k);
      if change.Some? then Some(change.value.after)
      else if FieldOf(rows[n - 1], k).Unread? && !Partial(rows[n - 1], k) then None
      else base
  }

  function ValueOf(s: Option<Seen>): Option<Value> {
    if s.Some? then Some(s.value.value) else None
  }

  lemma ForgetsAtGap(rows: seq<Row>, n: nat, k: Key)
    requires n < |rows|
    ensures ValueOf(Remembered(rows, n, k)) == if Gap(rows, n) then None else ValueOf(Last(rows, n, k))
  {
    hide Gap, Last;
  }

  lemma ChangeTells(rows: seq<Row>, n: nat, k: Key)
    requires n < |rows|
    ensures ValueOf(Last(rows, n + 1, k)) ==
            if ChangeAt(rows, n, k).Some? then Some(ChangeAt(rows, n, k).value.after)
            else if FieldOf(rows[n], k).Unread? && !Partial(rows[n], k) then None
            else ValueOf(Remembered(rows, n, k))
  {
    hide Partial, Gap, Compare, FieldOf, SeenBefore, Remembered;
  }

  lemma ReplayStep(rows: seq<Row>, ts: seq<Transition>, n: nat, k: Key)
    requires n < |rows|
    requires Reported(ts, n, k) == ChangeAt(rows, n, k)
    requires Replayed(rows, ts, n, k) == ValueOf(Last(rows, n, k))
    ensures Replayed(rows, ts, n + 1, k) == ValueOf(Last(rows, n + 1, k))
  {
    ChangeTells(rows, n, k);
    ForgetsAtGap(rows, n, k);
    hide Partial, Gap, Reported, FieldOf, ChangeAt, Last, ValueOf, Remembered;
  }

  /** Replaying the transitions rebuilds the last values of every key. */
  lemma {:induction false} ReplayRebuilds(rows: seq<Row>, n: nat, k: Key)
    requires n <= |rows|
    ensures Replayed(rows, Transitions(rows, |rows|), n, k) == ValueOf(Last(rows, n, k))
    decreases n
  {
    hide Transitions, Reported, ChangeAt, Gap, Partial, FieldOf;
    if n > 0 {
      ReplayRebuilds(rows, n - 1, k);
      ReportedExact(rows, |rows|, n - 1, k);
      ReplayStep(rows, Transitions(rows, |rows|), n - 1, k);
    }
  }

  /* ---- device_history's loop over a session ---- */

  /** A first sight of a state that is already an error. */
  predicate ErrorAtFirst(rows: seq<Row>, n: nat)
    requires n < |rows|
  {
    ErrorOf(rows, n, WorkState) || ErrorOf(rows, n, HmsCode)
  }

  predicate ErrorOf(rows: seq<Row>, n: nat, k: Key)
    requires n < |rows|
  {
    && FirstSightOf(rows, n, k)
    && ((k == WorkState && rows[n].work.raw == Number(4))
        || (k == HmsCode && HasError(Compare(rows[n].hms.raw))))
  }

  predicate FirstSightOf(rows: seq<Row>, n: nat, k: Key)
    requires n < |rows|
  {
    FieldOf(rows[n], k).Read? && Remembered(rows, n, k).None?
  }

  predicate HasError(v: Value) {
    v.Codes? && exists c :: c in v.codes && c % 0x100 in {3, 4}
  }

  /** What the loop's maps hold about one key. */
  predicate Holds(last: map<Key, Seen>, k: Key, s: Option<Seen>) {
    (k in last <==> s.Some?) && (k in last ==> last[k] == s.value)
  }

  /** The inner loop's turn for one key: what it does to last_values and last_evidence, and the change
      it notes. */
  method LookAt(rows: seq<Row>, n: nat, k: Key, last: map<Key, Seen>, seen: set<Key>)
      returns (newLast: map<Key, Seen>, newSeen: set<Key>, change: Option<Change>, error: bool)
    requires n < |rows| && Holds(last, k, Remembered(rows, n, k)) && (k in seen <==> SeenBefore(rows, n, k))
    ensures Holds(newLast, k, Last(rows, n + 1, k)) && (k in newSeen <==> SeenBefore(rows, n + 1, k))
    ensures forall x :: x != k ==> (x in newLast <==> x in last) && (x in newSeen <==> x in seen)
    ensures forall x :: x != k && x in last ==> newLast[x] == last[x]
    ensures change == ChangeAt(rows, n, k)
    ensures error <==> ErrorOf(rows, n, k)
  {
    hide Gap;
    var field := FieldOf(rows[n], k);
    newLast, newSeen, change, error := last, seen, None, false;
    if field.Unread? {
      if !Partial(rows[n], k) {
        newLast := last - {k};
      }
      return;
    }
    var compare := Compare(field.raw);
    if k !in last {
      change := Some(Change(None, compare, if k !in seen then FirstObserved else ObservedAfterGap, None, n));
      error := (k == WorkState && compare == Plain(4)) || (k == HmsCode && HasError(compare));
    } else if compare != last[k].value {
      change := Some(Change(Some(last[k].value), compare, ObservedChange, Some(last[k].at), n));
    }
    newLast := last[k := Seen(compare, n)];
    newSeen := seen + {k};
    assert FieldOf(rows[n], k).Read?;
  }

  function Place(k: Key): (i: nat)
    ensures i < |KEYS| && KEYS[i] == k
  {
    match k
    case WorkState => 0
    case HmsCode => 1
    case SyncType => 2
    case PowerupCount => 3
  }

  /** Key `k` in the inner loop, behind the first `i` keys. */
  ghost predicate KeyOk(rows: seq<Row>, n: nat, i: nat, k: Key,
                        last: map<Key, Seen>, seen: set<Key>, changes: map<Key, Change>)
    requires n < |rows|
  {
    && Holds(last, k, if Place(k) < i then Last(rows, n + 1, k) else Remembered(rows, n, k))
    && (k in seen <==> SeenBefore(rows, if Place(k) < i then n + 1 else n, k))
    && (k in changes <==> Place(k) < i && ChangeAt(rows, n, k).Some?)
    && (k in changes ==> changes[k] == ChangeAt(rows, n, k).value)
  }

  ghost predicate KeysOk(rows: seq<Row>, n: nat, i: nat,
                         last: map<Key, Seen>, seen: set<Key>, changes: map<Key, Change>)
    requires n < |rows|
  {
    forall k: Key :: KeyOk(rows, n, i, k, last, seen, changes)
  }

  ghost predicate AllRemembered(rows: seq<Row>, n: nat, last: map<Key, Seen>, seen: set<Key>)
    requires n < |rows|
  {
    forall k: Key :: Holds(last, k, Remembered(rows, n, k)) && (k in seen <==> SeenBefore(rows, n, k))
  }

  ghost predicate AllLast(rows: seq<Row>, n: nat, last: map<Key, Seen>, seen: set<Key>)
    requires n <= |rows|
  {
    forall k: Key :: Holds(last, k, Last(rows, n, k)) && (k in seen <==> SeenBefore(rows, n, k))
  }

  lemma AllDone(rows: seq<Row>, n: nat, last: map<Key, Seen>, seen: set<Key>, changes: map<Key, Change>)
    requires n < |rows|
    requires KeysOk(rows, n, |KEYS|, last, seen, changes)
    ensures AllLast(rows, n + 1, last, seen) && changes == Changes(rows, n)
  {
    hide Remembered, SeenBefore, ChangeAt, Holds, Partial, FieldOf;
    var next := n + 1;
    assert AllLast(rows, next, last, seen) by {
      forall k: Key
        ensures Holds(last, k, Last(rows, next, k)) && (k in seen <==> SeenBefore(rows, next, k))
      {
        assert KeyOk(rows, n, |KEYS|, k, last, seen, changes);
      }
    }
    forall k: Key
      ensures k in changes <==> k in Changes(rows, n)
      ensures k in changes ==> changes[k] == Changes(rows, n)[k]
    {
      assert KeyOk(rows, n, |KEYS|, k, last, seen, changes);
      assert KEYS[Place(k)] == k;
    }
  }

  /** A gap makes the fold forget. */
  lemma EnterRow(rows: seq<Row>, n: nat, before: map<Key, Seen>, last: map<Key, Seen>, seen: set<Key>)
    requires n < |rows| && AllLast(rows, n, before, seen)
    requires last == if Gap(rows, n) then map[] else before
    ensures AllRemembered(rows, n, last, seen)
  {
    hide Gap, SeenBefore, Partial, FieldOf;
    forall k: Key
      ensures Holds(last, k, Remembered(rows, n, k)) && (k in seen <==> SeenBefore(rows, n, k))
    {
      assert Holds(before, k, Last(rows, n, k));
    }
  }

  lemma NoneDone(rows: seq<Row>, n: nat, last: map<Key, Seen>, seen: set<Key>)
    requires n < |rows| && AllRemembered(rows, n, last, seen)
    ensures KeysOk(rows, n, 0, last, seen, map[])
  {
    hide Remembered, Last, SeenBefore, ChangeAt, Holds;
  }

  /** Only the first two keys can be errors. */
  lemma FirstKeys(rows: seq<Row>, n: nat)
    requires n < |rows|
    ensures ErrorAtFirst(rows, n) <==> exists j :: 0 <= j < |KEYS| && ErrorOf(rows, n, KEYS[j])
  {
    hide FirstSightOf;
    assert KEYS[0] == WorkState && KEYS[1] == HmsCode && KEYS[2] == SyncType && KEYS[3] == PowerupCount;
  }

  /** The inner loop's turn for the key at place `i`, with the change noted. */
  method LookAtPlace(rows: seq<Row>, n: nat, i: nat, last: map<Key, Seen>, seen: set<Key>, changes: map<Key, Change>)
      returns (newLast: map<Key, Seen>, newSeen: set<Key>, newChanges: map<Key, Change>, error: bool)
    requires n < |rows| && i < |KEYS|
    requires KeysOk(rows, n, i, last, seen, changes)
    ensures KeysOk(rows, n, i + 1, newLast, newSeen, newChanges)
    ensures error <==> ErrorOf(rows, n, KEYS[i])
  {
    hide Remembered, Last, SeenBefore, ChangeAt;
    var k := KEYS[i];
    assert Place(k) == i && KeyOk(rows, n, i, k, last, seen, changes);
    var change;
    newLast, newSeen, change, error := LookAt(rows, n, k, last, seen);
    newChanges := if change.Some? then changes[k := change.value] else changes;
    var next := i + 1;
    forall x: Key
      ensures KeyOk(rows, n, next, x, newLast, newSeen, newChanges)
    {
      assert KeyOk(rows, n, i, x, last, seen, changes);
      assert x != k ==> Place(x) != i;
    }
  }

  /** The inner loop over the four keys. */
  method LookAtRow(rows: seq<Row>, n: nat, last: map<Key, Seen>, seen: set<Key>)
      returns (newLast: map<Key, Seen>, newSeen: set<Key>, changes: map<Key, Change>, error: bool)
    requires n < |rows| && AllRemembered(rows, n, last, seen)
    ensures AllLast(rows, n + 1, newLast, newSeen)
    ensures changes == Changes(rows, n)
    ensures error <==> ErrorAtFirst(rows, n)
  {
    newLast, newSeen, changes, error := last, seen, map[], false;
    FirstKeys(rows, n);
    hide Gap, Remembered, Last, SeenBefore, ChangeAt, Holds, ErrorOf, ErrorAtFirst;
    assert KeysOk(rows, n, 0, last, seen, changes) by {
      hide *;
      NoneDone(rows, n, last, seen);
    }
    for i := 0 to |KEYS|
      invariant KeysOk(rows, n, i, newLast, newSeen, changes)
      invariant error <==> exists j :: 0 <= j < i && ErrorOf(rows, n, KEYS[j])
    {
      var e;
      newLast, newSeen, changes, e := LookAtPlace(rows, n, i, newLast, newSeen, changes);
      error := error || e;
    }
    AllDone(rows, n, newLast, newSeen, changes);
  }

  /** The fold: the transitions, the gaps and the last values of the session's rows. */
  method FoldSession(rows: seq<Row>)
      returns (transitions: seq<Transition>, gaps: seq<nat>, last: map<Key, Seen>, firstError: bool)
    ensures transitions == Transitions(rows, |rows|)
    ensures gaps == Gaps(rows, |rows|)
    ensures forall k: Key :: Holds(last, k, Last(rows, |rows|, k))
    ensures firstError <==> exists n: nat :: n < |rows| && ErrorAtFirst(rows, n)
  {
    transitions, gaps, last, firstError := [], [], map[], false;
    var seen: set<Key> := {};
    NothingSeen(rows);
    hide ErrorAtFirst, ChangeAt, Reasons, Remembered, Last, SeenBefore, Holds, Changes;
    for n := 0 to |rows|
      invariant transitions == Transitions(rows, n)
      invariant gaps == Gaps(rows, n)
      invariant AllLast(rows, n, last, seen)
      invariant firstError <==> exists m: nat :: m < n && ErrorAtFirst(rows, m)
    {
      ghost var lastBefore := last;
      var previous := if n == 0 then None else Some(rows[n - 1]);
      var discontinuity := previous.None?;
      var reasons := Reasons(previous, rows[n]);
      if reasons != [] {
        gaps := gaps + [n];
        discontinuity := true;
        last := map[];
      }
      assert previous == Before(rows, n);
      EnterRow(rows, n, lastBefore, last, seen);
      var changes, error;
      last, seen, changes, error := LookAtRow(rows, n, last, seen);
      firstError := firstError || error;
      if changes != map[] {
        transitions := transitions + [Transition(n, changes, !discontinuity)];
      }
    }
  }

  lemma NothingSeen(rows: seq<Row>)
    ensures AllLast(rows, 0, map[], {})
  {
  }

  /* ---- sessions ---- */

  /** A stored line: not readable as a row of this recorder, or a row of a session. */
  datatype Line = Broken | Good(session: string, row: Row)

  function Barriers(lines: seq<Line>, n: nat): nat
    requires n <= |lines|
  {
    if n == 0 then 0 else Barriers(lines, n - 1) + if lines[n - 1].Broken? then 1 else 0
  }

  /** The session's rows among the first `n` lines, each with the number of broken lines before it. */
  function SessionRows(lines: seq<Line>, n: nat, session: string): seq<Row>
    requires n <= |lines|
  {
    if n == 0 then []
    else if lines[n - 1].Good? && lines[n - 1].session == session then
      SessionRows(lines, n - 1, session) + [lines[n - 1].row.(barrier := Barriers(lines, n - 1))]
    else SessionRows(lines, n - 1, session)
  }

  /** Equal barriers mean that no broken line lies between two rows in the files. */
  lemma {:induction false} BarrierExactly(lines: seq<Line>, p: nat, q: nat)
    requires p <= q <= |lines|
    ensures Barriers(lines, p) <= Barriers(lines, q)
    ensures Barriers(lines, p) == Barriers(lines, q) <==> forall m :: p <= m < q ==> lines[m].Good?
    decreases q - p
  {
    if p < q {
      BarrierExactly(lines, p, q - 1);
    }
  }

  method Group(lines: seq<Line>) returns (sessions: map<string, seq<Row>>, barriers: nat, accepted: nat)
    ensures forall s :: s in sessions <==> SessionRows(lines, |lines|, s) != []
    ensures forall s :: s in sessions ==> sessions[s] == SessionRows(lines, |lines|, s)
    ensures barriers == Barriers(lines, |lines|) && accepted + barriers == |lines|
  {
    sessions, barriers, accepted := map[], 0, 0;
    for n := 0 to |lines|
      invariant forall s :: s in sessions <==> SessionRows(lines, n, s) != []
      invariant forall s :: s in sessions ==> sessions[s] == SessionRows(lines, n, s)
      invariant barriers == Barriers(lines, n) && accepted + barriers == n
    {
      var line := lines[n];
      if line.Broken? {
        barriers := barriers + 1;
      } else {
        var rows := if line.session in sessions then sessions[line.session] else [];
        sessions := sessions[line.session := rows + [line.row.(barrier := barriers)]];
        accepted := accepted + 1;
      }
    }
  }

  /* ---- the order of a session's rows ---- */

  predicate NotAfter(a: Row, b: Row) {
    a.seqNo < b.seqNo || (a.seqNo == b.seqNo && a.steady <= b.steady)
  }

  predicate InOrder(rows: seq<Row>) {
    forall i, j :: 0 <= i < j < |rows| ==> NotAfter(rows[i], rows[j])
  }

  /** Stable insertion from the right. */
  function Insert(rows: seq<Row>, r: Row): seq<Row> {
    if rows == [] || NotAfter(rows[|rows| - 1], r) then rows + [r]
    else Insert(rows[..|rows| - 1], r) + [rows[|rows| - 1]]
  }

  function SortRows(rows: seq<Row>): seq<Row> {
    if rows == [] then [] else Insert(SortRows(rows[..|rows| - 1]), rows[|rows| - 1])
  }

  lemma {:induction false} InsertKeeps(rows: seq<Row>, r: Row)
    ensures multiset(Insert(rows, r)) == multiset(rows) + multiset{r}
    decreases |rows|
  {
    hide NotAfter;
    if rows != [] {
      assert rows == rows[..|rows| - 1] + [rows[|rows| - 1]];
      InsertKeeps(rows[..|rows| - 1], r);
    }
  }

  lemma OrderedSnoc(rows: seq<Row>, last: Row)
    requires InOrder(rows) && forall i :: 0 <= i < |rows| ==> NotAfter(rows[i], last)
    ensures InOrder(rows + [last])
  {
    hide NotAfter;
  }

  lemma {:induction false} InsertSorts(rows: seq<Row>, r: Row)
    requires InOrder(rows)
    ensures InOrder(Insert(rows, r))
    decreases |rows|
  {
    if rows == [] || NotAfter(rows[|rows| - 1], r) {
      forall i | 0 <= i < |rows|
        ensures NotAfter(rows[i], r)
      {
        assert i < |rows| - 1 ==> NotAfter(rows[i], rows[|rows| - 1]);
      }
      OrderedSnoc(rows, r);
    } else {
      var front, last := rows[..|rows| - 1], rows[|rows| - 1];
      InsertSorts(front, r);
      InsertKeeps(front, r);
      var g := Insert(front, r);
      hide Insert;
      forall i | 0 <= i < |g|
        ensures NotAfter(g[i], last)
      {
        assert g[i] in multiset(g);
        assert g[i] != r ==> g[i] in front;
      }
      OrderedSnoc(g, last);
    }
  }

  /** The fold sees all rows of the session, in the order of their numbers. */
  lemma {:induction false} SortRowsSorts(rows: seq<Row>)
    ensures InOrder(SortRows(rows)) && multiset(SortRows(rows)) == multiset(rows)
    decreases |rows|
  {
    if rows != [] {
      var front, last := rows[..|rows| - 1], rows[|rows| - 1];
      assert rows == front + [last];
      SortRowsSorts(front);
      InsertSorts(SortRows(front), last);
      InsertKeeps(SortRows(front), last);
    }
  }

  /** The rows with one sort key, in order. */
  function WithKey(rows: seq<Row>, seqNo: nat, steady: nat): seq<Row> {
    if rows == [] then []
    else
      var last := rows[|rows| - 1];
      WithKey(rows[..|rows| - 1], seqNo, steady) + IfKey(last, seqNo, steady)
  }

  function IfKey(r: Row, seqNo: nat, steady: nat): seq<Row> {
    if r.seqNo == seqNo && r.steady == steady then [r] else []
  }

  lemma WithKeySnoc(rows: seq<Row>, r: Row, seqNo: nat, steady: nat)
    ensures WithKey(rows + [r], seqNo, steady) == WithKey(rows, seqNo, steady) + IfKey(r, seqNo, steady)
  {
    assert (rows + [r])[..|rows|] == rows;
  }

  /** Two rows with different keys may change places. */
  lemma Exchanged(rows: seq<Row>, a: Row, b: Row, seqNo: nat, steady: nat)
    requires !NotAfter(a, b)
    ensures rows + IfKey(a, seqNo, steady) + IfKey(b, seqNo, steady)
            == rows + IfKey(b, seqNo, steady) + IfKey(a, seqNo, steady)
  {
  }

  lemma {:induction false} InsertIsStable(rows: seq<Row>, r: Row, seqNo: nat, steady: nat)
    ensures WithKey(Insert(rows, r), seqNo, steady) == WithKey(rows + [r], seqNo, steady)
    decreases |rows|
  {
    hide WithKey, NotAfter;
    if rows != [] && !NotAfter(rows[|rows| - 1], r) {
      var front, last := rows[..|rows| - 1], rows[|rows| - 1];
      assert rows == front + [last];
      InsertIsStable(front, r, seqNo, steady);
      PastLast(Insert(front, r), front, last, r, seqNo, steady);
    }
  }

  lemma PastLast(inserted: seq<Row>, front: seq<Row>, last: Row, r: Row, seqNo: nat, steady: nat)
    requires WithKey(inserted, seqNo, steady) == WithKey(front + [r], seqNo, steady) && !NotAfter(last, r)
    ensures WithKey(inserted + [last], seqNo, steady) == WithKey(front + [last] + [r], seqNo, steady)
  {
    hide WithKey, NotAfter, IfKey;
    WithKeySnoc(inserted, last, seqNo, steady);
    WithKeySnoc(front, r, seqNo, steady);
    WithKeySnoc(front, last, seqNo, steady);
    WithKeySnoc(front + [last], r, seqNo, steady);
    Exchanged(WithKey(front, seqNo, steady), last, r, seqNo, steady);
  }

  /** Rows with equal keys stay in the order in which they were stored. */
  lemma {:induction false} SortRowsIsStable(rows: seq<Row>, seqNo: nat, steady: nat)
    ensures WithKey(SortRows(rows), seqNo, steady) == WithKey(rows, seqNo, steady)
    decreases |rows|
  {
    if rows != [] {
      var front, last := rows[..|rows| - 1], rows[|rows| - 1];
      assert rows == front + [last];
      SortRowsIsStable(front, seqNo, steady);
      hide Insert, WithKey;
      InsertAlike(SortRows(front), front, last, seqNo, steady);
    }
  }

  lemma InsertAlike(sorted: seq<Row>, rows: seq<Row>, r: Row, seqNo: nat, steady: nat)
    requires WithKey(sorted, seqNo, steady) == WithKey(rows, seqNo, steady)
    ensures WithKey(Insert(sorted, r), seqNo, steady) == WithKey(rows + [r], seqNo, steady)
  {
    hide Insert, WithKey, IfKey;
    InsertIsStable(sorted, r, seqNo, steady);
    WithKeySnoc(sorted, r, seqNo, steady);
    WithKeySnoc(rows, r, seqNo, steady);
  }

  /** The rows of a session as the fold sees them. */
  function Fold(lines: seq<Line>, session: string): seq<Row> {
    SortRows(SessionRows(lines, |lines|, session))
  }

  /** Row `r` of the session is stored in line `p`. */
  ghost predicate StoredIn(lines: seq<Line>, session: string, p: nat, r: Row) {
    p < |lines| && lines[p].Good? && lines[p].session == session && r == lines[p].row.(barrier := Barriers(lines, p))
  }

  ghost predicate Readable(lines: seq<Line>, p: nat, q: nat) {
    forall m :: p <= m < q && m < |lines| ==> lines[m].Good?
  }

  lemma {:induction false} SessionRowIsStored(lines: seq<Line>, n: nat, session: string, r: Row) returns (p: nat)
    requires n <= |lines| && r in SessionRows(lines, n, session)
    ensures p < n && StoredIn(lines, session, p, r)
    decreases n
  {
    if n > 0 && StoredIn(lines, session, n - 1, r) {
      p := n - 1;
    } else {
      p := SessionRowIsStored(lines, n - 1, session, r);
    }
  }

  lemma FoldedIsStored(lines: seq<Line>, session: string, i: nat)
    requires i < |Fold(lines, session)|
    ensures exists p: nat :: StoredIn(lines, session, p, Fold(lines, session)[i])
  {
    var rows := SessionRows(lines, |lines|, session);
    SortRowsSorts(rows);
    assert SortRows(rows)[i] in multiset(SortRows(rows));
    var p := SessionRowIsStored(lines, |lines|, session, SortRows(rows)[i]);
  }

  lemma BarrierReadable(lines: seq<Line>, p: nat, q: nat)
    requires p < |lines| && q < |lines| && Barriers(lines, p) == Barriers(lines, q)
    ensures Readable(lines, p, q) && Readable(lines, q, p)
  {
    if p <= q {
      BarrierExactly(lines, p, q);
    } else {
      BarrierExactly(lines, q, p);
    }
  }

  /** What an observed change in a session rests on: the two rows and all rows between them have
      consecutive numbers and come from one process that lost and failed no row in between. */
  lemma ObservedChangeRows(rows: seq<Row>, i: nat, j: nat, k: Key)
    requires j < |rows| && ChangeAt(rows, j, k).Some?
    requires ChangeAt(rows, j, k).value.kind == ObservedChange && ChangeAt(rows, j, k).value.beforeAt == Some(i)
    ensures i < j && rows[j].seqNo == rows[i].seqNo + (j - i)
    ensures rows[j].pid == rows[i].pid && rows[j].barrier == rows[i].barrier
    ensures forall m :: i <= m <= j ==> rows[m].dropped == rows[i].dropped && rows[m].errors == rows[i].errors
  {
    ObservedChangeExactly(rows, j, k, ChangeAt(rows, j, k).value);
    hide ChangeAt, Compare, Gap, Partial, FieldOf;
    assert Linked(rows, i, j, k);
    assert forall x :: i < x <= j ==> !Gap(rows, x);
    forall m | i <= m <= j
      ensures rows[m].dropped == rows[i].dropped && rows[m].errors == rows[i].errors
    {
      LinkedIsContiguous(rows, i, m);
    }
    LinkedIsContiguous(rows, i, j);
  }

  /** ... and in terms of the stored lines: both rows are stored, and no broken line lies between the
      two in the files. */
  lemma ObservedChangeEvidence(lines: seq<Line>, session: string, i: nat, j: nat, k: Key)
    requires var rows := Fold(lines, session);
             && j < |rows| && ChangeAt(rows, j, k).Some?
             && ChangeAt(rows, j, k).value.kind == ObservedChange && ChangeAt(rows, j, k).value.beforeAt == Some(i)
    ensures var rows := Fold(lines, session);
            && i < j && rows[j].seqNo == rows[i].seqNo + (j - i) && rows[j].pid == rows[i].pid
            && forall m :: i <= m <= j ==> rows[m].dropped == rows[i].dropped && rows[m].errors == rows[i].errors
    ensures exists p: nat :: StoredIn(lines, session, p, Fold(lines, session)[i])
    ensures exists q: nat :: StoredIn(lines, session, q, Fold(lines, session)[j])
    ensures forall p: nat, q: nat ::
              StoredIn(lines, session, p, Fold(lines, session)[i])
              && StoredIn(lines, session, q, Fold(lines, session)[j])
              ==> Readable(lines, p, q) && Readable(lines, q, p)
  {
    var rows := Fold(lines, session);
    ObservedChangeRows(rows, i, j, k);
    hide ChangeAt, Fold, Readable;
    FoldedIsStored(lines, session, i);
    FoldedIsStored(lines, session, j);
    forall p: nat, q: nat | StoredIn(lines, session, p, rows[i]) && StoredIn(lines, session, q, rows[j])
      ensures Readable(lines, p, q) && Readable(lines, q, p)
    {
      BarrierReadable(lines, p, q);
    }
  }
}
