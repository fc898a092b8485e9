/** The latch of active faults in the heartbeat (src/functional_safety_heartbeat.cpp) and the diagnostic
    snapshots that feed it (src/lidar_dtc_reporting.h, src/lidar_dtc_monitor.h, Codes). */
module Heartbeat {
  import opened Monitor

  const ROLES: nat := 4

  /** The last two categories describe history, not current faults. */
  const CURRENT: nat := 9

  const CODES: seq<seq<nat>> := [
    [0x110476C4, 0x110476C5, 0x110476C7, 0x110476C8, 0x110476CB, 0x110476CC,
     0x110476CD, 0x110476CE, 0x110476CF, 0x110476D0, 0x110476D1],
    [0x11037660, 0x11037661, 0x11037663, 0x11037664, 0x11037667, 0x11037668,
     0x11037669, 0x1103766A, 0x1103766B, 0x1103766C, 0x1103766D],
    [0x11017598, 0x11017599, 0x1101759B, 0x1101759C, 0x1101759F, 0x110175A0,
     0x110175A1, 0x110175A2, 0x110175A3, 0x110175A4, 0x110175A5],
    [0x110275FC, 0x110275FD, 0x110275FF, 0x11027600, 0x11027603, 0x11027604,
     0x11027605, 0x11027606, 0x11027607, 0x11027608, 0x11027609]]

  function Code(role: nat, category: nat): nat
    requires role < ROLES && category < CATEGORIES
  {
    CODES[role][category]
  }

  /** A role's codes lie close above the first of them. */
  lemma CodeRange(role: nat, category: nat)
    requires role < ROLES && category < CATEGORIES
    ensures Code(role, 0) + category <= Code(role, category) <= Code(role, 0) + 13
    ensures forall c :: 0 <= c < category ==> Code(role, c) < Code(role, category)
  {
  }

  /** No two categories, of one lidar or of two, share a code. */
  lemma CodesDistinct(role: nat, category: nat, role': nat, category': nat)
    requires role < ROLES && category < CATEGORIES && role' < ROLES && category' < CATEGORIES
    requires role != role' || category != category'
    ensures Code(role, category) != Code(role', category') && Code(role, category) != 0
  {
    CodeRange(role, category);
    CodeRange(role', category');
  }

  /** The first code of each role: front, rear, left and right. */
  const BASES: seq<nat> := [0x110476C4, 0x11037660, 0x11017598, 0x110275FC]

  /** How far above the first code the code of a category lies, the same for every role. */
  const OFFSETS: seq<nat> := [0, 1, 3, 4, 7, 8, 9, 10, 11, 12, 13]

  lemma CodeIs(role: nat, category: nat)
    requires role < ROLES && category < CATEGORIES
    ensures Code(role, category) == BASES[role] + OFFSETS[category]
  {
    assert role in {0, 1, 2, 3};
    assert category in {0, 1, 2, 3, 4, 5, 6, 7, 8, 9, 10};
  }

  const ETHERNET_HISTORY: nat := 9
  const SYNC_HISTORY: nat := 10

  /* ---- the latch ---- */

  function Elements(s: seq<nat>): set<nat> {
    set x | x in s
  }

  /** A pass clears, a failure sets, a failure wins, and zero is no fault. */
  function Updated(faults: set<nat>, failed: seq<nat>, passed: seq<nat>): set<nat> {
    (faults - Elements(passed)) + (Elements(failed) - {0})
  }

  datatype Snapshot = Snapshot(role: nat, conditions: seq<Condition>)

  predicate Proper(s: Snapshot) {
    s.role < ROLES && |s.conditions| == CATEGORIES
  }

  /** The codes of the current categories that are in a condition. */
  function CodesIn(s: Snapshot, condition: Condition, n: nat): seq<nat>
    requires Proper(s) && n <= CATEGORIES
  {
    if n == 0 then []
    else if n - 1 < CURRENT && s.conditions[n - 1] == condition then
      CodesIn(s, condition, n - 1) + [Code(s.role, n - 1)]
    else CodesIn(s, condition, n - 1)
  }

  lemma {:induction false} CodesInExact(s: Snapshot, condition: Condition, n: nat, x: nat)
    requires Proper(s) && n <= CATEGORIES
    ensures x in CodesIn(s, condition, n) <==>
            exists c :: 0 <= c < n && c < CURRENT && s.conditions[c] == condition && Code(s.role, c) == x
    decreases n
  {
    if n > 0 {
      CodesInExact(s, condition, n - 1, x);
      hide Code;
    }
  }

  function Latched(faults: set<nat>, s: Snapshot): set<nat>
    requires Proper(s)
  {
    Updated(faults, CodesIn(s, Fail, CATEGORIES), CodesIn(s, Pass, CATEGORIES))
  }

  predicate AllProper(run: seq<Snapshot>) {
    forall k :: 0 <= k < |run| ==> Proper(run[k])
  }

  /** The active faults after a run of snapshots. */
  function Active(run: seq<Snapshot>): set<nat>
    requires AllProper(run)
  {
    if run == [] then {} else Latched(Active(run[..|run| - 1]), run[|run| - 1])
  }

  /** Snapshot `k` reports a failure of the category, and no later one of that lidar reports a pass. */
  ghost predicate FailedLast(run: seq<Snapshot>, role: nat, category: nat, k: nat)
    requires AllProper(run) && category < CATEGORIES
  {
    && k < |run| && run[k].role == role && run[k].conditions[category] == Fail
    && forall j :: k < j < |run| && run[j].role == role ==> run[j].conditions[category] != Pass
  }

  lemma LatchedCode(faults: set<nat>, s: Snapshot, role: nat, category: nat)
    requires Proper(s) && role < ROLES && category < CATEGORIES
    ensures var x := Code(role, category);
            x in Latched(faults, s) <==>
            if s.role == role && category < CURRENT && s.conditions[category] == Fail then true
            else if s.role == role && category < CURRENT && s.conditions[category] == Pass then false
            else x in faults
  {
    var x := Code(role, category);
    CodesInExact(s, Fail, CATEGORIES, x);
    CodesInExact(s, Pass, CATEGORIES, x);
    forall c | 0 <= c < CATEGORIES && (s.role != role || c != category)
      ensures Code(s.role, c) != x
    {
      CodesDistinct(s.role, c, role, category);
    }
    CodesDistinct(role, category, role, if category == 0 then 1 else 0);
    hide Code, CodesIn;
  }

  /** Over any run: the fault of a category other than the two histories is active exactly if some snapshot of
      that lidar reported its failure and none since has reported a pass; unknown conditions, other categories
      and other lidars neither set nor clear it. */
  lemma {:induction false} ActiveExactly(run: seq<Snapshot>, role: nat, category: nat)
    requires AllProper(run) && role < ROLES && category < CATEGORIES
    requires category != ETHERNET_HISTORY && category != SYNC_HISTORY
    ensures Code(role, category) in Active(run) <==> exists k: nat :: FailedLast(run, role, category, k)
    decreases |run|
  {
    if run != [] {
      var n := |run| - 1;
      ActiveExactly(run[..n], role, category);
      LatchedCode(Active(run[..n]), run[n], role, category);
      hide Code, Latched;
      assert forall k :: 0 <= k < n ==> run[..n][k] == run[k];
      if run[n].role == role && run[n].conditions[category] == Fail {
        assert FailedLast(run, role, category, n);
      }
      forall k: nat | k < n && !(run[n].role == role && run[n].conditions[category] == Pass)
        ensures FailedLast(run, role, category, k) <==> FailedLast(run[..n], role, category, k)
      {
      }
    }
  }

  /** History categories never become faults. */
  lemma {:induction false} HistoryNeverActive(run: seq<Snapshot>, role: nat, category: nat)
    requires AllProper(run) && role < ROLES && category in {ETHERNET_HISTORY, SYNC_HISTORY}
    ensures Code(role, category) !in Active(run)
    decreases |run|
  {
    if run != [] {
      HistoryNeverActive(run[..|run| - 1], role, category);
      LatchedCode(Active(run[..|run| - 1]), run[|run| - 1], role, category);
      hide Code, Latched;
    }
  }

  /** Nothing but the codes of current categories ever becomes a fault. */
  lemma {:induction false} OnlyCodesActive(run: seq<Snapshot>, x: nat)
    requires AllProper(run) && x in Active(run)
    ensures exists role: nat, category: nat ::
              role < ROLES && category < ETHERNET_HISTORY && Code(role, category) == x
    decreases |run|
  {
    var s := run[|run| - 1];
    CodesInExact(s, Fail, CATEGORIES, x);
    hide Code, CodesIn;
    if x in Active(run[..|run| - 1]) {
      OnlyCodesActive(run[..|run| - 1], x);
    }
  }

  /* ---- the publisher ---- */

  predicate Sorted(s: seq<nat>) {
    forall i, j :: 0 <= i < j < |s| ==> s[i] < s[j]
  }

  datatype Message = Message(seqNo: nat, workSeq: nat, activeFault: seq<nat>)

  function Advance(n: nat): nat {
    (n + 1) % 0x1_0000_0000
  }

  lemma SortedSnoc(r: seq<nat>, x: nat)
    requires Sorted(r) && forall y :: y in Elements(r) ==> y < x
    ensures Sorted(r + [x]) && Elements(r + [x]) == Elements(r) + {x}
  {
    forall i | 0 <= i < |r|
      ensures r[i] < x
    {
      assert r[i] in Elements(r);
    }
  }

  /** `r` is sorted and below all of `rest`. */
  ghost predicate Below(r: seq<nat>, rest: set<nat>) {
    Sorted(r) && forall x, y :: x in Elements(r) && y in rest ==> x < y
  }

  lemma BelowStep(r: seq<nat>, rest: set<nat>, least: nat)
    requires Below(r, rest) && least in rest && forall y :: y in rest ==> least <= y
    ensures Below(r + [least], rest - {least})
    ensures Elements(r + [least]) + (rest - {least}) == Elements(r) + rest
  {
    SortedSnoc(r, least);
    hide Sorted, Elements;
  }

  /** The elements of a set in ascending order, as iterating over it yields them. */
  method InOrder(s: set<nat>) returns (r: seq<nat>)
    ensures Sorted(r) && Elements(r) == s
  {
    r := [];
    var rest := s;
    assert Below(r, rest) && Elements(r) == {};
    while rest != {}
      invariant Below(r, rest) && Elements(r) + rest == s
      decreases |rest|
    {
      hide Below, Elements;
      var least := Least(rest);
      BelowStep(r, rest, least);
      r := r + [least];
      rest := rest - {least};
    }
  }

  method Least(s: set<nat>) returns (m: nat)
    requires s != {}
    ensures m in s && forall x :: x in s ==> m <= x
  {
    m :| m in s;
    var rest := s - {m};
    while rest != {}
      invariant m in s && rest <= s && forall x :: x in s ==> x in rest || m <= x
      decreases |rest|
    {
      var x :| x in rest;
      if x < m {
        m := x;
      }
      rest := rest - {x};
    }
  }

  class HeartbeatPublisher {
    var activeFaults: set<nat>
    var heartbeatSeq: nat
    var workSeq: nat
    var published: seq<Message>

    constructor ()
      ensures activeFaults == {} && heartbeatSeq == 0 && workSeq == 0 && published == []
    {
      activeFaults, heartbeatSeq, workSeq, published := {}, 0, 0, [];
    }

    method UpdateFaults(failed: seq<nat>, passed: seq<nat>)
      modifies `activeFaults
      ensures activeFaults == Updated(old(activeFaults), failed, passed)
    {
      for k := 0 to |passed|
        invariant activeFaults == old(activeFaults) - Elements(passed[..k])
      {
        assert passed[..k + 1] == passed[..k] + [passed[k]];
        activeFaults := activeFaults - {passed[k]};
      }
      assert passed[..|passed|] == passed && failed[..|failed|] == failed;
      for k := 0 to |failed|
        invariant activeFaults == (old(activeFaults) - Elements(passed)) + (Elements(failed[..k]) - {0})
      {
        assert failed[..k + 1] == failed[..k] + [failed[k]];
        if failed[k] != 0 {
          activeFaults := activeFaults + {failed[k]};
        }
      }
    }

    method RecordWork()
      modifies `workSeq
      ensures workSeq == Advance(old(workSeq))
    {
      workSeq := Advance(workSeq);
    }

    /** Every message carries the next number and the whole set of active faults, sorted. */
    method PublishNow()
      modifies `heartbeatSeq, `published
      ensures heartbeatSeq == Advance(old(heartbeatSeq))
      ensures |published| == |old(published)| + 1 && published[..|published| - 1] == old(published)
      ensures var m := published[|published| - 1];
              m.seqNo == heartbeatSeq && m.workSeq == workSeq
              && Sorted(m.activeFault) && Elements(m.activeFault) == activeFaults
    {
      heartbeatSeq := Advance(heartbeatSeq);
      var faults := InOrder(activeFaults);
      published := published + [Message(heartbeatSeq, workSeq, faults)];
    }

    /** PublishDiagnosticSnapshot, as far as it feeds the latch. */
    method PublishDiagnosticSnapshot(s: Snapshot)
      requires Proper(s)
      modifies `activeFaults
      ensures activeFaults == Latched(old(activeFaults), s)
    {
      var failed, passed: seq<nat> := [], [];
      for i := 0 to CATEGORIES
        invariant failed == CodesIn(s, Fail, i) && passed == CodesIn(s, Pass, i)
      {
        if i >= CATEGORIES - 2 { continue; }
        if s.conditions[i] == Fail {
          failed := failed + [Code(s.role, i)];
        }
        if s.conditions[i] == Pass {
          passed := passed + [Code(s.role, i)];
        }
      }
      UpdateFaults(failed, passed);
    }
  }
}
