/** The account of the frames offered to one ring: which were kept, and which met a full ring. */
module Account {
  import opened Frames

  /** Every frame offered, whether it was kept, and how many frames had been taken by then. */
  datatype Account = Account(offered: seq<Frame>, kept: seq<bool>, takenAt: seq<nat>)

  const EMPTY := Account([], [], [])

  function Note(a: Account, f: Frame, keep: bool, taken: nat): Account {
    Account(a.offered + [f], a.kept + [keep], a.takenAt + [taken])
  }

  /** The frames that were kept. */
  function Selected(fs: seq<Frame>, kept: seq<bool>): seq<Frame>
    requires |fs| == |kept|
  {
    if fs == [] then []
    else Selected(fs[..|fs| - 1], kept[..|fs| - 1]) + if kept[|fs| - 1] then [fs[|fs| - 1]] else []
  }

  function Count(kept: seq<bool>): nat {
    if kept == [] then 0 else Count(kept[..|kept| - 1]) + if kept[|kept| - 1] then 1 else 0
  }

  /** Frame `k` was kept exactly if the frames kept before it and not yet taken left room. */
  ghost predicate Judged(a: Account, k: nat, capacity: nat)
    requires k < |a.kept| == |a.takenAt|
  {
    && a.takenAt[k] <= Count(a.kept[..k])
    && (a.kept[k] <==> Count(a.kept[..k]) - a.takenAt[k] < capacity)
  }

  /** `entered` are all the frames that ever entered the ring: the offered ones but those, and only
      those, that met a full ring. */
  ghost predicate Tallied(a: Account, entered: seq<Frame>, capacity: nat) {
    && |a.kept| == |a.offered| == |a.takenAt|
    && entered == Selected(a.offered, a.kept)
    && forall k :: 0 <= k < |a.kept| ==> Judged(a, k, capacity)
  }

  lemma {:induction false} SelectedCount(fs: seq<Frame>, kept: seq<bool>)
    requires |fs| == |kept|
    ensures |Selected(fs, kept)| == Count(kept)
    decreases |fs|
  {
    if fs != [] {
      SelectedCount(fs[..|fs| - 1], kept[..|fs| - 1]);
    }
  }

  lemma SelectedSnoc(fs: seq<Frame>, kept: seq<bool>, f: Frame, keep: bool)
    requires |fs| == |kept|
    ensures Selected(fs + [f], kept + [keep]) == Selected(fs, kept) + if keep then [f] else []
  {
    assert (fs + [f])[..|fs|] == fs && (kept + [keep])[..|fs|] == kept;
  }

  /** An offer to a ring from which `taken` of the frames that entered it have been taken. */
  lemma NoteKeeps(a: Account, entered: seq<Frame>, capacity: nat, f: Frame, taken: nat)
    requires Tallied(a, entered, capacity) && taken <= |entered|
    ensures var keep := |entered| - taken < capacity;
            Tallied(Note(a, f, keep, taken), entered + if keep then [f] else [], capacity)
  {
    var keep := |entered| - taken < capacity;
    SelectedSnoc(a.offered, a.kept, f, keep);
    SelectedCount(a.offered, a.kept);
    hide Selected, Count;
    var n := Note(a, f, keep, taken);
    assert a.kept[..|a.kept|] == a.kept;
    forall k | 0 <= k < |n.kept|
      ensures Judged(n, k, capacity)
    {
      assert n.kept[..k] == a.kept[..k];
      assert k < |a.kept| ==> Judged(a, k, capacity);
    }
  }
}
