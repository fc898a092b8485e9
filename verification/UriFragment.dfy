/** Which URI fragments are JSON pointers (3rdparty/rapidjson/pointer.h, Parse with '#' in front). */
module UriFragment {
  import opened Bytes
  import opened JsonPointer
  import Utf8

  /** A '~' as itself or percent-encoded, and behind it '0' or '1' as itself. */
  predicate EscapeUnit(u: Text) {
    || (|u| == 2 && u[0] == TILDE && u[1] in {ZERO, ONE})
    || (|u| == 4 && Triplet(u, 0) == TILDE && u[3] in {ZERO, ONE})
  }

  /** A percent-encoded UTF-8 character other than '~'. */
  predicate CodedUnit(u: Text) {
    var p := PercentText(u, 0);
    |u| == 3 * |p| && Utf8.Utf8Char(p) && p != [TILDE]
  }

  /** An unreserved character other than '~'. */
  predicate PlainUnit(u: Text) {
    |u| == 1 && !NeedPercentEncode(u[0]) && u[0] != TILDE
  }

  predicate IsUnit(u: Text) {
    EscapeUnit(u) || CodedUnit(u) || PlainUnit(u)
  }

  /** From `i` on there are only units and '/'. */
  ghost predicate Units(s: Text, i: nat)
    requires i <= |s|
    decreases |s| - i
  {
    || i == |s|
    || (s[i] == SOLIDUS && Units(s, i + 1))
    || exists j :: i < j <= |s| && IsUnit(s[i..j]) && Units(s, j)
  }

  /* ---- percent-decoding a part of a text ---- */

  function Take(t: Text, n: nat): Text {
    if |t| <= n then t else t[..n]
  }

  lemma TripletLocal(s: Text, i: nat, n: nat, j: nat)
    requires i + n <= |s| && j + 3 <= n
    ensures Triplet(s[i..i + n], j) == Triplet(s, i + j)
  {
    var u := s[i..i + n];
    assert u[j] == s[i + j] && u[j + 1] == s[i + j + 1] && u[j + 2] == s[i + j + 2];
  }

  lemma PercentEnd(u: Text, a: nat)
    requires a == |u|
    ensures PercentText(u, a) == []
  {
  }

  lemma TakeNone(t: Text)
    ensures Take(t, 0) == []
  {
  }

  lemma PercentStep(u: Text, a: nat, s: Text, b: nat, n: nat)
    requires 0 < n && Triplet(u, a) == Triplet(s, b)
    requires PercentText(u, a + 3) == Take(PercentText(s, b + 3), n - 1)
    ensures PercentText(u, a) == Take(PercentText(s, b), n)
  {
    hide Triplet;
  }

  lemma {:induction false} PercentLocal(s: Text, i: nat, m: nat, j: nat)
    requires j <= m && i + 3 * m <= |s|
    ensures PercentText(s[i..i + 3 * m], 3 * j) == Take(PercentText(s, i + 3 * j), m - j)
    decreases m - j
  {
    hide Triplet, Take;
    if j < m {
      var u, a, b := s[i..i + 3 * m], 3 * j, i + 3 * j;
      TripletLocal(s, i, 3 * m, a);
      PercentLocal(s, i, m, j + 1);
      assert 3 * (j + 1) == a + 3 && i + 3 * (j + 1) == b + 3;
      PercentStep(u, a, s, b, m - j);
    } else {
      PercentEnd(s[i..i + 3 * m], 3 * j);
      TakeNone(PercentText(s, i + 3 * j));
    }
  }

  /** The first `m` triplets of a text, taken by themselves. */
  lemma PercentPrefix(s: Text, i: nat, m: nat)
    requires i + 3 * m <= |s|
    ensures PercentText(s[i..i + 3 * m], 0) == Take(PercentText(s, i), m)
  {
    PercentLocal(s, i, m, 0);
  }

  /* ---- units are what NextUnit reads ---- */

  lemma CodedFirst(u: Text)
    requires CodedUnit(u)
    ensures |u| >= 3 && u[0] == PERCENT
  {
  }

  lemma EscapeRead(s: Text, i: nat, n: nat)
    requires i + n <= |s| && EscapeUnit(s[i..i + n])
    ensures NextUnit(s, i, true).Unit? && NextUnit(s, i, true).next == i + n
  {
    var u := s[i..i + n];
    assert u[0] == s[i] && u[n - 1] == s[i + n - 1];
    if n == 4 {
      TripletLocal(s, i, 4, 0);
      var p := PercentText(s, i);
      assert p[0] == TILDE;
      assert p[..1] == [TILDE];
      Utf8.DecodeComplete(p, 0, [TILDE]);
      hide Utf8.Decode, PercentText;
    }
  }

  lemma CodedRead(s: Text, i: nat, n: nat)
    requires i + n <= |s| && CodedUnit(s[i..i + n])
    ensures NextUnit(s, i, true).Unit? && NextUnit(s, i, true).next == i + n
  {
    hide Utf8.Decode, PercentText, NeedPercentEncode;
    var u := s[i..i + n];
    CodedFirst(u);
    assert u[0] == s[i];
    var w, p := PercentText(u, 0), PercentText(s, i);
    PercentPrefix(s, i, |w|);
    assert p[0..0 + |w|] == w;
    Utf8.DecodeComplete(p, 0, w);
    assert p[0] == w[0];
    if |w| == 1 {
      assert w == [w[0]];
    }
  }

  lemma UnitRead(s: Text, i: nat, j: nat)
    requires i < j <= |s| && IsUnit(s[i..j])
    ensures s[i] != SOLIDUS && NextUnit(s, i, true).Unit? && NextUnit(s, i, true).next == j
  {
    var u, n := s[i..j], j - i;
    assert u[0] == s[i] && i + n == j;
    hide NextUnit, EscapeUnit, CodedUnit;
    if EscapeUnit(u) {
      EscapeRead(s, i, n);
    } else if CodedUnit(u) {
      CodedRead(s, i, n);
    } else {
      PlainRead(s, i);
    }
    NextIsName(s, i);
  }

  lemma PlainRead(s: Text, i: nat)
    requires i < |s| && !NeedPercentEncode(s[i]) && s[i] != TILDE
    ensures NextUnit(s, i, true).Unit? && NextUnit(s, i, true).next == i + 1
  {
  }

  lemma NextIsName(s: Text, i: nat)
    ensures NextUnit(s, i, true).Unit? ==> i < |s| && s[i] != SOLIDUS
  {
  }

  /** What NextUnit reads at a '%'. */
  lemma CodedNext(s: Text, i: nat)
    requires i < |s| && s[i] == PERCENT && NextUnit(s, i, true).Unit?
    ensures var p := PercentText(s, i); var d := Utf8.Decode(p, 0);
            && d.ok && 1 <= d.next <= |p| && i + 3 * |p| <= |s|
            && (if d.next == 1 && p[0] == TILDE then
                  i + 4 <= |s| && s[i + 3] in {ZERO, ONE} && NextUnit(s, i, true).next == i + 4
                else NextUnit(s, i, true).next == i + 3 * d.next)
  {
    PercentTextLength(s, i);
    hide PercentText, Utf8.Decode, NeedPercentEncode;
    Utf8.DecodeSound(PercentText(s, i), 0);
  }

  lemma TildeIsUnit(s: Text, i: nat)
    requires i + 4 <= |s| && s[i + 3] in {ZERO, ONE} && Triplet(s, i) == TILDE
    ensures EscapeUnit(s[i..i + 4])
  {
    TripletLocal(s, i, 4, 0);
  }

  lemma CharIsUnit(s: Text, i: nat, m: nat)
    requires i + 3 * m <= |s| && m <= |PercentText(s, i)|
    requires Utf8.Utf8Char(PercentText(s, i)[..m]) && PercentText(s, i)[..m] != [TILDE]
    ensures CodedUnit(s[i..i + 3 * m])
  {
    hide PercentText;
    PercentPrefix(s, i, m);
  }

  lemma CodedIsUnit(s: Text, i: nat)
    requires i < |s| && s[i] == PERCENT && NextUnit(s, i, true).Unit?
    ensures i <= NextUnit(s, i, true).next <= |s| && IsUnit(s[i..NextUnit(s, i, true).next])
  {
    CodedNext(s, i);
    var p := PercentText(s, i);
    var m := Utf8.Decode(p, 0).next;
    Utf8.DecodeSound(p, 0);
    assert p[0..m] == p[..m];
    hide NextUnit, Utf8.Decode, EscapeUnit, CodedUnit, PlainUnit, Triplet;
    if m == 1 && p[0] == TILDE {
      TildeIsUnit(s, i);
    } else {
      assert p[..m][0] == p[0];
      CharIsUnit(s, i, m);
    }
  }

  lemma ReadIsUnit(s: Text, i: nat)
    requires NextUnit(s, i, true).Unit?
    ensures i < NextUnit(s, i, true).next <= |s| && IsUnit(s[i..NextUnit(s, i, true).next])
  {
    var next := NextUnit(s, i, true).next;
    if s[i] == PERCENT {
      CodedIsUnit(s, i);
    } else if s[i] == TILDE {
      assert s[i..next] == [s[i], s[i + 1]];
    } else {
      assert s[i..next] == [s[i]];
    }
  }

  /* ---- whole texts ---- */

  lemma UnitsStep(s: Text, i: nat)
    requires i < |s| && s[i] != SOLIDUS
    ensures var u := NextUnit(s, i, true); Units(s, i) <==> u.Unit? && Units(s, u.next)
  {
    var u := NextUnit(s, i, true);
    hide NextUnit, IsUnit;
    if u.Unit? && Units(s, u.next) {
      ReadIsUnit(s, i);
    }
    if Units(s, i) {
      var j :| i < j <= |s| && IsUnit(s[i..j]) && Units(s, j);
      UnitRead(s, i, j);
    }
  }

  lemma {:induction false} NameUnits(s: Text, i: nat)
    requires i <= |s|
    ensures var n := ReadName(s, i, true); Units(s, i) <==> n.Name? && Units(s, n.next)
    decreases |s| - i
  {
    if i < |s| && s[i] != SOLIDUS {
      UnitsStep(s, i);
      NextIsName(s, i);
      var u := NextUnit(s, i, true);
      hide Units, NextUnit;
      if u.Unit? {
        NameUnits(s, u.next);
      }
    } else {
      EndOfName(s, i, true);
    }
  }

  lemma SolidusStep(s: Text, i: nat)
    requires i < |s| && s[i] == SOLIDUS
    ensures Units(s, i) <==> Units(s, i + 1)
  {
    forall j | i < j <= |s| && IsUnit(s[i..j])
      ensures false
    {
      UnitRead(s, i, j);
    }
  }

  lemma {:induction false} TokensUnits(s: Text, i: nat)
    requires i <= |s| && (i == |s| || s[i] == SOLIDUS)
    ensures ReadTokens(s, i, true).Tokens? <==> Units(s, i)
    decreases |s| - i
  {
    if i < |s| {
      SolidusStep(s, i);
      var next := i + 1;
      NameUnits(s, next);
      var n := ReadName(s, next, true);
      hide Units, ReadName, IndexOf;
      if n.Name? {
        TokensUnits(s, n.next);
      }
    }
  }

  /** Exactly these fragments are pointers: behind the '#' nothing, or a '/' and then only '/', unreserved
      characters, percent-encoded UTF-8 characters, and "~0" and "~1", of which the '~' may be
      percent-encoded but not the digit. */
  lemma FragmentParsesExactly(s: Text)
    requires Peek(s, 0) == HASH
    ensures Parse(s).Tokens? <==> (|s| == 1 || s[1] == SOLIDUS) && Units(s, 1)
  {
    if |s| == 1 || s[1] == SOLIDUS {
      TokensUnits(s, 1);
    }
  }
}
