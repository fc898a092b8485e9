/** Which texts are numbers, section 6 of RFC 8259, and what ParseNumber makes of them
    (3rdparty/rapidjson/reader.h, ParseNumber). */
module NumberText {
  import opened Bytes
  import opened Digits
  import opened JsonEvents
  import opened JsonNumber

  /** number = [ minus ] int [ frac ] [ exp ] */
  datatype Literal = Literal(minus: bool, whole: Text, frac: Text, exp: Text)

  predicate AreDigits(t: Text) {
    forall k :: 0 <= k < |t| ==> 0x30 <= t[k] <= 0x39
  }

  predicate IsWhole(t: Text) {
    |t| > 0 && AreDigits(t) && (t[0] == 0x30 ==> |t| == 1)
  }

  predicate IsFrac(t: Text) {
    t == [] || (|t| >= 2 && t[0] == 0x2E && AreDigits(t[1..]))
  }

  predicate IsExp(t: Text) {
    t == [] ||
    (|t| >= 2 && t[0] in {0x45, 0x65} && (AreDigits(t[1..]) || (|t| >= 3 && t[1] in {0x2B, 0x2D} && AreDigits(t[2..]))))
  }

  predicate IsLiteral(l: Literal) {
    IsWhole(l.whole) && IsFrac(l.frac) && IsExp(l.exp)
  }

  function Sign(minus: bool): Text {
    if minus then [0x2D] else []
  }

  function Spelled(l: Literal): Text {
    Sign(l.minus) + l.whole + l.frac + l.exp
  }

  /** The unit behind the literal belongs to the number as well. */
  predicate GoesOn(l: Literal, c: Byte) {
    || (0x30 <= c <= 0x39 && !(l.whole == [0x30] && l.frac == [] && l.exp == []))
    || (c == 0x2E && l.frac == [] && l.exp == [])
    || (c in {0x45, 0x65} && l.exp == [])
  }

  function Magnitude(l: Literal): nat
    requires IsLiteral(l)
  {
    Value(l.whole, 0, |l.whole|)
  }

  /** Neither fraction nor exponent, and within the 64-bit integers. */
  predicate IsInteger(l: Literal)
    requires IsLiteral(l)
  {
    && l.frac == [] && l.exp == []
    && Magnitude(l) <= if l.minus then 0x8000_0000_0000_0000 else 0xFFFF_FFFF_FFFF_FFFF
  }

  /** The event for a literal: an integer as the narrowest type of its sign, anything else as its text. */
  function EventOf(l: Literal): Event
    requires IsLiteral(l)
  {
    var v: int := Magnitude(l);
    if !IsInteger(l) then Double(Spelled(l))
    else if l.minus then (if v <= 0x8000_0000 then Int(-v) else Int64(-v))
    else if v <= 0xFFFF_FFFF then Uint(v)
    else Uint64(v)
  }

  /* ---- the parts of a literal ---- */

  lemma WholeRead(s: Text, a: nat, t: Text)
    requires At(s, a, t) && IsWhole(t) && (IsDigit(Peek(s, a + |t|)) ==> t == [0x30])
    ensures IntEnd(s, a) == End(a + |t|) && Value(s, a, a + |t|) == Value(t, 0, |t|)
  {
    AtPeek(s, a, t, 0);
    ValueLocal(s, a, t, |t|);
    if t[0] != 0x30 {
      ScanDigitsIs(s, a, a + |t|);
    }
  }

  /** A run of digits, and no further digit behind it. */
  lemma RunRead(s: Text, i: nat, t: Text)
    requires At(s, i, t) && t != [] && AreDigits(t) && !IsDigit(Peek(s, i + |t|))
    ensures IsDigit(Peek(s, i)) && ScanDigits(s, i) == i + |t|
  {
    AtPeek(s, i, t, 0);
    assert forall k :: i <= k < i + |t| ==> s[k] == t[k - i];
    ScanDigitsIs(s, i, i + |t|);
  }

  lemma FracRead(s: Text, b: nat, t: Text)
    requires At(s, b, t) && IsFrac(t)
    requires if t == [] then Peek(s, b) != 0x2E else !IsDigit(Peek(s, b + |t|))
    ensures FracEnd(s, b) == End(b + |t|)
  {
    if t != [] {
      AtPeek(s, b, t, 0);
      assert t == [t[0]] + t[1..];
      AtSplit(s, b, [t[0]], t[1..]);
      RunRead(s, b + 1, t[1..]);
    }
  }

  lemma ExpRead(s: Text, c: nat, t: Text)
    requires At(s, c, t) && IsExp(t)
    requires if t == [] then Peek(s, c) !in {0x45, 0x65} else !IsDigit(Peek(s, c + |t|))
    ensures ExpEnd(s, c) == End(c + |t|)
  {
    if t != [] {
      AtPeek(s, c, t, 0);
      AtPeek(s, c, t, 1);
      var n := if AreDigits(t[1..]) then 1 else 2;
      assert n == 1 ==> t[1..][0] == t[1];
      assert t == t[..n] + t[n..];
      AtSplit(s, c, t[..n], t[n..]);
      RunRead(s, c + n, t[n..]);
    }
  }

  /** Where the parts of a literal stand. */
  lemma Parts(s: Text, i: nat, l: Literal)
    requires At(s, i, Spelled(l))
    ensures var a := i + |Sign(l.minus)|; var b := a + |l.whole|; var c := b + |l.frac|;
            && At(s, a, l.whole) && At(s, b, l.frac) && At(s, c, l.exp) && c + |l.exp| == i + |Spelled(l)|
            && (l.minus ==> Peek(s, i) == 0x2D)
  {
    var sign := Sign(l.minus);
    AtSplit(s, i, sign + l.whole + l.frac, l.exp);
    AtSplit(s, i, sign + l.whole, l.frac);
    AtSplit(s, i, sign, l.whole);
    if l.minus {
      AtPeek(s, i, sign, 0);
    }
  }

  /** What stands behind the integer part and behind the fraction. */
  lemma Behind(s: Text, i: nat, l: Literal)
    requires IsLiteral(l) && At(s, i, Spelled(l)) && !GoesOn(l, Peek(s, i + |Spelled(l)|))
    ensures var b := i + |Sign(l.minus)| + |l.whole|; var c := b + |l.frac|;
            && (IsDigit(Peek(s, b)) ==> l.whole == [0x30])
            && (if l.frac == [] then Peek(s, b) != 0x2E else !IsDigit(Peek(s, c)))
            && (if l.exp == [] then Peek(s, c) !in {0x45, 0x65} else !IsDigit(Peek(s, c + |l.exp|)))
  {
    hide Spelled, AreDigits, At;
    Parts(s, i, l);
    var b := i + |Sign(l.minus)| + |l.whole|;
    if l.frac != [] {
      AtPeek(s, b, l.frac, 0);
    }
    if l.exp != [] {
      AtPeek(s, b + |l.frac|, l.exp, 0);
    }
  }

  lemma NoSign(s: Text, i: nat, l: Literal)
    requires IsLiteral(l) && At(s, i, Spelled(l)) && !l.minus
    ensures Peek(s, i) != 0x2D
  {
    Parts(s, i, l);
    AtPeek(s, i, l.whole, 0);
  }

  lemma PartsRead(s: Text, a: nat, b: nat, c: nat, d: nat, l: Literal)
    requires IsLiteral(l) && b == a + |l.whole| && c == b + |l.frac| && d == c + |l.exp|
    requires At(s, a, l.whole) && At(s, b, l.frac) && At(s, c, l.exp)
    requires IsDigit(Peek(s, b)) ==> l.whole == [0x30]
    requires if l.frac == [] then Peek(s, b) != 0x2E else !IsDigit(Peek(s, c))
    requires if l.exp == [] then Peek(s, c) !in {0x45, 0x65} else !IsDigit(Peek(s, d))
    ensures a <= b <= c <= d <= |s|
    ensures IntEnd(s, a) == End(b) && FracEnd(s, b) == End(c) && ExpEnd(s, c) == End(d)
    ensures Value(s, a, b) == Magnitude(l)
  {
    hide IntEnd, FracEnd, ExpEnd, IsWhole, IsFrac, IsExp, Value, AllDigits, Peek;
    WholeRead(s, a, l.whole);
    FracRead(s, b, l.frac);
    ExpRead(s, c, l.exp);
  }

  /** Where ParseNumber finds the ends of the parts. */
  lemma EndsRead(s: Text, i: nat, l: Literal)
    requires IsLiteral(l) && At(s, i, Spelled(l)) && !GoesOn(l, Peek(s, i + |Spelled(l)|))
    ensures i <= |s| && l.minus == (Peek(s, i) == 0x2D)
    ensures var a := i + |Sign(l.minus)|; var b := a + |l.whole|; var c := b + |l.frac|; var d := c + |l.exp|;
            && a <= b <= c <= d <= |s|
            && IntEnd(s, a) == End(b) && FracEnd(s, b) == End(c) && ExpEnd(s, c) == End(d)
            && Value(s, a, b) == Magnitude(l)
  {
    hide IntEnd, FracEnd, ExpEnd, GoesOn, IsLiteral, Spelled, At, Value, Magnitude, Sign, Peek;
    Parts(s, i, l);
    Behind(s, i, l);
    if !l.minus {
      NoSign(s, i, l);
    }
    var a := i + |Sign(l.minus)|;
    var b := a + |l.whole|;
    var c := b + |l.frac|;
    PartsRead(s, a, b, c, c + |l.exp|, l);
  }

  lemma Length(l: Literal)
    ensures |Spelled(l)| == |Sign(l.minus)| + |l.whole| + |l.frac| + |l.exp|
  {
  }

  lemma Within(s: Text, i: nat, t: Text)
    requires At(s, i, t)
    ensures i + |t| <= |s| && s[i..i + |t|] == t
  {
  }

  /** A literal that the next unit does not continue is read to its end, as the event it stands for; one
      that is no integer and too big for a double is an error. */
  lemma LiteralIsRead(tooBig: Text -> bool, s: Text, i: nat, l: Literal)
    requires IsLiteral(l) && At(s, i, Spelled(l)) && !GoesOn(l, Peek(s, i + |Spelled(l)|))
    ensures i <= |s|
    ensures var r := ReadNumber(tooBig, s, i);
            if IsInteger(l) || !tooBig(Spelled(l)) then r.NumberOk? && r.next == i + |Spelled(l)| && r.ev == EventOf(l)
            else r.NumberError?
  {
    hide IntEnd, FracEnd, ExpEnd, GoesOn, IsLiteral, Spelled, Value, Magnitude, At;
    EndsRead(s, i, l);
    Within(s, i, Spelled(l));
    Length(l);
  }

  /* ---- what is read is a literal ---- */

  lemma WholeFound(s: Text, a: nat)
    requires a <= |s| && IntEnd(s, a).End?
    ensures var b := IntEnd(s, a).at;
            a <= b <= |s| && IsWhole(s[a..b]) && (IsDigit(Peek(s, b)) ==> s[a..b] == [0x30])
  {
    assert s[a..IntEnd(s, a).at][0] == s[a];
  }

  lemma FracFound(s: Text, b: nat)
    requires b <= |s| && FracEnd(s, b).End?
    ensures var c := FracEnd(s, b).at;
            b <= c <= |s| && IsFrac(s[b..c])
            && (if b == c then Peek(s, b) != 0x2E else !IsDigit(Peek(s, c)))
  {
    var c := FracEnd(s, b).at;
    if b < c {
      assert s[b..c][0] == s[b] && s[b..c][1..] == s[b + 1..c];
    }
  }

  lemma ExpFound(s: Text, c: nat)
    requires c <= |s| && ExpEnd(s, c).End?
    ensures var d := ExpEnd(s, c).at;
            c <= d <= |s| && IsExp(s[c..d])
            && (if c == d then Peek(s, c) !in {0x45, 0x65} else !IsDigit(Peek(s, d)))
  {
    var d := ExpEnd(s, c).at;
    if c < d {
      var t := s[c..d];
      assert t[0] == s[c] && t[1] == s[c + 1] && t[1..] == s[c + 1..d];
      if IsSign(s[c + 1]) {
        assert t[2..] == s[c + 2..d];
      }
    }
  }

  /** The parts that ParseNumber has found. */
  lemma ReadEnds(tooBig: Text -> bool, s: Text, i: nat)
    requires i <= |s| && ReadNumber(tooBig, s, i).NumberOk?
    ensures var a := i + |Sign(Peek(s, i) == 0x2D)|;
            && a <= |s| && IntEnd(s, a).End? && FracEnd(s, IntEnd(s, a).at).End?
            && ExpEnd(s, FracEnd(s, IntEnd(s, a).at).at) == End(ReadNumber(tooBig, s, i).next)
  {
    hide IntEnd, FracEnd, ExpEnd, IntegerEvent, Value;
  }

  lemma ReadIsLiteral(tooBig: Text -> bool, s: Text, i: nat) returns (l: Literal)
    requires i <= |s| && ReadNumber(tooBig, s, i).NumberOk?
    ensures IsLiteral(l) && At(s, i, Spelled(l)) && ReadNumber(tooBig, s, i).next == i + |Spelled(l)|
    ensures !GoesOn(l, Peek(s, ReadNumber(tooBig, s, i).next))
  {
    hide IsWhole, IsFrac, IsExp, IntEnd, FracEnd, ExpEnd, ReadNumber;
    ReadEnds(tooBig, s, i);
    var minus := Peek(s, i) == 0x2D;
    var a := i + |Sign(minus)|;
    WholeFound(s, a);
    var b := IntEnd(s, a).at;
    FracFound(s, b);
    var c := FracEnd(s, b).at;
    ExpFound(s, c);
    var d := ExpEnd(s, c).at;
    l := Literal(minus, s[a..b], s[b..c], s[c..d]);
    SignAt(s, i);
    Joined(s, i, a, b, c, d);
    NothingGoesOn(s, a, b, c, d, l);
  }

  lemma SignAt(s: Text, i: nat)
    requires i <= |s|
    ensures var a := i + |Sign(Peek(s, i) == 0x2D)|; a <= |s| && s[i..a] == Sign(Peek(s, i) == 0x2D)
  {
  }

  lemma NothingGoesOn(s: Text, a: nat, b: nat, c: nat, d: nat, l: Literal)
    requires a <= b <= c <= d <= |s| && l == Literal(l.minus, s[a..b], s[b..c], s[c..d])
    requires IsDigit(Peek(s, b)) ==> l.whole == [0x30]
    requires if b == c then Peek(s, b) != 0x2E else !IsDigit(Peek(s, c))
    requires if c == d then Peek(s, c) !in {0x45, 0x65} else !IsDigit(Peek(s, d))
    ensures !GoesOn(l, Peek(s, d))
  {
  }

  lemma Joined(s: Text, i: nat, a: nat, b: nat, c: nat, d: nat)
    requires i <= a <= b <= c <= d <= |s|
    ensures s[i..d] == s[i..a] + s[a..b] + s[b..c] + s[c..d]
  {
    JoinedTwo(s, i, a, b);
    JoinedTwo(s, i, b, c);
    JoinedTwo(s, i, c, d);
  }

  lemma JoinedTwo(s: Text, a: nat, b: nat, c: nat)
    requires a <= b <= c <= |s|
    ensures s[a..b] + s[b..c] == s[a..c]
  {
  }

  /** The literal stands at `i`, ends at `j` and stands for `ev`. */
  ghost predicate Reads(tooBig: Text -> bool, s: Text, i: nat, j: nat, ev: Event, l: Literal) {
    && IsLiteral(l) && At(s, i, Spelled(l)) && j == i + |Spelled(l)| && !GoesOn(l, Peek(s, j))
    && ev == EventOf(l) && (IsInteger(l) || !tooBig(Spelled(l)))
  }

  lemma NumberReads(tooBig: Text -> bool, s: Text, i: nat) returns (l: Literal)
    requires i <= |s| && ReadNumber(tooBig, s, i).NumberOk?
    ensures var r := ReadNumber(tooBig, s, i); Reads(tooBig, s, i, r.next, r.ev, l)
  {
    hide ReadNumber, EventOf, GoesOn, IsLiteral, Spelled, At, IsInteger;
    l := ReadIsLiteral(tooBig, s, i);
    LiteralIsRead(tooBig, s, i, l);
  }

  lemma ReadsNumber(tooBig: Text -> bool, s: Text, i: nat, j: nat, ev: Event, l: Literal)
    requires Reads(tooBig, s, i, j, ev, l)
    ensures i <= |s| && ReadNumber(tooBig, s, i) == NumberOk(j, ev)
  {
    hide ReadNumber, EventOf, GoesOn, IsLiteral, Spelled, At, IsInteger;
    LiteralIsRead(tooBig, s, i, l);
  }

  /** Exactly the literals of the grammar are read as numbers, each to its end, and each as the event it
      stands for: the sign, the fraction and the exponent of a floating literal are all there. */
  lemma NumberExactly(tooBig: Text -> bool, s: Text, i: nat, j: nat, ev: Event)
    requires i <= |s|
    ensures ReadNumber(tooBig, s, i) == NumberOk(j, ev) <==> exists l :: Reads(tooBig, s, i, j, ev, l)
  {
    hide ReadNumber, Reads;
    if ReadNumber(tooBig, s, i) == NumberOk(j, ev) {
      var l := NumberReads(tooBig, s, i);
    }
    if l :| Reads(tooBig, s, i, j, ev, l) {
      ReadsNumber(tooBig, s, i, j, ev, l);
    }
  }
}
