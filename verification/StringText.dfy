/** Which texts are string literals, section 7 of RFC 8259, and what the reader makes of them
    (3rdparty/rapidjson/reader.h, ParseStringToStream and ParseHex4). */
module StringText {
  import opened Bytes
  import opened JsonString
  import Utf8

  /** The value of every hexadecimal digit, in either case. */
  const HEX: map<Byte, nat> := map[
    0x30 := 0, 0x31 := 1, 0x32 := 2, 0x33 := 3, 0x34 := 4, 0x35 := 5, 0x36 := 6, 0x37 := 7, 0x38 := 8, 0x39 := 9,
    0x41 := 10, 0x42 := 11, 0x43 := 12, 0x44 := 13, 0x45 := 14, 0x46 := 15,
    0x61 := 10, 0x62 := 11, 0x63 := 12, 0x64 := 13, 0x65 := 14, 0x66 := 15]

  /** What a backslash and a letter stand for. */
  const LETTERS: map<Byte, Byte> := map[
    0x22 := 0x22, 0x5C := 0x5C, 0x2F := 0x2F, 0x62 := 0x08, 0x66 := 0x0C, 0x6E := 0x0A, 0x72 := 0x0D, 0x74 := 0x09]

  /** A character as it stands, an escape of one letter, four hexadecimal digits, or a surrogate pair. */
  datatype Unit = Raw(c: Byte) | Letter(c: Byte) | Code(hex: Text) | Pair(lead: Text, trail: Text)

  predicate IsHex4(t: Text) {
    |t| == 4 && t[0] in HEX && t[1] in HEX && t[2] in HEX && t[3] in HEX
  }

  function Number(t: Text): nat
    requires IsHex4(t)
  {
    HEX[t[0]] * 4096 + HEX[t[1]] * 256 + HEX[t[2]] * 16 + HEX[t[3]]
  }

  predicate IsUnit(u: Unit) {
    match u
    case Raw(c) => c >= 0x20 && c != 0x22 && c != 0x5C
    case Letter(c) => c in LETTERS
    case Code(h) => IsHex4(h) && !(0xD800 <= Number(h) <= 0xDBFF)
    case Pair(a, b) => IsHex4(a) && IsHex4(b) && 0xD800 <= Number(a) <= 0xDBFF && 0xDC00 <= Number(b) <= 0xDFFF
  }

  function Spelled(u: Unit): Text {
    match u
    case Raw(c) => [c]
    case Letter(c) => [0x5C, c]
    case Code(h) => [0x5C, 0x75] + h
    case Pair(a, b) => [0x5C, 0x75] + a + ([0x5C, 0x75] + b)
  }

  lemma DigitBound(c: Byte)
    ensures c in HEX ==> HEX[c] <= 15
  {
  }

  lemma HexBound(t: Text)
    requires IsHex4(t)
    ensures Number(t) <= 0xFFFF
  {
    DigitBound(t[0]);
    DigitBound(t[1]);
    DigitBound(t[2]);
    DigitBound(t[3]);
    Below(HEX[t[0]], HEX[t[1]], HEX[t[2]], HEX[t[3]]);
  }

  lemma Below(a: nat, b: nat, c: nat, d: nat)
    requires a <= 15 && b <= 15 && c <= 15 && d <= 15
    ensures a * 4096 + b * 256 + c * 16 + d <= 0xFFFF
  {
  }

  function Meaning(u: Unit): Text
    requires IsUnit(u)
  {
    match u
    case Raw(c) => [c]
    case Letter(c) => [LETTERS[c]]
    case Code(h) => HexBound(h); Utf8.Encode(Number(h))
    case Pair(a, b) => Utf8.Encode(0x10000 + (Number(a) - 0xD800) * 0x400 + (Number(b) - 0xDC00))
  }

  predicate AllUnits(us: seq<Unit>) {
    forall k :: 0 <= k < |us| ==> IsUnit(us[k])
  }

  function SpelledAll(us: seq<Unit>): Text {
    if us == [] then [] else Spelled(us[0]) + SpelledAll(us[1..])
  }

  function MeaningAll(us: seq<Unit>): Text
    requires AllUnits(us)
  {
    if us == [] then [] else Meaning(us[0]) + MeaningAll(us[1..])
  }

  /* ---- digits and letters ---- */

  lemma DigitIs(c: Byte)
    ensures HexValue(c) == if c in HEX then HEX[c] else -1
  {
  }

  lemma LetterIs(c: Byte)
    ensures Unescaped(c) == if c in LETTERS then LETTERS[c] else 0
    ensures c in LETTERS ==> LETTERS[c] != 0 && c != 0x75
  {
  }

  /** Four hexadecimal digits are read as the number they spell. */
  lemma HexRead(s: Text, i: nat, t: Text)
    requires IsHex4(t) && At(s, i, t)
    ensures ReadHex4(s, i) == Hex4(Number(t))
  {
    hide ReadHex4, HexValue;
    AtPeek(s, i, t, 0);
    AtPeek(s, i, t, 1);
    AtPeek(s, i, t, 2);
    AtPeek(s, i, t, 3);
    DigitIs(t[0]);
    DigitIs(t[1]);
    DigitIs(t[2]);
    DigitIs(t[3]);
    ReadFour(s, i, HEX[t[0]], HEX[t[1]], HEX[t[2]], HEX[t[3]]);
  }

  /** Nothing else is read. */
  lemma HexFound(s: Text, i: nat)
    requires ReadHex4(s, i).Hex4? && i <= |s|
    ensures i + 4 <= |s| && IsHex4(s[i..i + 4]) && ReadHex4(s, i) == Hex4(Number(s[i..i + 4]))
  {
    HexAllFour(s, i);
    hide ReadHex4, HexValue;
    DigitIs(s[i]);
    DigitIs(s[i + 1]);
    DigitIs(s[i + 2]);
    DigitIs(s[i + 3]);
    var t := s[i..i + 4];
    assert t[0] == s[i] && t[1] == s[i + 1] && t[2] == s[i + 2] && t[3] == s[i + 3];
    HexRead(s, i, t);
  }

  lemma HexAllFour(s: Text, i: nat)
    requires ReadHex4(s, i).Hex4? && i <= |s|
    ensures i + 4 <= |s|
    ensures HexValue(s[i]) >= 0 && HexValue(s[i + 1]) >= 0 && HexValue(s[i + 2]) >= 0 && HexValue(s[i + 3]) >= 0
  {
    hide HexValue;
    var a, b, c := HexValue(Peek(s, i)), HexValue(Peek(s, i + 1)), HexValue(Peek(s, i + 2));
    if a >= 0 {
      HexRunStep(s, i, 3, 0, a);
      if b >= 0 {
        HexRunStep(s, i + 1, 2, a, b);
        if c >= 0 {
          HexRunStep(s, i + 2, 1, a * 16 + b, c);
        }
      }
    }
  }

  /* ---- one unit ---- */

  lemma CodeRead(s: Text, i: nat, u: Unit)
    requires u.Code? && IsUnit(u) && At(s, i, Spelled(u))
    ensures NextPiece(s, i) == More(Meaning(u), i + |Spelled(u)|)
  {
    hide ReadHex4, Utf8.Encode, IsHex4, Number;
    AtPeek(s, i, Spelled(u), 0);
    AtPeek(s, i, Spelled(u), 1);
    AtSplit(s, i, [0x5C, 0x75], u.hex);
    HexRead(s, i + 2, u.hex);
    LetterIs(0x75);
    HexLength(u.hex);
  }

  lemma HexLength(t: Text)
    requires IsHex4(t)
    ensures |t| == 4
  {
  }

  lemma PairRead(s: Text, i: nat, u: Unit)
    requires u.Pair? && IsUnit(u) && At(s, i, Spelled(u))
    ensures NextPiece(s, i) == More(Meaning(u), i + |Spelled(u)|)
  {
    hide ReadHex4, Utf8.Encode, IsHex4, Number, At;
    HexLength(u.lead);
    HexLength(u.trail);
    var first, second := [0x5C, 0x75] + u.lead, [0x5C, 0x75] + u.trail;
    AtSplit(s, i, first, second);
    AtPeek(s, i, first, 0);
    AtPeek(s, i, first, 1);
    AtSplit(s, i, [0x5C, 0x75], u.lead);
    AtPeek(s, i + 6, second, 0);
    AtPeek(s, i + 6, second, 1);
    AtSplit(s, i + 6, [0x5C, 0x75], u.trail);
    HexRead(s, i + 2, u.lead);
    HexRead(s, i + 8, u.trail);
    LetterIs(0x75);
  }

  /** A unit is read as what it means. */
  lemma UnitRead(s: Text, i: nat, u: Unit)
    requires IsUnit(u) && At(s, i, Spelled(u))
    ensures NextPiece(s, i) == More(Meaning(u), i + |Spelled(u)|)
  {
    match u
    case Raw(c) => AtPeek(s, i, [c], 0);
    case Letter(c) =>
      AtPeek(s, i, Spelled(u), 0);
      AtPeek(s, i, Spelled(u), 1);
      LetterIs(c);
    case Code(_) => CodeRead(s, i, u);
    case Pair(_, _) => PairRead(s, i, u);
  }

  lemma SliceOfTwo(s: Text, i: nat, j: nat)
    requires i + 2 <= j <= |s|
    ensures s[i..j] == [s[i], s[i + 1]] + s[i + 2..j]
  {
  }

  lemma JoinedTwo(s: Text, a: nat, b: nat, c: nat)
    requires a <= b <= c <= |s|
    ensures s[a..b] + s[b..c] == s[a..c]
  {
  }

  /** Whatever follows a backslash and a 'u'. */
  lemma UnicodeFound(s: Text, i: nat) returns (u: Unit)
    requires i + 2 <= |s| && s[i] == 0x5C && s[i + 1] == 0x75 && UnicodeEscape(s, i).More?
    ensures IsUnit(u) && At(s, i, Spelled(u)) && UnicodeEscape(s, i).next == i + |Spelled(u)|
  {
    hide ReadHex4, Utf8.Encode, IsHex4, Number;
    HexFound(s, i + 2);
    var lead := s[i + 2..i + 6];
    SliceOfTwo(s, i, i + 6);
    if 0xD800 <= Number(lead) <= 0xDBFF {
      assert s[i + 6] == 0x5C && s[i + 7] == 0x75;
      HexFound(s, i + 8);
      u := Pair(lead, s[i + 8..i + 12]);
      SliceOfTwo(s, i + 6, i + 12);
      JoinedTwo(s, i, i + 6, i + 12);
    } else {
      u := Code(lead);
    }
  }

  /** What is read is a unit. */
  lemma UnitFound(s: Text, i: nat) returns (u: Unit)
    requires NextPiece(s, i).More?
    ensures IsUnit(u) && At(s, i, Spelled(u)) && NextPiece(s, i) == More(Meaning(u), i + |Spelled(u)|)
  {
    hide UnicodeEscape, Meaning, Unescaped;
    if s[i] != 0x5C {
      u := Raw(s[i]);
      assert s[i..i + 1] == [s[i]];
    } else {
      LetterIs(Peek(s, i + 1));
      if Unescaped(Peek(s, i + 1)) != 0 {
        u := Letter(s[i + 1]);
        assert s[i..i + 2] == [s[i], s[i + 1]];
      } else {
        u := UnicodeFound(s, i);
      }
    }
    UnitRead(s, i, u);
  }

  /* ---- whole literals ---- */

  lemma {:induction false} LiteralRead(s: Text, i: nat, us: seq<Unit>)
    requires AllUnits(us) && At(s, i, SpelledAll(us) + [0x22])
    ensures i <= |s| && ReadString(s, i) == StringOk(i + |SpelledAll(us)| + 1, MeaningAll(us))
    decreases |us|
  {
    hide NextPiece, Spelled, Meaning, IsUnit;
    if us == [] {
      AtPeek(s, i, [0x22], 0);
      ReadClose(s, i);
    } else {
      var t, rest := Spelled(us[0]), SpelledAll(us[1..]);
      Associative(t, rest, [0x22]);
      AtSplit(s, i, t, rest + [0x22]);
      UnitRead(s, i, us[0]);
      LiteralRead(s, i + |t|, us[1..]);
      hide SpelledAll, At;
      ReadOn(s, i);
    }
  }

  lemma ReadOn(s: Text, i: nat)
    requires i <= |s| && NextPiece(s, i).More? && ReadString(s, NextPiece(s, i).next).StringOk?
    ensures var p := NextPiece(s, i); var r := ReadString(s, p.next);
            ReadString(s, i) == StringOk(r.next, p.bytes + r.bytes)
  {
    hide NextPiece;
  }

  lemma {:induction false} LiteralFound(s: Text, i: nat) returns (us: seq<Unit>)
    requires i <= |s| && ReadString(s, i).StringOk?
    ensures AllUnits(us) && At(s, i, SpelledAll(us) + [0x22])
    decreases |s| - i
  {
    hide NextPiece, Spelled, Meaning, IsUnit;
    if NextPiece(s, i).Close? {
      us := [];
      Closing(s, i);
    } else {
      var u := UnitFound(s, i);
      var next := NextPiece(s, i).next;
      var rest := LiteralFound(s, next);
      us := [u] + rest;
      Prepended(s, i, u, rest);
    }
  }

  lemma Closing(s: Text, i: nat)
    requires NextPiece(s, i).Close?
    ensures At(s, i, [] + [0x22])
  {
    assert s[i..i + 1] == [0x22];
  }

  lemma Prepended(s: Text, i: nat, u: Unit, rest: seq<Unit>)
    requires At(s, i, Spelled(u)) && At(s, i + |Spelled(u)|, SpelledAll(rest) + [0x22])
    ensures At(s, i, SpelledAll([u] + rest) + [0x22])
  {
    var t, v := Spelled(u), SpelledAll(rest) + [0x22];
    JoinedTwo(s, i, i + |t|, i + |t| + |v|);
    assert ([u] + rest)[1..] == rest;
    Associative(t, SpelledAll(rest), [0x22]);
  }

  /** The literal from behind its opening quote: units, the closing quote, and what the units mean. */
  ghost predicate Reads(s: Text, i: nat, j: nat, b: Text, us: seq<Unit>) {
    AllUnits(us) && At(s, i, SpelledAll(us) + [0x22]) && j == i + |SpelledAll(us)| + 1 && b == MeaningAll(us)
  }

  /** Exactly the literals of the grammar are read, each to its closing quote and as the bytes it means:
      escapes of one letter, four hexadecimal digits in either case, and surrogate pairs. */
  lemma StringExactly(s: Text, i: nat, j: nat, b: Text)
    requires i <= |s|
    ensures ReadString(s, i) == StringOk(j, b) <==> exists us :: Reads(s, i, j, b, us)
  {
    hide ReadString, SpelledAll, MeaningAll, AllUnits, At;
    if ReadString(s, i) == StringOk(j, b) {
      var us := LiteralFound(s, i);
      LiteralRead(s, i, us);
      assert Reads(s, i, j, b, us);
    }
    if us :| Reads(s, i, j, b, us) {
      LiteralRead(s, i, us);
    }
  }

  /* ---- what is printed ---- */

  lemma {:induction false} EscapeConcat(a: Text, b: Text)
    ensures Escape(a + b) == Escape(a) + Escape(b)
    decreases |a|
  {
    hide EscapeByte;
    if a == [] {
      assert a + b == b;
    } else {
      assert (a + b)[0] == a[0] && (a + b)[1..] == a[1..] + b;
      EscapeConcat(a[1..], b);
      Associative(EscapeByte(a[0]), Escape(a[1..]), Escape(b));
    }
  }

  lemma {:induction false} HighCopied(b: Text)
    requires forall k :: 0 <= k < |b| ==> b[k] >= 0x80
    ensures Escape(b) == b
    decreases |b|
  {
    if b != [] {
      HighCopied(b[1..]);
      assert EscapeByte(b[0]) == [b[0]] && b == [b[0]] + b[1..];
    }
  }

  lemma OneEscaped(c: Byte)
    ensures Escape([c]) == EscapeByte(c) && |EscapeByte(c)| <= 6
  {
    assert [c][1..] == [];
  }

  lemma EncodedIsShort(cp: nat)
    requires cp <= 0x10FFFF
    ensures |Escape(Utf8.Encode(cp))| <= 6
  {
    if cp <= 0x7F {
      OneEscaped(cp);
    } else {
      HighCopied(Utf8.Encode(cp));
    }
  }

  /** No spelling of a unit is shorter than what the writer prints for it. */
  lemma UnitIsLonger(u: Unit)
    requires IsUnit(u)
    ensures |Escape(Meaning(u))| <= |Spelled(u)|
  {
    hide Escape, Utf8.Encode, Number, IsHex4;
    if u.Raw? {
      RawIsShort(u.c);
    } else if u.Letter? {
      LetterIsShort(u.c);
    } else if u.Code? {
      HexBound(u.hex);
      HexLength(u.hex);
      EncodedIsShort(Number(u.hex));
    } else {
      HexLength(u.lead);
      HexLength(u.trail);
      EncodedIsShort(0x10000 + (Number(u.lead) - 0xD800) * 0x400 + (Number(u.trail) - 0xDC00));
    }
  }

  lemma RawIsShort(c: Byte)
    requires c >= 0x20 && c != 0x22 && c != 0x5C
    ensures |Escape([c])| == 1
  {
    OneEscaped(c);
  }

  lemma LetterIsShort(c: Byte)
    requires c in LETTERS
    ensures |Escape([LETTERS[c]])| <= 2
  {
    OneEscaped(LETTERS[c]);
  }

  /** Of all literals that mean these bytes, the writer prints a shortest one. */
  lemma {:induction false} PrintedIsShortest(us: seq<Unit>)
    requires AllUnits(us)
    ensures |Quoted(MeaningAll(us))| <= |[0x22] + SpelledAll(us) + [0x22]|
    decreases |us|
  {
    assert Escape([]) == [];
    hide Escape, Meaning, Spelled, IsUnit;
    if us != [] {
      UnitIsLonger(us[0]);
      PrintedIsShortest(us[1..]);
      EscapeConcat(Meaning(us[0]), MeaningAll(us[1..]));
    }
  }
}
