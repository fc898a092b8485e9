/** JSON string literals: the reader's unescaping (3rdparty/rapidjson/reader.h) and the writer's
    escaping (3rdparty/rapidjson/writer.h), for UTF-8 output and for ASCII output. */
module JsonString {
  import opened Bytes
  import opened Wrappers
  import Utf8

  /* ---- hexadecimal digits ---- */

  /** The value of a hexadecimal digit, or -1. */
  function HexValue(c: Byte): (v: int)
    ensures -1 <= v < 16
  {
    if 0x30 <= c <= 0x39 then c - 0x30
    else if 0x41 <= c <= 0x46 then c - 0x41 + 10
    else if 0x61 <= c <= 0x66 then c - 0x61 + 10
    else -1
  }

  function HexDigit(v: nat): Byte
    requires v < 16
  {
    if v < 10 then 0x30 + v else 0x41 + v - 10
  }

  datatype Hex = HexError | Hex4(value: nat)

  function Pow16(k: nat): nat {
    match k case 0 => 1 case 1 => 16 case 2 => 256 case 3 => 4096 case _ => 65536
  }

  /** The value of the `n` hexadecimal digits at `i`, on top of the digits read so far. */
  function HexRun(s: Text, i: nat, n: nat, acc: nat): (h: Hex)
    requires n <= 4 && acc < Pow16(4 - n)
    ensures h.Hex4? ==> h.value <= 0xFFFF && (i <= |s| ==> i + n <= |s|)
    decreases n
  {
    if n == 0 then Hex4(acc) else
    var v := HexValue(Peek(s, i));
    if v < 0 then HexError else HexRun(s, i + 1, n - 1, acc * 16 + v)
  }

  function ReadHex4(s: Text, i: nat): Hex {
    HexRun(s, i, 4, 0)
  }

  function HexText(v: nat): Text
    requires v < 0x10000
  {
    [HexDigit(v / 4096), HexDigit(v / 256 % 16), HexDigit(v / 16 % 16), HexDigit(v % 16)]
  }

  lemma DigitValue(v: nat)
    requires v < 16
    ensures HexValue(HexDigit(v)) == v
  {
  }

  lemma Nibbles(v: nat)
    requires v < 0x10000
    ensures v / 4096 < 16
    ensures (((v / 4096) * 16 + v / 256 % 16) * 16 + v / 16 % 16) * 16 + v % 16 == v
  {
    assert v / 256 == v / 16 / 16 && v / 4096 == v / 256 / 16;
  }

  lemma ReadFour(s: Text, i: nat, a: nat, b: nat, c: nat, d: nat)
    requires a < 16 && b < 16 && c < 16 && d < 16
    requires HexValue(Peek(s, i)) == a && HexValue(Peek(s, i + 1)) == b
    requires HexValue(Peek(s, i + 2)) == c && HexValue(Peek(s, i + 3)) == d
    ensures ReadHex4(s, i) == Hex4(((a * 16 + b) * 16 + c) * 16 + d)
  {
    HexRunStep(s, i, 3, 0, a);
    HexRunStep(s, i + 1, 2, a, b);
    HexRunStep(s, i + 2, 1, a * 16 + b, c);
    HexRunStep(s, i + 3, 0, (a * 16 + b) * 16 + c, d);
    hide HexValue;
  }

  lemma ReadHexText(s: Text, i: nat, v: nat)
    requires v < 0x10000 && At(s, i, HexText(v))
    ensures ReadHex4(s, i) == Hex4(v)
  {
    hide HexValue, HexDigit, ReadHex4;
    var t := HexText(v);
    var a, b, c, d := v / 4096, v / 256 % 16, v / 16 % 16, v % 16;
    Nibbles(v);
    AtPeek(s, i, t, 0);
    AtPeek(s, i, t, 1);
    AtPeek(s, i, t, 2);
    AtPeek(s, i, t, 3);
    DigitValue(a);
    DigitValue(b);
    DigitValue(c);
    DigitValue(d);
    ReadFour(s, i, a, b, c, d);
  }

  lemma Pow16Step(k: nat, acc: nat, v: nat)
    requires k < 4 && acc < Pow16(k) && v < 16
    ensures acc * 16 + v < Pow16(k + 1)
  {
  }

  lemma HexRunStop(s: Text, i: nat, n: nat, acc: nat)
    requires n < 4 && acc < Pow16(3 - n) && HexValue(Peek(s, i)) < 0
    ensures HexRun(s, i, n + 1, acc) == HexError
  {
  }

  lemma HexRunStep(s: Text, i: nat, n: nat, acc: nat, v: nat)
    requires n < 4 && acc < Pow16(3 - n) && HexValue(Peek(s, i)) == v
    ensures HexRun(s, i, n + 1, acc) == HexRun(s, i + 1, n, acc * 16 + v)
  {
  }

  /** One turn of the loop, `i` digits being read. */
  lemma HexRunTurn(s: Text, at: nat, i: nat, acc: nat)
    requires i < 4 && acc < Pow16(i)
    ensures var v := HexValue(Peek(s, at));
            if v < 0 then HexRun(s, at, 4 - i, acc) == HexError
            else acc * 16 + v < Pow16(i + 1)
                 && HexRun(s, at, 4 - i, acc) == HexRun(s, at + 1, 4 - (i + 1), acc * 16 + v)
  {
    var v := HexValue(Peek(s, at));
    if v < 0 {
      HexRunStop(s, at, 3 - i, acc);
    } else {
      Pow16Step(i, acc, v);
      HexRunStep(s, at, 3 - i, acc, v);
    }
  }

  lemma HexRunDone(s: Text, i: nat)
    ensures forall acc: nat {:trigger HexRun(s, i, 0, acc)} :: acc < Pow16(4) ==> HexRun(s, i, 0, acc) == Hex4(acc)
  {
  }

  /* ---- reading ---- */

  /** The reader's escape table; 0 for everything that is not a one-letter escape. */
  function Unescaped(e: Byte): Byte {
    if e == QUOTE then QUOTE
    else if e == SOLIDUS then SOLIDUS
    else if e == BACKSLASH then BACKSLASH
    else if e == 0x62 then 0x08
    else if e == 0x66 then 0x0C
    else if e == 0x6E then LF
    else if e == 0x72 then CR
    else if e == 0x74 then TAB
    else 0
  }

  const LETTER_U: Byte := 0x75

  /** What the reader finds at one position of a string literal. */
  datatype Piece = Malformed | Close | More(bytes: Text, next: nat)

  function UnicodeEscape(s: Text, i: nat): (p: Piece)
    ensures p.More? && i + 2 <= |s| ==> i < p.next <= |s|
    ensures !p.Close?
  {
    match ReadHex4(s, i + 2)
    case HexError => Malformed
    case Hex4(lead) =>
      if !(0xD800 <= lead <= 0xDBFF) then More(Utf8.Encode(lead), i + 6)
      else if Peek(s, i + 6) != BACKSLASH || Peek(s, i + 7) != LETTER_U then Malformed
      else match ReadHex4(s, i + 8)
        case HexError => Malformed
        case Hex4(trail) =>
          if trail < 0xDC00 || trail > 0xDFFF then Malformed
          else More(Utf8.Encode((lead - 0xD800) * 1024 + (trail - 0xDC00) + 0x10000), i + 12)
  }

  function NextPiece(s: Text, i: nat): (p: Piece)
    ensures p.More? ==> i < p.next <= |s|
    ensures p.Close? ==> i < |s|
  {
    var c := Peek(s, i);
    if c == BACKSLASH then
      var e := Peek(s, i + 1);
      if Unescaped(e) != 0 then More([Unescaped(e)], i + 2)
      else if e == LETTER_U then UnicodeEscape(s, i)
      else Malformed
    else if c == QUOTE then Close
    else if c < 0x20 then Malformed
    else More([c], i + 1)
  }

  datatype StringResult = StringError | StringOk(next: nat, bytes: Text)

  /** Reading a literal from just behind its opening quote. */
  function ReadString(s: Text, i: nat): (r: StringResult)
    requires i <= |s|
    ensures r.StringOk? ==> i < r.next <= |s|
    decreases |s| - i
  {
    match NextPiece(s, i)
    case Malformed => StringError
    case Close => StringOk(i + 1, [])
    case More(piece, next) =>
      match ReadString(s, next)
      case StringError => StringError
      case StringOk(end, rest) => StringOk(end, piece + rest)
  }

  /* ---- writing ---- */

  /** The writer's escape table; 0 for a byte that is copied. */
  function EscapeLetter(c: Byte): Byte {
    if c == 0x08 then 0x62
    else if c == TAB then 0x74
    else if c == LF then 0x6E
    else if c == 0x0C then 0x66
    else if c == CR then 0x72
    else if c < 0x20 then LETTER_U
    else if c == QUOTE then QUOTE
    else if c == BACKSLASH then BACKSLASH
    else 0
  }

  function EscapeByte(c: Byte): Text {
    var e := EscapeLetter(c);
    if e == 0 then [c]
    else if e == LETTER_U then [BACKSLASH, LETTER_U, ZERO, ZERO, HexDigit(c / 16), HexDigit(c % 16)]
    else [BACKSLASH, e]
  }

  function Escape(b: Text): Text {
    if b == [] then [] else EscapeByte(b[0]) + Escape(b[1..])
  }

  function Quoted(b: Text): Text {
    [QUOTE] + Escape(b) + [QUOTE]
  }

  /** A code point as one `\u` escape, or as a surrogate pair. */
  function EscapeCodePoint(cp: nat): Text
    requires Utf8.IsScalar(cp)
  {
    if cp <= 0xFFFF then [BACKSLASH, LETTER_U] + HexText(cp)
    else
      var v := cp - 0x10000;
      [BACKSLASH, LETTER_U] + HexText(v / 1024 + 0xD800) + [BACKSLASH, LETTER_U] + HexText(v % 1024 + 0xDC00)
  }

  /** What an ASCII target gets for the character at position `k`. */
  function AsciiPiece(b: Text, k: nat): (p: Piece)
    requires k < |b|
    ensures p.More? ==> k < p.next <= |b|
    ensures !p.Close?
  {
    if b[k] >= 0x80 then
      var d := Utf8.Decode(b, k);
      if !d.ok then Malformed else
      Utf8.DecodeSound(b, k);
      More(EscapeCodePoint(d.cp), d.next)
    else More(EscapeByte(b[k]), k + 1)
  }

  /** The body of the literal for an ASCII target, from position `k`; None when a byte at or above
      0x80 does not start a well-formed character. */
  function EscapeAscii(b: Text, k: nat): Option<Text>
    requires k <= |b|
    decreases |b| - k
  {
    if k == |b| then Some([]) else
    match AsciiPiece(b, k)
    case More(piece, next) =>
      (match EscapeAscii(b, next)
       case None => None
       case Some(rest) => Some(piece + rest))
    case _ => None
  }

  /* ---- reading undoes writing ---- */

  lemma ReadEscapedByte(s: Text, i: nat, c: Byte)
    requires At(s, i, EscapeByte(c))
    ensures NextPiece(s, i) == More([c], i + |EscapeByte(c)|)
  {
    var t := EscapeByte(c);
    AtPeek(s, i, t, 0);
    if |t| == 2 {
      AtPeek(s, i, t, 1);
    } else if |t| == 6 {
      AtPeek(s, i, t, 1);
      assert t == [BACKSLASH, LETTER_U] + HexText(c);
      AtSplit(s, i, [BACKSLASH, LETTER_U], HexText(c));
      ReadHexText(s, i + 2, c);
    }
  }

  /** One unescaped piece in front of the rest of a literal. */
  lemma ReadPiece(s: Text, i: nat, piece: Text, next: nat, end: nat, rest: Text)
    requires i <= next <= |s| && NextPiece(s, i) == More(piece, next)
    requires ReadString(s, next) == StringOk(end, rest)
    ensures ReadString(s, i) == StringOk(end, piece + rest)
  {
  }

  lemma ReadClose(s: Text, i: nat)
    requires At(s, i, [QUOTE])
    ensures ReadString(s, i) == StringOk(i + 1, [])
  {
    AtPeek(s, i, [QUOTE], 0);
  }

  lemma {:induction false} ReadEscaped(s: Text, i: nat, b: Text)
    requires At(s, i, Escape(b) + [QUOTE])
    ensures ReadString(s, i) == StringOk(i + |Escape(b)| + 1, b)
    decreases |b|
  {
    hide EscapeByte, NextPiece;
    if b == [] {
      ReadClose(s, i);
    } else {
      var t := EscapeByte(b[0]);
      assert Escape(b) + [QUOTE] == t + (Escape(b[1..]) + [QUOTE]);
      AtSplit(s, i, t, Escape(b[1..]) + [QUOTE]);
      ReadEscapedByte(s, i, b[0]);
      ReadEscaped(s, i + |t|, b[1..]);
      ReadPiece(s, i, [b[0]], i + |t|, i + |Escape(b)| + 1, b[1..]);
      assert b == [b[0]] + b[1..];
    }
  }

  /** For every byte sequence and whatever follows the literal, reading gives the bytes back and
      stops right behind the closing quote. */
  lemma StringRoundTrip(prefix: Text, b: Text, suffix: Text)
    ensures ReadString(prefix + Quoted(b) + suffix, |prefix| + 1)
         == StringOk(|prefix| + |Quoted(b)|, b)
  {
    var s := prefix + Quoted(b) + suffix;
    assert s[|prefix| + 1..|prefix| + |Quoted(b)|] == Escape(b) + [QUOTE];
    ReadEscaped(s, |prefix| + 1, b);
  }

  lemma ReadUnicodeEscape(s: Text, i: nat, v: nat)
    requires v < 0x10000 && At(s, i, [BACKSLASH, LETTER_U] + HexText(v))
    ensures Peek(s, i) == BACKSLASH && Peek(s, i + 1) == LETTER_U && ReadHex4(s, i + 2) == Hex4(v)
    ensures NextPiece(s, i) == UnicodeEscape(s, i)
  {
    var head := [BACKSLASH, LETTER_U];
    AtSplit(s, i, head, HexText(v));
    AtPeek(s, i, head, 0);
    AtPeek(s, i, head, 1);
    ReadHexText(s, i + 2, v);
  }

  lemma ReadPair(s: Text, i: nat, lead: nat, trail: nat)
    requires 0xD800 <= lead <= 0xDBFF && 0xDC00 <= trail <= 0xDFFF
    requires ReadHex4(s, i + 2) == Hex4(lead) && ReadHex4(s, i + 8) == Hex4(trail)
    requires Peek(s, i + 6) == BACKSLASH && Peek(s, i + 7) == LETTER_U
    ensures UnicodeEscape(s, i)
         == More(Utf8.Encode((lead - 0xD800) * 1024 + (trail - 0xDC00) + 0x10000), i + 12)
  {
    hide ReadHex4, Utf8.Encode;
  }

  lemma EscapePair(cp: nat) returns (lead: nat, trail: nat)
    requires 0x10000 <= cp <= 0x10FFFF
    ensures 0xD800 <= lead <= 0xDBFF && 0xDC00 <= trail <= 0xDFFF
    ensures (lead - 0xD800) * 1024 + (trail - 0xDC00) + 0x10000 == cp
    ensures EscapeCodePoint(cp) == ([BACKSLASH, LETTER_U] + HexText(lead)) + ([BACKSLASH, LETTER_U] + HexText(trail))
  {
    hide HexText;
    lead, trail := (cp - 0x10000) / 1024 + 0xD800, (cp - 0x10000) % 1024 + 0xDC00;
  }

  lemma ReadShort(s: Text, i: nat, cp: nat)
    requires cp <= 0xFFFF && !(0xD800 <= cp <= 0xDBFF) && ReadHex4(s, i + 2) == Hex4(cp)
    ensures UnicodeEscape(s, i) == More(Utf8.Encode(cp), i + 6)
  {
    hide ReadHex4, Utf8.Encode;
  }

  lemma ReadEscapedLow(s: Text, i: nat, cp: nat)
    requires Utf8.IsScalar(cp) && cp <= 0xFFFF && At(s, i, EscapeCodePoint(cp))
    ensures NextPiece(s, i) == More(Utf8.Encode(cp), i + |EscapeCodePoint(cp)|)
  {
    hide HexText, HexRun, ReadHex4, Utf8.Encode, NextPiece, At, UnicodeEscape;
    ReadUnicodeEscape(s, i, cp);
    HexTextLength(cp);
    ReadShort(s, i, cp);
  }

  lemma ReadEscapedHigh(s: Text, i: nat, cp: nat)
    requires 0x10000 <= cp <= 0x10FFFF && At(s, i, EscapeCodePoint(cp))
    ensures NextPiece(s, i) == More(Utf8.Encode(cp), i + |EscapeCodePoint(cp)|)
  {
    hide HexText, HexRun, ReadHex4, Utf8.Encode, NextPiece, At, UnicodeEscape, EscapeCodePoint;
    var lead, trail := EscapePair(cp);
    var first, second := [BACKSLASH, LETTER_U] + HexText(lead), [BACKSLASH, LETTER_U] + HexText(trail);
    HexTextLength(lead);
    HexTextLength(trail);
    AtSplit(s, i, first, second);
    ReadUnicodeEscape(s, i, lead);
    ReadUnicodeEscape(s, i + 6, trail);
    ReadPair(s, i, lead, trail);
  }

  /** An escaped code point is read back as its encoding. */
  lemma ReadEscapedCodePoint(s: Text, i: nat, cp: nat)
    requires Utf8.IsScalar(cp) && At(s, i, EscapeCodePoint(cp))
    ensures NextPiece(s, i) == More(Utf8.Encode(cp), i + |EscapeCodePoint(cp)|)
  {
    hide NextPiece, At, EscapeCodePoint, Utf8.Encode;
    if cp <= 0xFFFF {
      ReadEscapedLow(s, i, cp);
    } else {
      ReadEscapedHigh(s, i, cp);
    }
  }

  lemma HexTextLength(v: nat)
    requires v < 0x10000
    ensures |HexText(v)| == 4
  {
  }

  /** The piece written for a character is read back as the character's own bytes. */
  lemma ReadAsciiPiece(s: Text, i: nat, b: Text, k: nat)
    requires k < |b| && AsciiPiece(b, k).More? && At(s, i, AsciiPiece(b, k).bytes)
    ensures var p := AsciiPiece(b, k); NextPiece(s, i) == More(b[k..p.next], i + |p.bytes|)
  {
    hide EscapeCodePoint, EscapeByte, Utf8.Decode, Utf8.Encode, NextPiece;
    if b[k] >= 0x80 {
      Utf8.DecodeSound(b, k);
      ReadEscapedCodePoint(s, i, Utf8.Decode(b, k).cp);
    } else {
      ReadEscapedByte(s, i, b[k]);
      assert b[k..k + 1] == [b[k]];
    }
  }

  lemma {:induction false} ReadEscapedAscii(s: Text, i: nat, b: Text, k: nat)
    requires k <= |b| && EscapeAscii(b, k).Some?
    requires At(s, i, EscapeAscii(b, k).value + [QUOTE])
    ensures ReadString(s, i) == StringOk(i + |EscapeAscii(b, k).value| + 1, b[k..])
    decreases |b| - k
  {
    hide AsciiPiece, NextPiece;
    var t := EscapeAscii(b, k).value;
    if k == |b| {
      ReadClose(s, i);
    } else {
      var p := AsciiPiece(b, k);
      var rest := EscapeAscii(b, p.next).value;
      assert t + [QUOTE] == p.bytes + (rest + [QUOTE]);
      AtSplit(s, i, p.bytes, rest + [QUOTE]);
      ReadAsciiPiece(s, i, b, k);
      ReadEscapedAscii(s, i + |p.bytes|, b, p.next);
      ReadPiece(s, i, b[k..p.next], i + |p.bytes|, i + |t| + 1, b[p.next..]);
      assert b[k..] == b[k..p.next] + b[p.next..];
    }
  }

  lemma {:induction false} EscapeAsciiDefined(b: Text, k: nat)
    requires k <= |b|
    ensures EscapeAscii(b, k).Some? <==> Utf8.DecodeAll(b, k).Some?
    decreases |b| - k
  {
    if k < |b| {
      if b[k] >= 0x80 {
        if Utf8.Decode(b, k).ok {
          Utf8.DecodeSound(b, k);
          EscapeAsciiDefined(b, Utf8.Decode(b, k).next);
        }
      } else {
        Utf8.DecodeOne(b, k);
        EscapeAsciiDefined(b, k + 1);
      }
    }
  }

  /** For an ASCII target the literal exists exactly for well-formed UTF-8, and is read back as the
      original bytes. */
  lemma AsciiRoundTrip(prefix: Text, b: Text, suffix: Text)
    ensures EscapeAscii(b, 0).Some? <==> Utf8.WellFormed(b)
    ensures EscapeAscii(b, 0).Some? ==>
              var literal := [QUOTE] + EscapeAscii(b, 0).value + [QUOTE];
              ReadString(prefix + literal + suffix, |prefix| + 1) == StringOk(|prefix| + |literal|, b)
  {
    EscapeAsciiDefined(b, 0);
    Utf8.DecodeAcceptsGrammar(b);
    if EscapeAscii(b, 0).Some? {
      var body := EscapeAscii(b, 0).value;
      hide EscapeAscii, ReadString, Utf8.WellFormed;
      LiteralInside(prefix, body, suffix);
      ReadEscapedAscii(prefix + ([QUOTE] + body + [QUOTE]) + suffix, |prefix| + 1, b, 0);
      assert b[0..] == b;
    }
  }

  lemma LiteralInside(prefix: Text, body: Text, suffix: Text)
    ensures var literal := [QUOTE] + body + [QUOTE]; var s := prefix + literal + suffix;
            |prefix| + |literal| <= |s| && s[|prefix| + 1..|prefix| + |literal|] == body + [QUOTE]
  {
  }

  /** Escaped text is printable: it has no control characters, hence no line breaks. */
  lemma {:induction false} EscapeIsPrintable(b: Text)
    ensures forall k :: 0 <= k < |Escape(b)| ==> Escape(b)[k] >= 0x20
    decreases |b|
  {
    if b != [] {
      EscapeIsPrintable(b[1..]);
    }
  }

  /* ---- the stream operations ---- */

  /** One digit of the loop in ParseHex4. */
  method TakeHexDigit(input: InputStream, acc: nat) returns (ok: bool, codepoint: nat)
    requires input.pos <= |input.src|
    modifies input`pos
    ensures var v := HexValue(Peek(input.src, old(input.pos)));
            && ok == (v >= 0)
            && (ok ==> codepoint == acc * 16 + v && input.pos == old(input.pos) + 1)
    ensures input.pos <= |input.src|
  {
    var c := Peek(input.src, input.pos);
    var sum: int := acc * 16 + c;
    if 0x30 <= c <= 0x39 {
      sum := sum - 0x30;
    } else if 0x41 <= c <= 0x46 {
      sum := sum - (0x41 - 10);
    } else if 0x61 <= c <= 0x66 {
      sum := sum - (0x61 - 10);
    } else {
      return false, 0;
    }
    var _ := input.Take();
    return true, sum;
  }

  method ParseHex4(input: InputStream) returns (ok: bool, codepoint: nat)
    requires input.pos <= |input.src|
    modifies input`pos
    ensures var r := ReadHex4(input.src, old(input.pos));
            ok == r.Hex4? && (ok ==> codepoint == r.value && input.pos == old(input.pos) + 4)
    ensures input.pos <= |input.src|
  {
    codepoint := 0;
    assert Pow16(0) == 1;
    HexRunDone(input.src, input.pos + 4);
    hide HexRun, Pow16, HexValue;
    ghost var whole := HexRun(input.src, input.pos, 4, 0);
    for i := 0 to 4
      invariant input.pos == old(input.pos) + i <= |input.src|
      invariant codepoint < Pow16(i)
      invariant HexRun(input.src, input.pos, 4 - i, codepoint) == whole
    {
      HexRunTurn(input.src, input.pos, i, codepoint);
      ok, codepoint := TakeHexDigit(input, codepoint);
      if !ok {
        return;
      }
    }
    ok := true;
  }

  /** Consume one expected unit if it is next. */
  method Consume(input: InputStream, c: Byte) returns (found: bool)
    requires c != NUL && input.pos <= |input.src|
    modifies input`pos
    ensures found == (Peek(input.src, old(input.pos)) == c)
    ensures input.pos == old(input.pos) + (if found then 1 else 0) <= |input.src|
  {
    found := Peek(input.src, input.pos) == c;
    if found {
      var _ := input.Take();
    }
  }

  /** The `\u` branch of the reading loop, entered behind the two letters. */
  method ParseUnicode(input: InputStream, output: OutputStream) returns (ok: bool)
    requires 2 <= input.pos <= |input.src|
    modifies input`pos, output
    ensures var p := UnicodeEscape(input.src, old(input.pos) - 2);
            ok == p.More? && (ok ==> input.pos == p.next && output.out == old(output.out) + p.bytes)
    ensures input.pos <= |input.src|
  {
    var start := input.pos;
    var codepoint;
    ok, codepoint := ParseHex4(input);
    if !ok {
      return;
    }
    if 0xD800 <= codepoint <= 0xDBFF {
      ok := Consume(input, BACKSLASH);
      if !ok {
        return;
      }
      ok := Consume(input, LETTER_U);
      if !ok {
        return;
      }
      var codepoint2;
      ok, codepoint2 := ParseHex4(input);
      if !ok {
        return;
      }
      if codepoint2 < 0xDC00 || codepoint2 > 0xDFFF {
        return false;
      }
      codepoint := (codepoint - 0xD800) * 1024 + (codepoint2 - 0xDC00) + 0x10000;
    }
    output.PutAll(Utf8.Encode(codepoint));
  }

  datatype Step = Failed | Closed | Read

  /** One turn of the reading loop. */
  method ParsePiece(input: InputStream, output: OutputStream) returns (step: Step)
    requires input.pos <= |input.src|
    modifies input`pos, output
    ensures var p := NextPiece(input.src, old(input.pos));
            && (step == Failed <==> p.Malformed?)
            && (step == Closed <==> p.Close?)
            && (p.Close? ==> input.pos == old(input.pos) + 1 && output.out == old(output.out))
            && (p.More? ==> input.pos == p.next && output.out == old(output.out) + p.bytes)
    ensures input.pos <= |input.src|
  {
    hide UnicodeEscape;
    var c := Peek(input.src, input.pos);
    if c == BACKSLASH {
      var _ := input.Take();
      var e := Peek(input.src, input.pos);
      if Unescaped(e) != 0 {
        var _ := input.Take();
        output.Put(Unescaped(e));
        step := Read;
      } else if e == LETTER_U {
        var _ := input.Take();
        var good := ParseUnicode(input, output);
        step := if good then Read else Failed;
      } else {
        step := Failed;
      }
    } else if c == QUOTE {
      var _ := input.Take();
      step := Closed;
    } else if c < 0x20 {
      step := Failed;
    } else {
      var copied := input.Take();
      output.Put(copied);
      step := Read;
    }
  }

  /** The whole string when `read` is in front of what is still to be read. */
  function Behind(read: Text, r: StringResult): StringResult {
    if r.StringOk? then StringOk(r.next, read + r.bytes) else StringError
  }

  /** What one turn of the reading loop leaves to be read. */
  lemma ReadTurn(s: Text, i: nat, read: Text)
    requires i <= |s|
    ensures var p := NextPiece(s, i);
            Behind(read, ReadString(s, i)) ==
            match p
            case Malformed => StringError
            case Close => StringOk(i + 1, read)
            case More(bytes, next) => Behind(read + bytes, ReadString(s, next))
  {
    hide NextPiece;
    var p := NextPiece(s, i);
    if p.Close? {
      assert read + [] == read;
    } else if p.More? && ReadString(s, p.next).StringOk? {
      Associative(read, p.bytes, ReadString(s, p.next).bytes);
    }
  }

  /** Reads a literal from behind its opening quote into `output`, with a closing NUL. */
  method ParseStringToStream(input: InputStream, output: OutputStream) returns (ok: bool)
    requires input.pos <= |input.src|
    modifies input`pos, output
    ensures var r := ReadString(input.src, old(input.pos));
            ok == r.StringOk? &&
            (ok ==> input.pos == r.next && output.out == old(output.out) + r.bytes + [NUL])
    ensures input.pos <= |input.src|
  {
    ghost var whole := ReadString(input.src, input.pos);
    ghost var read: Text := [];
    assert Behind(read, whole) == whole by {
      assert whole.StringOk? ==> read + whole.bytes == whole.bytes;
    }
    assert output.out + read == output.out;
    hide NextPiece, ReadString, Behind;
    ok := true;
    while true
      invariant input.pos <= |input.src|
      invariant output.out == old(output.out) + read
      invariant whole == Behind(read, ReadString(input.src, input.pos))
      decreases |input.src| - input.pos
    {
      ReadTurn(input.src, input.pos, read);
      ghost var p := NextPiece(input.src, input.pos);
      var step := ParsePiece(input, output);
      if step == Failed {
        return false;
      } else if step == Closed {
        output.Put(NUL);
        return;
      }
      Associative(old(output.out), read, p.bytes);
      read := read + p.bytes;
    }
  }

  lemma {:induction false} EscapeSnoc(b: Text, c: Byte)
    ensures Escape(b + [c]) == Escape(b) + EscapeByte(c)
  {
    if b == [] {
      assert [c][1..] == [];
    } else {
      assert (b + [c])[1..] == b[1..] + [c];
      EscapeSnoc(b[1..], c);
    }
  }

  /** One more byte written. */
  lemma EscapeTurn(before: Text, str: Text, at: nat)
    requires at < |str|
    ensures before + Escape(str[..at]) + EscapeByte(str[at]) == before + Escape(str[..at + 1])
  {
    EscapeSnoc(str[..at], str[at]);
    assert str[..at + 1] == str[..at] + [str[at]];
    Associative(before, Escape(str[..at]), EscapeByte(str[at]));
    hide Escape, EscapeByte;
  }

  /** Writes the literal of `str` for a UTF-8 target. */
  method WriteString(output: OutputStream, str: Text) returns (ok: bool)
    modifies output
    ensures ok && output.out == old(output.out) + Quoted(str)
  {
    assert Escape([]) == [];
    hide Escape, EscapeByte, Quoted;
    output.Put(QUOTE);
    ghost var before := output.out;
    var input := new InputStream(str);
    assert before + Escape(str[..0]) == before;
    while input.pos < |str|
      invariant input.pos <= |str|
      invariant output.out == before + Escape(str[..input.pos])
    {
      EscapeTurn(before, str, input.pos);
      var c := input.Take();
      WriteByte(output, c);
    }
    assert str[..|str|] == str;
    output.Put(QUOTE);
    ok := true;
    QuotedIs(old(output.out), str);
  }

  lemma QuotedIs(before: Text, str: Text)
    ensures before + [QUOTE] + Escape(str) + [QUOTE] == before + Quoted(str)
  {
    hide Escape;
    Associative(before, [QUOTE], Escape(str));
    Associative(before, [QUOTE] + Escape(str), [QUOTE]);
  }

  method WriteByte(output: OutputStream, c: Byte)
    modifies output
    ensures output.out == old(output.out) + EscapeByte(c)
  {
    var e := EscapeLetter(c);
    if e != 0 {
      output.Put(BACKSLASH);
      output.Put(e);
      if e == LETTER_U {
        output.Put(ZERO);
        output.Put(ZERO);
        output.Put(HexDigit(c / 16));
        output.Put(HexDigit(c % 16));
      }
    } else {
      output.Put(c);
    }
  }

  method WriteHex4(output: OutputStream, v: nat)
    requires v < 0x10000
    modifies output
    ensures output.out == old(output.out) + [BACKSLASH, LETTER_U] + HexText(v)
  {
    output.Put(BACKSLASH);
    output.Put(LETTER_U);
    output.Put(HexDigit(v / 4096));
    output.Put(HexDigit(v / 256 % 16));
    output.Put(HexDigit(v / 16 % 16));
    output.Put(HexDigit(v % 16));
  }

  /** One turn of the writing loop for an ASCII target. */
  method WriteAsciiPiece(input: InputStream, output: OutputStream) returns (ok: bool)
    requires input.pos < |input.src|
    modifies input`pos, output
    ensures var p := AsciiPiece(input.src, old(input.pos));
            ok == p.More? && (ok ==> input.pos == p.next && output.out == old(output.out) + p.bytes)
  {
    var c := Peek(input.src, input.pos);
    if c >= 0x80 {
      ghost var at := input.pos;
      var codepoint;
      ok, codepoint := Utf8.DecodeStream(input);
      if ok {
        Utf8.DecodeSound(input.src, at);
        WriteCodePoint(output, codepoint);
      }
    } else {
      var _ := input.Take();
      WriteByte(output, c);
      ok := true;
    }
  }

  /** Writes the literal of `str` for an ASCII target; fails on a malformed character. */
  method WriteStringAscii(output: OutputStream, str: Text) returns (ok: bool)
    modifies output
    ensures ok == EscapeAscii(str, 0).Some?
    ensures ok ==> output.out == old(output.out) + [QUOTE] + EscapeAscii(str, 0).value + [QUOTE]
  {
    hide AsciiPiece;
    output.Put(QUOTE);
    var input := new InputStream(str);
    ghost var written: Text := [];
    ghost var whole := EscapeAscii(str, 0);
    if whole.Some? {
      assert written + whole.value == whole.value;
    }
    while input.pos < |str|
      invariant input.pos <= |str|
      invariant output.out == old(output.out) + [QUOTE] + written
      invariant var rest := EscapeAscii(str, input.pos);
                whole == if rest.Some? then Some(written + rest.value) else None
    {
      ghost var p, before := AsciiPiece(str, input.pos), written;
      var good := WriteAsciiPiece(input, output);
      if !good {
        return false;
      }
      written := written + p.bytes;
      ghost var rest := EscapeAscii(str, input.pos);
      if rest.Some? {
        assert written + rest.value == before + (p.bytes + rest.value);
      }
    }
    output.Put(QUOTE);
    ok := true;
  }

  method WriteCodePoint(output: OutputStream, codepoint: nat)
    requires Utf8.IsScalar(codepoint)
    modifies output
    ensures output.out == old(output.out) + EscapeCodePoint(codepoint)
  {
    if codepoint <= 0xD7FF || 0xE000 <= codepoint <= 0xFFFF {
      WriteHex4(output, codepoint);
    } else {
      var v := codepoint - 0x10000;
      WriteHex4(output, v / 1024 + 0xD800);
      WriteHex4(output, v % 1024 + 0xDC00);
    }
  }
}
