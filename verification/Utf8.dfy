/** UTF-8 encoding, decoding and validation (3rdparty/rapidjson/encodings.h, UTF8).
    Code points are natural numbers; a shift by 6 is a multiplication or division by 64,
    a mask by 0x3F a remainder.  The DFA's class masks are kept as bit vectors. */
module Utf8 {
  import opened Bytes
  import opened Wrappers

  /* ---- the DFA ---- */

  /** The character-class table, one packed mask per byte. */
  function GetRange(c: Byte): (t: nat)
    ensures t < 0x80
  {
    if c < 0x80 then 0
    else if c < 0x90 then 0x10
    else if c < 0xA0 then 0x40
    else if c < 0xC0 then 0x20
    else if c < 0xC2 then 8
    else if c < 0xE0 then 2
    else if c == 0xE0 then 10
    else if c == 0xED then 4
    else if c < 0xF0 then 3
    else if c == 0xF0 then 11
    else if c < 0xF4 then 6
    else if c == 0xF4 then 5
    else 8
  }

  function InClass(c: Byte, mask: bv8): bool {
    (GetRange(c) as bv8) & mask != 0
  }

  /** `(0xFF >> type) & c`. */
  function LeadBits(t: nat, c: Byte): nat {
    if t == 2 then c % 64
    else if t == 3 then c % 32
    else if t == 4 then c % 16
    else if t == 5 then c % 8
    else if t == 6 then c % 4
    else 0
  }

  /** What has been decoded so far: the running verdict, the code point, the next position. */
  datatype Decoded = Decoded(ok: bool, cp: nat, next: nat)

  /** COPY then TRANS(mask): take one unit, whatever the verdict is so far. */
  function Copy(s: Text, d: Decoded, mask: bv8): Decoded {
    var c := Peek(s, d.next);
    Decoded(d.ok && InClass(c, mask), d.cp * 64 + c % 64, d.next + 1)
  }

  const TAIL: bv8 := 0x70

  function Tail(s: Text, d: Decoded): Decoded {
    Copy(s, d, TAIL)
  }

  function Decode(s: Text, i: nat): Decoded {
    var c := Peek(s, i);
    if c < 0x80 then Decoded(true, c, i + 1) else
    var t := GetRange(c);
    var d := Decoded(true, LeadBits(t, c), i + 1);
    if t == 2 then Tail(s, d)
    else if t == 3 then Tail(s, Tail(s, d))
    else if t == 4 then Tail(s, Copy(s, d, 0x50))
    else if t == 5 then Tail(s, Tail(s, Copy(s, d, 0x10)))
    else if t == 6 then Tail(s, Tail(s, Tail(s, d)))
    else if t == 10 then Tail(s, Copy(s, d, 0x20))
    else if t == 11 then Tail(s, Tail(s, Copy(s, d, 0x60)))
    else Decoded(false, d.cp, d.next)
  }

  function Encode(cp: nat): Text
    requires cp <= 0x10FFFF
  {
    if cp <= 0x7F then [cp]
    else if cp <= 0x7FF then [0xC0 + cp / 64, 0x80 + cp % 64]
    else if cp <= 0xFFFF then [0xE0 + cp / 4096, 0x80 + cp / 64 % 64, 0x80 + cp % 64]
    else [0xF0 + cp / 262144, 0x80 + cp / 4096 % 64, 0x80 + cp / 64 % 64, 0x80 + cp % 64]
  }

  /* ---- the grammar of section 4 of RFC 3629 ---- */

  predicate IsTail(c: Byte) {
    0x80 <= c <= 0xBF
  }

  /** UTF8-char = UTF8-1 / UTF8-2 / UTF8-3 / UTF8-4 */
  predicate Utf8Char(u: Text) {
    match |u|
    case 1 => u[0] <= 0x7F
    case 2 => 0xC2 <= u[0] <= 0xDF && IsTail(u[1])
    case 3 =>
      && IsTail(u[2])
      && (|| (u[0] == 0xE0 && 0xA0 <= u[1] <= 0xBF)
          || (0xE1 <= u[0] <= 0xEC && IsTail(u[1]))
          || (u[0] == 0xED && 0x80 <= u[1] <= 0x9F)
          || (0xEE <= u[0] <= 0xEF && IsTail(u[1])))
    case 4 =>
      && IsTail(u[2]) && IsTail(u[3])
      && (|| (u[0] == 0xF0 && 0x90 <= u[1] <= 0xBF)
          || (0xF1 <= u[0] <= 0xF3 && IsTail(u[1]))
          || (u[0] == 0xF4 && 0x80 <= u[1] <= 0x8F))
    case _ => false
  }

  /** UTF8-octets = *( UTF8-char ) */
  ghost predicate WellFormed(s: Text)
    decreases |s|
  {
    s == [] || exists n :: 1 <= n <= |s| && Utf8Char(s[..n]) && WellFormed(s[n..])
  }

  /** Unicode scalar values: no surrogates, nothing above U+10FFFF. */
  predicate IsScalar(cp: nat) {
    cp <= 0xD7FF || 0xE000 <= cp <= 0x10FFFF
  }

  /* ---- one character ---- */

  /** What each mask used by the DFA stands for. */
  lemma Classes(c: Byte)
    ensures InClass(c, TAIL) <==> IsTail(c)
    ensures InClass(c, 0x50) <==> 0x80 <= c <= 0x9F
    ensures InClass(c, 0x10) <==> 0x80 <= c <= 0x8F
    ensures InClass(c, 0x20) <==> 0xA0 <= c <= 0xBF
    ensures InClass(c, 0x60) <==> 0x90 <= c <= 0xBF
  {
  }

  /** The code point is what the encoding's units spell. */
  function Spell(u: Text): nat
    requires Utf8Char(u)
  {
    match |u|
    case 1 => u[0]
    case 2 => (u[0] as int - 0xC0) * 64 + (u[1] as int - 0x80)
    case 3 => (u[0] as int - 0xE0) * 4096 + (u[1] as int - 0x80) * 64 + (u[2] as int - 0x80)
    case 4 =>
      (u[0] as int - 0xF0) * 262144 + (u[1] as int - 0x80) * 4096 + (u[2] as int - 0x80) * 64 + (u[3] as int - 0x80)
  }

  lemma SpellEncode(cp: nat)
    requires IsScalar(cp)
    ensures Utf8Char(Encode(cp)) && Spell(Encode(cp)) == cp
  {
    assert cp / 4096 == cp / 64 / 64;
    assert cp / 262144 == cp / 4096 / 64;
  }

  lemma Digits64(hi: nat, lo: nat)
    requires lo < 64
    ensures (hi * 64 + lo) / 64 == hi && (hi * 64 + lo) % 64 == lo
  {
  }

  /** The 64-ary digits of a number put together from them. */
  lemma Sixes(a: nat, b: nat, c: nat, d: nat)
    requires b < 64 && c < 64 && d < 64
    ensures var cp := ((a * 64 + b) * 64 + c) * 64 + d;
            cp % 64 == d && cp / 64 % 64 == c && cp / 4096 % 64 == b && cp / 262144 == a
            && cp / 64 == (a * 64 + b) * 64 + c && cp / 4096 == a * 64 + b
  {
    var cp := ((a * 64 + b) * 64 + c) * 64 + d;
    Digits64(a, b);
    Digits64(a * 64 + b, c);
    Digits64((a * 64 + b) * 64 + c, d);
    assert cp / 4096 == cp / 64 / 64;
    assert cp / 262144 == cp / 4096 / 64;
  }

  lemma EncodeSpellThree(u: Text)
    requires |u| == 3 && Utf8Char(u)
    ensures IsScalar(Spell(u)) && Encode(Spell(u)) == u
  {
    Sixes(0, u[0] - 0xE0, u[1] - 0x80, u[2] - 0x80);
  }

  lemma SpellOfFour(u: Text)
    requires |u| == 4 && Utf8Char(u)
    ensures var a, b, c, d := u[0] as int - 0xF0, u[1] as int - 0x80, u[2] as int - 0x80, u[3] as int - 0x80;
            && 0 <= a <= 4 && 0 <= b < 64 && 0 <= c < 64 && 0 <= d < 64
            && Spell(u) == ((a * 64 + b) * 64 + c) * 64 + d && 0xFFFF < Spell(u) <= 0x10FFFF
  {
  }

  lemma EncodeFour(a: nat, b: nat, c: nat, d: nat)
    requires a <= 4 && b < 64 && c < 64 && d < 64
    requires 0xFFFF < ((a * 64 + b) * 64 + c) * 64 + d <= 0x10FFFF
    ensures Encode(((a * 64 + b) * 64 + c) * 64 + d) == [0xF0 + a, 0x80 + b, 0x80 + c, 0x80 + d]
  {
    Sixes(a, b, c, d);
  }

  lemma EncodeSpellFour(u: Text)
    requires |u| == 4 && Utf8Char(u)
    ensures IsScalar(Spell(u)) && Encode(Spell(u)) == u
  {
    hide Spell, Encode, Utf8Char;
    SpellOfFour(u);
    EncodeFour(u[0] - 0xF0, u[1] - 0x80, u[2] - 0x80, u[3] - 0x80);
    assert u == [u[0], u[1], u[2], u[3]];
  }

  lemma EncodeSpell(u: Text)
    requires Utf8Char(u)
    ensures IsScalar(Spell(u)) && Encode(Spell(u)) == u
  {
    if |u| == 3 {
      EncodeSpellThree(u);
    } else if |u| == 4 {
      EncodeSpellFour(u);
    } else if |u| == 2 {
      Sixes(0, 0, u[0] - 0xC0, u[1] - 0x80);
    }
  }

  lemma DecodeOne(s: Text, i: nat)
    requires i < |s| && s[i] < 0x80
    ensures Decode(s, i) == Decoded(true, s[i], i + 1)
  {
  }

  lemma DecodeTwo(s: Text, i: nat)
    requires i < |s| && 0xC2 <= s[i] <= 0xDF
    ensures var d := Decode(s, i);
            d.next == i + 2 && d.ok == IsTail(Peek(s, i + 1)) && d.cp == s[i] % 64 * 64 + Peek(s, i + 1) % 64
  {
    hide InClass;
    Classes(Peek(s, i + 1));
  }

  predicate SecondOfThree(a: Byte, b: Byte) {
    if a == 0xE0 then 0xA0 <= b <= 0xBF else if a == 0xED then 0x80 <= b <= 0x9F else IsTail(b)
  }

  /** The class of the second unit of three. */
  function MaskOfThree(a: Byte): bv8 {
    if a == 0xE0 then 0x20 else if a == 0xED then 0x50 else TAIL
  }

  lemma MaskOfThreeIs(a: Byte, b: Byte)
    ensures InClass(b, MaskOfThree(a)) == SecondOfThree(a, b)
  {
    Classes(b);
    hide InClass;
  }

  lemma ThreeCopied(s: Text, d: Decoded, mask: bv8)
    ensures var b, c := Peek(s, d.next), Peek(s, d.next + 1);
            Tail(s, Copy(s, d, mask)) ==
            Decoded(d.ok && InClass(b, mask) && InClass(c, TAIL), (d.cp * 64 + b % 64) * 64 + c % 64, d.next + 2)
  {
    hide InClass;
  }

  lemma ThreeIsCopied(s: Text, i: nat)
    requires i < |s| && 0xE0 <= s[i] <= 0xEF
    ensures Decode(s, i) == Tail(s, Copy(s, Decoded(true, s[i] % 16, i + 1), MaskOfThree(s[i])))
  {
    hide Copy;
  }

  lemma DecodeThree(s: Text, i: nat)
    requires i < |s| && 0xE0 <= s[i] <= 0xEF
    ensures var d := Decode(s, i); var b, c := Peek(s, i + 1), Peek(s, i + 2);
            && d.next == i + 3
            && d.ok == (SecondOfThree(s[i], b) && IsTail(c))
            && d.cp == (s[i] % 16 * 64 + b % 64) * 64 + c % 64
  {
    hide Decode, InClass, MaskOfThree, SecondOfThree, Copy, Tail;
    ThreeIsCopied(s, i);
    ThreeCopied(s, Decoded(true, s[i] % 16, i + 1), MaskOfThree(s[i]));
    MaskOfThreeIs(s[i], Peek(s, i + 1));
    Classes(Peek(s, i + 2));
  }

  predicate SecondOfFour(a: Byte, b: Byte) {
    if a == 0xF0 then 0x90 <= b <= 0xBF else if a == 0xF4 then 0x80 <= b <= 0x8F else IsTail(b)
  }

  /** The class of the second unit of four. */
  function MaskOfFour(a: Byte): bv8 {
    if a == 0xF0 then 0x60 else if a == 0xF4 then 0x10 else TAIL
  }

  lemma MaskOfFourIs(a: Byte, b: Byte)
    ensures InClass(b, MaskOfFour(a)) == SecondOfFour(a, b)
  {
    Classes(b);
    hide InClass;
  }

  lemma FourCopied(s: Text, d: Decoded, mask: bv8)
    ensures var b, c, e := Peek(s, d.next), Peek(s, d.next + 1), Peek(s, d.next + 2);
            Tail(s, Tail(s, Copy(s, d, mask))) ==
            Decoded(d.ok && InClass(b, mask) && InClass(c, TAIL) && InClass(e, TAIL),
                    ((d.cp * 64 + b % 64) * 64 + c % 64) * 64 + e % 64, d.next + 3)
  {
    hide InClass;
  }

  lemma FourIsCopied(s: Text, i: nat)
    requires i < |s| && 0xF0 <= s[i] <= 0xF4
    ensures Decode(s, i) == Tail(s, Tail(s, Copy(s, Decoded(true, s[i] % 8, i + 1), MaskOfFour(s[i]))))
  {
    hide Copy;
  }

  lemma DecodeFour(s: Text, i: nat)
    requires i < |s| && 0xF0 <= s[i] <= 0xF4
    ensures var d := Decode(s, i); var b, c, e := Peek(s, i + 1), Peek(s, i + 2), Peek(s, i + 3);
            && d.next == i + 4
            && d.ok == (SecondOfFour(s[i], b) && IsTail(c) && IsTail(e))
            && d.cp == ((s[i] % 8 * 64 + b % 64) * 64 + c % 64) * 64 + e % 64
  {
    hide Decode, InClass, MaskOfFour, SecondOfFour, Copy, Tail;
    FourIsCopied(s, i);
    FourCopied(s, Decoded(true, s[i] % 8, i + 1), MaskOfFour(s[i]));
    MaskOfFourIs(s[i], Peek(s, i + 1));
    Classes(Peek(s, i + 2));
    Classes(Peek(s, i + 3));
  }

  lemma DecodeInvalid(s: Text, i: nat)
    requires i < |s| && (0x80 <= s[i] <= 0xC1 || 0xF5 <= s[i])
    ensures !Decode(s, i).ok
  {
  }

  lemma SlicesOf(s: Text, i: nat)
    ensures i < |s| ==> s[i..i + 1] == [s[i]]
    ensures i + 1 < |s| ==> s[i..i + 2] == [s[i], s[i + 1]]
    ensures i + 2 < |s| ==> s[i..i + 3] == [s[i], s[i + 1], s[i + 2]]
    ensures i + 3 < |s| ==> s[i..i + 4] == [s[i], s[i + 1], s[i + 2], s[i + 3]]
  {
  }

  lemma DecodeCharThree(s: Text, i: nat)
    requires i < |s| && 0xE0 <= s[i] <= 0xEF && Decode(s, i).ok
    ensures i + 2 < |s| && var u := s[i..i + 3]; Utf8Char(u) && Decode(s, i) == Decoded(true, Spell(u), i + 3)
  {
    hide Decode;
    DecodeThree(s, i);
    SlicesOf(s, i);
  }

  lemma DecodeCharFour(s: Text, i: nat)
    requires i < |s| && 0xF0 <= s[i] <= 0xF4 && Decode(s, i).ok
    ensures i + 3 < |s| && var u := s[i..i + 4]; Utf8Char(u) && Decode(s, i) == Decoded(true, Spell(u), i + 4)
  {
    hide Decode, Spell;
    DecodeFour(s, i);
    assert IsTail(Peek(s, i + 3));
    SlicesOf(s, i);
    var u := s[i..i + 4];
    assert u[0] == s[i] && u[1] == s[i + 1] && u[2] == s[i + 2] && u[3] == s[i + 3];
    assert Utf8Char(u);
    SpellFour(u);
  }

  lemma SpellFour(u: Text)
    requires Utf8Char(u) && |u| == 4
    ensures var a: nat, b: nat, c: nat, e: nat := u[0] % 8, u[1] % 64, u[2] % 64, u[3] % 64;
            Spell(u) == ((a * 64 + b) * 64 + c) * 64 + e
  {
    SpellOfFour(u);
    hide Spell, Utf8Char;
  }

  /** A successful decode has consumed one character of the grammar and spells it. */
  lemma DecodeChar(s: Text, i: nat)
    requires i < |s| && Decode(s, i).ok
    ensures var d := Decode(s, i);
            i < d.next <= |s| && Utf8Char(s[i..d.next]) && d.cp == Spell(s[i..d.next])
  {
    hide Decode;
    if s[i] < 0x80 {
      DecodeOne(s, i);
      SlicesOf(s, i);
    } else if s[i] <= 0xC1 || 0xF5 <= s[i] {
      DecodeInvalid(s, i);
    } else if s[i] <= 0xDF {
      DecodeTwo(s, i);
      SlicesOf(s, i);
    } else if s[i] <= 0xEF {
      DecodeCharThree(s, i);
    } else {
      DecodeCharFour(s, i);
    }
  }

  /** A successful decode has consumed exactly one character of the grammar, whose scalar value
      encodes back to the bytes consumed. */
  lemma DecodeSound(s: Text, i: nat)
    requires i < |s| && Decode(s, i).ok
    ensures var d := Decode(s, i);
            && i < d.next <= |s|
            && Utf8Char(s[i..d.next])
            && IsScalar(d.cp)
            && Encode(d.cp) == s[i..d.next]
  {
    DecodeChar(s, i);
    EncodeSpell(s[i..Decode(s, i).next]);
  }

  /** Decoding accepts every character of the grammar and stops right behind it. */
  lemma DecodeComplete(s: Text, i: nat, u: Text)
    requires Utf8Char(u) && At(s, i, u)
    ensures Decode(s, i).ok && Decode(s, i).next == i + |u|
  {
    AtPeek(s, i, u, 0);
    if |u| == 2 {
      AtPeek(s, i, u, 1);
      DecodeTwo(s, i);
    } else if |u| == 3 {
      AtPeek(s, i, u, 1);
      AtPeek(s, i, u, 2);
      DecodeThree(s, i);
    } else if |u| == 4 {
      AtPeek(s, i, u, 1);
      AtPeek(s, i, u, 2);
      AtPeek(s, i, u, 3);
      DecodeFour(s, i);
    }
  }

  /** Decoding undoes encoding, in any context. */
  lemma DecodeEncode(s: Text, i: nat, cp: nat)
    requires IsScalar(cp) && At(s, i, Encode(cp))
    ensures Decode(s, i) == Decoded(true, cp, i + |Encode(cp)|)
  {
    SpellEncode(cp);
    DecodeComplete(s, i, Encode(cp));
    DecodeChar(s, i);
  }

  /* ---- whole strings ---- */

  /** Repeated decoding of `s` from `i` up to its length. */
  function DecodeAll(s: Text, i: nat): Option<seq<nat>>
    requires i <= |s|
    decreases |s| - i
  {
    if i == |s| then Some([]) else
    var d := Decode(s, i);
    if !d.ok || d.next > |s| then None else
    match DecodeAll(s, d.next)
    case None => None
    case Some(rest) => Some([d.cp] + rest)
  }

  predicate AllScalars(cps: seq<nat>) {
    forall k :: 0 <= k < |cps| ==> IsScalar(cps[k])
  }

  function EncodeAll(cps: seq<nat>): Text
    requires AllScalars(cps)
  {
    if cps == [] then [] else Encode(cps[0]) + EncodeAll(cps[1..])
  }

  /** What repeated decoding accepts is well-formed, and encoding its result restores the text. */
  lemma {:induction false} DecodeAllSound(s: Text, i: nat)
    requires i <= |s| && DecodeAll(s, i).Some?
    ensures WellFormed(s[i..])
    ensures var cps := DecodeAll(s, i).value;
            AllScalars(cps) && EncodeAll(cps) == s[i..]
    decreases |s| - i
  {
    hide Decode, Encode, Utf8Char;
    if i < |s| {
      var d := Decode(s, i);
      DecodeSound(s, i);
      DecodeAllSound(s, d.next);
      var n := d.next - i;
      assert s[i..][..n] == s[i..d.next] && s[i..][n..] == s[d.next..];
      var rest := DecodeAll(s, d.next).value;
      assert DecodeAll(s, i).value == [d.cp] + rest;
      assert ([d.cp] + rest)[1..] == rest;
      assert s[i..] == s[i..d.next] + s[d.next..];
    } else {
      assert s[i..] == [];
    }
  }

  lemma {:induction false} DecodeAllComplete(s: Text, i: nat)
    requires i <= |s| && WellFormed(s[i..])
    ensures DecodeAll(s, i).Some?
    decreases |s| - i
  {
    hide Decode, Encode, Utf8Char;
    if i < |s| {
      var w := s[i..];
      var n :| 1 <= n <= |w| && Utf8Char(w[..n]) && WellFormed(w[n..]);
      assert w[..n] == s[i..i + n] && w[n..] == s[i + n..];
      DecodeComplete(s, i, w[..n]);
      DecodeAllComplete(s, i + n);
    }
  }

  /** Repeated decoding accepts exactly the byte sequences of the grammar. */
  lemma DecodeAcceptsGrammar(s: Text)
    ensures DecodeAll(s, 0).Some? <==> WellFormed(s)
  {
    assert s[0..] == s;
    if WellFormed(s) { DecodeAllComplete(s, 0); }
    if DecodeAll(s, 0).Some? { DecodeAllSound(s, 0); }
  }

  /** Encoding the decoded code points gives the text back. */
  lemma EncodeDecodeAll(s: Text)
    requires WellFormed(s)
    ensures var r := DecodeAll(s, 0);
            r.Some? && AllScalars(r.value) && EncodeAll(r.value) == s
  {
    DecodeAcceptsGrammar(s);
    DecodeAllSound(s, 0);
    assert s[0..] == s;
  }

  lemma {:induction false} DecodeEncodeAllFrom(s: Text, i: nat, cps: seq<nat>)
    requires AllScalars(cps)
    requires i <= |s| && s[i..] == EncodeAll(cps)
    ensures DecodeAll(s, i) == Some(cps)
    decreases |cps|
  {
    hide Decode, Encode;
    if cps != [] {
      var e, rest := Encode(cps[0]), cps[1..];
      EncodeNonempty(cps[0]);
      EncodedFront(s, i, e, EncodeAll(rest));
      DecodeEncode(s, i, cps[0]);
      DecodeEncodeAllFrom(s, i + |e|, rest);
      assert cps == [cps[0]] + rest;
    }
  }

  lemma EncodeNonempty(cp: nat)
    requires IsScalar(cp)
    ensures Encode(cp) != []
  {
  }

  lemma EncodedFront(s: Text, i: nat, e: Text, rest: Text)
    requires i <= |s| && s[i..] == e + rest && e != []
    ensures At(s, i, e) && i < i + |e| <= |s| && s[i + |e|..] == rest
  {
    assert At(s, i, e + rest);
    AtSplit(s, i, e, rest);
    assert s[i + |e|..] == s[i..][|e|..];
  }

  /** Decoding the encoding of any scalar values gives the same values back. */
  lemma DecodeEncodeAll(cps: seq<nat>)
    requires AllScalars(cps)
    ensures DecodeAll(EncodeAll(cps), 0) == Some(cps)
  {
    var s := EncodeAll(cps);
    assert s[0..] == s;
    DecodeEncodeAllFrom(s, 0, cps);
  }

  /* ---- the stream operations ---- */

  method DecodeStream(input: InputStream) returns (result: bool, codepoint: nat)
    modifies input`pos
    ensures Decoded(result, codepoint, input.pos) == Decode(input.src, old(input.pos))
  {
    hide InClass, GetRange, LeadBits;
    var c := input.Take();
    if c < 0x80 {
      return true, c;
    }
    var t := GetRange(c);
    codepoint := LeadBits(t, c);
    result := true;
    if t == 2 {
      result, codepoint := TakeTail(input, result, codepoint, TAIL);
    } else if t == 3 {
      result, codepoint := TakeTail(input, result, codepoint, TAIL);
      result, codepoint := TakeTail(input, result, codepoint, TAIL);
    } else if t == 4 {
      result, codepoint := TakeTail(input, result, codepoint, 0x50);
      result, codepoint := TakeTail(input, result, codepoint, TAIL);
    } else if t == 5 {
      result, codepoint := TakeTail(input, result, codepoint, 0x10);
      result, codepoint := TakeTail(input, result, codepoint, TAIL);
      result, codepoint := TakeTail(input, result, codepoint, TAIL);
    } else if t == 6 {
      result, codepoint := TakeTail(input, result, codepoint, TAIL);
      result, codepoint := TakeTail(input, result, codepoint, TAIL);
      result, codepoint := TakeTail(input, result, codepoint, TAIL);
    } else if t == 10 {
      result, codepoint := TakeTail(input, result, codepoint, 0x20);
      result, codepoint := TakeTail(input, result, codepoint, TAIL);
    } else if t == 11 {
      result, codepoint := TakeTail(input, result, codepoint, 0x60);
      result, codepoint := TakeTail(input, result, codepoint, TAIL);
      result, codepoint := TakeTail(input, result, codepoint, TAIL);
    } else {
      result := false;
    }
  }

  method TakeTail(input: InputStream, ok: bool, cp: nat, mask: bv8) returns (ok': bool, cp': nat)
    modifies input`pos
    ensures Decoded(ok', cp', input.pos) == Copy(input.src, Decoded(ok, cp, old(input.pos)), mask)
  {
    var c := input.Take();
    ok', cp' := ok && InClass(c, mask), cp * 64 + c % 64;
  }

  /** The units from position `from` up to `end`, NULs behind the end of the text. */
  function Units(src: Text, from: nat, end: nat): (u: Text)
    requires from <= end
    ensures |u| == end - from && forall k :: from <= k < end ==> u[k - from] == Peek(src, k)
    decreases end
  {
    if from == end then [] else Units(src, from, end - 1) + [Peek(src, end - 1)]
  }

  lemma {:induction false} UnitsSlice(src: Text, from: nat, end: nat)
    requires from <= end <= |src|
    ensures Units(src, from, end) == src[from..end]
    decreases end
  {
    if from < end {
      UnitsSlice(src, from, end - 1);
      assert src[from..end] == src[from..end - 1] + [src[end - 1]];
    }
  }

  /** Validation accepts what decoding accepts, and copies exactly the units it consumes. */
  method Validate(input: InputStream, output: OutputStream) returns (result: bool)
    modifies input`pos, output
    ensures var d := Decode(input.src, old(input.pos));
            result == d.ok && input.pos == d.next
    ensures old(input.pos) <= input.pos
    ensures output.out == old(output.out) + Units(input.src, old(input.pos), input.pos)
  {
    ghost var start, before := input.pos, output.out;
    assert before + Units(input.src, start, start) == before;
    hide InClass, GetRange, LeadBits, Units;
    var c := CopyOne(input, output, start, before);
    if c < 0x80 {
      return true;
    }
    result := true;
    var t := GetRange(c);
    if t == 2 {
      result := CopyTail(input, output, start, before, result, TAIL);
    } else if t == 3 {
      result := CopyTail(input, output, start, before, result, TAIL);
      result := CopyTail(input, output, start, before, result, TAIL);
    } else if t == 4 {
      result := CopyTail(input, output, start, before, result, 0x50);
      result := CopyTail(input, output, start, before, result, TAIL);
    } else if t == 5 {
      result := CopyTail(input, output, start, before, result, 0x10);
      result := CopyTail(input, output, start, before, result, TAIL);
      result := CopyTail(input, output, start, before, result, TAIL);
    } else if t == 6 {
      result := CopyTail(input, output, start, before, result, TAIL);
      result := CopyTail(input, output, start, before, result, TAIL);
      result := CopyTail(input, output, start, before, result, TAIL);
    } else if t == 10 {
      result := CopyTail(input, output, start, before, result, 0x20);
      result := CopyTail(input, output, start, before, result, TAIL);
    } else if t == 11 {
      result := CopyTail(input, output, start, before, result, 0x60);
      result := CopyTail(input, output, start, before, result, TAIL);
      result := CopyTail(input, output, start, before, result, TAIL);
    } else {
      result := false;
    }
  }

  method CopyOne(input: InputStream, output: OutputStream, ghost start: nat, ghost before: Text) returns (c: Byte)
    requires start <= input.pos && output.out == before + Units(input.src, start, input.pos)
    modifies input`pos, output
    ensures c == Peek(input.src, old(input.pos)) && input.pos == old(input.pos) + 1
    ensures output.out == before + Units(input.src, start, input.pos)
  {
    Associative(before, Units(input.src, start, input.pos), [Peek(input.src, input.pos)]);
    c := input.Take();
    output.Put(c);
  }

  method CopyTail(input: InputStream, output: OutputStream, ghost start: nat, ghost before: Text, ok: bool, mask: bv8)
      returns (ok': bool)
    requires start <= input.pos && output.out == before + Units(input.src, start, input.pos)
    modifies input`pos, output
    ensures ok' == (ok && InClass(Peek(input.src, old(input.pos)), mask))
    ensures input.pos == old(input.pos) + 1
    ensures output.out == before + Units(input.src, start, input.pos)
  {
    var c := CopyOne(input, output, start, before);
    ok' := ok && InClass(c, mask);
  }
}
