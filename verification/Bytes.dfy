/** Bytes, NUL-terminated input streams and byte output streams shared by the JSON modules. */
module Bytes {

  type Byte = x: int | 0 <= x < 256

  type Text = seq<Byte>

  const NUL: Byte := 0x00
  const TAB: Byte := 0x09
  const LF: Byte := 0x0A
  const CR: Byte := 0x0D
  const SPACE: Byte := 0x20
  const QUOTE: Byte := 0x22
  const COMMA: Byte := 0x2C
  const MINUS: Byte := 0x2D
  const DOT: Byte := 0x2E
  const SOLIDUS: Byte := 0x2F
  const ZERO: Byte := 0x30
  const COLON: Byte := 0x3A
  const LBRACKET: Byte := 0x5B
  const BACKSLASH: Byte := 0x5C
  const RBRACKET: Byte := 0x5D
  const LBRACE: Byte := 0x7B
  const RBRACE: Byte := 0x7D

  /** The code unit at position `i`; a NUL terminates every input. */
  function Peek(s: Text, i: nat): Byte {
    if i < |s| then s[i] else NUL
  }

  /** `t` occurs in `s` at position `i`. */
  ghost predicate At(s: Text, i: nat, t: Text) {
    i + |t| <= |s| && s[i..i + |t|] == t
  }

  lemma AtSplit(s: Text, i: nat, a: Text, b: Text)
    requires At(s, i, a + b)
    ensures At(s, i, a) && At(s, i + |a|, b)
  {
    var w := s[i..i + |a + b|];
    assert w[..|a|] == a && w[|a|..] == b;
    assert s[i..i + |a|] == w[..|a|];
    assert s[i + |a|..i + |a| + |b|] == w[|a|..];
  }

  lemma AtPeek(s: Text, i: nat, t: Text, k: nat)
    requires At(s, i, t) && k < |t|
    ensures Peek(s, i + k) == t[k]
  {
    assert s[i..i + |t|][k] == s[i + k];
  }

  lemma Associative(a: Text, b: Text, c: Text)
    ensures (a + b) + c == a + (b + c)
  {
  }

  predicate IsDigit(c: Byte) {
    0x30 <= c <= 0x39
  }

  /** A NUL-terminated input stream (GenericStringStream). */
  class InputStream {
    const src: Text
    var pos: nat

    constructor (src: Text)
      ensures this.src == src && pos == 0
    {
      this.src := src;
      pos := 0;
    }

    method Take() returns (c: Byte)
      modifies this`pos
      ensures c == Peek(src, old(pos)) && pos == old(pos) + 1
    {
      c := Peek(src, pos);
      pos := pos + 1;
    }
  }

  /** An output stream to which single code units are put. */
  class OutputStream {
    var out: Text

    constructor ()
      ensures out == []
    {
      out := [];
    }

    method Put(c: Byte)
      modifies this
      ensures out == old(out) + [c]
    {
      out := out + [c];
    }

    method PutAll(t: Text)
      modifies this
      ensures out == old(out) + t
    {
      out := out + t;
    }
  }
}
