/** The JSON Pointer parser as it works, in one pass over the source with all names in one buffer
    (3rdparty/rapidjson/pointer.h, Parse, PercentDecodeStream and Stringify), proved to compute what
    JsonPointer says. */
module JsonPointerParser {
  import opened Bytes
  import opened Wrappers
  import opened JsonPointer
  import JsonString
  import Utf8

  lemma {:induction false} PercentTextFrom(s: Text, i: nat, k: nat)
    requires k <= |PercentText(s, i)|
    ensures PercentText(s, i + 3 * k) == PercentText(s, i)[k..]
    decreases k
  {
    if k > 0 {
      var p, rest := PercentText(s, i), PercentText(s, i + 3);
      assert p == [p[0]] + rest;
      hide PercentText, Triplet;
      PercentTextFrom(s, i + 3, k - 1);
      assert i + 3 + 3 * (k - 1) == i + 3 * k;
      assert p[k..] == rest[k - 1..];
    }
  }

  /** `taken` counts the calls of Take. */
  class PercentDecodeStream {
    const src: Text
    const head: nat
    var pos: nat
    var valid: bool
    ghost var taken: nat

    ghost predicate Valid()
      reads this
    {
      && head <= |src|
      && (valid <==> taken <= |PercentText(src, head)|)
      && (valid ==> pos == head + 3 * taken)
    }

    constructor (src: Text, head: nat)
      requires head <= |src|
      ensures this.src == src && this.head == head && Valid() && valid && taken == 0
    {
      this.src, this.head := src, head;
      pos, valid, taken := head, true, 0;
    }

    /** The value of the triplet at the position, or 0 with the stream made invalid. */
    method TakeTriplet() returns (c: Byte)
      modifies `pos, `valid
      ensures var v := Triplet(src, old(pos));
              if v >= 0 then c == v && pos == old(pos) + 3 && valid == old(valid) else c == 0 && !valid
    {
      if Peek(src, pos) != PERCENT || pos + 3 > |src| {
        valid := false;
        return 0;
      }
      ghost var start := pos;
      pos := pos + 1;
      var acc: nat := 0;
      for j := 0 to 2
        invariant pos == start + 1 + j && start + 3 <= |src| && start == old(pos) && valid == old(valid)
        invariant j == 0 ==> acc == 0
        invariant j >= 1 ==> JsonString.HexValue(src[start + 1]) >= 0
        invariant j == 1 ==> acc == JsonString.HexValue(src[start + 1])
        invariant j == 2 ==> JsonString.HexValue(src[start + 2]) >= 0
        invariant j == 2 ==> acc == 16 * JsonString.HexValue(src[start + 1]) + JsonString.HexValue(src[start + 2])
      {
        var h := JsonString.HexValue(src[pos]);
        if h < 0 {
          valid := false;
          return 0;
        }
        acc := acc * 16 + h;
        pos := pos + 1;
      }
      c := acc;
    }

    method Take() returns (c: Byte)
      requires Valid()
      modifies `pos, `valid, `taken
      ensures Valid() && taken == old(taken) + 1
      ensures old(valid) ==> c == Peek(PercentText(src, head), old(taken))
    {
      if valid {
        PercentTextFrom(src, head, taken);
      }
      hide Triplet;
      c := TakeTriplet();
      taken := taken + 1;
    }
  }

  /** One COPY and TRANS of UTF8::Validate, putting the unit into the buffer at `name`. */
  method CopyTail(stream: PercentDecodeStream, buffer: array<Byte>, name: nat, ok: bool, mask: bv8,
                  ghost d: Utf8.Decoded)
      returns (ok': bool, ghost d': Utf8.Decoded)
    requires stream.Valid() && name < buffer.Length && d.next == stream.taken && (stream.valid ==> d.ok == ok)
    modifies stream`pos, stream`valid, stream`taken, buffer
    ensures stream.Valid() && stream.taken == old(stream.taken) + 1
    ensures d' == Utf8.Copy(PercentText(stream.src, stream.head), d, mask) && d'.next == stream.taken
    ensures stream.valid ==> d'.ok == ok'
    ensures stream.valid ==> buffer[name] == Peek(PercentText(stream.src, stream.head), d.next)
    ensures buffer[..] == old(buffer[..])[name := buffer[name]]
    ensures old(!stream.valid) ==> !stream.valid
  {
    hide Utf8.InClass, PercentText;
    var c := stream.Take();
    buffer[name] := c;
    ok' := ok && Utf8.InClass(c, mask);
    d' := Utf8.Copy(PercentText(stream.src, stream.head), d, mask);
  }

  /** UTF8::Validate on the percent-decoded bytes. It puts at most four bytes, and more than one only
      behind a whole triplet. */
  method Validate(stream: PercentDecodeStream, buffer: array<Byte>, name: nat) returns (result: bool)
    requires stream.Valid() && stream.valid && stream.taken == 0
    requires name < buffer.Length && (Triplet(stream.src, stream.head) >= 0 ==> name + 4 <= buffer.Length)
    modifies stream`pos, stream`valid, stream`taken, buffer
    ensures stream.Valid()
    ensures var p := PercentText(stream.src, stream.head); var d := Utf8.Decode(p, 0);
            && stream.taken == d.next && (stream.valid ==> result == d.ok)
            && (stream.valid ==> d.next <= |p| && d.next <= 4 && name + d.next <= buffer.Length)
            && (stream.valid ==> forall k :: 0 <= k < d.next ==> buffer[name + k] == p[k])
    ensures forall k :: 0 <= k < name ==> buffer[k] == old(buffer[k])
  {
    ghost var p := PercentText(stream.src, stream.head);
    hide PercentText, Utf8.InClass, Utf8.GetRange, Utf8.LeadBits, Utf8.Copy;
    LeadKnown(stream.src, stream.head);
    var c := stream.Take();
    buffer[name] := c;
    if c < 0x80 {
      return true;
    }
    var t := Utf8.GetRange(c);
    ghost var d := Utf8.Decoded(true, Utf8.LeadBits(t, c), 1);
    if t == 5 || t == 6 || t == 11 {
      result := CopyThree(stream, buffer, name, if t == 5 then 0x10 else if t == 6 then Utf8.TAIL else 0x60, d);
    } else if t == 3 || t == 4 || t == 10 {
      result := CopyTwo(stream, buffer, name, if t == 3 then Utf8.TAIL else if t == 4 then 0x50 else 0x20, d);
    } else if t == 2 {
      result, d := CopyTail(stream, buffer, name + 1, true, Utf8.TAIL, d);
    } else {
      result := false;
    }
  }

  /** The second byte by its mask, then one more. */
  method CopyTwo(stream: PercentDecodeStream, buffer: array<Byte>, name: nat, mask: bv8, ghost d: Utf8.Decoded)
      returns (result: bool)
    requires stream.Valid() && stream.taken == 1 && name + 3 <= buffer.Length && d.next == 1 && d.ok
    requires stream.valid ==> buffer[name] == PercentText(stream.src, stream.head)[0]
    modifies stream`pos, stream`valid, stream`taken, buffer
    ensures stream.Valid()
    ensures var p := PercentText(stream.src, stream.head); var e := Utf8.Tail(p, Utf8.Copy(p, d, mask));
            && stream.taken == e.next == 3 && (stream.valid ==> result == e.ok)
            && (stream.valid ==> forall k :: 0 <= k < 3 ==> buffer[name + k] == p[k])
    ensures forall k :: 0 <= k < name ==> buffer[k] == old(buffer[k])
  {
    hide PercentText, Utf8.InClass;
    ghost var e;
    result, e := CopyTail(stream, buffer, name + 1, true, mask, d);
    result, e := CopyTail(stream, buffer, name + 2, result, Utf8.TAIL, e);
    hide Utf8.Copy;
  }

  method CopyThree(stream: PercentDecodeStream, buffer: array<Byte>, name: nat, mask: bv8, ghost d: Utf8.Decoded)
      returns (result: bool)
    requires stream.Valid() && stream.taken == 1 && name + 4 <= buffer.Length && d.next == 1 && d.ok
    requires stream.valid ==> buffer[name] == PercentText(stream.src, stream.head)[0]
    modifies stream`pos, stream`valid, stream`taken, buffer
    ensures stream.Valid()
    ensures var p := PercentText(stream.src, stream.head); var e := Utf8.Tail(p, Utf8.Tail(p, Utf8.Copy(p, d, mask)));
            && stream.taken == e.next == 4 && (stream.valid ==> result == e.ok)
            && (stream.valid ==> forall k :: 0 <= k < 4 ==> buffer[name + k] == p[k])
    ensures forall k :: 0 <= k < name ==> buffer[k] == old(buffer[k])
  {
    hide PercentText, Utf8.InClass;
    result := CopyTwo(stream, buffer, name, mask, d);
    ghost var p := PercentText(stream.src, stream.head);
    ghost var e;
    result, e := CopyTail(stream, buffer, name + 3, result, Utf8.TAIL, Utf8.Tail(p, Utf8.Copy(p, d, mask)));
    hide Utf8.Copy;
  }

  lemma LeadKnown(s: Text, i: nat)
    ensures Peek(PercentText(s, i), 0) == if Triplet(s, i) >= 0 then Triplet(s, i) else 0
  {
  }

  /* ---- one unit of a name ---- */

  datatype UnitRead = Put(i: nat, name: nat, isNumber: bool) | Error(code: ErrorCode, offset: nat)

  /** What reading a unit into the buffer must come to. */
  ghost predicate ReadsUnit(u: Unit, r: UnitRead, name: nat, isNumber: bool, buffer: seq<Byte>) {
    match u
    case Unit(bytes, next) =>
      && r == Put(next, name + |bytes|, isNumber && OnlyDigits(bytes))
      && name + |bytes| <= |buffer| && buffer[name..name + |bytes|] == bytes
    case Bad(code, offset) => r == Error(code, offset)
    case End => false
  }

  /** The escapes and the end of the inner loop of Parse, for the character `c`. */
  method PutCharacter(source: Text, i: nat, c: Byte, buffer: array<Byte>, name: nat, isNumber: bool)
      returns (r: UnitRead)
    requires i <= |source| && name < buffer.Length
    modifies buffer
    ensures ReadsUnit(Escaped(source, i, c), r, name, isNumber, buffer[..])
    ensures forall k :: 0 <= k < name ==> buffer[k] == old(buffer[k])
  {
    var ch, j := c, i;
    if ch == TILDE {
      if j < |source| {
        ch := source[j];
        if ch == ZERO {
          ch := TILDE;
        } else if ch == ONE {
          ch := SOLIDUS;
        } else {
          return Error(InvalidEscape, j);
        }
        j := j + 1;
      } else {
        return Error(InvalidEscape, j);
      }
    }
    var digit := !(ch < 0x30 || ch > 0x39);
    buffer[name] := ch;
    assert buffer[name..name + 1] == [ch];
    assert OnlyDigits([ch]) <==> IsDigit([ch][0]);
    return Put(j, name + 1, isNumber && digit);
  }

  /** A percent-encoded character. */
  method ReadPercent(source: Text, i: nat, buffer: array<Byte>, name: nat, isNumber: bool)
      returns (r: UnitRead)
    requires i < |source| == buffer.Length && name < i && source[i] == PERCENT
    modifies buffer
    ensures ReadsUnit(NextUnit(source, i, true), r, name, isNumber, buffer[..])
    ensures forall k :: 0 <= k < name ==> buffer[k] == old(buffer[k])
  {
    hide PercentText, Utf8.Decode, Triplet, Escaped;
    PercentTextLength(source, i);
    var stream := new PercentDecodeStream(source, i);
    var ok := Validate(stream, buffer, name);
    ghost var p := PercentText(source, i);
    LongIsNoDigit(p);
    if !ok || !stream.valid {
      return Error(InvalidPercentEncoding, i);
    }
    var length := (stream.pos - i) / 3;
    SliceIs(buffer[..], name, p, length);
    if length == 1 {
      var c := buffer[name];
      r := PutCharacter(source, stream.pos, c, buffer, name, isNumber);
    } else {
      return Put(stream.pos, name + length, false);
    }
  }

  lemma SliceIs(b: seq<Byte>, start: nat, p: Text, n: nat)
    requires start + n <= |b| && n <= |p| && forall k :: 0 <= k < n ==> b[start + k] == p[k]
    ensures b[start..start + n] == p[..n]
  {
  }

  lemma LongIsNoDigit(p: Text)
    ensures var d := Utf8.Decode(p, 0);
            1 <= d.next <= 4 && (d.next != 1 && d.next <= |p| ==> !OnlyDigits(p[..d.next]) || !d.ok)
  {
    var d := Utf8.Decode(p, 0);
    if d.next != 1 && d.next <= |p| {
      assert p[..d.next][0] == p[0];
    }
  }

  method ReadUnit(source: Text, i: nat, uri: bool, buffer: array<Byte>, name: nat, isNumber: bool)
      returns (r: UnitRead)
    requires i < |source| == buffer.Length && name < i && source[i] != SOLIDUS
    modifies buffer
    ensures ReadsUnit(NextUnit(source, i, uri), r, name, isNumber, buffer[..])
    ensures forall k :: 0 <= k < name ==> buffer[k] == old(buffer[k])
  {
    var c := source[i];
    if uri {
      if c == PERCENT {
        r := ReadPercent(source, i, buffer, name, isNumber);
        return;
      } else if NeedPercentEncode(c) {
        return Error(CharacterMustPercentEncode, i);
      }
    }
    r := PutCharacter(source, i + 1, c, buffer, name, isNumber);
  }

  /* ---- a whole name ---- */

  function Prepend(b: Text, n: Name): Name {
    if n.Name? then Name(b + n.name, n.next) else n
  }

  lemma PrependUnit(s: Text, i: nat, uri: bool, b: Text, whole: Name)
    requires i <= |s| && NextUnit(s, i, uri).Unit? && whole == Prepend(b, ReadName(s, i, uri))
    ensures var u := NextUnit(s, i, uri); whole == Prepend(b + u.bytes, ReadName(s, u.next, uri))
  {
    var u := NextUnit(s, i, uri);
    var rest := ReadName(s, u.next, uri);
    hide NextUnit;
    if rest.Name? {
      assert b + (u.bytes + rest.name) == (b + u.bytes) + rest.name;
    }
  }

  lemma AllDigitsConcat(a: Text, b: Text)
    ensures OnlyDigits(a + b) <==> OnlyDigits(a) && OnlyDigits(b)
  {
    assert forall k :: 0 <= k < |a| ==> (a + b)[k] == a[k];
    assert forall k :: 0 <= k < |b| ==> (a + b)[|a| + k] == b[k];
  }

  /** `done` has been read of the name that begins at `start` and is in the buffer from `from` on. */
  ghost predicate NameSoFar(source: Text, start: nat, uri: bool, buffer: seq<Byte>, from: nat, r: UnitRead,
                            done: Text) {
    && r.Put? && start <= r.i <= |source| == |buffer| && r.name == from + |done| < r.i
    && ReadName(source, start, uri) == Prepend(done, ReadName(source, r.i, uri))
    && r.isNumber == OnlyDigits(done) && buffer[from..r.name] == done
  }

  /** One turn of the inner loop of Parse. */
  method ReadMore(source: Text, start: nat, uri: bool, buffer: array<Byte>, from: nat, r: UnitRead, ghost done: Text)
      returns (next: UnitRead, ghost more: Text)
    requires NameSoFar(source, start, uri, buffer[..], from, r, done) && from < start
    requires r.i < |source| && source[r.i] != SOLIDUS
    modifies buffer
    ensures if next.Put? then NameSoFar(source, start, uri, buffer[..], from, next, more) && r.i < next.i <= |source|
            else ReadName(source, start, uri) == BadName(next.code, next.offset)
    ensures forall k :: 0 <= k < from ==> buffer[k] == old(buffer[k])
  {
    hide NextUnit, OnlyDigits, ReadName, Prepend;
    ghost var before := buffer[..];
    next := ReadUnit(source, r.i, uri, buffer, r.name, r.isNumber);
    ghost var u := NextUnit(source, r.i, uri);
    if next.Error? {
      StopsAtBad(source, r.i, uri);
      PrependBad(done, ReadName(source, r.i, uri));
      more := done;
    } else {
      PrependUnit(source, r.i, uri, done, ReadName(source, start, uri));
      AllDigitsConcat(done, u.bytes);
      assert buffer[from..r.name] == before[from..r.name];
      assert buffer[from..next.name] == buffer[from..r.name] + buffer[r.name..next.name];
      more := done + u.bytes;
    }
  }

  lemma NameBegins(source: Text, start: nat, uri: bool, buffer: seq<Byte>, from: nat)
    requires from < start <= |source| == |buffer|
    ensures NameSoFar(source, start, uri, buffer, from, Put(start, from, true), [])
  {
    PrependNothing(ReadName(source, start, uri));
    assert OnlyDigits([]);
    hide ReadName, OnlyDigits, Prepend;
  }

  lemma NameEnds(source: Text, start: nat, uri: bool, buffer: seq<Byte>, from: nat, r: UnitRead, done: Text)
    requires NameSoFar(source, start, uri, buffer, from, r, done) && (r.i == |source| || source[r.i] == SOLIDUS)
    ensures ReadName(source, start, uri) == Name(done, r.i)
    ensures r == Put(r.i, from + |done|, OnlyDigits(done)) && from + |done| <= |buffer|
    ensures buffer[from..from + |done|] == done
  {
    hide ReadName, OnlyDigits, Prepend;
    StopsAtEnd(source, r.i, uri);
    PrependEnd(done, r.i);
  }

  /** The inner loop of Parse. */
  method ReadUnits(source: Text, start: nat, uri: bool, buffer: array<Byte>, from: nat)
      returns (r: UnitRead, ghost done: Text)
    requires from < start <= |source| == buffer.Length
    modifies buffer
    ensures if r.Put? then NameSoFar(source, start, uri, buffer[..], from, r, done)
                           && r.i <= |source| && (r.i == |source| || source[r.i] == SOLIDUS)
            else ReadName(source, start, uri) == BadName(r.code, r.offset)
    ensures forall k :: 0 <= k < from ==> buffer[k] == old(buffer[k])
  {
    hide ReadName, OnlyDigits, NameSoFar;
    r := Put(start, from, true);
    done := [];
    NameBegins(source, start, uri, buffer[..], from);
    while r.i < |source| && source[r.i] != SOLIDUS
      invariant r.Put? && r.i <= |source| && NameSoFar(source, start, uri, buffer[..], from, r, done)
      invariant forall k :: 0 <= k < from ==> buffer[k] == old(buffer[k])
      decreases |source| - r.i
    {
      r, done := ReadMore(source, start, uri, buffer, from, r, done);
      if r.Error? {
        return;
      }
    }
  }

  /** Reads the name behind a '/' into the buffer. */
  method ReadNameInto(source: Text, start: nat, uri: bool, buffer: array<Byte>, from: nat) returns (r: UnitRead)
    requires from < start <= |source| == buffer.Length
    modifies buffer
    ensures match ReadName(source, start, uri)
            case Name(name, next) =>
              && r == Put(next, from + |name|, OnlyDigits(name)) && from + |name| <= buffer.Length
              && buffer[from..from + |name|] == name
            case BadName(code, offset) => r == Error(code, offset)
    ensures forall k :: 0 <= k < from ==> buffer[k] == old(buffer[k])
  {
    hide ReadName, OnlyDigits, NameSoFar;
    ghost var done;
    r, done := ReadUnits(source, start, uri, buffer, from);
    if r.Put? {
      NameEnds(source, start, uri, buffer[..], from, r, done);
      assert buffer[from..from + |done|] == buffer[..][from..from + |done|];
    }
  }

  lemma PrependNothing(n: Name)
    ensures Prepend([], n) == n
  {
    if n.Name? {
      assert [] + n.name == n.name;
    }
  }

  lemma PrependEnd(b: Text, i: nat)
    ensures Prepend(b, Name([], i)) == Name(b, i)
  {
    assert b + [] == b;
  }

  lemma PrependBad(b: Text, n: Name)
    requires n.BadName?
    ensures Prepend(b, n) == n
  {
  }

  lemma StopsAtBad(s: Text, i: nat, uri: bool)
    requires i <= |s|
    ensures NextUnit(s, i, uri).Bad? ==>
      ReadName(s, i, uri) == BadName(NextUnit(s, i, uri).code, NextUnit(s, i, uri).offset)
  {
    hide NextUnit;
  }

  lemma StopsAtEnd(s: Text, i: nat, uri: bool)
    requires i == |s| || (i < |s| && s[i] == SOLIDUS)
    ensures ReadName(s, i, uri) == Name([], i)
  {
  }

  /** The conversion loop of Parse. */
  method ConvertName(name: Text, isNumber: bool) returns (index: nat)
    requires isNumber <==> OnlyDigits(name)
    ensures index == IndexOf(name)
  {
    var number := isNumber;
    if |name| == 0 {
      number := false;
    }
    if number && |name| > 1 && name[0] == ZERO {
      number := false;
    }
    var n: nat := 0;
    if number {
      var j := 0;
      while j < |name|
        invariant 0 <= j <= |name| && n <= INVALID_INDEX && number
        invariant Convert(name, 0, 0) == Convert(name, j, n)
      {
        var m := (n * 10 + (name[j] - ZERO)) % 0x1_0000_0000;
        if m < n {
          number := false;
          break;
        }
        n := m;
        j := j + 1;
      }
    }
    index := if number then n else INVALID_INDEX;
  }

  /* ---- the whole pointer ---- */

  /** A token points into the name buffer. */
  datatype RawToken = RawToken(start: nat, length: nat, index: nat)

  function Named(raw: RawToken, buffer: seq<Byte>): Token {
    Token(if raw.start + raw.length <= |buffer| then buffer[raw.start..raw.start + raw.length] else [], raw.index)
  }

  function AllNamed(raw: seq<RawToken>, buffer: seq<Byte>): seq<Token> {
    if raw == [] then [] else AllNamed(raw[..|raw| - 1], buffer) + [Named(raw[|raw| - 1], buffer)]
  }

  /** The tokens so far are all within the first `name` bytes of the buffer. */
  predicate Within(raw: seq<RawToken>, name: nat) {
    forall k :: 0 <= k < |raw| ==> raw[k].start + raw[k].length <= name
  }

  lemma {:induction false} NamesKept(raw: seq<RawToken>, a: seq<Byte>, b: seq<Byte>, name: nat)
    requires Within(raw, name) && name <= |a| == |b| && a[..name] == b[..name]
    ensures AllNamed(raw, a) == AllNamed(raw, b)
    decreases |raw|
  {
    if raw != [] {
      NamesKept(raw[..|raw| - 1], a, b, name);
      NameKept(raw[|raw| - 1], a, b, name);
    }
  }

  lemma NameKept(t: RawToken, a: seq<Byte>, b: seq<Byte>, name: nat)
    requires t.start + t.length <= name <= |a| == |b| && a[..name] == b[..name]
    ensures Named(t, a) == Named(t, b)
  {
    assert a[t.start..t.start + t.length] == a[..name][t.start..t.start + t.length];
    assert b[t.start..t.start + t.length] == b[..name][t.start..t.start + t.length];
  }

  lemma TokenFilled(raw: seq<RawToken>, t: RawToken, before: seq<Byte>, buffer: seq<Byte>)
    requires Within(raw, t.start) && t.start + t.length < |before| == |buffer|
    requires forall k :: 0 <= k < t.start ==> buffer[k] == before[k]
    ensures Within(raw + [t], t.start + t.length + 1)
    ensures AllNamed(raw + [t], buffer[t.start + t.length := NUL])
            == AllNamed(raw, before) + [Token(buffer[t.start..t.start + t.length], t.index)]
  {
    hide Within, AllNamed;
    Terminated(before, buffer, t.start, t.start + t.length);
    TokenAdded(raw, t, before, buffer[t.start + t.length := NUL]);
  }

  /** A terminator behind the name changes neither the name nor what is in front of it. */
  lemma Terminated(before: seq<Byte>, buffer: seq<Byte>, start: nat, end: nat)
    requires |before| == |buffer| && start <= end < |buffer| && forall k :: 0 <= k < start ==> buffer[k] == before[k]
    ensures var after := buffer[end := NUL];
            after[..start] == before[..start] && after[start..end] == buffer[start..end]
  {
  }

  lemma TokenAdded(raw: seq<RawToken>, t: RawToken, before: seq<Byte>, after: seq<Byte>)
    requires Within(raw, t.start) && t.start + t.length < |before| == |after| && before[..t.start] == after[..t.start]
    ensures Within(raw + [t], t.start + t.length + 1)
    ensures AllNamed(raw + [t], after)
            == AllNamed(raw, before) + [Token(after[t.start..t.start + t.length], t.index)]
  {
    NamesKept(raw, before, after, t.start);
    NamedSnoc(raw, t, after);
  }

  function Then(done: seq<Token>, rest: Parsed): Parsed {
    if rest.Tokens? then Tokens(done + rest.tokens) else rest
  }

  lemma ThenToken(s: Text, i: nat, uri: bool, done: seq<Token>)
    requires i < |s| && s[i] == SOLIDUS
    ensures var n := ReadName(s, i + 1, uri);
            Then(done, ReadTokens(s, i, uri)) ==
            if n.Name? then Then(done + [Token(n.name, IndexOf(n.name))], ReadTokens(s, n.next, uri))
            else Failed(n.code, n.offset)
  {
    hide IndexOf, ReadName;
    var n := ReadName(s, i + 1, uri);
    if n.Name? {
      var rest := ReadTokens(s, n.next, uri);
      var t := Token(n.name, IndexOf(n.name));
      if rest.Tokens? {
        assert done + ([t] + rest.tokens) == (done + [t]) + rest.tokens;
      }
    }
  }

  method CountTokens(source: Text) returns (count: nat)
    ensures count == Solidi(source, 0)
  {
    count := 0;
    var k := 0;
    while k < |source|
      invariant 0 <= k <= |source| && count + Solidi(source, k) == Solidi(source, 0)
    {
      if source[k] == SOLIDUS {
        count := count + 1;
      }
      k := k + 1;
    }
  }

  class Pointer {
    var nameBuffer: array<Byte>
    var tokens: array<RawToken>
    var failure: Parsed          // Failed(code, offset), or Tokens([]) if parsing succeeded

    ghost function Value(): Parsed
      reads this, tokens, nameBuffer
    {
      if failure.Failed? then failure else Tokens(AllNamed(tokens[..], nameBuffer[..]))
    }

    constructor ()
      ensures Value() == Tokens([])
    {
      nameBuffer, tokens, failure := new Byte[0], new RawToken[0](_ => RawToken(0, 0, 0)), Tokens([]);
    }

    /** What the outer loop of Parse has done when it is at `i`, having filled `k` tokens and the
        buffer up to `name`. */
    ghost predicate SoFar(source: Text, first: nat, i: nat, k: nat, name: nat, uri: bool)
      reads this, tokens, nameBuffer
    {
      && first <= |source| && i <= |source| && (first == |source| || source[first] == SOLIDUS)
      && (i == |source| || source[i] == SOLIDUS)
      && nameBuffer.Length == |source| && name <= i
      && k + Solidi(source, i) == tokens.Length
      && Within(tokens[..k], name)
      && Then(AllNamed(tokens[..k], nameBuffer[..]), ReadTokens(source, i, uri)) == ReadTokens(source, first, uri)
    }

    /** Reads the name behind a '/' and fills in its token. */
    method FillToken(source: Text, start: nat, k: nat, name: nat, uri: bool) returns (r: UnitRead)
      requires name < start <= |source| == nameBuffer.Length && k < tokens.Length && Within(tokens[..k], name)
      modifies tokens, nameBuffer
      ensures var n := ReadName(source, start, uri);
              if n.Name? then
                && r.Put? && r.i == n.next && r.name <= n.next && Within(tokens[..k + 1], r.name)
                && AllNamed(tokens[..k + 1], nameBuffer[..])
                   == old(AllNamed(tokens[..k], nameBuffer[..])) + [Token(n.name, IndexOf(n.name))]
              else r == Error(n.code, n.offset)
    {
      hide ReadName, IndexOf, AllNamed;
      ghost var before, raw := nameBuffer[..], tokens[..k];
      r := ReadNameInto(source, start, uri, nameBuffer, name);
      if r.Error? {
        return;
      }
      var text := nameBuffer[name..r.name];
      var index := ConvertName(text, r.isNumber);
      ghost var buffer := nameBuffer[..];
      nameBuffer[r.name] := NUL;
      var t := RawToken(name, r.name - name, index);
      tokens[k] := t;
      assert tokens[..k + 1] == raw + [t];
      TokenFilled(raw, t, before, buffer);
      assert nameBuffer[..] == buffer[r.name := NUL];
      r := Put(r.i, r.name + 1, r.isNumber);
    }

    /** One turn of the outer loop. */
    method ParseToken(source: Text, ghost first: nat, i: nat, k: nat, name: nat, uri: bool) returns (r: UnitRead)
      requires SoFar(source, first, i, k, name, uri) && i < |source|
      modifies tokens, nameBuffer
      ensures if r.Put? then i < r.i && SoFar(source, first, r.i, k + 1, r.name, uri)
              else ReadTokens(source, first, uri) == Failed(r.code, r.offset)
    {
      ThenToken(source, i, uri, AllNamed(tokens[..k], nameBuffer[..]));
      if ReadName(source, i + 1, uri).Name? {
        NameHasNoSolidus(source, i + 1, uri);
      }
      hide ReadTokens, ReadName, IndexOf, AllNamed, Within, Then;
      r := FillToken(source, i + 1, k, name, uri);
    }

    /** The outer loop of Parse. */
    method ParseTokens(source: Text, first: nat, uri: bool) returns (r: UnitRead)
      requires SoFar(source, first, first, 0, 0, uri)
      modifies tokens, nameBuffer
      ensures if r.Put? then ReadTokens(source, first, uri) == Tokens(AllNamed(tokens[..], nameBuffer[..]))
              else ReadTokens(source, first, uri) == Failed(r.code, r.offset)
    {
      hide ReadTokens, AllNamed, Then, Within;
      r := Put(first, 0, true);
      var k := 0;
      while r.i < |source|
        invariant r.Put? && SoFar(source, first, r.i, k, r.name, uri)
        decreases |source| - r.i
      {
        r := ParseToken(source, first, r.i, k, r.name, uri);
        if r.Error? {
          return;
        }
        k := k + 1;
      }
      assert tokens[..k] == tokens[..];
      ThenEnd(source, uri, AllNamed(tokens[..], nameBuffer[..]));
    }

    /** Parses a JSON Pointer, or its URI fragment representation. */
    method Parse(source: Text)
      modifies this
      ensures Value() == JsonPointer.Parse(source)
      ensures !failure.Failed? ==> fresh(tokens) && tokens.Length == Solidi(source, 0)
      ensures fresh(nameBuffer) && nameBuffer.Length == |source|
    {
      var count := CountTokens(source);
      tokens := new RawToken[count](_ => RawToken(0, 0, 0));
      nameBuffer := new Byte[|source|];
      failure := Tokens([]);
      var i, uri := 0, false;
      if Peek(source, i) == HASH {
        uri := true;
        i := 1;
      }
      if i != |source| && source[i] != SOLIDUS {
        failure := Failed(TokenMustBeginWithSolidus, i);
        return;
      }
      SkipSolidi(source, 0, i);
      ThenNothing(ReadTokens(source, i, uri), nameBuffer[..]);
      ParseFrom(source);
      hide ReadTokens, JsonPointer.Parse, AllNamed, Then;
      assert tokens[..0] == [];
      var r := ParseTokens(source, i, uri);
      if r.Error? {
        failure := Failed(r.code, r.offset);
        tokens := new RawToken[0](_ => RawToken(0, 0, 0));
      }
    }
  }

  lemma ParseFrom(s: Text)
    ensures var uri := Peek(s, 0) == HASH; var i := if uri then 1 else 0;
            i <= |s| && (i == |s| || s[i] == SOLIDUS ==> JsonPointer.Parse(s) == ReadTokens(s, i, uri))
  {
  }

  lemma ThenNothing(rest: Parsed, buffer: seq<Byte>)
    ensures Then(AllNamed([], buffer), rest) == rest
  {
    if rest.Tokens? {
      assert [] + rest.tokens == rest.tokens;
    }
  }

  lemma ThenEnd(s: Text, uri: bool, done: seq<Token>)
    ensures Then(done, ReadTokens(s, |s|, uri)) == Tokens(done)
  {
    assert done + [] == done;
  }

  lemma NamedSnoc(raw: seq<RawToken>, t: RawToken, buffer: seq<Byte>)
    ensures AllNamed(raw + [t], buffer) == AllNamed(raw, buffer) + [Named(t, buffer)]
  {
    assert (raw + [t])[..|raw|] == raw;
  }

  /* ---- printing ---- */

  /** PercentEncodeStream: every unit as a %XY triplet. */
  method PutPercent(u: Text, os: OutputStream)
    modifies os
    ensures os.out == old(os.out) + Percent(u)
  {
    var k := 0;
    assert u[0..] == u;
    while k < |u|
      invariant 0 <= k <= |u| && os.out + Percent(u[k..]) == old(os.out) + Percent(u)
    {
      var triplet: Text := [PERCENT, JsonString.HexDigit(u[k] / 16), JsonString.HexDigit(u[k] % 16)];
      assert u[k..][1..] == u[k + 1..];
      assert Percent(u[k..]) == triplet + Percent(u[k + 1..]);
      assert (os.out + triplet) + Percent(u[k + 1..]) == os.out + (triplet + Percent(u[k + 1..]));
      os.PutAll(triplet);
      k := k + 1;
    }
  }

  /** A character in percent-encoding. */
  method PutCoded(name: Text, j: nat, os: OutputStream) returns (ok: bool, next: nat)
    requires j < |name|
    modifies os
    ensures var d := Utf8.Decode(name, j);
            && ok == d.ok && (ok ==> j <= d.next <= |name| && next == d.next)
            && (ok ==> os.out == old(os.out) + Percent(name[j..d.next]))
  {
    hide Utf8.Decode, Percent;
    var input := new InputStream(name);
    var units := new OutputStream();
    input.pos := j;
    ok := Utf8.Validate(input, units);
    next := input.pos;
    if ok {
      Utf8.DecodeSound(name, j);
      assert units.out == Utf8.Units(name, j, next);
      Utf8.UnitsSlice(name, j, next);
      PutPercent(units.out, os);
    }
  }

  /** One turn of Stringify's inner loop. */
  method PutUnit(name: Text, j: nat, uri: bool, os: OutputStream) returns (ok: bool, next: nat)
    requires j < |name|
    modifies os
    ensures ok <==> ShowUnit(name, j, uri).Shown?
    ensures ok ==> next == ShowUnit(name, j, uri).next && os.out == old(os.out) + ShowUnit(name, j, uri).text
  {
    var c := name[j];
    if c == TILDE {
      os.PutAll([TILDE, ZERO]);
    } else if c == SOLIDUS {
      os.PutAll([TILDE, ONE]);
    } else if uri && NeedPercentEncode(c) {
      ok, next := PutCoded(name, j, os);
      return;
    } else {
      os.Put(c);
    }
    return true, j + 1;
  }

  /** The rest of a text behind the part that is already out. */
  function Behind(text: Text, rest: Option<Text>): Option<Text> {
    if rest.Some? then Some(text + rest.value) else None
  }

  lemma BehindUnit(text: Text, name: Text, j: nat, uri: bool)
    requires j < |name|
    ensures var u := ShowUnit(name, j, uri);
            Behind(text, ShowName(name, j, uri)) ==
            if u.Shown? then Behind(text + u.text, ShowName(name, u.next, uri)) else None
  {
    var u := ShowUnit(name, j, uri);
    hide ShowUnit;
    if u.Shown? && ShowName(name, u.next, uri).Some? {
      var rest := ShowName(name, u.next, uri).value;
      assert text + (u.text + rest) == (text + u.text) + rest;
    }
  }

  lemma BehindName(text: Text, tokens: seq<Token>, k: nat, uri: bool)
    requires k < |tokens|
    ensures var t := ShowName(tokens[k].name, 0, uri);
            Behind(text, ShowTokens(tokens[k..], uri)) ==
            if t.Some? then Behind(text + [SOLIDUS] + t.value, ShowTokens(tokens[k + 1..], uri)) else None
  {
    assert tokens[k..][1..] == tokens[k + 1..];
    var t, rest := ShowName(tokens[k].name, 0, uri), ShowTokens(tokens[k + 1..], uri);
    hide ShowName;
    if t.Some? && rest.Some? {
      assert text + ([SOLIDUS] + t.value + rest.value) == (text + [SOLIDUS] + t.value) + rest.value;
    }
  }

  lemma BehindNothing(rest: Option<Text>)
    ensures Behind([], rest) == rest
  {
    if rest.Some? {
      assert [] + rest.value == rest.value;
    }
  }

  lemma BehindAll(text: Text)
    ensures Behind(text, Some([])) == Some(text)
  {
    assert text + [] == text;
  }

  method PutName(name: Text, uri: bool, os: OutputStream) returns (ok: bool)
    modifies os
    ensures ok <==> ShowName(name, 0, uri).Some?
    ensures ok ==> os.out == old(os.out) + ShowName(name, 0, uri).value
  {
    var j := 0;
    ghost var text: Text := [];
    BehindNothing(ShowName(name, 0, uri));
    while j < |name|
      invariant 0 <= j <= |name|
      invariant ShowName(name, 0, uri) == Behind(text, ShowName(name, j, uri))
      invariant os.out == old(os.out) + text
      decreases |name| - j
    {
      hide ShowUnit, ShowName, Behind;
      BehindUnit(text, name, j, uri);
      ghost var before := os.out;
      var next;
      ok, next := PutUnit(name, j, uri, os);
      if !ok {
        return;
      }
      Associative(old(os.out), text, ShowUnit(name, j, uri).text);
      text := text + ShowUnit(name, j, uri).text;
      j := next;
    }
    BehindAll(text);
    ok := true;
  }

  method Stringify(tokens: seq<Token>, uri: bool, os: OutputStream) returns (ok: bool)
    modifies os
    ensures ok <==> JsonPointer.Stringify(tokens, uri).Some?
    ensures ok ==> os.out == old(os.out) + JsonPointer.Stringify(tokens, uri).value
  {
    ghost var text: Text := [];
    if uri {
      os.Put(HASH);
      text := [HASH];
    }
    assert tokens[0..] == tokens;
    BehindNothing(ShowTokens(tokens, uri));
    assert JsonPointer.Stringify(tokens, uri) == Behind(text, ShowTokens(tokens, uri));
    for k := 0 to |tokens|
      invariant JsonPointer.Stringify(tokens, uri) == Behind(text, ShowTokens(tokens[k..], uri))
      invariant os.out == old(os.out) + text
    {
      hide ShowName, ShowTokens, JsonPointer.Stringify;
      BehindName(text, tokens, k, uri);
      os.Put(SOLIDUS);
      ok := PutName(tokens[k].name, uri, os);
      if !ok {
        BehindFails(text);
        return;
      }
      ghost var shown := ShowName(tokens[k].name, 0, uri).value;
      Associative(old(os.out), text, [SOLIDUS]);
      Associative(old(os.out), text + [SOLIDUS], shown);
      text := text + [SOLIDUS] + shown;
    }
    BehindAll(text);
    ok := true;
  }

  lemma BehindFails(text: Text)
    ensures Behind(text, None) == None
  {
  }
}
