/** JSON Pointer, RFC 6901: its parser and its printer, in the plain form and in the URI fragment form
    (3rdparty/rapidjson/pointer.h, Parse and Stringify). */
module JsonPointer {
  import opened Bytes
  import opened Digits
  import opened Wrappers
  import Arithmetic
  import JsonString
  import Utf8

  const HASH: Byte := 0x23
  const PERCENT: Byte := 0x25
  const ONE: Byte := 0x31
  const TILDE: Byte := 0x7E

  const INVALID_INDEX: nat := 0xFFFF_FFFF

  datatype Token = Token(name: Text, index: nat)

  datatype ErrorCode = TokenMustBeginWithSolidus | InvalidEscape | InvalidPercentEncoding | CharacterMustPercentEncode

  datatype Parsed = Tokens(tokens: seq<Token>) | Failed(code: ErrorCode, offset: nat)

  /** All but the unreserved characters of section 2.3 of RFC 3986. */
  predicate NeedPercentEncode(c: Byte) {
    !(IsDigit(c) || 0x41 <= c <= 0x5A || 0x61 <= c <= 0x7A || c == MINUS || c == DOT || c == 0x5F || c == TILDE)
  }

  /* ---- reading one unit of a name ---- */

  /** The byte that a %XY triplet at `i` stands for, -1 if there is none. */
  function Triplet(s: Text, i: nat): (v: int)
    ensures -1 <= v < 256 && (v >= 0 ==> i + 3 <= |s|)
  {
    if Peek(s, i) == PERCENT && i + 3 <= |s| then
      var hi, lo := JsonString.HexValue(s[i + 1]), JsonString.HexValue(s[i + 2]);
      if hi < 0 || lo < 0 then -1 else hi * 16 + lo
    else -1
  }

  /** What PercentDecodeStream delivers from `i` on until it becomes invalid. */
  function PercentText(s: Text, i: nat): Text
    decreases |s| - i
  {
    var v := Triplet(s, i);
    if v < 0 then [] else [v] + PercentText(s, i + 3)
  }

  datatype Unit = Unit(bytes: Text, next: nat) | End | Bad(code: ErrorCode, offset: nat)

  /** A character `c`, read up to `i`, with "~0" and "~1" resolved. */
  function Escaped(s: Text, i: nat, c: Byte): Unit {
    if c != TILDE then Unit([c], i)
    else if Peek(s, i) == ZERO then Unit([TILDE], i + 1)
    else if Peek(s, i) == ONE then Unit([SOLIDUS], i + 1)
    else Bad(InvalidEscape, i)
  }

  function NextUnit(s: Text, i: nat, uri: bool): (u: Unit)
    ensures u.Unit? ==> i < u.next <= |s| && 0 < |u.bytes| <= u.next - i
  {
    if i >= |s| || s[i] == SOLIDUS then End
    else if uri && s[i] == PERCENT then
      PercentTextLength(s, i);
      var p := PercentText(s, i);
      var d := Utf8.Decode(p, 0);
      if !d.ok || d.next > |p| then Bad(InvalidPercentEncoding, i)
      else if d.next == 1 then Escaped(s, i + 3, p[0])
      else Unit(p[..d.next], i + 3 * d.next)
    else if uri && NeedPercentEncode(s[i]) then Bad(CharacterMustPercentEncode, i)
    else Escaped(s, i + 1, s[i])
  }

  lemma {:induction false} PercentTextLength(s: Text, i: nat)
    ensures i <= |s| ==> i + 3 * |PercentText(s, i)| <= |s|
    ensures i > |s| ==> PercentText(s, i) == []
    decreases |s| - i
  {
    if Triplet(s, i) >= 0 {
      PercentTextLength(s, i + 3);
    }
  }

  /* ---- parsing ---- */

  datatype Name = Name(name: Text, next: nat) | BadName(code: ErrorCode, offset: nat)

  /** The name that ends at the next '/' or at the end. */
  function ReadName(s: Text, i: nat, uri: bool): (n: Name)
    requires i <= |s|
    ensures n.Name? ==> i <= n.next <= |s| && |n.name| <= n.next - i && (n.next == |s| || s[n.next] == SOLIDUS)
    decreases |s| - i
  {
    match NextUnit(s, i, uri)
    case End => Name([], i)
    case Bad(code, offset) => BadName(code, offset)
    case Unit(bytes, next) =>
      match ReadName(s, next, uri)
      case Name(rest, end) => Name(bytes + rest, end)
      case BadName(code, offset) => BadName(code, offset)
  }

  predicate OnlyDigits(name: Text) {
    AllDigits(name, 0, |name|)
  }

  /** An array index in the sense of section 4 of RFC 6901. */
  predicate IsNumber(name: Text) {
    |name| > 0 && OnlyDigits(name) && !(|name| > 1 && name[0] == ZERO)
  }

  /** The conversion loop on 32-bit numbers, with its test for overflow; -1 if the test fires. */
  function Convert(name: Text, j: nat, n: nat): (r: int)
    requires j <= |name| && OnlyDigits(name) && n <= INVALID_INDEX
    ensures -1 <= r <= INVALID_INDEX
    decreases |name| - j
  {
    if j == |name| then n
    else
      var m := (n * 10 + (name[j] - ZERO)) % 0x1_0000_0000;
      if m < n then -1 else Convert(name, j + 1, m)
  }

  function IndexOf(name: Text): nat {
    if !IsNumber(name) then INVALID_INDEX
    else
      var r := Convert(name, 0, 0);
      if r < 0 then INVALID_INDEX else r
  }

  function ReadTokens(s: Text, i: nat, uri: bool): Parsed
    requires i <= |s| && (i == |s| || s[i] == SOLIDUS)
    decreases |s| - i
  {
    if i == |s| then Tokens([])
    else
      match ReadName(s, i + 1, uri)
      case BadName(code, offset) => Failed(code, offset)
      case Name(name, next) =>
        match ReadTokens(s, next, uri)
        case Failed(code, offset) => Failed(code, offset)
        case Tokens(rest) => Tokens([Token(name, IndexOf(name))] + rest)
  }

  function Parse(s: Text): Parsed {
    var uri := Peek(s, 0) == HASH;
    var i := if uri then 1 else 0;
    if i != |s| && s[i] != SOLIDUS then Failed(TokenMustBeginWithSolidus, i)
    else ReadTokens(s, i, uri)
  }

  /* ---- printing ---- */

  function Percent(u: Text): Text {
    if u == [] then []
    else [PERCENT, JsonString.HexDigit(u[0] / 16), JsonString.HexDigit(u[0] % 16)] + Percent(u[1..])
  }

  datatype Shown = Shown(text: Text, next: nat) | Unshown

  function ShowUnit(name: Text, j: nat, uri: bool): (r: Shown)
    requires j < |name|
    ensures r.Shown? ==> j < r.next <= |name|
  {
    var c := name[j];
    if c == TILDE then Shown([TILDE, ZERO], j + 1)
    else if c == SOLIDUS then Shown([TILDE, ONE], j + 1)
    else if uri && NeedPercentEncode(c) then
      if Utf8.Decode(name, j).ok then
        Utf8.DecodeSound(name, j);
        Shown(Percent(name[j..Utf8.Decode(name, j).next]), Utf8.Decode(name, j).next)
      else Unshown
    else Shown([c], j + 1)
  }

  function ShowName(name: Text, j: nat, uri: bool): Option<Text>
    requires j <= |name|
    decreases |name| - j
  {
    if j == |name| then Some([])
    else
      match ShowUnit(name, j, uri)
      case Unshown => None
      case Shown(t, next) =>
        match ShowName(name, next, uri)
        case None => None
        case Some(rest) => Some(t + rest)
  }

  function ShowTokens(tokens: seq<Token>, uri: bool): Option<Text> {
    if tokens == [] then Some([])
    else
      match ShowName(tokens[0].name, 0, uri)
      case None => None
      case Some(t) =>
        match ShowTokens(tokens[1..], uri)
        case None => None
        case Some(rest) => Some([SOLIDUS] + t + rest)
  }

  function Stringify(tokens: seq<Token>, uri: bool): Option<Text> {
    match ShowTokens(tokens, uri)
    case None => None
    case Some(t) => Some(if uri then [HASH] + t else t)
  }

  /* ---- sizes ---- */

  function Solidi(s: Text, i: nat): nat
    requires i <= |s|
    decreases |s| - i
  {
    if i == |s| then 0 else Solidi(s, i + 1) + if s[i] == SOLIDUS then 1 else 0
  }

  /** The room the names take in the buffer, each with its terminator. */
  function NameBytes(tokens: seq<Token>): nat {
    if tokens == [] then 0 else |tokens[0].name| + 1 + NameBytes(tokens[1..])
  }

  /** No '/' is consumed within a name. */
  lemma {:induction false} UnitHasNoSolidus(s: Text, i: nat, uri: bool)
    requires NextUnit(s, i, uri).Unit?
    ensures forall k :: i <= k < NextUnit(s, i, uri).next ==> s[k] != SOLIDUS
  {
    if uri && s[i] == PERCENT {
      PercentTextLength(s, i);
      TripletsHaveNoSolidus(s, i);
    }
  }

  lemma {:induction false} TripletsHaveNoSolidus(s: Text, i: nat)
    ensures forall k :: i <= k < i + 3 * |PercentText(s, i)| && k < |s| ==> s[k] != SOLIDUS
    decreases |s| - i
  {
    if Triplet(s, i) >= 0 {
      TripletsHaveNoSolidus(s, i + 3);
    }
  }

  lemma {:induction false} SkipSolidi(s: Text, i: nat, j: nat)
    requires i <= j <= |s| && forall k :: i <= k < j ==> s[k] != SOLIDUS
    ensures Solidi(s, i) == Solidi(s, j)
    decreases j - i
  {
    if i < j {
      SkipSolidi(s, i + 1, j);
    }
  }

  lemma {:induction false} NameHasNoSolidus(s: Text, i: nat, uri: bool)
    requires i <= |s| && ReadName(s, i, uri).Name?
    ensures Solidi(s, i) == Solidi(s, ReadName(s, i, uri).next)
    decreases |s| - i
  {
    var u := NextUnit(s, i, uri);
    if u.Unit? {
      UnitHasNoSolidus(s, i, uri);
      SkipSolidi(s, i, u.next);
      hide NextUnit, Solidi;
      NameHasNoSolidus(s, u.next, uri);
    }
  }

  lemma {:induction false} TokenSizes(s: Text, i: nat, uri: bool)
    requires i <= |s| && (i == |s| || s[i] == SOLIDUS) && ReadTokens(s, i, uri).Tokens?
    ensures |ReadTokens(s, i, uri).tokens| == Solidi(s, i)
    ensures i + NameBytes(ReadTokens(s, i, uri).tokens) <= |s|
    decreases |s| - i
  {
    hide IndexOf;
    if i < |s| {
      NameHasNoSolidus(s, i + 1, uri);
      var n := ReadName(s, i + 1, uri);
      hide ReadName;
      TokenSizes(s, n.next, uri);
    }
  }

  /** A parsed pointer has as many tokens as its text has '/', and its names with their terminators fit
      into a buffer of the text's length. */
  lemma ParsedSizes(s: Text)
    requires Parse(s).Tokens?
    ensures |Parse(s).tokens| == Solidi(s, 0)
    ensures NameBytes(Parse(s).tokens) <= |s|
  {
    var i := if Peek(s, 0) == HASH then 1 else 0;
    TokenSizes(s, i, i == 1);
    SkipSolidi(s, 0, i);
  }

  /* ---- round trips ---- */

  lemma TripletAt(s: Text, i: nat, b: Byte)
    requires At(s, i, [PERCENT, JsonString.HexDigit(b / 16), JsonString.HexDigit(b % 16)])
    ensures Triplet(s, i) == b
  {
    var t := [PERCENT, JsonString.HexDigit(b / 16), JsonString.HexDigit(b % 16)];
    AtPeek(s, i, t, 0);
    AtPeek(s, i, t, 1);
    AtPeek(s, i, t, 2);
  }

  /** The percent-encoding of `u` is delivered as `u`. */
  lemma {:induction false} PercentTextAt(s: Text, i: nat, u: Text)
    requires At(s, i, Percent(u))
    ensures |Percent(u)| == 3 * |u|
    ensures |PercentText(s, i)| >= |u| && PercentText(s, i)[..|u|] == u
    decreases |u|
  {
    if u != [] {
      var t := [PERCENT, JsonString.HexDigit(u[0] / 16), JsonString.HexDigit(u[0] % 16)];
      AtSplit(s, i, t, Percent(u[1..]));
      TripletAt(s, i, u[0]);
      hide Triplet;
      PercentTextAt(s, i + 3, u[1..]);
      assert u == [u[0]] + u[1..];
    }
  }

  /** What Stringify writes for one character is read back as that character. */
  lemma UnitRoundTrip(s: Text, i: nat, name: Text, j: nat, uri: bool)
    requires j < |name| && ShowUnit(name, j, uri).Shown? && At(s, i, ShowUnit(name, j, uri).text)
    ensures var r := ShowUnit(name, j, uri);
            NextUnit(s, i, uri) == Unit(name[j..r.next], i + |r.text|)
  {
    var r := ShowUnit(name, j, uri);
    var c := name[j];
    assert name[j..j + 1] == [c];
    if c == TILDE || c == SOLIDUS {
      AtPeek(s, i, r.text, 0);
      AtPeek(s, i, r.text, 1);
    } else if uri && NeedPercentEncode(c) {
      PercentRoundTrip(s, i, name, j);
    } else {
      AtPeek(s, i, r.text, 0);
    }
  }

  lemma PercentStarts(u: Text)
    requires u != []
    ensures Percent(u) != [] && Percent(u)[0] == PERCENT
  {
  }

  lemma PercentRoundTrip(s: Text, i: nat, name: Text, j: nat)
    requires j < |name| && NeedPercentEncode(name[j]) && Utf8.Decode(name, j).ok
    requires Utf8.Decode(name, j).next <= |name| && j <= Utf8.Decode(name, j).next
    requires At(s, i, Percent(name[j..Utf8.Decode(name, j).next]))
    ensures var u := name[j..Utf8.Decode(name, j).next];
            NextUnit(s, i, true) == Unit(u, i + |Percent(u)|)
  {
    assert name[j] != TILDE;
    hide Utf8.Decode, PercentText, Percent, NeedPercentEncode;
    Utf8.DecodeSound(name, j);
    var u := name[j..Utf8.Decode(name, j).next];
    PercentTextAt(s, i, u);
    var p := PercentText(s, i);
    assert At(p, 0, u);
    Utf8.DecodeComplete(p, 0, u);
    PercentStarts(u);
    AtPeek(s, i, Percent(u), 0);
    if |u| == 1 {
      assert u == [name[j]] && p[0] == u[0];
    }
  }

  lemma {:induction false} NameRoundTrip(s: Text, i: nat, name: Text, j: nat, uri: bool)
    requires j <= |name| && ShowName(name, j, uri).Some? && At(s, i, ShowName(name, j, uri).value)
    requires var end := i + |ShowName(name, j, uri).value|; end == |s| || s[end] == SOLIDUS
    ensures ReadName(s, i, uri) == Name(name[j..], i + |ShowName(name, j, uri).value|)
    decreases |name| - j
  {
    hide NextUnit, ShowUnit;
    if j < |name| {
      var r := ShowUnit(name, j, uri);
      AtSplit(s, i, r.text, ShowName(name, r.next, uri).value);
      UnitRoundTrip(s, i, name, j, uri);
      NameRoundTrip(s, i + |r.text|, name, r.next, uri);
      assert name[j..] == name[j..r.next] + name[r.next..];
    } else {
      EndOfName(s, i, uri);
    }
  }

  lemma EndOfName(s: Text, i: nat, uri: bool)
    requires i == |s| || (i < |s| && s[i] == SOLIDUS)
    ensures NextUnit(s, i, uri) == End
  {
  }

  /** The tokens with their indexes computed from their names. */
  function Recomputed(tokens: seq<Token>): seq<Token> {
    if tokens == [] then [] else [Token(tokens[0].name, IndexOf(tokens[0].name))] + Recomputed(tokens[1..])
  }

  lemma {:induction false} ShowTokensStart(tokens: seq<Token>, uri: bool)
    ensures ShowTokens(tokens, uri).Some? ==>
      (tokens == [] ==> ShowTokens(tokens, uri).value == [])
      && (tokens != [] ==> ShowTokens(tokens, uri).value != [] && ShowTokens(tokens, uri).value[0] == SOLIDUS)
  {
  }

  lemma SplitToken(s: Text, i: nat, t: Text, rest: Text)
    requires i <= |s| && s[i..] == [SOLIDUS] + t + rest
    ensures i < |s| && s[i] == SOLIDUS && i + 1 + |t| <= |s| && At(s, i + 1, t) && s[i + 1 + |t|..] == rest
    ensures rest != [] ==> i + 1 + |t| < |s| && s[i + 1 + |t|] == rest[0]
  {
    var w := s[i..];
    assert w[0] == s[i];
    assert w[1..1 + |t|] == t && s[i + 1..i + 1 + |t|] == w[1..1 + |t|];
    assert w[1 + |t|..] == rest && s[i + 1 + |t|..] == w[1 + |t|..];
  }

  lemma {:induction false} TokensRoundTrip(s: Text, i: nat, tokens: seq<Token>, uri: bool)
    requires ShowTokens(tokens, uri).Some? && i <= |s| && s[i..] == ShowTokens(tokens, uri).value
    ensures (i == |s| || s[i] == SOLIDUS) && ReadTokens(s, i, uri) == Tokens(Recomputed(tokens))
    decreases |tokens|
  {
    hide IndexOf, ReadName, ShowName, At;
    if tokens != [] {
      var t := ShowName(tokens[0].name, 0, uri).value;
      FirstToken(s, i, tokens, uri);
      TokensRoundTrip(s, i + 1 + |t|, tokens[1..], uri);
    }
  }

  lemma FirstToken(s: Text, i: nat, tokens: seq<Token>, uri: bool)
    requires ShowTokens(tokens, uri).Some? && i <= |s| && s[i..] == ShowTokens(tokens, uri).value && tokens != []
    ensures i < |s| && s[i] == SOLIDUS
    ensures ShowName(tokens[0].name, 0, uri).Some? && ShowTokens(tokens[1..], uri).Some?
    ensures var end := i + 1 + |ShowName(tokens[0].name, 0, uri).value|;
            && end <= |s| && s[end..] == ShowTokens(tokens[1..], uri).value
            && ReadName(s, i + 1, uri) == Name(tokens[0].name, end)
  {
    hide ReadName, ShowName, At;
    var t := ShowName(tokens[0].name, 0, uri).value;
    var rest := ShowTokens(tokens[1..], uri).value;
    SplitToken(s, i, t, rest);
    ShowTokensStart(tokens[1..], uri);
    assert rest == [] ==> i + 1 + |t| == |s|;
    NameRoundTrip(s, i + 1, tokens[0].name, 0, uri);
    assert tokens[0].name[0..] == tokens[0].name;
  }

  /** Parsing undoes printing: whenever Stringify succeeds, in either form, parsing its text gives the
      tokens back with the same names, byte for byte, and with indexes computed from the names. */
  lemma StringifyRoundTrip(tokens: seq<Token>, uri: bool)
    requires Stringify(tokens, uri).Some?
    ensures Parse(Stringify(tokens, uri).value) == Tokens(Recomputed(tokens))
  {
    var s := Stringify(tokens, uri).value;
    var i := if uri then 1 else 0;
    ShowTokensStart(tokens, uri);
    assert s[i..] == ShowTokens(tokens, uri).value;
    TokensRoundTrip(s, i, tokens, uri);
    hide ShowTokens, ReadTokens;
  }

  /** The plain form can be printed for names of any bytes. */
  lemma {:induction false} PlainNameShows(name: Text, j: nat)
    requires j <= |name|
    ensures ShowName(name, j, false).Some?
    decreases |name| - j
  {
    if j < |name| {
      PlainNameShows(name, ShowUnit(name, j, false).next);
    }
  }

  lemma {:induction false} PlainShows(tokens: seq<Token>)
    ensures ShowTokens(tokens, false).Some?
    decreases |tokens|
  {
    if tokens != [] {
      PlainNameShows(tokens[0].name, 0);
      hide ShowName;
      PlainShows(tokens[1..]);
    }
  }

  /** Hence in the plain form every list of names makes the round trip ... */
  lemma PlainRoundTrip(tokens: seq<Token>)
    ensures Stringify(tokens, false).Some? && Parse(Stringify(tokens, false).value) == Tokens(Recomputed(tokens))
  {
    PlainShows(tokens);
    StringifyRoundTrip(tokens, false);
  }

  lemma ShownIsChar(name: Text, j: nat)
    requires j < |name| && ShowUnit(name, j, true).Shown?
    ensures Utf8.Utf8Char(name[j..ShowUnit(name, j, true).next])
  {
    var c := name[j];
    if c != TILDE && c != SOLIDUS && NeedPercentEncode(c) {
      Utf8.DecodeSound(name, j);
    } else {
      assert name[j..j + 1] == [c];
    }
  }

  lemma CharIsShown(name: Text, j: nat, n: nat)
    requires 1 <= n && j + n <= |name| && Utf8.Utf8Char(name[j..j + n])
    ensures ShowUnit(name, j, true).Shown? && ShowUnit(name, j, true).next == j + n
  {
    var u := name[j..j + n];
    assert u[0] == name[j];
    Utf8.DecodeComplete(name, j, u);
  }

  lemma SuffixSlices(name: Text, j: nat, n: nat)
    requires j + n <= |name|
    ensures name[j..][..n] == name[j..j + n] && name[j..][n..] == name[j + n..]
  {
  }

  /** A well-formed rest begins with a character that is shown. */
  lemma WellFormedShows(name: Text, j: nat)
    requires j < |name| && Utf8.WellFormed(name[j..])
    ensures ShowUnit(name, j, true).Shown? && Utf8.WellFormed(name[ShowUnit(name, j, true).next..])
  {
    hide ShowUnit, Utf8.Utf8Char;
    var w := name[j..];
    var n :| 1 <= n <= |w| && Utf8.Utf8Char(w[..n]) && Utf8.WellFormed(w[n..]);
    SuffixSlices(name, j, n);
    CharIsShown(name, j, n);
  }

  lemma ShownWellFormed(name: Text, j: nat)
    requires j < |name| && ShowUnit(name, j, true).Shown? && Utf8.WellFormed(name[ShowUnit(name, j, true).next..])
    ensures Utf8.WellFormed(name[j..])
  {
    hide ShowUnit, Utf8.Utf8Char;
    var r := ShowUnit(name, j, true);
    ShownIsChar(name, j);
    SuffixSlices(name, j, r.next - j);
  }

  /** A name can be printed in the URI fragment form exactly if it is well-formed UTF-8. */
  lemma {:induction false} UriNameShows(name: Text, j: nat)
    requires j <= |name|
    ensures ShowName(name, j, true).Some? <==> Utf8.WellFormed(name[j..])
    decreases |name| - j
  {
    hide ShowUnit, Utf8.Utf8Char, Utf8.WellFormed;
    if j < |name| {
      var r := ShowUnit(name, j, true);
      if r.Shown? {
        UriNameShows(name, r.next);
        if Utf8.WellFormed(name[r.next..]) {
          ShownWellFormed(name, j);
        }
      }
      if Utf8.WellFormed(name[j..]) {
        WellFormedShows(name, j);
      }
    } else {
      assert name[j..] == [];
      NothingWellFormed();
    }
  }

  lemma NothingWellFormed()
    ensures Utf8.WellFormed([])
  {
  }

  ghost predicate NamesWellFormed(tokens: seq<Token>) {
    forall k :: 0 <= k < |tokens| ==> Utf8.WellFormed(tokens[k].name)
  }

  lemma {:induction false} UriShows(tokens: seq<Token>)
    ensures ShowTokens(tokens, true).Some? <==> NamesWellFormed(tokens)
    decreases |tokens|
  {
    hide ShowName, Utf8.WellFormed;
    if tokens != [] {
      UriNameShows(tokens[0].name, 0);
      assert tokens[0].name[0..] == tokens[0].name;
      UriShows(tokens[1..]);
      assert forall k :: 1 <= k < |tokens| ==> tokens[k] == tokens[1..][k - 1];
      assert forall k :: 0 <= k < |tokens[1..]| ==> tokens[1..][k] == tokens[k + 1];
    }
  }

  /** ... and in the URI fragment form exactly the lists of well-formed UTF-8 names are printed and make
      the round trip. */
  lemma UriRoundTrip(tokens: seq<Token>)
    ensures Stringify(tokens, true).Some? <==> NamesWellFormed(tokens)
    ensures NamesWellFormed(tokens) ==> Parse(Stringify(tokens, true).value) == Tokens(Recomputed(tokens))
  {
    UriShows(tokens);
    if NamesWellFormed(tokens) {
      StringifyRoundTrip(tokens, true);
    }
  }

  /* ---- printing undoes parsing ---- */

  lemma PlainUnitInverse(s: Text, i: nat, name: Text, j: nat)
    requires NextUnit(s, i, false).Unit? && At(name, j, NextUnit(s, i, false).bytes)
    ensures var u := NextUnit(s, i, false);
            |u.bytes| == 1 && ShowUnit(name, j, false) == Shown(s[i..u.next], j + 1)
  {
    var u := NextUnit(s, i, false);
    AtPeek(name, j, u.bytes, 0);
    if s[i] == TILDE {
      assert s[i..u.next] == [s[i], s[i + 1]];
    } else {
      assert s[i..u.next] == [s[i]];
    }
  }

  lemma {:induction false} PlainNameInverse(s: Text, i: nat, name: Text, j: nat)
    requires i <= |s| && j <= |name| && ReadName(s, i, false).Name? && name[j..] == ReadName(s, i, false).name
    ensures ShowName(name, j, false) == Some(s[i..ReadName(s, i, false).next])
    decreases |s| - i
  {
    hide ShowUnit, NextUnit;
    var u := NextUnit(s, i, false);
    if u.Unit? {
      var rest := ReadName(s, u.next, false);
      assert name[j..] == u.bytes + rest.name;
      assert At(name, j, u.bytes + rest.name);
      AtSplit(name, j, u.bytes, rest.name);
      PlainUnitInverse(s, i, name, j);
      PlainNameInverse(s, u.next, name, j + 1);
      assert s[i..rest.next] == s[i..u.next] + s[u.next..rest.next];
    } else {
      assert s[i..i] == [];
    }
  }

  lemma {:induction false} PlainTokensInverse(s: Text, i: nat)
    requires i <= |s| && (i == |s| || s[i] == SOLIDUS) && ReadTokens(s, i, false).Tokens?
    ensures ShowTokens(ReadTokens(s, i, false).tokens, false) == Some(s[i..])
    decreases |s| - i
  {
    hide IndexOf, ReadName, ShowName;
    if i < |s| {
      var n := ReadName(s, i + 1, false);
      assert n.name[0..] == n.name;
      PlainNameInverse(s, i + 1, n.name, 0);
      PlainTokensInverse(s, n.next);
      var ts := ReadTokens(s, i, false).tokens;
      assert ts[1..] == ReadTokens(s, n.next, false).tokens;
      assert s[i..] == [SOLIDUS] + s[i + 1..n.next] + s[n.next..];
    } else {
      assert s[i..] == [];
    }
  }

  /** The plain text of a pointer is unique: printing what was parsed gives the very text back. */
  lemma PlainTextUnique(s: Text)
    requires Peek(s, 0) != HASH && Parse(s).Tokens?
    ensures Stringify(Parse(s).tokens, false) == Some(s)
  {
    PlainTokensInverse(s, 0);
    assert s[0..] == s;
  }

  /* ---- which texts are pointers ---- */

  /** Every '~' from `i` on begins "~0" or "~1". */
  predicate EscapesOk(s: Text, i: nat) {
    forall k :: i <= k < |s| && s[k] == TILDE ==> k + 1 < |s| && s[k + 1] in {ZERO, ONE}
  }

  lemma PlainUnitOk(s: Text, i: nat)
    requires i < |s| && s[i] != SOLIDUS
    ensures var u := NextUnit(s, i, false);
            EscapesOk(s, i) <==> u.Unit? && EscapesOk(s, u.next)
  {
    var u := NextUnit(s, i, false);
    if u.Unit? {
      assert forall k :: i < k < u.next ==> s[k] != TILDE;
    }
  }

  lemma {:induction false} PlainNameOk(s: Text, i: nat)
    requires i <= |s|
    ensures var n := ReadName(s, i, false);
            EscapesOk(s, i) <==> n.Name? && EscapesOk(s, n.next)
    decreases |s| - i
  {
    if i < |s| && s[i] != SOLIDUS {
      PlainUnitOk(s, i);
      var u := NextUnit(s, i, false);
      if u.Unit? {
        PlainNameOk(s, u.next);
      }
      hide EscapesOk;
    }
  }

  lemma {:induction false} PlainTokensOk(s: Text, i: nat)
    requires i <= |s| && (i == |s| || s[i] == SOLIDUS)
    ensures ReadTokens(s, i, false).Tokens? <==> EscapesOk(s, i)
    decreases |s| - i
  {
    if i < |s| {
      PlainNameOk(s, i + 1);
      assert EscapesOk(s, i) <==> EscapesOk(s, i + 1);
      var n := ReadName(s, i + 1, false);
      hide EscapesOk, ReadName, IndexOf;
      if n.Name? {
        PlainTokensOk(s, n.next);
      }
    }
  }

  /** In the plain form exactly the texts of section 3 of RFC 6901 are pointers: the empty text, or one
      that begins with '/' and has '~' only in "~0" and "~1". */
  lemma PlainParsesExactly(s: Text)
    requires Peek(s, 0) != HASH
    ensures Parse(s).Tokens? <==> (s == [] || s[0] == SOLIDUS) && EscapesOk(s, 0)
  {
    if s == [] || s[0] == SOLIDUS {
      PlainTokensOk(s, 0);
    }
  }

  /* ---- indexes ---- */

  /** The number that the first `j` digits make. */
  function Prefix(name: Text, j: nat): nat
    requires j <= |name| && OnlyDigits(name)
  {
    Value(name, 0, j)
  }

  /** What is left of a number in 32 bits. */
  function Low(v: nat): (r: nat)
    ensures r <= INVALID_INDEX
  {
    v % 0x1_0000_0000
  }

  /** From `j` on, every further digit leaves the low 32 bits of the number as great as they were. */
  predicate NeverDecreases(name: Text, j: nat)
    requires j <= |name| && OnlyDigits(name)
  {
    forall k :: j <= k < |name| ==> Low(Prefix(name, k)) <= Low(Prefix(name, k + 1))
  }

  lemma LowDigit(v: nat, d: nat)
    ensures Low(Low(v) * 10 + d) == Low(v * 10 + d)
  {
    var q := v / 0x1_0000_0000;
    assert v == 0x1_0000_0000 * q + Low(v);
    assert v * 10 + d == (Low(v) * 10 + d) + 0x1_0000_0000 * (10 * q);
    Arithmetic.ModAdd(Low(v) * 10 + d, 0x1_0000_0000, 10 * q);
  }

  lemma {:induction false} ConvertExactly(name: Text, j: nat)
    requires j <= |name| && OnlyDigits(name)
    ensures Convert(name, j, Low(Prefix(name, j)))
            == if NeverDecreases(name, j) then Low(Prefix(name, |name|)) else -1
    decreases |name| - j
  {
    if j < |name| {
      LowDigit(Prefix(name, j), name[j] - ZERO);
      ConvertExactly(name, j + 1);
      ConvertTurn(name, j);
      NeverDecreasesTurn(name, j);
      hide Convert, Low, Prefix, NeverDecreases;
    }
  }

  lemma ConvertTurn(name: Text, j: nat)
    requires j < |name| && OnlyDigits(name)
    ensures Convert(name, j, Low(Prefix(name, j))) ==
            if Low(Prefix(name, j + 1)) < Low(Prefix(name, j)) then -1
            else Convert(name, j + 1, Low(Prefix(name, j + 1)))
  {
    LowDigit(Prefix(name, j), name[j] - ZERO);
    assert Prefix(name, j + 1) == Prefix(name, j) * 10 + (name[j] - ZERO);
    hide Prefix;
  }

  lemma NeverDecreasesTurn(name: Text, j: nat)
    requires j < |name| && OnlyDigits(name)
    ensures NeverDecreases(name, j) <==>
            Low(Prefix(name, j)) <= Low(Prefix(name, j + 1)) && NeverDecreases(name, j + 1)
  {
    hide Low, Prefix;
  }

  /** The index of a numeric name: the low 32 bits of its value if they never decrease from digit to
      digit, and no index otherwise. So the test for overflow fires exactly when they decrease once, and
      it misses an overflow exactly when the value has more than 32 bits and they never decrease. */
  lemma IndexExactly(name: Text)
    requires IsNumber(name)
    ensures IndexOf(name) == if NeverDecreases(name, 0) then Low(Prefix(name, |name|)) else INVALID_INDEX
  {
    ConvertExactly(name, 0);
    assert Low(Prefix(name, 0)) == 0;
    hide Convert, Low, Prefix, NeverDecreases;
  }

  lemma {:induction false} PrefixGrows(name: Text, j: nat, k: nat)
    requires j <= k <= |name| && OnlyDigits(name)
    ensures Prefix(name, j) <= Prefix(name, k)
    decreases k - j
  {
    if j < k {
      PrefixGrows(name, j, k - 1);
    }
  }

  lemma LowOfSmall(v: nat)
    requires v <= INVALID_INDEX
    ensures Low(v) == v
  {
  }

  lemma SmallNeverDecreases(name: Text)
    requires OnlyDigits(name) && Prefix(name, |name|) <= INVALID_INDEX
    ensures NeverDecreases(name, 0)
  {
    hide Prefix, Low;
    forall k | 0 <= k < |name|
      ensures Low(Prefix(name, k)) <= Low(Prefix(name, k + 1))
    {
      var next := k + 1;
      PrefixGrows(name, k, next);
      PrefixGrows(name, next, |name|);
      LowOfSmall(Prefix(name, k));
      LowOfSmall(Prefix(name, next));
    }
  }

  /** For a value of at most 32 bits they never do, and the index is the value. */
  lemma SmallIndexIsRight(name: Text)
    requires IsNumber(name) && Prefix(name, |name|) <= INVALID_INDEX
    ensures NeverDecreases(name, 0) && IndexOf(name) == Prefix(name, |name|)
  {
    hide IndexOf, Prefix, Low, NeverDecreases;
    SmallNeverDecreases(name);
    IndexExactly(name);
    LowOfSmall(Prefix(name, |name|));
  }

  const FIVE_BILLION: Text := [0x35, 0x30, 0x30, 0x30, 0x30, 0x30, 0x30, 0x30, 0x30, 0x30]

  lemma PrefixOfFiveBillion()
    ensures OnlyDigits(FIVE_BILLION)
    ensures Prefix(FIVE_BILLION, 0) == 0 && Prefix(FIVE_BILLION, 1) == 5
    ensures forall k :: 1 <= k < 10 ==> Prefix(FIVE_BILLION, k + 1) == Prefix(FIVE_BILLION, k) * 10
  {
  }

  /** An overflow that the test misses. */
  lemma IndexWraps()
    ensures IsNumber(FIVE_BILLION) && Prefix(FIVE_BILLION, 10) == 5_000_000_000
    ensures IndexOf(FIVE_BILLION) == 705_032_704
  {
    hide Prefix, IndexOf, OnlyDigits;
    PrefixOfFiveBillion();
    var t := FIVE_BILLION;
    assert Prefix(t, 2) == 50;
    assert Prefix(t, 3) == 500;
    assert Prefix(t, 4) == 5_000;
    assert Prefix(t, 5) == 50_000;
    assert Prefix(t, 6) == 500_000;
    assert Prefix(t, 7) == 5_000_000;
    assert Prefix(t, 8) == 50_000_000;
    assert Prefix(t, 9) == 500_000_000;
    assert Prefix(t, 10) == 5_000_000_000;
    forall k | 0 <= k < 10
      ensures Low(Prefix(t, k)) <= Low(Prefix(t, k + 1))
    {
      assert k in {0, 1, 2, 3, 4, 5, 6, 7, 8, 9};
    }
    IndexExactly(t);
  }
}
