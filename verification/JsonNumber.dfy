/** Number literals (3rdparty/rapidjson/reader.h, ParseNumber).  A floating-point value is
    represented by its literal; whether that value exceeds the double range is decided by the
    parameter `tooBig`. */
module JsonNumber {
  import opened Bytes
  import opened Digits
  import opened JsonEvents

  const INT32_MIN_MAGNITUDE: nat := 0x8000_0000
  const UINT32_MAX: nat := 0xFFFF_FFFF
  const INT64_MIN_MAGNITUDE: nat := 0x8000_0000_0000_0000
  const UINT64_MAX: nat := 0xFFFF_FFFF_FFFF_FFFF

  /* ---- the literal ---- */

  /** The end of the run of digits at `i`. */
  function ScanDigits(s: Text, i: nat): (j: nat)
    requires i <= |s|
    ensures i <= j <= |s| && !IsDigit(Peek(s, j))
    ensures forall k :: i <= k < j ==> IsDigit(s[k])
    decreases |s| - i
  {
    if IsDigit(Peek(s, i)) then ScanDigits(s, i + 1) else i
  }

  datatype End = NoEnd | End(at: nat)

  /** int = zero / ( digit1-9 *DIGIT ) */
  function IntEnd(s: Text, i: nat): (e: End)
    requires i <= |s|
    ensures e.End? ==> i < e.at <= |s| && AllDigits(s, i, e.at)
  {
    if Peek(s, i) == 0x30 then End(i + 1)
    else if IsDigit(Peek(s, i)) then End(ScanDigits(s, i))
    else NoEnd
  }

  /** frac = decimal-point 1*DIGIT */
  function FracEnd(s: Text, i: nat): (e: End)
    requires i <= |s|
    ensures e.End? ==> i <= e.at <= |s|
  {
    if Peek(s, i) != DOT then End(i)
    else if IsDigit(Peek(s, i + 1)) then End(ScanDigits(s, i + 1))
    else NoEnd
  }

  predicate IsExponentMark(c: Byte) {
    c == 0x65 || c == 0x45
  }

  predicate IsSign(c: Byte) {
    c == 0x2B || c == MINUS
  }

  /** exp = e [ minus / plus ] 1*DIGIT */
  function ExpEnd(s: Text, i: nat): (e: End)
    requires i <= |s|
    ensures e.End? ==> i <= e.at <= |s|
  {
    if !IsExponentMark(Peek(s, i)) then End(i)
    else
      var j := if IsSign(Peek(s, i + 1)) then i + 2 else i + 1;
      if IsDigit(Peek(s, j)) then End(ScanDigits(s, j)) else NoEnd
  }

  datatype NumberResult = NumberError | NumberOk(next: nat, ev: Event)

  /** The event of an integer literal, by the bounds of the integer types. */
  function IntegerEvent(minus: bool, v: nat): Event
    requires v <= (if minus then INT64_MIN_MAGNITUDE else UINT64_MAX)
  {
    if minus then (if v <= INT32_MIN_MAGNITUDE then Int(0 - v) else Int64(0 - v))
    else (if v <= UINT32_MAX then Uint(v) else Uint64(v))
  }

  predicate FitsInteger(minus: bool, v: nat) {
    v <= (if minus then INT64_MIN_MAGNITUDE else UINT64_MAX)
  }

  function ReadNumber(tooBig: Text -> bool, s: Text, i: nat): (r: NumberResult)
    requires i <= |s|
    ensures r.NumberOk? ==> i < r.next <= |s|
  {
    var minus := Peek(s, i) == MINUS;
    var a := if minus then i + 1 else i;
    match IntEnd(s, a)
    case NoEnd => NumberError
    case End(b) =>
      match FracEnd(s, b)
      case NoEnd => NumberError
      case End(c) =>
        match ExpEnd(s, c)
        case NoEnd => NumberError
        case End(d) =>
          if b == c == d && FitsInteger(minus, Value(s, a, b)) then
            NumberOk(d, IntegerEvent(minus, Value(s, a, b)))
          else if tooBig(s[i..d]) then NumberError
          else NumberOk(d, Double(s[i..d]))
  }

  lemma {:induction false} ValueMonotone(s: Text, i: nat, j: nat, k: nat)
    requires i <= j <= k <= |s| && AllDigits(s, i, k)
    ensures Value(s, i, j) <= Value(s, i, k)
    decreases k - j
  {
    if j < k {
      ValueMonotone(s, i, j, k - 1);
    }
  }

  lemma {:induction false} ScanDigitsIs(s: Text, i: nat, j: nat)
    requires i <= j <= |s| && AllDigits(s, i, j) && !IsDigit(Peek(s, j))
    ensures ScanDigits(s, i) == j
    decreases j - i
  {
    if i < j {
      ScanDigitsIs(s, i + 1, j);
    }
  }

  lemma {:induction false} ScanDigitsFrom(s: Text, i: nat, j: nat)
    requires i <= j <= |s| && AllDigits(s, i, j)
    ensures ScanDigits(s, i) == ScanDigits(s, j)
    decreases j - i
  {
    if i < j {
      ScanDigitsFrom(s, i + 1, j);
    }
  }

  /* ---- the accumulators ---- */

  /** Reinterprets the two's complement of a 32-bit magnitude as a signed number. */
  function Negate32(m: nat): int
    requires m <= UINT32_MAX
  {
    var u := (0x1_0000_0000 - m) % 0x1_0000_0000;
    if u >= 0x8000_0000 then u - 0x1_0000_0000 else u
  }

  function Negate64(m: nat): int
    requires m <= UINT64_MAX
  {
    var u := (0x1_0000_0000_0000_0000 - m) % 0x1_0000_0000_0000_0000;
    if u >= 0x8000_0000_0000_0000 then u - 0x1_0000_0000_0000_0000 else u
  }

  /** One accumulator loop: reads digits as long as the result stays at most `limit * 10 + last`.
      `full` reports a digit that no longer fits. */
  method Accumulate(input: InputStream, ghost start: nat, acc: nat, limit: nat, last: nat)
    returns (result: nat, full: bool)
    requires start <= input.pos <= |input.src| && AllDigits(input.src, start, input.pos)
    requires acc == Value(input.src, start, input.pos) && acc <= limit * 10 + last && last < 10
    modifies input`pos
    ensures old(input.pos) <= input.pos <= |input.src| && AllDigits(input.src, start, input.pos)
    ensures result == Value(input.src, start, input.pos) <= limit * 10 + last
    ensures full == IsDigit(Peek(input.src, input.pos))
    ensures full ==> result * 10 + (Peek(input.src, input.pos) - 0x30) > limit * 10 + last
  {
    result := acc;
    while IsDigit(Peek(input.src, input.pos))
      invariant old(input.pos) <= input.pos <= |input.src| && AllDigits(input.src, start, input.pos)
      invariant result == Value(input.src, start, input.pos) <= limit * 10 + last
      decreases |input.src| - input.pos
    {
      var digit := Peek(input.src, input.pos) - 0x30;
      if result >= limit {
        if result != limit || digit > last {
          return result, true;
        }
      }
      var _ := input.Take();
      result := result * 10 + digit;
    }
    full := false;
  }

  method SkipDigits(input: InputStream)
    requires input.pos <= |input.src|
    modifies input`pos
    ensures input.pos == ScanDigits(input.src, old(input.pos))
  {
    while IsDigit(Peek(input.src, input.pos))
      invariant input.pos <= |input.src|
      invariant ScanDigits(input.src, input.pos) == ScanDigits(input.src, old(input.pos))
      decreases |input.src| - input.pos
    {
      var _ := input.Take();
    }
  }

  /** What the integer part is: a 32-bit or 64-bit magnitude, or too long for either. */
  datatype Magnitude = Bits32(v32: nat) | Bits64(v64: nat) | Long

  function MagnitudeOf(minus: bool, v: nat): Magnitude {
    if v <= (if minus then INT32_MIN_MAGNITUDE else UINT32_MAX) then Bits32(v)
    else if FitsInteger(minus, v) then Bits64(v)
    else Long
  }

  /** The integer part, by the accumulators: the magnitude is exact whenever it fits, and no
      accumulator ever exceeds its type. */
  method ParseInteger(input: InputStream, minus: bool) returns (ok: bool, m: Magnitude)
    requires input.pos <= |input.src|
    modifies input`pos
    ensures var e := IntEnd(input.src, old(input.pos));
            ok == e.End? && (ok ==>
              && input.pos == e.at
              && m == MagnitudeOf(minus, Value(input.src, old(input.pos), e.at)))
    ensures input.pos <= |input.src|
  {
    ghost var start := input.pos;
    if Peek(input.src, input.pos) == 0x30 {
      var _ := input.Take();
      assert Value(input.src, start, start + 1) == 0;
      return true, Bits32(0);
    }
    if !IsDigit(Peek(input.src, input.pos)) {
      return false, Long;
    }
    ok := true;
    var first := input.Take();
    var acc: nat := first - 0x30;
    assert Value(input.src, start, start) == 0;
    var full;
    if minus {
      acc, full := Accumulate(input, start, acc, 214748364, 8);
    } else {
      acc, full := Accumulate(input, start, acc, 429496729, 5);
    }
    if !full {
      ScanDigitsIs(input.src, start, input.pos);
      return true, Bits32(acc);
    }
    ghost var at := input.pos;
    if minus {
      acc, full := Accumulate(input, start, acc, 0x0CCC_CCCC_CCCC_CCCC, 8);
    } else {
      acc, full := Accumulate(input, start, acc, 0x1999_9999_9999_9999, 5);
    }
    Overrun(input.src, start, at);
    Overrun(input.src, start, input.pos);
    if !full {
      ScanDigitsIs(input.src, start, input.pos);
      return true, Bits64(acc);
    }
    ScanDigitsFrom(input.src, start, input.pos);
    SkipDigits(input);
    return true, Long;
  }

  /** A further digit only enlarges the number. */
  lemma Overrun(s: Text, i: nat, j: nat)
    requires i <= j <= |s| && AllDigits(s, i, j)
    ensures IsDigit(Peek(s, j)) ==>
              Value(s, i, ScanDigits(s, i)) >= Value(s, i, j) * 10 + (Peek(s, j) - 0x30)
  {
    if IsDigit(Peek(s, j)) {
      ScanDigitsFrom(s, i, j + 1);
      ValueMonotone(s, i, j + 1, ScanDigits(s, i));
    }
  }

  /** The event of an integer that fits. */
  method ParseSmall(minus: bool, m: Magnitude, ghost v: nat) returns (ev: Event)
    requires m == MagnitudeOf(minus, v) && !m.Long?
    ensures FitsInteger(minus, v) && ev == IntegerEvent(minus, v)
  {
    if m.Bits64? {
      ev := if minus then Int64(Negate64(m.v64)) else Uint64(m.v64);
    } else {
      ev := if minus then Int(Negate32(m.v32)) else Uint(m.v32);
    }
  }

  lemma LongExactly(minus: bool, v: nat)
    ensures MagnitudeOf(minus, v).Long? <==> !FitsInteger(minus, v)
  {
  }

  method ParseNumber(input: InputStream, tooBig: Text -> bool) returns (ok: bool, ev: Event)
    requires input.pos <= |input.src|
    modifies input`pos
    ensures var r := ReadNumber(tooBig, input.src, old(input.pos));
            ok == r.NumberOk? && (ok ==> input.pos == r.next && ev == r.ev)
    ensures input.pos <= |input.src|
  {
    hide IntEnd, FracEnd, ExpEnd, Value, IntegerEvent, FitsInteger, MagnitudeOf;
    ev := Null;
    var startOffset := input.pos;
    var minus := Peek(input.src, input.pos) == MINUS;
    if minus {
      var _ := input.Take();
    }
    ghost var first := input.pos;
    var m;
    ok, m := ParseInteger(input, minus);
    if !ok {
      return;
    }
    ghost var v := Value(input.src, first, input.pos);
    LongExactly(minus, v);
    var useDouble := m.Long?;
    var present;
    ok, present := ParseFraction(input);
    if !ok {
      return;
    }
    useDouble := useDouble || present;
    ok, present := ParseExponent(input);
    if !ok {
      return;
    }
    useDouble := useDouble || present;
    if useDouble {
      ok := !tooBig(input.src[startOffset..input.pos]);
      ev := Double(input.src[startOffset..input.pos]);
    } else {
      ev := ParseSmall(minus, m, v);
    }
  }

  method ParseFraction(input: InputStream) returns (ok: bool, present: bool)
    requires input.pos <= |input.src|
    modifies input`pos
    ensures var e := FracEnd(input.src, old(input.pos));
            ok == e.End? && (ok ==> input.pos == e.at && present == (e.at > old(input.pos)))
    ensures input.pos <= |input.src|
  {
    present := Peek(input.src, input.pos) == DOT;
    ok := true;
    if present {
      var _ := input.Take();
      ok := IsDigit(Peek(input.src, input.pos));
      if ok {
        SkipDigits(input);
      }
    }
  }

  method ParseExponent(input: InputStream) returns (ok: bool, present: bool)
    requires input.pos <= |input.src|
    modifies input`pos
    ensures var e := ExpEnd(input.src, old(input.pos));
            ok == e.End? && (ok ==> input.pos == e.at && present == (e.at > old(input.pos)))
    ensures input.pos <= |input.src|
  {
    present := IsExponentMark(Peek(input.src, input.pos));
    ok := true;
    if present {
      var _ := input.Take();
      if IsSign(Peek(input.src, input.pos)) {
        var _ := input.Take();
      }
      ok := IsDigit(Peek(input.src, input.pos));
      if ok {
        SkipDigits(input);
      }
    }
  }

  /* ---- decimal printing ---- */

  /** The decimal digits of a natural number, most significant first. */
  function Decimal(n: nat): (t: Text)
    ensures |t| > 0
  {
    if n < 10 then [0x30 + n] else Decimal(n / 10) + [0x30 + n % 10]
  }

  /** The decimal text of an integer. */
  function DecimalInt(n: int): (t: Text)
    ensures |t| > 0
  {
    if n < 0 then [MINUS] + Decimal(-n) else Decimal(n)
  }

  lemma {:induction false} DecimalDigits(n: nat)
    ensures var t := Decimal(n);
            && AllDigits(t, 0, |t|) && Value(t, 0, |t|) == n
            && (t[0] == 0x30 ==> n == 0 && |t| == 1)
  {
    if n >= 10 {
      DecimalDigits(n / 10);
      var t, u := Decimal(n), Decimal(n / 10);
      assert t == u + [0x30 + n % 10];
      ValueLocal(t, 0, u, |u|);
    }
  }

  /** The value depends on the digits only, not on where they stand. */
  lemma {:induction false} ValueLocal(s: Text, i: nat, t: Text, k: nat)
    requires k <= |t| && At(s, i, t) && AllDigits(t, 0, k)
    ensures AllDigits(s, i, i + k) && Value(s, i, i + k) == Value(t, 0, k)
    decreases k
  {
    if k > 0 {
      ValueLocal(s, i, t, k - 1);
      AtPeek(s, i, t, k - 1);
    }
  }

  /** A unit that may follow a number literal without continuing it. */
  predicate EndsNumber(c: Byte) {
    !IsDigit(c) && c != DOT && !IsExponentMark(c)
  }

  /** The event of an integer, by its value. */
  function CanonicalInt(n: int): Event
    requires 0 - INT64_MIN_MAGNITUDE <= n <= UINT64_MAX
  {
    if n < 0 then IntegerEvent(true, -n) else IntegerEvent(false, n)
  }

  /** A printed natural number is read as an integer part of the same value. */
  lemma DecimalIntEnd(s: Text, a: nat, m: nat)
    requires At(s, a, Decimal(m)) && !IsDigit(Peek(s, a + |Decimal(m)|))
    ensures var b := a + |Decimal(m)|;
            IntEnd(s, a) == End(b) && Value(s, a, b) == m && IsDigit(Peek(s, a))
  {
    var t := Decimal(m);
    DecimalDigits(m);
    hide Decimal;
    AtPeek(s, a, t, 0);
    ValueLocal(s, a, t, |t|);
    if t[0] != 0x30 {
      ScanDigitsIs(s, a, a + |t|);
    }
    hide Value, AllDigits;
  }

  lemma NothingFollows(s: Text, b: nat)
    requires b <= |s| && EndsNumber(Peek(s, b))
    ensures FracEnd(s, b) == End(b) && ExpEnd(s, b) == End(b)
  {
  }

  /** The sign and where the digits begin. */
  lemma SignRead(s: Text, i: nat, n: int)
    requires At(s, i, DecimalInt(n))
    ensures var m: nat := if n < 0 then -n else n;
            var a := if n < 0 then i + 1 else i;
            At(s, a, Decimal(m)) && a + |Decimal(m)| == i + |DecimalInt(n)| && (n < 0 ==> Peek(s, i) == MINUS)
  {
    hide Decimal;
    if n < 0 {
      AtSplit(s, i, [MINUS], Decimal(-n));
      AtPeek(s, i, [MINUS], 0);
    }
  }

  /** Reading undoes decimal printing: the exact value comes back under the canonical type. */
  lemma ReadDecimal(tooBig: Text -> bool, s: Text, i: nat, n: int)
    requires 0 - INT64_MIN_MAGNITUDE <= n <= UINT64_MAX
    requires At(s, i, DecimalInt(n)) && EndsNumber(Peek(s, i + |DecimalInt(n)|))
    ensures ReadNumber(tooBig, s, i) == NumberOk(i + |DecimalInt(n)|, CanonicalInt(n))
  {
    hide Decimal, DecimalInt, IntEnd, FracEnd, ExpEnd, Value, IntegerEvent;
    SignRead(s, i, n);
    DecimalIntEnd(s, if n < 0 then i + 1 else i, if n < 0 then -n else n);
    NothingFollows(s, i + |DecimalInt(n)|);
  }
}
