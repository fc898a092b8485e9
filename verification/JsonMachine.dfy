/** The table-driven JSON parser (3rdparty/rapidjson/reader.h, IterativeParse): a pushdown automaton
    with an explicit stack. */
module JsonMachine {
  import opened Bytes
  import opened JsonEvents
  import opened JsonReader

  datatype State =
    | Finish | Error | Start
    | ObjectInitial | MemberKey | MemberValue | ObjectFinish
    | ArrayInitial | Element | ArrayFinish
    | Value
    | ElementDelimiter | MemberDelimiter | KeyValueDelimiter

  datatype Token =
    | LeftBracketToken | RightBracketToken | LeftCurlyToken | RightCurlyToken
    | CommaToken | ColonToken
    | StringToken | FalseToken | TrueToken | NullToken | NumberToken

  function Tokenize(u: Byte): Token {
    if u == LBRACKET then LeftBracketToken
    else if u == RBRACKET then RightBracketToken
    else if u == LBRACE then LeftCurlyToken
    else if u == RBRACE then RightCurlyToken
    else if u == COMMA then CommaToken
    else if u == COLON then ColonToken
    else if u == QUOTE then StringToken
    else if u == 0x66 then FalseToken
    else if u == 0x74 then TrueToken
    else if u == 0x6E then NullToken
    else NumberToken
  }

  /** The row entry of a state that expects a value and goes to `scalar` behind a scalar. */
  function ExpectValue(t: Token, scalar: State): State {
    match t
    case LeftBracketToken => ArrayInitial
    case LeftCurlyToken => ObjectInitial
    case RightBracketToken => Error
    case RightCurlyToken => Error
    case CommaToken => Error
    case ColonToken => Error
    case _ => scalar
  }

  /** The transition table. */
  function Predict(state: State, t: Token): State {
    match state
    case Start => ExpectValue(t, Value)
    case ObjectInitial => if t.RightCurlyToken? then ObjectFinish else if t.StringToken? then MemberKey else Error
    case MemberKey => if t.ColonToken? then KeyValueDelimiter else Error
    case MemberValue => if t.RightCurlyToken? then ObjectFinish else if t.CommaToken? then MemberDelimiter else Error
    case ArrayInitial => if t.RightBracketToken? then ArrayFinish else ExpectValue(t, Element)
    case Element => if t.RightBracketToken? then ArrayFinish else if t.CommaToken? then ElementDelimiter else Error
    case ElementDelimiter => if t.RightBracketToken? then ArrayFinish else ExpectValue(t, Element)
    case MemberDelimiter => if t.RightCurlyToken? then ObjectFinish else if t.StringToken? then MemberKey else Error
    case KeyValueDelimiter => ExpectValue(t, MemberValue)
    case _ => Error
  }

  /** An open object or array: the state to return to and the number of commas seen. */
  datatype Frame = Frame(ret: State, count: nat)

  /** A configuration of the automaton. */
  datatype Machine = Machine(state: State, stack: seq<Frame>, pos: nat, evs: seq<Event>)

  predicate IsStack(stack: seq<Frame>) {
    forall k :: 0 <= k < |stack| ==>
      if k == 0 then stack[k].ret == Start else stack[k].ret == Element || stack[k].ret == MemberValue
  }

  /** The configurations that occur between two turns of the parsing loop. */
  predicate Valid(s: Text, m: Machine) {
    && m.pos <= |s|
    && IsStack(m.stack)
    && !m.state.Error? && !m.state.ObjectFinish? && !m.state.ArrayFinish? && !m.state.Value?
    && (m.stack == [] <==> m.state.Start? || m.state.Finish?)
  }

  datatype Outcome = Err(evs: seq<Event>) | Go(m: Machine)

  /** The state pushed for the enclosing value when an object or array opens. */
  function Enclosing(src: State): State {
    match src
    case ArrayInitial => Element
    case ElementDelimiter => Element
    case KeyValueDelimiter => MemberValue
    case _ => src
  }

  function Returned(n: State): State {
    if n.Start? then Finish else n
  }

  function Pop(stack: seq<Frame>): seq<Frame>
    requires stack != []
  {
    stack[..|stack| - 1]
  }

  function Top(stack: seq<Frame>): Frame
    requires stack != []
  {
    stack[|stack| - 1]
  }

  function Open(m: Machine, dst: State, ev: Event): Machine {
    Machine(dst, m.stack + [Frame(Enclosing(m.state), 0)], m.pos + 1, m.evs + [ev])
  }

  function Comma(m: Machine, dst: State): Machine
    requires m.stack != []
  {
    Machine(dst, Pop(m.stack) + [Frame(Top(m.stack).ret, Count(Top(m.stack).count))], m.pos + 1, m.evs)
  }

  function ClosingCount(m: Machine): nat
    requires m.stack != []
  {
    if m.state.MemberValue? || m.state.Element? then Count(Top(m.stack).count) else Top(m.stack).count
  }

  function Close(m: Machine, ev: Event): Machine
    requires m.stack != []
  {
    Machine(Returned(Top(m.stack).ret), Pop(m.stack), m.pos + 1, m.evs + [ev])
  }

  function Scalar(r: Parsed, m: Machine, dst: State): Outcome {
    if r.ok then Go(Machine(dst, m.stack, r.pos, m.evs + r.evs)) else Err(m.evs + r.evs)
  }

  function Transit(c: Config, s: Text, m: Machine, dst: State): (o: Outcome)
    requires Valid(s, m) && m.pos < |s| && dst == Predict(m.state, Tokenize(s[m.pos]))
    ensures o.Go? ==> Valid(s, o.m) && m.pos < o.m.pos
  {
    match dst
    case Error => Err(m.evs)
    case ObjectInitial => Go(Open(m, dst, StartObject))
    case ArrayInitial => Go(Open(m, dst, StartArray))
    case MemberKey => Scalar(ReadKeyOrString(s, m.pos, true), m, dst)
    case KeyValueDelimiter => Go(Machine(dst, m.stack, m.pos + 1, m.evs))
    case MemberValue => Scalar(ReadValue(c, s, m.pos), m, dst)
    case Element => Scalar(ReadValue(c, s, m.pos), m, dst)
    case MemberDelimiter => Go(Comma(m, dst))
    case ElementDelimiter => Go(Comma(m, dst))
    case ObjectFinish =>
      if !c.trailingCommas && m.state.MemberDelimiter? then Err(m.evs)
      else Go(Close(m, EndObject(ClosingCount(m))))
    case ArrayFinish =>
      if !c.trailingCommas && m.state.ElementDelimiter? then Err(m.evs)
      else Go(Close(m, EndArray(ClosingCount(m))))
    case Value => Scalar(ReadValue(c, s, m.pos), m, Finish)
    case Finish => assert false; Err(m.evs)
    case Start => assert false; Err(m.evs)
  }

  /** The loop from its head on. */
  function Run(c: Config, s: Text, m: Machine): Parsed
    requires Valid(s, m)
    decreases |s| - m.pos, 1
  {
    if Peek(s, m.pos) == NUL then
      if m.state.Finish? then Parsed(true, m.pos, m.evs) else Fail(m.evs)
    else match Transit(c, s, m, Predict(m.state, Tokenize(s[m.pos])))
      case Err(evs) => Fail(evs)
      case Go(m') => Continue(c, s, m')
  }

  /** The loop behind a successful transition. */
  function Continue(c: Config, s: Text, m: Machine): Parsed
    requires Valid(s, m)
    decreases |s| - m.pos, 2
  {
    if c.stopWhenDone && m.state.Finish? then Parsed(true, m.pos, m.evs)
    else Run(c, s, m.(pos := SkipSpace(s, m.pos)))
  }

  function Initial(s: Text): Machine {
    Machine(Start, [], SkipSpace(s, 0), [])
  }

  /** The automaton on a whole document. */
  function RunDocument(c: Config, s: Text): Parsed {
    Run(c, s, Initial(s))
  }

  /* ---- the two parsers agree ---- */

  /** The automaton is about to read a value, at which the recursive parser would read one too. */
  predicate ExpectsValue(c: Config, s: Text, m: Machine) {
    && Valid(s, m)
    && (|| m.state.Start? || m.state.KeyValueDelimiter?
        || (m.state.ArrayInitial? && Peek(s, m.pos) != RBRACKET)
        || (m.state.ElementDelimiter? && (c.trailingCommas ==> Peek(s, m.pos) != RBRACKET)))
  }

  /** The state behind the value. */
  function BehindValue(src: State): State {
    Returned(Enclosing(src))
  }

  /** The configuration behind what the recursive parser read in one go. */
  function Behind(m: Machine, state: State, r: Parsed): Machine {
    Machine(state, m.stack, r.pos, m.evs + r.evs)
  }

  lemma {:induction false} ValueAgrees(c: Config, s: Text, m: Machine)
    requires ExpectsValue(c, s, m)
    ensures var r := ReadValue(c, s, m.pos);
            Run(c, s, m) == if r.ok then Continue(c, s, Behind(m, BehindValue(m.state), r)) else Fail(m.evs + r.evs)
    decreases |s| - m.pos, 1
  {
    var u := Peek(s, m.pos);
    if u == LBRACE {
      ObjectAgrees(c, s, m);
    } else if u == LBRACKET {
      ArrayAgrees(c, s, m);
    } else {
      ScalarAgrees(c, s, m);
    }
  }

  /** No value starts with a closing bracket, a comma, a colon or the terminating NUL. */
  lemma NoValue(c: Config, s: Text, i: nat)
    requires i <= |s|
    requires Peek(s, i) in {NUL, RBRACKET, RBRACE, COMMA, COLON}
    ensures ReadValue(c, s, i) == Fail([])
  {
  }

  lemma ScalarAgrees(c: Config, s: Text, m: Machine)
    requires ExpectsValue(c, s, m) && Peek(s, m.pos) != LBRACE && Peek(s, m.pos) != LBRACKET
    ensures var r := ReadValue(c, s, m.pos);
            Run(c, s, m) == if r.ok then Continue(c, s, Behind(m, BehindValue(m.state), r)) else Fail(m.evs + r.evs)
  {
    hide Run, Continue, ReadScalar;
    var u := Peek(s, m.pos);
    if u in {NUL, RBRACKET, RBRACE, COMMA, COLON} {
      NoValue(c, s, m.pos);
      assert m.evs + [] == m.evs;
      NotAValue(c, s, m);
    } else {
      hide ReadValue;
      var r := ReadValue(c, s, m.pos);
      if r.ok {
        Step(c, s, m, Behind(m, BehindValue(m.state), r));
      } else {
        StepError(c, s, m, m.evs + r.evs);
      }
    }
  }

  lemma NotAValue(c: Config, s: Text, m: Machine)
    requires ExpectsValue(c, s, m) && Peek(s, m.pos) in {NUL, RBRACKET, RBRACE, COMMA, COLON}
    ensures Run(c, s, m) == Fail(m.evs)
  {
    if Peek(s, m.pos) == NUL || !m.state.ElementDelimiter? || Peek(s, m.pos) != RBRACKET {
      hide Run;
      Stuck(c, s, m);
    }
  }

  /* ---- single steps ---- */

  lemma Stuck(c: Config, s: Text, m: Machine)
    requires Valid(s, m) && !m.state.Finish?
    requires Peek(s, m.pos) == NUL || Predict(m.state, Tokenize(s[m.pos])).Error?
    ensures Run(c, s, m) == Fail(m.evs)
  {
  }

  lemma Step(c: Config, s: Text, m: Machine, m': Machine)
    requires Valid(s, m) && Peek(s, m.pos) != NUL
    requires Transit(c, s, m, Predict(m.state, Tokenize(s[m.pos]))) == Go(m')
    ensures Valid(s, m') && Run(c, s, m) == Continue(c, s, m')
    ensures !m'.state.Finish? ==> Run(c, s, m) == Run(c, s, m'.(pos := SkipSpace(s, m'.pos)))
  {
  }

  lemma StepError(c: Config, s: Text, m: Machine, evs: seq<Event>)
    requires Valid(s, m) && Peek(s, m.pos) != NUL
    requires Transit(c, s, m, Predict(m.state, Tokenize(s[m.pos]))) == Err(evs)
    ensures Run(c, s, m) == Fail(evs)
  {
  }

  predicate ExpectsAny(m: Machine) {
    m.state.Start? || m.state.KeyValueDelimiter? || m.state.ArrayInitial? || m.state.ElementDelimiter?
  }

  lemma StepOpen(c: Config, s: Text, m: Machine)
    requires Valid(s, m) && ExpectsAny(m) && Peek(s, m.pos) in {LBRACE, LBRACKET}
    ensures var o := if Peek(s, m.pos) == LBRACE then Open(m, ObjectInitial, StartObject)
                     else Open(m, ArrayInitial, StartArray);
            Valid(s, o) && Run(c, s, m) == Run(c, s, o.(pos := SkipSpace(s, o.pos)))
  {
    var o := if Peek(s, m.pos) == LBRACE then Open(m, ObjectInitial, StartObject)
             else Open(m, ArrayInitial, StartArray);
    hide Run, Continue;
    Step(c, s, m, o);
  }

  lemma StepComma(c: Config, s: Text, m: Machine)
    requires Valid(s, m) && (m.state.MemberValue? || m.state.Element?) && Peek(s, m.pos) == COMMA
    ensures var d := Comma(m, if m.state.Element? then ElementDelimiter else MemberDelimiter);
            Valid(s, d) && Run(c, s, m) == Run(c, s, d.(pos := SkipSpace(s, d.pos)))
  {
    hide Run, Continue;
    Step(c, s, m, Comma(m, if m.state.Element? then ElementDelimiter else MemberDelimiter));
  }

  lemma StepColon(c: Config, s: Text, m: Machine)
    requires Valid(s, m) && m.state.MemberKey? && Peek(s, m.pos) == COLON
    ensures var d := Machine(KeyValueDelimiter, m.stack, SkipSpace(s, m.pos + 1), m.evs);
            Valid(s, d) && Run(c, s, m) == Run(c, s, d)
  {
    hide Run, Continue;
    Step(c, s, m, Machine(KeyValueDelimiter, m.stack, m.pos + 1, m.evs));
  }

  lemma StepCloseObject(c: Config, s: Text, m: Machine)
    requires Valid(s, m) && Peek(s, m.pos) == RBRACE
    requires m.state.ObjectInitial? || m.state.MemberValue? || (m.state.MemberDelimiter? && c.trailingCommas)
    ensures var d := Close(m, EndObject(ClosingCount(m))); Valid(s, d) && Run(c, s, m) == Continue(c, s, d)
  {
    hide Run, Continue;
    Step(c, s, m, Close(m, EndObject(ClosingCount(m))));
  }

  lemma StepCloseArray(c: Config, s: Text, m: Machine)
    requires Valid(s, m) && Peek(s, m.pos) == RBRACKET
    requires m.state.ArrayInitial? || m.state.Element? || (m.state.ElementDelimiter? && c.trailingCommas)
    ensures var d := Close(m, EndArray(ClosingCount(m))); Valid(s, d) && Run(c, s, m) == Continue(c, s, d)
  {
    hide Run, Continue;
    Step(c, s, m, Close(m, EndArray(ClosingCount(m))));
  }

  lemma StepKey(c: Config, s: Text, m: Machine)
    requires Valid(s, m) && Peek(s, m.pos) == QUOTE && (m.state.ObjectInitial? || m.state.MemberDelimiter?)
    ensures var k := ReadKeyOrString(s, m.pos, true);
            if k.ok then
              var n := Machine(MemberKey, m.stack, SkipSpace(s, k.pos), m.evs + k.evs);
              Valid(s, n) && Run(c, s, m) == Run(c, s, n)
            else Run(c, s, m) == Fail(m.evs + k.evs)
  {
    hide ReadKeyOrString;
    var k := ReadKeyOrString(s, m.pos, true);
    if k.ok {
      Step(c, s, m, Machine(MemberKey, m.stack, k.pos, m.evs + k.evs));
    }
  }

  lemma {:induction false} ObjectAgrees(c: Config, s: Text, m: Machine)
    requires ExpectsValue(c, s, m) && Peek(s, m.pos) == LBRACE
    ensures var r := ReadObject(c, s, m.pos);
            Run(c, s, m) == if r.ok then Continue(c, s, Behind(m, BehindValue(m.state), r)) else Fail(m.evs + r.evs)
    decreases |s| - m.pos, 0
  {
    hide ReadMembers, MemberTurn, Run, Continue;
    var o := Open(m, ObjectInitial, StartObject);
    var j := SkipSpace(s, m.pos + 1);
    var n := o.(pos := j);
    StepOpen(c, s, m);
    assert Pop(n.stack) == m.stack;
    if Peek(s, j) == RBRACE {
      StepCloseObject(c, s, n);
      assert m.evs + [StartObject] + [EndObject(0)] == m.evs + [StartObject, EndObject(0)];
    } else {
      MembersAgree(c, s, n);
      var r := ReadMembers(c, s, j, 0);
      assert m.evs + [StartObject] + r.evs == m.evs + ([StartObject] + r.evs);
    }
  }

  /** The automaton is about to read a member name. */
  predicate ExpectsMember(c: Config, s: Text, m: Machine) {
    && Valid(s, m)
    && (|| (m.state.ObjectInitial? && Peek(s, m.pos) != RBRACE)
        || (m.state.MemberDelimiter? && (c.trailingCommas ==> Peek(s, m.pos) != RBRACE)))
  }

  lemma NoMember(c: Config, s: Text, m: Machine)
    requires ExpectsMember(c, s, m) && Peek(s, m.pos) != QUOTE
    ensures Run(c, s, m) == Fail(m.evs)
  {
  }

  /** What ReadMember makes of the part behind the name. */
  function ReadBehindName(c: Config, s: Text, i: nat): Parsed
    requires i <= |s|
  {
    if Peek(s, i) != COLON then Fail([]) else
    var v := ReadValue(c, s, SkipSpace(s, i + 1));
    if !v.ok then Fail(v.evs) else Parsed(true, SkipSpace(s, v.pos), v.evs)
  }

  lemma {:induction false} ColonAgrees(c: Config, s: Text, n: Machine)
    requires Valid(s, n) && n.state.MemberKey?
    ensures var r := ReadBehindName(c, s, n.pos);
            r.ok ==> Valid(s, Behind(n, MemberValue, r))
    ensures var r := ReadBehindName(c, s, n.pos);
            Run(c, s, n) == if r.ok then Run(c, s, Behind(n, MemberValue, r)) else Fail(n.evs + r.evs)
    decreases |s| - n.pos, 2
  {
    hide ReadValue, Run;
    if Peek(s, n.pos) == COLON {
      StepColon(c, s, n);
      ValueAgrees(c, s, Machine(KeyValueDelimiter, n.stack, SkipSpace(s, n.pos + 1), n.evs));
    } else {
      Stuck(c, s, n);
      assert n.evs + [] == n.evs;
    }
  }

  lemma MemberSplit(c: Config, s: Text, i: nat)
    requires i <= |s| && Peek(s, i) == QUOTE && ReadKeyOrString(s, i, true).ok
    ensures var k := ReadKeyOrString(s, i, true);
            var v := ReadBehindName(c, s, SkipSpace(s, k.pos));
            ReadMember(c, s, i) == Parsed(v.ok, v.pos, k.evs + v.evs)
  {
    var k := ReadKeyOrString(s, i, true);
    hide ReadValue, ReadKeyOrString;
    assert k.evs + [] == k.evs;
  }

  lemma {:induction false} MemberAgrees(c: Config, s: Text, m: Machine)
    requires ExpectsMember(c, s, m)
    ensures var r := ReadMember(c, s, m.pos);
            Run(c, s, m) == if r.ok then Run(c, s, Behind(m, MemberValue, r)) else Fail(m.evs + r.evs)
    decreases |s| - m.pos, 2
  {
    hide ReadKeyOrString, Run, ReadBehindName;
    if Peek(s, m.pos) != QUOTE {
      NoMember(c, s, m);
      assert m.evs + [] == m.evs;
    } else {
      var k := ReadKeyOrString(s, m.pos, true);
      StepKey(c, s, m);
      if k.ok {
        var n := Machine(MemberKey, m.stack, SkipSpace(s, k.pos), m.evs + k.evs);
        MemberSplit(c, s, m.pos);
        ColonAgrees(c, s, n);
        var v := ReadBehindName(c, s, n.pos);
        hide ReadMember;
        assert m.evs + k.evs + v.evs == m.evs + (k.evs + v.evs);
      }
    }
  }

  lemma MemberComma(c: Config, s: Text, n: Machine)
    requires Valid(s, n) && n.state.MemberValue? && Peek(s, n.pos) == COMMA
    ensures var stack := Pop(n.stack) + [Frame(Top(n.stack).ret, Count(Top(n.stack).count))];
            var e := Machine(MemberDelimiter, stack, SkipSpace(s, n.pos + 1), n.evs);
            Valid(s, e) && Run(c, s, n) == Run(c, s, e)
  {
    hide Run, Count;
    StepComma(c, s, n);
  }

  /** A trailing comma. */
  lemma MemberCommaClose(c: Config, s: Text, n: Machine)
    requires Valid(s, n) && n.state.MemberValue? && Peek(s, n.pos) == COMMA && c.trailingCommas
    requires Peek(s, SkipSpace(s, n.pos + 1)) == RBRACE
    ensures var d := Machine(Returned(Top(n.stack).ret), Pop(n.stack), SkipSpace(s, n.pos + 1) + 1,
                             n.evs + [EndObject(Count(Top(n.stack).count))]);
            Valid(s, d) && Run(c, s, n) == Continue(c, s, d)
  {
    hide Run, Continue, Count;
    MemberComma(c, s, n);
    var stack := Pop(n.stack) + [Frame(Top(n.stack).ret, Count(Top(n.stack).count))];
    assert Pop(stack) == Pop(n.stack);
    StepCloseObject(c, s, Machine(MemberDelimiter, stack, SkipSpace(s, n.pos + 1), n.evs));
  }

  /** Behind one turn of the member loop the automaton is ready for the next turn, or has closed
      the object. */
  lemma {:induction false} MemberTurnAgrees(c: Config, s: Text, m: Machine)
    requires ExpectsMember(c, s, m)
    ensures var count := Top(m.stack).count; var t := MemberTurn(c, s, m.pos, count);
            match t
            case Broken(evs) => Run(c, s, m) == Fail(m.evs + evs)
            case Closed(evs, pos) =>
              Run(c, s, m) == Continue(c, s, Machine(Returned(Top(m.stack).ret), Pop(m.stack), pos, m.evs + evs))
            case Next(evs, pos) =>
              var stack := Pop(m.stack) + [Frame(Top(m.stack).ret, Count(count))];
              var n := Machine(MemberDelimiter, stack, pos, m.evs + evs);
              ExpectsMember(c, s, n) && Run(c, s, m) == Run(c, s, n)
    decreases |s| - m.pos, 3
  {
    hide ReadMember, Count, Run, Continue;
    var r := ReadMember(c, s, m.pos);
    MemberAgrees(c, s, m);
    if r.ok {
      var n := Behind(m, MemberValue, r);
      var end := [EndObject(Count(Top(m.stack).count))];
      assert m.evs + r.evs + end == m.evs + (r.evs + end);
      if Peek(s, r.pos) == COMMA {
        MemberComma(c, s, n);
        if c.trailingCommas && Peek(s, SkipSpace(s, r.pos + 1)) == RBRACE {
          MemberCommaClose(c, s, n);
        }
      } else if Peek(s, r.pos) == RBRACE {
        StepCloseObject(c, s, n);
      } else {
        Stuck(c, s, n);
      }
    }
  }

  lemma {:induction false} MembersAgree(c: Config, s: Text, m: Machine)
    requires ExpectsMember(c, s, m)
    ensures var r := ReadMembers(c, s, m.pos, Top(m.stack).count);
            Run(c, s, m) == if r.ok
              then Continue(c, s, Machine(Returned(Top(m.stack).ret), Pop(m.stack), r.pos, m.evs + r.evs))
              else Fail(m.evs + r.evs)
    decreases |s| - m.pos, 4
  {
    hide MemberTurn, Count, Run, Continue;
    var count := Top(m.stack).count;
    MemberTurnAgrees(c, s, m);
    match MemberTurn(c, s, m.pos, count)
    case Next(evs, pos) =>
      var n := Machine(MemberDelimiter, Pop(m.stack) + [Frame(Top(m.stack).ret, Count(count))], pos, m.evs + evs);
      MembersAgree(c, s, n);
      assert Pop(n.stack) == Pop(m.stack);
      var r := ReadMembers(c, s, pos, Count(count));
      assert m.evs + evs + r.evs == m.evs + (evs + r.evs);
    case _ =>
  }

  lemma {:induction false} ArrayAgrees(c: Config, s: Text, m: Machine)
    requires ExpectsValue(c, s, m) && Peek(s, m.pos) == LBRACKET
    ensures var r := ReadArray(c, s, m.pos);
            Run(c, s, m) == if r.ok then Continue(c, s, Behind(m, BehindValue(m.state), r)) else Fail(m.evs + r.evs)
    decreases |s| - m.pos, 0
  {
    hide ReadElements, ElementTurn, Run, Continue;
    var o := Open(m, ArrayInitial, StartArray);
    var j := SkipSpace(s, m.pos + 1);
    var n := o.(pos := j);
    StepOpen(c, s, m);
    assert Pop(n.stack) == m.stack;
    if Peek(s, j) == RBRACKET {
      StepCloseArray(c, s, n);
      assert m.evs + [StartArray] + [EndArray(0)] == m.evs + [StartArray, EndArray(0)];
    } else {
      ElementsAgree(c, s, n);
      var r := ReadElements(c, s, j, 0);
      assert m.evs + [StartArray] + r.evs == m.evs + ([StartArray] + r.evs);
    }
  }

  /** The automaton is about to read an array element. */
  predicate ExpectsElement(c: Config, s: Text, m: Machine) {
    ExpectsValue(c, s, m) && (m.state.ArrayInitial? || m.state.ElementDelimiter?)
  }

  lemma {:induction false} ElementAgrees(c: Config, s: Text, m: Machine)
    requires ExpectsElement(c, s, m)
    ensures var r := ReadValue(c, s, m.pos);
            Run(c, s, m) == if r.ok
              then Run(c, s, Machine(Element, m.stack, SkipSpace(s, r.pos), m.evs + r.evs))
              else Fail(m.evs + r.evs)
    decreases |s| - m.pos, 2
  {
    hide ReadValue, Run;
    ValueAgrees(c, s, m);
  }

  lemma ElementComma(c: Config, s: Text, n: Machine)
    requires Valid(s, n) && n.state.Element? && Peek(s, n.pos) == COMMA
    ensures var stack := Pop(n.stack) + [Frame(Top(n.stack).ret, Count(Top(n.stack).count))];
            var e := Machine(ElementDelimiter, stack, SkipSpace(s, n.pos + 1), n.evs);
            Valid(s, e) && Run(c, s, n) == Run(c, s, e)
  {
    hide Run, Count;
    StepComma(c, s, n);
  }

  /** A trailing comma. */
  lemma ElementCommaClose(c: Config, s: Text, n: Machine)
    requires Valid(s, n) && n.state.Element? && Peek(s, n.pos) == COMMA && c.trailingCommas
    requires Peek(s, SkipSpace(s, n.pos + 1)) == RBRACKET
    ensures var d := Machine(Returned(Top(n.stack).ret), Pop(n.stack), SkipSpace(s, n.pos + 1) + 1,
                             n.evs + [EndArray(Count(Top(n.stack).count))]);
            Valid(s, d) && Run(c, s, n) == Continue(c, s, d)
  {
    hide Run, Continue, Count;
    ElementComma(c, s, n);
    var stack := Pop(n.stack) + [Frame(Top(n.stack).ret, Count(Top(n.stack).count))];
    assert Pop(stack) == Pop(n.stack);
    StepCloseArray(c, s, Machine(ElementDelimiter, stack, SkipSpace(s, n.pos + 1), n.evs));
  }

  lemma {:induction false} ElementTurnAgrees(c: Config, s: Text, m: Machine)
    requires ExpectsElement(c, s, m)
    ensures var count := Top(m.stack).count; var t := ElementTurn(c, s, m.pos, count);
            match t
            case Broken(evs) => Run(c, s, m) == Fail(m.evs + evs)
            case Closed(evs, pos) =>
              Run(c, s, m) == Continue(c, s, Machine(Returned(Top(m.stack).ret), Pop(m.stack), pos, m.evs + evs))
            case Next(evs, pos) =>
              var stack := Pop(m.stack) + [Frame(Top(m.stack).ret, Count(count))];
              var n := Machine(ElementDelimiter, stack, pos, m.evs + evs);
              ExpectsElement(c, s, n) && Run(c, s, m) == Run(c, s, n)
    decreases |s| - m.pos, 3
  {
    hide ReadValue, Count, Run, Continue;
    var r := ReadValue(c, s, m.pos);
    ElementAgrees(c, s, m);
    if r.ok {
      var n := Machine(Element, m.stack, SkipSpace(s, r.pos), m.evs + r.evs);
      var end := [EndArray(Count(Top(m.stack).count))];
      assert m.evs + r.evs + end == m.evs + (r.evs + end);
      if Peek(s, n.pos) == COMMA {
        ElementComma(c, s, n);
        if c.trailingCommas && Peek(s, SkipSpace(s, n.pos + 1)) == RBRACKET {
          ElementCommaClose(c, s, n);
        }
      } else if Peek(s, n.pos) == RBRACKET {
        StepCloseArray(c, s, n);
      } else {
        Stuck(c, s, n);
      }
    }
  }

  lemma {:induction false} ElementsAgree(c: Config, s: Text, m: Machine)
    requires ExpectsElement(c, s, m)
    ensures var r := ReadElements(c, s, m.pos, Top(m.stack).count);
            Run(c, s, m) == if r.ok
              then Continue(c, s, Machine(Returned(Top(m.stack).ret), Pop(m.stack), r.pos, m.evs + r.evs))
              else Fail(m.evs + r.evs)
    decreases |s| - m.pos, 4
  {
    hide ElementTurn, Count, Run, Continue;
    var count := Top(m.stack).count;
    ElementTurnAgrees(c, s, m);
    match ElementTurn(c, s, m.pos, count)
    case Next(evs, pos) =>
      var n := Machine(ElementDelimiter, Pop(m.stack) + [Frame(Top(m.stack).ret, Count(count))], pos, m.evs + evs);
      ElementsAgree(c, s, n);
      assert Pop(n.stack) == Pop(m.stack);
      var r := ReadElements(c, s, pos, Count(count));
      assert m.evs + evs + r.evs == m.evs + (evs + r.evs);
    case _ =>
  }

  lemma RunFinished(c: Config, s: Text, m: Machine)
    requires Valid(s, m) && m.state.Finish?
    ensures Run(c, s, m) == if Peek(s, m.pos) == NUL then Parsed(true, m.pos, m.evs) else Fail(m.evs)
  {
  }

  /** For every input and every setting of the flags, the automaton and the recursive parser give
      the same verdict, send the same events (also before an error) and stop at the same place. */
  lemma ParsersAgree(c: Config, s: Text)
    ensures RunDocument(c, s) == ReadDocument(c, s)
  {
    hide ReadValue;
    var m := Initial(s);
    if Peek(s, m.pos) == NUL {
      Stuck(c, s, m);
    } else {
      ValueAgrees(c, s, m);
      var r := ReadValue(c, s, m.pos);
      assert [] + r.evs == r.evs;
      if r.ok && !c.stopWhenDone {
        var j := SkipSpace(s, r.pos);
        var f := Machine(Finish, [], j, r.evs);
        assert Run(c, s, m) == Run(c, s, f);
        RunFinished(c, s, f);
      }
    }
  }

  /* ---- the loop itself ---- */

  /** The automaton as a program, on top of a reader that provides stream, handler and scalars. */
  class IterativeReader {
    const reader: Reader
    var stack: seq<Frame>

    constructor (reader: Reader)
      ensures this.reader == reader && stack == []
    {
      this.reader := reader;
      stack := [];
    }

    ghost function Configuration(state: State): Machine
      reads this, reader, reader.input
    {
      Machine(state, stack, reader.input.pos, reader.events)
    }

    method Push(f: Frame)
      modifies this
      ensures stack == old(stack) + [f]
    {
      stack := stack + [f];
    }

    method PopFrame() returns (f: Frame)
      requires stack != []
      modifies this
      ensures f == Top(old(stack)) && stack == Pop(old(stack))
    {
      f := Top(stack);
      stack := Pop(stack);
    }

    method TransitTo(src: State, dst: State) returns (d: State)
      requires reader.Ready() && Valid(reader.input.src, Configuration(src))
      requires reader.input.pos < |reader.input.src|
      requires dst == Predict(src, Tokenize(reader.input.src[reader.input.pos]))
      modifies this, reader`events, reader`error, reader.input`pos
      ensures match Transit(reader.cfg, reader.input.src, old(Configuration(src)), dst)
              case Err(evs) => d.Error? && reader.events == evs
              case Go(m) => !d.Error? && reader.Ready() && Configuration(d) == m
      ensures reader.input.pos <= |reader.input.src|
    {
      hide ReadValue, ReadKeyOrString;
      d := dst;
      match dst
      case Error =>
      case ObjectInitial =>
        Push(Frame(Enclosing(src), 0));
        reader.Send(StartObject);
        var _ := reader.input.Take();
      case ArrayInitial =>
        Push(Frame(Enclosing(src), 0));
        reader.Send(StartArray);
        var _ := reader.input.Take();
      case MemberKey =>
        reader.ParseString(true);
        d := if reader.error then Error else dst;
      case KeyValueDelimiter =>
        var _ := reader.input.Take();
      case MemberValue =>
        reader.ParseValue();
        d := if reader.error then Error else dst;
      case Element =>
        reader.ParseValue();
        d := if reader.error then Error else dst;
      case MemberDelimiter =>
        var _ := reader.input.Take();
        var f := PopFrame();
        Push(Frame(f.ret, Count(f.count)));
      case ElementDelimiter =>
        var _ := reader.input.Take();
        var f := PopFrame();
        Push(Frame(f.ret, Count(f.count)));
      case ObjectFinish =>
        if !reader.cfg.trailingCommas && src.MemberDelimiter? {
          d := Error;
        } else {
          var f := PopFrame();
          reader.Send(EndObject(if src.MemberValue? then Count(f.count) else f.count));
          var _ := reader.input.Take();
          d := Returned(f.ret);
        }
      case ArrayFinish =>
        if !reader.cfg.trailingCommas && src.ElementDelimiter? {
          d := Error;
        } else {
          var f := PopFrame();
          reader.Send(EndArray(if src.Element? then Count(f.count) else f.count));
          var _ := reader.input.Take();
          d := Returned(f.ret);
        }
      case Value =>
        reader.ParseValue();
        d := if reader.error then Error else Finish;
      case Finish => assert false;
      case Start => assert false;
    }

    /** The parsing loop does what the automaton does, hence what the recursive parser does. */
    method IterativeParse() returns (ok: bool)
      requires reader.Ready() && reader.input.pos == 0 && reader.events == [] && stack == []
      modifies this, reader`events, reader`error, reader.input`pos
      ensures var r := ReadDocument(reader.cfg, reader.input.src);
              ok == r.ok && reader.events == r.evs && (ok ==> reader.input.pos == r.pos)
    {
      ParsersAgree(reader.cfg, reader.input.src);
      hide ReadDocument, Transit, Predict, Tokenize;
      var state := Start;
      reader.SkipWhitespace();
      var done := false;
      ghost var whole := RunDocument(reader.cfg, reader.input.src);
      while !done && Peek(reader.input.src, reader.input.pos) != NUL
        invariant reader.Ready() && Valid(reader.input.src, Configuration(state))
        invariant !done ==> whole == Run(reader.cfg, reader.input.src, Configuration(state))
        invariant done ==> state.Finish? && whole == Parsed(true, reader.input.pos, reader.events)
        decreases !done, |reader.input.src| - reader.input.pos
      {
        var t := Tokenize(Peek(reader.input.src, reader.input.pos));
        var n := Predict(state, t);
        var d := TransitTo(state, n);
        if d.Error? {
          return false;
        }
        state := d;
        if reader.cfg.stopWhenDone && state.Finish? {
          done := true;
        } else {
          reader.SkipWhitespace();
        }
      }
      ok := state.Finish?;
    }
  }
}
