/** Resolving a JSON Pointer in a tree, and creating what it points to
    (3rdparty/rapidjson/pointer.h, Get and Create). */
module PointerTree {
  import opened Bytes
  import opened Wrappers
  import opened JsonPointer
  import opened JsonTree

  datatype Resolution = Resolved(value: Json) | Unresolved(tokenIndex: nat)

  /** The place of the first member with this name; the number of members if there is none. */
  function FindMember(members: seq<Member>, name: Text): (k: nat)
    ensures k <= |members|
    ensures k < |members| ==> members[k].name == name
    ensures forall j :: 0 <= j < k ==> members[j].name != name
  {
    if members == [] || members[0].name == name then 0 else 1 + FindMember(members[1..], name)
  }

  predicate InElements(t: Token, elements: seq<Json>) {
    t.index != INVALID_INDEX && t.index < |elements|
  }

  /** The child of `v` that token `t` names, if there is one. */
  function Child(v: Json, t: Token): Option<Json> {
    match v
    case ObjectValue(ms) => if FindMember(ms, t.name) < |ms| then Some(ms[FindMember(ms, t.name)].value) else None
    case ArrayValue(es) => if InElements(t, es) then Some(es[t.index]) else None
    case _ => None
  }

  /** Get, from token `k` on. */
  function GetFrom(v: Json, tokens: seq<Token>, k: nat): Resolution
    requires k <= |tokens|
    decreases |tokens| - k
  {
    if k == |tokens| then Resolved(v)
    else if Child(v, tokens[k]).None? then Unresolved(k)
    else GetFrom(Child(v, tokens[k]).value, tokens, k + 1)
  }

  function Get(root: Json, tokens: seq<Token>): Resolution {
    GetFrom(root, tokens, 0)
  }

  /** The loop of Get. */
  method GetLoop(root: Json, tokens: seq<Token>) returns (found: bool, v: Json, unresolved: nat)
    ensures Get(root, tokens) == if found then Resolved(v) else Unresolved(unresolved)
  {
    v := root;
    var k := 0;
    while k < |tokens|
      invariant 0 <= k <= |tokens| && Get(root, tokens) == GetFrom(v, tokens, k)
    {
      var t := tokens[k];
      var advanced := false;
      if v.ObjectValue? {
        var m := FindMember(v.members, t.name);
        if m != |v.members| {
          v := v.members[m].value;
          advanced := true;
        }
      } else if v.ArrayValue? {
        if !(t.index == INVALID_INDEX || t.index >= |v.elements|) {
          v := v.elements[t.index];
          advanced := true;
        }
      }
      if !advanced {
        return false, v, k;
      }
      k := k + 1;
    }
    return true, v, 0;
  }

  /* ---- creating ---- */

  const DASH: Text := [MINUS]

  function Nulls(n: nat): (s: seq<Json>)
    ensures |s| == n && forall k :: 0 <= k < n ==> s[k] == NullValue
  {
    if n == 0 then [] else Nulls(n - 1) + [NullValue]
  }

  /** The array filled up with nulls so that it has an element `index`. */
  function Padded(es: seq<Json>, index: nat): (s: seq<Json>)
    ensures |s| == (if index < |es| then |es| else index + 1) && s[..|es|] == es
    ensures forall k :: |es| <= k < |s| ==> s[k] == NullValue
  {
    if index < |es| then es else es + Nulls(index + 1 - |es|)
  }

  /** The object with a member of this name. */
  function Extended(ms: seq<Member>, name: Text): (s: seq<Member>)
    ensures FindMember(s, name) < |s|
  {
    if FindMember(ms, name) < |ms| then ms
    else
      FindAppended(ms, name);
      ms + [Member(name, NullValue)]
  }

  lemma {:induction false} FindAppended(ms: seq<Member>, name: Text)
    requires FindMember(ms, name) == |ms|
    ensures FindMember(ms + [Member(name, NullValue)], name) == |ms|
    decreases |ms|
  {
    if ms != [] {
      assert (ms + [Member(name, NullValue)])[1..] == ms[1..] + [Member(name, NullValue)];
      FindAppended(ms[1..], name);
    }
  }

  /** The container that a token needs: the value itself, or an empty one in its place. */
  function Retyped(v: Json, t: Token): (w: Json)
    ensures w.ObjectValue? || w.ArrayValue?
    ensures t.index == INVALID_INDEX ==> w.ObjectValue?
    ensures w == v <==> v.ObjectValue? || (v.ArrayValue? && t.index != INVALID_INDEX)
  {
    if t.index == INVALID_INDEX then (if v.ObjectValue? then v else ObjectValue([]))
    else if !v.ArrayValue? && !v.ObjectValue? then ArrayValue([])
    else v
  }

  predicate Appends(v: Json, t: Token) {
    v.ArrayValue? && t.name == DASH
  }

  /** The tree behind Create, whether everything was there already, and the node it returns. */
  datatype Created = Created(tree: Json, exist: bool, node: Json)

  function Create(v: Json, tokens: seq<Token>): Created
    decreases |tokens|
  {
    if tokens == [] then Created(v, true, v)
    else
      var t, rest := tokens[0], tokens[1..];
      if Appends(v, t) then
        var c := Create(NullValue, rest);
        Created(ArrayValue(v.elements + [c.tree]), false, c.node)
      else
        var w := Retyped(v, t);
        if w.ArrayValue? then
          var es := Padded(w.elements, t.index);
          var c := Create(es[t.index], rest);
          Created(ArrayValue(es[t.index := c.tree]), c.exist && t.index < |w.elements|, c.node)
        else
          var ms := Extended(w.members, t.name);
          var m := FindMember(ms, t.name);
          var c := Create(ms[m].value, rest);
          Created(ObjectValue(ms[m := Member(ms[m].name, c.tree)]), c.exist && m < |w.members|, c.node)
  }

  /** In every token that Parse makes, "-" is no index. */
  predicate Consistent(t: Token) {
    t.name == DASH ==> t.index == INVALID_INDEX
  }

  predicate AllConsistent(tokens: seq<Token>) {
    forall k :: 0 <= k < |tokens| ==> Consistent(tokens[k])
  }

  lemma {:induction false} ReadTokensConsistent(s: Text, i: nat, uri: bool)
    requires i <= |s| && (i == |s| || s[i] == SOLIDUS) && ReadTokens(s, i, uri).Tokens?
    ensures AllConsistent(ReadTokens(s, i, uri).tokens)
    decreases |s| - i
  {
    if i < |s| {
      var n := ReadName(s, i + 1, uri);
      ReadTokensConsistent(s, n.next, uri);
      DashIsNoIndex(n.name);
      hide IndexOf, ReadName;
    }
  }

  lemma DashIsNoIndex(name: Text)
    ensures Consistent(Token(name, IndexOf(name)))
  {
    if name == DASH {
      assert !IsDigit(name[0]);
    }
  }

  lemma ParsedAreConsistent(s: Text)
    requires Parse(s).Tokens?
    ensures AllConsistent(Parse(s).tokens)
  {
    var i := if Peek(s, 0) == HASH then 1 else 0;
    ReadTokensConsistent(s, i, i == 1);
  }

  /* ---- the laws ---- */

  /** GetFrom at `k` is Get of the remaining tokens. */
  lemma {:induction false} GetRest(v: Json, tokens: seq<Token>, k: nat)
    requires k <= |tokens|
    ensures GetFrom(v, tokens, k).Resolved? <==> Get(v, tokens[k..]).Resolved?
    ensures GetFrom(v, tokens, k).Resolved? ==> Get(v, tokens[k..]) == GetFrom(v, tokens, k)
    decreases |tokens| - k
  {
    hide Child;
    GetShift(v, tokens, k, 0);
    assert tokens[k..][0..] == tokens[k..];
  }

  lemma {:induction false} GetShift(v: Json, tokens: seq<Token>, k: nat, j: nat)
    requires k + j <= |tokens|
    ensures GetFrom(v, tokens, k + j).Resolved? <==> GetFrom(v, tokens[k..], j).Resolved?
    ensures GetFrom(v, tokens, k + j).Resolved? ==> GetFrom(v, tokens[k..], j) == GetFrom(v, tokens, k + j)
    decreases |tokens| - k - j
  {
    hide Child;
    if k + j < |tokens| {
      assert tokens[k..][j] == tokens[k + j];
      if Child(v, tokens[k + j]).Some? {
        GetShift(Child(v, tokens[k + j]).value, tokens, k, j + 1);
      }
    }
  }

  /** One step of Get. */
  lemma GetStep(v: Json, tokens: seq<Token>)
    requires tokens != []
    ensures Get(v, tokens).Resolved? <==>
      Child(v, tokens[0]).Some? && Get(Child(v, tokens[0]).value, tokens[1..]).Resolved?
    ensures Child(v, tokens[0]).Some? && Get(v, tokens).Resolved? ==>
      Get(v, tokens) == Get(Child(v, tokens[0]).value, tokens[1..])
  {
    hide Child;
    if Child(v, tokens[0]).Some? {
      GetRest(Child(v, tokens[0]).value, tokens, 1);
    }
  }

  /** What Create does below the root, by whether the child is there. */
  lemma CreateChild(v: Json, t: Token)
    requires Consistent(t) && Child(v, t).Some?
    ensures !Appends(v, t) && Retyped(v, t) == v
    ensures v.ArrayValue? ==> Padded(v.elements, t.index) == v.elements && t.index < |v.elements|
    ensures v.ObjectValue? ==> Extended(v.members, t.name) == v.members && FindMember(v.members, t.name) < |v.members|
  {
  }

  lemma CreateNoChild(v: Json, t: Token)
    requires Consistent(t) && Child(v, t).None? && !Appends(v, t)
    ensures Retyped(v, t).ArrayValue? ==> t.index >= |Retyped(v, t).elements|
    ensures Retyped(v, t).ObjectValue? ==> FindMember(Retyped(v, t).members, t.name) == |Retyped(v, t).members|
  {
  }

  /** Create reports that everything existed exactly if Get would have resolved the pointer. */
  lemma {:induction false} CreateExistsExactly(v: Json, tokens: seq<Token>)
    requires AllConsistent(tokens)
    ensures Create(v, tokens).exist <==> Get(v, tokens).Resolved?
    decreases |tokens|
  {
    if tokens != [] {
      var t := tokens[0];
      GetStep(v, tokens);
      assert Consistent(t) && AllConsistent(tokens[1..]);
      if Child(v, t).Some? {
        CreateChild(v, t);
        CreateExistsExactly(Child(v, t).value, tokens[1..]);
      } else if !Appends(v, t) {
        CreateNoChild(v, t);
      }
      hide Get, Padded, Extended, Consistent;
    }
  }

  /** ... and then it leaves the tree as it is and returns the value that Get finds. */
  lemma {:induction false} CreateKeepsExisting(v: Json, tokens: seq<Token>)
    requires AllConsistent(tokens) && Get(v, tokens).Resolved?
    ensures Create(v, tokens).tree == v && Resolved(Create(v, tokens).node) == Get(v, tokens)
    decreases |tokens|
  {
    if tokens != [] {
      var t := tokens[0];
      GetStep(v, tokens);
      assert Consistent(t) && AllConsistent(tokens[1..]);
      CreateChild(v, t);
      CreateKeepsExisting(Child(v, t).value, tokens[1..]);
      hide Get, Padded, Extended, Consistent;
    }
  }

  /** The pointer to the created node: "-" in an array is replaced by the new element's index. */
  function Landed(v: Json, tokens: seq<Token>): seq<Token>
    decreases |tokens|
  {
    if tokens == [] then []
    else
      var t, rest := tokens[0], tokens[1..];
      if Appends(v, t) then [Token(t.name, |v.elements|)] + Landed(NullValue, rest)
      else if Child(v, t).Some? then [t] + Landed(Child(v, t).value, rest)
      else [t] + Landed(NullValue, rest)
  }

  /** "-" is applied to an array on the way. */
  predicate AppliesDash(v: Json, tokens: seq<Token>)
    decreases |tokens|
  {
    tokens != [] &&
    (Appends(v, tokens[0]) || AppliesDash(Below(v, tokens[0]), tokens[1..]))
  }

  /** The value that Create goes on with: the child, or the null put in its place. */
  function Below(v: Json, t: Token): Json {
    if Child(v, t).Some? then Child(v, t).value else NullValue
  }

  /** Sizes are 32-bit, so an array to which Create appends has a free index. */
  predicate HasRoom(v: Json, tokens: seq<Token>)
    decreases |tokens|
  {
    tokens != [] ==>
      if Appends(v, tokens[0]) then |v.elements| < INVALID_INDEX && HasRoom(NullValue, tokens[1..])
      else HasRoom(Below(v, tokens[0]), tokens[1..])
  }

  lemma {:induction false} FindReplaced(ms: seq<Member>, name: Text, v: Json)
    requires FindMember(ms, name) < |ms|
    ensures var m := FindMember(ms, name); FindMember(ms[m := Member(ms[m].name, v)], name) == m
    decreases |ms|
  {
    if ms[0].name != name {
      var m := FindMember(ms, name);
      FindReplaced(ms[1..], name, v);
      assert ms[m := Member(ms[m].name, v)][1..] == ms[1..][m - 1 := Member(ms[m].name, v)];
    }
  }

  /** Create goes on with the child, or with the null that it puts there. */
  lemma BelowIs(v: Json, t: Token)
    requires Consistent(t) && !Appends(v, t)
    ensures var w := Retyped(v, t);
            if w.ArrayValue? then Padded(w.elements, t.index)[t.index] == Below(v, t)
            else var ms := Extended(w.members, t.name); ms[FindMember(ms, t.name)].value == Below(v, t)
  {
    if Child(v, t).Some? {
      CreateChild(v, t);
    } else {
      CreateNoChild(v, t);
      var w := Retyped(v, t);
      if w.ObjectValue? {
        FindAppended(w.members, t.name);
      }
    }
  }

  /** A member or element put in place is found there. */
  lemma PutIsFound(w: Json, t: Token, c: Json)
    requires w.ArrayValue? || w.ObjectValue?
    requires w.ArrayValue? ==> t.index < |w.elements| && t.index != INVALID_INDEX
    requires w.ObjectValue? ==> FindMember(w.members, t.name) < |w.members|
    ensures w.ArrayValue? ==> Child(ArrayValue(w.elements[t.index := c]), t) == Some(c)
    ensures w.ObjectValue? ==> var m := FindMember(w.members, t.name);
                               Child(ObjectValue(w.members[m := Member(w.members[m].name, c)]), t) == Some(c)
  {
    if w.ObjectValue? {
      FindReplaced(w.members, t.name, c);
    }
  }

  /** Without "-" in an array, the child that the token names in the new tree is what Create has made of
      the old one. */
  lemma CreatedChild(v: Json, tokens: seq<Token>)
    requires tokens != [] && Consistent(tokens[0]) && !Appends(v, tokens[0])
    ensures var c := Create(Below(v, tokens[0]), tokens[1..]);
            Child(Create(v, tokens).tree, tokens[0]) == Some(c.tree) && Create(v, tokens).node == c.node
  {
    var t := tokens[0];
    BelowIs(v, t);
    hide Padded, Extended, Child, FindMember, Below;
    var w, c := Retyped(v, t), Create(Below(v, t), tokens[1..]);
    if w.ArrayValue? {
      PutIsFound(ArrayValue(Padded(w.elements, t.index)), t, c.tree);
    } else {
      PutIsFound(ObjectValue(Extended(w.members, t.name)), t, c.tree);
    }
  }

  lemma AppendedChild(v: Json, tokens: seq<Token>)
    requires tokens != [] && Appends(v, tokens[0]) && |v.elements| < INVALID_INDEX
    ensures var c := Create(NullValue, tokens[1..]);
            Child(Create(v, tokens).tree, Token(tokens[0].name, |v.elements|)) == Some(c.tree)
            && Create(v, tokens).node == c.node
  {
  }

  /** After Create, Get finds the created node where Create has put it. */
  lemma {:induction false} CreatedIsFound(v: Json, tokens: seq<Token>)
    requires AllConsistent(tokens) && HasRoom(v, tokens)
    ensures Get(Create(v, tokens).tree, Landed(v, tokens)) == Resolved(Create(v, tokens).node)
    decreases |tokens|
  {
    if tokens != [] {
      var t, rest := tokens[0], tokens[1..];
      assert Consistent(t) && AllConsistent(rest);
      var tree, landed := Create(v, tokens).tree, Landed(v, tokens);
      GetStep(tree, landed);
      if Appends(v, t) {
        AppendedChild(v, tokens);
        CreatedIsFound(NullValue, rest);
        assert landed[1..] == Landed(NullValue, rest);
      } else {
        CreatedChild(v, tokens);
        CreatedIsFound(Below(v, t), rest);
        assert landed[1..] == Landed(Below(v, t), rest);
      }
      hide Get, Create, Child, Consistent;
    }
  }

  lemma {:induction false} LandedWithoutDash(v: Json, tokens: seq<Token>)
    ensures !AppliesDash(v, tokens) ==> Landed(v, tokens) == tokens
    decreases |tokens|
  {
    if tokens != [] {
      LandedWithoutDash(Below(v, tokens[0]), tokens[1..]);
      hide Child;
    }
  }

  /** After Create, Get resolves the same pointer exactly if no "-" was applied to an array; then it
      finds the created node. */
  lemma {:induction false} GetAfterCreateExactly(v: Json, tokens: seq<Token>)
    requires AllConsistent(tokens)
    ensures Get(Create(v, tokens).tree, tokens).Resolved? <==> !AppliesDash(v, tokens)
    ensures !AppliesDash(v, tokens) ==> Get(Create(v, tokens).tree, tokens) == Resolved(Create(v, tokens).node)
    decreases |tokens|
  {
    if tokens != [] {
      var t := tokens[0];
      assert Consistent(t) && AllConsistent(tokens[1..]);
      var tree := Create(v, tokens).tree;
      GetStep(tree, tokens);
      if Appends(v, t) {
        assert Child(tree, t).None?;
      } else {
        CreatedChild(v, tokens);
        GetAfterCreateExactly(Below(v, t), tokens[1..]);
      }
      hide Get, Create, Child, Consistent;
    }
  }

  /* ---- what Create does not touch ---- */

  /** On the way to its place, Create replaces an existing value by a container of another type. */
  predicate Retypes(v: Json, tokens: seq<Token>)
    decreases |tokens|
  {
    tokens != [] && !Appends(v, tokens[0]) &&
    (Retyped(v, tokens[0]) != v
     || (Child(v, tokens[0]).Some? && Retypes(Child(v, tokens[0]).value, tokens[1..])))
  }

  predicate Scalar(v: Json) {
    !v.ArrayValue? && !v.ObjectValue?
  }

  /** The tree with one child put in place of the old one, or added. */
  function PutChild(v: Json, t: Token, x: Json): Json
    requires (v.ArrayValue? && t.index != INVALID_INDEX) || v.ObjectValue?
  {
    if v.ArrayValue? then ArrayValue(Padded(v.elements, t.index)[t.index := x])
    else
      var ms := Extended(v.members, t.name);
      var m := FindMember(ms, t.name);
      ObjectValue(ms[m := Member(ms[m].name, x)])
  }

  lemma TreeIs(v: Json, tokens: seq<Token>)
    requires tokens != [] && Consistent(tokens[0]) && !Appends(v, tokens[0]) && Retyped(v, tokens[0]) == v
    ensures (v.ArrayValue? && tokens[0].index != INVALID_INDEX) || v.ObjectValue?
    ensures Create(v, tokens).tree == PutChild(v, tokens[0], Create(Below(v, tokens[0]), tokens[1..]).tree)
  {
    BelowIs(v, tokens[0]);
    hide Padded, Extended, FindMember, Below;
  }

  /** Another child is what it was; the child put is found by every token that found the old one. */
  lemma PutKeepsOther(v: Json, t: Token, x: Json, u: Token)
    requires (v.ArrayValue? && t.index != INVALID_INDEX) || v.ObjectValue?
    requires Child(v, u).Some?
    ensures || Child(PutChild(v, t, x), u) == Child(v, u)
            || (Child(PutChild(v, t, x), u) == Some(x) && Child(v, t) == Child(v, u))
  {
    if v.ObjectValue? {
      OtherMember(v.members, t.name, u.name, x);
    }
  }

  /** A child is what it was, or it is the one that Create went into. */
  lemma OtherChild(v: Json, tokens: seq<Token>, u: Token)
    requires tokens != [] && Consistent(tokens[0]) && !Retypes(v, tokens) && Child(v, u).Some?
    ensures var tree := Create(v, tokens).tree;
            || Child(tree, u) == Child(v, u)
            || (Child(v, tokens[0]) == Child(v, u) && !Appends(v, tokens[0])
                && Child(tree, u) == Some(Create(Child(v, u).value, tokens[1..]).tree)
                && !Retypes(Child(v, u).value, tokens[1..]))
  {
    var t := tokens[0];
    if Appends(v, t) {
      AppendKeepsOther(v, tokens, u);
    } else {
      hide Create, Child, PutChild;
      TreeIs(v, tokens);
      PutKeepsOther(v, t, Create(Below(v, t), tokens[1..]).tree, u);
    }
  }

  lemma AppendKeepsOther(v: Json, tokens: seq<Token>, u: Token)
    requires tokens != [] && Appends(v, tokens[0]) && Child(v, u).Some?
    ensures Child(Create(v, tokens).tree, u) == Child(v, u)
  {
  }

  lemma OtherMember(ms: seq<Member>, name: Text, other: Text, v: Json)
    requires FindMember(ms, other) < |ms|
    ensures var es := Extended(ms, name); var m := FindMember(es, name);
            FindMember(es[m := Member(es[m].name, v)], other) == FindMember(ms, other)
  {
    var es := Extended(ms, name);
    FindPrefix(ms, es, other);
    FindRenamed(es, FindMember(es, name), other, v);
  }

  lemma {:induction false} FindPrefix(ms: seq<Member>, es: seq<Member>, other: Text)
    requires FindMember(ms, other) < |ms| <= |es| && es[..|ms|] == ms
    ensures FindMember(es, other) == FindMember(ms, other)
    decreases |ms|
  {
    assert es[0] == es[..|ms|][0] == ms[0];
    if ms[0].name != other {
      assert es[1..][..|ms| - 1] == ms[1..];
      FindPrefix(ms[1..], es[1..], other);
    }
  }

  lemma {:induction false} FindRenamed(es: seq<Member>, m: nat, other: Text, v: Json)
    requires m < |es|
    ensures FindMember(es[m := Member(es[m].name, v)], other) == FindMember(es, other)
    decreases |es|
  {
    var fs := es[m := Member(es[m].name, v)];
    if es[0].name != other && m > 0 {
      assert fs[1..] == es[1..][m - 1 := Member(es[m].name, v)];
      FindRenamed(es[1..], m - 1, other, v);
    } else if es[0].name != other {
      assert fs[1..] == es[1..];
    }
  }

  /** Unless Create changes the type of an existing value, every scalar of the tree stays where it was. */
  lemma {:induction false} CreateKeepsScalars(v: Json, tokens: seq<Token>, other: seq<Token>)
    requires AllConsistent(tokens) && !Retypes(v, tokens)
    requires Get(v, other).Resolved? && Scalar(Get(v, other).value)
    ensures Get(Create(v, tokens).tree, other) == Get(v, other)
    decreases |other|
  {
    if tokens != [] && other != [] {
      assert Consistent(tokens[0]) && AllConsistent(tokens[1..]);
      var tree, u := Create(v, tokens).tree, other[0];
      GetStep(v, other);
      GetStep(tree, other);
      OtherChild(v, tokens, u);
      if Child(tree, u) != Child(v, u) {
        CreateKeepsScalars(Child(v, u).value, tokens[1..], other[1..]);
      }
      hide Get, Create, Child, Retypes, Consistent;
    }
  }
}
