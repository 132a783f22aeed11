/**
  Removing redundant outer parentheses (bfg2/bfg/core/migration_operations.py, lines 126-142).

  `NormaliseExpressionLoop` is the source's loop; `StripParens` is what it computes.  A balanced
  token list is the flattening of exactly one forest of groups, and stripping it takes away
  exactly the groups that enclose everything (`StripIsCore`).
 */
module Parens {
  import opened Wrappers
  import opened SqlLexer
  import opened SqlGrammar
  import opened SqlNormalise

  // ---- Depth and balance ----

  function Delta(t: string): int {
    if t == "(" then 1 else if t == ")" then -1 else 0
  }

  function Depth(ts: seq<string>): int {
    if ts == [] then 0 else Depth(ts[..|ts| - 1]) + Delta(ts[|ts| - 1])
  }

  ghost predicate Balanced(ts: seq<string>) {
    Depth(ts) == 0 && forall i :: 0 <= i <= |ts| ==> Depth(ts[..i]) >= 0
  }

  /** The first token opens the group that the last token closes. */
  predicate OuterPair(ts: seq<string>) {
    && |ts| > 1 && ts[0] == "(" && ts[|ts| - 1] == ")"
    && Depth(ts) == 0
    && forall i :: 0 < i < |ts| ==> Depth(ts[..i]) > 0
  }

  function StripParens(ts: seq<string>): seq<string>
    decreases |ts|
  {
    if OuterPair(ts) then StripParens(ts[1..|ts| - 1]) else ts
  }

  function NormaliseExpression(value: string): Result<string, LexError> {
    match Tokens(value)
    case Ok(ts) => Ok(Join(StripParens(ts)))
    case Err(e) => Err(e)
  }

  lemma DepthStep(ts: seq<string>, i: nat)
    requires i < |ts|
    ensures Depth(ts[..i + 1]) == Depth(ts[..i]) + Delta(ts[i])
  {
    assert ts[..i + 1][..i] == ts[..i];
  }

  /** The inner loop: whether the group opened by the first token closes at the last one. */
  method ClosesAtEnd(tokens: seq<string>) returns (closesAtEnd: bool)
    requires tokens != [] && tokens[0] == "(" && tokens[|tokens| - 1] == ")"
    ensures closesAtEnd == OuterPair(tokens)
  {
    var depth, position := 0, 0;
    assert tokens[..|tokens|] == tokens;
    while position < |tokens|
      invariant 0 <= position <= |tokens|
      invariant depth == Depth(tokens[..position])
      invariant forall i :: 0 < i <= position ==> Depth(tokens[..i]) > 0
    {
      DepthStep(tokens, position);
      if tokens[position] == "(" {
        depth := depth + 1;
      } else if tokens[position] == ")" {
        depth := depth - 1;
        if depth == 0 {
          return position == |tokens| - 1;
        }
      }
      position := position + 1;
    }
    return false;
  }

  method NormaliseExpressionLoop(value: string) returns (r: Result<string, LexError>)
    ensures r == NormaliseExpression(value)
  {
    hide OuterPair, Join, Tokens;
    var lexed := SqlTokens(value);
    if lexed.Err? {
      return Err(lexed.error);
    }
    var tokens := lexed.value;
    while tokens != [] && tokens[0] == "(" && tokens[|tokens| - 1] == ")"
      invariant StripParens(tokens) == StripParens(lexed.value)
      decreases |tokens|
    {
      var closesAtEnd := ClosesAtEnd(tokens);
      if !closesAtEnd {
        return Ok(Join(tokens));
      }
      OuterPairLength(tokens);
      tokens := tokens[1..|tokens| - 1];
    }
    NoOuterPair(tokens);
    return Ok(Join(tokens));
  }

  lemma OuterPairLength(ts: seq<string>)
    requires OuterPair(ts)
    ensures |ts| > 1
  {
  }

  lemma NoOuterPair(ts: seq<string>)
    requires ts == [] || ts[0] != "(" || ts[|ts| - 1] != ")"
    ensures !OuterPair(ts)
  {
  }

  // ---- Wrapping and stripping ----

  lemma {:induction false} DepthConcat(a: seq<string>, b: seq<string>)
    ensures Depth(a + b) == Depth(a) + Depth(b)
  {
    if b == [] {
      assert a + b == a;
    } else {
      assert (a + b)[..|a + b| - 1] == a + b[..|b| - 1];
      DepthConcat(a, b[..|b| - 1]);
    }
  }

  function Enclose(ts: seq<string>): seq<string> {
    ["("] + ts + [")"]
  }

  function Wrap(k: nat, ts: seq<string>): seq<string> {
    if k == 0 then ts else Enclose(Wrap(k - 1, ts))
  }

  lemma DepthInside(ts: seq<string>, i: nat)
    requires i <= |ts|
    ensures Depth(Enclose(ts)[..i + 1]) == 1 + Depth(ts[..i])
  {
    assert Depth(["("]) == 1;
    DepthConcat(["("], ts[..i]);
    assert Enclose(ts)[..i + 1] == ["("] + ts[..i];
  }

  lemma DepthEnclose(ts: seq<string>)
    ensures Depth(Enclose(ts)) == Depth(ts)
  {
    DepthInside(ts, |ts|);
    DepthStep(Enclose(ts), |ts| + 1);
    assert Enclose(ts)[..|ts| + 2] == Enclose(ts) && ts[..|ts|] == ts;
  }

  /** Putting parentheses round a list makes an outer pair exactly when the list is balanced. */
  lemma OuterPairIffBalanced(ts: seq<string>)
    ensures OuterPair(Enclose(ts)) <==> Balanced(ts)
  {
    DepthEnclose(ts);
    forall i | 0 <= i <= |ts|
      ensures Depth(Enclose(ts)[..i + 1]) == 1 + Depth(ts[..i])
    {
      DepthInside(ts, i);
    }
    if OuterPair(Enclose(ts)) {
      forall i | 0 <= i <= |ts|
        ensures Depth(ts[..i]) >= 0
      {
        assert Depth(Enclose(ts)[..i + 1]) == 1 + Depth(ts[..i]);
      }
    }
    if Balanced(ts) {
      forall j | 0 < j < |Enclose(ts)|
        ensures Depth(Enclose(ts)[..j]) > 0
      {
        assert Depth(Enclose(ts)[..(j - 1) + 1]) == 1 + Depth(ts[..j - 1]);
      }
    }
  }

  lemma BalancedEnclose(ts: seq<string>)
    requires Balanced(ts)
    ensures Balanced(Enclose(ts))
  {
    OuterPairIffBalanced(ts);
    assert Enclose(ts)[..|ts| + 2] == Enclose(ts);
  }

  lemma InsideOuterPair(ts: seq<string>)
    requires OuterPair(ts)
    ensures ts == Enclose(ts[1..|ts| - 1]) && Balanced(ts[1..|ts| - 1])
  {
    assert ts == Enclose(ts[1..|ts| - 1]);
    OuterPairIffBalanced(ts[1..|ts| - 1]);
  }

  /** Any number of pairs round a balanced list is stripped away again. */
  lemma {:induction false} StripWrap(k: nat, ts: seq<string>)
    requires Balanced(ts)
    ensures Balanced(Wrap(k, ts)) && StripParens(Wrap(k, ts)) == StripParens(ts)
  {
    if k > 0 {
      var inner := Wrap(k - 1, ts);
      StripWrap(k - 1, ts);
      OuterPairIffBalanced(inner);
      BalancedEnclose(inner);
      assert Enclose(inner)[1..|Enclose(inner)| - 1] == inner;
    }
  }

  lemma {:induction false} StripIsMiddle(ts: seq<string>) returns (k: nat)
    ensures ts == Wrap(k, StripParens(ts)) && !OuterPair(StripParens(ts))
    ensures k > 0 ==> Balanced(StripParens(ts))
    decreases |ts|
  {
    if OuterPair(ts) {
      var inner := ts[1..|ts| - 1];
      InsideOuterPair(ts);
      k := StripIsMiddle(inner);
      k := k + 1;
    } else {
      k := 0;
    }
  }

  /**
    Stripping removes exactly the maximal nest of outer pairs: the result is the one list
    without an outer pair of its own that gives ts back when wrapped, balanced unless
    nothing was removed.
   */
  lemma StripExact(ts: seq<string>, core: seq<string>)
    ensures StripParens(ts) == core <==>
      !OuterPair(core) && exists k: nat :: ts == Wrap(k, core) && (k > 0 ==> Balanced(core))
  {
    var k := StripIsMiddle(ts);
    forall j: nat | ts == Wrap(j, core) && (j > 0 ==> Balanced(core)) && !OuterPair(core)
      ensures StripParens(ts) == core
    {
      if j > 0 {
        StripWrap(j, core);
      }
    }
  }

  // ---- The groups of a balanced list ----

  datatype Tree = Leaf(token: string) | Group(inner: seq<Tree>)

  function FlattenTree(t: Tree): seq<string>
    decreases t, 0
  {
    match t
    case Leaf(token) => [token]
    case Group(inner) => Enclose(Flatten(inner))
  }

  function Flatten(f: seq<Tree>): seq<string>
    decreases f, 1
  {
    if f == [] then [] else FlattenTree(f[0]) + Flatten(f[1..])
  }

  predicate ProperTree(t: Tree)
    decreases t, 0
  {
    match t
    case Leaf(token) => Delta(token) == 0
    case Group(inner) => Proper(inner)
  }

  /** Leaves are not parentheses. */
  predicate Proper(f: seq<Tree>)
    decreases f, 1
  {
    f == [] || (ProperTree(f[0]) && Proper(f[1..]))
  }

  /** The expression without the groups that enclose all of it. */
  function Core(f: seq<Tree>): seq<Tree>
    decreases f
  {
    if |f| == 1 && f[0].Group? then Core(f[0].inner) else f
  }

  lemma BalancedConcat(a: seq<string>, b: seq<string>)
    requires Balanced(a) && Balanced(b)
    ensures Balanced(a + b)
  {
    DepthConcat(a, b);
    forall i | 0 <= i <= |a + b|
      ensures Depth((a + b)[..i]) >= 0
    {
      if i <= |a| {
        assert (a + b)[..i] == a[..i];
      } else {
        assert (a + b)[..i] == a + b[..i - |a|];
        DepthConcat(a, b[..i - |a|]);
      }
    }
  }

  lemma {:induction false} FlattenBalanced(f: seq<Tree>)
    requires Proper(f)
    ensures Balanced(Flatten(f))
    decreases f, 1
  {
    if f != [] {
      TreeBalanced(f[0]);
      FlattenBalanced(f[1..]);
      BalancedConcat(FlattenTree(f[0]), Flatten(f[1..]));
    }
  }

  lemma {:induction false} TreeBalanced(t: Tree)
    requires ProperTree(t)
    ensures Balanced(FlattenTree(t))
    decreases t, 0
  {
    match t
    case Leaf(token) =>
      assert [token][..0] == [] && [token][..1] == [token];
    case Group(inner) =>
      FlattenBalanced(inner);
      BalancedEnclose(Flatten(inner));
  }

  /** The first group of a balanced list that starts with "(". */
  lemma FirstGroup(ts: seq<string>) returns (n: nat)
    requires Balanced(ts) && ts != [] && ts[0] == "("
    ensures 1 < n <= |ts| && OuterPair(ts[..n]) && Balanced(ts[n..])
  {
    n := 1;
    assert ts[..1] == ["("] && Depth(["("]) == 1 && ts[..|ts|] == ts;
    while n < |ts| && Depth(ts[..n]) > 0
      invariant 0 < n <= |ts|
      invariant forall i :: 0 < i < n ==> Depth(ts[..i]) > 0
    {
      n := n + 1;
    }
    var group := ts[..n];
    assert forall i :: 0 < i < n ==> group[..i] == ts[..i];
    DepthStep(ts, n - 1);
    forall i | 0 <= i <= |ts| - n
      ensures Depth(ts[n..][..i]) == Depth(ts[..n + i])
    {
      assert ts[..n + i] == group + ts[n..][..i];
      DepthConcat(group, ts[n..][..i]);
    }
    assert ts[n..][..|ts| - n] == ts[n..];
  }

  /** Every balanced list is the flattening of a forest. */
  lemma {:induction false} Parse(ts: seq<string>) returns (f: seq<Tree>)
    requires Balanced(ts)
    ensures Proper(f) && Flatten(f) == ts
    decreases |ts|
  {
    if ts == [] {
      return [];
    }
    var rest;
    if ts[0] == "(" {
      var n := FirstGroup(ts);
      InsideOuterPair(ts[..n]);
      var inner := Parse(ts[..n][1..n - 1]);
      rest := Parse(ts[n..]);
      f := [Group(inner)] + rest;
      assert ts == ts[..n] + ts[n..];
    } else {
      LeafFirst(ts);
      rest := Parse(ts[1..]);
      f := [Leaf(ts[0])] + rest;
      assert ts == [ts[0]] + ts[1..];
    }
    assert f[1..] == rest;
  }

  lemma LeafFirst(ts: seq<string>)
    requires Balanced(ts) && ts != [] && ts[0] != "("
    ensures Delta(ts[0]) == 0 && Balanced(ts[1..])
  {
    assert Depth(ts[..1]) == Delta(ts[0]) by { DepthStep(ts, 0); }
    forall i | 0 <= i <= |ts| - 1
      ensures Depth(ts[1..][..i]) == Depth(ts[..1 + i])
    {
      assert ts[..1 + i] == ts[..1] + ts[1..][..i];
      DepthConcat(ts[..1], ts[1..][..i]);
    }
    assert ts[1..][..|ts| - 1] == ts[1..] && ts[..|ts|] == ts;
  }

  /** The outer pair of a flattened forest is the group that is all of it. */
  lemma OuterPairIsGroup(f: seq<Tree>)
    requires Proper(f)
    ensures OuterPair(Flatten(f)) <==> |f| == 1 && f[0].Group?
  {
    if f != [] {
      var t, rest, ts := FlattenTree(f[0]), Flatten(f[1..]), Flatten(f);
      TreeBalanced(f[0]);
      if f[0].Group? {
        FlattenBalanced(f[0].inner);
        OuterPairIffBalanced(Flatten(f[0].inner));
        if |f| == 1 {
          assert ts == t;
        } else {
          assert ts[..|t|] == t && f[1..] != [];
          NonEmpty(f[1..]);
        }
      }
    }
  }

  lemma NonEmpty(f: seq<Tree>)
    requires f != []
    ensures Flatten(f) != []
  {
  }

  /** Stripping a balanced list is taking away the groups that enclose everything. */
  lemma {:induction false} StripIsCore(f: seq<Tree>)
    requires Proper(f)
    ensures Proper(Core(f)) && StripParens(Flatten(f)) == Flatten(Core(f))
    decreases f
  {
    OuterPairIsGroup(f);
    if |f| == 1 && f[0].Group? {
      var inner := Flatten(f[0].inner);
      assert Flatten(f) == Enclose(inner) && Enclose(inner)[1..|Enclose(inner)| - 1] == inner;
      StripIsCore(f[0].inner);
    }
  }

  lemma GroupLength(g1: seq<Tree>, g2: seq<Tree>, r1: seq<string>, r2: seq<string>)
    requires Proper(g1) && Proper(g2)
    requires Enclose(Flatten(g1)) + r1 == Enclose(Flatten(g2)) + r2
    ensures |Flatten(g1)| >= |Flatten(g2)|
  {
    var a, b := Enclose(Flatten(g1)), Enclose(Flatten(g2));
    FlattenBalanced(g1);
    FlattenBalanced(g2);
    OuterPairIffBalanced(Flatten(g1));
    OuterPairIffBalanced(Flatten(g2));
    if |a| < |b| {
      SamePrefix(a, r1, b, r2);
      assert false;
    }
  }

  lemma SamePrefix(a: seq<string>, r1: seq<string>, b: seq<string>, r2: seq<string>)
    requires a + r1 == b + r2 && |a| <= |b|
    ensures b[..|a|] == a
  {
    assert (a + r1)[..|a|] == a && (b + r2)[..|a|] == b[..|a|];
  }

  /** A balanced list has only one forest. */
  lemma {:induction false} FlattenInjective(f1: seq<Tree>, f2: seq<Tree>)
    requires Proper(f1) && Proper(f2) && Flatten(f1) == Flatten(f2)
    ensures f1 == f2
    decreases f1
  {
    if f1 == [] || f2 == [] {
      if f1 != [] { NonEmpty(f1); }
      if f2 != [] { NonEmpty(f2); }
      return;
    }
    var r1, r2, ts := Flatten(f1[1..]), Flatten(f2[1..]), Flatten(f1);
    assert ts[0] == FlattenTree(f1[0])[0] == FlattenTree(f2[0])[0];
    if f1[0].Group? {
      var i1, i2 := Flatten(f1[0].inner), Flatten(f2[0].inner);
      GroupLength(f1[0].inner, f2[0].inner, r1, r2);
      GroupLength(f2[0].inner, f1[0].inner, r2, r1);
      assert i1 == ts[1..|i1| + 1] == i2;
      FlattenInjective(f1[0].inner, f2[0].inner);
    }
    assert r1 == ts[|FlattenTree(f1[0])|..] == r2;
    FlattenInjective(f1[1..], f2[1..]);
    assert f1 == [f1[0]] + f1[1..] == [f2[0]] + f2[1..] == f2;
  }

  // ---- What an equal normal form of two expressions means ----

  lemma {:induction false} StripKeepsTokens(ts: seq<string>)
    requires forall t :: t in ts ==> IsToken(t)
    ensures forall t :: t in StripParens(ts) ==> IsToken(t)
    decreases |ts|
  {
    if OuterPair(ts) {
      StripKeepsTokens(ts[1..|ts| - 1]);
    }
  }

  /** Normal forms of expressions are equal exactly when the stripped token lists are. */
  lemma SameExpressionForm(a: string, b: string)
    requires Tokens(a).Ok? && Tokens(b).Ok?
    ensures NormaliseExpression(a) == NormaliseExpression(b)
      <==> StripParens(Tokens(a).value) == StripParens(Tokens(b).value)
  {
    TokensReadBackAll(a);
    TokensReadBackAll(b);
    StripKeepsTokens(Tokens(a).value);
    StripKeepsTokens(Tokens(b).value);
    if NormaliseExpression(a) == NormaliseExpression(b) {
      JoinInjective(StripParens(Tokens(a).value), StripParens(Tokens(b).value));
    }
  }

  /**
    Two balanced expressions have the same normal form exactly when they are the same
    structure of groups and tokens once enclosing groups are set aside.
   */
  lemma SameExpressionMeaning(a: string, b: string, fa: seq<Tree>, fb: seq<Tree>)
    requires Tokens(a) == Ok(Flatten(fa)) && Proper(fa)
    requires Tokens(b) == Ok(Flatten(fb)) && Proper(fb)
    ensures NormaliseExpression(a) == NormaliseExpression(b) <==> Core(fa) == Core(fb)
  {
    SameExpressionForm(a, b);
    StripIsCore(fa);
    StripIsCore(fb);
    if Flatten(Core(fa)) == Flatten(Core(fb)) {
      FlattenInjective(Core(fa), Core(fb));
    }
  }

  /** Lexing a text in parentheses. */
  lemma LexEnclosed(e: string)
    requires Lex(e).Ok?
    ensures Lex("(" + (e + ")")) == Ok(Enclose(Lex(e).value))
  {
    LexStep(Punctuation(')'), "");
    assert ")" + "" == ")";
    assert Token(Punctuation(')')) == [")"] && Token(Punctuation('(')) == ["("];
    LexConcat(e, ")");
    LexStep(Punctuation('('), e + ")");
    hide Lex;
    assert ["("] + (Lex(e).value + ([")"] + [])) == Enclose(Lex(e).value);
  }

  /** Parentheses round the text of a balanced expression do not change its normal form. */
  lemma EnclosedText(e: string)
    requires Lex(e).Ok? && Balanced(Lex(e).value)
    requires DropSemicolon(Lex(e).value) == Lex(e).value
    ensures NormaliseExpression("(" + (e + ")")) == NormaliseExpression(e)
  {
    LexStrip(e);
    LexEnclosed(e);
    LexStrip("(" + (e + ")"));
    hide Lex;
    StripWrap(1, Lex(e).value);
    assert Wrap(1, Lex(e).value) == Enclose(Wrap(0, Lex(e).value));
  }
}
