/**
  Printing a token list with U+001F between the tokens (bfg2/bfg/core/migration_operations.py,
  lines 117-123) and what two printed texts being equal says about the definitions they came
  from.  The lexer is a left inverse of the printer (`JoinLexes`), so nothing is lost, although
  a literal may itself contain the separator.
 */
module SqlNormalise {
  import opened Wrappers
  import opened SqlLexer
  import opened SqlGrammar

  const SEPARATOR: string := "\U{1F}"

  function Join(ts: seq<string>): string {
    if ts == [] then "" else if |ts| == 1 then ts[0] else ts[0] + (SEPARATOR + Join(ts[1..]))
  }

  function NormaliseSql(value: string): Result<string, LexError> {
    match Tokens(value)
    case Ok(ts) => Ok(Join(ts))
    case Err(e) => Err(e)
  }

  // ---- Tokens read back as themselves ----

  /** A text the lexer reads as one token, unchanged. */
  predicate IsToken(t: string) {
    Lex(t) == Ok([t])
  }

  lemma LowerIdentifier(name: string)
    requires IsIdentifier(name)
    ensures IsIdentifier(Lower(name)) && Lower(Lower(name)) == Lower(name)
  {
    var low := Lower(name);
    assert forall i :: 0 <= i < |name| ==> IsIdentStart(name[i]) ==> IsIdentStart(low[i]);
    assert forall i :: 0 <= i < |name| ==> IsIdentPart(name[i]) ==> IsIdentPart(low[i]);
    assert forall i :: 0 <= i < |name| ==> Lower(low)[i] == low[i];
  }

  lemma TokenReadsBack(l: Lexeme)
    requires WellFormed(l) && !l.Gap?
    ensures |Token(l)| == 1 && IsToken(Token(l)[0])
  {
    if l.Quoted? || l.Bare? {
      var bare := Bare(Lower(l.name));
      LowerIdentifier(l.name);
      ReadAlone(bare);
      assert Token(l) == [Lower(l.name)] && Token(bare) == [Lower(l.name)];
    } else {
      ReadAlone(l);
      assert Token(l) == [Text(l)];
    }
  }

  lemma ReadAlone(l: Lexeme)
    requires WellFormed(l)
    ensures Lex(Text(l)) == Ok(Token(l))
  {
    assert Lex("") == Ok([]) && Fits(l, "");
    LexStep(l, "");
    hide *;
    assert Text(l) + "" == Text(l);
    AfterOk(Token(l), Ok([]));
    assert Token(l) + [] == Token(l);
  }

  lemma {:induction false} SpelledTokens(ls: seq<Lexeme>, s: string)
    requires Spells(ls, s)
    ensures forall t :: t in TokensOf(ls) ==> IsToken(t)
  {
    hide Lex, Text, Fits, WellFormed, Token;
    if ls != [] {
      SpelledTokens(ls[1..], s[|Text(ls[0])|..]);
      TokensReadBack(ls[0]);
    }
  }

  lemma TokensReadBack(l: Lexeme)
    requires WellFormed(l)
    ensures forall t :: t in Token(l) ==> IsToken(t)
  {
    if !l.Gap? {
      TokenReadsBack(l);
    }
  }

  /** Every token the lexer produces reads back as itself. */
  lemma LexedTokens(s: string)
    requires Lex(s).Ok?
    ensures forall t :: t in Lex(s).value ==> IsToken(t)
  {
    var ls := Decompose(s);
    SpelledTokens(ls, s);
  }

  lemma LexGap(c: char, s: string)
    requires IsSpace(c)
    ensures Lex([c] + s) == Lex(s)
  {
    assert ([c] + s)[1..] == s;
  }

  /** The lexer undoes the printer. */
  lemma {:induction false} JoinLexes(ts: seq<string>)
    requires forall t :: t in ts ==> IsToken(t)
    ensures Lex(Join(ts)) == Ok(ts)
  {
    if |ts| == 1 {
      assert ts[0] in ts && ts == [ts[0]];
    } else if |ts| > 1 {
      assert ts[0] in ts;
      JoinLexes(ts[1..]);
      hide Lex;
      LexGap(SEPARATOR[0], Join(ts[1..]));
      LexConcat(ts[0], SEPARATOR + Join(ts[1..]));
      assert [ts[0]] + ts[1..] == ts;
    }
  }

  /** Different token lists print differently. */
  lemma JoinInjective(ts1: seq<string>, ts2: seq<string>)
    requires forall t :: t in ts1 ==> IsToken(t)
    requires forall t :: t in ts2 ==> IsToken(t)
    requires Join(ts1) == Join(ts2)
    ensures ts1 == ts2
  {
    JoinLexes(ts1);
    JoinLexes(ts2);
  }

  // ---- Surrounding whitespace ----

  lemma LexStripLeft(s: string)
    ensures Lex(StripLeft(s)) == Lex(s)
  {
  }

  lemma {:induction false} SpellsWithoutLast(ls: seq<Lexeme>, s: string, w: char)
    requires IsSpace(w) && Spells(ls, s + [w])
    ensures Lex(s).Ok?
    decreases |ls|
  {
    hide LexemeSize, TokenOf, Text, WellFormed, Fits;
    if s != "" {
      var l, t, whole := ls[0], Text(ls[0]), s + [w];
      if |t| == |s| + 1 {
        assert t == whole && whole[|s|] == w;
        if l.Gap? { GapLength(l); } else { LastCharacter(l); }
        assert false;
      }
      Divide(t, whole);
      assert whole[|t|..] == s[|t|..] + [w];
      SpellsWithoutLast(ls[1..], s[|t|..], w);
      FitsLess(l, s[|t|..], [w]);
      LexStep(l, s[|t|..]);
      assert t + s[|t|..] == s;
    }
  }

  lemma LastCharacter(l: Lexeme)
    requires WellFormed(l) && !l.Gap?
    ensures Text(l) != "" && !IsSpace(Text(l)[|Text(l)| - 1])
  {
    hide BodyText;
    if l.Bare? {
      assert |l.name| > 1 ==> IsIdentPart(l.name[|l.name| - 1]);
    } else if l.Number? {
      assert l.fraction != "" ==> IsDigit(l.fraction[|l.fraction| - 1]);
      assert IsDigit(l.whole[|l.whole| - 1]);
    }
  }

  lemma GapLength(l: Lexeme)
    requires l.Gap?
    ensures |Text(l)| == 1
  {
  }

  lemma {:induction false} LexStripRight(s: string)
    ensures Lex(s).Ok? || Lex(StripRight(s)).Ok? ==> Lex(StripRight(s)) == Lex(s)
    decreases |s|
  {
    if s != "" && IsSpace(s[|s| - 1]) {
      var front, w := s[..|s| - 1], s[|s| - 1];
      LexStripRight(front);
      LexLastSpace(front, w);
      hide Lex;
      assert s == front + [w];
    }
  }

  lemma LexLastSpace(s: string, w: char)
    requires IsSpace(w)
    ensures Lex(s).Ok? || Lex(s + [w]).Ok? ==> Lex(s + [w]) == Lex(s)
  {
    if Lex(s + [w]).Ok? {
      var ls := Decompose(s + [w]);
      SpellsWithoutLast(ls, s, w);
    }
    if Lex(s).Ok? {
      LexGap(w, "");
      LexConcat(s, [w]);
      hide LexemeSize;
      assert [w] + "" == [w];
      assert Lex(s).value + [] == Lex(s).value;
    }
  }

  /** Stripping first changes neither which texts are accepted nor what they give. */
  lemma LexStrip(s: string)
    ensures Lex(s).Ok? || Lex(Strip(s)).Ok? ==> Lex(Strip(s)) == Lex(s)
  {
    LexStripLeft(s);
    LexStripRight(StripLeft(s));
  }

  /** What `_sql_tokens` accepts and returns, by spelling alone. */
  lemma TokensExact(value: string, ts: seq<string>)
    ensures Tokens(value) == Ok(ts) <==>
      exists ls :: Spells(ls, value) && DropSemicolon(TokensOf(ls)) == ts
  {
    LexStrip(value);
    if Tokens(value) == Ok(ts) {
      var ls := Decompose(value);
      assert DropSemicolon(TokensOf(ls)) == ts;
    }
    forall ls | Spells(ls, value)
      ensures Tokens(value) == Ok(DropSemicolon(TokensOf(ls)))
    {
      SpelledIsLexed(ls, value);
    }
  }

  // ---- Equal normal forms ----

  lemma TokensReadBackAll(value: string)
    requires Tokens(value).Ok?
    ensures forall t :: t in Tokens(value).value ==> IsToken(t)
  {
    LexedTokens(Strip(value));
  }

  /** The printed normal form lexes to the tokens it was printed from. */
  lemma NormaliseRoundTrip(value: string)
    requires NormaliseSql(value).Ok?
    ensures Lex(NormaliseSql(value).value) == Tokens(value)
  {
    TokensReadBackAll(value);
    JoinLexes(Tokens(value).value);
  }

  /** Two definitions have the same normal form exactly when they have the same tokens. */
  lemma SameNormalForm(a: string, b: string)
    ensures NormaliseSql(a) == NormaliseSql(b) <==> Tokens(a) == Tokens(b)
  {
    if NormaliseSql(a).Ok? && NormaliseSql(b).Ok? {
      NormaliseRoundTrip(a);
      NormaliseRoundTrip(b);
    }
  }

  predicate EndsInTwoSemicolons(ts: seq<string>) {
    |ts| > 1 && ts[|ts| - 1] == ";" && ts[|ts| - 2] == ";"
  }

  /**
    Normalising is idempotent except on a text with two final semicolons: each pass drops
    one, so only there does a second pass change the result.
   */
  lemma {:induction false} NormaliseTwice(value: string)
    requires Lex(value).Ok?
    ensures NormaliseSql(value).Ok?
    ensures NormaliseSql(NormaliseSql(value).value) == NormaliseSql(value)
      <==> !EndsInTwoSemicolons(Lex(value).value)
  {
    LexStrip(value);
    var raw := Lex(value).value;
    var ts, text := DropSemicolon(raw), NormaliseSql(value).value;
    assert Tokens(value) == Ok(ts);
    NormaliseRoundTrip(value);
    LexStrip(text);
    assert Tokens(text) == Ok(DropSemicolon(ts));
    SameNormalForm(text, value);
    hide Lex, Tokens, NormaliseSql;
    if DropSemicolon(ts) == ts {
      assert !EndsInTwoSemicolons(raw);
    } else {
      assert |DropSemicolon(ts)| < |ts|;
      assert ts[|ts| - 1] == ";";
    }
  }

  // ---- Spacing and spelling ----

  lemma {:induction false} LexSpaces(gap: string, s: string)
    requires forall i :: 0 <= i < |gap| ==> IsSpace(gap[i])
    ensures Lex(gap + s) == Lex(s)
  {
    if gap == "" {
      assert gap + s == s;
    } else {
      LexSpaces(gap[1..], s);
      assert gap + s == [gap[0]] + (gap[1..] + s);
      LexGap(gap[0], gap[1..] + s);
    }
  }

  /** Any whitespace between two texts means the same as any other. */
  lemma {:induction false} SpacingIrrelevant(a: string, gap: string, b: string)
    requires Lex(a).Ok?
    requires gap != "" && forall i :: 0 <= i < |gap| ==> IsSpace(gap[i])
    ensures Lex(a + (gap + b)) == After(Lex(a).value, Lex(b))
  {
    LexSpaces(gap, b);
    assert (gap + b)[0] == gap[0];
    LexConcat(a, gap + b);
  }

  /** A quoted identifier, in any quotes and any case, means the same as the bare one. */
  lemma {:induction false} SpellingIrrelevant(a: string, open: char, name: string, b: string)
    requires Lex(a).Ok? && IsOpening(open) && IsIdentifier(name)
    ensures Lex(a + (Text(Quoted(open, name)) + b)) == Lex(a + (" " + (name + (" " + b))))
    ensures Lex(a + (Text(Quoted(open, name)) + b)) == After(Lex(a).value, After([Lower(name)], Lex(b)))
  {
    var quoted, bare := Quoted(open, name), Bare(name);
    assert Token(quoted) == [Lower(name)] && Token(bare) == [Lower(name)];
    assert Text(bare) == name && Fits(quoted, b) && Fits(bare, " " + b);
    LexStep(quoted, b);
    LexStep(bare, " " + b);
    hide Lex, Token, After, Lower;
    LexGap(' ', b);
    LexGap(' ', name + (" " + b));
    assert (Text(quoted) + b)[0] == open && (" " + (name + (" " + b)))[0] == ' ';
    LexConcat(a, Text(quoted) + b);
    LexConcat(a, " " + (name + (" " + b)));
  }
}
