/**
  What the tokenizer accepts, said without scanning: a text is spelled by a sequence of
  lexemes, each well formed on its own and each as long as the text after it allows.
  The main results are that the lexer accepts exactly the texts that have a spelling
  (`LexerExact`), that a text has at most one (`Unambiguous`), and that a text may be cut
  in front of any character that cannot continue a lexeme (`LexConcat`).
 */
module SqlGrammar {
  import opened Wrappers
  import opened SqlLexer

  /** One unit of the body of a literal. */
  datatype Unit = Plain(c: char) | Escape(c: char) | Doubled

  datatype Lexeme =
    | Gap(c: char)
    | Literal(body: seq<Unit>)
    | Quoted(open: char, name: string)
    | Bare(name: string)
    | Number(whole: string, fraction: string)
    | Operator(a: char, b: char)
    | Punctuation(c: char)

  function UnitText(u: Unit): (t: string) {
    match u
    case Plain(c) => [c]
    case Escape(c) => ['\\', c]
    case Doubled => "''"
  }

  function BodyText(body: seq<Unit>): string {
    if body == [] then "" else UnitText(body[0]) + BodyText(body[1..])
  }

  function Text(l: Lexeme): string {
    match l
    case Gap(c) => [c]
    case Literal(body) => "'" + BodyText(body) + "'"
    case Quoted(open, name) => [open] + name + [Closing(open)]
    case Bare(name) => name
    case Number(whole, fraction) => if fraction == "" then whole else whole + "." + fraction
    case Operator(a, b) => [a, b]
    case Punctuation(c) => [c]
  }

  /** The token a lexeme stands for; whitespace stands for none. */
  function Token(l: Lexeme): seq<string> {
    match l
    case Gap(_) => []
    case Quoted(_, name) => [Lower(name)]
    case Bare(name) => [Lower(name)]
    case _ => [Text(l)]
  }

  predicate AllDigits(s: string) {
    forall i :: 0 <= i < |s| ==> IsDigit(s[i])
  }

  predicate WellFormed(l: Lexeme) {
    match l
    case Gap(c) => IsSpace(c)
    case Literal(body) => forall i :: 0 <= i < |body| ==> body[i].Plain? ==> body[i].c != '\\' && body[i].c != '\''
    case Quoted(open, name) => IsOpening(open) && IsIdentifier(name)
    case Bare(name) => IsIdentifier(name)
    case Number(whole, fraction) => whole != "" && AllDigits(whole) && AllDigits(fraction)
    case Operator(a, b) => IsOperator(a, b)
    case Punctuation(c) => IsPunctuation(c)
  }

  /** Whether l is as long as it can be when `rest` comes after it. */
  predicate Fits(l: Lexeme, rest: string) {
    match l
    case Literal(_) => rest == "" || rest[0] != '\''
    case Bare(_) => rest == "" || !IsIdentPart(rest[0])
    case Number(_, fraction) =>
      && (rest == "" || !IsDigit(rest[0]))
      && (fraction == "" ==> |rest| < 2 || rest[0] != '.' || !IsDigit(rest[1]))
    case Punctuation(c) => rest == "" || !IsOperator(c, rest[0])
    case _ => true
  }

  /** The lexemes ls, in order, use up every character of s. */
  predicate Spells(ls: seq<Lexeme>, s: string) {
    if ls == [] then s == ""
    else
      && WellFormed(ls[0])
      && Text(ls[0]) <= s
      && Fits(ls[0], s[|Text(ls[0])|..])
      && Spells(ls[1..], s[|Text(ls[0])|..])
  }

  function TokensOf(ls: seq<Lexeme>): seq<string> {
    if ls == [] then [] else Token(ls[0]) + TokensOf(ls[1..])
  }

  // ---- One lexeme ----

  lemma {:induction false} RunExact(p: char -> bool, s: string, n: nat)
    requires n <= |s|
    requires forall i :: 0 <= i < n ==> p(s[i])
    requires n < |s| ==> !p(s[n])
    ensures Run(p, s) == n
  {
    if n > 0 {
      assert p(s[0]);
      RunExact(p, s[1..], n - 1);
    }
  }

  lemma {:induction false} ScanBody(body: seq<Unit>, rest: string)
    requires WellFormed(Literal(body))
    requires rest == "" || rest[0] != '\''
    ensures ScanLiteral(BodyText(body) + ("'" + rest)) == Ok(|BodyText(body)| + 1)
  {
    var s := BodyText(body) + ("'" + rest);
    if body == [] {
      assert s == "'" + rest;
    } else {
      hide ScanLiteral, UnitText;
      ScanBody(body[1..], rest);
      ScanUnit(body[0], BodyText(body[1..]) + ("'" + rest));
      Associate(UnitText(body[0]), BodyText(body[1..]), "'" + rest);
    }
  }

  lemma ScanUnit(u: Unit, tail: string)
    requires u.Plain? ==> u.c != '\\' && u.c != '\''
    ensures ScanLiteral(UnitText(u) + tail) == Plus(|UnitText(u)|, ScanLiteral(tail))
  {
    var s := UnitText(u) + tail;
    assert s[|UnitText(u)|..] == tail;
  }

  lemma {:induction false} LiteralFront(body: string, rest: string)
    requires ScanLiteral(body + ("'" + rest)) == Ok(|body| + 1)
    ensures LexemeSize(("'" + body + "'") + rest) == Ok(|body| + 2)
  {
    hide ScanLiteral, Find, IsIdentifier, IsOperator, IsPunctuation, Run, NumberLength;
    var s := ("'" + body + "'") + rest;
    EnclosedFront('\'', body, '\'', rest);
  }

  lemma EnclosedFront(open: char, body: string, close: char, rest: string)
    ensures var s := ([open] + body + [close]) + rest;
      s[0] == open && s[1..] == body + ([close] + rest) && |s| == |body| + 2 + |rest|
  {
  }

  lemma {:induction false} FindExact(c: char, before: string, rest: string)
    requires forall i :: 0 <= i < |before| ==> before[i] != c
    ensures Find(c, before + [c] + rest) == |before|
  {
    var s := before + [c] + rest;
    if before != "" {
      FindExact(c, before[1..], rest);
      assert s[1..] == before[1..] + [c] + rest;
    }
  }

  lemma QuotedFront(open: char, name: string, rest: string)
    requires IsOpening(open) && IsIdentifier(name)
    ensures LexemeSize(([open] + name + [Closing(open)]) + rest) == Ok(|name| + 2)
  {
    var s := ([open] + name + [Closing(open)]) + rest;
    assert s[0] == open && |s| == |name| + 2 + |rest|;
    NotClosing(open, name);
    FindExact(Closing(open), name, rest);
    hide Find, IsIdentifier, IsOperator, IsPunctuation, Run, NumberLength, ScanLiteral;
    assert s[1..] == name + [Closing(open)] + rest;
    assert s[1..|name| + 1] == name;
  }

  lemma NotClosing(open: char, name: string)
    requires IsOpening(open) && IsIdentifier(name)
    ensures forall i :: 0 <= i < |name| ==> name[i] != Closing(open)
  {
    forall i | 0 <= i < |name|
      ensures name[i] != Closing(open)
    {
      assert i == 0 || IsIdentPart(name[i]);
    }
  }

  lemma BareFront(name: string, rest: string)
    requires IsIdentifier(name) && Fits(Bare(name), rest)
    ensures LexemeSize(name + rest) == Ok(|name|)
  {
    var s := name + rest;
    assert s[0] == name[0];
    assert s[1..] == name[1..] + rest;
    RunExact(IsIdentPart, s[1..], |name| - 1);
  }

  lemma NumberFront(l: Lexeme, rest: string)
    requires l.Number? && WellFormed(l) && Fits(l, rest)
    ensures LexemeSize(Text(l) + rest) == Ok(|Text(l)|)
  {
    if l.fraction == "" {
      WholeFront(l.whole, rest);
    } else {
      DottedNumber(l.whole, l.fraction, rest);
    }
  }

  lemma WholeFront(x: string, rest: string)
    requires x != "" && AllDigits(x) && Fits(Number(x, ""), rest)
    ensures LexemeSize(x + rest) == Ok(|x|)
  {
    hide ScanLiteral, Find, IsIdentifier, IsOperator, IsPunctuation;
    var s := x + rest;
    assert s[0] == x[0] && s[|x|..] == rest;
    assert forall i :: 0 <= i < |x| ==> s[i] == x[i];
    RunExact(IsDigit, s, |x|);
  }

  lemma DottedNumber(x: string, y: string, rest: string)
    requires x != "" && AllDigits(x) && y != "" && AllDigits(y) && Fits(Number(x, y), rest)
    ensures LexemeSize((x + "." + y) + rest) == Ok(|x| + 1 + |y|)
  {
    hide ScanLiteral, Find, IsIdentifier, IsOperator, IsPunctuation;
    var s := (x + "." + y) + rest;
    DottedFront(x, y, rest);
    assert s[0] == x[0];
    RunExact(IsDigit, s, |x|);
    RunExact(IsDigit, s[|x| + 1..], |y|);
  }

  lemma DottedFront(x: string, y: string, rest: string)
    requires y != ""
    ensures var s := (x + "." + y) + rest;
      && |s| == |x| + 1 + |y| + |rest| && (forall i :: 0 <= i < |x| ==> s[i] == x[i])
      && s[|x|] == '.' && s[|x| + 1] == y[0] && s[|x| + 1..] == y + rest
  {
  }

  /** The lexer's longest match in front of what follows l is l itself. */
  lemma SizeComplete(l: Lexeme, rest: string)
    requires WellFormed(l) && !l.Gap? && Fits(l, rest)
    ensures Text(l) != "" && !IsSpace(Text(l)[0])
    ensures LexemeSize(Text(l) + rest) == Ok(|Text(l)|)
  {
    match l
    case Literal(body) =>
      ScanBody(body, rest);
      LiteralFront(BodyText(body), rest);
    case Quoted(open, name) => QuotedFront(open, name, rest);
    case Bare(name) => BareFront(name, rest);
    case Number(_, _) => NumberFront(l, rest);
    case Operator(a, b) =>
      var s := [a, b] + rest;
      assert s[0] == a && s[1] == b;
    case Punctuation(c) =>
      var s := [c] + rest;
      assert s[0] == c && (rest != "" ==> s[1] == rest[0]);
  }

  lemma TokenComplete(l: Lexeme)
    requires WellFormed(l) && !l.Gap?
    ensures Text(l) != "" && Token(l) == [TokenOf(Text(l))]
  {
    hide Lower, BodyText;
    var t := Text(l);
    if l.Quoted? {
      assert t[0] == l.open && t[1..|t| - 1] == l.name;
    } else if l.Literal? {
      assert t[0] == '\'';
    } else if l.Number? {
      assert t[0] == l.whole[0] && IsDigit(t[0]);
    }
  }

  lemma {:induction false} LiteralBody(s: string) returns (body: seq<Unit>)
    requires ScanLiteral(s).Ok?
    ensures WellFormed(Literal(body))
    ensures BodyText(body) + "'" == s[..ScanLiteral(s).value]
    ensures Fits(Literal(body), s[ScanLiteral(s).value..])
  {
    var n := ScanLiteral(s).value;
    if s[0] == '\'' && !(|s| > 1 && s[1] == '\'') {
      body := [];
      assert BodyText(body) + "'" == s[..1];
    } else {
      var u := FrontUnit(s);
      var k := |UnitText(u)|;
      var rest := LiteralBody(s[k..]);
      body := [u] + rest;
      assert body[1..] == rest;
      hide ScanLiteral, UnitText, IsIdentPart, IsOperator;
      Rejoin(s, k, n);
      Associate(UnitText(u), BodyText(rest), "'");
    }
  }

  lemma Rejoin(s: string, k: nat, n: nat)
    requires k <= n <= |s|
    ensures s[..n] == s[..k] + s[k..][..n - k] && s[k..][n - k..] == s[n..]
  {
  }

  lemma {:induction false} FrontUnit(s: string) returns (u: Unit)
    requires ScanLiteral(s).Ok?
    requires s[0] == '\'' ==> |s| > 1 && s[1] == '\''
    ensures u.Plain? ==> u.c != '\\' && u.c != '\''
    ensures UnitText(u) <= s && ScanLiteral(s) == Plus(|UnitText(u)|, ScanLiteral(s[|UnitText(u)|..]))
  {
    u := if s[0] == '\\' then Escape(s[1]) else if s[0] == '\'' then Doubled else Plain(s[0]);
  }

  lemma NumberOf(s: string) returns (l: Lexeme)
    requires s != "" && IsDigit(s[0])
    ensures l.Number? && WellFormed(l)
    ensures NumberLength(s) == |Text(l)| && Text(l) == s[..NumberLength(s)]
    ensures Fits(l, s[NumberLength(s)..])
  {
    var k := Run(IsDigit, s);
    var n := NumberLength(s);
    if n == k {
      l := Number(s[..k], "");
    } else {
      var after := s[k + 1..];
      l := Number(s[..k], after[..n - k - 1]);
      assert s[..n] == s[..k] + "." + after[..n - k - 1];
      assert n < |s| ==> s[n] == after[n - k - 1];
    }
  }

  lemma QuotedOf(s: string, n: nat)
    requires |s| > 1 && IsOpening(s[0]) && LexemeSize(s) == Ok(n)
    ensures n > 2 && IsIdentifier(s[1..n - 1]) && s[n - 1] == Closing(s[0])
    ensures s[..n] == Text(Quoted(s[0], s[1..n - 1]))
  {
    assert !IsIdentifier("");
    hide IsIdentifier;
    assert s[..n] == [s[0]] + s[1..n - 1] + [s[n - 1]];
  }

  lemma SliceTwice(s: string, n: nat)
    requires 0 < n <= |s|
    ensures s[1..][n - 1..] == s[n..] && s[..n] == [s[0]] + s[1..][..n - 1]
  {
  }

  /** Whatever the lexer reads at the front of s is a lexeme that fits the rest. */
  lemma SizeSound(s: string, n: nat) returns (l: Lexeme)
    requires s != "" && !IsSpace(s[0]) && LexemeSize(s) == Ok(n)
    ensures WellFormed(l) && !l.Gap?
    ensures Text(l) == s[..n] && Fits(l, s[n..])
  {
    var c := s[0];
    if c == '\'' {
      var body := LiteralBody(s[1..]);
      l := Literal(body);
      SliceTwice(s, n);
      assert "'" + (BodyText(body) + "'") == "'" + BodyText(body) + "'";
    } else if IsOpening(c) {
      QuotedOf(s, n);
      l := Quoted(c, s[1..n - 1]);
    } else if IsIdentStart(c) {
      l := Bare(s[..n]);
      assert forall i :: 0 < i < n ==> s[i] == s[1..][i - 1];
    } else if IsDigit(c) {
      l := NumberOf(s);
    } else if |s| > 1 && IsOperator(c, s[1]) {
      l := Operator(c, s[1]);
      assert s[..2] == Text(l);
    } else {
      l := Punctuation(c);
      assert s[..1] == Text(l);
    }
  }

  // ---- Whole texts ----

  /** One step of the lexer, seen from the lexeme it reads. */
  lemma LexStep(l: Lexeme, rest: string)
    requires WellFormed(l) && Fits(l, rest)
    ensures Lex(Text(l) + rest) == After(Token(l), Lex(rest))
  {
    var s := Text(l) + rest;
    if l.Gap? {
      assert s[0] == l.c && s[1..] == rest;
      assert Lex(rest).Ok? ==> [] + Lex(rest).value == Lex(rest).value;
    } else {
      SizeComplete(l, rest);
      TokenComplete(l);
      hide LexemeSize, TokenOf, Text, Token, WellFormed, Fits;
      assert s[0] == Text(l)[0] && s[|Text(l)|..] == rest && s[..|Text(l)|] == Text(l);
    }
  }

  lemma FirstLexeme(s: string) returns (l: Lexeme)
    requires s != "" && Lex(s).Ok?
    ensures WellFormed(l) && Text(l) != "" && Text(l) <= s && Fits(l, s[|Text(l)|..])
    ensures s == Text(l) + s[|Text(l)|..]
    ensures Lex(s) == After(Token(l), Lex(s[|Text(l)|..]))
  {
    hide LexemeSize, TokenOf;
    if IsSpace(s[0]) {
      l := Gap(s[0]);
    } else {
      l := SizeSound(s, LexemeSize(s).value);
    }
    hide WellFormed, Fits;
    assert s == Text(l) + s[|Text(l)|..];
    LexStep(l, s[|Text(l)|..]);
  }

  /** The spelling of a text the lexer accepts. */
  lemma {:induction false} Decompose(s: string) returns (ls: seq<Lexeme>)
    requires Lex(s).Ok?
    ensures Spells(ls, s) && TokensOf(ls) == Lex(s).value
    decreases |s|
  {
    hide Text, Token, WellFormed, Fits;
    if s == "" {
      return [];
    }
    var l := FirstLexeme(s);
    var rest := Decompose(s[|Text(l)|..]);
    ls := [l] + rest;
    assert ls[1..] == rest;
  }

  /** A spelled text is accepted, with the tokens of its lexemes. */
  lemma {:induction false} SpelledIsLexed(ls: seq<Lexeme>, s: string)
    requires Spells(ls, s)
    ensures Lex(s) == Ok(TokensOf(ls))
    decreases |ls|
  {
    hide Text, Token, WellFormed, Fits;
    if ls != [] {
      var rest := s[|Text(ls[0])|..];
      assert s == Text(ls[0]) + rest;
      SpelledIsLexed(ls[1..], rest);
      LexStep(ls[0], rest);
    }
  }

  /** The lexer accepts exactly the texts that have a spelling, and gives its tokens. */
  lemma {:induction false} LexerExact(s: string, ts: seq<string>)
    ensures Lex(s) == Ok(ts) <==> exists ls :: Spells(ls, s) && TokensOf(ls) == ts
  {
    if Lex(s) == Ok(ts) {
      var ls := Decompose(s);
    }
    forall ls | Spells(ls, s)
      ensures Lex(s) == Ok(TokensOf(ls))
    {
      SpelledIsLexed(ls, s);
    }
  }

  lemma {:induction false} BodyUnique(b1: seq<Unit>, b2: seq<Unit>)
    requires WellFormed(Literal(b1)) && WellFormed(Literal(b2))
    requires BodyText(b1) == BodyText(b2)
    ensures b1 == b2
  {
    if b1 != [] && b2 != [] {
      var t := BodyText(b1);
      assert t[0] == UnitText(b1[0])[0] && t[0] == UnitText(b2[0])[0];
      assert |UnitText(b1[0])| == |UnitText(b2[0])|;
      assert t[..|UnitText(b1[0])|] == UnitText(b1[0]) == UnitText(b2[0]);
      assert b1[0] == b2[0];
      assert BodyText(b1[1..]) == t[|UnitText(b1[0])|..] == BodyText(b2[1..]);
      BodyUnique(b1[1..], b2[1..]);
      assert b1 == [b1[0]] + b1[1..] == [b2[0]] + b2[1..] == b2;
    }
  }

  /** The first character decides the kind of a lexeme. */
  lemma FrontCharacter(l: Lexeme)
    requires WellFormed(l)
    ensures Text(l) != ""
    ensures var c := Text(l)[0];
      && (l.Gap? <==> IsSpace(c)) && (l.Literal? <==> c == '\'') && (l.Quoted? <==> IsOpening(c))
      && (l.Bare? <==> IsIdentStart(c)) && (l.Number? <==> IsDigit(c))
  {
    hide BodyText;
    if l.Number? {
      assert Text(l)[0] == l.whole[0];
    }
  }

  lemma SameFront(l1: Lexeme, l2: Lexeme, s: string)
    requires WellFormed(l1) && Text(l1) <= s && Fits(l1, s[|Text(l1)|..])
    requires WellFormed(l2) && Text(l2) <= s && Fits(l2, s[|Text(l2)|..])
    ensures Text(l1) == Text(l2)
  {
    FrontCharacter(l1);
    FrontCharacter(l2);
    var size := |Text(l1)|;
    Divide(Text(l1), s);
    Divide(Text(l2), s);
    if l1.Gap? {
      assert l2.Gap?;
    } else {
      hide Text, WellFormed, Fits, LexemeSize;
      SizeComplete(l1, s[|Text(l1)|..]);
      SizeComplete(l2, s[|Text(l2)|..]);
    }
  }

  lemma Divide(t: string, s: string)
    requires t <= s
    ensures s == t + s[|t|..] && t == s[..|t|]
    ensures t != "" ==> s[0] == t[0]
  {
  }

  lemma TextUnique(l1: Lexeme, l2: Lexeme)
    requires WellFormed(l1) && WellFormed(l2) && Text(l1) == Text(l2)
    ensures l1 == l2
  {
    FrontCharacter(l1);
    FrontCharacter(l2);
    if l1.Literal? {
      assert BodyText(l1.body) == Text(l1)[1..|Text(l1)| - 1];
      assert BodyText(l2.body) == Text(l2)[1..|Text(l2)| - 1];
      BodyUnique(l1.body, l2.body);
    } else if l1.Quoted? {
      assert l1.name == Text(l1)[1..|Text(l1)| - 1];
      assert l2.name == Text(l2)[1..|Text(l2)| - 1];
    } else if l1.Number? {
      NumberUnique(l1, l2);
    }
  }

  lemma NumberUnique(l1: Lexeme, l2: Lexeme)
    requires l1.Number? && l2.Number? && WellFormed(l1) && WellFormed(l2)
    requires Text(l1) == Text(l2)
    ensures l1 == l2
  {
    RunExact(IsDigit, Text(l1), |l1.whole|);
    RunExact(IsDigit, Text(l2), |l2.whole|);
    assert l1.whole == Text(l1)[..|l1.whole|] == l2.whole;
    var tail := Text(l1)[|l1.whole|..];
    if tail != "" {
      assert l1.fraction == tail[1..] == l2.fraction;
    }
  }

  /** No text has two spellings. */
  lemma {:induction false} Unambiguous(ls1: seq<Lexeme>, ls2: seq<Lexeme>, s: string)
    requires Spells(ls1, s) && Spells(ls2, s)
    ensures ls1 == ls2
    decreases |ls1|
  {
    if ls1 != [] && ls2 != [] {
      SameFront(ls1[0], ls2[0], s);
      TextUnique(ls1[0], ls2[0]);
      Unambiguous(ls1[1..], ls2[1..], s[|Text(ls1[0])|..]);
      assert ls1 == [ls1[0]] + ls1[1..] == [ls2[0]] + ls2[1..] == ls2;
    } else if ls1 != [] {
      TextNonEmpty(ls1[0]);
    } else if ls2 != [] {
      TextNonEmpty(ls2[0]);
    }
  }

  lemma TextNonEmpty(l: Lexeme)
    requires WellFormed(l)
    ensures Text(l) != ""
  {
  }

  // ---- Cutting a text in two ----

  /** Characters that cannot continue the lexeme before them. */
  predicate Boundary(c: char) {
    && !IsIdentPart(c)
    && c != '\'' && c != '.'
    && c != '=' && c != '>' && c != '|' && c != '&' && c != ':'
  }

  /** Lexing goes on independently after a cut in front of a boundary character. */
  lemma {:induction false} LexConcat(a: string, b: string)
    requires Lex(a).Ok?
    requires b == "" || Boundary(b[0])
    ensures Lex(a + b) == After(Lex(a).value, Lex(b))
    decreases |a|
  {
    assert a == "" ==> Lex(a) == Ok([]);
    hide *;
    if a == "" {
      AfterNone(Lex(b));
      assert a + b == b;
    } else {
      var l := FirstLexeme(a);
      var rest := a[|Text(l)|..];
      FitsMore(l, rest, b);
      AfterOk(Token(l), Lex(rest));
      LexConcat(rest, b);
      LexStep(l, rest + b);
      AfterTwice(Token(l), Lex(rest).value, Lex(b));
      Associate(Text(l), rest, b);
    }
  }

  lemma Associate(x: string, y: string, z: string)
    ensures (x + y) + z == x + (y + z)
  {
  }

  lemma AfterNone(r: Result<seq<string>, LexError>)
    ensures After([], r) == r
  {
    assert r.Ok? ==> [] + r.value == r.value;
  }

  lemma AfterOk(x: seq<string>, r: Result<seq<string>, LexError>)
    ensures After(x, r).Ok? == r.Ok?
    ensures r.Ok? ==> After(x, r).value == x + r.value
  {
  }

  lemma FitsMore(l: Lexeme, x: string, y: string)
    requires WellFormed(l) && Fits(l, x)
    requires y == "" || Boundary(y[0])
    ensures Fits(l, x + y)
  {
    assert x != "" ==> (x + y)[0] == x[0];
    assert x == "" ==> x + y == y;
    assert |x| > 1 ==> (x + y)[1] == x[1];
    assert |x| == 1 && y != "" ==> (x + y)[1] == y[0];
  }

  /** A prefix that ends where a lexeme ends is spelled by the lexemes before that point. */
  lemma {:induction false} SpellsPrefix(ls: seq<Lexeme>, more: seq<Lexeme>, s: string)
    requires Spells(ls + more, s)
    ensures |TextOf(ls)| <= |s| && TextOf(ls) == s[..|TextOf(ls)|]
    ensures Spells(ls, TextOf(ls)) && Spells(more, s[|TextOf(ls)|..])
    decreases |ls|
  {
    hide Text, WellFormed, Fits;
    if ls == [] {
      assert ls + more == more;
    } else {
      var l, t := ls[0], Text(ls[0]);
      var after := s[|t|..];
      assert (ls + more)[1..] == ls[1..] + more;
      SpellsPrefix(ls[1..], more, after);
      var inner := TextOf(ls[1..]);
      assert s == t + after && after == inner + after[|inner|..];
      FitsLess(l, inner, after[|inner|..]);
      assert TextOf(ls) == t + inner && TextOf(ls)[|t|..] == inner;
      assert s[..|TextOf(ls)|] == TextOf(ls) && s[|TextOf(ls)|..] == after[|inner|..];
    }
  }

  lemma FitsLess(l: Lexeme, x: string, y: string)
    requires Fits(l, x + y)
    ensures Fits(l, x)
  {
  }

  /** The text of a sequence of lexemes. */
  function TextOf(ls: seq<Lexeme>): string {
    if ls == [] then "" else Text(ls[0]) + TextOf(ls[1..])
  }
}
