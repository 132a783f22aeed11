/**
  Which characters the tokenizer takes for what (bfg2/bfg/core/migration_operations.py, lines
  54-119), said of the tokens of short texts and of words and numbers, by literal character sets
  alone: none of the lexer's own classes is named.
 */
module SqlCharacters {
  import opened Wrappers
  import opened SqlLexer
  import opened SqlGrammar
  import opened SqlNormalise

  /** The ASCII characters of Python's str.isspace. */
  const SPACES := "\t\n\U{B}\U{C}\r\U{1C}\U{1D}\U{1E}\U{1F} "
  const SMALL := "abcdefghijklmnopqrstuvwxyz"
  const CAPITAL := "ABCDEFGHIJKLMNOPQRSTUVWXYZ"
  const DIGITS := "0123456789"
  const MARKS := "(),.+-*/%<>=:;"
  const PAIRS := {">=", "<=", "<>", "!=", "==", "||", "&&", "::", "->"}

  predicate Starts(c: char) {
    c in SMALL || c in CAPITAL || c == '_'
  }

  predicate Continues(c: char) {
    Starts(c) || c in DIGITS || c == '$'
  }

  predicate IsWord(s: string) {
    s != "" && Starts(s[0]) && forall i :: 0 < i < |s| ==> Continues(s[i])
  }

  /** r is s with every capital replaced by the small letter at its place. */
  predicate IsSmall(r: string, s: string) {
    && |r| == |s|
    && (forall k, i :: 0 <= k < |s| && 0 <= i < 26 && s[k] == CAPITAL[i] ==> r[k] == SMALL[i])
    && (forall k :: 0 <= k < |s| && s[k] !in CAPITAL ==> r[k] == s[k])
  }

  // ---- The classes are these sets ----

  lemma SpaceSet(c: char)
    ensures IsSpace(c) <==> c in SPACES
  {
    var s := SPACES;
    assert s[0] == '\t' && s[1] == '\n' && s[2] == '\U{B}' && s[3] == '\U{C}' && s[4] == '\r';
    assert s[5] == '\U{1C}' && s[6] == '\U{1D}' && s[7] == '\U{1E}' && s[8] == '\U{1F}' && s[9] == ' ';
  }

  lemma SmallAt()
    ensures |SMALL| == 26 && forall i :: 0 <= i < 26 ==> SMALL[i] == 'a' + i as char
  {
  }

  lemma CapitalAt()
    ensures |CAPITAL| == 26 && forall i :: 0 <= i < 26 ==> CAPITAL[i] == 'A' + i as char
  {
  }

  lemma SmallSet(c: char)
    ensures 'a' <= c <= 'z' <==> c in SMALL
  {
    SmallAt();
    if 'a' <= c <= 'z' {
      var i := (c - 'a') as int;
      assert SMALL[i] == c;
    }
  }

  lemma CapitalSet(c: char)
    ensures 'A' <= c <= 'Z' <==> c in CAPITAL
  {
    CapitalAt();
    if 'A' <= c <= 'Z' {
      var i := (c - 'A') as int;
      assert CAPITAL[i] == c;
    }
  }

  lemma DigitSet(c: char)
    ensures IsDigit(c) <==> c in DIGITS
  {
    assert |DIGITS| == 10 && forall i :: 0 <= i < 10 ==> DIGITS[i] == '0' + i as char;
    if IsDigit(c) {
      var i := (c - '0') as int;
      assert DIGITS[i] == c;
    }
  }

  lemma MarkSet(c: char)
    ensures IsPunctuation(c) <==> c in MARKS
  {
    var s := MARKS;
    assert s[0] == '(' && s[1] == ')' && s[2] == ',' && s[3] == '.' && s[4] == '+' && s[5] == '-' && s[6] == '*';
    assert s[7] == '/' && s[8] == '%' && s[9] == '<' && s[10] == '>' && s[11] == '=' && s[12] == ':' && s[13] == ';';
  }

  lemma PairSet(a: char, b: char)
    ensures IsOperator(a, b) <==> [a, b] in PAIRS
  {
    var t := [a, b];
    assert t[0] == a && t[1] == b;
  }

  lemma WordSet(c: char)
    ensures IsIdentStart(c) <==> Starts(c)
    ensures IsIdentPart(c) <==> Continues(c)
  {
    SmallSet(c);
    CapitalSet(c);
    DigitSet(c);
    hide IsDigit;
  }

  lemma WordIsIdentifier(s: string)
    ensures IsIdentifier(s) <==> IsWord(s)
  {
    hide IsIdentStart, IsIdentPart, Starts, Continues;
    forall i | 0 <= i < |s|
      ensures IsIdentStart(s[i]) <==> Starts(s[i])
      ensures IsIdentPart(s[i]) <==> Continues(s[i])
    {
      WordSet(s[i]);
    }
  }

  lemma LowerIsSmall(s: string)
    ensures IsSmall(Lower(s), s)
  {
    CapitalAt();
    SmallAt();
    var r := Lower(s);
    forall k | 0 <= k < |s|
      ensures forall i :: 0 <= i < 26 && s[k] == CAPITAL[i] ==> r[k] == SMALL[i]
      ensures s[k] !in CAPITAL ==> r[k] == s[k]
    {
      CapitalSet(s[k]);
    }
  }

  // ---- Texts of one character ----

  lemma {:induction false} One(c: char)
    ensures Lex([c]) ==
      if IsSpace(c) then Ok([])
      else match LexemeSize([c]) case Err(e) => Err(e) case Ok(_) => Ok([TokenOf([c])])
  {
    hide LexemeSize, TokenOf;
    var s := [c];
    assert s[1..] == "" && Lex("") == Ok([]);
    if !IsSpace(c) && LexemeSize(s).Ok? {
      assert LexemeSize(s).value == 1;
      assert s[..1] == s && [TokenOf(s)] + [] == [TokenOf(s)];
    }
  }

  lemma OneSize(c: char)
    requires !IsSpace(c)
    ensures LexemeSize([c]) ==
      if c == '\'' then Err(UnterminatedLiteral)
      else if c == '`' || c == '"' || c == '[' then Err(UnterminatedIdentifier)
      else if IsIdentStart(c) || IsDigit(c) || IsPunctuation(c) then Ok(1)
      else Err(UnsupportedToken(c))
  {
    hide IsIdentStart, IsDigit, IsIdentPart, IsPunctuation, IsSpace, IsOperator, IsIdentifier;
    var s := [c];
    assert s[1..] == "";
  }

  /** What the tokenizer makes of a single character; of the others it makes an error. */
  lemma OneCharacter(c: char)
    ensures c in SPACES ==> Lex([c]) == Ok([])
    ensures (c in SMALL || c == '_' || c in DIGITS || c in MARKS) <==> Lex([c]) == Ok([[c]])
    ensures forall i :: 0 <= i < 26 && c == CAPITAL[i] ==> Lex([c]) == Ok([[SMALL[i]]])
    ensures c == '`' || c == '"' || c == '[' ==> Lex([c]) == Err(UnterminatedIdentifier)
    ensures c == '\'' ==> Lex([c]) == Err(UnterminatedLiteral)
    ensures !(c in SPACES || Starts(c) || c in DIGITS || c in MARKS || c == '`' || c == '"' || c == '[' || c == '\'')
      ==> Lex([c]) == Err(UnsupportedToken(c))
  {
    One(c);
    SpaceSet(c);
    WordSet(c);
    DigitSet(c);
    MarkSet(c);
    OneToken(c);
    LowerCapital(c);
    if !IsSpace(c) {
      OneSize(c);
    }
    Apart(c);
    hide Lex, LexemeSize, TokenOf, IsSpace, IsIdentStart, IsIdentPart, IsPunctuation, IsDigit;
  }

  lemma OneToken(c: char)
    ensures TokenOf([c]) == if IsIdentStart(c) then Lower([c]) else [c]
  {
  }

  lemma LowerCapital(c: char)
    ensures forall i :: 0 <= i < 26 && c == CAPITAL[i] ==> Lower([c]) == [SMALL[i]]
    ensures Lower([c]) == [c] <==> c !in CAPITAL
    ensures c in SMALL || c == '_' ==> c !in CAPITAL
  {
    CapitalAt();
    SmallAt();
    CapitalSet(c);
    SmallSet(c);
    var r := Lower([c]);
    assert r == [r[0]] && r[0] == LowerChar(c);
  }

  /** The classes have no character in common. */
  lemma Apart(c: char)
    ensures IsSpace(c) ==> !IsIdentStart(c) && !IsDigit(c) && !IsPunctuation(c)
    ensures IsIdentStart(c) ==> !IsDigit(c) && !IsPunctuation(c)
    ensures IsDigit(c) ==> !IsPunctuation(c)
    ensures c == '`' || c == '"' || c == '[' || c == '\'' ==>
      !IsSpace(c) && !IsIdentStart(c) && !IsDigit(c) && !IsPunctuation(c)
  {
  }

  // ---- Two characters ----

  lemma TwoSize(a: char, b: char)
    requires !IsSpace(a) && !IsIdentStart(a) && !IsDigit(a) && a != '\'' && !IsOpening(a)
    ensures LexemeSize([a, b]) ==
      if IsOperator(a, b) then Ok(2) else if IsPunctuation(a) then Ok(1) else Err(UnsupportedToken(a))
  {
    hide IsIdentStart, IsDigit, IsPunctuation, IsSpace, IsOperator, IsOpening, Find, Run, NumberLength, ScanLiteral;
    var s := [a, b];
    assert s[0] == a && s[1] == b;
  }

  lemma Two(a: char, b: char)
    requires !IsSpace(a)
    ensures Lex([a, b]) ==
      match LexemeSize([a, b])
      case Err(e) => Err(e)
      case Ok(n) => if n == 2 then Ok([TokenOf([a, b])]) else After([TokenOf([a])], Lex([b]))
  {
    hide LexemeSize, TokenOf;
    var s := [a, b];
    assert s[2..] == "" && Lex("") == Ok([]) && s[1..] == [b] && s[..1] == [a] && s[..2] == s;
    if LexemeSize(s) == Ok(2) {
      assert [TokenOf(s)] + [] == [TokenOf(s)];
    }
  }

  /** The character neither starts nor continues a word, a number, a literal or an identifier. */
  predicate Sign(c: char) {
    !(c in SPACES || Starts(c) || c in DIGITS || c == '`' || c == '"' || c == '[' || c == '\'')
  }

  /** Two signs are one token exactly when they are one of the nine pairs, and else each stands for itself. */
  lemma TwoCharacters(a: char, b: char)
    requires Sign(a) && Sign(b)
    ensures Lex([a, b]) ==
      if [a, b] in PAIRS then Ok([[a, b]])
      else if a !in MARKS then Err(UnsupportedToken(a))
      else if b !in MARKS then Err(UnsupportedToken(b))
      else Ok([[a], [b]])
  {
    SpaceSet(a);
    WordSet(a);
    DigitSet(a);
    MarkSet(a);
    PairSet(a, b);
    TwoSize(a, b);
    Two(a, b);
    OneCharacter(b);
    SignToken(a, b);
    assert [[a]] + [[b]] == [[a], [b]];
    hide Lex, LexemeSize, TokenOf, IsSpace, IsIdentStart, IsPunctuation, IsDigit, IsOperator;
  }

  lemma SignToken(a: char, b: char)
    requires !IsIdentStart(a) && !IsOpening(a)
    ensures TokenOf([a]) == [a] && TokenOf([a, b]) == [a, b]
  {
  }

  // ---- Words and numbers ----

  /** A word is one token, with its capitals made small. */
  lemma WordExact(s: string)
    requires IsWord(s)
    ensures Lex(s).Ok? && |Lex(s).value| == 1 && IsSmall(Lex(s).value[0], s)
  {
    WordIsIdentifier(s);
    LowerIsSmall(s);
    hide Lex, IsIdentifier, IsWord, IsSmall, Lower;
    ReadAlone(Bare(s));
  }

  /** And it ends in front of every other character. */
  lemma WordEnds(s: string, c: char, rest: string)
    requires IsWord(s) && !Continues(c)
    ensures Lex(s).Ok? && Lex(s + ([c] + rest)) == After(Lex(s).value, Lex([c] + rest))
  {
    WordIsIdentifier(s);
    WordSet(c);
    ReadAlone(Bare(s));
    hide Lex, IsIdentifier, IsWord, IsIdentPart, Continues, Lower;
    LexStep(Bare(s), [c] + rest);
  }

  predicate IsDigits(s: string) {
    s != "" && forall i :: 0 <= i < |s| ==> s[i] in DIGITS
  }

  lemma DigitsAre(s: string)
    ensures IsDigits(s) <==> s != "" && AllDigits(s)
  {
    hide IsDigit;
    forall i | 0 <= i < |s|
      ensures IsDigit(s[i]) <==> s[i] in DIGITS
    {
      DigitSet(s[i]);
    }
  }

  /** Digits are one token, also with a point between them. */
  lemma NumberExact(whole: string, fraction: string)
    requires IsDigits(whole) && IsDigits(fraction)
    ensures Lex(whole) == Ok([whole]) && Lex(whole + "." + fraction) == Ok([whole + "." + fraction])
  {
    DigitsAre(whole);
    DigitsAre(fraction);
    assert AllDigits("");
    hide Lex, IsDigits, AllDigits;
    ReadAlone(Number(whole, ""));
    ReadAlone(Number(whole, fraction));
  }

  /** A number ends in front of anything but a digit, or a point with a digit behind it. */
  lemma NumberEnds(whole: string, c: char, rest: string)
    requires IsDigits(whole) && c !in DIGITS && (c == '.' ==> rest == "" || rest[0] !in DIGITS)
    ensures Lex(whole + ([c] + rest)) == After([whole], Lex([c] + rest))
  {
    DigitsAre(whole);
    DigitSet(c);
    if rest != "" {
      DigitSet(rest[0]);
    }
    assert AllDigits("");
    var tail := [c] + rest;
    assert tail[0] == c && (|tail| > 1 ==> tail[1] == rest[0]);
    hide Lex, IsDigits, AllDigits, IsDigit;
    LexStep(Number(whole, ""), tail);
  }

  // ---- Quotes ----

  /** The three quotings of identifiers. */
  const QUOTES := {('`', '`'), ('"', '"'), ('[', ']')}

  /** A quoted name gives the token of the word, any other quoted text an error. */
  lemma QuotedExact(q: (char, char), name: string, rest: string)
    requires q in QUOTES && forall i :: 0 <= i < |name| ==> name[i] != q.1
    ensures IsWord(name) ==>
      Lex(name).Ok? && Lex([q.0] + name + [q.1] + rest) == After(Lex(name).value, Lex(rest))
    ensures !IsWord(name) ==> Lex([q.0] + name + [q.1] + rest) == Err(BadIdentifier(name))
    ensures Lex([q.0] + name) == Err(UnterminatedIdentifier)
  {
    var s, t := [q.0] + name + [q.1] + rest, [q.0] + name;
    WordIsIdentifier(name);
    FindExact(q.1, name, rest);
    assert s[1..] == name + [q.1] + rest && s[1..|name| + 1] == name && t[1..] == name;
    NotFound(q.1, name);
    assert IsOpening(q.0) && Closing(q.0) == q.1 && !IsSpace(q.0);
    if IsWord(name) {
      ReadAlone(Bare(name));
      LexStep(Quoted(q.0, name), rest);
    }
    hide IsIdentifier, IsWord, Find, IsIdentPart, IsIdentStart, Lower;
  }

  lemma {:induction false} NotFound(c: char, s: string)
    requires forall i :: 0 <= i < |s| ==> s[i] != c
    ensures Find(c, s) == |s|
  {
    if s != "" {
      NotFound(c, s[1..]);
    }
  }
}
