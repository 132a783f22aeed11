/**
  The tokenizer for generated DDL (bfg2/bfg/core/migration_operations.py, lines 52-119).

  `Lex` is the raw lexer as a function on the text still to be read; `Tokens` adds the two
  steps around it: stripping the text first and dropping one final ";".  `SqlTokens` is the
  loop of the source, proved to compute `Tokens`.  Characters are classified as ASCII.
 */
module SqlLexer {
  import opened Wrappers

  datatype LexError =
    | UnterminatedEscape
    | UnterminatedLiteral
    | UnterminatedIdentifier
    | BadIdentifier(name: string)
    | UnsupportedToken(c: char)

  // ---- Character classes ----

  /** Python's str.isspace on ASCII; U+001C to U+001F are included. */
  predicate IsSpace(c: char) {
    '\t' <= c <= '\r' || '\U{1C}' <= c <= ' '
  }

  predicate IsDigit(c: char) {
    '0' <= c <= '9'
  }

  predicate IsIdentStart(c: char) {
    'a' <= c <= 'z' || 'A' <= c <= 'Z' || c == '_'
  }

  predicate IsIdentPart(c: char) {
    IsIdentStart(c) || IsDigit(c) || c == '$'
  }

  /** The nine two-character operators. */
  predicate IsOperator(a: char, b: char) {
    || (b == '=' && (a == '>' || a == '<' || a == '!' || a == '='))
    || (a == '<' && b == '>')
    || (a == b && (a == '|' || a == '&' || a == ':'))
    || (a == '-' && b == '>')
  }

  predicate IsPunctuation(c: char) {
    || c == '(' || c == ')' || c == ',' || c == '.' || c == '+' || c == '-' || c == '*' || c == '/'
    || c == '%' || c == '<' || c == '>' || c == '=' || c == ':' || c == ';'
  }

  predicate IsOpening(c: char) {
    c == '`' || c == '"' || c == '['
  }

  function Closing(c: char): char {
    if c == '[' then ']' else c
  }

  function LowerChar(c: char): char {
    if 'A' <= c <= 'Z' then c - 'A' + 'a' else c
  }

  function Lower(s: string): (r: string)
    ensures |r| == |s|
    ensures forall i :: 0 <= i < |s| ==> r[i] == LowerChar(s[i])
  {
    if s == "" then "" else [LowerChar(s[0])] + Lower(s[1..])
  }

  // ---- Scans that stand for the regular expressions ----

  /** The length of the longest prefix of s whose characters all satisfy p. */
  function Run(p: char -> bool, s: string): (n: nat)
    ensures n <= |s|
    ensures forall i :: 0 <= i < n ==> p(s[i])
    ensures n < |s| ==> !p(s[n])
  {
    if s == "" || !p(s[0]) then 0 else 1 + Run(p, s[1..])
  }

  /** The index of the first c in s, or |s| when there is none. */
  function Find(c: char, s: string): (n: nat)
    ensures n <= |s|
    ensures forall i :: 0 <= i < n ==> s[i] != c
    ensures n < |s| ==> s[n] == c
  {
    if s == "" || s[0] == c then 0 else 1 + Find(c, s[1..])
  }

  predicate IsIdentifier(s: string) {
    s != "" && IsIdentStart(s[0]) && forall i :: 0 < i < |s| ==> IsIdentPart(s[i])
  }

  /** The longest prefix that is digits, optionally followed by "." and digits. */
  function NumberLength(s: string): (n: nat)
    requires s != "" && IsDigit(s[0])
    ensures 0 < n <= |s|
  {
    var n := Run(IsDigit, s);
    if n + 1 < |s| && s[n] == '.' && IsDigit(s[n + 1]) then n + 1 + Run(IsDigit, s[n + 1..]) else n
  }

  function Plus(n: nat, r: Result<nat, LexError>): Result<nat, LexError> {
    match r
    case Ok(m) => Ok(n + m)
    case Err(e) => Err(e)
  }

  /** How many characters of s, the text after an opening quote, belong to the literal. */
  function ScanLiteral(s: string): (r: Result<nat, LexError>)
    ensures r.Ok? ==> 0 < r.value <= |s|
  {
    if s == "" then Err(UnterminatedLiteral)
    else if s[0] == '\\' then
      if |s| == 1 then Err(UnterminatedEscape) else Plus(2, ScanLiteral(s[2..]))
    else if s[0] == '\'' then
      if |s| > 1 && s[1] == '\'' then Plus(2, ScanLiteral(s[2..])) else Ok(1)
    else Plus(1, ScanLiteral(s[1..]))
  }

  /** How many characters the lexeme at the front of s takes. */
  function LexemeSize(s: string): (r: Result<nat, LexError>)
    requires s != "" && !IsSpace(s[0])
    ensures r.Ok? ==> 0 < r.value <= |s|
  {
    var c := s[0];
    if c == '\'' then Plus(1, ScanLiteral(s[1..]))
    else if IsOpening(c) then
      var n := Find(Closing(c), s[1..]);
      if n == |s| - 1 then Err(UnterminatedIdentifier)
      else if !IsIdentifier(s[1..n + 1]) then Err(BadIdentifier(s[1..n + 1]))
      else Ok(n + 2)
    else if IsIdentStart(c) then Ok(1 + Run(IsIdentPart, s[1..]))
    else if IsDigit(c) then Ok(NumberLength(s))
    else if |s| > 1 && IsOperator(c, s[1]) then Ok(2)
    else if IsPunctuation(c) then Ok(1)
    else Err(UnsupportedToken(c))
  }

  /** The token made of the text of one lexeme. */
  function TokenOf(t: string): string
    requires t != ""
  {
    if |t| > 1 && IsOpening(t[0]) then Lower(t[1..|t| - 1])
    else if IsIdentStart(t[0]) then Lower(t)
    else t
  }

  /** r with ts put in front of its tokens. */
  function After(ts: seq<string>, r: Result<seq<string>, LexError>): Result<seq<string>, LexError> {
    match r
    case Ok(rest) => Ok(ts + rest)
    case Err(e) => Err(e)
  }

  /** The raw lexer: every token of s, from left to right. */
  function Lex(s: string): Result<seq<string>, LexError>
    decreases |s|
  {
    if s == "" then Ok([])
    else if IsSpace(s[0]) then Lex(s[1..])
    else
      match LexemeSize(s)
      case Err(e) => Err(e)
      case Ok(n) => After([TokenOf(s[..n])], Lex(s[n..]))
  }

  function StripLeft(s: string): string {
    if s != "" && IsSpace(s[0]) then StripLeft(s[1..]) else s
  }

  function StripRight(s: string): string {
    if s != "" && IsSpace(s[|s| - 1]) then StripRight(s[..|s| - 1]) else s
  }

  function Strip(s: string): string {
    StripRight(StripLeft(s))
  }

  function DropSemicolon(ts: seq<string>): seq<string> {
    if ts != [] && ts[|ts| - 1] == ";" then ts[..|ts| - 1] else ts
  }

  function Tokens(value: string): Result<seq<string>, LexError> {
    match Lex(Strip(value))
    case Ok(ts) => Ok(DropSemicolon(ts))
    case Err(e) => Err(e)
  }

  // ---- The loops of the source ----

  lemma NothingRead(text: string)
    ensures Lex(text) == After([], Lex(text[0..]))
  {
    assert text[0..] == text;
    assert Lex(text).Ok? ==> [] + Lex(text).value == Lex(text).value;
  }

  lemma AfterTwice(x: seq<string>, y: seq<string>, r: Result<seq<string>, LexError>)
    ensures After(x, After(y, r)) == After(x + y, r)
  {
    assert r.Ok? ==> x + (y + r.value) == (x + y) + r.value;
  }

  /** One lexeme of `size` characters has been read at `position`. */
  lemma Advance(text: string, tokens: seq<string>, position: nat, size: nat)
    requires position < |text| && !IsSpace(text[position])
    requires Lex(text) == After(tokens, Lex(text[position..]))
    requires LexemeSize(text[position..]) == Ok(size)
    ensures 0 < size <= |text| - position
    ensures Lex(text) ==
      After(tokens + [TokenOf(text[position..position + size])], Lex(text[position + size..]))
  {
    hide LexemeSize, TokenOf;
    var rest := text[position..];
    assert rest[0] == text[position];
    assert rest[..size] == text[position..position + size] && rest[size..] == text[position + size..];
    AfterTwice(tokens, [TokenOf(rest[..size])], Lex(rest[size..]));
  }

  lemma ScanAt(text: string, end: nat)
    requires end < |text|
    ensures ScanLiteral(text[end..]) ==
      if text[end] == '\\' then
        if end + 1 == |text| then Err(UnterminatedEscape) else Plus(2, ScanLiteral(text[end + 2..]))
      else if text[end] == '\'' then
        if end + 1 < |text| && text[end + 1] == '\'' then Plus(2, ScanLiteral(text[end + 2..])) else Ok(1)
      else Plus(1, ScanLiteral(text[end + 1..]))
  {
    var rest := text[end..];
    assert rest[0] == text[end] && rest[1..] == text[end + 1..];
    if |rest| > 1 {
      assert rest[1] == text[end + 1] && rest[2..] == text[end + 2..];
    }
  }

  /** The inner loop: where the literal whose body starts at `start` ends. */
  method LiteralEnd(text: string, start: nat) returns (r: Result<nat, LexError>)
    requires start <= |text|
    ensures r == Plus(start, ScanLiteral(text[start..]))
  {
    hide ScanLiteral;
    var end := start;
    while end < |text|
      invariant start <= end <= |text|
      invariant Plus(start, ScanLiteral(text[start..])) == Plus(end, ScanLiteral(text[end..]))
    {
      ScanAt(text, end);
      if text[end] == '\\' {
        if end + 1 >= |text| {
          return Err(UnterminatedEscape);
        }
        end := end + 2;
      } else if text[end] == '\'' {
        if end + 1 < |text| && text[end + 1] == '\'' {
          end := end + 2;
        } else {
          return Ok(end + 1);
        }
      } else {
        end := end + 1;
      }
    }
    ScanNothing(text[end..]);
    return Err(UnterminatedLiteral);
  }

  lemma ScanNothing(s: string)
    requires s == ""
    ensures ScanLiteral(s) == Err(UnterminatedLiteral)
  {
  }

  /** LexemeSize at a position of the text, in the terms of that position. */
  lemma SizeAt(text: string, position: nat)
    requires position < |text| && !IsSpace(text[position])
    ensures var c, after := text[position], text[position + 1..];
      LexemeSize(text[position..]) ==
      if c == '\'' then Plus(1, ScanLiteral(after))
      else if IsOpening(c) then
        var n := Find(Closing(c), after);
        if n == |after| then Err(UnterminatedIdentifier)
        else if !IsIdentifier(after[..n]) then Err(BadIdentifier(after[..n]))
        else Ok(n + 2)
      else if IsIdentStart(c) then Ok(1 + Run(IsIdentPart, after))
      else if IsDigit(c) then Ok(NumberLength(text[position..]))
      else if after != "" && IsOperator(c, after[0]) then Ok(2)
      else if IsPunctuation(c) then Ok(1)
      else Err(UnsupportedToken(c))
  {
    hide IsIdentifier, Run, NumberLength, ScanLiteral, IsPunctuation, IsOperator;
    var rest, after := text[position..], text[position + 1..];
    assert rest[0] == text[position] && rest[1..] == after;
    if IsOpening(text[position]) {
      var n := Find(Closing(text[position]), after);
      assert rest[1..n + 1] == after[..n];
    }
  }

  lemma TokenAt(text: string, position: nat, end: nat)
    requires position < end <= |text|
    ensures var c := text[position];
      TokenOf(text[position..end]) ==
      if end > position + 1 && IsOpening(c) then Lower(text[position + 1..end - 1])
      else if IsIdentStart(c) then Lower(text[position..end])
      else text[position..end]
  {
    hide Lower;
    var t := text[position..end];
    assert t[0] == text[position];
    if end > position + 1 {
      assert t == [t[0]] + text[position + 1..end - 1] + [t[|t| - 1]];
      assert t[1..|t| - 1] == text[position + 1..end - 1];
    }
  }

  /** One turn of the main loop on a character that is not whitespace. */
  method LexemeEnd(text: string, position: nat) returns (r: Result<(string, nat), LexError>)
    requires position < |text| && !IsSpace(text[position])
    ensures match LexemeSize(text[position..])
            case Err(e) => r == Err(e)
            case Ok(n) => r == Ok((TokenOf(text[position..position + n]), position + n))
  {
    hide LexemeSize, TokenOf, IsIdentifier, IsOperator, IsPunctuation, Run, NumberLength, ScanLiteral, Lower;
    SizeAt(text, position);
    var c := text[position];
    if c == '\'' {
      var end := LiteralEnd(text, position + 1);
      if end.Err? {
        return Err(end.error);
      }
      TokenAt(text, position, end.value);
      return Ok((text[position..end.value], end.value));
    }
    if IsOpening(c) {
      var end := position + 1 + Find(Closing(c), text[position + 1..]);
      if end == |text| {
        return Err(UnterminatedIdentifier);
      }
      var identifier := text[position + 1..end];
      assert identifier == text[position + 1..][..end - position - 1];
      if !IsIdentifier(identifier) {
        return Err(BadIdentifier(identifier));
      }
      TokenAt(text, position, end + 1);
      return Ok((Lower(identifier), end + 1));
    }
    if IsIdentStart(c) {
      var end := position + 1 + Run(IsIdentPart, text[position + 1..]);
      TokenAt(text, position, end);
      return Ok((Lower(text[position..end]), end));
    }
    if IsDigit(c) {
      var end := position + NumberLength(text[position..]);
      TokenAt(text, position, end);
      return Ok((text[position..end], end));
    }
    if position + 1 < |text| && IsOperator(c, text[position + 1]) {
      TokenAt(text, position, position + 2);
      return Ok((text[position..position + 2], position + 2));
    }
    if IsPunctuation(c) {
      TokenAt(text, position, position + 1);
      return Ok((text[position..position + 1], position + 1));
    }
    return Err(UnsupportedToken(c));
  }

  method SqlTokens(value: string) returns (r: Result<seq<string>, LexError>)
    ensures r == Tokens(value)
  {
    hide LexemeSize, TokenOf;
    var text := Strip(value);
    var tokens: seq<string> := [];
    var position := 0;
    NothingRead(text);
    while position < |text|
      invariant 0 <= position <= |text|
      invariant Lex(text) == After(tokens, Lex(text[position..]))
    {
      ghost var rest := text[position..];
      assert rest[0] == text[position];
      if IsSpace(text[position]) {
        position := position + 1;
        assert rest[1..] == text[position..];
        continue;
      }
      var lexeme := LexemeEnd(text, position);
      if lexeme.Err? {
        return Err(lexeme.error);
      }
      Advance(text, tokens, position, lexeme.value.1 - position);
      tokens, position := tokens + [lexeme.value.0], lexeme.value.1;
    }
    assert Lex(text[position..]) == Ok([]) && tokens + [] == tokens;
    if tokens != [] && tokens[|tokens| - 1] == ";" {
      tokens := tokens[..|tokens| - 1];
    }
    return Ok(tokens);
  }
}
