/**
  The two regular expressions of bfg2/bfg/core/migration_operations.py, lines 404-408 and 433,
  written down as patterns, and the position predicates of `CheckExtract` proved to be their
  matches (`CheckPatternExact`, `NamedPatternExact`).
 */
module CheckPatterns {
  import opened Wrappers
  import opened SqlLexer
  import opened SqlGrammar
  import opened SqlCharacters
  import opened CheckExtract

  /** A text without regard to case, some or any number of characters of a set, or perhaps one. */
  datatype Item = Word(text: string) | Several(chars: string) | Any(chars: string) | Maybe(chars: string)

  predicate AllOf(t: string, chars: string) {
    forall i :: 0 <= i < |t| ==> t[i] in chars
  }

  predicate FitsItem(p: Item, t: string) {
    match p
    case Word(text) => Lower(t) == Lower(text)
    case Several(chars) => t != "" && AllOf(t, chars)
    case Any(chars) => AllOf(t, chars)
    case Maybe(chars) => |t| <= 1 && AllOf(t, chars)
  }

  /** The pattern matches the text from i to j. */
  ghost predicate Matches(ps: seq<Item>, s: string, i: nat, j: nat)
    requires i <= j <= |s|
    decreases |ps|
  {
    if ps == [] then i == j
    else exists k :: i <= k <= j && FitsItem(ps[0], s[i..k]) && Matches(ps[1..], s, k, j)
  }

  function Check(): seq<Item> { [Word("check")] + SpacesParen() }

  function SpacesParen(): seq<Item> { [Any(SPACES)] + Paren() }

  function Paren(): seq<Item> { [Word("(")] + [] }

  function Named(name: string): seq<Item> {
    [Word("constraint"), Several(SPACES), Maybe("`\"["), Word(name), Maybe("`\"]"), Several(SPACES)] + Check()
  }

  lemma MatchFirst(p: Item, ps: seq<Item>, s: string, i: nat, k: nat, j: nat)
    requires i <= k <= j <= |s| && FitsItem(p, s[i..k]) && Matches(ps, s, k, j)
    ensures Matches([p] + ps, s, i, j)
  {
    assert ([p] + ps)[0] == p && ([p] + ps)[1..] == ps;
    hide FitsItem;
  }

  lemma FirstMatches(p: Item, ps: seq<Item>, s: string, i: nat, j: nat) returns (k: nat)
    requires i <= j <= |s| && Matches([p] + ps, s, i, j)
    ensures i <= k <= j && FitsItem(p, s[i..k]) && Matches(ps, s, k, j)
  {
    hide FitsItem;
    assert ([p] + ps)[0] == p && ([p] + ps)[1..] == ps;
    k :| i <= k <= j && FitsItem(p, s[i..k]) && Matches(([p] + ps)[1..], s, k, j);
  }

  lemma SpacesAre(s: string, i: nat, j: nat)
    requires i <= j <= |s|
    ensures AllOf(s[i..j], SPACES) <==> forall k :: i <= k < j ==> IsSpace(s[k])
  {
    hide IsSpace;
    var t := s[i..j];
    forall k | i <= k < j
      ensures IsSpace(s[k]) <==> t[k - i] in SPACES
    {
      assert t[k - i] == s[k];
      SpaceSet(s[k]);
    }
    if AllOf(t, SPACES) {
      forall k | i <= k < j
        ensures IsSpace(s[k])
      {
        assert t[k - i] in SPACES;
      }
    }
  }

  lemma OneFits(w: string, t: string)
    requires |w| == 1 && LowerChar(w[0]) == w[0] && forall c: char :: LowerChar(c) == w[0] ==> c == w[0]
    ensures FitsItem(Word(w), t) <==> t == w
  {
    assert Lower(w) == w;
    LowerLength(t);
    if Lower(t) == w {
      assert Lower(t)[0] == LowerChar(t[0]);
    }
  }

  lemma ParenFits(t: string)
    ensures FitsItem(Word("("), t) <==> t == "("
  {
    OneFits("(", t);
  }

  lemma CheckWordIs(s: string, i: nat)
    requires i + 5 <= |s|
    ensures CheckWord(s, i) <==> FitsItem(Word("check"), s[i..i + 5])
  {
    var t, low := s[i..i + 5], Lower("check");
    assert low == "check" by {
      assert low[0] == 'c' && low[1] == 'h' && low[2] == 'e' && low[3] == 'c' && low[4] == 'k';
    }
    var u := Lower(t);
    assert |u| == 5 && forall k :: 0 <= k < 5 ==> u[k] == LowerChar(s[i + k]);
    assert "check"[0] == 'c' && "check"[1] == 'h' && "check"[2] == 'e' && "check"[3] == 'c' && "check"[4] == 'k';
  }

  lemma WordLength(w: string, t: string)
    requires FitsItem(Word(w), t)
    ensures |t| == |w|
  {
    LowerLength(w);
    LowerLength(t);
  }

  lemma OpenSpaces(s: string, i: nat, j: nat)
    requires i <= |s| && CheckOpenAt(s, i) == Some(j)
    ensures CheckWord(s, i) && forall k :: i + 5 <= k < j ==> IsSpace(s[k])
  {
    hide IsSpace, CheckWord;
    assert forall k :: i + 5 <= k < j ==> s[k] == s[i + 5..][k - i - 5];
  }

  lemma OpenMatches(s: string, i: nat, j: nat)
    requires i <= |s| && CheckOpenAt(s, i) == Some(j)
    ensures j < |s| && Matches(Check(), s, i, j + 1)
  {
    OpenSpaces(s, i, j);
    CheckWordIs(s, i);
    SpacesAre(s, i + 5, j);
    AnyFits(s[i + 5..j]);
    hide FitsItem, CheckWord, IsSpace, Matches, CheckOpenAt, AllOf;
    ParenMatches(s, j);
    MatchFirst(Any(SPACES), Paren(), s, i + 5, j, j + 1);
    MatchFirst(Word("check"), SpacesParen(), s, i, i + 5, j + 1);
  }

  lemma ParenMatches(s: string, j: nat)
    requires j < |s| && s[j] == '('
    ensures Matches(Paren(), s, j, j + 1)
  {
    assert s[j..j + 1] == "(";
    ParenFits("(");
    hide FitsItem;
    assert Matches([], s, j + 1, j + 1);
    MatchFirst(Word("("), [], s, j, j + 1, j + 1);
  }

  lemma MatchParen(s: string, i: nat, j: nat)
    requires i <= j <= |s| && Matches(Paren(), s, i, j)
    ensures j == i + 1 && s[i] == '('
  {
    hide FitsItem;
    var c := FirstMatches(Word("("), [], s, i, j);
    ParenFits(s[i..c]);
    MatchEnd(s, c, j);
    assert |s[i..c]| == 1 && s[i] == s[i..c][0];
  }

  lemma AnyFits(t: string)
    ensures FitsItem(Any(SPACES), t) <==> AllOf(t, SPACES)
  {
  }

  lemma MatchOpens(s: string, i: nat, e: nat)
    requires i <= e <= |s| && Matches(Check(), s, i, e)
    ensures e > 0 && CheckOpenAt(s, i) == Some(e - 1)
  {
    hide FitsItem, CheckWord, IsSpace, Matches, CheckOpenAt, Paren;
    var a := FirstMatches(Word("check"), SpacesParen(), s, i, e);
    var b := FirstMatches(Any(SPACES), Paren(), s, a, e);
    MatchParen(s, b, e);
    WordLength("check", s[i..a]);
    CheckWordIs(s, i);
    AnyFits(s[a..b]);
    SpacesAre(s, a, b);
    OpensFrom(s, i, b);
  }

  lemma MatchEnd(s: string, i: nat, j: nat)
    requires i <= j <= |s| && Matches([], s, i, j)
    ensures i == j
  {
  }

  lemma OpensFrom(s: string, i: nat, b: nat)
    requires i + 5 <= b < |s| && CheckWord(s, i) && s[b] == '(' && forall k :: i + 5 <= k < b ==> IsSpace(s[k])
    ensures CheckOpenAt(s, i) == Some(b)
  {
    NoSpaceParen();
    hide IsSpace, CheckWord;
    var t := s[i + 5..];
    assert forall k :: 0 <= k < b - i - 5 ==> t[k] == s[i + 5 + k];
    assert t[b - i - 5] == s[b];
    RunExact(IsSpace, t, b - i - 5);
  }

  lemma NoSpaceParen()
    ensures !IsSpace('(')
  {
  }

  /** The characters of a word, as \b sees them. */
  predicate IsPartOfWord(c: char) {
    c in SMALL || c in CAPITAL || c in DIGITS || c == '_'
  }

  lemma WordCharSet(c: char)
    ensures IsWordChar(c) <==> IsPartOfWord(c)
  {
    WordSet(c);
    DigitSet(c);
    hide IsIdentStart, IsDigit, IsIdentPart;
  }

  /** The first pattern, \bcheck\s*\( without regard to case, matches at i and ends behind the parenthesis at j. */
  lemma CheckPatternExact(s: string, i: nat, j: nat)
    requires i <= j < |s|
    ensures CheckMatch(s, i) == Some(j) <==> Matches(Check(), s, i, j + 1) && (i == 0 || !IsPartOfWord(s[i - 1]))
  {
    hide CheckOpenAt, IsWordChar, IsPartOfWord, Matches, Check;
    if i > 0 {
      WordCharSet(s[i - 1]);
    }
    if CheckOpenAt(s, i) == Some(j) {
      OpenMatches(s, i, j);
    }
    if Matches(Check(), s, i, j + 1) {
      MatchOpens(s, i, j + 1);
    }
  }

  // ---- The named pattern ----

  lemma SomeFits(s: string, i: nat, j: nat)
    requires i <= j <= |s|
    ensures FitsItem(Several(SPACES), s[i..j]) <==> SpacesBetween(s, i, j)
  {
    SpacesAre(s, i, j);
    hide IsSpace;
  }

  lemma OpeningFits(s: string, i: nat, j: nat)
    requires i <= j <= |s|
    ensures FitsItem(Maybe("`\"["), s[i..j]) <==> j == i || (j == i + 1 && IsOpening(s[i]))
  {
    var t, chars := s[i..j], "`\"[";
    assert chars[0] == '`' && chars[1] == '"' && chars[2] == '[';
    if j == i + 1 {
      assert t[0] == s[i];
    }
  }

  lemma ClosingFits(s: string, i: nat, j: nat)
    requires i <= j <= |s|
    ensures FitsItem(Maybe("`\"]"), s[i..j]) <==> j == i || (j == i + 1 && IsCloser(s[i]))
  {
    var t, chars := s[i..j], "`\"]";
    assert chars[0] == '`' && chars[1] == '"' && chars[2] == ']';
    if j == i + 1 {
      assert t[0] == s[i];
    }
  }

  lemma WordFits(s: string, i: nat, j: nat, w: string)
    requires i <= j <= |s|
    ensures FitsItem(Word(w), s[i..j]) <==> j == i + |w| && WordAt(s, i, Lower(w))
  {
    LowerLength(w);
    if FitsItem(Word(w), s[i..j]) {
      WordLength(w, s[i..j]);
    }
    hide Lower;
  }

  lemma ConstraintSmall()
    ensures Lower("constraint") == "constraint"
  {
    hide Lower;
    var r, w := Lower("constraint"), "constraint";
    assert |r| == |w| == 10;
    assert w[0] == 'c' && w[1] == 'o' && w[2] == 'n' && w[3] == 's' && w[4] == 't';
    assert w[5] == 'r' && w[6] == 'a' && w[7] == 'i' && w[8] == 'n' && w[9] == 't';
    assert forall k :: 0 <= k < 10 ==> r[k] == LowerChar(w[k]) == w[k];
  }

  /** The parts of the named pattern, one after the other. */
  ghost predicate Pieces(s: string, name: string, i: nat, g: nat, o: nat, n: nat, q: nat, w: nat, c: nat, e: nat) {
    && i <= g <= o <= n <= q <= w <= c <= e <= |s|
    && FitsItem(Word("constraint"), s[i..g]) && FitsItem(Several(SPACES), s[g..o])
    && FitsItem(Maybe("`\"["), s[o..n]) && FitsItem(Word(name), s[n..q]) && FitsItem(Maybe("`\"]"), s[q..w])
    && FitsItem(Several(SPACES), s[w..c]) && Matches(Check(), s, c, e)
  }

  function Rest1(name: string): seq<Item> { [Several(SPACES)] + Rest2(name) }

  function Rest2(name: string): seq<Item> { [Maybe("`\"[")] + Rest3(name) }

  function Rest3(name: string): seq<Item> { [Word(name)] + Rest4() }

  function Rest4(): seq<Item> { [Maybe("`\"]")] + ([Several(SPACES)] + Check()) }

  lemma NamedIs(name: string)
    ensures Named(name) == [Word("constraint")] + Rest1(name)
  {
  }

  lemma PiecesMatch(s: string, name: string, i: nat, g: nat, o: nat, n: nat, q: nat, w: nat, c: nat, e: nat)
    requires Pieces(s, name, i, g, o, n, q, w, c, e)
    ensures Matches(Named(name), s, i, e)
  {
    hide FitsItem, Matches;
    MatchFirst(Several(SPACES), Check(), s, w, c, e);
    MatchFirst(Maybe("`\"]"), [Several(SPACES)] + Check(), s, q, w, e);
    MatchFirst(Word(name), Rest4(), s, n, q, e);
    MatchFirst(Maybe("`\"["), Rest3(name), s, o, n, e);
    MatchFirst(Several(SPACES), Rest2(name), s, g, o, e);
    MatchFirst(Word("constraint"), Rest1(name), s, i, g, e);
    NamedIs(name);
  }

  lemma MatchPieces(s: string, name: string, i: nat, e: nat)
    returns (g: nat, o: nat, n: nat, q: nat, w: nat, c: nat)
    requires i <= e <= |s| && Matches(Named(name), s, i, e)
    ensures Pieces(s, name, i, g, o, n, q, w, c, e)
  {
    hide FitsItem, Matches;
    NamedIs(name);
    g := FirstMatches(Word("constraint"), Rest1(name), s, i, e);
    o := FirstMatches(Several(SPACES), Rest2(name), s, g, e);
    n := FirstMatches(Maybe("`\"["), Rest3(name), s, o, e);
    q := FirstMatches(Word(name), Rest4(), s, n, e);
    w := FirstMatches(Maybe("`\"]"), [Several(SPACES)] + Check(), s, q, e);
    c := FirstMatches(Several(SPACES), Check(), s, w, e);
  }

  lemma PiecesFound(s: string, name: string, i: nat, g: nat, o: nat, n: nat, q: nat, w: nat, c: nat, e: nat)
    requires Pieces(s, name, i, g, o, n, q, w, c, e)
    ensures NamedMatch(s, i, name)
  {
    hide FitsItem, Matches, Lower, WordAt, SpacesBetween, IsOpening, IsCloser, CheckOpenAt;
    ConstraintSmall();
    LowerLength(name);
    WordFits(s, i, g, "constraint");
    SomeFits(s, g, o);
    OpeningFits(s, o, n);
    WordFits(s, n, q, name);
    ClosingFits(s, q, w);
    SomeFits(s, w, c);
    MatchOpens(s, c, e);
    SpacesMove(s, w, c);
    SpacesMove(s, g, o);
    assert CheckAfter(s, w);
    assert NameThenCheck(s, n, name);
    assert OptionalQuoteThenName(s, o, name);
  }

  lemma SpacesMove(s: string, i: nat, j: nat)
    requires SpacesBetween(s, i, j)
    ensures i < j
  {
  }

  lemma FoundPieces(s: string, name: string, i: nat)
    returns (g: nat, o: nat, n: nat, q: nat, w: nat, c: nat, e: nat)
    requires i <= |s| && NamedMatch(s, i, name)
    ensures Pieces(s, name, i, g, o, n, q, w, c, e)
  {
    hide FitsItem, Matches, Lower, WordAt, SpacesBetween, IsOpening, IsCloser, CheckOpenAt;
    g := i + 10;
    o :| g < o <= |s| && SpacesBetween(s, g, o) && OptionalQuoteThenName(s, o, name);
    n := if NameThenCheck(s, o, name) then o else o + 1;
    q := n + |name|;
    WithinText(s, n, name);
    w := if CheckAfter(s, q) then q else q + 1;
    c :| w < c <= |s| && SpacesBetween(s, w, c) && CheckOpenAt(s, c).Some?;
    OpenMatches(s, c, CheckOpenAt(s, c).value);
    e := CheckOpenAt(s, c).value + 1;
    ConstraintSmall();
    WithinText(s, i, "constraint");
    WordFits(s, i, g, "constraint");
    SomeFits(s, g, o);
    OpeningFits(s, o, n);
    WordFits(s, n, q, name);
    ClosingFits(s, q, w);
    SomeFits(s, w, c);
  }

  lemma WithinText(s: string, i: nat, name: string)
    ensures WordAt(s, i, Lower(name)) ==> i + |name| <= |s|
  {
    LowerLength(name);
  }

  /** The second pattern matches at i exactly where the named check is looked for. */
  lemma NamedPatternExact(s: string, i: nat, name: string)
    requires i <= |s|
    ensures NamedMatch(s, i, name) <==> exists e :: i <= e <= |s| && Matches(Named(name), s, i, e)
  {
    hide NamedMatch, Matches, Pieces;
    if NamedMatch(s, i, name) {
      var g, o, n, q, w, c, e := FoundPieces(s, name, i);
      PiecesMatch(s, name, i, g, o, n, q, w, c, e);
      PiecesEnd(s, name, i, g, o, n, q, w, c, e);
    }
    if e :| i <= e <= |s| && Matches(Named(name), s, i, e) {
      var g, o, n, q, w, c := MatchPieces(s, name, i, e);
      PiecesFound(s, name, i, g, o, n, q, w, c, e);
    }
  }

  lemma PiecesEnd(s: string, name: string, i: nat, g: nat, o: nat, n: nat, q: nat, w: nat, c: nat, e: nat)
    requires Pieces(s, name, i, g, o, n, q, w, c, e)
    ensures i <= e <= |s|
  {
  }
}
