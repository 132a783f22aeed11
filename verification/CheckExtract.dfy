/**
  Finding CHECK clauses in the SQL of a SQLite table (bfg2/bfg/core/migration_operations.py,
  lines 403-456): the two regular expressions as position predicates, the two extraction loops,
  the clauses of a rendered table coming back in order (`TableReadBack`), and a rendered named
  check coming back under its name (`NamedReadBack`).
 */
module CheckExtract {
  import opened Wrappers
  import opened SqlLexer
  import opened SqlGrammar
  import opened CheckScan

  // ---- The pattern \bcheck\s*\( without regard to case ----

  predicate IsWordChar(c: char) {
    IsIdentStart(c) || IsDigit(c)
  }

  /** "check" stands at position i, in any case. */
  predicate CheckWord(s: string, i: nat) {
    && i + 5 <= |s|
    && LowerChar(s[i]) == 'c' && LowerChar(s[i + 1]) == 'h' && LowerChar(s[i + 2]) == 'e'
    && LowerChar(s[i + 3]) == 'c' && LowerChar(s[i + 4]) == 'k'
  }

  /** Where the "(" of "check" at position i is, if only whitespace lies between. */
  function CheckOpenAt(s: string, i: nat): (r: Option<nat>)
    requires i <= |s|
    ensures r.Some? ==> i + 5 <= r.value < |s| && s[r.value] == '('
  {
    if !CheckWord(s, i) then None
    else
      var j := i + 5 + Run(IsSpace, s[i + 5..]);
      if j < |s| && s[j] == '(' then Some(j) else None
  }

  function CheckMatch(s: string, i: nat): Option<nat>
    requires i <= |s|
  {
    if i > 0 && IsWordChar(s[i - 1]) then None else CheckOpenAt(s, i)
  }

  /** The clause of a match at i: none when there is no match or it never closes. */
  function ClauseAt(s: string, i: nat): seq<string>
    requires i <= |s|
  {
    match CheckMatch(s, i)
    case None => []
    case Some(j) =>
      match DoubleEnd(s[j..], 0, None)
      case None => []
      case Some(p) => if p > 0 then [s[j..][1..p]] else []
  }

  /** Every clause whose match starts at i or later. */
  function Checks(s: string, i: nat): seq<string>
    requires i <= |s|
    decreases |s| - i
  {
    if i == |s| then [] else ClauseAt(s, i) + Checks(s, i + 1)
  }

  lemma InsideMatch(s: string, i: nat, j: nat, k: nat)
    requires i <= |s| && CheckOpenAt(s, i) == Some(j) && i < k <= j
    ensures CheckOpenAt(s, k) == None && (k < j ==> s[k] != '(')
  {
    if k >= i + 5 {
      assert k < j ==> IsSpace(s[i + 5..][k - i - 5]) && s[k] == s[i + 5..][k - i - 5];
    }
  }

  lemma NoMatchHere(s: string, i: nat)
    requires i < |s| && CheckMatch(s, i) == None
    ensures Checks(s, i) == Checks(s, i + 1)
  {
    assert [] + Checks(s, i + 1) == Checks(s, i + 1);
  }

  lemma {:induction false} SkipMatch(s: string, i: nat, j: nat, k: nat)
    requires i < k <= j + 1 <= |s| && CheckOpenAt(s, i) == Some(j)
    ensures Checks(s, k) == Checks(s, j + 1)
    decreases j + 1 - k
  {
    hide CheckOpenAt, Checks, ClauseAt;
    if k <= j {
      InsideMatch(s, i, j, k);
      NoMatchHere(s, k);
      SkipMatch(s, i, j, k + 1);
    }
  }

  lemma FirstParen(s: string, i: nat, j: nat)
    requires i <= |s| && CheckMatch(s, i) == Some(j)
    ensures j < |s| && s[j] == '(' && i + Find('(', s[i..]) == j
  {
    var n := Find('(', s[i..]);
    assert s[i..][j - i] == '(';
    if n < j - i {
      assert s[i + n] == s[i..][n];
      if n > 0 {
        InsideMatch(s, i, j, i + n);
      }
    }
  }

  /** `_extract_checks`: leftmost matches from left to right, each search after the last match. */
  method ExtractChecks(sql: string) returns (clauses: seq<string>)
    ensures clauses == Checks(sql, 0)
  {
    hide DoubleEnd, CheckOpenAt, CheckMatch, ClauseAt, Checks, Find;
    NothingFound(sql);
    Regroup([], [], Checks(sql, 0));
    clauses := [];
    var position := 0;
    while position < |sql|
      invariant 0 <= position <= |sql|
      invariant Checks(sql, 0) == clauses + Checks(sql, position)
    {
      var opens := CheckMatch(sql, position);
      if opens.None? {
        NoMatchHere(sql, position);
        position := position + 1;
      } else {
        FirstParen(sql, position, opens.value);
        var start := position + Find('(', sql[position..]);
        var close := DoubleScan(sql, start);
        MatchHere(sql, position, start, close);
        if close.Some? {
          var clause := sql[start + 1..close.value];
          Regroup(clauses, [clause], Checks(sql, start + 1));
          clauses := clauses + [clause];
        } else {
          Regroup(clauses, [], Checks(sql, start + 1));
        }
        position := start + 1;
      }
    }
  }

  lemma NothingFound(s: string)
    ensures Checks(s, |s|) == []
  {
  }

  lemma Regroup(x: seq<string>, y: seq<string>, z: seq<string>)
    ensures x + (y + z) == (x + y) + z && x + [] == x && [] + z == z
  {
  }

  lemma OpenOfMatch(s: string, i: nat)
    requires i <= |s| && CheckMatch(s, i).Some?
    ensures CheckOpenAt(s, i) == CheckMatch(s, i)
  {
  }

  lemma ClauseOfMatch(s: string, i: nat, start: nat, close: Option<nat>)
    requires i <= |s| && CheckMatch(s, i) == Some(start) && start < |s| && s[start] == '('
    requires close == Shift(start, DoubleEnd(s[start..], 0, None))
    ensures close.Some? ==> start < close.value <= |s|
    ensures ClauseAt(s, i) == if close.Some? then [s[start + 1..close.value]] else []
  {
    hide CheckMatch, CheckOpenAt;
    if close.Some? {
      ClauseText(s, start, close.value);
    }
    hide DoubleEnd;
  }

  lemma MatchHere(s: string, i: nat, start: nat, close: Option<nat>)
    requires i < |s| && CheckMatch(s, i) == Some(start)
    requires start < |s| && s[start] == '('
    requires close == Shift(start, DoubleEnd(s[start..], 0, None))
    ensures close.Some? ==> start < close.value <= |s|
    ensures Checks(s, i) ==
      (if close.Some? then [s[start + 1..close.value]] else []) + Checks(s, start + 1)
  {
    hide CheckMatch, CheckOpenAt, ClauseAt, DoubleEnd;
    OpenOfMatch(s, i);
    SkipMatch(s, i, start, i + 1);
    ClauseOfMatch(s, i, start, close);
  }

  lemma ClauseText(s: string, j: nat, close: nat)
    requires j < |s| && s[j] == '(' && Shift(j, DoubleEnd(s[j..], 0, None)) == Some(close)
    ensures j < close <= |s| && s[j + 1..close] == s[j..][1..close - j]
  {
    assert s[j..][0] == '(';
  }

  // ---- What the extraction returns ----

  lemma {:induction false} ChecksAt(s: string, i: nat, c: string)
    requires i <= |s|
    ensures c in Checks(s, i) <==> exists k :: i <= k < |s| && c in ClauseAt(s, k)
    decreases |s| - i
  {
    hide ClauseAt;
    if i < |s| {
      ChecksAt(s, i + 1, c);
    }
  }

  /** The extraction returns a text exactly when some match of the pattern has it as clause. */
  lemma {:induction false} ChecksExact(s: string, c: string)
    ensures c in Checks(s, 0) <==> exists k :: 0 <= k < |s| && ClauseAt(s, k) == [c]
  {
    ChecksAt(s, 0, c);
  }

  // ---- Rendered tables ----

  /** "check" starts at i, or could with more text after t. */
  predicate MayOpen(t: string, i: nat)
    requires i < |t|
  {
    && LowerChar(t[i]) == 'c'
    && (i + 1 < |t| ==> LowerChar(t[i + 1]) == 'h')
    && (i + 2 < |t| ==> LowerChar(t[i + 2]) == 'e')
    && (i + 3 < |t| ==> LowerChar(t[i + 3]) == 'c')
    && (i + 4 < |t| ==> LowerChar(t[i + 4]) == 'k')
    && (i + 5 <= |t| ==>
      var j := i + 5 + Run(IsSpace, t[i + 5..]);
      j == |t| || t[j] == '(')
  }

  /** No match of the pattern starts in t, whatever comes after it. */
  predicate Quiet(t: string) {
    forall i :: 0 <= i < |t| ==> !MayOpen(t, i)
  }

  lemma QuietNear(s: string, from: nat, to: nat, i: nat, k: nat)
    requires from <= i < to <= |s| && k == i - from && k + 5 > to - from && CheckWord(s, i)
    ensures MayOpen(s[from..to], k)
  {
    var t := s[from..to];
    assert forall n :: 0 <= n < |t| ==> t[n] == s[from + n];
  }

  lemma QuietFar(s: string, from: nat, to: nat, i: nat, k: nat)
    requires from <= i < to <= |s| && k == i - from && k + 5 <= to - from && CheckOpenAt(s, i).Some?
    ensures MayOpen(s[from..to], k)
  {
    var t := s[from..to];
    assert forall n :: 0 <= n < |t| ==> t[n] == s[from + n];
    var tail, inner := s[i + 5..], t[k + 5..];
    assert |inner| <= |tail| && forall n :: 0 <= n < |inner| ==> tail[n] == inner[n];
    var r := Run(IsSpace, inner);
    if r < |inner| {
      RunExact(IsSpace, tail, r);
      assert s[i + 5 + r] == tail[r] && t[k + 5 + r] == inner[r];
    }
  }

  lemma QuietHere(s: string, from: nat, to: nat, i: nat)
    requires from <= i < to <= |s| && !MayOpen(s[from..to], i - from)
    ensures CheckOpenAt(s, i) == None
  {
    hide MayOpen, CheckWord;
    if CheckOpenAt(s, i).Some? {
      hide CheckOpenAt;
      if i - from + 5 <= to - from {
        QuietFar(s, from, to, i, i - from);
      } else {
        OpenIsWord(s, i);
        QuietNear(s, from, to, i, i - from);
      }
    }
  }

  lemma OpenIsWord(s: string, i: nat)
    requires i <= |s| && CheckOpenAt(s, i).Some?
    ensures CheckWord(s, i)
  {
  }

  /** No opening of the pattern starts in this stretch. */
  predicate NoOpen(s: string, from: nat, to: nat) {
    from <= to <= |s| && forall i :: from <= i < to ==> CheckOpenAt(s, i) == None
  }

  lemma QuietNoOpen(s: string, from: nat, to: nat)
    requires from <= to <= |s| && Quiet(s[from..to])
    ensures NoOpen(s, from, to)
  {
    hide CheckOpenAt, MayOpen;
    forall i | from <= i < to
      ensures CheckOpenAt(s, i) == None
    {
      assert !MayOpen(s[from..to], i - from);
      QuietHere(s, from, to, i);
    }
  }

  /** The search passes over a stretch in which nothing opens. */
  lemma {:induction false} NoOpenSkip(s: string, from: nat, to: nat, i: nat)
    requires NoOpen(s, from, to) && from <= i <= to
    ensures Checks(s, i) == Checks(s, to)
    decreases |s| - i
  {
    hide CheckOpenAt, ClauseAt, Checks;
    if i < to {
      assert CheckOpenAt(s, i) == None;
      NoMatchHere(s, i);
      NoOpenSkip(s, from, to, i + 1);
    }
  }

  /** The search passes over a quiet stretch of the text. */
  lemma QuietSkip(s: string, from: nat, to: nat, i: nat)
    requires from <= i <= to <= |s| && Quiet(s[from..to])
    ensures Checks(s, i) == Checks(s, to)
  {
    hide Quiet, NoOpen, Checks;
    QuietNoOpen(s, from, to);
    NoOpenSkip(s, from, to, i);
  }

  /** One CHECK of a table: the text before it, the keyword, whitespace, and the clause. */
  datatype Piece = Piece(gap: string, word: string, space: string, clause: string)

  function Render(ps: seq<Piece>, tail: string): string {
    if ps == [] then tail else RenderPiece(ps[0], Render(ps[1..], tail))
  }

  function RenderPiece(p: Piece, rest: string): string {
    p.gap + (p.word + (p.space + ("(" + (p.clause + (")" + rest)))))
  }

  function Clauses(ps: seq<Piece>): seq<string> {
    if ps == [] then [] else [ps[0].clause] + Clauses(ps[1..])
  }

  /** The keyword is one, stands alone, and nothing else in the piece looks like it. */
  ghost predicate GoodPiece(p: Piece) {
    && p.gap != "" && !IsWordChar(p.gap[|p.gap| - 1]) && Quiet(p.gap)
    && |p.word| == 5 && CheckWord(p.word, 0)
    && (forall i :: 0 <= i < |p.space| ==> IsSpace(p.space[i]))
    && Readable(p.clause) && Quiet(p.clause + ")")
  }

  lemma WordOpens(before: string, word: string, space: string, after: string)
    requires |word| == 5 && CheckWord(word, 0)
    requires forall i :: 0 <= i < |space| ==> IsSpace(space[i])
    ensures CheckOpenAt(before + (word + (space + ("(" + after))), |before|) == Some(|before| + 5 + |space|)
  {
    var s, at := before + (word + (space + ("(" + after))), |before|;
    assert forall k :: 0 <= k < 5 ==> s[at..][k] == word[k];
    assert s[at] == s[at..][0] && s[at + 1] == s[at..][1] && s[at + 2] == s[at..][2];
    assert s[at + 3] == s[at..][3] && s[at + 4] == s[at..][4];
    var tail := s[at + 5..];
    assert tail == space + ("(" + after);
    RunExact(IsSpace, tail, |space|);
    assert s[at + 5 + |space|] == tail[|space|];
  }

  lemma OpensAlone(s: string, before: string, body: string, at: nat, start: nat)
    requires s == before + body && before != "" && !IsWordChar(before[|before| - 1]) && at == |before|
    requires CheckOpenAt(before + body, |before|) == Some(start)
    ensures start < |s| && CheckMatch(s, at) == Some(start)
  {
    hide IsWordChar;
    assert s[at - 1] == before[|before| - 1];
  }

  lemma PieceOpens(s: string, pre: string, p: Piece, rest: string, at: nat, start: nat)
    requires s == pre + RenderPiece(p, rest) && GoodPiece(p)
    requires at == |pre| + |p.gap| && start == at + 5 + |p.space|
    ensures start < |s| && CheckMatch(s, at) == Some(start)
  {
    hide CheckMatch, CheckOpenAt, CheckWord, Quiet, Readable, IsWordChar, IsSpace;
    var before, after := pre + p.gap, p.clause + (")" + rest);
    WordOpens(before, p.word, p.space, after);
    var body := p.word + (p.space + ("(" + after));
    Associate(pre, p.gap, body);
    OpensAlone(s, before, body, at, start);
  }

  /** Where the parts of a piece lie. */
  lemma PieceParts(s: string, pre: string, p: Piece, rest: string, at: nat, start: nat, end: nat)
    requires s == pre + RenderPiece(p, rest) && |p.word| == 5
    requires at == |pre| + |p.gap| && start == at + 5 + |p.space| && end == start + 1 + |p.clause| + 1
    ensures start < end <= |s| && s[|pre|..at] == p.gap
    ensures s[start..] == "(" + (p.clause + (")" + rest)) && s[start + 1..end] == p.clause + ")"
  {
    var front, body := pre + (p.gap + (p.word + p.space)), "(" + (p.clause + (")" + rest));
    assert s == front + body && front[|pre|..at] == p.gap;
    assert body[1..|p.clause| + 2] == p.clause + ")";
    assert s[start..] == body && s[|pre|..at] == front[|pre|..at];
  }

  lemma FoundClause(s: string, at: nat, start: nat, clause: string, rest: string)
    requires at <= |s| && CheckMatch(s, at) == Some(start) && start < |s|
    requires s[start..] == "(" + (clause + (")" + rest)) && Readable(clause)
    ensures at < |s| && Checks(s, at) == [clause] + Checks(s, start + 1)
  {
    var body := "(" + (clause + (")" + rest));
    ClauseReadBack(clause, rest);
    assert body[1..|clause| + 1] == clause;
    hide DoubleEnd, Readable;
    assert ClauseAt(s, at) == [clause];
    SkipMatch(s, at, start, at + 1);
  }

  lemma GoodParts(p: Piece)
    requires GoodPiece(p)
    ensures |p.word| == 5 && Quiet(p.gap) && Readable(p.clause) && Quiet(p.clause + ")")
  {
  }

  lemma {:induction false} PieceReadBack(s: string, pre: string, p: Piece, rest: string, end: nat)
    requires s == pre + RenderPiece(p, rest) && GoodPiece(p)
    requires end == |pre| + |p.gap| + 5 + |p.space| + 1 + |p.clause| + 1
    ensures end <= |s| && Checks(s, |pre|) == [p.clause] + Checks(s, end)
  {
    var at := |pre| + |p.gap|;
    var start := at + 5 + |p.space|;
    GoodParts(p);
    PieceParts(s, pre, p, rest, at, start, end);
    PieceOpens(s, pre, p, rest, at, start);
    hide *;
    PieceFound(s, |pre|, at, start, end, p.clause, rest);
  }

  lemma PieceFound(s: string, from: nat, at: nat, start: nat, end: nat, clause: string, rest: string)
    requires from <= at <= start < end <= |s|
    requires Quiet(s[from..at]) && CheckMatch(s, at) == Some(start)
    requires s[start..] == "(" + (clause + (")" + rest)) && Readable(clause)
    requires Quiet(s[start + 1..end])
    ensures Checks(s, from) == [clause] + Checks(s, end)
  {
    hide *;
    QuietSkip(s, from, at, from);
    FoundClause(s, at, start, clause, rest);
    QuietSkip(s, start + 1, end, start + 1);
  }

  lemma PieceSplit(pre: string, p: Piece, rest: string)
    ensures pre + RenderPiece(p, rest) == (pre + RenderPiece(p, "")) + rest
    ensures |RenderPiece(p, "")| == |p.gap| + |p.word| + |p.space| + 1 + |p.clause| + 1
  {
    assert ")" + "" == ")";
    var f := p.gap + (p.word + (p.space + "("));
    assert RenderPiece(p, "") == f + (p.clause + ")");
    assert RenderPiece(p, rest) == f + ((p.clause + ")") + rest);
    Associate(f, p.clause + ")", rest);
    Associate(pre, RenderPiece(p, ""), rest);
  }

  /** Every clause of a rendered table comes back, in order, and nothing else does. */
  lemma {:induction false} TableFrom(pre: string, ps: seq<Piece>, tail: string)
    requires forall p :: p in ps ==> GoodPiece(p)
    requires Quiet(tail)
    ensures Checks(pre + Render(ps, tail), |pre|) == Clauses(ps)
    decreases |ps|
  {
    hide Checks, GoodPiece, Quiet, RenderPiece;
    if ps == [] {
      Exhausted(pre, tail);
    } else {
      var rest := Render(ps[1..], tail);
      var front := pre + RenderPiece(ps[0], "");
      GoodParts(ps[0]);
      PieceSplit(pre, ps[0], rest);
      PieceReadBack(pre + RenderPiece(ps[0], rest), pre, ps[0], rest, |front|);
      TableFrom(front, ps[1..], tail);
    }
  }

  lemma {:induction false} Exhausted(pre: string, tail: string)
    requires Quiet(tail)
    ensures Checks(pre + tail, |pre|) == []
  {
    var s := pre + tail;
    assert s[|pre|..|s|] == tail;
    QuietSkip(s, |pre|, |s|, |pre|);
  }

  lemma TableReadBack(ps: seq<Piece>, tail: string)
    requires forall p :: p in ps ==> GoodPiece(p)
    requires Quiet(tail)
    ensures Checks(Render(ps, tail), 0) == Clauses(ps)
  {
    TableFrom("", ps, tail);
    assert "" + Render(ps, tail) == Render(ps, tail);
  }

  // ---- The named check ----

  predicate SpacesBetween(s: string, i: nat, j: nat) {
    i < j <= |s| && forall k :: i <= k < j ==> IsSpace(s[k])
  }

  /** The lower-case word w stands at position i, in any case. */
  predicate WordAt(s: string, i: nat, w: string) {
    i + |w| <= |s| && Lower(s[i..i + |w|]) == w
  }

  /** Whitespace and then "check", whitespace and "(" from position i on. */
  predicate CheckAfter(s: string, i: nat) {
    exists j :: i < j <= |s| && SpacesBetween(s, i, j) && CheckOpenAt(s, j).Some?
  }

  predicate IsCloser(c: char) {
    c == '`' || c == '"' || c == ']'
  }

  predicate NameThenCheck(s: string, i: nat, name: string) {
    && WordAt(s, i, Lower(name))
    && var j := i + |name|;
      CheckAfter(s, j) || (j < |s| && IsCloser(s[j]) && CheckAfter(s, j + 1))
  }

  predicate OptionalQuoteThenName(s: string, i: nat, name: string) {
    NameThenCheck(s, i, name) || (i < |s| && IsOpening(s[i]) && NameThenCheck(s, i + 1, name))
  }

  /** The pattern for the check called `name` matches from position i on. */
  predicate NamedMatch(s: string, i: nat, name: string) {
    && WordAt(s, i, "constraint")
    && (exists j :: i + 10 < j <= |s| && SpacesBetween(s, i + 10, j) && OptionalQuoteThenName(s, j, name))
  }

  /** The clause cut out when the leftmost match of the pattern is at i. */
  function NamedClause(s: string, i: nat): Option<string>
    requires i <= |s|
  {
    var start := i + Find('(', s[i..]);
    if start == |s| then None
    else
      match ToggleEnd(s[start..], '(', 0, None)
      case None => None
      case Some(p) => if p > 0 then Some(s[start..][1..p]) else None
  }

  /** `re.search`: the clause at the first match from position i on. */
  function NamedFrom(s: string, i: nat, name: string): Option<string>
    requires i <= |s|
    decreases |s| - i
  {
    if NamedMatch(s, i, name) then NamedClause(s, i)
    else if i == |s| then None
    else NamedFrom(s, i + 1, name)
  }

  method ExtractNamedCheck(sql: string, name: string) returns (r: Option<string>)
    ensures r == NamedFrom(sql, 0, name)
  {
    hide NamedMatch, NamedClause;
    var i := 0;
    while i <= |sql| && !NamedMatch(sql, i, name)
      invariant 0 <= i <= |sql| + 1
      invariant i <= |sql| ==> NamedFrom(sql, 0, name) == NamedFrom(sql, i, name)
      invariant i > |sql| ==> NamedFrom(sql, 0, name) == None
    {
      i := i + 1;
    }
    if i > |sql| {
      return None;
    }
    r := ClauseFrom(sql, i);
  }

  /** The search passes over a stretch where nothing matches. */
  lemma {:induction false} NamedSkip(s: string, from: nat, to: nat, name: string)
    requires from <= to <= |s| && forall k :: from <= k < to ==> !NamedMatch(s, k, name)
    ensures NamedFrom(s, from, name) == NamedFrom(s, to, name)
    decreases |s| - from
  {
    hide NamedMatch, NamedClause;
    if from < to {
      NamedSkip(s, from + 1, to, name);
    }
  }

  /** The scan of `_extract_named_check`, from a match at i on. */
  method ClauseFrom(sql: string, i: nat) returns (r: Option<string>)
    requires i <= |sql|
    ensures r == NamedClause(sql, i)
  {
    var start := i + Find('(', sql[i..]);
    if start == |sql| {
      return None;
    }
    assert sql[start] == sql[i..][start - i];
    var close := ToggleScan(sql, start);
    if close.None? {
      return None;
    }
    StartsOpen(sql[start..]);
    hide ToggleEnd;
    assert sql[start..][1..close.value - start] == sql[start + 1..close.value];
    return Some(sql[start + 1..close.value]);
  }

  lemma StartsOpen(u: string)
    requires u != "" && u[0] == '('
    ensures ToggleEnd(u, '(', 0, None) != Some(0)
  {
  }

  /** What stands before the keyword of a named check: CONSTRAINT, whitespace, and the name, quoted or not. */
  datatype Lead = Lead(word: string, gap: string, open: string, name: string, close: string, space: string)

  function LeadText(l: Lead): string {
    l.word + (l.gap + (l.open + (l.name + (l.close + l.space))))
  }

  predicate Spaces(t: string) {
    t != "" && forall i :: 0 <= i < |t| ==> IsSpace(t[i])
  }

  predicate GoodLead(l: Lead) {
    && Lower(l.word) == "constraint" && Spaces(l.gap) && Spaces(l.space)
    && (l.open == "" || (|l.open| == 1 && IsOpening(l.open[0])))
    && (l.close == "" || (|l.close| == 1 && IsCloser(l.close[0])))
    && (forall i :: 0 <= i < |l.name| ==> l.name[i] != '(')
  }

  lemma SliceSplit(s: string, a: nat, m: nat, b: nat, x: string, y: string)
    requires a <= b <= |s| && s[a..b] == x + y && m == a + |x|
    ensures m <= b && s[a..m] == x && s[m..b] == y
  {
    var t := s[a..b];
    assert t[..|x|] == x && t[|x|..] == y;
  }

  /** The places where the parts of a lead begin. */
  lemma LeadAt(s: string, at: nat, l: Lead, g: nat, o: nat, n: nat, q: nat, w: nat, c: nat)
    requires g == at + |l.word| && o == g + |l.gap| && n == o + |l.open| && q == n + |l.name|
    requires w == q + |l.close| && c == w + |l.space|
    requires c <= |s| && s[at..c] == LeadText(l)
    ensures s[at..g] == l.word && s[g..o] == l.gap && s[o..n] == l.open
    ensures s[n..q] == l.name && s[q..w] == l.close && s[w..c] == l.space
  {
    SliceSplit(s, at, g, c, l.word, l.gap + (l.open + (l.name + (l.close + l.space))));
    SliceSplit(s, g, o, c, l.gap, l.open + (l.name + (l.close + l.space)));
    SliceSplit(s, o, n, c, l.open, l.name + (l.close + l.space));
    SliceSplit(s, n, q, c, l.name, l.close + l.space);
    SliceSplit(s, q, w, c, l.close, l.space);
  }

  lemma SpacesThere(s: string, i: nat, j: nat)
    requires i <= j <= |s| && Spaces(s[i..j])
    ensures SpacesBetween(s, i, j)
  {
    assert forall k :: i <= k < j ==> s[k] == s[i..j][k - i];
  }

  lemma LeadLength(l: Lead)
    ensures |LeadText(l)| == |l.word| + |l.gap| + |l.open| + |l.name| + |l.close| + |l.space|
  {
  }

  lemma NameThen(s: string, n: nat, q: nat, w: nat, name: string)
    requires n <= q <= w <= |s| && Lower(s[n..q]) == Lower(name) && CheckAfter(s, w)
    requires w == q || (w == q + 1 && IsCloser(s[q]))
    ensures NameThenCheck(s, n, name)
  {
    hide CheckAfter, Lower, IsCloser;
    LowerLength(s[n..q]);
    LowerLength(name);
    assert n + |name| == q;
    assert WordAt(s, n, Lower(name));
  }

  lemma OpenThen(s: string, o: nat, n: nat, name: string)
    requires n <= |s| && NameThenCheck(s, n, name)
    requires n == o || (n == o + 1 && IsOpening(s[o]))
    ensures OptionalQuoteThenName(s, o, name)
  {
    hide NameThenCheck, IsOpening;
  }

  lemma OneCharacter(s: string, i: nat, j: nat, t: string)
    requires i <= j <= |s| && s[i..j] == t && |t| == 1
    ensures j == i + 1 && s[i] == t[0]
  {
  }

  lemma NameMatches(s: string, o: nat, n: nat, q: nat, w: nat, l: Lead, name: string)
    requires o <= n <= q <= w <= |s| && GoodLead(l) && Lower(l.name) == Lower(name)
    requires s[o..n] == l.open && s[n..q] == l.name && s[q..w] == l.close && CheckAfter(s, w)
    ensures OptionalQuoteThenName(s, o, name)
  {
    hide CheckAfter, Lower, IsCloser, IsOpening, Spaces, OptionalQuoteThenName, NameThenCheck;
    if l.close != "" {
      OneCharacter(s, q, w, l.close);
    }
    if l.open != "" {
      OneCharacter(s, o, n, l.open);
    }
    NameThen(s, n, q, w, name);
    OpenThen(s, o, n, name);
  }

  /** A lead in front of a check is a match of the pattern, for every spelling of its name. */
  lemma LeadMatches(s: string, at: nat, l: Lead, c: nat, name: string)
    requires at <= c <= |s| && s[at..c] == LeadText(l) && GoodLead(l)
    requires Lower(l.name) == Lower(name) && CheckOpenAt(s, c).Some?
    ensures NamedMatch(s, at, name)
  {
    var g := at + |l.word|;
    var o := g + |l.gap|;
    var n := o + |l.open|;
    var q := n + |l.name|;
    var w := q + |l.close|;
    LeadLength(l);
    LeadAt(s, at, l, g, o, n, q, w, c);
    hide CheckOpenAt, Lower, OptionalQuoteThenName, LeadText;
    LowerLength(l.word);
    SpacesThere(s, g, o);
    SpacesThere(s, w, c);
    assert CheckAfter(s, w);
    NameMatches(s, o, n, q, w, l, name);
    assert g == at + 10 && WordAt(s, at, "constraint");
  }

  lemma LowerLength(t: string)
    ensures |Lower(t)| == |t|
  {
  }

  predicate NoParen(t: string) {
    forall i :: 0 <= i < |t| ==> t[i] != '('
  }

  lemma JoinNoParen(x: string, y: string)
    requires NoParen(x) && NoParen(y)
    ensures NoParen(x + y)
  {
  }

  lemma LiteralNoParen()
    ensures NoParen("constraint")
  {
  }

  lemma LowerNoParen(w: string, low: string)
    requires Lower(w) == low && NoParen(low)
    ensures NoParen(w)
  {
    LowerLength(w);
    forall i | 0 <= i < |w|
      ensures w[i] != '('
    {
      assert low[i] == LowerChar(w[i]);
    }
  }

  lemma SmallNoParen(l: Lead)
    requires GoodLead(l)
    ensures NoParen(l.gap) && NoParen(l.space) && NoParen(l.open) && NoParen(l.close) && NoParen(l.name)
  {
    hide Lower;
  }

  /** The first parenthesis after a lead is the one of its check. */
  lemma LeadHasNoParen(l: Lead)
    requires GoodLead(l)
    ensures NoParen(LeadText(l))
  {
    SmallNoParen(l);
    LiteralNoParen();
    LowerNoParen(l.word, "constraint");
    hide NoParen, GoodLead, Lower;
    JoinNoParen(l.close, l.space);
    JoinNoParen(l.name, l.close + l.space);
    JoinNoParen(l.open, l.name + (l.close + l.space));
    JoinNoParen(l.gap, l.open + (l.name + (l.close + l.space)));
    JoinNoParen(l.word, l.gap + (l.open + (l.name + (l.close + l.space))));
  }

  lemma FindIs(c: char, t: string, n: nat)
    requires n < |t| && t[n] == c && forall i :: 0 <= i < n ==> t[i] != c
    ensures Find(c, t) == n
  {
    assert Find(c, t) < |t|;
  }

  lemma ParenAfterLead(s: string, at: nat, l: Lead, c: nat, start: nat)
    requires at <= c <= |s| && s[at..c] == LeadText(l) && GoodLead(l) && CheckOpenAt(s, c) == Some(start)
    ensures at + Find('(', s[at..]) == start
  {
    LeadHasNoParen(l);
    forall i | at <= i < start
      ensures s[i] != '('
    {
      if i < c {
        assert s[i] == LeadText(l)[i - at];
      } else if i > c {
        InsideMatch(s, c, start, i);
      }
    }
    hide CheckOpenAt, GoodLead, LeadText;
    var t := s[at..];
    assert forall i :: 0 <= i < |t| ==> t[i] == s[at + i];
    FindIs('(', t, start - at);
  }

  /** A named check that stands in a text is matched there, and its clause is cut out whole. */
  lemma NamedThere(s: string, at: nat, l: Lead, c: nat, start: nat, clause: string, rest: string, name: string)
    requires at <= c <= |s| && s[at..c] == LeadText(l) && GoodLead(l) && Lower(l.name) == Lower(name)
    requires CheckOpenAt(s, c) == Some(start) && s[start..] == "(" + (clause + (")" + rest)) && Readable(clause)
    ensures NamedMatch(s, at, name) && NamedClause(s, at) == Some(clause)
  {
    hide NamedMatch, CheckOpenAt, GoodLead, LeadText, Readable, Lower;
    LeadMatches(s, at, l, c, name);
    ParenAfterLead(s, at, l, c, start);
    ClauseReadBack(clause, rest);
    hide ToggleEnd;
    assert s[start..][1..|clause| + 1] == clause;
  }

  /**
    A named check written into the text of a table, with any whitespace, quoting and case, is
    matched where it stands, and it is the one extracted unless something matches before it.
   */
  lemma NamedReadBack(pre: string, l: Lead, word: string, space: string, clause: string, post: string, name: string)
    requires GoodLead(l) && Lower(l.name) == Lower(name)
    requires |word| == 5 && CheckWord(word, 0) && Readable(clause)
    requires forall i :: 0 <= i < |space| ==> IsSpace(space[i])
    ensures var s := (pre + LeadText(l)) + (word + (space + ("(" + (clause + (")" + post)))));
      && NamedMatch(s, |pre|, name)
      && ((forall k :: 0 <= k < |pre| ==> !NamedMatch(s, k, name)) ==> NamedFrom(s, 0, name) == Some(clause))
  {
    hide NamedMatch, NamedClause, CheckOpenAt, GoodLead, LeadText, Readable, Lower, CheckWord;
    var body, c := "(" + (clause + (")" + post)), |pre| + |LeadText(l)|;
    var s := (pre + LeadText(l)) + (word + (space + body));
    WordOpens(pre + LeadText(l), word, space, clause + (")" + post));
    assert s[|pre|..c] == LeadText(l);
    assert (pre + LeadText(l)) + (word + (space + body)) == ((pre + LeadText(l)) + (word + space)) + body;
    assert s[c + 5 + |space|..] == body;
    NamedThere(s, |pre|, l, c, c + 5 + |space|, clause, post, name);
    if forall k :: 0 <= k < |pre| ==> !NamedMatch(s, k, name) {
      NamedSkip(s, 0, |pre|, name);
    }
  }

  // ---- What a match of the named pattern needs ----

  predicate IsBarrier(c: char) {
    c == '(' || c == ')' || c == ','
  }

  /** The name lies between a quote or a space and an optional quote and spaces before the check at j. */
  predicate NameLies(s: string, name: string, b: nat, e: nat, j: nat) {
    && 0 < b && e == b + |name| && e < j < |s| && WordAt(s, b, Lower(name))
    && (IsSpace(s[b - 1]) || IsOpening(s[b - 1]))
    && (SpacesBetween(s, e, j) || (IsCloser(s[e]) && SpacesBetween(s, e + 1, j)))
  }

  lemma LowerAt(x: string, y: string, i: nat)
    requires Lower(x) == Lower(y) && i < |x|
    ensures i < |y| && LowerChar(x[i]) == LowerChar(y[i])
  {
    LowerLength(x);
    LowerLength(y);
    assert Lower(x)[i] == Lower(y)[i];
  }

  lemma LowerIdent(c: char, d: char)
    requires LowerChar(c) == LowerChar(d) && IsIdentPart(d)
    ensures IsIdentPart(c)
  {
  }

  lemma WordIs(s: string, b: nat, w: string)
    requires WordAt(s, b, w)
    ensures b + |w| <= |s| && Lower(s[b..b + |w|]) == w
  {
  }

  lemma NoBarrierInName(s: string, b: nat, name: string, i: nat)
    requires WordAt(s, b, Lower(name)) && IsIdentifier(name) && b <= i < b + |name|
    ensures i < |s| && IsIdentPart(s[i])
  {
    hide *;
    LowerLength(name);
    WordIs(s, b, Lower(name));
    LowerAt(s[b..b + |name|], name, i - b);
    IdentParts(name, i - b);
    LowerIdent(s[i], name[i - b]);
  }

  lemma IdentParts(name: string, i: nat)
    requires IsIdentifier(name) && i < |name|
    ensures IsIdentPart(name[i])
  {
  }

  lemma CheckReaches(s: string, e: nat) returns (j: nat)
    requires CheckAfter(s, e)
    ensures e < j < |s| && SpacesBetween(s, e, j) && CheckOpenAt(s, j).Some?
    ensures forall i :: e <= i < j ==> !IsBarrier(s[i])
  {
    hide CheckOpenAt;
    j :| e < j <= |s| && SpacesBetween(s, e, j) && CheckOpenAt(s, j).Some?;
  }

  lemma NameReaches(s: string, b: nat, name: string) returns (e: nat, j: nat)
    requires 0 < b <= |s| && NameThenCheck(s, b, name) && IsIdentifier(name)
    requires IsSpace(s[b - 1]) || IsOpening(s[b - 1])
    ensures NameLies(s, name, b, e, j) && CheckOpenAt(s, j).Some?
    ensures forall i :: b <= i < j ==> !IsBarrier(s[i])
  {
    hide CheckOpenAt, CheckAfter, Lower, IsIdentifier, IsSpace, IsOpening, SpacesBetween, WordAt;
    LowerLength(name);
    e := b + |name|;
    if CheckAfter(s, e) {
      j := CheckReaches(s, e);
    } else {
      j := CheckReaches(s, e + 1);
    }
    forall i | b <= i < e
      ensures !IsBarrier(s[i])
    {
      NoBarrierInName(s, b, name, i);
    }
  }

  /** Every match reaches an opening of the check pattern without crossing a parenthesis or a comma. */
  lemma MatchReaches(s: string, k: nat, name: string) returns (b: nat, e: nat, j: nat)
    requires k <= |s| && NamedMatch(s, k, name) && IsIdentifier(name)
    ensures k + 10 < b && NameLies(s, name, b, e, j) && CheckOpenAt(s, j).Some?
    ensures WordAt(s, k, "constraint") && IsSpace(s[k + 10])
    ensures forall i :: k <= i < j ==> !IsBarrier(s[i])
  {
    hide CheckOpenAt, NameThenCheck, NameLies;
    var o :| k + 10 < o <= |s| && SpacesBetween(s, k + 10, o) && OptionalQuoteThenName(s, o, name);
    b := if NameThenCheck(s, o, name) then o else o + 1;
    e, j := NameReaches(s, b, name);
    forall i | k <= i < k + 10
      ensures !IsBarrier(s[i])
    {
      assert s[i] == s[k..k + 10][i - k] && LowerChar(s[i]) == "constraint"[i - k];
    }
  }
}
