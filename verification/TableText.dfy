/**
  The SQL text SQLite keeps of a table, as the definitions between its parentheses, and what
  the two extractions read out of it (bfg2/bfg/core/migration_operations.py, lines 403-463).
  They find exactly the CHECKs of the definitions when nothing else in the text reads like one
  (`ChecksRead`, `NamedRead`).  `SchemaText` says what happens when something else does.
 */
module TableText {
  import opened Wrappers
  import opened SqlLexer
  import opened CheckScan
  import opened CheckExtract

  /** A column or other definition, perhaps with a CHECK in it, or a constraint CHECK of its own. */
  datatype Part =
    | Item(before: string, check: Option<string>, after: string)
    | NamedCheck(name: string, clause: string)

  datatype Text = Text(head: string, parts: seq<Part>)

  function LeadOf(name: string): Lead {
    Lead("CONSTRAINT", " ", "\"", name, "\"", " ")
  }

  function Checked(lead: string, clause: string, after: string): string {
    lead + ("CHECK" + (" " + ("(" + (clause + (")" + after)))))
  }

  function PartText(p: Part): string {
    match p
    case Item(before, check, after) => if check.Some? then Checked(before + " ", check.value, after) else before + after
    case NamedCheck(name, clause) => Checked(LeadText(LeadOf(name)), clause, "")
  }

  function Rest(sep: string, ps: seq<Part>): string
    decreases |ps|
  {
    if ps == [] then ")" else sep + (PartText(ps[0]) + Rest(", ", ps[1..]))
  }

  function Sql(t: Text): string {
    t.head + Rest("(", t.parts)
  }

  function ClauseOf(p: Part): Option<string> {
    match p
    case Item(_, check, _) => check
    case NamedCheck(_, clause) => Some(clause)
  }

  function PartClauses(ps: seq<Part>): seq<string> {
    if ps == [] then [] else (if ClauseOf(ps[0]).Some? then [ClauseOf(ps[0]).value] else []) + PartClauses(ps[1..])
  }

  predicate Names(p: Part, name: string) {
    p.NamedCheck? && Lower(p.name) == Lower(name)
  }

  function FirstNamed(ps: seq<Part>, name: string): Option<string> {
    if ps == [] then None else if Names(ps[0], name) then Some(ps[0].clause) else FirstNamed(ps[1..], name)
  }

  // ---- Texts in which only a CHECK reads like one ----

  ghost predicate GoodClause(clause: string) {
    Readable(clause) && Quiet(clause + ")")
  }

  /** No "constraint" and whitespace stand in the text in front of a check without a name. */
  predicate Anonymous(lead: string) {
    forall i :: 0 <= i < |lead| ==> !MayName(lead, i)
  }

  predicate MayName(lead: string, i: nat)
    requires i < |lead|
  {
    i + 10 < |lead| && WordAt(lead, i, "constraint") && IsSpace(lead[i + 10])
  }

  ghost predicate GoodPart(p: Part) {
    match p
    case Item(before, check, after) =>
      && Quiet(before) && Quiet(after) && (check.Some? ==> GoodClause(check.value) && Anonymous(before + " "))
    case NamedCheck(name, clause) => IsIdentifier(name) && GoodClause(clause)
  }

  ghost predicate GoodText(t: Text) {
    Quiet(t.head) && forall p :: p in t.parts ==> GoodPart(p)
  }

  // ---- Where the pieces of a definition stand ----

  /** A checked definition lies at `at`, with its check at c, its clause between start and close. */
  ghost predicate Lies(s: string, at: nat, lead: string, clause: string, after: string,
                       c: nat, start: nat, close: nat, end: nat) {
    && c == at + |lead| && start == c + 6 && close == start + 1 + |clause| && end == close + 1 + |after| && end <= |s|
    && s[at..c] == lead && CheckOpenAt(s, c) == Some(start)
    && s[start..] == "(" + (clause + (")" + s[close + 1..]))
    && s[start + 1..close + 1] == clause + ")" && s[close + 1..end] == after
    && s[start] == '(' && s[close] == ')'
  }

  lemma CutAt(s: string, at: nat, end: nat, x: string, y: string)
    requires at <= end <= |s| && s[at..end] == x + y
    ensures at + |x| <= end && s == (s[..at] + x) + s[at + |x|..]
    ensures s[at..at + |x|] == x && s[at + |x|..end] == y && s[at + |x|..] == y + s[end..]
  {
    SliceSplit(s, at, at + |x|, end, x, y);
    assert s == s[..at] + s[at..at + |x|] + s[at + |x|..];
    assert s[at + |x|..] == s[at + |x|..end] + s[end..];
  }

  lemma CheckedOpens(s: string, c: nat, tail: string)
    requires c <= |s| && s[c..] == "CHECK" + (" " + ("(" + tail))
    ensures CheckOpenAt(s, c) == Some(c + 6) && s[c + 6..] == "(" + tail
  {
    assert s == s[..c] + ("CHECK" + (" " + ("(" + tail)));
    WordOpens(s[..c], "CHECK", " ", tail);
    var t := s[c..];
    assert t[6..] == "(" + tail;
  }

  lemma Reopened(clause: string, after: string, out: string)
    ensures ("CHECK" + (" " + ("(" + (clause + (")" + after))))) + out
      == "CHECK" + (" " + ("(" + (clause + (")" + (after + out)))))
  {
  }

  lemma CheckedLies(s: string, at: nat, lead: string, clause: string, after: string, end: nat)
    requires at <= end <= |s| && s[at..end] == Checked(lead, clause, after)
    ensures var c := at + |lead|; Lies(s, at, lead, clause, after, c, c + 6, c + 7 + |clause|, end)
  {
    var c := at + |lead|;
    var inner, out := "(" + (clause + (")" + after)), s[end..];
    CutAt(s, at, end, lead, "CHECK" + (" " + inner));
    var tail := clause + (")" + (after + out));
    Reopened(clause, after, out);
    hide CheckOpenAt, Checked;
    CheckedOpens(s, c, tail);
    TailParts(s, c + 6, clause, after, out, c + 7 + |clause|, end);
  }

  lemma TailParts(s: string, start: nat, clause: string, after: string, out: string, close: nat, end: nat)
    requires start <= |s| && s[start..] == "(" + (clause + (")" + (after + out)))
    requires close == start + 1 + |clause| && end == close + 1 + |after|
    ensures end <= |s| && s[close + 1..] == after + out && s[close + 1..end] == after
    ensures s[start] == '(' && s[close] == ')' && s[start + 1..close + 1] == clause + ")"
  {
    var t := s[start..];
    assert t[1 + |clause|] == ')' && t[1..1 + |clause| + 1] == clause + ")";
    assert t[1 + |clause| + 1..] == after + out;
    assert s[close + 1..] == t[1 + |clause| + 1..];
    assert (after + out)[..|after|] == after;
  }

  // ---- Nothing but the checks opens ----

  lemma NotC(s: string, i: nat)
    requires i < |s| && LowerChar(s[i]) != 'c'
    ensures CheckOpenAt(s, i) == None
  {
  }

  lemma NoOpenJoin(s: string, a: nat, b: nat, c: nat)
    requires NoOpen(s, a, b) && NoOpen(s, b, c)
    ensures NoOpen(s, a, c)
  {
  }

  lemma BlankLeadQuiet(s: string, at: nat, before: string, c: nat)
    requires c <= |s| && c == at + |before| + 1 && s[at..c] == before + " " && Quiet(before)
    ensures NoOpen(s, at, c)
  {
    SliceSplit(s, at, at + |before|, c, before, " ");
    QuietNoOpen(s, at, c - 1);
    OneCharacter(s, c - 1, c, " ");
    NotC(s, c - 1);
    hide CheckOpenAt, Quiet;
  }

  /** Where the characters of `CONSTRAINT "n" ` stand. */
  lemma LeadChars(s: string, at: nat, n: string, c: nat)
    requires at <= c <= |s| && s[at..c] == LeadText(LeadOf(n))
    ensures c == at + 14 + |n| && s[at..at + 10] == "CONSTRAINT" && s[at + 10] == ' ' && s[at + 11] == '"'
    ensures s[at + 12..c - 2] == n && s[c - 2] == '"' && s[c - 1] == ' '
  {
    var l := LeadOf(n);
    LeadLength(l);
    LeadAt(s, at, l, at + 10, at + 11, at + 12, at + 12 + |n|, at + 13 + |n|, c);
    OneCharacter(s, at + 10, at + 11, " ");
    OneCharacter(s, at + 11, at + 12, "\"");
    OneCharacter(s, c - 2, c - 1, "\"");
    OneCharacter(s, c - 1, c, " ");
  }

  lemma IdentAt(s: string, a: nat, b: nat, n: string, i: nat)
    requires a <= i < b <= |s| && s[a..b] == n && IsIdentifier(n)
    ensures IsIdentPart(s[i])
  {
    IdentParts(n, i - a);
    assert s[i] == n[i - a];
  }

  /** Inside a quoted name the keyword is followed by more of the name or by its quote. */
  lemma NameNoOpen(s: string, i: nat, q: nat)
    requires i < q < |s| && s[q] == '"' && forall k :: i <= k < q ==> IsIdentPart(s[k])
    ensures CheckOpenAt(s, i) == None
  {
    if CheckWord(s, i) {
      if i + 5 <= q {
        assert s[i + 5..][0] == s[i + 5] && !IsSpace(s[i + 5]);
      }
    }
  }

  lemma WordNoOpen(s: string, at: nat, i: nat)
    requires at <= i < at + 10 <= |s| && s[at..at + 10] == "CONSTRAINT"
    ensures CheckOpenAt(s, i) == None
  {
    assert s[i] == "CONSTRAINT"[i - at];
    if i == at {
      assert s[at + 1] == "CONSTRAINT"[1];
    }
  }

  lemma NamedLeadQuiet(s: string, at: nat, n: string, c: nat)
    requires at <= c <= |s| && s[at..c] == LeadText(LeadOf(n)) && IsIdentifier(n)
    ensures NoOpen(s, at, c)
  {
    LeadChars(s, at, n, c);
    hide CheckOpenAt, LeadText, IsIdentifier, IsIdentPart;
    forall i | at <= i < c
      ensures CheckOpenAt(s, i) == None
    {
      if i < at + 10 {
        WordNoOpen(s, at, i);
      } else if at + 12 <= i < c - 2 {
        forall k | i <= k < c - 2
          ensures IsIdentPart(s[k])
        {
          IdentAt(s, at + 12, c - 2, n, k);
        }
        NameNoOpen(s, i, c - 2);
      } else {
        NotC(s, i);
      }
    }
  }

  // ---- The clauses that are read ----

  lemma CheckedRead(s: string, at: nat, lead: string, clause: string, after: string,
                    c: nat, start: nat, close: nat, end: nat)
    requires Lies(s, at, lead, clause, after, c, start, close, end) && lead != "" && lead[|lead| - 1] == ' '
    requires NoOpen(s, at, c) && GoodClause(clause) && Quiet(after)
    ensures Checks(s, at) == [clause] + Checks(s, end)
  {
    hide CheckOpenAt, Quiet, Readable, Checks;
    NoOpenSkip(s, at, c, at);
    assert s[c - 1] == s[at..c][|lead| - 1];
    assert CheckMatch(s, c) == Some(start);
    FoundClause(s, c, start, clause, s[close + 1..]);
    QuietSkip(s, start + 1, close + 1, start + 1);
    QuietSkip(s, close + 1, end, close + 1);
  }

  lemma CheckedItemRead(s: string, at: nat, before: string, clause: string, after: string, end: nat)
    requires at <= end <= |s| && s[at..end] == Checked(before + " ", clause, after)
    requires Quiet(before) && Quiet(after) && GoodClause(clause)
    ensures Checks(s, at) == [clause] + Checks(s, end)
  {
    hide *;
    var c := at + |before| + 1;
    CheckedLies(s, at, before + " ", clause, after, end);
    LeadLies(s, at, before + " ", clause, after, c, c + 6, c + 7 + |clause|, end);
    BlankLeadQuiet(s, at, before, c);
    CheckedRead(s, at, before + " ", clause, after, c, c + 6, c + 7 + |clause|, end);
  }

  lemma NamedItemRead(s: string, at: nat, name: string, clause: string, end: nat)
    requires at <= end <= |s| && s[at..end] == Checked(LeadText(LeadOf(name)), clause, "")
    requires IsIdentifier(name) && GoodClause(clause)
    ensures Checks(s, at) == [clause] + Checks(s, end)
  {
    hide *;
    var lead := LeadText(LeadOf(name));
    var c := at + |lead|;
    CheckedLies(s, at, lead, clause, "", end);
    LeadLies(s, at, lead, clause, "", c, c + 6, c + 7 + |clause|, end);
    NamedLeadQuiet(s, at, name, c);
    LeadEnds(name);
    EmptyQuiet();
    CheckedRead(s, at, lead, clause, "", c, c + 6, c + 7 + |clause|, end);
  }

  lemma PlainItemRead(s: string, at: nat, before: string, after: string, end: nat)
    requires at <= end <= |s| && s[at..end] == before + after && Quiet(before) && Quiet(after)
    ensures NoOpen(s, at, end) && Checks(s, at) == Checks(s, end)
  {
    hide *;
    SliceSplit(s, at, at + |before|, end, before, after);
    QuietNoOpen(s, at, at + |before|);
    QuietNoOpen(s, at + |before|, end);
    NoOpenJoin(s, at, at + |before|, end);
    NoOpenSkip(s, at, end, at);
  }

  lemma PartRead(s: string, at: nat, p: Part, end: nat)
    requires at <= end <= |s| && s[at..end] == PartText(p) && GoodPart(p)
    ensures Checks(s, at) == (if ClauseOf(p).Some? then [ClauseOf(p).value] else []) + Checks(s, end)
  {
    hide Checks, Quiet, GoodClause, LeadText, Checked, Anonymous, IsIdentifier;
    match p
    case Item(before, check, after) =>
      if check.Some? {
        CheckedItemRead(s, at, before, check.value, after, end);
      } else {
        PlainItemRead(s, at, before, after, end);
        assert [] + Checks(s, end) == Checks(s, end);
      }
    case NamedCheck(name, clause) => NamedItemRead(s, at, name, clause, end);
  }

  lemma LeadLies(s: string, at: nat, lead: string, clause: string, after: string,
                 c: nat, start: nat, close: nat, end: nat)
    requires Lies(s, at, lead, clause, after, c, start, close, end)
    ensures at <= c <= |s| && s[at..c] == lead
  {
  }

  lemma EmptyQuiet()
    ensures Quiet("") && Quiet("(") && Quiet(", ") && Quiet(")")
  {
  }

  lemma LeadEnds(name: string)
    ensures var lead := LeadText(LeadOf(name)); lead != "" && lead[|lead| - 1] == ' '
  {
    var lead := LeadText(LeadOf(name));
    assert lead[0..|lead|] == lead;
    LeadChars(lead, 0, name, |lead|);
  }

  // ---- The named check that is read ----

  lemma BarrierStops(s: string, k: nat, name: string)
    requires k < |s|
    ensures NamedMatch(s, k, name) ==> !IsBarrier(s[k])
  {
    if NamedMatch(s, k, name) {
      WordIs(s, k, "constraint");
      assert s[k] == s[k..k + 10][0] && Lower(s[k..k + 10])[0] == LowerChar(s[k]);
    }
  }

  /** A match cannot cross a barrier, so where nothing opens before one there is none. */
  lemma NothingBefore(s: string, k: nat, to: nat, name: string)
    requires k < to < |s| && NoOpen(s, k + 1, to) && IsBarrier(s[to]) && IsIdentifier(name)
    ensures !NamedMatch(s, k, name)
  {
    hide CheckOpenAt, NamedMatch, IsIdentifier;
    if NamedMatch(s, k, name) {
      var b, e, j := MatchReaches(s, k, name);
      NotC(s, to);
      assert false;
    }
  }

  /** A match that ends before the check at c, whose parenthesis is at start, is one for this check. */
  lemma ReachesCheck(s: string, k: nat, c: nat, start: nat, name: string) returns (b: nat, e: nat)
    requires k < c < start < |s| && NoOpen(s, k, c) && CheckOpenAt(s, c) == Some(start) && s[start] == '('
    requires NamedMatch(s, k, name) && IsIdentifier(name)
    ensures k + 10 < b && NameLies(s, name, b, e, c)
    ensures WordAt(s, k, "constraint") && IsSpace(s[k + 10])
  {
    hide CheckOpenAt, NamedMatch, IsIdentifier, WordAt, SpacesBetween;
    var j;
    b, e, j := MatchReaches(s, k, name);
    if c < j {
      if j <= start {
        InsideMatch(s, c, start, j);
      }
    }
  }

  lemma InsideNoOpen(s: string, c: nat, start: nat)
    requires c < start < |s| && CheckOpenAt(s, c) == Some(start)
    ensures NoOpen(s, c + 1, start)
  {
    forall i | c + 1 <= i < start
      ensures CheckOpenAt(s, i) == None
    {
      InsideMatch(s, c, start, i);
    }
  }

  /** From its check on, a definition holds no match. */
  lemma NothingAfterCheck(s: string, at: nat, lead: string, clause: string, after: string,
                          c: nat, start: nat, close: nat, end: nat, name: string)
    requires Lies(s, at, lead, clause, after, c, start, close, end) && GoodClause(clause) && Quiet(after)
    requires end < |s| && IsBarrier(s[end]) && IsIdentifier(name)
    ensures forall k :: c <= k < end ==> !NamedMatch(s, k, name)
  {
    hide CheckOpenAt, Quiet, Readable, NamedMatch, IsIdentifier;
    InsideNoOpen(s, c, start);
    QuietNoOpen(s, start + 1, close + 1);
    QuietNoOpen(s, close + 1, end);
    forall k | c <= k < end
      ensures !NamedMatch(s, k, name)
    {
      if k == start || k == close {
        BarrierStops(s, k, name);
      } else if k < start {
        NothingBefore(s, k, start, name);
      } else if k < close {
        NothingBefore(s, k, close, name);
      } else {
        NothingBefore(s, k, end, name);
      }
    }
  }

  lemma SubSlice(s: string, a: nat, c: nat, x: nat, y: nat, p: nat, q: nat)
    requires a <= c <= |s| && x <= y <= c - a && p == a + x && q == a + y
    ensures s[a..c][x..y] == s[p..q]
  {
    var t, u, v := s[a..c], s[a..c][x..y], s[p..q];
    assert |u| == |v|;
    forall m | 0 <= m < |u|
      ensures u[m] == v[m]
    {
      assert u[m] == t[x + m] && v[m] == s[p + m];
    }
  }

  lemma WordInside(s: string, at: nat, c: nat, lead: string, k: nat)
    requires at <= k && k + 10 < c <= |s| && s[at..c] == lead && WordAt(s, k, "constraint") && IsSpace(s[k + 10])
    ensures !Anonymous(lead)
  {
    hide Lower;
    var i, w := k - at, "constraint";
    assert |w| == 10 && i + 10 < |lead|;
    WordIs(s, k, w);
    SubSlice(s, at, c, i, i + 10, k, k + 10);
    SubSlice(s, at, c, i + 10, i + 11, k + 10, k + 11);
    assert lead[i + 10] == lead[i + 10..i + 11][0];
    assert MayName(lead, i);
  }

  /** No name stands in front of an anonymous check. */
  lemma AnonymousUnmatched(s: string, at: nat, lead: string, c: nat, start: nat, k: nat, name: string)
    requires at <= k < c < start < |s| && s[at..c] == lead && Anonymous(lead)
    requires NoOpen(s, at, c) && CheckOpenAt(s, c) == Some(start) && s[start] == '(' && IsIdentifier(name)
    ensures !NamedMatch(s, k, name)
  {
    hide CheckOpenAt, NamedMatch, IsIdentifier, WordAt;
    if NamedMatch(s, k, name) {
      var b, e := ReachesCheck(s, k, c, start, name);
      WordInside(s, at, c, lead, k);
    }
  }

  lemma NameEnds(s: string, name: string, b: nat, e: nat, q: nat, c: nat)
    requires NameLies(s, name, b, e, c) && IsIdentifier(name)
    requires c == q + 2 && s[q] == '"' && s[q + 1] == ' '
    ensures e == q
  {
    hide Lower, IsIdentPart;
    LowerLength(name);
    assert b <= e - 1 < b + |name|;
    NoBarrierInName(s, b, name, e - 1);
    NotIdent();
  }

  lemma NameBegins(s: string, name: string, b: nat, p: nat, q: nat, n: string)
    requires 0 < b < q && 0 < p <= q < |s| && q == b + |name| && WordAt(s, b, Lower(name)) && IsIdentifier(name)
    requires IsSpace(s[b - 1]) || IsOpening(s[b - 1])
    requires s[p - 1] == '"' && s[p..q] == n && IsIdentifier(n)
    ensures b == p
  {
    hide WordAt, Lower, IsIdentPart, IsIdentifier;
    NotIdent();
    if b < p {
      NoBarrierInName(s, b, name, p - 1);
    } else if p < b {
      IdentAt(s, p, q, n, b - 1);
    }
  }

  /** The only name in front of a named check is its own. */
  lemma OwnName(s: string, at: nat, n: string, c: nat, name: string, b: nat, e: nat)
    requires at <= c <= |s| && s[at..c] == LeadText(LeadOf(n)) && IsIdentifier(n) && IsIdentifier(name)
    requires at + 10 < b && NameLies(s, name, b, e, c)
    ensures Lower(n) == Lower(name)
  {
    LeadChars(s, at, n, c);
    LowerLength(name);
    assert |name| > 0;
    hide LeadText, Lower, IsIdentPart, IsIdentifier, WordAt;
    NameEnds(s, name, b, e, c - 2, c);
    NameBegins(s, name, b, at + 12, c - 2, n);
    WordIs(s, b, Lower(name));
  }

  lemma NotIdent()
    ensures forall c :: IsSpace(c) || IsOpening(c) || IsCloser(c) ==> !IsIdentPart(c)
  {
  }

  lemma CheckedItemUnmatched(s: string, at: nat, before: string, clause: string, after: string, end: nat, name: string)
    requires at <= end < |s| && s[at..end] == Checked(before + " ", clause, after) && IsBarrier(s[end])
    requires Quiet(before) && Quiet(after) && GoodClause(clause) && Anonymous(before + " ") && IsIdentifier(name)
    ensures forall k :: at <= k < end ==> !NamedMatch(s, k, name)
  {
    hide Checked, Quiet, GoodClause, Anonymous, NamedMatch, IsIdentifier, CheckOpenAt;
    var lead, c := before + " ", at + |before| + 1;
    var start, close := c + 6, c + 7 + |clause|;
    CheckedLies(s, at, lead, clause, after, end);
    BlankLeadQuiet(s, at, before, c);
    NothingAfterCheck(s, at, lead, clause, after, c, start, close, end, name);
    forall k | at <= k < c
      ensures !NamedMatch(s, k, name)
    {
      AnonymousUnmatched(s, at, lead, c, start, k, name);
    }
  }

  lemma NamedItemUnmatched(s: string, at: nat, n: string, clause: string, end: nat, name: string)
    requires at <= end < |s| && s[at..end] == Checked(LeadText(LeadOf(n)), clause, "") && IsBarrier(s[end])
    requires GoodClause(clause) && IsIdentifier(n) && IsIdentifier(name) && Lower(n) != Lower(name)
    ensures forall k :: at <= k < end ==> !NamedMatch(s, k, name)
  {
    hide Checked, GoodClause, NamedMatch, IsIdentifier, CheckOpenAt, LeadText, Lower, NameLies, Quiet;
    var lead := LeadText(LeadOf(n));
    var c := at + |lead|;
    var start, close := c + 6, c + 7 + |clause|;
    CheckedLies(s, at, lead, clause, "", end);
    NamedLeadQuiet(s, at, n, c);
    EmptyQuiet();
    NothingAfterCheck(s, at, lead, clause, "", c, start, close, end, name);
    forall k | at <= k < c
      ensures !NamedMatch(s, k, name)
    {
      if NamedMatch(s, k, name) {
        var b, e := ReachesCheck(s, k, c, start, name);
        OwnName(s, at, n, c, name, b, e);
      }
    }
  }

  lemma PlainItemUnmatched(s: string, at: nat, before: string, after: string, end: nat, name: string)
    requires at <= end < |s| && s[at..end] == before + after && IsBarrier(s[end])
    requires Quiet(before) && Quiet(after) && IsIdentifier(name)
    ensures forall k :: at <= k < end ==> !NamedMatch(s, k, name)
  {
    hide Quiet, NamedMatch, IsIdentifier, CheckOpenAt;
    PlainItemRead(s, at, before, after, end);
    forall k | at <= k < end
      ensures !NamedMatch(s, k, name)
    {
      NothingBefore(s, k, end, name);
    }
  }

  lemma NamedItemMatched(s: string, at: nat, n: string, clause: string, end: nat, name: string)
    requires at <= end < |s| && s[at..end] == Checked(LeadText(LeadOf(n)), clause, "")
    requires GoodClause(clause) && IsIdentifier(n) && Lower(n) == Lower(name)
    ensures NamedFrom(s, at, name) == Some(clause)
  {
    hide Checked, NamedMatch, NamedClause, CheckOpenAt, LeadText, Lower, Readable, Quiet, GoodLead;
    var lead := LeadText(LeadOf(n));
    var c := at + |lead|;
    var start, close := c + 6, c + 7 + |clause|;
    CheckedLies(s, at, lead, clause, "", end);
    LeadIsGood(n);
    NamedThere(s, at, LeadOf(n), c, start, clause, s[close + 1..], name);
  }

  lemma ConstraintLower()
    ensures Lower("CONSTRAINT") == "constraint"
  {
    hide Lower;
    var r := Lower("CONSTRAINT");
    assert |r| == 10;
    assert r[0] == 'c' && r[1] == 'o' && r[2] == 'n' && r[3] == 's' && r[4] == 't';
    assert r[5] == 'r' && r[6] == 'a' && r[7] == 'i' && r[8] == 'n' && r[9] == 't';
  }

  lemma LeadIsGood(n: string)
    requires IsIdentifier(n)
    ensures GoodLead(LeadOf(n))
  {
    ConstraintLower();
    hide Lower, LowerChar;
    forall i | 0 <= i < |n|
      ensures n[i] != '('
    {
      IdentParts(n, i);
    }
  }

  lemma PartNamed(s: string, at: nat, p: Part, end: nat, name: string)
    requires at <= end < |s| && s[at..end] == PartText(p) && GoodPart(p) && IsBarrier(s[end]) && IsIdentifier(name)
    ensures NamedFrom(s, at, name) == if Names(p, name) then Some(p.clause) else NamedFrom(s, end, name)
  {
    hide Checked, Quiet, GoodClause, Anonymous, NamedMatch, NamedFrom, IsIdentifier, LeadText, Lower, IsBarrier;
    if Names(p, name) {
      NamedItemMatched(s, at, p.name, p.clause, end, name);
    } else {
      if p.NamedCheck? {
        NamedItemUnmatched(s, at, p.name, p.clause, end, name);
      } else if p.check.Some? {
        CheckedItemUnmatched(s, at, p.before, p.check.value, p.after, end, name);
      } else {
        PlainItemUnmatched(s, at, p.before, p.after, end, name);
      }
      NamedSkip(s, at, end, name);
    }
  }

  // ---- Whole texts ----

  /** The text from a separator on splits into separator, definition and the text after it. */
  lemma RestAt(s: string, at: nat, sep: string, ps: seq<Part>, a: nat, end: nat)
    requires at <= |s| && s[at..] == Rest(sep, ps) && ps != []
    requires a == at + |sep| && end == a + |PartText(ps[0])|
    ensures end < |s| && s[at..a] == sep && s[a..end] == PartText(ps[0])
    ensures s[end..] == Rest(", ", ps[1..]) && IsBarrier(s[end])
  {
    hide *;
    var t, later := PartText(ps[0]), Rest(", ", ps[1..]);
    RestIs(sep, ps);
    RestStarts(ps[1..]);
    SuffixSplit(s, at, a, sep, t + later);
    SuffixSplit(s, a, end, t, later);
  }

  lemma SuffixSplit(s: string, a: nat, m: nat, x: string, y: string)
    requires a <= |s| && s[a..] == x + y && m == a + |x|
    ensures m <= |s| && s[a..m] == x && s[m..] == y
    ensures y != "" ==> m < |s| && s[m] == y[0]
  {
    assert s[a..m] == s[a..][..|x|] && s[m..] == s[a..][|x|..];
    assert (x + y)[..|x|] == x && (x + y)[|x|..] == y;
  }

  lemma RestIs(sep: string, ps: seq<Part>)
    requires ps != []
    ensures Rest(sep, ps) == sep + (PartText(ps[0]) + Rest(", ", ps[1..]))
  {
  }

  lemma RestStarts(ps: seq<Part>)
    ensures var r := Rest(", ", ps); r != "" && IsBarrier(r[0])
  {
  }

  lemma {:induction false} RestChecks(s: string, at: nat, sep: string, ps: seq<Part>)
    requires at <= |s| && s[at..] == Rest(sep, ps) && Quiet(sep) && forall p :: p in ps ==> GoodPart(p)
    ensures Checks(s, at) == PartClauses(ps)
    decreases |ps|
  {
    hide GoodPart, PartText, Checks, Quiet;
    EmptyQuiet();
    if ps == [] {
      assert s[at..|s|] == ")";
      QuietSkip(s, at, |s|, at);
      NothingFound(s);
    } else {
      var a := at + |sep|;
      var end := a + |PartText(ps[0])|;
      RestAt(s, at, sep, ps, a, end);
      QuietSkip(s, at, a, at);
      PartRead(s, a, ps[0], end);
      RestChecks(s, end, ", ", ps[1..]);
    }
  }

  /** From any text whose definitions are good, exactly the clauses of its CHECKs are read, in order. */
  lemma ChecksRead(t: Text)
    requires GoodText(t)
    ensures Checks(Sql(t), 0) == PartClauses(t.parts)
  {
    hide GoodPart, Rest, Checks, Quiet;
    var s := Sql(t);
    assert s[0..|t.head|] == t.head && s[|t.head|..] == Rest("(", t.parts);
    EmptyQuiet();
    QuietSkip(s, 0, |t.head|, 0);
    RestChecks(s, |t.head|, "(", t.parts);
  }

  lemma SeparatorUnmatched(s: string, at: nat, a: nat, sep: string, name: string)
    requires at <= a <= |s| && s[at..a] == sep && (sep == "(" || sep == ", ")
    ensures NamedFrom(s, at, name) == NamedFrom(s, a, name)
  {
    hide NamedMatch, NamedFrom;
    forall k | at <= k < a
      ensures !NamedMatch(s, k, name)
    {
      assert s[k] == sep[k - at];
      NotConstraint(s, k, name);
    }
    NamedSkip(s, at, a, name);
  }

  lemma NotConstraint(s: string, k: nat, name: string)
    requires k <= |s|
    ensures NamedMatch(s, k, name) ==> k < |s| && LowerChar(s[k]) == 'c'
  {
    if NamedMatch(s, k, name) {
      WordIs(s, k, "constraint");
      assert s[k] == s[k..k + 10][0] && Lower(s[k..k + 10])[0] == LowerChar(s[k]);
    }
  }

  lemma {:induction false} RestNamed(s: string, at: nat, sep: string, ps: seq<Part>, name: string)
    requires at <= |s| && s[at..] == Rest(sep, ps) && (sep == "(" || sep == ", ")
    requires (forall p :: p in ps ==> GoodPart(p)) && IsIdentifier(name)
    ensures NamedFrom(s, at, name) == FirstNamed(ps, name)
    decreases |ps|
  {
    hide GoodPart, PartText, NamedMatch, NamedClause, IsIdentifier, Names;
    if ps == [] {
      assert s[at] == s[at..][0] == ')' && |s| == at + 1;
      NotConstraint(s, at, name);
      NotConstraint(s, at + 1, name);
    } else {
      var a := at + |sep|;
      var end := a + |PartText(ps[0])|;
      RestAt(s, at, sep, ps, a, end);
      SeparatorUnmatched(s, at, a, sep, name);
      PartNamed(s, a, ps[0], end, name);
      RestNamed(s, end, ", ", ps[1..], name);
    }
  }

  /** And under a name exactly the clause of the first constraint with that name, case aside, is read. */
  lemma NamedRead(t: Text, name: string)
    requires GoodText(t) && IsIdentifier(name)
    ensures NamedFrom(Sql(t), 0, name) == FirstNamed(t.parts, name)
  {
    hide GoodPart, Rest, NamedMatch, NamedFrom, Quiet, IsIdentifier, CheckOpenAt;
    var s, h := Sql(t), |t.head|;
    assert s[0..h] == t.head && s[h..] == Rest("(", t.parts);
    QuietNoOpen(s, 0, h);
    FirstBarrier(t.parts);
    assert s[h] == s[h..][0];
    forall k | 0 <= k < h
      ensures !NamedMatch(s, k, name)
    {
      NothingBefore(s, k, h, name);
    }
    NamedSkip(s, 0, h, name);
    RestNamed(s, h, "(", t.parts, name);
  }

  lemma FirstBarrier(ps: seq<Part>)
    ensures Rest("(", ps) != "" && IsBarrier(Rest("(", ps)[0])
  {
  }
}
