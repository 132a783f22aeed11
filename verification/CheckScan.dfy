/**
  The two character scanners that cut the clause of a CHECK out of a table's SQL
  (bfg2/bfg/core/migration_operations.py, lines 403-456).  One toggles its quote state and
  looks back for a backslash, the other looks ahead for a doubled quote.  They stay in step
  exactly as long as no closing quote has a backslash before it (`InStepExact`); then they find
  the same parenthesis (`ScannersAgree`), the one that counting tokens finds
  (`ClauseIsTokenMatch`), and read a clause between parentheses back (`ClauseReadBack`).
 */
module CheckScan {
  import opened Wrappers
  import opened SqlLexer
  import opened SqlGrammar
  import opened Parens

  predicate IsQuote(c: char) {
    c == '\'' || c == '"'
  }

  function Shift(n: nat, r: Option<nat>): Option<nat> {
    match r
    case Some(m) => Some(n + m)
    case None => None
  }

  /**
    The offset of the closing parenthesis in u for the scanner of `_extract_named_check`;
    `prev` is the character before u.
   */
  function ToggleEnd(u: string, prev: char, depth: int, quote: Option<char>): (r: Option<nat>)
    ensures r.Some? ==> r.value < |u|
  {
    if u == "" then None
    else if quote.Some? then
      Shift(1, ToggleEnd(u[1..], u[0], depth, if u[0] == quote.value && prev != '\\' then None else quote))
    else if IsQuote(u[0]) then Shift(1, ToggleEnd(u[1..], u[0], depth, Some(u[0])))
    else if u[0] == '(' then Shift(1, ToggleEnd(u[1..], u[0], depth + 1, None))
    else if u[0] == ')' then
      if depth == 1 then Some(0) else Shift(1, ToggleEnd(u[1..], u[0], depth - 1, None))
    else Shift(1, ToggleEnd(u[1..], u[0], depth, None))
  }

  /** The same offset for the scanner of `_extract_checks`. */
  function DoubleEnd(u: string, depth: int, quote: Option<char>): (r: Option<nat>)
    ensures r.Some? ==> r.value < |u|
    decreases |u|
  {
    if u == "" then None
    else if quote.Some? then
      if u[0] != quote.value then Shift(1, DoubleEnd(u[1..], depth, quote))
      else if |u| > 1 && u[1] == u[0] then Shift(2, DoubleEnd(u[2..], depth, quote))
      else Shift(1, DoubleEnd(u[1..], depth, None))
    else if IsQuote(u[0]) then Shift(1, DoubleEnd(u[1..], depth, Some(u[0])))
    else if u[0] == '(' then Shift(1, DoubleEnd(u[1..], depth + 1, None))
    else if u[0] == ')' then
      if depth == 1 then Some(0) else Shift(1, DoubleEnd(u[1..], depth - 1, None))
    else Shift(1, DoubleEnd(u[1..], depth, None))
  }

  // ---- The loops of the source ----

  lemma ToggleAt(sql: string, position: nat, prev: char, depth: int, quote: Option<char>)
    requires position < |sql|
    ensures var c, rest := sql[position], sql[position + 1..];
      ToggleEnd(sql[position..], prev, depth, quote) ==
      if quote.Some? then
        Shift(1, ToggleEnd(rest, c, depth, if c == quote.value && prev != '\\' then None else quote))
      else if IsQuote(c) then Shift(1, ToggleEnd(rest, c, depth, Some(c)))
      else if c == '(' then Shift(1, ToggleEnd(rest, c, depth + 1, None))
      else if c == ')' then
        if depth == 1 then Some(0) else Shift(1, ToggleEnd(rest, c, depth - 1, None))
      else Shift(1, ToggleEnd(rest, c, depth, None))
  {
    assert sql[position..][0] == sql[position] && sql[position..][1..] == sql[position + 1..];
  }

  method ToggleScan(sql: string, start: nat) returns (r: Option<nat>)
    requires start < |sql| && sql[start] == '('
    ensures r == Shift(start, ToggleEnd(sql[start..], '(', 0, None))
  {
    hide ToggleEnd;
    var depth, quote, position := 0, None, start;
    ghost var prev := '(';
    while position < |sql|
      invariant start <= position <= |sql|
      invariant position > start ==> prev == sql[position - 1]
      invariant position == start ==> quote == None
      invariant Shift(start, ToggleEnd(sql[start..], '(', 0, None))
        == Shift(position, ToggleEnd(sql[position..], prev, depth, quote))
    {
      var c := sql[position];
      ToggleAt(sql, position, prev, depth, quote);
      if quote.Some? {
        if c == quote.value && sql[position - 1] != '\\' {
          quote := None;
        }
      } else if IsQuote(c) {
        quote := Some(c);
      } else if c == '(' {
        depth := depth + 1;
      } else if c == ')' {
        depth := depth - 1;
        if depth == 0 {
          return Some(position);
        }
      }
      prev, position := c, position + 1;
    }
    NothingLeft(sql[position..], prev, depth, quote);
    return None;
  }

  lemma NothingLeft(u: string, prev: char, depth: int, quote: Option<char>)
    requires u == ""
    ensures ToggleEnd(u, prev, depth, quote) == None && DoubleEnd(u, depth, quote) == None
  {
  }

  lemma DoubleAt(sql: string, position: nat, depth: int, quote: Option<char>)
    requires position < |sql|
    ensures var c, rest := sql[position], sql[position + 1..];
      DoubleEnd(sql[position..], depth, quote) ==
      if quote.Some? then
        if c != quote.value then Shift(1, DoubleEnd(rest, depth, quote))
        else if rest != "" && rest[0] == c then Shift(2, DoubleEnd(sql[position + 2..], depth, quote))
        else Shift(1, DoubleEnd(rest, depth, None))
      else if IsQuote(c) then Shift(1, DoubleEnd(rest, depth, Some(c)))
      else if c == '(' then Shift(1, DoubleEnd(rest, depth + 1, None))
      else if c == ')' then
        if depth == 1 then Some(0) else Shift(1, DoubleEnd(rest, depth - 1, None))
      else Shift(1, DoubleEnd(rest, depth, None))
  {
    var u := sql[position..];
    assert u[0] == sql[position] && u[1..] == sql[position + 1..];
    if |u| > 1 {
      assert u[1] == sql[position + 1] && u[2..] == sql[position + 2..];
    }
  }

  method DoubleScan(sql: string, start: nat) returns (r: Option<nat>)
    requires start < |sql| && sql[start] == '('
    ensures r == Shift(start, DoubleEnd(sql[start..], 0, None))
  {
    hide DoubleEnd;
    var depth, quote, position := 0, None, start;
    while position < |sql|
      invariant start <= position <= |sql|
      invariant Shift(start, DoubleEnd(sql[start..], 0, None))
        == Shift(position, DoubleEnd(sql[position..], depth, quote))
    {
      var c := sql[position];
      DoubleAt(sql, position, depth, quote);
      if quote.Some? {
        if c == quote.value {
          if position + 1 < |sql| && sql[position + 1] == quote.value {
            position := position + 1;
          } else {
            quote := None;
          }
        }
      } else if IsQuote(c) {
        quote := Some(c);
      } else if c == '(' {
        depth := depth + 1;
      } else if c == ')' {
        depth := depth - 1;
        if depth == 0 {
          return Some(position);
        }
      }
      position := position + 1;
    }
    NothingLeft(sql[position..], '(', depth, quote);
    return None;
  }

  // ---- The two scanners agree ----

  /** A quote at offset i of u with a backslash right before it; `prev` stands before u. */
  predicate EscapedAt(u: string, prev: char, i: nat)
    requires i < |u|
  {
    IsQuote(u[i]) && (if i == 0 then prev else u[i - 1]) == '\\'
  }

  predicate SafeUpTo(u: string, prev: char, n: nat)
    requires n <= |u|
  {
    forall i :: 0 <= i < n ==> !EscapedAt(u, prev, i)
  }

  predicate NoEscapedQuote(u: string) {
    forall i :: 0 < i < |u| ==> !EscapedAt(u, ' ', i)
  }

  /** How far the toggling scanner reads. */
  function Scanned(u: string, prev: char, depth: int, quote: Option<char>): (n: nat)
    ensures n <= |u|
  {
    match ToggleEnd(u, prev, depth, quote)
    case Some(p) => p
    case None => |u|
  }

  /** The state either scanner keeps. */
  datatype Scan = Scan(depth: int, quote: Option<char>)

  predicate Stops(s: Scan, c: char) {
    s.quote.None? && c == ')' && s.depth == 1
  }

  function Opened(s: Scan, c: char): Scan {
    if IsQuote(c) then s.(quote := Some(c))
    else if c == '(' then s.(depth := s.depth + 1)
    else if c == ')' then s.(depth := s.depth - 1)
    else s
  }

  /** The toggling scanner after one more character. */
  function Toggled(s: Scan, prev: char, c: char): Scan {
    if s.quote.Some? then (if c == s.quote.value && prev != '\\' then s.(quote := None) else s) else Opened(s, c)
  }

  function ToggledAll(s: Scan, prev: char, t: string): Scan
    decreases |t|
  {
    if t == "" then s else ToggledAll(Toggled(s, prev, t[0]), t[0], t[1..])
  }

  /** How many characters the doubling scanner takes at once. */
  function Stride(s: Scan, u: string): (n: nat)
    requires u != ""
    ensures 0 < n <= |u|
  {
    if s.quote.Some? && s.quote.value == u[0] && |u| > 1 && u[1] == u[0] then 2 else 1
  }

  function Doubled(s: Scan, u: string): Scan
    requires u != ""
  {
    if s.quote.None? then Opened(s, u[0])
    else if s.quote.value == u[0] && Stride(s, u) == 1 then s.(quote := None)
    else s
  }

  /** A position at which the doubling scanner stands, and its state there. */
  datatype Stand = Stand(at: nat, state: Scan)

  function Moved(n: nat, hs: seq<Stand>): seq<Stand> {
    seq(|hs|, i requires 0 <= i < |hs| => Stand(hs[i].at + n, hs[i].state))
  }

  /** Every position the doubling scanner stands at in u, up to where it stops. */
  function Stands(u: string, s: Scan): (hs: seq<Stand>)
    ensures hs != [] && hs[0] == Stand(0, s)
    ensures forall i :: 0 <= i < |hs| ==> hs[i].at <= |u|
    decreases |u|
  {
    if u == "" || Stops(s, u[0]) then [Stand(0, s)]
    else [Stand(0, s)] + Moved(Stride(s, u), Stands(u[Stride(s, u)..], Doubled(s, u)))
  }

  /** The two scanners are in the same state at each of these positions. */
  predicate InStep(u: string, prev: char, s: Scan) {
    forall i :: 0 <= i < |Stands(u, s)| ==> SameAt(u, prev, s, Stands(u, s)[i])
  }

  predicate SameAt(u: string, prev: char, s: Scan, h: Stand)
    requires h.at <= |u|
  {
    ToggledAll(s, prev, u[..h.at]) == h.state
  }

  /** A quote of the open kind, met inside a quoted run, with a backslash right before it. */
  predicate EscapedClose(u: string, prev: char, h: Stand) {
    && h.at < |u| && h.state.quote == Some(u[h.at]) && IsQuote(u[h.at])
    && (if h.at == 0 then prev else u[h.at - 1]) == '\\'
  }

  predicate Unescaped(u: string, prev: char, s: Scan) {
    forall i :: 0 <= i < |Stands(u, s)| ==> !EscapedClose(u, prev, Stands(u, s)[i])
  }

  lemma {:induction false} ToggledBoth(s: Scan, prev: char, x: string, y: string)
    ensures ToggledAll(s, prev, x + y) == ToggledAll(ToggledAll(s, prev, x), Last(x, prev), y)
    decreases |x|
  {
    if x == "" {
      assert x + y == y;
    } else {
      assert (x + y)[0] == x[0] && (x + y)[1..] == x[1..] + y;
      ToggledBoth(Toggled(s, prev, x[0]), x[0], x[1..], y);
    }
  }

  /** One stride keeps the scanners in step exactly when it does not pass an escaped quote. */
  lemma StrideInStep(u: string, prev: char, s: Scan)
    requires u != "" && !Stops(s, u[0]) && (s.quote.Some? ==> IsQuote(s.quote.value))
    ensures ToggledAll(s, prev, u[..Stride(s, u)]) == Doubled(s, u) <==> !EscapedClose(u, prev, Stand(0, s))
    ensures Doubled(s, u).quote.Some? ==> IsQuote(Doubled(s, u).quote.value)
  {
    var t := u[..Stride(s, u)];
    var one := Toggled(s, prev, u[0]);
    assert t[0] == u[0] && ToggledAll(s, prev, t) == ToggledAll(one, u[0], t[1..]);
    if |t| == 1 {
      assert t[1..] == "" && ToggledAll(one, u[0], "") == one;
    } else {
      assert t[1..][0] == u[1] && t[1..][1..] == "";
      assert ToggledAll(one, u[0], t[1..]) == Toggled(one, u[0], u[1]);
    }
  }

  lemma SameLater(u: string, prev: char, s: Scan, n: nat, next: Scan, h: Stand)
    requires 0 < n <= |u| && n + h.at <= |u| && ToggledAll(s, prev, u[..n]) == next
    ensures SameAt(u, prev, s, Stand(h.at + n, h.state)) <==> SameAt(u[n..], u[n - 1], next, h)
  {
    assert u[..h.at + n] == u[..n] + u[n..][..h.at];
    ToggledBoth(s, prev, u[..n], u[n..][..h.at]);
  }

  lemma StartSame(u: string, prev: char, s: Scan)
    ensures SameAt(u, prev, s, Stand(0, s))
  {
    assert u[..0] == "";
  }

  lemma SameIs(u: string, prev: char, s: Scan, h: Stand)
    requires h.at <= |u|
    ensures SameAt(u, prev, s, h) <==> ToggledAll(s, prev, u[..h.at]) == h.state
  {
  }

  lemma StopUnescaped(u: string, prev: char, s: Scan)
    requires u == "" || Stops(s, u[0])
    ensures !EscapedClose(u, prev, Stand(0, s))
  {
  }

  lemma StepsMatch(u: string, prev: char, s: Scan, n: nat, next: Scan)
    requires u != "" && !Stops(s, u[0]) && n == Stride(s, u) && next == Doubled(s, u)
    requires SameAt(u, prev, s, Stand(0, s))
    requires var hs, tail := Stands(u, s), Stands(u[n..], next);
      |hs| == |tail| + 1 && forall i :: 0 <= i < |tail| ==>
        (SameAt(u, prev, s, hs[i + 1]) <==> SameAt(u[n..], u[n - 1], next, tail[i]))
    ensures InStep(u, prev, s) <==> InStep(u[n..], u[n - 1], next)
  {
    hide Doubled, Stride, SameAt, Stops, Stands;
    var hs, tail := Stands(u, s), Stands(u[n..], next);
    if InStep(u[n..], u[n - 1], next) {
      forall j | 0 <= j < |hs|
        ensures SameAt(u, prev, s, hs[j])
      {
        if j > 0 {
          var i := j - 1;
          assert SameAt(u[n..], u[n - 1], next, tail[i]) && hs[j] == hs[i + 1];
        }
      }
    }
  }

  lemma SecondStand(u: string, s: Scan)
    requires u != "" && !Stops(s, u[0])
    ensures var n, next := Stride(s, u), Doubled(s, u);
      var hs, tail := Stands(u, s), Stands(u[n..], next);
      && |hs| == |tail| + 1 && hs[1] == Stand(n, next)
      && forall i :: 0 <= i < |tail| ==> hs[i + 1] == Stand(tail[i].at + n, tail[i].state)
  {
    hide Stops, Doubled, Stride;
    assert Stands(u, s) == [Stand(0, s)] + Moved(Stride(s, u), Stands(u[Stride(s, u)..], Doubled(s, u)));
  }

  /** The scanners are in step exactly when they are after one stride and from there on. */
  lemma InStepStep(u: string, prev: char, s: Scan)
    requires u != "" && !Stops(s, u[0])
    ensures var n, next := Stride(s, u), Doubled(s, u);
      InStep(u, prev, s) <==> ToggledAll(s, prev, u[..n]) == next && InStep(u[n..], u[n - 1], next)
  {
    hide Stops, Doubled, Stride, ToggledAll, SameAt, Stands;
    var n, next := Stride(s, u), Doubled(s, u);
    var hs, tail := Stands(u, s), Stands(u[n..], next);
    StartSame(u, prev, s);
    SecondStand(u, s);
    SameIs(u, prev, s, hs[1]);
    if ToggledAll(s, prev, u[..n]) == next {
      forall i | 0 <= i < |tail|
        ensures SameAt(u, prev, s, hs[i + 1]) <==> SameAt(u[n..], u[n - 1], next, tail[i])
      {
        SameLater(u, prev, s, n, next, tail[i]);
      }
      StepsMatch(u, prev, s, n, next);
    }
  }

  lemma StopInStep(u: string, prev: char, s: Scan)
    requires u == "" || Stops(s, u[0])
    ensures InStep(u, prev, s) && Unescaped(u, prev, s)
  {
    StartSame(u, prev, s);
    StopUnescaped(u, prev, s);
    hide SameAt, EscapedClose;
  }

  lemma EscapedLater(u: string, prev: char, n: nat, h: Stand)
    requires 0 < n <= |u| && n + h.at <= |u|
    ensures EscapedClose(u, prev, Stand(h.at + n, h.state)) <==> EscapedClose(u[n..], u[n - 1], h)
  {
  }

  /** After one stride. */
  lemma UnescapedStep(u: string, prev: char, s: Scan)
    requires u != "" && !Stops(s, u[0])
    ensures var n := Stride(s, u);
      Unescaped(u, prev, s) <==>
        !EscapedClose(u, prev, Stand(0, s)) && Unescaped(u[n..], u[n - 1], Doubled(s, u))
  {
    hide Stops, EscapedClose, Doubled, Stride;
    var n := Stride(s, u);
    var hs, tail := Stands(u, s), Stands(u[n..], Doubled(s, u));
    assert hs == [Stand(0, s)] + Moved(n, tail);
    forall i | 0 <= i < |tail|
      ensures hs[i + 1] == Stand(tail[i].at + n, tail[i].state)
      ensures EscapedClose(u, prev, hs[i + 1]) <==> EscapedClose(u[n..], u[n - 1], tail[i])
    {
      EscapedLater(u, prev, n, tail[i]);
    }
    hide Stands;
    if !EscapedClose(u, prev, Stand(0, s)) && Unescaped(u[n..], u[n - 1], Doubled(s, u)) {
      forall j | 0 <= j < |hs|
        ensures !EscapedClose(u, prev, hs[j])
      {
        if j > 0 {
          var i := j - 1;
          assert !EscapedClose(u[n..], u[n - 1], tail[i]) && hs[j] == hs[i + 1];
        }
      }
    }
  }

  /**
    The scanners, once in the same state, are in the same state wherever the doubling one stands,
    up to where it stops, if and only if no quote of the open kind inside a quoted run has a
    backslash before it.
   */
  lemma {:induction false} InStepExact(u: string, prev: char, s: Scan)
    requires s.quote.Some? ==> IsQuote(s.quote.value)
    ensures InStep(u, prev, s) <==> Unescaped(u, prev, s)
    decreases |u|
  {
    hide *;
    if u == "" || Stops(s, u[0]) {
      StopInStep(u, prev, s);
    } else {
      StrideInStep(u, prev, s);
      InStepStep(u, prev, s);
      UnescapedStep(u, prev, s);
      InStepExact(u[Stride(s, u)..], u[Stride(s, u) - 1], Doubled(s, u));
    }
  }

  lemma DoubledQuote(u: string, s: Scan)
    requires u != "" && !Stops(s, u[0]) && (s.quote.Some? ==> IsQuote(s.quote.value))
    ensures Doubled(s, u).quote.Some? ==> IsQuote(Doubled(s, u).quote.value)
  {
  }

  lemma DoubleQuoted(u: string, depth: int, q: char)
    requires u != "" && Stride(Scan(depth, Some(q)), u) == 1
    ensures var next := Doubled(Scan(depth, Some(q)), u);
      next.depth == depth && DoubleEnd(u, depth, Some(q)) == Shift(1, DoubleEnd(u[1..], depth, next.quote))
  {
    if u[0] != q {
      assert DoubleEnd(u, depth, Some(q)) == Shift(1, DoubleEnd(u[1..], depth, Some(q)));
    } else {
      assert DoubleEnd(u, depth, Some(q)) == Shift(1, DoubleEnd(u[1..], depth, None));
    }
  }

  lemma DoubleOpen(u: string, depth: int)
    requires u != "" && !Stops(Scan(depth, None), u[0])
    ensures var next := Opened(Scan(depth, None), u[0]);
      DoubleEnd(u, depth, None) == Shift(1, DoubleEnd(u[1..], next.depth, next.quote))
  {
    var tail := u[1..];
    assert DoubleEnd(u, depth, None) ==
      if IsQuote(u[0]) then Shift(1, DoubleEnd(tail, depth, Some(u[0])))
      else if u[0] == '(' then Shift(1, DoubleEnd(tail, depth + 1, None))
      else if u[0] == ')' then Shift(1, DoubleEnd(tail, depth - 1, None))
      else Shift(1, DoubleEnd(tail, depth, None));
    hide DoubleEnd;
  }

  lemma DoubleOne(u: string, s: Scan)
    requires u != "" && !Stops(s, u[0]) && Stride(s, u) == 1
    ensures DoubleEnd(u, s.depth, s.quote) == Shift(1, DoubleEnd(u[1..], Doubled(s, u).depth, Doubled(s, u).quote))
  {
    hide DoubleEnd;
    match s.quote
    case Some(q) => DoubleQuoted(u, s.depth, q);
    case None => DoubleOpen(u, s.depth);
  }

  lemma DoubleTwo(u: string, s: Scan)
    requires u != "" && Stride(s, u) == 2
    ensures Doubled(s, u) == s && DoubleEnd(u, s.depth, s.quote) == Shift(2, DoubleEnd(u[2..], s.depth, s.quote))
  {
  }

  lemma DoubleStride(u: string, s: Scan)
    requires u != "" && !Stops(s, u[0])
    ensures var n, next := Stride(s, u), Doubled(s, u);
      DoubleEnd(u, s.depth, s.quote) == Shift(n, DoubleEnd(u[n..], next.depth, next.quote))
  {
    hide DoubleEnd, Doubled, Stops;
    if Stride(s, u) == 2 {
      DoubleTwo(u, s);
    } else {
      DoubleOne(u, s);
    }
  }

  lemma ToggleOne(u: string, prev: char, s: Scan)
    requires u != "" && !Stops(s, u[0]) && !EscapedClose(u, prev, Stand(0, s)) && Stride(s, u) == 1
    requires s.quote.Some? ==> IsQuote(s.quote.value)
    ensures var next := Doubled(s, u);
      ToggleEnd(u, prev, s.depth, s.quote) == Shift(1, ToggleEnd(u[1..], u[0], next.depth, next.quote))
  {
  }

  lemma ToggleTwo(u: string, prev: char, s: Scan)
    requires u != "" && !EscapedClose(u, prev, Stand(0, s)) && Stride(s, u) == 2
    requires s.quote.Some? ==> IsQuote(s.quote.value)
    ensures Doubled(s, u) == s
    ensures ToggleEnd(u, prev, s.depth, s.quote) == Shift(2, ToggleEnd(u[2..], u[1], s.depth, s.quote))
  {
    var tail := u[1..];
    assert tail[0] == u[1] && tail[1..] == u[2..];
    assert ToggleEnd(u, prev, s.depth, s.quote) == Shift(1, ToggleEnd(tail, u[0], s.depth, None));
    assert ToggleEnd(tail, u[0], s.depth, None) == Shift(1, ToggleEnd(u[2..], u[1], s.depth, s.quote));
  }

  /** What each scanner does with the characters of one stride, if it passes no escaped quote. */
  lemma StrideEnds(u: string, prev: char, s: Scan)
    requires u != "" && !Stops(s, u[0]) && !EscapedClose(u, prev, Stand(0, s))
    requires s.quote.Some? ==> IsQuote(s.quote.value)
    ensures var n, next := Stride(s, u), Doubled(s, u);
      && ToggleEnd(u, prev, s.depth, s.quote) == Shift(n, ToggleEnd(u[n..], u[n - 1], next.depth, next.quote))
      && DoubleEnd(u, s.depth, s.quote) == Shift(n, DoubleEnd(u[n..], next.depth, next.quote))
      && (next.quote.Some? ==> IsQuote(next.quote.value))
  {
    hide ToggleEnd, DoubleEnd, Doubled, Stops, EscapedClose, IsQuote;
    DoubledQuote(u, s);
    DoubleStride(u, s);
    if Stride(s, u) == 2 {
      ToggleTwo(u, prev, s);
    } else {
      ToggleOne(u, prev, s);
    }
  }

  /**
    The two scanners find the same parenthesis, or none, whenever no quote of the open kind
    inside a quoted run has a backslash before it.
   */
  lemma {:induction false} ScannersAgree(u: string, prev: char, s: Scan)
    requires (s.quote.Some? ==> IsQuote(s.quote.value)) && Unescaped(u, prev, s)
    ensures DoubleEnd(u, s.depth, s.quote) == ToggleEnd(u, prev, s.depth, s.quote)
    decreases |u|
  {
    if u != "" && !Stops(s, u[0]) {
      UnescapedStep(u, prev, s);
      StrideEnds(u, prev, s);
      hide *;
      ScannersAgree(u[Stride(s, u)..], u[Stride(s, u) - 1], Doubled(s, u));
    }
  }

  /** In particular when no quote at all, as far as the toggling scanner reads, has a backslash before it. */
  lemma {:induction false} SafeIsUnescaped(u: string, prev: char, s: Scan)
    requires (s.quote.Some? ==> IsQuote(s.quote.value)) && SafeUpTo(u, prev, Scanned(u, prev, s.depth, s.quote))
    ensures Unescaped(u, prev, s)
    decreases |u|
  {
    if u == "" || Stops(s, u[0]) {
      StopUnescaped(u, prev, s);
    } else {
      SafeFirst(u, prev, s);
      StrideEnds(u, prev, s);
      UnescapedStep(u, prev, s);
      SafeStride(u, prev, s);
      hide *;
      SafeIsUnescaped(u[Stride(s, u)..], u[Stride(s, u) - 1], Doubled(s, u));
    }
  }

  lemma SafeFirst(u: string, prev: char, s: Scan)
    requires u != "" && !Stops(s, u[0]) && SafeUpTo(u, prev, Scanned(u, prev, s.depth, s.quote))
    ensures !EscapedClose(u, prev, Stand(0, s))
  {
    assert Scanned(u, prev, s.depth, s.quote) > 0;
    assert !EscapedAt(u, prev, 0);
  }

  lemma SafeStride(u: string, prev: char, s: Scan)
    requires u != "" && !Stops(s, u[0]) && SafeUpTo(u, prev, Scanned(u, prev, s.depth, s.quote))
    requires var n, next := Stride(s, u), Doubled(s, u);
      ToggleEnd(u, prev, s.depth, s.quote) == Shift(n, ToggleEnd(u[n..], u[n - 1], next.depth, next.quote))
    ensures var n, next := Stride(s, u), Doubled(s, u);
      SafeUpTo(u[n..], u[n - 1], Scanned(u[n..], u[n - 1], next.depth, next.quote))
  {
    var n, next := Stride(s, u), Doubled(s, u);
    hide ToggleEnd, Stride, Doubled, Stops;
    var tail, last := u[n..], u[n - 1];
    forall i | 0 <= i < Scanned(tail, last, next.depth, next.quote)
      ensures !EscapedAt(tail, last, i)
    {
      assert !EscapedAt(u, prev, n + i);
    }
  }

  /** The characters of ('\'). */
  predicate LastBackslash(u: string) {
    |u| == 5 && u[0] == '(' && u[1] == '\'' && u[2] == '\\' && u[3] == '\'' && u[4] == ')'
  }

  lemma DoubleFinds(u: string)
    requires LastBackslash(u)
    ensures DoubleEnd(u, 0, None) == Some(4)
  {
    hide DoubleEnd;
    assert u[0..] == u;
    DoubleAt(u, 4, 1, None);
    DoubleAt(u, 3, 1, Some('\''));
    DoubleAt(u, 2, 1, Some('\''));
    DoubleAt(u, 1, 1, None);
    DoubleAt(u, 0, 0, None);
  }

  lemma ToggleMisses(u: string)
    requires LastBackslash(u)
    ensures ToggleEnd(u, '(', 0, None) == None
  {
    hide ToggleEnd;
    assert u[0..] == u && u[5..] == "";
    NothingLeft(u[5..], ')', 1, Some('\''));
    ToggleAt(u, 4, '\'', 1, Some('\''));
    assert ToggleEnd(u[4..], '\'', 1, Some('\'')) == None;
    ToggleAt(u, 3, '\\', 1, Some('\''));
    assert ToggleEnd(u[3..], '\\', 1, Some('\'')) == None;
    ToggleAt(u, 2, '\'', 1, Some('\''));
    ToggleAt(u, 1, '(', 1, None);
    ToggleAt(u, 0, '(', 0, None);
  }

  /**
    A literal that is one backslash, as SQLite stores it for CHECK (x <> '\'): the scanner that
    looks for backslashes does not see it end.
   */
  lemma ScannersDisagree(u: string)
    requires LastBackslash(u)
    ensures DoubleEnd(u, 0, None) == Some(4) && ToggleEnd(u, '(', 0, None) == None
  {
    DoubleFinds(u);
    ToggleMisses(u);
  }

  // ---- The scanners and the tokens ----

  /** Characters that leave the quote state and the depth alone are passed over. */
  predicate Passes(c: char, quote: Option<char>) {
    if quote.Some? then c != quote.value else !IsQuote(c) && c != '(' && c != ')'
  }

  function Last(t: string, prev: char): char {
    if t == "" then prev else t[|t| - 1]
  }

  lemma {:induction false} PassRun(t: string, rest: string, prev: char, depth: int, quote: Option<char>)
    requires forall i :: 0 <= i < |t| ==> Passes(t[i], quote)
    ensures ToggleEnd(t + rest, prev, depth, quote)
      == Shift(|t|, ToggleEnd(rest, Last(t, prev), depth, quote))
  {
    if t == "" {
      assert t + rest == rest;
    } else {
      assert (t + rest)[0] == t[0] && (t + rest)[1..] == t[1..] + rest;
      PassRun(t[1..], rest, t[0], depth, quote);
    }
  }

  /** The body of a literal and its closing quote are passed over inside the quote. */
  lemma {:induction false} PassBody(body: seq<Unit>, rest: string, prev: char, depth: int)
    requires WellFormed(Literal(body))
    requires SafeUpTo(BodyText(body) + "'", prev, |BodyText(body)| + 1)
    ensures ToggleEnd(BodyText(body) + ("'" + rest), prev, depth, Some('\''))
      == Shift(|BodyText(body)| + 1, ToggleEnd(rest, '\'', depth, None))
    decreases |body|
  {
    var text := BodyText(body) + ("'" + rest);
    if body == [] {
      assert text == "'" + rest && !EscapedAt(BodyText(body) + "'", prev, 0);
      assert ("'" + rest)[0] == '\'' && ("'" + rest)[1..] == rest;
    } else {
      var u, inner := UnitText(body[0]), BodyText(body[1..]);
      hide ToggleEnd, UnitText;
      Associate(u, inner, "'" + rest);
      Associate(u, inner, "'");
      SafeUnit(u, inner + "'", prev);
      PassBody(body[1..], rest, u[|u| - 1], depth);
      PassUnit(body[0], inner + ("'" + rest), prev, depth);
    }
  }

  lemma SafeUnit(u: string, rest: string, prev: char)
    requires u != "" && SafeUpTo(u + rest, prev, |u + rest|)
    ensures SafeUpTo(u, prev, |u|) && SafeUpTo(rest, u[|u| - 1], |rest|)
  {
    var whole, before := u + rest, u[|u| - 1];
    forall i | 0 <= i < |u|
      ensures !EscapedAt(u, prev, i)
    {
      assert !EscapedAt(whole, prev, i);
    }
    forall i | 0 <= i < |rest|
      ensures !EscapedAt(rest, before, i)
    {
      assert !EscapedAt(whole, prev, |u| + i);
    }
  }

  lemma PassUnit(u: Unit, tail: string, prev: char, depth: int)
    requires u.Plain? ==> u.c != '\\' && u.c != '\''
    requires SafeUpTo(UnitText(u), prev, |UnitText(u)|)
    ensures ToggleEnd(UnitText(u) + tail, prev, depth, Some('\''))
      == Shift(|UnitText(u)|, ToggleEnd(tail, UnitText(u)[|UnitText(u)| - 1], depth, Some('\'')))
  {
    var t := UnitText(u);
    match u
    case Plain(c) => PassRun(t, tail, prev, depth, Some('\''));
    case Escape(c) =>
      assert t[0] == '\\' && !EscapedAt(t, prev, 1);
      PassRun(t, tail, prev, depth, Some('\''));
    case Doubled =>
      assert !EscapedAt(t, prev, 0);
      assert (t + tail)[0] == '\'' && (t + tail)[1..] == "'" + tail;
      assert ("'" + tail)[0] == '\'' && ("'" + tail)[1..] == tail;
  }

  /** How one lexeme changes the depth. */
  function LexemeDelta(l: Lexeme): int {
    if l == Punctuation('(') then 1 else if l == Punctuation(')') then -1 else 0
  }

  /** A lexeme that does not close the outermost group is passed over whole. */
  lemma PassLexeme(l: Lexeme, rest: string, prev: char, depth: int)
    requires WellFormed(l) && SafeUpTo(Text(l), prev, |Text(l)|)
    requires l == Punctuation(')') ==> depth != 1
    ensures ToggleEnd(Text(l) + rest, prev, depth, None)
      == Shift(|Text(l)|, ToggleEnd(rest, Last(Text(l), prev), depth + LexemeDelta(l), None))
  {
    var t := Text(l);
    match l
    case Literal(body) => PassLiteral(body, rest, prev, depth);
    case Quoted(open, name) => PassQuoted(open, name, rest, prev, depth);
    case Punctuation(c) =>
      assert (t + rest)[0] == c && (t + rest)[1..] == rest;
    case Bare(name) =>
      assert forall i :: 0 <= i < |t| ==> IsIdentPart(t[i]);
      PassRun(t, rest, prev, depth, None);
    case Number(whole, fraction) =>
      assert forall i :: 0 <= i < |t| ==> IsDigit(t[i]) || t[i] == '.';
      PassRun(t, rest, prev, depth, None);
    case _ => PassRun(t, rest, prev, depth, None);
  }

  lemma PassLiteral(body: seq<Unit>, rest: string, prev: char, depth: int)
    requires WellFormed(Literal(body)) && SafeUpTo(Text(Literal(body)), prev, |Text(Literal(body))|)
    ensures ToggleEnd(Text(Literal(body)) + rest, prev, depth, None)
      == Shift(|Text(Literal(body))|, ToggleEnd(rest, '\'', depth, None))
  {
    var b := BodyText(body);
    Associate("'", b, "'");
    SafeUnit("'", b + "'", prev);
    PassBody(body, rest, '\'', depth);
    var s := Text(Literal(body)) + rest;
    EnclosedFront('\'', b, '\'', rest);
    hide BodyText;
    assert s[0] == '\'' && s[1..] == b + ("'" + rest);
  }

  lemma PassQuoted(open: char, name: string, rest: string, prev: char, depth: int)
    requires WellFormed(Quoted(open, name))
    ensures ToggleEnd(Text(Quoted(open, name)) + rest, prev, depth, None)
      == Shift(|name| + 2, ToggleEnd(rest, Closing(open), depth, None))
  {
    var t := Text(Quoted(open, name));
    assert forall i :: 0 <= i < |name| ==> i == 0 || IsIdentPart(name[i]);
    if open == '"' {
      var tail := ['"'] + rest;
      EnclosedFront('"', name, '"', rest);
      PassRun(name, tail, '"', depth, Some('"'));
      assert tail[0] == '"' && tail[1..] == rest;
      assert Last(name, '"') != '\\';
    } else {
      assert forall i :: 0 <= i < |t| ==> Passes(t[i], None);
      PassRun(t, rest, prev, depth, None);
    }
  }

  /** The index of the token that closes the group open at depth `depth`. */
  function TokenClose(ts: seq<string>, depth: int): (r: Option<nat>)
    ensures r.Some? ==> r.value < |ts|
  {
    if ts == [] then None
    else if ts[0] == ")" && depth == 1 then Some(0)
    else Shift(1, TokenClose(ts[1..], depth + Delta(ts[0])))
  }

  lemma DeltaOfLexeme(l: Lexeme)
    requires WellFormed(l)
    ensures !l.Gap? ==> |Token(l)| == 1 && Delta(Token(l)[0]) == LexemeDelta(l)
    ensures !l.Gap? ==> (Token(l)[0] == ")" <==> l == Punctuation(')'))
    ensures l.Gap? ==> Token(l) == [] && LexemeDelta(l) == 0
  {
    FrontCharacter(l);
    if l.Quoted? || l.Bare? {
      assert IsIdentStart(Lower(l.name)[0]);
    }
  }

  /** The scanner's result r, for the group at depth `depth`, in lexemes (m) and in tokens (k). */
  predicate ClosesAt(r: Option<nat>, ls: seq<Lexeme>, depth: int, m: nat, k: nat) {
    match r
    case None => TokenClose(TokensOf(ls), depth) == None
    case Some(p) =>
      && m < |ls| && ls[m] == Punctuation(')') && p == |TextOf(ls[..m])|
      && TokenClose(TokensOf(ls), depth) == Some(k)
      && k < |TokensOf(ls)| && TokensOf(ls[..m]) == TokensOf(ls)[..k]
  }

  /** Where the toggling scanner stops in a spelled text. */
  lemma {:induction false} CloseSpelled(ls: seq<Lexeme>, u: string, prev: char, depth: int)
    returns (m: nat, k: nat)
    requires Spells(ls, u) && SafeUpTo(u, prev, |u|)
    ensures ClosesAt(ToggleEnd(u, prev, depth, None), ls, depth, m, k)
    decreases |ls|
  {
    m, k := 0, 0;
    if ls != [] {
      hide ToggleEnd, Spells, Text, TokenClose, TokensOf, TextOf, WellFormed, LexemeDelta, Token;
      var l, rest, before := PassHead(ls, u, prev, depth);
      if l == Punctuation(')') && depth == 1 {
        ClosesHere(ls, u, prev);
      } else {
        var d := depth + LexemeDelta(l);
        m, k := CloseSpelled(ls[1..], rest, before, d);
        ClosesNext(ToggleEnd(rest, before, d, None), ls, depth, m, k);
        m, k := m + 1, k + |Token(l)|;
      }
    }
  }

  lemma PassHead(ls: seq<Lexeme>, u: string, prev: char, depth: int)
    returns (l: Lexeme, rest: string, before: char)
    requires ls != [] && Spells(ls, u) && SafeUpTo(u, prev, |u|)
    ensures l == ls[0] && WellFormed(l) && Spells(ls[1..], rest) && SafeUpTo(rest, before, |rest|)
    ensures l == Punctuation(')') ==> u != "" && u[0] == ')'
    ensures !(l == Punctuation(')') && depth == 1) ==>
      ToggleEnd(u, prev, depth, None)
        == Shift(|Text(l)|, ToggleEnd(rest, before, depth + LexemeDelta(l), None))
  {
    l := ls[0];
    var t := Text(l);
    rest, before := u[|t|..], Last(t, prev);
    Divide(t, u);
    TextNonEmpty(l);
    SafeUnit(t, rest, prev);
    if !(l == Punctuation(')') && depth == 1) {
      PassLexeme(l, rest, prev, depth);
    }
  }

  lemma ClosesHere(ls: seq<Lexeme>, u: string, prev: char)
    requires ls != [] && ls[0] == Punctuation(')') && u != "" && u[0] == ')'
    ensures ClosesAt(ToggleEnd(u, prev, 1, None), ls, 1, 0, 0)
  {
    assert TokensOf(ls)[0] == ")" && ls[..0] == [];
    assert TokensOf(ls)[..0] == [];
  }

  lemma ClosesNext(r: Option<nat>, ls: seq<Lexeme>, depth: int, m: nat, k: nat)
    requires ls != [] && WellFormed(ls[0]) && !(ls[0] == Punctuation(')') && depth == 1)
    requires ClosesAt(r, ls[1..], depth + LexemeDelta(ls[0]), m, k)
    ensures ClosesAt(Shift(|Text(ls[0])|, r), ls, depth, m + 1, k + |Token(ls[0])|)
  {
    CloseStep(ls, depth);
    if r.Some? {
      FrontStep(ls, m, k);
    }
  }

  lemma CloseStep(ls: seq<Lexeme>, depth: int)
    requires ls != [] && WellFormed(ls[0]) && !(ls[0] == Punctuation(')') && depth == 1)
    ensures TokenClose(TokensOf(ls), depth)
      == Shift(|Token(ls[0])|, TokenClose(TokensOf(ls[1..]), depth + LexemeDelta(ls[0])))
  {
    DeltaOfLexeme(ls[0]);
    var ts, tail := TokensOf(ls), TokensOf(ls[1..]);
    hide LexemeDelta, Token, WellFormed;
    if ls[0].Gap? {
      assert ts == tail;
    } else {
      assert ts[0] == Token(ls[0])[0] && ts[1..] == tail;
    }
  }

  lemma {:induction false} FrontStep(ls: seq<Lexeme>, m: nat, k: nat)
    requires ls != [] && m < |ls| - 1 && k <= |TokensOf(ls[1..])|
    ensures TextOf(ls[..m + 1]) == Text(ls[0]) + TextOf(ls[1..][..m])
    ensures TokensOf(ls[..m + 1]) == Token(ls[0]) + TokensOf(ls[1..][..m])
    ensures TokensOf(ls)[..k + |Token(ls[0])|] == Token(ls[0]) + TokensOf(ls[1..])[..k]
  {
    hide Text, Token;
    assert ls[..m + 1][1..] == ls[1..][..m];
    assert TokensOf(ls) == Token(ls[0]) + TokensOf(ls[1..]);
  }

  /**
    In a text that lexes, both scanners stop exactly where counting tokens says the first
    group closes, and the characters they cut out are the tokens of that group.
   */
  lemma {:induction false} ClauseIsTokenMatch(u: string, ts: seq<string>) returns (k: nat)
    requires u != "" && u[0] == '(' && Lex(u) == Ok(ts) && NoEscapedQuote(u)
    ensures DoubleEnd(u, 0, None) == ToggleEnd(u, '(', 0, None)
    ensures match ToggleEnd(u, '(', 0, None)
      case None => TokenClose(ts, 0) == None
      case Some(p) =>
        && p > 0 && 0 < k < |ts| && TokenClose(ts, 0) == Some(k)
        && Lex(u[1..p]) == Ok(ts[1..k]) && Lex(u[p + 1..]) == Ok(ts[k + 1..])
  {
    SafeScannersAgree(u);
    k := ToggleIsTokenMatch(u, ts);
  }

  lemma SafeScannersAgree(u: string)
    requires NoEscapedQuote(u) && (u != "" ==> !IsQuote(u[0]))
    ensures DoubleEnd(u, 0, None) == ToggleEnd(u, '(', 0, None)
  {
    SafeAll(u, '(');
    hide DoubleEnd, ToggleEnd, Unescaped, Scanned, SafeUpTo;
    SafeIsUnescaped(u, '(', Scan(0, None));
    ScannersAgree(u, '(', Scan(0, None));
  }

  lemma ToggleIsTokenMatch(u: string, ts: seq<string>) returns (k: nat)
    requires u != "" && u[0] == '(' && Lex(u) == Ok(ts) && NoEscapedQuote(u)
    ensures match ToggleEnd(u, '(', 0, None)
      case None => TokenClose(ts, 0) == None
      case Some(p) =>
        && p > 0 && 0 < k < |ts| && TokenClose(ts, 0) == Some(k)
        && Lex(u[1..p]) == Ok(ts[1..k]) && Lex(u[p + 1..]) == Ok(ts[k + 1..])
  {
    hide Lex, ToggleEnd, Text, WellFormed, Fits, SafeUpTo, TokenClose, Spells, TextOf, TokensOf, NoEscapedQuote;
    SafeAll(u, '(');
    var ls := Decompose(u);
    OpensWithParen(ls, u);
    var m: nat;
    m, k := CloseSpelled(ls, u, '(', 0);
    if ToggleEnd(u, '(', 0, None).Some? {
      CutClause(ls, u, m, k);
    }
  }

  lemma SafeAll(u: string, prev: char)
    requires NoEscapedQuote(u) && (u != "" ==> !IsQuote(u[0]))
    ensures forall n :: 0 <= n <= |u| ==> SafeUpTo(u, prev, n)
  {
    forall i | 0 <= i < |u|
      ensures !EscapedAt(u, prev, i)
    {
      assert i > 0 ==> !EscapedAt(u, ' ', i);
    }
  }

  lemma OpensWithParen(ls: seq<Lexeme>, u: string)
    requires Spells(ls, u) && u != "" && u[0] == '('
    ensures ls != [] && ls[0] == Punctuation('(')
  {
    Divide(Text(ls[0]), u);
    FrontCharacter(ls[0]);
  }

  lemma CutClause(ls: seq<Lexeme>, u: string, m: nat, k: nat)
    requires Spells(ls, u) && ls != [] && ls[0] == Punctuation('(')
    requires m < |ls| && ls[m] == Punctuation(')')
    requires k < |TokensOf(ls)| && TokensOf(ls[..m]) == TokensOf(ls)[..k]
    ensures 0 < k && 0 < |TextOf(ls[..m])| < |u|
    ensures var p, ts := |TextOf(ls[..m])|, TokensOf(ls);
      Lex(u[1..p]) == Ok(ts[1..k]) && Lex(u[p + 1..]) == Ok(ts[k + 1..])
  {
    hide *;
    var front, back := ls[..m], ls[m..];
    assert ls == front + back && back[0] == Punctuation(')') && front[0] == Punctuation('(');
    SpellsPrefix(front, back, u);
    var text, after := TextOf(front), u[|TextOf(front)|..];
    AfterParen(front, text);
    AfterParen(back, after);
    TokensConcat(front, back);
    assert text[1..] == u[1..|text|] && after[1..] == u[|text| + 1..];
    CutTokens(TokensOf(ls), TokensOf(front), TokensOf(back), k);
  }

  lemma AfterParen(ls: seq<Lexeme>, u: string)
    requires ls != [] && (ls[0] == Punctuation('(') || ls[0] == Punctuation(')')) && Spells(ls, u)
    ensures u != "" && TokensOf(ls) != [] && Lex(u[1..]) == Ok(TokensOf(ls)[1..])
  {
    assert Text(ls[0]) == [ls[0].c];
    SpelledIsLexed(ls[1..], u[1..]);
    assert TokensOf(ls)[1..] == TokensOf(ls[1..]);
  }

  lemma CutTokens(ts: seq<string>, front: seq<string>, back: seq<string>, k: nat)
    requires ts == front + back && front != [] && back != [] && k < |ts| && front == ts[..k]
    ensures 0 < k && ts[1..k] == front[1..] && ts[k + 1..] == back[1..]
  {
  }

  lemma {:induction false} TokensConcat(a: seq<Lexeme>, b: seq<Lexeme>)
    ensures TokensOf(a + b) == TokensOf(a) + TokensOf(b)
  {
    if a == [] {
      assert a + b == b;
    } else {
      assert (a + b)[1..] == a[1..] + b;
      TokensConcat(a[1..], b);
    }
  }

  // ---- A clause between parentheses is read back ----

  lemma {:induction false} PassAll(ls: seq<Lexeme>, e: string, rest: string, prev: char, depth: int,
                                   last: char, after: int)
    requires Spells(ls, e) && SafeUpTo(e, prev, |e|)
    requires TokenClose(TokensOf(ls), depth) == None
    requires last == Last(e, prev) && after == depth + Depth(TokensOf(ls))
    ensures ToggleEnd(e + rest, prev, depth, None) == Shift(|e|, ToggleEnd(rest, last, after, None))
    decreases |ls|
  {
    if ls == [] {
      assert e + rest == rest;
    } else {
      var l, t := ls[0], Text(ls[0]);
      var inner, before, d := e[|t|..], Last(t, prev), depth + LexemeDelta(l);
      Divide(t, e);
      TextNonEmpty(l);
      DeltaOfLexeme(l);
      SafeUnit(t, inner, prev);
      StaysOpen(ls, depth, d);
      DepthOfFirst(ls);
      LastTwice(t, inner, prev);
      hide *;
      PassFirst(l, e, inner, rest, prev, depth, before, d);
      PassAll(ls[1..], inner, rest, before, d, last, after);
      ShiftTwice(|t|, |inner|, ToggleEnd(rest, last, after, None));
    }
  }

  lemma StaysOpen(ls: seq<Lexeme>, depth: int, d: int)
    requires ls != [] && WellFormed(ls[0]) && d == depth + LexemeDelta(ls[0])
    requires TokenClose(TokensOf(ls), depth) == None
    ensures TokenClose(TokensOf(ls[1..]), d) == None
    ensures ls[0] == Punctuation(')') ==> depth != 1
  {
    DeltaOfLexeme(ls[0]);
    if ls[0] == Punctuation(')') {
      assert TokensOf(ls)[0] == ")";
    }
    CloseStep(ls, depth);
  }

  lemma PassFirst(l: Lexeme, e: string, inner: string, rest: string, prev: char, depth: int, before: char, d: int)
    requires WellFormed(l) && SafeUpTo(Text(l), prev, |Text(l)|)
    requires e == Text(l) + inner && before == Last(Text(l), prev) && d == depth + LexemeDelta(l)
    requires l == Punctuation(')') ==> depth != 1
    ensures ToggleEnd(e + rest, prev, depth, None)
      == Shift(|Text(l)|, ToggleEnd(inner + rest, before, d, None))
  {
    hide *;
    PassLexeme(l, inner + rest, prev, depth);
    Associate(Text(l), inner, rest);
  }

  lemma ShiftTwice(m: nat, n: nat, r: Option<nat>)
    ensures Shift(m, Shift(n, r)) == Shift(m + n, r)
    ensures Shift(m, r).None? == r.None?
  {
  }

  lemma LastTwice(x: string, y: string, prev: char)
    ensures Last(x + y, prev) == Last(y, Last(x, prev))
  {
  }

  lemma DepthOfFirst(ls: seq<Lexeme>)
    requires ls != [] && WellFormed(ls[0])
    ensures Depth(TokensOf(ls)) == LexemeDelta(ls[0]) + Depth(TokensOf(ls[1..]))
  {
    DeltaOfLexeme(ls[0]);
    DepthConcat(Token(ls[0]), TokensOf(ls[1..]));
    if !ls[0].Gap? {
      DepthStep(Token(ls[0]), 0);
      assert Token(ls[0])[..1] == Token(ls[0]) && Token(ls[0])[..0] == [];
    }
  }

  lemma {:induction false} NeverCloses(ts: seq<string>, depth: int)
    requires forall i :: 0 <= i <= |ts| ==> depth + Depth(ts[..i]) > 0
    ensures TokenClose(ts, depth) == None
    decreases |ts|
  {
    if ts != [] {
      var d := Delta(ts[0]);
      DepthStep(ts, 0);
      assert depth + Depth(ts[..1]) > 0 && ts[..0] == [];
      forall i | 0 <= i <= |ts| - 1
        ensures depth + d + Depth(ts[1..][..i]) > 0
      {
        DepthConcat(ts[..1], ts[1..][..i]);
        assert ts[..1] + ts[1..][..i] == ts[..i + 1];
        assert depth + Depth(ts[..i + 1]) > 0;
      }
      NeverCloses(ts[1..], depth + d);
    }
  }

  /** An expression the extraction reads back from between parentheses. */
  ghost predicate Readable(e: string) {
    Lex(e).Ok? && Balanced(Lex(e).value) && NoEscapedQuote(e)
  }

  /** Both scanners cut a readable expression out of the parentheses round it, whatever follows. */
  lemma {:induction false} ClauseReadBack(e: string, post: string)
    requires Readable(e)
    ensures ToggleEnd("(" + (e + (")" + post)), '(', 0, None) == Some(|e| + 1)
    ensures DoubleEnd("(" + (e + (")" + post)), 0, None) == Some(|e| + 1)
  {
    var u, tail := "(" + (e + (")" + post)), ")" + post;
    SafeAfterParen(e);
    ToggleReadBack(e, post);
    forall i | 0 <= i < |e| + 1
      ensures !EscapedAt(u, '(', i)
    {
      if i > 0 {
        assert u[i] == e[i - 1] && u[i - 1] == (if i == 1 then '(' else e[i - 2]);
        assert !EscapedAt(e, '(', i - 1);
      }
    }
    hide DoubleEnd, ToggleEnd;
    SafeIsUnescaped(u, '(', Scan(0, None));
    ScannersAgree(u, '(', Scan(0, None));
  }

  lemma {:induction false} ToggleReadBack(e: string, post: string)
    requires Readable(e) && SafeUpTo(e, '(', |e|)
    ensures ToggleEnd("(" + (e + (")" + post)), '(', 0, None) == Some(|e| + 1)
  {
    var ls := Decompose(e);
    NeverCloses(Lex(e).value, 1);
    assert Depth(TokensOf(ls)) == 0;
    AtParens(e, post, Last(e, '('));
    hide ToggleEnd, Lex;
    PassAll(ls, e, ")" + post, '(', 1, Last(e, '('), 1);
  }

  lemma AtParens(e: string, post: string, prev: char)
    ensures ToggleEnd("(" + (e + (")" + post)), '(', 0, None)
      == Shift(1, ToggleEnd(e + (")" + post), '(', 1, None))
    ensures ToggleEnd(")" + post, prev, 1, None) == Some(0)
  {
    var inner := e + (")" + post);
    assert ("(" + inner)[0] == '(' && ("(" + inner)[1..] == inner;
    assert (")" + post)[0] == ')';
  }

  lemma SafeAfterParen(e: string)
    requires NoEscapedQuote(e)
    ensures SafeUpTo(e, '(', |e|)
  {
    forall i | 0 <= i < |e|
      ensures !EscapedAt(e, '(', i)
    {
      assert i > 0 ==> !EscapedAt(e, ' ', i);
    }
  }
}
