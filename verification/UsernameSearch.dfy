/**
  The search for an unused name (config/serializers.py, lines 50-59; the role codes of
  bfg2/bfg/common/views.py, lines 2513-2519, follow the same rule with "_" before the number).
 */
module UsernameSearch {
  function Decimal(n: nat): string {
    if n < 10 then [('0' as int + n) as char] else Decimal(n / 10) + [('0' as int + n % 10) as char]
  }

  function Reading(digits: string): int {
    if digits == [] then 0 else 10 * Reading(digits[..|digits| - 1]) + (digits[|digits| - 1] as int - '0' as int)
  }

  /** A decimal numeral reads back as its number, so no two numbers share one. */
  lemma {:induction false} DecimalReadBack(n: nat)
    ensures Reading(Decimal(n)) == n && Decimal(n) != []
  {
    var digits := Decimal(n);
    if n >= 10 {
      DecimalReadBack(n / 10);
      assert digits[..|digits| - 1] == Decimal(n / 10);
    } else {
      assert digits[..|digits| - 1] == [];
    }
  }

  /** The k-th name tried: base, base1, base2, and so on. */
  function Candidate(base: string, separator: string, k: nat): string {
    if k == 0 then base else base + separator + Decimal(k)
  }

  const DIGITS := "0123456789"

  /** Numerals are made of digits and do not start with a zero. */
  lemma {:induction false} DecimalExact(n: nat)
    requires n > 0
    ensures Decimal(n) != [] && forall i :: 0 <= i < |Decimal(n)| ==> Decimal(n)[i] in DIGITS
    ensures Decimal(n)[0] != '0'
  {
    assert forall i :: 0 <= i < 10 ==> DIGITS[i] == ('0' as int + i) as char;
    assert DIGITS[n % 10] in DIGITS;
    if n >= 10 {
      DecimalExact(n / 10);
    }
  }

  /** The first name tried is the base alone; the others are the base, the separator and a numeral. */
  lemma CandidateExact(base: string, separator: string, k: nat)
    ensures Candidate(base, separator, 0) == base
    ensures k > 0 ==> exists digits ::
      && Candidate(base, separator, k) == base + (separator + digits) && Reading(digits) == k
      && digits != [] && digits[0] != '0' && forall i :: 0 <= i < |digits| ==> digits[i] in DIGITS
  {
    if k > 0 {
      DecimalReadBack(k);
      DecimalExact(k);
      assert base + separator + Decimal(k) == base + (separator + Decimal(k));
    }
  }

  lemma CandidatesDiffer(base: string, separator: string, j: nat, k: nat)
    requires Candidate(base, separator, j) == Candidate(base, separator, k)
    ensures j == k
  {
    DecimalReadBack(j);
    DecimalReadBack(k);
    var stem := |base| + |separator|;
    if j > 0 && k > 0 {
      assert Candidate(base, separator, j)[stem..] == Decimal(j);
      assert Candidate(base, separator, k)[stem..] == Decimal(k);
    }
  }

  /** Name k is free and every name before it is taken. */
  predicate FirstFree(base: string, separator: string, taken: set<string>, k: nat) {
    Candidate(base, separator, k) !in taken && forall j :: 0 <= j < k ==> Candidate(base, separator, j) in taken
  }

  /**
    The search loop.  It looks at no more than |taken| + 1 names and returns the first free one.
   */
  method FreshName(base: string, separator: string, taken: set<string>) returns (name: string, probes: nat)
    ensures name !in taken && 1 <= probes <= |taken| + 1
    ensures name == Candidate(base, separator, probes - 1) && FirstFree(base, separator, taken, probes - 1)
    ensures forall j :: 0 <= j < probes - 1 ==> Candidate(base, separator, j) in taken
  {
    name := base;
    var counter := 1;
    ghost var seen: set<string> := {};
    while name in taken
      invariant 1 <= counter && name == Candidate(base, separator, counter - 1)
      invariant seen <= taken && |seen| == counter - 1
      invariant forall s :: s in seen ==> exists j :: 0 <= j < counter - 1 && s == Candidate(base, separator, j)
      invariant forall j :: 0 <= j < counter - 1 ==> Candidate(base, separator, j) in seen
      decreases |taken| - |seen|
    {
      if name in seen {
        var j :| 0 <= j < counter - 1 && name == Candidate(base, separator, j);
        CandidatesDiffer(base, separator, j, counter - 1);
      }
      seen := seen + {name};
      Within(seen, taken);
      name := base + separator + Decimal(counter);
      counter := counter + 1;
    }
    Within(seen, taken);
    probes := counter;
  }

  lemma {:induction false} Within(part: set<string>, whole: set<string>)
    requires part <= whole
    ensures |part| <= |whole|
  {
    if part != {} {
      var s :| s in part;
      Within(part - {s}, whole - {s});
    }
  }

  /** The result does not depend on how the search is made: there is one first free name. */
  lemma OneFirstFree(base: string, separator: string, taken: set<string>, j: nat, k: nat)
    ensures FirstFree(base, separator, taken, j) && FirstFree(base, separator, taken, k) ==> j == k
  {
    assert j < k && FirstFree(base, separator, taken, k) ==> Candidate(base, separator, j) in taken;
    assert k < j && FirstFree(base, separator, taken, j) ==> Candidate(base, separator, k) in taken;
  }

  // ---- Registrations ----

  /** The part of an address before its first @, the whole of it when there is none. */
  function LocalPart(email: string): (local: string)
    ensures '@' !in local && local <= email && (local != email ==> email[|local|] == '@')
  {
    if email == "" || email[0] == '@' then "" else [email[0]] + LocalPart(email[1..])
  }

  /** A name the search can give: the first free one for this base. */
  ghost predicate Given(base: string, taken: set<string>, name: string) {
    exists k :: FirstFree(base, "", taken, k) && name == Candidate(base, "", k)
  }

  /** One registration after another, each seeing the names given before it. */
  ghost predicate Registered(emails: seq<string>, taken: set<string>, names: seq<string>)
    decreases |emails|
  {
    |names| == |emails|
    && (emails != [] ==>
          Given(LocalPart(emails[0]), taken, names[0]) && Registered(emails[1..], taken + {names[0]}, names[1..]))
  }

  /** No two accounts ever share a name, and each name starts with the address's local part. */
  lemma {:induction false} NamesNeverShared(emails: seq<string>, taken: set<string>, names: seq<string>)
    requires Registered(emails, taken, names)
    ensures forall i :: 0 <= i < |names| ==> names[i] !in taken && LocalPart(emails[i]) <= names[i]
    ensures forall i, j :: 0 <= i < j < |names| ==> names[i] != names[j]
    decreases |emails|
  {
    if emails != [] {
      NamesNeverShared(emails[1..], taken + {names[0]}, names[1..]);
      forall i | 0 < i < |names|
        ensures names[i] !in taken && names[i] != names[0] && LocalPart(emails[i]) <= names[i]
      {
        assert names[i] == names[1..][i - 1] && emails[i] == emails[1..][i - 1];
      }
      forall i, j | 0 <= i < j < |names|
        ensures names[i] != names[j]
      {
        if i > 0 {
          assert names[i] == names[1..][i - 1] && names[j] == names[1..][j - 1];
        }
      }
    }
  }

  lemma {:induction false} LaterNumber(emails: seq<string>, taken: set<string>, names: seq<string>, n: nat,
                                       base: string, j: nat, k: nat)
    requires Registered(emails, taken, names) && n < |emails| && LocalPart(emails[n]) == base
    requires names[n] == Candidate(base, "", k)
    requires Candidate(base, "", j) in taken && forall l :: 0 <= l < j ==> Candidate(base, "", l) in taken
    ensures j < k
    decreases |emails|
  {
    hide Candidate, LocalPart;
    if n == 0 {
      var l :| FirstFree(base, "", taken, l) && names[0] == Candidate(base, "", l);
      CandidatesDiffer(base, "", l, k);
      assert k <= j ==> Candidate(base, "", k) in taken;
    } else {
      assert emails[1..][n - 1] == emails[n] && names[1..][n - 1] == names[n];
      LaterNumber(emails[1..], taken + {names[0]}, names[1..], n - 1, base, j, k);
    }
  }

  /**
    In any run of registrations, accounts that share a local part are numbered in the order they
    register, whatever names are taken and whoever registers in between.
   */
  lemma {:induction false} NumberedInOrder(emails: seq<string>, taken: set<string>, names: seq<string>, m: nat, n: nat,
                                           j: nat, k: nat)
    requires Registered(emails, taken, names) && m < n < |emails| && LocalPart(emails[m]) == LocalPart(emails[n])
    requires names[m] == Candidate(LocalPart(emails[m]), "", j) && names[n] == Candidate(LocalPart(emails[n]), "", k)
    ensures j < k
    decreases |emails|
  {
    hide Candidate, LocalPart;
    var base := LocalPart(emails[m]);
    assert emails[1..][n - 1] == emails[n] && names[1..][n - 1] == names[n];
    if m == 0 {
      var l :| FirstFree(base, "", taken, l) && names[0] == Candidate(base, "", l);
      CandidatesDiffer(base, "", l, j);
      LaterNumber(emails[1..], taken + {names[0]}, names[1..], n - 1, base, j, k);
    } else {
      assert emails[1..][m - 1] == emails[m] && names[1..][m - 1] == names[m];
      NumberedInOrder(emails[1..], taken + {names[0]}, names[1..], m - 1, n - 1, j, k);
    }
  }

  /** And every registration gives a candidate of its own local part, so these numbers exist. */
  lemma {:induction false} Numbered(emails: seq<string>, taken: set<string>, names: seq<string>, m: nat)
    requires Registered(emails, taken, names) && m < |emails|
    ensures exists k: nat :: names[m] == Candidate(LocalPart(emails[m]), "", k)
    decreases |emails|
  {
    hide Candidate, LocalPart, FirstFree;
    if m == 0 {
      var k :| FirstFree(LocalPart(emails[0]), "", taken, k) && names[0] == Candidate(LocalPart(emails[0]), "", k);
    } else {
      Numbered(emails[1..], taken + {names[0]}, names[1..], m - 1);
      assert emails[1..][m - 1] == emails[m] && names[1..][m - 1] == names[m];
    }
  }
}
