/**
  Which workspace a user's tokens name (config/serializers.py, lines 245-270 and 356-406;
  bfg2/bfg/platform/views/switch_workspace_view.py, lines 28-60).

  The state is the user's rows and every pair of tokens issued; a run mixes sign-ins, membership
  changes, switches, and refreshes with any refresh token issued before.
 */
module TokenRefresh {
  import opened Wrappers

  /** One membership row of the user. */
  datatype Membership = Membership(workspace: int, active: bool)

  /** What the rows say about one user: staff and customer rows in query order. */
  datatype Account = Account(userActive: bool, active: set<int>, defaultWorkspace: Option<int>,
                             staff: seq<Membership>, customers: seq<Membership>)

  predicate Holds(rows: seq<Membership>, w: int) {
    exists i :: 0 <= i < |rows| && rows[i] == Membership(w, true)
  }

  /** `_is_active_member`. */
  predicate IsActiveMember(a: Account, w: int) {
    w in a.active && (Holds(a.staff, w) || Holds(a.customers, w))
  }

  /** The first row that is active in an active workspace. */
  function FirstActive(rows: seq<Membership>, active: set<int>): Option<int> {
    if rows == [] then None
    else if rows[0].active && rows[0].workspace in active then Some(rows[0].workspace)
    else FirstActive(rows[1..], active)
  }

  /** `_resolve_workspace_id`. */
  function Resolve(a: Account): Option<int> {
    if a.defaultWorkspace.Some? && a.defaultWorkspace.value in a.active && Holds(a.staff, a.defaultWorkspace.value)
    then a.defaultWorkspace
    else
      match FirstActive(a.staff, a.active)
      case Some(w) => Some(w)
      case None => FirstActive(a.customers, a.active)
  }

  /** The workspace claims of an access token and of the refresh token issued with it. */
  datatype Tokens = Tokens(access: Option<int>, refresh: Option<int>)

  /** A pair of tokens, the rows at that moment, and the pair whose refresh token it was obtained with. */
  datatype Issue = Issue(tokens: Tokens, account: Account, parent: Option<nat>)

  /** The claim a refresh hands out; the user has been found and is the token's own. */
  function Refreshed(a: Account, claim: Option<int>): Option<int> {
    if claim.None? || !IsActiveMember(a, claim.value) then Resolve(a) else claim
  }

  /** Both tokens name one workspace, where the user is an active member, or none when there is none. */
  predicate Grants(a: Account, t: Tokens) {
    && t.access == t.refresh
    && match t.access
       case Some(w) => IsActiveMember(a, w)
       case None => !HasMembership(a)
  }

  /** As sign-in chooses. */
  ghost predicate Chosen(a: Account, t: Tokens) {
    Grants(a, t) && (t.access.Some? ==> Preferred(a, t.access.value))
  }

  class Sessions {
    var issued: seq<Issue>

    constructor ()
      ensures issued == []
    {
      issued := [];
    }

    /** Sign-in: a pair for the preferred workspace. */
    method SignIn(a: Account) returns (tokens: Tokens)
      modifies this
      ensures Chosen(a, tokens) && issued == old(issued) + [Issue(tokens, a, None)]
      ensures State(a, issued) == Step(State(a, old(issued)), Event.SignIn)
    {
      ResolveExact(a);
      var claim := Resolve(a);
      var access := claim;
      tokens := Tokens(access, claim);
      issued := issued + [Issue(tokens, a, None)];
    }

    /**
      A refresh with the i-th refresh token.  Its workspace is kept while the user is an active
      member there; None when the account may not sign in.
     */
    method Refresh(a: Account, i: nat) returns (tokens: Option<Tokens>)
      requires i < |issued|
      modifies this
      ensures !a.userActive ==> tokens == None && issued == old(issued)
      ensures a.userActive ==>
        && tokens.Some? && issued == old(issued) + [Issue(tokens.value, a, Some(i))] && Grants(a, tokens.value)
        && var was := old(issued)[i].tokens.refresh;
          if was.Some? && IsActiveMember(a, was.value) then tokens.value.access == was else Chosen(a, tokens.value)
      ensures State(a, issued) == Step(State(a, old(issued)), Event.Refresh(i))
    {
      if !a.userActive {
        return None;
      }
      var claim := issued[i].tokens.refresh;
      if claim.None? || !IsActiveMember(a, claim.value) {
        ResolveExact(a);
        claim := Resolve(a);
      }
      var access := claim;
      tokens := Some(Tokens(access, claim));
      issued := issued + [Issue(tokens.value, a, Some(i))];
    }

    /** A switch to one of the user's own workspaces; for staff it becomes the default as well. */
    method Switch(a: Account, w: int) returns (after: Account, tokens: Option<Tokens>)
      modifies this
      ensures !IsActiveMember(a, w) ==> after == a && tokens == None && issued == old(issued)
      ensures IsActiveMember(a, w) ==>
        && tokens == Some(Tokens(Some(w), Some(w))) && after == Switched(a, w)
        && issued == old(issued) + [Issue(Tokens(Some(w), Some(w)), after, None)]
      ensures State(after, issued) == Step(State(a, old(issued)), Event.Switch(w))
    {
      if !IsActiveMember(a, w) {
        return a, None;
      }
      after := a;
      if Holds(a.staff, w) && a.defaultWorkspace != Some(w) {
        after := a.(defaultWorkspace := Some(w));
      }
      var claim := Some(w);
      tokens := Some(Tokens(claim, claim));
      issued := issued + [Issue(Tokens(claim, claim), after, None)];
    }
  }

  function Switched(a: Account, w: int): Account {
    if Holds(a.staff, w) then a.(defaultWorkspace := Some(w)) else a
  }

  // ---- One refresh ----

  predicate Counts(m: Membership, active: set<int>) {
    m.active && m.workspace in active
  }

  /** Row k is an active membership of an active workspace, and no row before it is. */
  predicate FirstRow(rows: seq<Membership>, active: set<int>, k: nat) {
    k < |rows| && Counts(rows[k], active) && forall j :: 0 <= j < k ==> !Counts(rows[j], active)
  }

  lemma {:induction false} FirstActiveExact(rows: seq<Membership>, active: set<int>)
    ensures match FirstActive(rows, active)
      case Some(w) =>
        w in active && Holds(rows, w) && exists k: nat :: FirstRow(rows, active, k) && rows[k].workspace == w
      case None => forall w :: w in active ==> !Holds(rows, w)
  {
    if rows != [] && !(rows[0].active && rows[0].workspace in active) {
      var rest := rows[1..];
      FirstActiveExact(rest, active);
      forall w | w in active
        ensures Holds(rows, w) <==> Holds(rest, w)
      {
        if Holds(rows, w) {
          var i :| 0 <= i < |rows| && rows[i] == Membership(w, true);
          assert rest[i - 1] == Membership(w, true);
        }
        if Holds(rest, w) {
          var i :| 0 <= i < |rest| && rest[i] == Membership(w, true);
          assert rows[i + 1] == Membership(w, true);
        }
      }
      if FirstActive(rest, active).Some? {
        var k: nat :| FirstRow(rest, active, k) && rest[k].workspace == FirstActive(rest, active).value;
        forall j | 0 <= j < k + 1
          ensures !Counts(rows[j], active)
        {
          assert j > 0 ==> rows[j] == rest[j - 1];
        }
        assert FirstRow(rows, active, k + 1);
      }
    } else if rows != [] {
      assert rows[0] == Membership(rows[0].workspace, true);
      assert FirstRow(rows, active, 0);
    }
  }

  predicate HasMembership(a: Account) {
    exists w :: w in a.active && IsActiveMember(a, w)
  }

  /** The user's own default comes first, then the first staff row, then the first customer row. */
  ghost predicate Preferred(a: Account, w: int) {
    if a.defaultWorkspace.Some? && a.defaultWorkspace.value in a.active && Holds(a.staff, a.defaultWorkspace.value)
    then a.defaultWorkspace == Some(w)
    else if exists v :: v in a.active && Holds(a.staff, v)
    then exists k: nat :: FirstRow(a.staff, a.active, k) && a.staff[k].workspace == w
    else exists k: nat :: FirstRow(a.customers, a.active, k) && a.customers[k].workspace == w
  }

  /** The workspace chosen is the preferred one of the user's active memberships; None only when there is none. */
  lemma ResolveExact(a: Account)
    ensures match Resolve(a)
      case Some(w) => IsActiveMember(a, w) && Preferred(a, w)
      case None => !HasMembership(a)
  {
    FirstActiveExact(a.staff, a.active);
    FirstActiveExact(a.customers, a.active);
  }

  lemma RefreshedExact(a: Account, claim: Option<int>)
    ensures match Refreshed(a, claim)
      case Some(w) => IsActiveMember(a, w)
      case None => !HasMembership(a)
    ensures claim.Some? && IsActiveMember(a, claim.value) ==> Refreshed(a, claim) == claim
  {
    ResolveExact(a);
  }

  /** Membership is an active row, as staff or as customer, in an active workspace. */
  lemma MemberExact(a: Account, w: int)
    ensures IsActiveMember(a, w) <==>
      w in a.active && (Membership(w, true) in a.staff || Membership(w, true) in a.customers)
  {
  }

  /** A switch changes the default of staff, leaves a customer's alone, and changes nothing else. */
  lemma SwitchedExact(a: Account, w: int)
    ensures Membership(w, true) in a.staff ==> Switched(a, w).defaultWorkspace == Some(w)
    ensures Membership(w, true) !in a.staff ==> Switched(a, w).defaultWorkspace == a.defaultWorkspace
    ensures Switched(a, w) == Account(a.userActive, a.active, Switched(a, w).defaultWorkspace, a.staff, a.customers)
  {
  }

  /** The next sign-in of a staff member lands in the workspace switched to. */
  lemma SwitchThenSignIn(a: Account, w: int)
    requires IsActiveMember(a, w) && Holds(a.staff, w)
    ensures Resolve(Switched(a, w)) == Some(w)
  {
  }

  // ---- Runs ----

  /** `Change` is any change of the rows; `Refresh` uses the i-th refresh token, if there is one. */
  datatype Event = SignIn | Change(account: Account) | Refresh(i: nat) | Switch(workspace: int)

  datatype State = State(account: Account, issued: seq<Issue>)

  function Step(s: State, e: Event): State {
    match e
    case SignIn => s.(issued := s.issued + [Issue(Tokens(Resolve(s.account), Resolve(s.account)), s.account, None)])
    case Change(account) => s.(account := account)
    case Refresh(i) =>
      if i >= |s.issued| || !s.account.userActive then s
      else
        var w := Refreshed(s.account, s.issued[i].tokens.refresh);
        s.(issued := s.issued + [Issue(Tokens(w, w), s.account, Some(i))])
    case Switch(w) =>
      if !IsActiveMember(s.account, w) then s
      else
        var after := Switched(s.account, w);
        State(after, s.issued + [Issue(Tokens(Some(w), Some(w)), after, None)])
  }

  function Run(s: State, es: seq<Event>): State
    decreases |es|
  {
    if es == [] then s else Run(Step(s, es[0]), es[1..])
  }

  ghost predicate AllGranted(issued: seq<Issue>) {
    forall i :: 0 <= i < |issued| ==> Grants(issued[i].account, issued[i].tokens)
  }

  lemma StepGrants(s: State, e: Event)
    requires AllGranted(s.issued)
    ensures AllGranted(Step(s, e).issued)
  {
    ResolveExact(s.account);
    if e.Refresh? && e.i < |s.issued| {
      RefreshedExact(s.account, s.issued[e.i].tokens.refresh);
    }
    hide Resolve, Refreshed, HasMembership;
  }

  /**
    In every run, every pair of tokens ever issued names one workspace in both tokens, one in
    which the user was an active member when it was issued, or none exactly when there was none.
   */
  lemma {:induction false} EveryPairGranted(s: State, es: seq<Event>)
    requires AllGranted(s.issued)
    ensures AllGranted(Run(s, es).issued)
    decreases |es|
  {
    hide AllGranted, Step;
    if es != [] {
      StepGrants(s, es[0]);
      EveryPairGranted(Step(s, es[0]), es[1..]);
    }
  }

  /** Pair k was obtained by refreshing, once or more, from pair i. */
  predicate Descends(issued: seq<Issue>, i: nat, k: nat)
    decreases k
  {
    k < |issued| &&
    (k == i || (issued[k].parent.Some? && issued[k].parent.value < k && Descends(issued, i, issued[k].parent.value)))
  }

  predicate AllIn(issued: seq<Issue>, i: nat, w: int) {
    forall k :: 0 <= k < |issued| && Descends(issued, i, k) ==> issued[k].tokens == Tokens(Some(w), Some(w))
  }

  /** The user is an active member of w in every state of the run. */
  predicate StaysMember(s: State, es: seq<Event>, w: int)
    decreases |es|
  {
    IsActiveMember(s.account, w) && (es == [] || StaysMember(Step(s, es[0]), es[1..], w))
  }

  lemma {:induction false} DescendsEarlier(issued: seq<Issue>, more: seq<Issue>, i: nat, k: nat)
    requires k < |issued|
    ensures Descends(issued + more, i, k) <==> Descends(issued, i, k)
    decreases k
  {
    assert (issued + more)[k] == issued[k];
    if issued[k].parent.Some? && issued[k].parent.value < k {
      DescendsEarlier(issued, more, i, issued[k].parent.value);
    }
  }

  lemma StepSticks(s: State, e: Event, w: int, i: nat)
    requires i < |s.issued| && AllIn(s.issued, i, w) && IsActiveMember(s.account, w)
    ensures i < |Step(s, e).issued| && AllIn(Step(s, e).issued, i, w)
  {
    hide Resolve, IsActiveMember, Switched;
    var next := Step(s, e).issued;
    if next != s.issued {
      assert next == s.issued + [next[|s.issued|]];
      forall k | 0 <= k < |next| && Descends(next, i, k)
        ensures next[k].tokens == Tokens(Some(w), Some(w))
      {
        if k < |s.issued| {
          DescendsEarlier(s.issued, [next[|s.issued|]], i, k);
        } else {
          DescendsEarlier(s.issued, [next[|s.issued|]], i, e.i);
        }
      }
    }
  }

  /**
    A session stays in its workspace for as long as the membership holds without a break: every
    pair refreshed from a pair for w names w, whatever else happens in between.
   */
  lemma {:induction false} SessionSticks(s: State, es: seq<Event>, w: int, i: nat)
    requires i < |s.issued| && AllIn(s.issued, i, w) && StaysMember(s, es, w)
    ensures AllIn(Run(s, es).issued, i, w)
    decreases |es|
  {
    if es != [] {
      StepSticks(s, es[0], w, i);
      hide AllIn, Step, IsActiveMember;
      SessionSticks(Step(s, es[0]), es[1..], w, i);
    }
  }
}
