/**
  The per-thread workspace binding (bfg2/bfg/common/middleware.py, lines 115-147 and 394-441;
  bfg2/bfg/common/managers.py, lines 41-46; bfg2/bfg/core/services.py, lines 36-41).

  A request body is any nesting of rebinding, service construction, `bound_workspace` blocks,
  queries and raised errors.  `Thread` runs it on a mutable binding; `Trace` gives the binding
  at each query from the shape of the body alone.
 */
module TenantBinding {
  import opened Wrappers

  type Workspace = int

  /** A row of a tenant-scoped model. */
  datatype Row = Row(workspace: Workspace, content: string)

  datatype Body =
    | Nothing
    | Rebind(workspace: Option<Workspace>)
    | NewService(workspace: Option<Workspace>)
    | Bound(workspace: Option<Workspace>, inner: Body)
    | Query
    | Raise
    | Then(first: Body, second: Body)
    | Catch(guarded: Body)

  /** TenantScopedManager.get_queryset: nothing when nothing is bound. */
  function Visible(rows: seq<Row>, binding: Option<Workspace>): seq<Row> {
    if rows == [] || binding.None? then []
    else (if rows[0].workspace == binding.value then [rows[0]] else []) + Visible(rows[1..], binding)
  }

  class Thread {
    var workspace: Option<Workspace>

    constructor ()
      ensures workspace == None
    {
      workspace := None;
    }

    method SetCurrentWorkspace(w: Option<Workspace>)
      modifies this
      ensures workspace == w
    {
      if w.None? {
        if workspace.Some? {
          workspace := None;
        }
        return;
      }
      workspace := w;
    }

    /** Runs a body; `seen` are the results of its queries, `raised` whether it ends in an error. */
    method Run(body: Body, rows: seq<Row>) returns (seen: seq<seq<Row>>, raised: bool)
      modifies this
      ensures raised == Raises(body) && workspace == After(old(workspace), body)
      ensures seen == Results(rows, Trace(old(workspace), body))
      decreases body, 0
    {
      seen, raised := [], false;
      match body
      case Nothing =>
      case Rebind(w) => SetCurrentWorkspace(w);
      case NewService(w) =>
        if w.Some? {
          SetCurrentWorkspace(w);
        }
      case Bound(w, inner) =>
        seen, raised := BoundWorkspace(w, inner, rows);
      case Query =>
        seen := [Visible(rows, workspace)];
      case Raise =>
        raised := true;
      case Then(first, second) =>
        ghost var before := workspace;
        seen, raised := Run(first, rows);
        if !raised {
          ghost var middle := workspace;
          var more;
          more, raised := Run(second, rows);
          ResultsBoth(rows, Trace(before, first), Trace(middle, second));
          seen := seen + more;
        }
      case Catch(guarded) =>
        seen, raised := Run(guarded, rows);
        raised := false;
    }

    /** The block is left by its end or by an error; the earlier binding is put back either way. */
    method BoundWorkspace(w: Option<Workspace>, inner: Body, rows: seq<Row>) returns (seen: seq<seq<Row>>, raised: bool)
      modifies this
      ensures raised == Raises(inner) && workspace == old(workspace)
      ensures seen == Results(rows, Trace(w, inner))
      decreases inner, 1
    {
      var previous := workspace;
      SetCurrentWorkspace(w);
      seen, raised := Run(inner, rows);
      SetCurrentWorkspace(previous);
    }

    /** WorkspaceMiddleware.__call__ round a request that resolved to `resolved`. */
    method Call(request: Request, view: Body, rows: seq<Row>) returns (response: Response, seen: seq<seq<Row>>)
      modifies this
      ensures workspace == None
      ensures response == Dispatched(request, view)
      ensures seen == if response.Viewed? then Results(rows, Trace(BindingFor(request), view)) else []
      ensures response == AccessDenied <==>
        !request.public && request.resolved != None && request.authenticated && !request.superuser && !request.member
      ensures response == WorkspaceRequired <==>
        !request.public && request.resolved == None && !request.bootstrapPath && !request.apiKey
      ensures response == AccessDenied || response == WorkspaceRequired ==> seen == []
      ensures !request.public && request.resolved != None && seen != [] ==>
        request.member || request.superuser || !request.authenticated
    {
      SetCurrentWorkspace(None);
      response, seen := Dispatch(request, view, rows);
      SetCurrentWorkspace(None);
      Admission(request, view);
    }

    method Dispatch(request: Request, view: Body, rows: seq<Row>) returns (response: Response, seen: seq<seq<Row>>)
      requires workspace == None
      modifies this
      ensures response == Dispatched(request, view)
      ensures seen == if response.Viewed? then Results(rows, Trace(BindingFor(request), view)) else []
    {
      seen := [];
      var raised;
      if request.public {
        seen, raised := Run(view, rows);
        return Viewed(raised), seen;
      }
      if request.resolved.None? {
        if request.bootstrapPath || request.apiKey {
          seen, raised := Run(view, rows);
          return Viewed(raised), seen;
        }
        return WorkspaceRequired, [];
      }
      SetCurrentWorkspace(request.resolved);
      if request.authenticated && !request.superuser && !request.member {
        return AccessDenied, [];
      }
      seen, raised := Run(view, rows);
      return Viewed(raised), seen;
    }
  }

  datatype Request = Request(public: bool, resolved: Option<Workspace>, bootstrapPath: bool, apiKey: bool,
                             authenticated: bool, superuser: bool, member: bool)

  datatype Response = Viewed(raised: bool) | WorkspaceRequired | AccessDenied

  /** The binding a view starts with. */
  function BindingFor(r: Request): Option<Workspace> {
    if r.public then None else r.resolved
  }

  function Dispatched(r: Request, view: Body): Response {
    if !r.public && r.resolved.None? && !r.bootstrapPath && !r.apiKey then WorkspaceRequired
    else if !r.public && r.resolved.Some? && r.authenticated && !r.superuser && !r.member then AccessDenied
    else Viewed(Raises(view))
  }

  /** Who is turned away, and who is not: the view runs for everybody else. */
  lemma Admission(r: Request, view: Body)
    ensures Dispatched(r, view) == AccessDenied <==>
      !r.public && r.resolved != None && r.authenticated && !r.superuser && !r.member
    ensures Dispatched(r, view) == WorkspaceRequired <==>
      !r.public && r.resolved == None && !r.bootstrapPath && !r.apiKey
    ensures Dispatched(r, view) != AccessDenied && Dispatched(r, view) != WorkspaceRequired ==>
      Dispatched(r, view) == Viewed(Raises(view))
    ensures BindingFor(r) == r.resolved || (r.public && BindingFor(r) == None)
    ensures r.public ==> BindingFor(r) == None
  {
  }

  /** Where a row of a workspace is seen by a signed-in user, that user belongs there or may see everything. */
  lemma SeenByMembers(r: Request, view: Body, rows: seq<Row>, k: nat, row: Row)
    requires !r.public && Dispatched(r, view).Viewed? && Named(view) <= {BindingFor(r), None}
    requires k < |Results(rows, Trace(BindingFor(r), view))| && row in Results(rows, Trace(BindingFor(r), view))[k]
    ensures r.resolved == Some(row.workspace) && (r.member || r.superuser || !r.authenticated)
  {
    TenantIsolation(r, view, rows, k, row);
    Admission(r, view);
  }

  // ---- The body's shape decides ----

  predicate Raises(body: Body) {
    match body
    case Raise => true
    case Then(first, second) => Raises(first) || Raises(second)
    case Bound(_, inner) => Raises(inner)
    case _ => false
  }

  /** The binding after a body: that of its last rebinding outside every inner block. */
  function After(before: Option<Workspace>, body: Body): Option<Workspace>
    decreases body
  {
    match body
    case Rebind(w) => w
    case NewService(w) => if w.Some? then w else before
    case Then(first, second) => if Raises(first) then After(before, first) else After(After(before, first), second)
    case Catch(guarded) => After(before, guarded)
    case _ => before
  }

  /** The binding at each query that is reached. */
  function Trace(before: Option<Workspace>, body: Body): seq<Option<Workspace>>
    decreases body
  {
    match body
    case Query => [before]
    case Bound(w, inner) => Trace(w, inner)
    case Then(first, second) =>
      Trace(before, first) + if Raises(first) then [] else Trace(After(before, first), second)
    case Catch(guarded) => Trace(before, guarded)
    case _ => []
  }

  function Results(rows: seq<Row>, bindings: seq<Option<Workspace>>): seq<seq<Row>> {
    seq(|bindings|, i requires 0 <= i < |bindings| => Visible(rows, bindings[i]))
  }

  lemma ResultsBoth(rows: seq<Row>, a: seq<Option<Workspace>>, b: seq<Option<Workspace>>)
    ensures Results(rows, a + b) == Results(rows, a) + Results(rows, b)
  {
  }

  // ---- Isolation ----

  /** A query sees exactly the rows of the bound workspace, and none when nothing is bound. */
  lemma {:induction false} VisibleExact(rows: seq<Row>, binding: Option<Workspace>, r: Row)
    ensures r in Visible(rows, binding) <==> r in rows && binding == Some(r.workspace)
    ensures multiset(Visible(rows, binding))[r] == if binding == Some(r.workspace) then multiset(rows)[r] else 0
  {
    if rows != [] && binding.Some? {
      VisibleExact(rows[1..], binding, r);
      assert rows == [rows[0]] + rows[1..];
    } else if binding.None? {
      assert Visible(rows, binding) == [];
    }
  }

  /** And in the order of the rows. */
  lemma {:induction false} VisibleInOrder(a: seq<Row>, b: seq<Row>, binding: Option<Workspace>)
    ensures Visible(a + b, binding) == Visible(a, binding) + Visible(b, binding)
  {
    if a == [] {
      assert a + b == b;
    } else {
      assert (a + b)[0] == a[0] && (a + b)[1..] == a[1..] + b;
      VisibleInOrder(a[1..], b, binding);
    }
  }

  /** The body rebinds nowhere outside its inner blocks. */
  predicate KeepsBinding(body: Body) {
    match body
    case Rebind(_) => false
    case NewService(w) => w.None?
    case Then(first, second) => KeepsBinding(first) && KeepsBinding(second)
    case Catch(guarded) => KeepsBinding(guarded)
    case _ => true
  }

  /** Every workspace the body itself names. */
  function Named(body: Body): set<Option<Workspace>> {
    match body
    case Rebind(w) => {w}
    case NewService(w) => {w}
    case Bound(w, inner) => {w} + Named(inner)
    case Then(first, second) => Named(first) + Named(second)
    case Catch(guarded) => Named(guarded)
    case _ => {}
  }

  /** However deep its blocks nest and however it ends, such a body leaves the binding as it was. */
  lemma {:induction false} BindingKept(before: Option<Workspace>, body: Body)
    requires KeepsBinding(body)
    ensures After(before, body) == before
    decreases body
  {
    match body
    case Then(first, second) =>
      BindingKept(before, first);
      BindingKept(before, second);
    case Catch(guarded) => BindingKept(before, guarded);
    case _ =>
  }

  lemma {:induction false} AfterIsNamed(before: Option<Workspace>, body: Body)
    ensures After(before, body) in {before} + Named(body)
    decreases body
  {
    match body
    case Then(first, second) =>
      AfterIsNamed(before, first);
      AfterIsNamed(After(before, first), second);
    case Catch(guarded) => AfterIsNamed(before, guarded);
    case _ =>
  }

  /** A query is never answered for a workspace that neither the request nor the body named. */
  lemma {:induction false} OnlyNamedSeen(before: Option<Workspace>, body: Body)
    ensures forall b :: b in Trace(before, body) ==> b in {before} + Named(body)
    decreases body
  {
    match body
    case Bound(w, inner) => OnlyNamedSeen(w, inner);
    case Then(first, second) =>
      OnlyNamedSeen(before, first);
      AfterIsNamed(before, first);
      OnlyNamedSeen(After(before, first), second);
    case Catch(guarded) => OnlyNamedSeen(before, guarded);
    case _ =>
  }

  /** Whatever a block does inside, the queries after it see what they would without it. */
  lemma BlockIsInvisible(before: Option<Workspace>, w: Option<Workspace>, inner: Body, rest: Body)
    ensures After(before, Then(Catch(Bound(w, inner)), rest)) == After(before, rest)
    ensures Trace(before, Then(Catch(Bound(w, inner)), rest)) == Trace(w, inner) + Trace(before, rest)
  {
    var block := Catch(Bound(w, inner));
    assert !Raises(block) && After(before, block) == After(before, Bound(w, inner)) == before;
    assert Trace(before, block) == Trace(before, Bound(w, inner)) == Trace(w, inner);
  }

  /** In a request for one workspace whose view names no other, no query sees another tenant's row. */
  lemma TenantIsolation(request: Request, view: Body, rows: seq<Row>, k: nat, r: Row)
    requires Named(view) <= {BindingFor(request), None}
    requires k < |Results(rows, Trace(BindingFor(request), view))|
    requires r in Results(rows, Trace(BindingFor(request), view))[k]
    ensures r in rows && BindingFor(request) == Some(r.workspace)
  {
    var bindings := Trace(BindingFor(request), view);
    OnlyNamedSeen(BindingFor(request), view);
    assert bindings[k] in bindings;
    VisibleExact(rows, bindings[k], r);
  }

  // ---- A machine that runs bodies ----

  /** What is still to do: a body, putting a binding back at the end of a block, or the end of a try. */
  datatype Task = Do(body: Body) | PutBack(workspace: Option<Workspace>) | EndTry

  function BodySize(body: Body): nat {
    match body
    case Bound(_, inner) => 2 + BodySize(inner)
    case Then(first, second) => 1 + BodySize(first) + BodySize(second)
    case Catch(guarded) => 2 + BodySize(guarded)
    case _ => 1
  }

  function TaskSize(task: Task): nat {
    if task.Do? then BodySize(task.body) else 1
  }

  function TasksSize(tasks: seq<Task>): nat {
    if tasks == [] then 0 else TaskSize(tasks[0]) + TasksSize(tasks[1..])
  }

  /** How the machine ends: the bindings at its queries, the last binding, and whether an error got out. */
  datatype End = End(seen: seq<Option<Workspace>>, binding: Option<Workspace>, raised: bool)

  function Seen(b: Option<Workspace>, end: End): End {
    end.(seen := [b] + end.seen)
  }

  /**
    One task after the other.  An error drops tasks up to the end of the innermost try, but a
    binding that is to be put back is put back.
   */
  function Machine(tasks: seq<Task>, binding: Option<Workspace>, raising: bool): End
    decreases TasksSize(tasks)
  {
    if tasks == [] then End([], binding, raising)
    else
      var rest := tasks[1..];
      match tasks[0]
      case PutBack(w) => Machine(rest, w, raising)
      case EndTry => Machine(rest, binding, false)
      case Do(body) =>
        if raising then Machine(rest, binding, true)
        else
          match body
          case Nothing => Machine(rest, binding, false)
          case Rebind(w) => Machine(rest, w, false)
          case NewService(w) => Machine(rest, if w == None then binding else w, false)
          case Query => Seen(binding, Machine(rest, binding, false))
          case Raise => Machine(rest, binding, true)
          case Then(first, second) => Machine(Three(Do(first), Do(second), rest), binding, false)
          case Bound(w, inner) => Machine(Three(Do(inner), PutBack(binding), rest), w, false)
          case Catch(guarded) => Machine(Three(Do(guarded), EndTry, rest), binding, false)
  }

  function Three(x: Task, y: Task, rest: seq<Task>): (r: seq<Task>)
    ensures r == [x, y] + rest && TasksSize(r) == TaskSize(x) + TaskSize(y) + TasksSize(rest)
  {
    assert ([x] + ([y] + rest))[1..] == [y] + rest && ([y] + rest)[1..] == rest;
    assert [x] + ([y] + rest) == [x, y] + rest;
    [x] + ([y] + rest)
  }

  function SeenAll(bs: seq<Option<Workspace>>, end: End): End {
    end.(seen := bs + end.seen)
  }

  lemma SeenBoth(a: seq<Option<Workspace>>, b: seq<Option<Workspace>>, end: End)
    ensures SeenAll(a, SeenAll(b, end)) == SeenAll(a + b, end) && SeenAll([], end) == end
  {
    assert a + (b + end.seen) == (a + b) + end.seen;
  }

  /** The machine does with a body, whatever comes after it, what its shape says. */
  lemma {:induction false} MachineExact(body: Body, rest: seq<Task>, binding: Option<Workspace>)
    ensures Machine([Do(body)] + rest, binding, false) ==
      SeenAll(Trace(binding, body), Machine(rest, After(binding, body), Raises(body)))
    decreases body
  {
    hide Machine;
    MachineStep([Do(body)] + rest, binding, false);
    assert ([Do(body)] + rest)[1..] == rest;
    SeenBoth([], [], Machine(rest, After(binding, body), Raises(body)));
    match body
    case Then(first, second) =>
      assert Three(Do(first), Do(second), rest) == [Do(first)] + ([Do(second)] + rest);
      MachineExact(first, [Do(second)] + rest, binding);
      var middle := After(binding, first);
      assert ([Do(second)] + rest)[1..] == rest;
      if Raises(first) {
        MachineStep([Do(second)] + rest, middle, true);
        assert Trace(binding, body) == Trace(binding, first);
      } else {
        MachineExact(second, rest, middle);
        SeenBoth(Trace(binding, first), Trace(middle, second), Machine(rest, After(middle, second), Raises(second)));
      }
    case Bound(w, inner) =>
      assert Three(Do(inner), PutBack(binding), rest) == [Do(inner)] + ([PutBack(binding)] + rest);
      MachineExact(inner, [PutBack(binding)] + rest, w);
      MachineStep([PutBack(binding)] + rest, After(w, inner), Raises(inner));
      assert ([PutBack(binding)] + rest)[1..] == rest;
    case Catch(guarded) =>
      assert Three(Do(guarded), EndTry, rest) == [Do(guarded)] + ([EndTry] + rest);
      MachineExact(guarded, [EndTry] + rest, binding);
      MachineStep([EndTry] + rest, After(binding, guarded), Raises(guarded));
      assert ([EndTry] + rest)[1..] == rest;
    case _ =>
  }

  lemma MachineStep(tasks: seq<Task>, binding: Option<Workspace>, raising: bool)
    requires tasks != []
    ensures Machine(tasks, binding, raising) ==
      var rest := tasks[1..];
      match tasks[0]
      case PutBack(w) => Machine(rest, w, raising)
      case EndTry => Machine(rest, binding, false)
      case Do(body) =>
        if raising then Machine(rest, binding, true)
        else
          match body
          case Nothing => Machine(rest, binding, false)
          case Rebind(w) => Machine(rest, w, false)
          case NewService(w) => Machine(rest, if w == None then binding else w, false)
          case Query => Seen(binding, Machine(rest, binding, false))
          case Raise => Machine(rest, binding, true)
          case Then(first, second) => Machine(Three(Do(first), Do(second), rest), binding, false)
          case Bound(w, inner) => Machine(Three(Do(inner), PutBack(binding), rest), w, false)
          case Catch(guarded) => Machine(Three(Do(guarded), EndTry, rest), binding, false)
  {
  }

  /** So a body alone sees, leaves and raises what the machine does. */
  lemma BodyIsRun(body: Body, binding: Option<Workspace>)
    ensures Machine([Do(body)], binding, false) == End(Trace(binding, body), After(binding, body), Raises(body))
  {
    MachineExact(body, [], binding);
    assert [Do(body)] + [] == [Do(body)] && Trace(binding, body) + [] == Trace(binding, body);
  }
}
