/**
  The same cache when every row change goes through save or delete and fires its signal
  (bfg2/bfg/common/signals.py, lines 24-52; bfg2/bfg/common/middleware.py, lines 245-258).
  Lookups by id are then exact.  Lookups by hostname stay exact through a change precisely when
  no hostname it removes is still live in the cache: invalidation reads the hostnames from the
  rows that are left, so a deleted or renamed hostname keeps its entry.
 */
module WorkspaceSignals {
  import opened Wrappers
  import opened WorkspaceCache

  datatype Change =
    | SaveWorkspace(workspace: Workspace)
    | DeleteWorkspace(id: int)
    | SaveDomain(host: string, domain: Domain)
    | RenameDomain(from: string, to: string)
    | DeleteDomain(host: string)
    | Lookup(event: Event)

  predicate Renames(rows: Rows, from: string, to: string) {
    from in rows.domains && to !in rows.domains
  }

  /** The rows after a change; deleting a workspace deletes its domain rows first. */
  function After(rows: Rows, c: Change): Rows {
    match c
    case SaveWorkspace(w) => rows.(workspaces := rows.workspaces[w.id := w])
    case DeleteWorkspace(id) => Rows(rows.workspaces - {id}, rows.domains - HostsOf(rows, id))
    case SaveDomain(host, d) => rows.(domains := rows.domains[host := d])
    case RenameDomain(from, to) =>
      if Renames(rows, from, to) then rows.(domains := (rows.domains - {from})[to := rows.domains[from]]) else rows
    case DeleteDomain(host) => rows.(domains := rows.domains - {host})
    case Lookup(_) => rows
  }

  /** The workspace whose keys the receivers drop, once the rows have changed. */
  function Signals(rows: Rows, c: Change): Option<int> {
    match c
    case SaveWorkspace(w) => Some(w.id)
    case DeleteWorkspace(id) => Some(id)
    case SaveDomain(_, d) => Some(d.workspace)
    case RenameDomain(from, to) => if Renames(rows, from, to) then Some(rows.domains[from].workspace) else None
    case DeleteDomain(host) => if host in rows.domains then Some(rows.domains[host].workspace) else None
    case Lookup(_) => None
  }

  /** Which row changes send a signal, and for which workspace. */
  lemma SignalsExact(rows: Rows, c: Change)
    ensures c.SaveWorkspace? ==> Signals(rows, c) == Some(c.workspace.id)
    ensures c.DeleteWorkspace? ==> Signals(rows, c) == Some(c.id)
    ensures c.SaveDomain? ==> Signals(rows, c) == Some(c.domain.workspace)
    ensures c.DeleteDomain? && c.host in rows.domains ==> Signals(rows, c) == Some(rows.domains[c.host].workspace)
    ensures c.RenameDomain? && c.from in rows.domains && c.to !in rows.domains ==>
      Signals(rows, c) == Some(rows.domains[c.from].workspace)
  {
  }

  /** What each change does to the rows. */
  lemma RowsAfter(rows: Rows, c: Change, name: string, id: int)
    ensures var after := After(rows, c);
      && (c.SaveDomain? && name == c.host ==> name in after.domains && after.domains[name] == c.domain)
      && (c.DeleteDomain? && name == c.host ==> name !in after.domains)
      && (c.RenameDomain? && c.from in rows.domains && c.to !in rows.domains ==>
            c.from !in after.domains && c.to in after.domains && after.domains[c.to] == rows.domains[c.from])
      && (c.RenameDomain? && (c.from !in rows.domains || c.to in rows.domains) ==> after == rows)
      && (c.SaveWorkspace? && id == c.workspace.id ==> id in after.workspaces && after.workspaces[id] == c.workspace)
      && (c.DeleteWorkspace? && id == c.id ==> id !in after.workspaces)
  {
  }

  /** A signal drops the id of its workspace and every hostname the workspace is left with. */
  lemma SignalDrops(w: World, c: Change, id: int)
    requires !c.Lookup? && Signals(w.rows, c) == Some(id)
    ensures var next := Signalled(w, c);
      && next.rows == After(w.rows, c) && IdKey(id) !in next.cache
      && forall h :: h in next.rows.domains && h != "" && next.rows.domains[h].workspace == id ==>
           HostKey(Normalize(h)) !in next.cache
  {
    hide Normalize;
  }

  /** One change with its signal, or a lookup or tick. */
  function Signalled(w: World, c: Change): World
  {
    if c.Lookup? then (if c.event.SilentChange? then w else Step(w, c.event))
    else
      var rows := After(w.rows, c);
      var changed := Step(w, SilentChange(rows));
      match Signals(w.rows, c)
      case None => changed
      case Some(id) => Step(changed, Invalidation(id))
  }

  function SignalledRun(w: World, cs: seq<Change>): World
    decreases |cs|
  {
    if cs == [] then w else SignalledRun(Signalled(w, cs[0]), cs[1..])
  }

  // ---- By id ----

  ghost predicate IdExact(w: World) {
    forall id :: Live(w.cache, IdKey(id), w.now).Some? ==> IdRow(w.rows, id, Live(w.cache, IdKey(id), w.now).value)
  }

  lemma IdExactKept(w: World, c: Change)
    requires IdExact(w)
    ensures IdExact(Signalled(w, c))
  {
    var next := Signalled(w, c);
    forall id | Live(next.cache, IdKey(id), next.now).Some?
      ensures IdRow(next.rows, id, Live(next.cache, IdKey(id), next.now).value)
    {
      if Live(w.cache, IdKey(id), w.now).Some? {
        assert IdRow(w.rows, id, Live(w.cache, IdKey(id), w.now).value);
      }
    }
  }

  /** When every change fires its signal, a lookup by id is what the rows say, in every state. */
  lemma {:induction false} ExactById(w: World, cs: seq<Change>, id: int)
    requires IdExact(w)
    ensures forall x :: AnswerById(SignalledRun(w, cs), id) == Some(x) <==> IdRow(SignalledRun(w, cs).rows, id, x)
    decreases |cs|
  {
    if cs != [] {
      hide Signalled, IdExact;
      IdExactKept(w, cs[0]);
      ExactById(Signalled(w, cs[0]), cs[1..], id);
    }
  }

  // ---- By hostname ----

  /** Stored and looked-up names are ones that normalising leaves alone. */
  predicate PlainRows(rows: Rows) {
    forall n :: n in rows.domains ==> n != "" && Plain(n)
  }

  predicate PlainChange(c: Change) {
    match c
    case SaveDomain(host, _) => host != "" && Plain(host)
    case RenameDomain(_, to) => to != "" && Plain(to)
    case Lookup(e) => e.LookUpHost? ==> Plain(Normalize(e.host))
    case _ => true
  }

  /** The hostnames that have a row before the change and none after it. */
  function Removed(rows: Rows, c: Change): set<string> {
    rows.domains.Keys - After(rows, c).domains.Keys
  }

  ghost predicate ExactAt(w: World, name: string) {
    Live(w.cache, HostKey(name), w.now).Some? ==> HostRow(w.rows, name, Live(w.cache, HostKey(name), w.now).value)
  }

  ghost predicate HostExact(w: World) {
    forall n :: n != "" && Plain(n) ==> ExactAt(w, n)
  }

  predicate RemovesNothingLive(w: World, c: Change) {
    forall n :: n in Removed(w.rows, c) ==> Live(w.cache, HostKey(n), w.now).None?
  }

  lemma ExactAfterChange(w: World, c: Change, n: string)
    requires PlainRows(w.rows) && PlainChange(c) && n != "" && Plain(n) && ExactAt(w, n)
    requires n !in Removed(w.rows, c) && !c.Lookup?
    ensures ExactAt(Signalled(w, c), n)
  {
    var next, rows := Signalled(w, c), After(w.rows, c);
    var id := Signals(w.rows, c);
    if id.Some? && n in HostsOf(rows, id.value) {
      assert HostKey(Normalize(n)) in Dropped(HostsOf(rows, id.value));
    }
  }

  lemma StaleAfterRemoval(w: World, c: Change, n: string)
    requires PlainRows(w.rows) && PlainChange(c)
    requires n in Removed(w.rows, c) && Live(w.cache, HostKey(n), w.now).Some?
    ensures !ExactAt(Signalled(w, c), n)
  {
    var next, rows := Signalled(w, c), After(w.rows, c);
    var id := Signals(w.rows, c);
    if id.Some? {
      forall h | h in HostsOf(rows, id.value)
        ensures Normalize(h) != n
      {
        assert h in rows.domains && h != n && Plain(h);
      }
      assert HostKey(n) !in Dropped(HostsOf(rows, id.value));
    }
    assert Live(next.cache, HostKey(n), next.now) == Live(w.cache, HostKey(n), w.now);
  }

  lemma ExactAfterLookup(w: World, e: Event, n: string)
    requires PlainChange(Lookup(e)) && n != "" && Plain(n) && ExactAt(w, n)
    ensures ExactAt(Signalled(w, Lookup(e)), n)
  {
  }

  /**
    A change with its signal keeps every hostname lookup exact precisely when no hostname that
    it removes is live in the cache.
   */
  lemma HostExactStep(w: World, c: Change)
    requires PlainRows(w.rows) && PlainChange(c) && HostExact(w)
    ensures HostExact(Signalled(w, c)) <==> RemovesNothingLive(w, c)
    ensures PlainRows(Signalled(w, c).rows)
  {
    var next := Signalled(w, c);
    hide Normalize, Live, ExactAt, Signals;
    forall n | n in Removed(w.rows, c) && Live(w.cache, HostKey(n), w.now).Some?
      ensures n != "" && Plain(n) && !ExactAt(next, n)
    {
      StaleAfterRemoval(w, c, n);
    }
    forall n | n != "" && Plain(n) && n !in Removed(w.rows, c)
      ensures ExactAt(next, n)
    {
      if c.Lookup? {
        ExactAfterLookup(w, c.event, n);
      } else {
        ExactAfterChange(w, c, n);
      }
    }
    if RemovesNothingLive(w, c) {
      forall n | n in Removed(w.rows, c)
        ensures ExactAt(next, n)
      {
        NothingToServe(w, c, n);
      }
    }
  }

  lemma NothingToServe(w: World, c: Change, n: string)
    requires Live(w.cache, HostKey(n), w.now).None? && n in Removed(w.rows, c)
    ensures ExactAt(Signalled(w, c), n)
  {
  }

  /** No change of the run removes a hostname that is live at that moment. */
  predicate NeverRemovesLive(w: World, cs: seq<Change>)
    decreases |cs|
  {
    cs == [] || (PlainChange(cs[0]) && RemovesNothingLive(w, cs[0]) && NeverRemovesLive(Signalled(w, cs[0]), cs[1..]))
  }

  lemma {:induction false} ExactByHost(w: World, cs: seq<Change>, host: string)
    requires PlainRows(w.rows) && HostExact(w) && NeverRemovesLive(w, cs)
    requires Plain(Normalize(host)) && Normalize(host) != ""
    ensures forall x ::
      AnswerByHost(SignalledRun(w, cs), host) == Some(x) <==> HostRow(SignalledRun(w, cs).rows, Normalize(host), x)
    decreases |cs|
  {
    if cs == [] {
      assert ExactAt(w, Normalize(host));
    } else {
      hide Signalled, HostExact, PlainRows, Plain;
      HostExactStep(w, cs[0]);
      ExactByHost(Signalled(w, cs[0]), cs[1..], host);
    }
  }

  lemma RunTwo(w: World, c1: Change, c2: Change)
    ensures SignalledRun(w, [c1, c2]) == Signalled(Signalled(w, c1), c2)
  {
    hide Signalled;
    var next := Signalled(w, c1);
    assert [c1, c2][1..] == [c2] && [c2][1..] == [];
    assert SignalledRun(next, [c2]) == SignalledRun(Signalled(next, c2), []);
  }

  /** A deleted hostname that was looked up before goes on answering the workspace it had. */
  lemma DeletedDomainStillAnswers(host: string, x: Workspace, ttl: int)
    requires host != "" && Plain(host) && x.active && ttl > 0
    ensures var rows := Rows(map[x.id := x], map[host := Domain(x.id, true)]);
      var w := SignalledRun(Start(rows, 0, ttl), [Lookup(LookUpHost(host)), DeleteDomain(host)]);
      AnswerByHost(w, host) == Some(x) && host !in w.rows.domains
  {
    var rows := Rows(map[x.id := x], map[host := Domain(x.id, true)]);
    var cs := [Lookup(LookUpHost(host)), DeleteDomain(host)];
    var w0 := Start(rows, 0, ttl);
    var w1 := Signalled(w0, cs[0]);
    var w2 := Signalled(w1, cs[1]);
    RunTwo(w0, cs[0], cs[1]);
    hide Normalize, SignalledRun;
    assert Normalize(host) == host;
    assert w1.cache == map[HostKey(host) := Entry(Some(x), ttl)];
    assert After(rows, cs[1]).domains == map[];
    assert HostsOf(After(rows, cs[1]), x.id) == {};
    assert w2.cache[HostKey(host)] == Entry(Some(x), ttl);
  }
}
