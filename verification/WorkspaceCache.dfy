/**
  Workspace lookups behind a cache with a time to live (bfg2/bfg/common/middleware.py, lines
  150-202 and 245-258; bfg2/bfg/common/cache_policy.py; bfg2/bfg/common/signals.py, lines 24-52).

  `Resolver` holds one worker's cache and updates it in place; `ById`, `ByHost` and `Invalidate`
  are what its methods compute.  A `World` also remembers every state the rows have been in, so
  that an answer can be compared with what the rows said before.
 */
module WorkspaceCache {
  import opened Wrappers

  datatype Workspace = Workspace(id: int, active: bool, content: string)

  datatype Domain = Domain(workspace: int, verified: bool)

  /** The rows: workspaces by id, domains by hostname. */
  datatype Rows = Rows(workspaces: map<int, Workspace>, domains: map<string, Domain>)

  datatype Key = IdKey(id: int) | HostKey(name: string)

  datatype Entry = Entry(value: Option<Workspace>, expires: int)

  type Cache = map<Key, Entry>

  // ---- What the rows answer ----

  function RowById(rows: Rows, id: int): Option<Workspace> {
    if id in rows.workspaces && rows.workspaces[id].active then Some(rows.workspaces[id]) else None
  }

  /** The active workspace of the verified domain row with exactly this hostname. */
  function RowByHost(rows: Rows, name: string): Option<Workspace> {
    if name in rows.domains && rows.domains[name].verified then RowById(rows, rows.domains[name].workspace)
    else None
  }

  /** normalize_hostname on a bare lower-case host: one leading "www." is dropped. */
  function Normalize(host: string): string {
    if |host| >= 4 && host[..4] == "www." then host[4..] else host
  }

  /** The cache key normalises a second time what the lookup has already normalised. */
  function KeyOfHost(host: string): Key {
    HostKey(Normalize(Normalize(host)))
  }

  // ---- Lookups and invalidation ----

  /** cache.get: an absent, an expired and a stored None all read as None. */
  function Live(cache: Cache, key: Key, now: int): Option<Workspace> {
    if key in cache && now < cache[key].expires then cache[key].value else None
  }

  function ById(cache: Cache, rows: Rows, now: int, ttl: int, id: int): (Cache, Option<Workspace>) {
    match Live(cache, IdKey(id), now)
    case Some(w) => if w.active then (cache, Some(w)) else (cache - {IdKey(id)}, None)
    case None =>
      var answer := RowById(rows, id);
      (cache[IdKey(id) := Entry(answer, now + ttl)], answer)
  }

  function ByHost(cache: Cache, rows: Rows, now: int, ttl: int, host: string): (Cache, Option<Workspace>) {
    if Normalize(host) == "" then (cache, None)
    else
      match Live(cache, KeyOfHost(host), now)
      case Some(w) => (cache, Some(w))
      case None =>
        var answer := RowByHost(rows, Normalize(host));
        (cache[KeyOfHost(host) := Entry(answer, now + ttl)], answer)
  }

  function HostsOf(rows: Rows, id: int): set<string> {
    set h | h in rows.domains && h != "" && rows.domains[h].workspace == id
  }

  function Dropped(hosts: set<string>): set<Key> {
    set h | h in hosts :: HostKey(Normalize(h))
  }

  function Invalidate(cache: Cache, rows: Rows, id: int): Cache {
    cache - Dropped(HostsOf(rows, id)) - {IdKey(id)}
  }

  class Resolver {
    var cache: Cache
    const ttl: int

    constructor (ttl: int)
      ensures this.ttl == ttl && cache == map[]
    {
      this.ttl, this.cache := ttl, map[];
    }

    /** `raw` is None when the id is not a number. */
    method GetById(raw: Option<int>, rows: Rows, now: int) returns (answer: Option<Workspace>)
      modifies this
      ensures raw.None? ==> cache == old(cache) && answer == None
      ensures raw.Some? ==> (cache, answer) == ById(old(cache), rows, now, ttl, raw.value)
    {
      if raw.None? {
        return None;
      }
      var key := IdKey(raw.value);
      var found := Live(cache, key, now);
      if found.Some? {
        if found.value.active {
          return found;
        }
        cache := cache - {key};
        return None;
      }
      answer := RowById(rows, raw.value);
      cache := cache[key := Entry(answer, now + ttl)];
    }

    method GetByHost(host: string, rows: Rows, now: int) returns (answer: Option<Workspace>)
      modifies this
      ensures (cache, answer) == ByHost(old(cache), rows, now, ttl, host)
    {
      var normalized := Normalize(host);
      if normalized == "" {
        return None;
      }
      var key := HostKey(Normalize(normalized));
      answer := Live(cache, key, now);
      if answer.None? {
        answer := RowByHost(rows, normalized);
        cache := cache[key := Entry(answer, now + ttl)];
      }
    }

    method InvalidateWorkspace(rows: Rows, id: int)
      modifies this
      ensures cache == Invalidate(old(cache), rows, id)
    {
      var left := HostsOf(rows, id);
      ghost var done: set<string> := {};
      while left != {}
        invariant left + done == HostsOf(rows, id) && left !! done
        invariant cache == old(cache) - Dropped(done)
        decreases left
      {
        var host :| host in left;
        ghost var before := cache;
        cache := cache - {HostKey(Normalize(host))};
        assert Dropped(done + {host}) == Dropped(done) + {HostKey(Normalize(host))};
        left, done := left - {host}, done + {host};
      }
      assert done == HostsOf(rows, id);
      cache := cache - {IdKey(id)};
    }
  }

  /** What normalising does to a host, with and without the prefix it drops. */
  lemma NormalizeExact(host: string)
    ensures Normalize("www." + host) == host
    ensures (forall rest: string :: host != "www." + rest) ==> Normalize(host) == host
  {
    assert ("www." + host)[..4] == "www.";
    if |host| >= 4 && host[..4] == "www." {
      assert host == "www." + host[4..];
    }
  }

  /**
    A lookup by id on any cache: a live active workspace is the answer, a live inactive one is
    dropped and not answered, and otherwise the rows answer and are remembered for one TTL.
   */
  lemma LookupById(cache: Cache, rows: Rows, now: int, ttl: int, id: int)
    ensures var (after, answer) := ById(cache, rows, now, ttl, id);
      var key := IdKey(id);
      var hit := key in cache && now < cache[key].expires && cache[key].value != None;
      && (hit && cache[key].value.value.active ==> after == cache && answer == cache[key].value)
      && (hit && !cache[key].value.value.active ==> after == cache - {key} && answer == None)
      && (!hit ==>
        && (forall x :: answer == Some(x) <==> IdRow(rows, id, x))
        && after == cache[key := Entry(answer, now + ttl)])
  {
  }

  /** A lookup by hostname likewise, except that it does not look whether the workspace is active. */
  lemma LookupByHost(cache: Cache, rows: Rows, now: int, ttl: int, host: string)
    ensures var (after, answer) := ByHost(cache, rows, now, ttl, host);
      var name := Normalize(host);
      var key := HostKey(Normalize(name));
      var hit := key in cache && now < cache[key].expires && cache[key].value != None;
      && (name == "" ==> after == cache && answer == None)
      && (name != "" && hit ==> after == cache && answer == cache[key].value)
      && (name != "" && !hit ==>
        && (forall x :: answer == Some(x) <==> HostRow(rows, name, x))
        && after == cache[key := Entry(answer, now + ttl)])
  {
    hide Normalize;
  }

  /** Invalidation drops the workspace's id and the hostnames it has, and nothing else. */
  lemma InvalidateExact(cache: Cache, rows: Rows, id: int, key: Key)
    ensures key in Invalidate(cache, rows, id) <==>
      && key in cache && key != IdKey(id)
      && (forall h :: h in rows.domains && h != "" && rows.domains[h].workspace == id ==> key != HostKey(Normalize(h)))
    ensures key in Invalidate(cache, rows, id) ==> Invalidate(cache, rows, id)[key] == cache[key]
  {
    hide Normalize;
  }

  // ---- Runs ----

  /** The rows as they were at one time. */
  datatype Snapshot = Snapshot(time: int, rows: Rows)

  /** `log` holds a snapshot for every change of the rows and every tick, newest last. */
  datatype World = World(cache: Cache, rows: Rows, now: int, ttl: int, log: seq<Snapshot>)

  datatype Event =
    | LookUpId(id: int)
    | LookUpHost(host: string)
    | SilentChange(rows: Rows)
    | Invalidation(id: int)
    | Tick(seconds: nat)

  function Start(rows: Rows, now: int, ttl: int): World {
    World(map[], rows, now, ttl, [Snapshot(now, rows)])
  }

  function Step(w: World, e: Event): World {
    match e
    case LookUpId(id) => w.(cache := ById(w.cache, w.rows, w.now, w.ttl, id).0)
    case LookUpHost(host) => w.(cache := ByHost(w.cache, w.rows, w.now, w.ttl, host).0)
    case SilentChange(rows) => w.(rows := rows, log := w.log + [Snapshot(w.now, rows)])
    case Invalidation(id) => w.(cache := Invalidate(w.cache, w.rows, id))
    case Tick(seconds) => w.(now := w.now + seconds, log := w.log + [Snapshot(w.now + seconds, w.rows)])
  }

  function Run(w: World, es: seq<Event>): World
    decreases |es|
  {
    if es == [] then w else Run(Step(w, es[0]), es[1..])
  }

  function AnswerById(w: World, id: int): Option<Workspace> {
    ById(w.cache, w.rows, w.now, w.ttl, id).1
  }

  function AnswerByHost(w: World, host: string): Option<Workspace> {
    ByHost(w.cache, w.rows, w.now, w.ttl, host).1
  }

  // ---- Bounded staleness, by id ----

  /** The rows have an active workspace x under this id. */
  predicate IdRow(rows: Rows, id: int, x: Workspace) {
    id in rows.workspaces && rows.workspaces[id] == x && x.active
  }

  /** The rows have a verified domain with exactly this hostname, and x is its workspace and active. */
  predicate HostRow(rows: Rows, name: string, x: Workspace) {
    name in rows.domains && rows.domains[name].verified && IdRow(rows, rows.domains[name].workspace, x)
  }

  lemma RowsAnswer(rows: Rows)
    ensures forall id, x :: RowById(rows, id) == Some(x) <==> IdRow(rows, id, x)
    ensures forall name, x :: RowByHost(rows, name) == Some(x) <==> HostRow(rows, name, x)
  {
  }

  predicate SaidById(s: Snapshot, id: int, x: Workspace) {
    IdRow(s.rows, id, x)
  }

  predicate SaidByHost(s: Snapshot, name: string, x: Workspace) {
    HostRow(s.rows, name, x)
  }

  /** Less than one TTL old, or the rows as they are. */
  predicate Recent(w: World, i: nat)
    requires i < |w.log|
  {
    w.log[i].time > w.now - w.ttl || w.log[i] == Snapshot(w.now, w.rows)
  }

  /** A workspace answered by id was the rows' answer less than one TTL ago; None is their answer now. */
  ghost predicate FreshById(w: World, id: int) {
    match AnswerById(w, id)
    case None => forall x :: !IdRow(w.rows, id, x)
    case Some(x) => (exists i :: 0 <= i < |w.log| && Recent(w, i) && SaidById(w.log[i], id, x))
  }

  /** Every cached workspace is active and was read from the rows when its entry was made. */
  ghost predicate IdEntriesRead(w: World) {
    && w.log != [] && w.log[|w.log| - 1] == Snapshot(w.now, w.rows)
    && forall id :: IdKey(id) in w.cache && w.cache[IdKey(id)].value.Some? ==>
      && w.cache[IdKey(id)].value.value.active
      && ReadForId(w, id, w.cache[IdKey(id)].value.value, w.cache[IdKey(id)].expires - w.ttl)
  }

  ghost predicate ReadForId(w: World, id: int, x: Workspace, time: int) {
    exists i :: 0 <= i < |w.log| && w.log[i].time == time && SaidById(w.log[i], id, x)
  }

  lemma IdEntriesKept(w: World, e: Event)
    requires IdEntriesRead(w)
    ensures IdEntriesRead(Step(w, e))
  {
    var next := Step(w, e);
    forall id | IdKey(id) in next.cache && next.cache[IdKey(id)].value.Some?
      ensures next.cache[IdKey(id)].value.value.active
      ensures ReadForId(next, id, next.cache[IdKey(id)].value.value, next.cache[IdKey(id)].expires - w.ttl)
    {
      if IdKey(id) in w.cache && w.cache[IdKey(id)] == next.cache[IdKey(id)] {
        var i :| 0 <= i < |w.log| && w.log[i].time == w.cache[IdKey(id)].expires - w.ttl
          && SaidById(w.log[i], id, w.cache[IdKey(id)].value.value);
        assert next.log[i] == w.log[i];
      } else {
        assert e == LookUpId(id);
        assert SaidById(next.log[|next.log| - 1], id, next.cache[IdKey(id)].value.value);
      }
    }
  }

  lemma {:induction false} IdEntriesOfRun(w: World, es: seq<Event>)
    requires IdEntriesRead(w)
    ensures IdEntriesRead(Run(w, es))
    decreases |es|
  {
    hide IdEntriesRead, Step;
    if es != [] {
      IdEntriesKept(w, es[0]);
      IdEntriesOfRun(Step(w, es[0]), es[1..]);
    }
  }

  /**
    Over every run of lookups, row changes without a signal, invalidations and ticks, a lookup
    by id is at most one TTL behind the rows, and a cached workspace is never an inactive one.
   */
  lemma StalenessById(rows: Rows, now: int, ttl: int, es: seq<Event>, id: int)
    ensures var w := Run(Start(rows, now, ttl), es);
      && FreshById(w, id)
      && (Live(w.cache, IdKey(id), w.now).Some? ==> Live(w.cache, IdKey(id), w.now).value.active)
  {
    IdEntriesOfRun(Start(rows, now, ttl), es);
    var w := Run(Start(rows, now, ttl), es);
    SettingsKept(Start(rows, now, ttl), es);
    var key := IdKey(id);
    if Live(w.cache, key, w.now).Some? {
      var i :| 0 <= i < |w.log| && w.log[i].time == w.cache[key].expires - w.ttl
        && SaidById(w.log[i], id, w.cache[key].value.value);
      assert Recent(w, i);
    } else {
      RowsAnswer(w.rows);
      if RowById(w.rows, id).Some? {
        assert Recent(w, |w.log| - 1) && SaidById(w.log[|w.log| - 1], id, RowById(w.rows, id).value);
      }
    }
  }

  lemma {:induction false} SettingsKept(w: World, es: seq<Event>)
    ensures Run(w, es).ttl == w.ttl
    decreases |es|
  {
    if es != [] {
      SettingsKept(Step(w, es[0]), es[1..]);
    }
  }

  // ---- Bounded staleness, by hostname ----

  ghost predicate FreshByHost(w: World, host: string) {
    match AnswerByHost(w, host)
    case None => Normalize(host) == "" || forall x :: !HostRow(w.rows, Normalize(host), x)
    case Some(x) => (exists i :: 0 <= i < |w.log| && Recent(w, i) && SaidByHost(w.log[i], Normalize(host), x))
  }

  /** Two hosts that share a cache entry although they ask for different rows. */
  predicate Collide(h1: string, h2: string) {
    KeyOfHost(h1) == KeyOfHost(h2) && Normalize(h1) != Normalize(h2)
    && Normalize(h1) != "" && Normalize(h2) != ""
  }

  ghost predicate CollisionFree(hosts: set<string>) {
    forall h1, h2 :: h1 in hosts && h2 in hosts ==> !Collide(h1, h2)
  }

  predicate AsksOnly(es: seq<Event>, hosts: set<string>) {
    forall i :: 0 <= i < |es| && es[i].LookUpHost? ==> es[i].host in hosts
  }

  /** In every run that looks up only these hosts, every lookup of one of them is fresh. */
  ghost predicate HostsSound(hosts: set<string>, ttl: int) {
    forall rows, now, es, h :: AsksOnly(es, hosts) && h in hosts ==>
      FreshByHost(Run(Start(rows, now, ttl), es), h)
  }

  /** The i-th snapshot gave x to a lookup of h that fills this key. */
  predicate ReadBy(w: World, key: Key, x: Workspace, time: int, h: string, i: nat) {
    && i < |w.log| && KeyOfHost(h) == key && Normalize(h) != ""
    && w.log[i].time == time && SaidByHost(w.log[i], Normalize(h), x)
  }

  /** An entry under a host key was read from the rows for one of these hosts. */
  ghost predicate ReadForHost(w: World, hosts: set<string>, key: Key, x: Workspace, time: int) {
    exists h, i :: h in hosts && ReadBy(w, key, x, time, h, i)
  }

  ghost predicate HostEntriesRead(w: World, hosts: set<string>) {
    && w.log != [] && w.log[|w.log| - 1] == Snapshot(w.now, w.rows)
    && forall k :: HostKey(k) in w.cache && w.cache[HostKey(k)].value.Some? ==>
      ReadForHost(w, hosts, HostKey(k), w.cache[HostKey(k)].value.value, w.cache[HostKey(k)].expires - w.ttl)
  }

  lemma ReadEarlier(w: World, next: World, hosts: set<string>, key: Key, x: Workspace, time: int)
    requires ReadForHost(w, hosts, key, x, time) && |w.log| <= |next.log|
    requires forall i :: 0 <= i < |w.log| ==> next.log[i] == w.log[i]
    ensures ReadForHost(next, hosts, key, x, time)
  {
    var h, i :| h in hosts && ReadBy(w, key, x, time, h, i);
    hide Normalize;
    assert ReadBy(next, key, x, time, h, i);
  }

  lemma {:induction false} HostEntriesKept(w: World, hosts: set<string>, e: Event)
    requires HostEntriesRead(w, hosts) && (e.LookUpHost? ==> e.host in hosts)
    ensures HostEntriesRead(Step(w, e), hosts)
  {
    var next := Step(w, e);
    hide ReadForHost, Normalize;
    forall k | HostKey(k) in next.cache && next.cache[HostKey(k)].value.Some?
      ensures ReadForHost(next, hosts, HostKey(k), next.cache[HostKey(k)].value.value,
                          next.cache[HostKey(k)].expires - next.ttl)
    {
      var entry := next.cache[HostKey(k)];
      if HostKey(k) in w.cache && w.cache[HostKey(k)] == entry {
        ReadEarlier(w, next, hosts, HostKey(k), entry.value.value, entry.expires - w.ttl);
      } else {
        JustRead(next, hosts, e.host, entry.value.value);
      }
    }
  }

  lemma JustRead(w: World, hosts: set<string>, h: string, x: Workspace)
    requires w.log != [] && w.log[|w.log| - 1] == Snapshot(w.now, w.rows)
    requires h in hosts && Normalize(h) != "" && RowByHost(w.rows, Normalize(h)) == Some(x)
    ensures ReadForHost(w, hosts, KeyOfHost(h), x, w.now)
  {
    hide Normalize;
    assert ReadBy(w, KeyOfHost(h), x, w.now, h, |w.log| - 1);
  }

  lemma {:induction false} HostEntriesOfRun(w: World, hosts: set<string>, es: seq<Event>)
    requires HostEntriesRead(w, hosts) && AsksOnly(es, hosts)
    ensures HostEntriesRead(Run(w, es), hosts)
    decreases |es|
  {
    hide HostEntriesRead, Step;
    if es != [] {
      HostEntriesKept(w, hosts, es[0]);
      HostEntriesOfRun(Step(w, es[0]), hosts, es[1..]);
    }
  }

  lemma FreshWithoutCollisions(rows: Rows, now: int, ttl: int, es: seq<Event>, hosts: set<string>, h: string)
    requires CollisionFree(hosts) && AsksOnly(es, hosts) && h in hosts
    ensures FreshByHost(Run(Start(rows, now, ttl), es), h)
  {
    HostEntriesOfRun(Start(rows, now, ttl), hosts, es);
    FreshFromEntries(Run(Start(rows, now, ttl), es), hosts, h);
    hide Run, RowByHost;
  }

  lemma {:induction false} FreshFromEntries(w: World, hosts: set<string>, h: string)
    requires HostEntriesRead(w, hosts) && CollisionFree(hosts) && h in hosts
    ensures Normalize(h) != "" ==> FreshByHost(w, h)
  {
    hide Normalize, Collide, CollisionFree, SaidByHost, Recent, FreshByHost;
    var key := KeyOfHost(h);
    var live := Live(w.cache, key, w.now);
    if Normalize(h) != "" {
      if live.Some? {
        var g, i := EntryRead(w, hosts, key);
        NoCollision(hosts, g, h);
        LiveIsRecent(w, key, i);
        HitIsFresh(w, h, i);
      } else {
        AnswersNow(w, h);
      }
    }
  }

  lemma {:induction false} EntryRead(w: World, hosts: set<string>, key: Key) returns (g: string, i: nat)
    requires HostEntriesRead(w, hosts) && key.HostKey? && Live(w.cache, key, w.now).Some?
    ensures g in hosts && i < |w.log| && KeyOfHost(g) == key && Normalize(g) != ""
    ensures w.log[i].time == w.cache[key].expires - w.ttl
    ensures SaidByHost(w.log[i], Normalize(g), Live(w.cache, key, w.now).value)
  {
    assert key == HostKey(key.name);
    var x, time := w.cache[key].value.value, w.cache[key].expires - w.ttl;
    assert ReadForHost(w, hosts, key, x, time);
    hide Normalize, SaidByHost;
    g, i :| g in hosts && ReadBy(w, key, x, time, g, i);
  }

  lemma NoCollision(hosts: set<string>, g: string, h: string)
    requires CollisionFree(hosts) && g in hosts && h in hosts
    requires KeyOfHost(g) == KeyOfHost(h) && Normalize(g) != "" && Normalize(h) != ""
    ensures Normalize(g) == Normalize(h)
  {
    hide Normalize;
    assert !Collide(g, h);
  }

  lemma LiveIsRecent(w: World, key: Key, i: nat)
    requires Live(w.cache, key, w.now).Some? && i < |w.log|
    requires w.log[i].time == w.cache[key].expires - w.ttl
    ensures Recent(w, i)
  {
  }

  lemma HitIsFresh(w: World, h: string, i: nat)
    requires i < |w.log| && Recent(w, i) && Live(w.cache, KeyOfHost(h), w.now).Some?
    requires SaidByHost(w.log[i], Normalize(h), Live(w.cache, KeyOfHost(h), w.now).value)
    ensures FreshByHost(w, h)
  {
    hide Recent, SaidByHost, Normalize;
  }

  lemma AnswersNow(w: World, h: string)
    requires w.log != [] && w.log[|w.log| - 1] == Snapshot(w.now, w.rows)
    requires Normalize(h) != "" && Live(w.cache, KeyOfHost(h), w.now).None?
    ensures FreshByHost(w, h)
  {
    hide Normalize, RowByHost, HostRow;
    RowsAnswer(w.rows);
    var answer := RowByHost(w.rows, Normalize(h));
    if answer.Some? {
      assert Recent(w, |w.log| - 1) && SaidByHost(w.log[|w.log| - 1], Normalize(h), answer.value);
    }
  }

  /** Two colliding hosts: looking up the first makes the second answer what no row ever said. */
  lemma CollisionStale(h1: string, h2: string, ttl: int)
    requires Collide(h1, h2) && ttl > 0
    ensures var rows := Rows(map[1 := Workspace(1, true, "")], map[Normalize(h1) := Domain(1, true)]);
      !FreshByHost(Run(Start(rows, 0, ttl), [LookUpHost(h1)]), h2)
  {
    var x := Workspace(1, true, "");
    var rows := Rows(map[1 := x], map[Normalize(h1) := Domain(1, true)]);
    var start := Start(rows, 0, ttl);
    var w := Step(start, LookUpHost(h1));
    assert Run(start, [LookUpHost(h1)]) == w by {
      assert Run(w, [LookUpHost(h1)][1..]) == w;
    }
    hide Normalize;
    assert RowByHost(rows, Normalize(h1)) == Some(x);
    assert w.cache[KeyOfHost(h2)] == Entry(Some(x), ttl);
    assert AnswerByHost(w, h2) == Some(x);
    assert !SaidByHost(w.log[0], Normalize(h2), x);
  }

  /**
    Lookups by hostname are at most one TTL behind the rows, for every run over a set of hosts,
    exactly when no two of those hosts collide (or nothing is cached at all).
   */
  lemma StalenessByHost(hosts: set<string>, ttl: int)
    ensures HostsSound(hosts, ttl) <==> ttl <= 0 || CollisionFree(hosts)
  {
    hide FreshByHost, Run, Start, Collide;
    if CollisionFree(hosts) {
      forall rows, now, es, h | AsksOnly(es, hosts) && h in hosts
        ensures FreshByHost(Run(Start(rows, now, ttl), es), h)
      {
        FreshWithoutCollisions(rows, now, ttl, es, hosts, h);
      }
    } else {
      var h1, h2 :| h1 in hosts && h2 in hosts && Collide(h1, h2);
      if ttl > 0 {
        CollisionStale(h1, h2, ttl);
        assert AsksOnly([LookUpHost(h1)], hosts);
      } else {
        forall rows, now, es, h | AsksOnly(es, hosts) && h in hosts
          ensures FreshByHost(Run(Start(rows, now, ttl), es), h)
        {
          FreshWithoutCache(rows, now, ttl, es, hosts, h);
        }
      }
    }
  }

  lemma FreshWithoutCache(rows: Rows, now: int, ttl: int, es: seq<Event>, hosts: set<string>, h: string)
    requires ttl <= 0
    ensures FreshByHost(Run(Start(rows, now, ttl), es), h)
  {
    var w := Run(Start(rows, now, ttl), es);
    NothingLive(Start(rows, now, ttl), es);
    hide Run;
    if Normalize(h) != "" {
      AnswersNow(w, h);
    }
  }

  lemma {:induction false} NothingLive(w: World, es: seq<Event>)
    requires w.ttl <= 0 && w.log != [] && w.log[|w.log| - 1] == Snapshot(w.now, w.rows)
    requires forall k :: k in w.cache ==> w.cache[k].expires <= w.now
    ensures var last := Run(w, es);
      && last.log != [] && last.log[|last.log| - 1] == Snapshot(last.now, last.rows)
      && forall k :: k in last.cache ==> last.cache[k].expires <= last.now
    decreases |es|
  {
    hide Normalize;
    if es != [] {
      NothingLive(Step(w, es[0]), es[1..]);
    }
  }

  /** Every host collides with itself behind "www.www.", since only the lookup drops one "www.". */
  lemma DoubleWwwCollides(host: string)
    requires host != "" && Plain(host)
    ensures Collide("www.www." + host, host)
  {
    var once := "www." + host;
    var twice := "www.www." + host;
    assert twice[..4] == "www." && twice[4..] == once;
    assert once[..4] == "www." && once[4..] == host;
  }

  predicate Plain(name: string) {
    Normalize(name) == name
  }

  /** Hosts whose normalised form has no leading "www." never collide. */
  lemma PlainHostsSound(hosts: set<string>)
    requires forall h :: h in hosts ==> Plain(Normalize(h))
    ensures CollisionFree(hosts)
  {
  }
}
