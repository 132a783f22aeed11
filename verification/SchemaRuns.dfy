/**
  Whole deployments: migrations are attempted, interrupted at any statement or just before they
  are recorded, and attempted again (bfg2/bfg/core/migration_operations.py, lines 1-6 and
  574-637).  `SchemaEditor` performs the operations on a database in place; `RecordedIsPresent`
  is the safety claim over every run of deployments.
 */
module SchemaRuns {
  import opened Wrappers
  import opened SqlLexer
  import opened TableText
  import opened Schema
  import opened SchemaRetry
  import opened SchemaText

  // ---- The operations in place ----

  class SchemaEditor {
    const vendor: Vendor
    var db: Database

    constructor (vendor: Vendor, db: Database)
      ensures this.vendor == vendor && this.db == db
    {
      this.vendor, this.db := vendor, db;
    }

    method ExecuteStatements(ds: seq<Ddl>) returns (ok: bool)
      modifies this
      ensures (db, ok) == ExecuteAll(old(db), ds)
    {
      hide Execute;
      ok := true;
      var i := 0;
      assert ds[0..] == ds;
      while i < |ds|
        invariant 0 <= i <= |ds|
        invariant ExecuteAll(old(db), ds) == ExecuteAll(db, ds[i..])
      {
        assert ds[i..][1..] == ds[i + 1..];
        var next := Execute(db, ds[i]);
        if next.None? {
          return false;
        }
        db := next.value;
        i := i + 1;
      }
    }

    method AddFieldIfCompatible(m: ModelDecl, f: FieldDecl) returns (outcome: Outcome)
      modifies this
      ensures (db, outcome) == Apply(vendor, old(db), AddField(m, f), None)
    {
      if m.table in db && f.column in db[m.table].columns {
        return if ValidField(vendor, db[m.table], m, f) then Done else Refused;
      }
      outcome := Create(AddField(m, f));
    }

    method CreateModelIfCompatible(m: ModelDecl) returns (outcome: Outcome)
      modifies this
      ensures (db, outcome) == Apply(vendor, old(db), CreateModel(m), None)
    {
      if m.table in db {
        return if ValidModel(vendor, db[m.table], m) then Done else Refused;
      }
      outcome := Create(CreateModel(m));
    }

    method AddIndexIfCompatible(m: ModelDecl, i: IndexDecl) returns (outcome: Outcome)
      modifies this
      ensures (db, outcome) == Apply(vendor, old(db), AddIndex(m, i), None)
    {
      if m.table in db && i.name in db[m.table].infos {
        if vendor.OtherBackend? {
          return Refused;
        }
        return if ValidIndex(db[m.table], i) then Done else Refused;
      }
      outcome := Create(AddIndex(m, i));
    }

    method AddConstraintIfCompatible(m: ModelDecl, c: ConstraintDecl) returns (outcome: Outcome)
      modifies this
      ensures (db, outcome) == Apply(vendor, old(db), AddConstraint(m, c), None)
    {
      if (m.table in db && c.name in db[m.table].infos) || c.sql.None? {
        if vendor.OtherBackend? {
          return Refused;
        }
        return if m.table !in db || ValidConstraint(vendor, db[m.table], c) then Done else Refused;
      }
      outcome := Create(AddConstraint(m, c));
    }

    /** The inherited database_forwards: run the statements of the operation. */
    method Create(op: Op) returns (outcome: Outcome)
      requires !Exists(db, op)
      modifies this
      ensures (db, outcome) == Apply(vendor, old(db), op, None)
    {
      hide Statements, Exists;
      var ds := Statements(vendor, op);
      assert ds[..|ds|] == ds;
      var ok := ExecuteStatements(ds);
      return if ok then Done else DatabaseError;
    }
  }

  // ---- Runs ----

  function StatementsRun(v: Vendor, db: Database, op: Op): nat {
    if Exists(db, op) then 0 else |Statements(v, op)|
  }

  function Remaining(budget: Option<nat>, used: nat): Option<nat> {
    if budget.None? then None else Some(if budget.value < used then 0 else budget.value - used)
  }

  /**
    A migration from its first operation on.  With a budget it is interrupted: inside its
    statements, between two operations, or, if the budget outlasts them, before it is recorded.
   */
  function Attempt(v: Vendor, db: Database, ops: seq<Op>, budget: Option<nat>): (Database, Outcome)
    decreases |ops|
  {
    if ops == [] then (db, if budget.Some? then Interrupted else Done)
    else
      var (next, outcome) := Apply(v, db, ops[0], budget);
      if outcome != Done then (next, outcome)
      else Attempt(v, next, ops[1..], Remaining(budget, StatementsRun(v, db, ops[0])))
  }

  datatype State = State(db: Database, recorded: seq<seq<Op>>)

  /** One deployment; `rollback` when the backend undoes the statements of a failed migration. */
  datatype Event = Event(ops: seq<Op>, budget: Option<nat>, rollback: bool)

  function Step(v: Vendor, s: State, e: Event): State {
    if e.ops in s.recorded then s
    else
      var (after, outcome) := Attempt(v, s.db, e.ops, e.budget);
      if outcome == Done then State(after, s.recorded + [e.ops])
      else if e.rollback then s
      else State(after, s.recorded)
  }

  /** A migration is recorded exactly when it completes; one that is recorded is never attempted again. */
  lemma StepExact(v: Vendor, s: State, e: Event)
    ensures var next, tried := Step(v, s, e), Attempt(v, s.db, e.ops, e.budget);
      && (e.ops in s.recorded ==> next == s)
      && (e.ops !in s.recorded && tried.1 == Done ==> next == State(tried.0, s.recorded + [e.ops]))
      && (e.ops !in s.recorded && tried.1 != Done ==>
        next == State(if e.rollback then s.db else tried.0, s.recorded))
  {
  }

  /** A migration completes exactly when nothing interrupts it and each operation, in order, completes. */
  lemma AttemptExact(v: Vendor, db: Database, op: Op, rest: seq<Op>, budget: Option<nat>)
    ensures Attempt(v, db, [], None) == (db, Done)
    ensures budget != None ==> Attempt(v, db, [], budget) == (db, Interrupted)
    ensures Apply(v, db, op, None).1 != Done ==> Attempt(v, db, [op] + rest, None) == Apply(v, db, op, None)
    ensures Apply(v, db, op, None).1 == Done ==>
      Attempt(v, db, [op] + rest, None) == Attempt(v, Apply(v, db, op, None).0, rest, None)
  {
    hide Apply;
    assert ([op] + rest)[1..] == rest;
  }

  function Run(v: Vendor, s: State, es: seq<Event>): State
    decreases |es|
  {
    if es == [] then s else Run(v, Step(v, s, es[0]), es[1..])
  }

  lemma ExtendsItself(db: Database)
    ensures Extends(db, db)
  {
  }

  lemma {:induction false} AttemptExtends(v: Vendor, db: Database, ops: seq<Op>, budget: Option<nat>)
    ensures Extends(db, Attempt(v, db, ops, budget).0)
    decreases |ops|
  {
    hide Extends, Apply;
    ExtendsItself(db);
    if ops != [] {
      var next := Apply(v, db, ops[0], budget).0;
      ApplyExtends(v, db, ops[0], budget);
      var rest := Remaining(budget, StatementsRun(v, db, ops[0]));
      AttemptExtends(v, next, ops[1..], rest);
      ExtendsTransitive(db, next, Attempt(v, next, ops[1..], rest).0);
    }
  }

  lemma StaysEnforced(a: Table, b: Table, clause: string)
    requires Kept(a.checks, b.checks) && Enforced(a, clause)
    ensures Enforced(b, clause)
  {
    hide SameClause;
    var n :| n in a.checks && CheckNamed(a, n, clause);
    assert CheckNamed(b, n, clause);
  }

  lemma FieldStays(v: Vendor, a: Table, b: Table, m: ModelDecl, f: FieldDecl)
    requires TableKept(a, b) && FieldPresent(v, a, m, f)
    ensures FieldPresent(v, b, m, f)
  {
    hide SameClause;
    if f.check.Some? {
      StaysEnforced(a, b, f.check.value);
    }
    hide IsColumn, IsKey, IsUnique, IsIndexFor;
    if n :| n in a.infos && IsUnique(a.infos[n], f.column) {
      assert n in b.infos && b.infos[n] == a.infos[n];
    }
    if n :| n in a.infos && IsIndexFor(v, m, f, n, a.infos[n]) {
      assert n in b.infos && b.infos[n] == a.infos[n];
    }
  }

  lemma ConstraintStays(v: Vendor, a: Table, b: Table, c: ConstraintDecl, u: Under)
    requires TableKept(a, b) && ConstraintPresent(v, a, c, u)
    ensures ConstraintPresent(v, b, c, u)
  {
    hide SameClause, SameDefinition, Enforced;
    if c.CheckDecl? && Enforced(a, c.clause) {
      StaysEnforced(a, b, c.clause);
    }
  }

  /** What is present stays present in every database that extends the first. */
  lemma PresentStays(v: Vendor, a: Database, b: Database, op: Op, u: Under)
    requires Extends(a, b) && Present(v, a, op, u)
    ensures Present(v, b, op, u)
  {
    hide FieldPresent, ConstraintPresent;
    if op.model.table in a {
      var s, t := a[op.model.table], b[op.model.table];
      assert TableKept(s, t);
      if op.CreateModel? {
        forall i | 0 <= i < |op.model.fields|
          ensures FieldPresent(v, t, op.model, op.model.fields[i])
        {
          FieldStays(v, s, t, op.model, op.model.fields[i]);
        }
        forall i | 0 <= i < |op.model.constraints|
          ensures ConstraintPresent(v, t, op.model.constraints[i], u)
        {
          ConstraintStays(v, s, t, op.model.constraints[i], u);
        }
      } else if op.AddField? {
        FieldStays(v, s, t, op.model, op.field);
      } else if op.AddConstraint? && op.constraint.sql.Some? {
        ConstraintStays(v, s, t, op.constraint, u);
      }
    }
  }

  ghost predicate SafeOps(v: Vendor, ops: seq<Op>) {
    forall op :: op in ops ==> SafeOp(v, op)
  }

  ghost predicate KnownOps(v: Vendor, ops: seq<Op>, u: Under, known: set<CheckOf>) {
    forall op :: op in ops ==> KnownOp(v, op, u, known)
  }

  lemma {:induction false} AttemptSound(v: Vendor, db: Database, ops: seq<Op>, budget: Option<nat>,
                                        u: Under, known: set<CheckOf>)
    requires SoundDb(v, db) && SafeOps(v, ops) && Told(v, db, u, known) && KnownOps(v, ops, u, known)
    ensures SoundDb(v, Attempt(v, db, ops, budget).0) && Told(v, Attempt(v, db, ops, budget).0, u, known)
    decreases |ops|
  {
    hide SoundDb, SafeOp, Apply, Told, KnownOp;
    if ops != [] {
      assert ops[0] in ops;
      ApplySound(v, db, ops[0], budget, u, known);
      var rest := Remaining(budget, StatementsRun(v, db, ops[0]));
      AttemptSound(v, Apply(v, db, ops[0], budget).0, ops[1..], rest, u, known);
    }
  }

  /** A migration that completes leaves every object of all its operations in place. */
  lemma {:induction false} AttemptIsPresent(v: Vendor, db: Database, ops: seq<Op>, budget: Option<nat>,
                                            u: Under, known: set<CheckOf>)
    requires Attempt(v, db, ops, budget).1 == Done && SoundDb(v, db) && SafeOps(v, ops)
    requires Told(v, db, u, known) && KnownOps(v, ops, u, known)
    ensures forall op :: op in ops ==> Present(v, Attempt(v, db, ops, budget).0, op, u)
    decreases |ops|
  {
    hide Present, Apply, Extends, SoundDb, SafeOp, Told, KnownOp;
    if ops != [] {
      assert ops[0] in ops;
      var next := Apply(v, db, ops[0], budget).0;
      var rest := Remaining(budget, StatementsRun(v, db, ops[0]));
      DoneIsPresent(v, db, ops[0], budget, u, known);
      ApplySound(v, db, ops[0], budget, u, known);
      AttemptIsPresent(v, next, ops[1..], rest, u, known);
      AttemptExtends(v, next, ops[1..], rest);
      PresentStays(v, next, Attempt(v, next, ops[1..], rest).0, ops[0], u);
      assert forall op :: op in ops ==> op == ops[0] || op in ops[1..];
    }
  }

  /** Every object a recorded migration declares is in the database in its declared shape. */
  ghost predicate AllPresent(v: Vendor, s: State, u: Under) {
    forall ops, op :: ops in s.recorded && op in ops ==> Present(v, s.db, op, u)
  }

  lemma StepKeeps(v: Vendor, s: State, e: Event, u: Under, known: set<CheckOf>)
    requires AllPresent(v, s, u) && SoundDb(v, s.db) && SafeOps(v, e.ops)
    requires Told(v, s.db, u, known) && KnownOps(v, e.ops, u, known)
    ensures AllPresent(v, Step(v, s, e), u) && Extends(s.db, Step(v, s, e).db)
    ensures SoundDb(v, Step(v, s, e).db) && Told(v, Step(v, s, e).db, u, known)
  {
    hide Present, Attempt, Extends, SoundDb, SafeOps, Told, KnownOps;
    ExtendsItself(s.db);
    AttemptExtends(v, s.db, e.ops, e.budget);
    AttemptSound(v, s.db, e.ops, e.budget, u, known);
    var next := Step(v, s, e);
    forall ops, op | ops in next.recorded && op in ops
      ensures Present(v, next.db, op, u)
    {
      if ops in s.recorded {
        PresentStays(v, s.db, next.db, op, u);
      } else {
        AttemptIsPresent(v, s.db, e.ops, e.budget, u, known);
      }
    }
  }

  ghost predicate SafeEvents(v: Vendor, es: seq<Event>) {
    forall i :: 0 <= i < |es| ==> SafeOps(v, es[i].ops)
  }

  ghost predicate KnownEvents(v: Vendor, es: seq<Event>, u: Under, known: set<CheckOf>) {
    forall i :: 0 <= i < |es| ==> KnownOps(v, es[i].ops, u, known)
  }

  /**
    Over every run of attempts, interruptions and retries: a recorded migration's objects are
    present in their declared shape, and no object that ever existed is altered.  On SQLite the
    texts declared and those there at the start must be good ones (`FalseCheckAccepted` and
    `LiteralMistaken` say why), and a CHECK is then enforced; under its own name it is if none
    can pass for another.
   */
  lemma {:induction false} RecordedIsPresent(v: Vendor, s: State, es: seq<Event>, u: Under, known: set<CheckOf>)
    requires AllPresent(v, s, u) && SoundDb(v, s.db) && SafeEvents(v, es)
    requires Told(v, s.db, u, known) && KnownEvents(v, es, u, known)
    ensures AllPresent(v, Run(v, s, es), u) && Extends(s.db, Run(v, s, es).db)
    decreases |es|
  {
    hide AllPresent, Extends, Step, SoundDb, SafeOps, Told, KnownOps;
    ExtendsItself(s.db);
    if es != [] {
      StepKeeps(v, s, es[0], u, known);
      var next := Step(v, s, es[0]);
      assert SafeEvents(v, es[1..]) && KnownEvents(v, es[1..], u, known);
      RecordedIsPresent(v, next, es[1..], u, known);
      ExtendsTransitive(s.db, next.db, Run(v, next, es[1..]).db);
    }
  }

  /** From a database on which nothing is recorded, whatever names are declared, every CHECK is enforced. */
  lemma FreshRun(v: Vendor, db: Database, es: seq<Event>)
    requires SoundDb(v, db) && SafeEvents(v, es)
    ensures AllPresent(v, Run(v, State(db, []), es), AnyName) && Extends(db, Run(v, State(db, []), es).db)
  {
    hide SafeEvents, SoundDb, Run, Extends, Present;
    RecordedIsPresent(v, State(db, []), es, AnyName, {});
  }

  /** On a backend whose catalogue holds the clauses nothing is asked of any text or name. */
  lemma CatalogueRun(v: Vendor, s: State, es: seq<Event>)
    requires AllPresent(v, s, ItsName) && !v.Sqlite?
    ensures AllPresent(v, Run(v, s, es), ItsName) && Extends(s.db, Run(v, s, es).db)
  {
    hide AllPresent, Run, Extends;
    RecordedIsPresent(v, s, es, ItsName, {});
  }

  // ---- When every recorded CHECK has its own name ----

  /** In every run on SQLite that knows only these CHECKs, recorded CHECKs are there under their names. */
  ghost predicate NamesKept(known: set<CheckOf>) {
    forall s, es :: AllPresent(Sqlite, s, ItsName) && SoundDb(Sqlite, s.db) && SafeEvents(Sqlite, es)
      && KnownDb(s.db, known) && KnownEvents(Sqlite, es, ItsName, known)
      ==> AllPresent(Sqlite, Run(Sqlite, s, es), ItsName)
  }

  ghost predicate GoodKnown(known: set<CheckOf>) {
    forall k :: k in known ==> IsIdentifier(k.name) && GoodClause(k.clause)
  }

  lemma CheckOp(m: ModelDecl, c: ConstraintDecl, known: set<CheckOf>)
    requires c.CheckDecl? && IsIdentifier(c.name) && GoodClause(c.clause)
    requires CheckOf(m.table, c.name, c.clause) in known
    ensures SafeOp(Sqlite, AddConstraint(m, c)) && KnownOp(Sqlite, AddConstraint(m, c), ItsName, known)
  {
    hide GoodClause, IsIdentifier;
  }

  lemma TwoKnown(x: CheckOf, r: CheckOf, known: set<CheckOf>)
    requires x in known && r in known && x.table == r.table && x.name != r.name
    ensures KnownDb(map[x.table := TwoChecks(x.name, x.clause, r.name, r.clause)], known)
  {
  }

  /** The run in which d is taken for x. */
  lemma MistakenRun(known: set<CheckOf>, x: CheckOf, d: CheckOf, r: CheckOf)
    requires x in known && d in known && r in known && GoodKnown(known) && Mistaken(x, d, r)
    ensures !NamesKept(known)
  {
    hide GoodClause, IsIdentifier, Lower, SameClause, Present, TextSound;
    var m, c := Model(x.table, "", [], [], []), CheckDecl(d.name, Some(""), d.clause);
    var t, op := TwoChecks(x.name, x.clause, d.name, r.clause), AddConstraint(m, c);
    var s, es := State(map[x.table := t], []), [Event([op], None, false)];
    CaseMistaken(m, x.name, x.clause, d.name, d.clause, r.clause);
    OneStep(s, op);
    CheckOp(m, c, known);
    TwoKnown(x, r, known);
    hide SafeOp, KnownOp, KnownDb, SoundDb, Run, TwoChecks;
    assert SafeEvents(Sqlite, es) && KnownEvents(Sqlite, es, ItsName, known);
    assert AllPresent(Sqlite, s, ItsName);
    var last := Run(Sqlite, s, es);
    assert [op] in last.recorded && op in [op] && !Present(Sqlite, last.db, op, ItsName);
  }

  lemma OneStep(s: State, op: Op)
    requires Apply(Sqlite, s.db, op, None) == (s.db, Done) && s.recorded == []
    ensures Run(Sqlite, s, [Event([op], None, false)]) == State(s.db, [[op]])
  {
    hide Apply;
    var e := Event([op], None, false);
    assert [e][1..] == [] && [op][1..] == [];
    assert Attempt(Sqlite, s.db, [op], None) == (s.db, Done);
  }

  /**
    On SQLite every recorded CHECK is there under its own name, whatever the run, exactly when
    none of the CHECKs declared or there at the start can pass for another.
   */
  lemma NamesKeptExact(known: set<CheckOf>)
    requires GoodKnown(known)
    ensures NamesKept(known) <==> Clear(known)
  {
    if Clear(known) {
      forall s, es | AllPresent(Sqlite, s, ItsName) && SoundDb(Sqlite, s.db) && SafeEvents(Sqlite, es)
          && KnownDb(s.db, known) && KnownEvents(Sqlite, es, ItsName, known)
        ensures AllPresent(Sqlite, Run(Sqlite, s, es), ItsName)
      {
        hide AllPresent, SoundDb, SafeEvents, KnownEvents, Run, Extends;
        RecordedIsPresent(Sqlite, s, es, ItsName, known);
      }
    } else {
      hide Mistaken, NamesKept, GoodKnown;
      var x, d, r :| x in known && d in known && r in known && Mistaken(x, d, r);
      MistakenRun(known, x, d, r);
    }
  }
}
