/**
  Operations and migrations stopped part of the way (bfg2/bfg/core/migration_operations.py, lines
  1-6 and 574-637).  The statements may run in any order, as Django writes constraints into
  CREATE TABLE and defers indexes and keys to the end of the migration.  What is there is accepted
  exactly when it is settled by what ran and nothing that is missing is looked at
  (`InterruptedExact`), and a migration of which some statements ran goes on exactly when that
  holds of each operation tried (`MigrationInterruptedExact`).
 */
module SchemaInterrupt {
  import opened Wrappers
  import opened TableText
  import opened Schema
  import opened SchemaRetry
  import opened SchemaText
  import opened SchemaRuns
  import opened SchemaReapply

  // ---- What ran and what did not ----

  /** The objects a statement adds are not in the table; a table that is there is not missing. */
  predicate Missing(t: Table, d: Ddl) {
    match d
    case CreateTable(_, _) => false
    case AddColumn(_, column, _, _, _) => column !in t.columns
    case AddInfo(_, name, _, _, _) => name !in t.infos
    case AddForeignKey(_, column, _, _) => column !in t.foreignKeys
  }

  lemma {:induction false} FrontExecutes(db: Database, a: seq<Ddl>, b: seq<Ddl>)
    requires ExecuteAll(db, a + b).1
    ensures ExecuteAll(db, a).1 && ExecuteAll(ExecuteAll(db, a).0, b) == ExecuteAll(db, a + b)
    decreases |a|
  {
    hide Execute;
    if a == [] {
      NothingExecuted(db);
      assert a + b == b;
    } else {
      assert (a + b)[0] == a[0] && (a + b)[1..] == a[1..] + b;
      FrontExecutes(Execute(db, a[0]).value, a[1..], b);
    }
  }

  lemma RefusedWhenThere(db: Database, d: Ddl)
    requires Execute(db, d).Some?
    ensures d.table in db ==> Missing(db[d.table], d)
  {
  }

  /** When the rest would run as well, what it adds is not there before. */
  lemma LaterMissing(db: Database, rest: seq<Ddl>, d: Ddl)
    requires ExecuteAll(db, rest).1 && d in rest && d.table in db
    ensures Missing(db[d.table], d)
  {
    var j :| 0 <= j < |rest| && rest[j] == d;
    assert rest == rest[..j] + rest[j..];
    FrontExecutes(db, rest[..j], rest[j..]);
    var reached := ExecuteAll(db, rest[..j]).0;
    ExecuteAllExtends(db, rest[..j]);
    assert rest[j..][0] == d;
    assert Execute(reached, d).Some?;
    RefusedWhenThere(reached, d);
    hide ExecuteAll, Execute;
    assert TableKept(db[d.table], reached[d.table]);
  }

  /** After `ran`, with `left` still to run, what ran is there and what is left is missing. */
  lemma ThereOrMissing(db: Database, ran: seq<Ddl>, left: seq<Ddl>, d: Ddl)
    requires ExecuteAll(db, ran + left).1
    ensures ExecuteAll(db, ran).1
    ensures d in ran ==> Effect(ExecuteAll(db, ran).0, d)
    ensures d in left && d.table in ExecuteAll(db, ran).0 ==> Missing(ExecuteAll(db, ran).0[d.table], d)
  {
    hide Execute, Effect, Missing;
    FrontExecutes(db, ran, left);
    AllEffects(db, ran);
    var after := ExecuteAll(db, ran).0;
    if d in left && d.table in after {
      LaterMissing(after, left, d);
    }
  }

  /** An index or constraint the table had before or gets from one of the statements. */
  ghost predicate InfoComes(db: Database, ds: seq<Ddl>, table: string, name: string, info: Info) {
    || (name in OldTable(db, table).infos && OldTable(db, table).infos[name] == info)
    || exists d :: d in ds && MakesInfo(d, table, name, info)
  }

  lemma InfosExact(db: Database, ds: seq<Ddl>, table: string, name: string, info: Info)
    requires ExecuteAll(db, ds).1 && table in ExecuteAll(db, ds).0
    ensures var t := ExecuteAll(db, ds).0[table];
      (name in t.infos && t.infos[name] == info) <==> InfoComes(db, ds, table, name, info)
  {
    var after := ExecuteAll(db, ds).0;
    Sources(db, ds, table);
    AllEffects(db, ds);
    ExecuteAllExtends(db, ds);
    hide Execute, ExecuteAll;
    assert table in db ==> TableKept(db[table], after[table]);
    if d :| d in ds && MakesInfo(d, table, name, info) {
      assert Effect(after, d);
    }
  }

  // ---- Statements that are not missed ----

  /** The index or constraint does what the field's own one is for. */
  predicate Serves(v: Vendor, m: ModelDecl, f: FieldDecl, name: string, info: Info) {
    if f.unique then info.columns == [f.column] && info.unique
    else ServesAsIndex(m, f.column, v.Mysql? && ChecksReference(f), name, info)
  }

  ghost predicate Replaced(v: Vendor, db: Database, ds: seq<Ddl>, m: ModelDecl, f: FieldDecl) {
    exists n, info :: InfoComes(db, ds, m.table, n, info) && Serves(v, m, f, n, info)
  }

  /** A foreign key that is not looked at, or an index or unique constraint that another one replaces. */
  ghost predicate Spare(v: Vendor, db: Database, ds: seq<Ddl>, m: ModelDecl, f: FieldDecl, d: Ddl) {
    Unchecked(d) || (d.AddInfo? && Replaced(v, db, ds, m, f))
  }

  ghost predicate Needless(v: Vendor, db: Database, ds: seq<Ddl>, op: Op, d: Ddl) {
    exists f :: f in Fields(op) && d in FieldStatements(v, op.model.table, f) && Spare(v, db, ds, op.model, f, d)
  }

  /** Of the operation's statements all ran that are missed. */
  ghost predicate Enough(v: Vendor, db: Database, ds: seq<Ddl>, op: Op) {
    forall d :: d in Statements(v, op) ==> d in ds || Needless(v, db, ds, op, d)
  }

  // ---- Which statement belongs to what ----

  /** The statements of one field. */
  lemma FieldShape(v: Vendor, table: string, f: FieldDecl, d: Ddl)
    requires d in FieldStatements(v, table, f)
    ensures d.table == table && !d.CreateTable?
    ensures d.AddColumn? ==> d == ColumnStatement(v, table, f)
    ensures d.AddForeignKey? ==> f.reference.Some? && d == KeyStatement(table, f) && f.reference.value.dbConstraint
    ensures d.AddInfo? ==>
      || (f.unique && !f.primaryKey && d == UniqueStatement(table, f))
      || (f.dbIndex && !f.unique && d == IndexOfField(table, f))
  {
    hide ColumnOf;
  }

  function ColumnStatement(v: Vendor, table: string, f: FieldDecl): Ddl {
    AddColumn(table, f.column, ColumnOf(v, f), f.checkName, Item(f.before, f.check, f.after))
  }

  lemma FieldHas(v: Vendor, table: string, f: FieldDecl)
    ensures ColumnStatement(v, table, f) in FieldStatements(v, table, f)
    ensures f.unique && !f.primaryKey ==> UniqueStatement(table, f) in FieldStatements(v, table, f)
    ensures f.dbIndex && !f.unique ==> IndexOfField(table, f) in FieldStatements(v, table, f)
    ensures ChecksReference(f) ==> KeyStatement(table, f) in FieldStatements(v, table, f)
  {
    hide ColumnOf;
    assert FieldStatements(v, table, f)[0] == ColumnStatement(v, table, f);
  }

  lemma {:induction false} FieldOf(v: Vendor, table: string, fs: seq<FieldDecl>, d: Ddl) returns (i: nat)
    requires d in AllFields(v, table, fs)
    ensures i < |fs| && d in FieldStatements(v, table, fs[i])
  {
    hide FieldStatements;
    if d in FieldStatements(v, table, fs[0]) {
      i := 0;
    } else {
      i := FieldOf(v, table, fs[1..], d);
      i := i + 1;
    }
  }

  /** A statement that makes an index, constraint or other object of its own. */
  predicate OwnObject(d: Ddl) {
    d.AddInfo? && (d.info.orders.Some? || d.written.Some? || d.sql.Some?)
  }

  lemma NotOfField(v: Vendor, table: string, f: FieldDecl, d: Ddl)
    requires d in FieldStatements(v, table, f)
    ensures !OwnObject(d)
  {
    FieldShape(v, table, f, d);
    hide FieldStatements;
  }

  lemma {:induction false} ConstraintOf(table: string, cs: seq<ConstraintDecl>, d: Ddl) returns (i: nat)
    requires d in AllConstraints(table, cs)
    ensures i < |cs| && d in ConstraintStatements(table, cs[i])
  {
    hide ConstraintStatements;
    if d in ConstraintStatements(table, cs[0]) {
      i := 0;
    } else {
      i := ConstraintOf(table, cs[1..], d);
      i := i + 1;
    }
  }

  lemma ConstraintShape(table: string, c: ConstraintDecl, d: Ddl)
    requires d in ConstraintStatements(table, c)
    ensures d.table == table && OwnObject(d) && d.name == c.name && c.sql.Some?
  {
    hide Quoted;
  }

  /** An object of its own is always missed. */
  lemma OwnIsMissed(v: Vendor, db: Database, ds: seq<Ddl>, op: Op, d: Ddl)
    requires OwnObject(d) || d.CreateTable?
    ensures !Needless(v, db, ds, op, d)
  {
    hide FieldStatements, Spare, Fields;
    forall f | f in Fields(op)
      ensures d !in FieldStatements(v, op.model.table, f)
    {
      if d in FieldStatements(v, op.model.table, f) {
        FieldShape(v, op.model.table, f, d);
        NotOfField(v, op.model.table, f, d);
      }
    }
  }

  // ---- One field ----

  ghost predicate FieldEnough(v: Vendor, db: Database, ds: seq<Ddl>, m: ModelDecl, f: FieldDecl) {
    forall d :: d in FieldStatements(v, m.table, f) ==> d in ds || Spare(v, db, ds, m, f, d)
  }

  lemma ReplacedExact(v: Vendor, db: Database, ds: seq<Ddl>, m: ModelDecl, f: FieldDecl)
    requires ExecuteAll(db, ds).1 && m.table in ExecuteAll(db, ds).0
    ensures var t := ExecuteAll(db, ds).0[m.table];
      Replaced(v, db, ds, m, f) <==>
        if f.unique then HasUnique(t, f.column)
        else HasImplicitIndex(t, m, f.column, v.Mysql? && ChecksReference(f))
  {
    hide ExecuteAll, InfoComes, ServesAsIndex;
    var t := ExecuteAll(db, ds).0[m.table];
    if Replaced(v, db, ds, m, f) {
      var n, info :| InfoComes(db, ds, m.table, n, info) && Serves(v, m, f, n, info);
      InfosExact(db, ds, m.table, n, info);
    }
    forall n | n in t.infos
      ensures InfoComes(db, ds, m.table, n, t.infos[n])
    {
      InfosExact(db, ds, m.table, n, t.infos[n]);
    }
    forall n | n in t.infos && Serves(v, m, f, n, t.infos[n])
      ensures Replaced(v, db, ds, m, f)
    {
      assert InfoComes(db, ds, m.table, n, t.infos[n]);
    }
  }

  /** A field's own index or unique constraint, once it ran, is one that serves. */
  lemma OwnServes(v: Vendor, db: Database, ds: seq<Ddl>, m: ModelDecl, f: FieldDecl)
    requires (f.unique && !f.primaryKey && UniqueStatement(m.table, f) in ds)
          || (f.dbIndex && !f.unique && IndexOfField(m.table, f) in ds)
    ensures Replaced(v, db, ds, m, f)
  {
    var d := if f.unique then UniqueStatement(m.table, f) else IndexOfField(m.table, f);
    assert MakesInfo(d, m.table, d.name, d.info);
    assert InfoComes(db, ds, m.table, d.name, d.info);
    assert Serves(v, m, f, d.name, d.info);
  }

  lemma ColumnThere(v: Vendor, db: Database, ran: seq<Ddl>, left: seq<Ddl>, m: ModelDecl, f: FieldDecl)
    requires ExecuteAll(db, ran + left).1 && ExecuteAll(db, ran).1 && m.table in ExecuteAll(db, ran).0
    requires ColumnStatement(v, m.table, f) in ran + left
    ensures var t := ExecuteAll(db, ran).0[m.table];
      if ColumnStatement(v, m.table, f) in ran
      then ColumnMatches(v, t, f) && (f.check.Some? ==> Enforced(t, f.check.value))
      else f.column !in t.columns
  {
    var d := ColumnStatement(v, m.table, f);
    ThereOrMissing(db, ran, left, d);
    hide ExecuteAll;
    var t := ExecuteAll(db, ran).0[m.table];
    if d in ran && f.check.Some? {
      assert CheckNamed(t, f.checkName, f.check.value);
    }
  }

  lemma KeyThere(db: Database, ran: seq<Ddl>, left: seq<Ddl>, m: ModelDecl, f: FieldDecl)
    requires ExecuteAll(db, ran + left).1 && ExecuteAll(db, ran).1 && m.table in ExecuteAll(db, ran).0
    requires ChecksReference(f) && KeyStatement(m.table, f) in ran + left
    ensures KeyMatches(ExecuteAll(db, ran).0[m.table], f) <==> KeyStatement(m.table, f) in ran
  {
    ThereOrMissing(db, ran, left, KeyStatement(m.table, f));
    hide ExecuteAll;
  }

  /** Which of a field's statements must have run. */
  lemma FieldEnoughIs(v: Vendor, db: Database, ds: seq<Ddl>, m: ModelDecl, f: FieldDecl)
    ensures FieldEnough(v, db, ds, m, f) <==>
      && ColumnStatement(v, m.table, f) in ds
      && ((f.unique && !f.primaryKey) || (f.dbIndex && !f.unique) ==> Replaced(v, db, ds, m, f))
      && (ChecksReference(f) ==> KeyStatement(m.table, f) in ds)
  {
    FieldHas(v, m.table, f);
    forall d | d in FieldStatements(v, m.table, f)
      ensures d.AddColumn? ==> d == ColumnStatement(v, m.table, f)
      ensures d.AddForeignKey? && !Unchecked(d) ==> ChecksReference(f) && d == KeyStatement(m.table, f)
      ensures d.AddInfo? ==>
        || (f.unique && !f.primaryKey && d == UniqueStatement(m.table, f))
        || (f.dbIndex && !f.unique && d == IndexOfField(m.table, f))
      ensures !d.CreateTable?
    {
      FieldShape(v, m.table, f, d);
    }
    hide FieldStatements, Replaced;
    if (f.unique && !f.primaryKey && UniqueStatement(m.table, f) in ds)
       || (f.dbIndex && !f.unique && IndexOfField(m.table, f) in ds) {
      OwnServes(v, db, ds, m, f);
    }
  }

  lemma FieldExact(v: Vendor, db: Database, ran: seq<Ddl>, left: seq<Ddl>, m: ModelDecl, f: FieldDecl)
    requires ExecuteAll(db, ran + left).1 && ExecuteAll(db, ran).1 && m.table in ExecuteAll(db, ran).0
    requires forall d :: d in FieldStatements(v, m.table, f) ==> d in ran + left
    ensures FieldPresent(v, ExecuteAll(db, ran).0[m.table], m, f) <==> FieldEnough(v, db, ran, m, f)
  {
    FieldEnoughIs(v, db, ran, m, f);
    FieldHas(v, m.table, f);
    ColumnThere(v, db, ran, left, m, f);
    ReplacedExact(v, db, ran, m, f);
    if ChecksReference(f) {
      KeyThere(db, ran, left, m, f);
    }
    FieldPresentIs(v, ExecuteAll(db, ran).0[m.table], m, f);
    hide ExecuteAll, FieldPresent, FieldStatements, Replaced, FieldEnough, KeyMatches, Enforced, HasUnique,
         HasImplicitIndex;
  }

  // ---- Indexes and constraints ----

  lemma IndexExact(db: Database, ran: seq<Ddl>, left: seq<Ddl>, table: string, i: IndexDecl)
    requires ExecuteAll(db, ran + left).1 && ExecuteAll(db, ran).1 && table in ExecuteAll(db, ran).0
    requires IndexStatement(table, i) in ran + left
    ensures IndexPresent(ExecuteAll(db, ran).0[table], i) <==> IndexStatement(table, i) in ran
  {
    ThereOrMissing(db, ran, left, IndexStatement(table, i));
    hide ExecuteAll;
  }

  lemma ConstraintExact(v: Vendor, db: Database, ran: seq<Ddl>, left: seq<Ddl>, table: string, c: ConstraintDecl,
                        u: Under)
    requires ExecuteAll(db, ran + left).1 && ExecuteAll(db, ran).1 && table in ExecuteAll(db, ran).0
    requires forall d :: d in ConstraintStatements(table, c) ==> d in ran + left
    ensures ConstraintPresent(v, ExecuteAll(db, ran).0[table], c, u)
      <==> forall d :: d in ConstraintStatements(table, c) ==> d in ran
  {
    var after := ExecuteAll(db, ran).0;
    forall d | d in ConstraintStatements(table, c)
      ensures d in ran ==> Effect(after, d)
      ensures d in left ==> c.name !in after[table].infos
    {
      ThereOrMissing(db, ran, left, d);
      ConstraintShape(table, c, d);
    }
    hide ExecuteAll, ConstraintPresent, Effect, Quoted;
    if c.sql.None? {
      NeverCreated(v, after[table], c, u);
    } else {
      OneStatement(table, c);
      var d := ConstraintStatements(table, c)[0];
      assert d in ConstraintStatements(table, c) && (d in ran || d in left);
      if d in ran {
        assert forall d :: d in ConstraintStatements(table, c) ==> Served(after, d);
        ConstraintMade(v, after, table, c, u);
      } else {
        NameMissing(v, after[table], c, u);
      }
    }
  }

  lemma OneStatement(table: string, c: ConstraintDecl)
    requires c.sql.Some?
    ensures |ConstraintStatements(table, c)| == 1
  {
  }

  lemma NameMissing(v: Vendor, t: Table, c: ConstraintDecl, u: Under)
    requires c.sql.Some? && c.name !in t.infos
    ensures !ConstraintPresent(v, t, c, u)
  {
  }

  // ---- One operation ----

  /** Every statement of the operation ran or is left. */
  predicate Covered(v: Vendor, op: Op, ran: seq<Ddl>, left: seq<Ddl>) {
    forall d :: d in Statements(v, op) ==> d in ran + left
  }

  lemma SameFieldStatement(v: Vendor, m: ModelDecl, f: FieldDecl, g: FieldDecl, d: Ddl)
    requires f in m.fields && g in m.fields
    requires d in FieldStatements(v, m.table, f) && d in FieldStatements(v, m.table, g) && d.AddInfo?
    ensures f == g
  {
    FieldShape(v, m.table, f, d);
    FieldShape(v, m.table, g, d);
    hide FieldStatements;
    var i :| 0 <= i < |m.fields| && m.fields[i] == f;
    var j :| 0 <= j < |m.fields| && m.fields[j] == g;
    assert d.info.columns == [f.column] == [g.column];
    assert [f.column][0] == [g.column][0];
  }

  /** For a field's statement it is the field that decides. */
  lemma NeedlessField(v: Vendor, db: Database, ds: seq<Ddl>, op: Op, f: FieldDecl, d: Ddl)
    requires f in Fields(op) && d in FieldStatements(v, op.model.table, f)
    ensures Needless(v, db, ds, op, d) <==> Spare(v, db, ds, op.model, f, d)
  {
    hide FieldStatements, Replaced;
    if g :| g in Fields(op) && d in FieldStatements(v, op.model.table, g) && Spare(v, db, ds, op.model, g, d) {
      if !Unchecked(d) && op.CreateModel? {
        SameFieldStatement(v, op.model, f, g, d);
      }
    }
  }

  lemma ModelStatements(v: Vendor, m: ModelDecl, d: Ddl)
    ensures d in Statements(v, CreateModel(m)) <==>
      || d == CreateTable(m.table, m.head) || d in AllFields(v, m.table, m.fields)
      || d in IndexStatements(m.table, m.indexes) || d in AllConstraints(m.table, m.constraints)
  {
    hide AllFields, IndexStatements, AllConstraints;
  }

  lemma OwnStatements(m: ModelDecl, d: Ddl)
    requires d in IndexStatements(m.table, m.indexes) || d in AllConstraints(m.table, m.constraints)
    ensures OwnObject(d) && d.table == m.table
  {
    hide ConstraintStatements;
    if d in AllConstraints(m.table, m.constraints) {
      var i := ConstraintOf(m.table, m.constraints, d);
      ConstraintShape(m.table, m.constraints[i], d);
    }
  }

  ghost predicate FieldsEnough(v: Vendor, db: Database, ds: seq<Ddl>, m: ModelDecl) {
    forall i :: 0 <= i < |m.fields| ==> FieldEnough(v, db, ds, m, m.fields[i])
  }

  lemma FieldsEnoughIs(v: Vendor, db: Database, ds: seq<Ddl>, m: ModelDecl)
    ensures FieldsEnough(v, db, ds, m) <==>
      forall d :: d in AllFields(v, m.table, m.fields) ==> d in ds || Needless(v, db, ds, CreateModel(m), d)
  {
    hide FieldStatements, Needless, Spare, AllFields;
    forall i, d | 0 <= i < |m.fields| && d in FieldStatements(v, m.table, m.fields[i])
      ensures d in AllFields(v, m.table, m.fields)
      ensures Needless(v, db, ds, CreateModel(m), d) <==> Spare(v, db, ds, m, m.fields[i], d)
    {
      StatementsOfField(v, m.table, m.fields, i);
      NeedlessField(v, db, ds, CreateModel(m), m.fields[i], d);
    }
    forall d | d in AllFields(v, m.table, m.fields)
      ensures exists i :: 0 <= i < |m.fields| && d in FieldStatements(v, m.table, m.fields[i])
    {
      var i := FieldOf(v, m.table, m.fields, d);
    }
  }

  lemma ModelEnoughIs(v: Vendor, db: Database, ds: seq<Ddl>, m: ModelDecl)
    ensures Enough(v, db, ds, CreateModel(m)) <==>
      && CreateTable(m.table, m.head) in ds && FieldsEnough(v, db, ds, m)
      && (forall d :: d in IndexStatements(m.table, m.indexes) ==> d in ds)
      && (forall d :: d in AllConstraints(m.table, m.constraints) ==> d in ds)
  {
    hide Statements, AllFields, IndexStatements, AllConstraints, Needless, FieldsEnough;
    FieldsEnoughIs(v, db, ds, m);
    forall d
      ensures d in Statements(v, CreateModel(m)) <==>
        || d == CreateTable(m.table, m.head) || d in AllFields(v, m.table, m.fields)
        || d in IndexStatements(m.table, m.indexes) || d in AllConstraints(m.table, m.constraints)
    {
      ModelStatements(v, m, d);
    }
    forall d | d in IndexStatements(m.table, m.indexes) || d in AllConstraints(m.table, m.constraints)
      ensures !Needless(v, db, ds, CreateModel(m), d)
    {
      OwnStatements(m, d);
      OwnIsMissed(v, db, ds, CreateModel(m), d);
    }
    OwnIsMissed(v, db, ds, CreateModel(m), CreateTable(m.table, m.head));
  }

  lemma ModelCovered(v: Vendor, m: ModelDecl, ran: seq<Ddl>, left: seq<Ddl>)
    requires Covered(v, CreateModel(m), ran, left)
    ensures CreateTable(m.table, m.head) in ran + left
    ensures forall i, d :: 0 <= i < |m.fields| && d in FieldStatements(v, m.table, m.fields[i]) ==> d in ran + left
    ensures forall i :: 0 <= i < |m.indexes| ==> IndexStatement(m.table, m.indexes[i]) in ran + left
    ensures forall i, d ::
      0 <= i < |m.constraints| && d in ConstraintStatements(m.table, m.constraints[i]) ==> d in ran + left
  {
    hide Statements, AllFields, AllConstraints, FieldStatements, ConstraintStatements, IndexStatement;
    ModelStatements(v, m, CreateTable(m.table, m.head));
    forall i, d | 0 <= i < |m.fields| && d in FieldStatements(v, m.table, m.fields[i])
      ensures d in ran + left
    {
      StatementsOfField(v, m.table, m.fields, i);
      ModelStatements(v, m, d);
    }
    forall i | 0 <= i < |m.indexes|
      ensures IndexStatement(m.table, m.indexes[i]) in ran + left
    {
      assert IndexStatements(m.table, m.indexes)[i] == IndexStatement(m.table, m.indexes[i]);
      ModelStatements(v, m, IndexStatement(m.table, m.indexes[i]));
    }
    forall i, d | 0 <= i < |m.constraints| && d in ConstraintStatements(m.table, m.constraints[i])
      ensures d in ran + left
    {
      StatementsOfConstraint(m.table, m.constraints, i);
      ModelStatements(v, m, d);
    }
  }

  lemma IndexesExact(db: Database, ran: seq<Ddl>, left: seq<Ddl>, m: ModelDecl)
    requires ExecuteAll(db, ran + left).1 && ExecuteAll(db, ran).1 && m.table in ExecuteAll(db, ran).0
    requires forall i :: 0 <= i < |m.indexes| ==> IndexStatement(m.table, m.indexes[i]) in ran + left
    ensures (forall i :: 0 <= i < |m.indexes| ==> IndexPresent(ExecuteAll(db, ran).0[m.table], m.indexes[i]))
      <==> forall d :: d in IndexStatements(m.table, m.indexes) ==> d in ran
  {
    hide ExecuteAll, IndexPresent, IndexStatement;
    forall i | 0 <= i < |m.indexes|
      ensures IndexPresent(ExecuteAll(db, ran).0[m.table], m.indexes[i])
        <==> IndexStatements(m.table, m.indexes)[i] in ran
    {
      IndexExact(db, ran, left, m.table, m.indexes[i]);
    }
  }

  lemma ConstraintsExact(v: Vendor, db: Database, ran: seq<Ddl>, left: seq<Ddl>, m: ModelDecl, u: Under)
    requires ExecuteAll(db, ran + left).1 && ExecuteAll(db, ran).1 && m.table in ExecuteAll(db, ran).0
    requires forall i, d ::
      0 <= i < |m.constraints| && d in ConstraintStatements(m.table, m.constraints[i]) ==> d in ran + left
    ensures
      (forall i :: 0 <= i < |m.constraints| ==>
         ConstraintPresent(v, ExecuteAll(db, ran).0[m.table], m.constraints[i], u))
      <==> forall d :: d in AllConstraints(m.table, m.constraints) ==> d in ran
  {
    hide ExecuteAll, ConstraintPresent, ConstraintStatements, AllConstraints;
    forall i | 0 <= i < |m.constraints|
      ensures ConstraintPresent(v, ExecuteAll(db, ran).0[m.table], m.constraints[i], u)
        <==> forall d :: d in ConstraintStatements(m.table, m.constraints[i]) ==> d in ran
      ensures forall d :: d in ConstraintStatements(m.table, m.constraints[i]) ==>
        d in AllConstraints(m.table, m.constraints)
    {
      ConstraintExact(v, db, ran, left, m.table, m.constraints[i], u);
      StatementsOfConstraint(m.table, m.constraints, i);
    }
    forall d | d in AllConstraints(m.table, m.constraints)
      ensures exists i :: 0 <= i < |m.constraints| && d in ConstraintStatements(m.table, m.constraints[i])
    {
      var i := ConstraintOf(m.table, m.constraints, d);
    }
  }

  lemma ModelExact(v: Vendor, db: Database, ran: seq<Ddl>, left: seq<Ddl>, m: ModelDecl, u: Under)
    requires ExecuteAll(db, ran + left).1 && ExecuteAll(db, ran).1 && Covered(v, CreateModel(m), ran, left)
    ensures Present(v, ExecuteAll(db, ran).0, CreateModel(m), u) <==> Enough(v, db, ran, CreateModel(m))
  {
    var after := ExecuteAll(db, ran).0;
    ModelEnoughIs(v, db, ran, m);
    ModelCovered(v, m, ran, left);
    ThereOrMissing(db, ran, left, CreateTable(m.table, m.head));
    hide ExecuteAll, FieldPresent, ConstraintPresent, IndexPresent, FieldStatements, FieldEnough, ConstraintStatements,
         Statements, Covered, Enough, IndexStatements, AllConstraints;
    assert CreateTable(m.table, m.head) in ran <==> m.table in after;
    if m.table in after {
      IndexesExact(db, ran, left, m);
      ConstraintsExact(v, db, ran, left, m, u);
      forall i | 0 <= i < |m.fields|
        ensures FieldPresent(v, after[m.table], m, m.fields[i]) <==> FieldEnough(v, db, ran, m, m.fields[i])
      {
        FieldExact(v, db, ran, left, m, m.fields[i]);
      }
    }
  }

  lemma FieldOpEnough(v: Vendor, db: Database, ds: seq<Ddl>, m: ModelDecl, f: FieldDecl)
    ensures Enough(v, db, ds, AddField(m, f)) <==> FieldEnough(v, db, ds, m, f)
  {
    hide FieldStatements, Needless, Spare;
    forall d | d in FieldStatements(v, m.table, f)
      ensures Needless(v, db, ds, AddField(m, f), d) <==> Spare(v, db, ds, m, f, d)
    {
      NeedlessField(v, db, ds, AddField(m, f), f, d);
    }
  }

  /** What has run is on tables that are there. */
  lemma RanIsOnTable(db: Database, ran: seq<Ddl>, d: Ddl)
    requires ExecuteAll(db, ran).1 && d in ran
    ensures d.table in ExecuteAll(db, ran).0
  {
    AllEffects(db, ran);
    hide ExecuteAll;
    assert Effect(ExecuteAll(db, ran).0, d);
  }

  /**
    In whatever order the statements ran, the declared shape is there exactly when everything ran
    that is missed.
   */
  lemma PresentExact(v: Vendor, db: Database, op: Op, ran: seq<Ddl>, left: seq<Ddl>, u: Under)
    requires ExecuteAll(db, ran + left).1 && Covered(v, op, ran, left)
    ensures ExecuteAll(db, ran).1
    ensures Present(v, ExecuteAll(db, ran).0, op, u) <==> Enough(v, db, ran, op)
  {
    FrontExecutes(db, ran, left);
    var after := ExecuteAll(db, ran).0;
    match op
    case CreateModel(m) => ModelExact(v, db, ran, left, m, u);
    case AddField(m, f) =>
      FieldOpEnough(v, db, ran, m, f);
      FieldHas(v, m.table, f);
      hide ExecuteAll, FieldPresent, FieldStatements, Spare;
      if m.table in after {
        FieldExact(v, db, ran, left, m, f);
      } else if ColumnStatement(v, m.table, f) in ran {
        RanIsOnTable(db, ran, ColumnStatement(v, m.table, f));
      }
      FieldEnoughIs(v, db, ran, m, f);
    case AddIndex(m, i) =>
      var d := IndexStatement(m.table, i);
      assert Statements(v, op) == [d] && d in Statements(v, op);
      OwnIsMissed(v, db, ran, op, d);
      hide ExecuteAll, IndexPresent, Needless;
      if m.table in after {
        IndexExact(db, ran, left, m.table, i);
      } else if d in ran {
        RanIsOnTable(db, ran, d);
      }
    case AddConstraint(m, c) => ConstraintOpExact(v, db, m, c, ran, left, u);
  }

  lemma ConstraintOpExact(v: Vendor, db: Database, m: ModelDecl, c: ConstraintDecl, ran: seq<Ddl>, left: seq<Ddl>,
                          u: Under)
    requires ExecuteAll(db, ran + left).1 && Covered(v, AddConstraint(m, c), ran, left) && ExecuteAll(db, ran).1
    ensures Present(v, ExecuteAll(db, ran).0, AddConstraint(m, c), u) <==> Enough(v, db, ran, AddConstraint(m, c))
  {
    var op, after := AddConstraint(m, c), ExecuteAll(db, ran).0;
    assert Statements(v, op) == ConstraintStatements(m.table, c);
    forall d | d in ConstraintStatements(m.table, c)
      ensures !Needless(v, db, ran, op, d)
      ensures d in ran ==> m.table in after
    {
      ConstraintShape(m.table, c, d);
      OwnIsMissed(v, db, ran, op, d);
      if d in ran {
        RanIsOnTable(db, ran, d);
      }
    }
    if m.table in after {
      ConstraintExact(v, db, ran, left, m.table, c, u);
      NeverCreated(v, after[m.table], c, u);
    } else if c.sql.Some? {
      OneStatement(m.table, c);
      hide ExecuteAll, ConstraintPresent, ConstraintStatements, Needless;
      assert ConstraintStatements(m.table, c)[0] in ConstraintStatements(m.table, c);
    }
  }

  /** The statement that makes what the operation looks for has run. */
  predicate Begun(v: Vendor, op: Op, ran: seq<Ddl>) {
    Statements(v, op) == [] || Statements(v, op)[0] in ran
  }

  lemma BegunExists(v: Vendor, db: Database, op: Op)
    requires Statements(v, op) == [] || Effect(db, Statements(v, op)[0])
    ensures Exists(db, op)
  {
  }

  lemma RanSound(v: Vendor, db: Database, ran: seq<Ddl>)
    requires SoundDb(v, db) && (v.Sqlite? ==> forall d :: d in ran ==> SafeDdl(d))
    ensures SoundDb(v, ExecuteAll(db, ran).0)
  {
    ExecuteAllSound(v, db, ran, AnyName, {});
  }

  lemma PresentVerdict(v: Vendor, db: Database, ran: seq<Ddl>, op: Op)
    requires ExecuteAll(db, ran).1 && Present(v, ExecuteAll(db, ran).0, op, AnyName)
    requires SoundDb(v, ExecuteAll(db, ran).0) && SafeOp(v, op)
    ensures Exists(ExecuteAll(db, ran).0, op)
    ensures Accepts(v, ExecuteAll(db, ran).0, op) <==> Settled(v, db, ran, op)
  {
    hide Present, ExecuteAll, SoundDb, SafeOp, Judged, Settled, Accepts, Exists;
    Verdict(v, ExecuteAll(db, ran).0, op);
    SettledExact(v, db, ran, op);
  }

  lemma AbsentRefused(v: Vendor, db: Database, op: Op)
    requires Exists(db, op) && !Present(v, db, op, AnyName) && SoundDb(v, db) && SafeOp(v, op)
    ensures !Accepts(v, db, op)
  {
    hide Present, SoundDb, SafeOp, Accepts, Exists, Truthful;
    if Accepts(v, db, op) {
      OpTruthful(v, db, op, AnyName, {});
      AcceptedIsPresent(v, db, op, AnyName);
    }
  }

  /**
    An operation stopped after some of its statements, in whatever order they run, its table or
    column among them: the retry accepts what is there, and changes nothing, if and only if the
    operation is settled by the statements that ran and everything ran that is missed.  Otherwise
    it is refused.
   */
  lemma InterruptedExact(v: Vendor, db: Database, op: Op, ran: seq<Ddl>, left: seq<Ddl>, budget: Option<nat>)
    requires ExecuteAll(db, ran + left).1 && Covered(v, op, ran, left) && Begun(v, op, ran)
    requires SoundDb(v, db) && SafeOp(v, op) && (v.Sqlite? ==> forall d :: d in ran ==> SafeDdl(d))
    ensures var after := ExecuteAll(db, ran).0;
      && Exists(after, op)
      && Apply(v, after, op, budget) ==
        (after, if Settled(v, db, ran, op) && Enough(v, db, ran, op) then Done else Refused)
  {
    hide Present, ExecuteAll, Execute, Statements, Exists, Effect, Accepts, SoundDb, SafeOp, SafeDdl, Settled, Enough,
         Apply;
    var after := ExecuteAll(db, ran).0;
    PresentExact(v, db, op, ran, left, AnyName);
    if Statements(v, op) != [] {
      ThereOrMissing(db, ran, left, Statements(v, op)[0]);
    }
    BegunExists(v, after, op);
    RanSound(v, db, ran);
    if Present(v, after, op, AnyName) {
      PresentVerdict(v, db, ran, op);
    } else {
      AbsentRefused(v, after, op);
    }
    ApplyExisting(v, after, op, budget);
  }

  /**
    On MySQL the index of a foreign key is not missed once a unique constraint of the model that
    starts with its column is there, as it is when constraints are written into CREATE TABLE.
   */
  lemma IndexReplaced(db: Database, ran: seq<Ddl>, m: ModelDecl, f: FieldDecl, c: ConstraintDecl)
    requires f in m.fields && f.dbIndex && !f.unique && ChecksReference(f)
    requires c in m.constraints && c.UniqueDecl? && IsPlainUnique(c, c.name, c.columns)
    requires |c.columns| > 1 && c.columns[0] == f.column
    requires forall d :: d in ConstraintStatements(m.table, c) ==> d in ran
    ensures Needless(Mysql, db, ran, CreateModel(m), IndexOfField(m.table, f))
  {
    hide Quoted, ColumnOf;
    var d := ConstraintStatements(m.table, c)[0];
    assert d in ConstraintStatements(m.table, c);
    assert MakesInfo(d, m.table, c.name, d.info) && InfoComes(db, ran, m.table, c.name, d.info);
    var i :| 0 <= i < |m.constraints| && m.constraints[i] == c;
    assert DeclaredUnique(m, c.name, d.info.columns);
    assert Serves(Mysql, m, f, c.name, d.info);
    FieldHas(Mysql, m.table, f);
    hide FieldStatements, ConstraintStatements;
    assert Spare(Mysql, db, ran, m, f, IndexOfField(m.table, f)) && f in Fields(CreateModel(m));
  }

  // ---- Whole migrations ----

  /** The operation found its object and accepted it when some of the statements had run. */
  ghost predicate Met(v: Vendor, db: Database, ran: seq<Ddl>, op: Op) {
    exists k :: 0 <= k <= |ran| && Accepted(v, ExecuteAll(db, ran[..k]).0, op)
  }

  predicate Accepted(v: Vendor, db: Database, op: Op) {
    Exists(db, op) && Accepts(v, db, op)
  }

  /** What was accepted is still present after the rest of the statements. */
  lemma MetIsPresent(v: Vendor, db: Database, ran: seq<Ddl>, op: Op)
    requires Met(v, db, ran, op) && ExecuteAll(db, ran).1 && SoundDb(v, db) && SafeOp(v, op)
    requires v.Sqlite? ==> forall d :: d in ran ==> SafeDdl(d)
    ensures Present(v, ExecuteAll(db, ran).0, op, AnyName)
  {
    hide Present, ExecuteAll, SoundDb, SafeOp, SafeDdl, Accepts, Exists, Truthful;
    var k :| 0 <= k <= |ran| && Accepted(v, ExecuteAll(db, ran[..k]).0, op);
    var earlier := ExecuteAll(db, ran[..k]).0;
    assert ran == ran[..k] + ran[k..];
    FrontExecutes(db, ran[..k], ran[k..]);
    RanSound(v, db, ran[..k]);
    OpTruthful(v, earlier, op, AnyName, {});
    AcceptedIsPresent(v, earlier, op, AnyName);
    ExecuteAllExtends(earlier, ran[k..]);
    PresentStays(v, earlier, ExecuteAll(db, ran).0, op, AnyName);
  }

  /** The retry takes the operation for done. */
  ghost predicate Accomplished(v: Vendor, db: Database, ran: seq<Ddl>, op: Op) {
    Settled(v, db, ran, op) && (Met(v, db, ran, op) || Enough(v, db, ran, op))
  }

  lemma {:induction false} ValidateFront(v: Vendor, db: Database, ops: seq<Op>, i: nat, budget: Option<nat>)
    requires i <= |ops| && forall op :: op in ops[..i] ==> Exists(db, op)
    ensures Attempt(v, db, ops, budget) ==
      if exists op :: op in ops[..i] && !Accepts(v, db, op) then (db, Refused)
      else Attempt(v, db, ops[i..], budget)
    decreases i
  {
    hide Apply, Exists, Accepts, StatementsRun;
    if i == 0 {
      assert ops[0..] == ops && ops[..0] == [];
    } else {
      assert ops[..i][0] == ops[0] && ops[..i][1..] == ops[1..][..i - 1] && ops[1..][i - 1..] == ops[i..];
      assert ops[0] in ops[..i];
      ApplyExisting(v, db, ops[0], budget);
      assert forall op :: op in ops[..i] <==> op == ops[0] || op in ops[1..][..i - 1];
      ValidateFront(v, db, ops[1..], i - 1, budget);
    }
  }

  /** Of the operation either some statements ran, or it had been accepted. */
  ghost predicate Tried(v: Vendor, db: Database, ran: seq<Ddl>, left: seq<Ddl>, op: Op) {
    Met(v, db, ran, op) || (Begun(v, op, ran) && Covered(v, op, ran, left))
  }

  lemma TriedVerdict(v: Vendor, db: Database, op: Op, ran: seq<Ddl>, left: seq<Ddl>)
    requires ExecuteAll(db, ran + left).1 && Tried(v, db, ran, left, op)
    requires SoundDb(v, db) && SafeOp(v, op) && (v.Sqlite? ==> forall d :: d in ran ==> SafeDdl(d))
    ensures var after := ExecuteAll(db, ran).0;
      Exists(after, op) && (Accepts(v, after, op) <==> Accomplished(v, db, ran, op))
  {
    hide Present, ExecuteAll, Exists, Accepts, SoundDb, SafeOp, SafeDdl, Settled, Enough, Met, Covered, Begun, Apply;
    var after := ExecuteAll(db, ran).0;
    FrontExecutes(db, ran, left);
    RanSound(v, db, ran);
    if Met(v, db, ran, op) {
      MetIsPresent(v, db, ran, op);
      PresentVerdict(v, db, ran, op);
    } else {
      InterruptedExact(v, db, op, ran, left, None);
      ApplyExisting(v, after, op, None);
    }
  }

  /**
    A migration of which some statements have run, in whatever order, also those of one operation
    after those of another: a retry takes up after the operations that were tried if and only if
    each of these is accomplished.  Otherwise it is refused.
   */
  lemma MigrationInterruptedExact(v: Vendor, db: Database, ops: seq<Op>, i: nat, ran: seq<Ddl>, left: seq<Ddl>,
                                  budget: Option<nat>)
    requires ExecuteAll(db, ran + left).1
    requires i <= |ops| && forall op :: op in ops[..i] ==> Tried(v, db, ran, left, op)
    requires SoundDb(v, db) && SafeOps(v, ops[..i]) && (v.Sqlite? ==> forall d :: d in ran ==> SafeDdl(d))
    ensures var after := ExecuteAll(db, ran).0;
      Attempt(v, after, ops, budget) ==
        if forall op :: op in ops[..i] ==> Accomplished(v, db, ran, op) then Attempt(v, after, ops[i..], budget)
        else (after, Refused)
  {
    hide ExecuteAll, Exists, Accepts, SoundDb, SafeOp, SafeDdl, Tried, Accomplished, Attempt;
    var after := ExecuteAll(db, ran).0;
    forall op | op in ops[..i]
      ensures Exists(after, op) && (Accepts(v, after, op) <==> Accomplished(v, db, ran, op))
    {
      assert SafeOp(v, op);
      TriedVerdict(v, db, op, ran, left);
    }
    ValidateFront(v, after, ops, i, budget);
  }
}
