/**
  What an operation that creates its object makes besides what validation looks at
  (bfg2/bfg/core/migration_operations.py, lines 574-637): every foreign key, whether it is looked
  at or not, and nothing that is not declared; no other table is touched.
 */
module SchemaCreation {
  import opened Wrappers
  import opened Schema
  import opened SchemaRetry
  import opened SchemaReapply
  import opened SchemaInterrupt

  lemma CreatedBy(v: Vendor, db: Database, op: Op)
    requires !Exists(db, op) && Apply(v, db, op, None).1 == Done
    ensures ExecuteAll(db, Statements(v, op)) == (Apply(v, db, op, None).0, true)
  {
    hide Exists, Accepts, Statements, ExecuteAll;
    var ds := Statements(v, op);
    assert ds[..|ds|] == ds;
  }

  lemma KeyIsStated(v: Vendor, op: Op, f: FieldDecl)
    requires f in Fields(op) && f.reference.Some? && f.reference.value.dbConstraint
    ensures KeyStatement(op.model.table, f) in Statements(v, op)
  {
    var d := KeyStatement(op.model.table, f);
    KeyOfField(v, op.model.table, f);
    if op.CreateModel? {
      var i :| 0 <= i < |op.model.fields| && op.model.fields[i] == f;
      StatementsOfField(v, op.model.table, op.model.fields, i);
      hide FieldStatements, AllFields, Statements;
      ModelStatements(v, op.model, d);
    }
  }

  lemma KeyOfField(v: Vendor, table: string, f: FieldDecl)
    requires f.reference.Some? && f.reference.value.dbConstraint
    ensures KeyStatement(table, f) in FieldStatements(v, table, f)
  {
    hide ColumnOf;
  }

  /** Every reference that the database enforces has its key, one-to-one references too. */
  lemma KeysMade(v: Vendor, db: Database, op: Op, f: FieldDecl)
    requires !Exists(db, op) && Apply(v, db, op, None).1 == Done
    requires f in Fields(op) && f.reference.Some? && f.reference.value.dbConstraint
    ensures var after, r := Apply(v, db, op, None).0, f.reference.value;
      && op.model.table in after && f.column in after[op.model.table].foreignKeys
      && after[op.model.table].foreignKeys[f.column] == ForeignKey(r.table, r.column, NoAction, NoAction)
  {
    CreatedBy(v, db, op);
    KeyIsStated(v, op, f);
    AllEffects(db, Statements(v, op));
    hide Statements, ExecuteAll, Apply, Exists;
    assert Effect(Apply(v, db, op, None).0, KeyStatement(op.model.table, f));
  }

  /** The names an operation declares for what it makes. */
  predicate DeclaredName(op: Op, name: string) {
    || (exists f :: f in Fields(op) &&
          ((f.check.Some? && name == f.checkName) || (f.unique && name == f.uniqueName)
           || (f.dbIndex && name == f.indexName)))
    || (op.CreateModel? && exists i :: i in op.model.indexes && i.name == name)
    || (op.AddIndex? && op.index.name == name)
    || (exists c :: c in Constraints(op) && c.sql.Some? && c.name == name)
  }

  lemma FieldDeclares(v: Vendor, op: Op, f: FieldDecl, d: Ddl)
    requires f in Fields(op) && d in FieldStatements(v, op.model.table, f)
    ensures d.table == op.model.table
    ensures d.AddColumn? ==> d.column == f.column
    ensures forall name, info :: MakesInfo(d, op.model.table, name, info) ==> DeclaredName(op, name)
    ensures d.AddForeignKey? ==> d.column == f.column
  {
    FieldShape(v, op.model.table, f, d);
    hide FieldStatements, Fields, ColumnOf;
  }

  lemma OwnDeclares(v: Vendor, op: Op, d: Ddl)
    requires d in Statements(v, op)
    requires !op.CreateModel? && !op.AddField?
    ensures d.table == op.model.table && !d.AddColumn?
    ensures forall name, info :: MakesInfo(d, op.model.table, name, info) ==> DeclaredName(op, name)
  {
    hide Quoted;
    if op.AddConstraint? {
      assert op.constraint in Constraints(op);
    }
  }

  /** Every statement of an operation is for its table, and makes something that it declares. */
  lemma StatementDeclared(v: Vendor, op: Op, d: Ddl)
    requires d in Statements(v, op)
    ensures d.table == op.model.table
    ensures d.AddColumn? ==> exists f :: f in Fields(op) && f.column == d.column
    ensures forall name, info :: MakesInfo(d, op.model.table, name, info) ==> DeclaredName(op, name)
  {
    match op
    case CreateModel(m) =>
      ModelStatements(v, m, d);
      hide Statements, AllFields, AllConstraints, FieldStatements, ConstraintStatements, DeclaredName, MakesInfo;
      if d in AllFields(v, m.table, m.fields) {
        var i := FieldOf(v, m.table, m.fields, d);
        FieldDeclares(v, op, m.fields[i], d);
      } else if d in AllConstraints(m.table, m.constraints) {
        var i := ConstraintOf(m.table, m.constraints, d);
        ConstraintDeclares(op, m.constraints[i], d);
      } else if d in IndexStatements(m.table, m.indexes) {
        var i :| 0 <= i < |m.indexes| && IndexStatements(m.table, m.indexes)[i] == d;
        IndexDeclares(op, m.indexes[i]);
      } else {
        NoInfo(m);
      }
    case AddField(m, f) =>
      FieldDeclares(v, op, f, d);
      assert f in Fields(op);
    case _ => OwnDeclares(v, op, d);
  }

  lemma NoInfo(m: ModelDecl)
    ensures forall name, info :: !MakesInfo(CreateTable(m.table, m.head), m.table, name, info)
  {
  }

  lemma IndexDeclares(op: Op, i: IndexDecl)
    requires op.CreateModel? && i in op.model.indexes
    ensures forall name, info :: MakesInfo(IndexStatement(op.model.table, i), op.model.table, name, info) ==>
      DeclaredName(op, name)
  {
  }

  lemma ConstraintDeclares(op: Op, c: ConstraintDecl, d: Ddl)
    requires op.CreateModel? && c in op.model.constraints && d in ConstraintStatements(op.model.table, c)
    ensures d.table == op.model.table && !d.AddColumn?
    ensures forall name, info :: MakesInfo(d, op.model.table, name, info) ==> DeclaredName(op, name)
  {
    ConstraintShape(op.model.table, c, d);
    hide ConstraintStatements;
    assert c in Constraints(op);
  }

  /** A column, index or constraint that was not there before is one the operation declares. */
  lemma NothingElseMade(v: Vendor, db: Database, op: Op)
    requires !Exists(db, op) && Apply(v, db, op, None).1 == Done && op.model.table in Apply(v, db, op, None).0
    ensures var before, after := OldTable(db, op.model.table), Apply(v, db, op, None).0[op.model.table];
      && (forall c :: c in after.columns && c !in before.columns ==> exists f :: f in Fields(op) && f.column == c)
      && (forall n :: n in after.infos && n !in before.infos ==> DeclaredName(op, n))
  {
    CreatedBy(v, db, op);
    var ds := Statements(v, op);
    Sources(db, ds, op.model.table);
    forall d | d in ds
      ensures d.AddColumn? ==> exists f :: f in Fields(op) && f.column == d.column
      ensures forall name, info :: MakesInfo(d, op.model.table, name, info) ==> DeclaredName(op, name)
    {
      StatementDeclared(v, op, d);
    }
    hide Statements, ExecuteAll, Apply, Exists, DeclaredName, MakesInfo, Fields;
  }

  lemma {:induction false} OthersUntouched(db: Database, ds: seq<Ddl>, table: string, other: string)
    requires other != table && forall d :: d in ds ==> d.table == table
    ensures (other in db <==> other in ExecuteAll(db, ds).0)
    ensures other in db ==> ExecuteAll(db, ds).0[other] == db[other]
    decreases |ds|
  {
    hide Altered;
    if ds != [] && Execute(db, ds[0]).Some? {
      assert ds[0] in ds;
      OthersUntouched(Execute(db, ds[0]).value, ds[1..], table, other);
    }
  }

  /** However it ends, an operation touches no table but its own. */
  lemma OwnTableOnly(v: Vendor, db: Database, op: Op, budget: Option<nat>, other: string)
    requires other != op.model.table
    ensures var after := Apply(v, db, op, budget).0;
      (other in db <==> other in after) && (other in db ==> after[other] == db[other])
  {
    var ds := Statements(v, op);
    var k := Affordable(|ds|, budget);
    forall d | d in ds[..k]
      ensures d.table == op.model.table
    {
      assert d in ds;
      StatementDeclared(v, op, d);
    }
    hide Statements, ExecuteAll, Exists, Accepts;
    OthersUntouched(db, ds[..k], op.model.table, other);
  }
}
