/**
  What the retry operations see of a database and what the schema editor does to it
  (bfg2/bfg/core/migration_operations.py, lines 29-34, 150-304, 367-400).  A physical schema
  is a map of tables; each statement of a DDL list adds one object under a fresh name or is
  refused by the database.  A table keeps its real constraints apart from the SQL text that
  SQLite stores of it, which is what the code reads there.  One SQL statement may add several
  objects; the claims about interruptions hold after any of them.
 */
module Schema {
  import opened Wrappers
  import opened TableText

  datatype Vendor = Sqlite | Mysql | OtherBackend

  datatype Column = Column(dbType: string, isNull: bool, primaryKey: bool, autoIncrement: bool)

  datatype Direction = Asc | Desc

  datatype Rule = NoAction | Restrict | OtherRule(name: string)

  /** One entry of Django's constraint introspection. */
  datatype Info = Info(columns: seq<string>, unique: bool, index: bool, check: bool,
                       orders: Option<seq<Direction>>, kind: Option<string>)

  datatype ForeignKey = ForeignKey(table: string, column: string, onUpdate: Rule, onDelete: Rule)

  /** `checks` are the real CHECK constraints, `definitions` the SQL of SQLite indexes, `text` that of the table. */
  datatype Table = Table(columns: map<string, Column>, infos: map<string, Info>,
                         foreignKeys: map<string, ForeignKey>, checks: map<string, string>,
                         definitions: map<string, string>, text: Text)

  type Database = map<string, Table>

  // ---- Declarations ----

  datatype Reference = Reference(table: string, column: string, manyToOne: bool, dbConstraint: bool,
                                 knownPolicy: bool)

  /** `before` and `after` are the SQL of the column in front of and behind its CHECK. */
  datatype FieldDeclaration = Field(column: string, dbType: string, decimal: bool, isNull: bool,
                                    primaryKey: bool, unique: bool, dbIndex: bool, auto: bool,
                                    check: Option<string>, reference: Option<Reference>,
                                    checkName: string, uniqueName: string, indexName: string,
                                    before: string, after: string)

  /** Django rejects a nullable primary key before any migration is made. */
  type FieldDecl = f: FieldDeclaration | f.primaryKey ==> !f.isNull
    witness Field("id", "int", false, false, true, true, false, true, None, None, "", "", "", "", "")

  /** `special`: expressions, include, opclasses or a condition, or no fields at all. */
  datatype IndexDecl = IndexDecl(name: string, fields: seq<(string, Direction)>, special: bool)

  /** `sql` is what create_sql returns: None when the backend never creates the constraint. */
  datatype ConstraintDecl =
    | UniqueDecl(name: string, sql: Option<string>, columns: seq<string>, special: bool, conditional: bool)
    | CheckDecl(name: string, sql: Option<string>, clause: string)
    | OtherDecl(name: string, sql: Option<string>)

  /** `head` is the SQL in front of the parenthesis of CREATE TABLE. */
  datatype ModelDeclaration = Model(table: string, head: string, fields: seq<FieldDecl>, indexes: seq<IndexDecl>,
                                    constraints: seq<ConstraintDecl>)

  /** Django rejects two fields with one column before any migration is made. */
  type ModelDecl = m: ModelDeclaration | DistinctColumns(m.fields) witness Model("", "", [], [], [])

  function IndexColumns(i: IndexDecl): seq<string> {
    seq(|i.fields|, k requires 0 <= k < |i.fields| => i.fields[k].0)
  }

  function IndexOrders(i: IndexDecl): seq<Direction> {
    seq(|i.fields|, k requires 0 <= k < |i.fields| => i.fields[k].1)
  }

  // ---- Statements ----

  /** `checked` says that validation looks at the foreign key. */
  datatype Ddl =
    | CreateTable(table: string, head: string)
    | AddColumn(table: string, column: string, definition: Column, checkName: string, part: Part)
    | AddInfo(table: string, name: string, info: Info, sql: Option<string>, written: Option<Part>)
    | AddForeignKey(table: string, column: string, key: ForeignKey, checked: bool)

  predicate Used(t: Table, name: string) {
    name in t.infos || name in t.checks || name in t.definitions
  }

  const CHECK_INFO := Info([], false, false, true, None, None)

  function WithClause(checks: map<string, string>, name: string, clause: Option<string>): map<string, string> {
    if clause.Some? then checks[name := clause.value] else checks
  }

  function Written(x: Text, p: Option<Part>): Text {
    if p.Some? then x.(parts := x.parts + [p.value]) else x
  }

  /** The clause of the CHECK that the statement makes, if it makes one. */
  function MadeClause(d: Ddl): Option<string> {
    match d
    case AddColumn(_, _, _, _, part) => ClauseOf(part)
    case AddInfo(_, _, _, _, written) => if written.Some? then ClauseOf(written.value) else None
    case _ => None
  }

  /** The table after one statement on it; None when the database refuses the statement. */
  function Altered(t: Table, d: Ddl): Option<Table> {
    match d
    case CreateTable(_, _) => None
    case AddColumn(_, column, definition, name, part) =>
      if column in t.columns || (MadeClause(d).Some? && Used(t, name)) then None
      else Some(t.(columns := t.columns[column := definition],
                   infos := if MadeClause(d).Some? then t.infos[name := CHECK_INFO] else t.infos,
                   checks := WithClause(t.checks, name, MadeClause(d)), text := Written(t.text, Some(part))))
    case AddInfo(_, name, info, sql, written) =>
      if Used(t, name) then None
      else Some(t.(infos := t.infos[name := info], checks := WithClause(t.checks, name, MadeClause(d)),
                   definitions := if sql.Some? then t.definitions[name := sql.value] else t.definitions,
                   text := Written(t.text, written)))
    case AddForeignKey(_, column, key, _) =>
      if column in t.foreignKeys then None else Some(t.(foreignKeys := t.foreignKeys[column := key]))
  }

  function EmptyTable(head: string): Table {
    Table(map[], map[], map[], map[], map[], Text(head, []))
  }

  /** The database after one statement; None when it refuses the statement. */
  function Execute(db: Database, d: Ddl): Option<Database> {
    if d.CreateTable? then
      if d.table in db then None else Some(db[d.table := EmptyTable(d.head)])
    else if d.table !in db then None
    else
      match Altered(db[d.table], d)
      case None => None
      case Some(t) => Some(db[d.table := t])
  }

  /** A statement is refused exactly when its table is not there, or when something it makes is there already. */
  lemma RefusedExact(db: Database, d: Ddl)
    ensures Execute(db, d) == None <==>
      match d
      case CreateTable(table, _) => table in db
      case AddColumn(table, column, _, name, part) =>
        || table !in db || column in db[table].columns
        || (ClauseOf(part) != None
            && (name in db[table].infos || name in db[table].checks || name in db[table].definitions))
      case AddInfo(table, name, _, _, _) =>
        table !in db || name in db[table].infos || name in db[table].checks || name in db[table].definitions
      case AddForeignKey(table, column, _, _) => table !in db || column in db[table].foreignKeys
  {
  }

  /** Statements in order up to the first refused one, and whether none was refused. */
  function ExecuteAll(db: Database, ds: seq<Ddl>): (Database, bool)
    decreases |ds|
  {
    if ds == [] then (db, true)
    else
      match Execute(db, ds[0])
      case None => (db, false)
      case Some(next) => ExecuteAll(next, ds[1..])
  }

  // ---- What the schema editor emits ----

  function ColumnOf(v: Vendor, f: FieldDecl): Column {
    Column(f.dbType, f.isNull, f.primaryKey, v.Mysql? && f.auto)
  }

  /** The column with its check, then its unique constraint, index and foreign key. */
  function FieldStatements(v: Vendor, table: string, f: FieldDecl): seq<Ddl> {
    [AddColumn(table, f.column, ColumnOf(v, f), f.checkName, Item(f.before, f.check, f.after))]
    + (if f.unique && !f.primaryKey then [UniqueStatement(table, f)] else [])
    + (if f.dbIndex && !f.unique then [IndexOfField(table, f)] else [])
    + (if f.reference.Some? && f.reference.value.dbConstraint then [KeyStatement(table, f)] else [])
  }

  function UniqueStatement(table: string, f: FieldDecl): Ddl {
    AddInfo(table, f.uniqueName, Info([f.column], true, true, false, None, None), None, None)
  }

  function IndexOfField(table: string, f: FieldDecl): Ddl {
    AddInfo(table, f.indexName, Info([f.column], false, true, false, None, None), None, None)
  }

  function KeyStatement(table: string, f: FieldDecl): Ddl
    requires f.reference.Some?
  {
    AddForeignKey(table, f.column, ForeignKey(f.reference.value.table, f.reference.value.column, NoAction, NoAction),
                  f.reference.value.manyToOne)
  }

  function AllFields(v: Vendor, table: string, fs: seq<FieldDecl>): seq<Ddl> {
    if fs == [] then [] else FieldStatements(v, table, fs[0]) + AllFields(v, table, fs[1..])
  }

  function IndexStatement(table: string, i: IndexDecl): Ddl {
    AddInfo(table, i.name,
      Info(IndexColumns(i), false, true, false, Some(IndexOrders(i)), Some("idx")), None, None)
  }

  function Quoted(columns: seq<string>): string {
    if columns == [] then "" else "\"" + columns[0] + "\"" + (if |columns| > 1 then ", " else "") + Quoted(columns[1..])
  }

  function ConstraintStatements(table: string, c: ConstraintDecl): seq<Ddl> {
    if c.sql.None? then []
    else
      match c
      case UniqueDecl(name, sql, columns, _, conditional) =>
        var text := "CONSTRAINT \"" + name + "\" UNIQUE (" + Quoted(columns) + ")";
        [AddInfo(table, name, Info(columns, true, true, false, None, None), if conditional then sql else None,
                 if conditional then None else Some(Item(text, None, "")))]
      case CheckDecl(name, _, clause) =>
        [AddInfo(table, name, CHECK_INFO, None, Some(NamedCheck(name, clause)))]
      case OtherDecl(name, sql) =>
        [AddInfo(table, name, Info([], false, false, false, None, None), None, Some(Item(sql.value, None, "")))]
  }

  function IndexStatements(table: string, indexes: seq<IndexDecl>): seq<Ddl> {
    seq(|indexes|, k requires 0 <= k < |indexes| => IndexStatement(table, indexes[k]))
  }

  function AllConstraints(table: string, cs: seq<ConstraintDecl>): seq<Ddl> {
    if cs == [] then [] else ConstraintStatements(table, cs[0]) + AllConstraints(table, cs[1..])
  }

  predicate DistinctColumns(fs: seq<FieldDecl>) {
    forall i, j :: 0 <= i < j < |fs| ==> fs[i].column != fs[j].column
  }

  // ---- Nothing is altered ----

  ghost predicate Kept<K(!new), V(!new)>(before: map<K, V>, after: map<K, V>) {
    forall k :: k in before ==> k in after && after[k] == before[k]
  }

  ghost predicate TableKept(before: Table, after: Table) {
    && Kept(before.columns, after.columns) && Kept(before.infos, after.infos)
    && Kept(before.foreignKeys, after.foreignKeys) && Kept(before.checks, after.checks)
    && Kept(before.definitions, after.definitions)
    && before.text.head == after.text.head && before.text.parts <= after.text.parts
  }

  /** Every object of `before` is in `after`, unchanged. */
  ghost predicate Extends(before: Database, after: Database) {
    forall t :: t in before ==> t in after && TableKept(before[t], after[t])
  }

  lemma ExtendsTransitive(a: Database, b: Database, c: Database)
    requires Extends(a, b) && Extends(b, c)
    ensures Extends(a, c)
  {
    forall t | t in a
      ensures t in c && TableKept(a[t], c[t])
    {
      assert TableKept(a[t], b[t]) && TableKept(b[t], c[t]);
    }
  }

  lemma ExecuteExtends(db: Database, d: Ddl)
    requires Execute(db, d).Some?
    ensures Extends(db, Execute(db, d).value)
  {
  }

  lemma {:induction false} ExecuteAllExtends(db: Database, ds: seq<Ddl>)
    ensures Extends(db, ExecuteAll(db, ds).0)
    decreases |ds|
  {
    if ds != [] {
      var next := Execute(db, ds[0]);
      if next.Some? {
        ExecuteExtends(db, ds[0]);
        ExecuteAllExtends(next.value, ds[1..]);
        ExtendsTransitive(db, next.value, ExecuteAll(db, ds).0);
      }
    }
  }

  /** The object a statement adds is in the database, as declared. */
  ghost predicate Effect(db: Database, d: Ddl) {
    d.table in db && var t := db[d.table];
    match d
    case CreateTable(_, _) => true
    case AddColumn(_, column, definition, name, part) =>
      && column in t.columns && t.columns[column] == definition && part in t.text.parts
      && (MadeClause(d).Some? ==>
        && name in t.infos && t.infos[name] == CHECK_INFO
        && name in t.checks && t.checks[name] == MadeClause(d).value)
    case AddInfo(_, name, info, sql, written) =>
      && name in t.infos && t.infos[name] == info && (written.Some? ==> written.value in t.text.parts)
      && (MadeClause(d).Some? ==> name in t.checks && t.checks[name] == MadeClause(d).value)
      && (sql.Some? ==> name in t.definitions && t.definitions[name] == sql.value)
    case AddForeignKey(_, column, key, _) => column in t.foreignKeys && t.foreignKeys[column] == key
  }

  lemma EffectStays(a: Database, b: Database, d: Ddl)
    requires Effect(a, d) && Extends(a, b)
    ensures Effect(b, d)
  {
    assert TableKept(a[d.table], b[d.table]);
  }

  /** After a list that was not refused, every object it adds is there. */
  lemma {:induction false} AllEffects(db: Database, ds: seq<Ddl>)
    requires ExecuteAll(db, ds).1
    ensures forall d :: d in ds ==> Effect(ExecuteAll(db, ds).0, d)
    decreases |ds|
  {
    if ds != [] {
      var next := Execute(db, ds[0]).value;
      assert Effect(next, ds[0]);
      AllEffects(next, ds[1..]);
      ExecuteAllExtends(next, ds[1..]);
      EffectStays(next, ExecuteAll(db, ds).0, ds[0]);
      assert forall d :: d in ds ==> d == ds[0] || d in ds[1..];
    }
  }
}
