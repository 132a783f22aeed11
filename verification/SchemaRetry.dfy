/**
  The retry operations (bfg2/bfg/core/migration_operations.py, lines 307-364 and 466-637):
  create an object, or accept an existing one only if it proves to be the declared one.
  `Apply` is what an operation does to a database and `Present` the shape it declares.  What
  validation accepts has that shape if its CHECKs are there (`AcceptedExact`), and so has what
  creation leaves behind (`CreatedIsPresent`).
 */
module SchemaRetry {
  import opened Wrappers
  import opened SqlLexer
  import opened SqlNormalise
  import opened Parens
  import opened CheckExtract
  import opened TableText
  import opened Schema

  // ---- Validation ----

  predicate Lexes(clause: string) {
    NormaliseExpression(clause).Ok?
  }

  predicate DefinitionLexes(sql: string) {
    NormaliseSql(sql).Ok?
  }

  /** The clauses validation sees: on SQLite what the scan of the table's SQL finds. */
  function ReadClauses(v: Vendor, t: Table): set<string> {
    if v.Sqlite? then set c | c in Checks(Sql(t.text), 0) else t.checks.Values
  }

  /** The clause validation sees under a name. */
  function ReadNamed(v: Vendor, t: Table, name: string): Option<string> {
    if v.Sqlite? then NamedFrom(Sql(t.text), 0, name)
    else if name in t.checks then Some(t.checks[name]) else None
  }

  /** The clause validation sees under the name is this one. */
  predicate ReadAs(v: Vendor, t: Table, name: string, clause: string) {
    ReadNamed(v, t, name).Some? && NormaliseExpression(ReadNamed(v, t, name).value) == NormaliseExpression(clause)
  }

  /** No clause that is read makes the tokenizer fail. */
  predicate AllLex(clauses: set<string>) {
    forall c :: c in clauses ==> Lexes(c)
  }

  predicate HasClause(clauses: set<string>, clause: string) {
    exists c :: c in clauses && NormaliseExpression(c) == NormaliseExpression(clause)
  }

  function NormalRule(r: Rule): Rule {
    if r.Restrict? then NoAction else r
  }

  /** Plain unique constraints of the model that the backend creates, by name and columns. */
  predicate DeclaredUnique(m: ModelDecl, name: string, columns: seq<string>) {
    exists i :: 0 <= i < |m.constraints| && IsPlainUnique(m.constraints[i], name, columns)
  }

  predicate IsPlainUnique(c: ConstraintDecl, name: string, columns: seq<string>) {
    c.UniqueDecl? && c.columns != [] && !c.special && !c.conditional && c.sql.Some?
    && c.name == name && c.columns == columns
  }

  predicate ServesAsIndex(m: ModelDecl, column: string, leftPrefix: bool, name: string, item: Info) {
    item.index &&
    ( (item.columns == [column] && !item.unique)
      || (leftPrefix && |item.columns| > 1 && item.columns[0] == column
          && (!item.unique || DeclaredUnique(m, name, item.columns))))
  }

  predicate HasImplicitIndex(t: Table, m: ModelDecl, column: string, leftPrefix: bool) {
    exists n :: n in t.infos && ServesAsIndex(m, column, leftPrefix, n, t.infos[n])
  }

  predicate HasUnique(t: Table, column: string) {
    exists n :: n in t.infos && t.infos[n].columns == [column] && t.infos[n].unique
  }

  predicate ChecksReference(f: FieldDecl) {
    f.reference.Some? && f.reference.value.manyToOne && f.reference.value.dbConstraint
  }

  predicate ColumnMatches(v: Vendor, t: Table, f: FieldDecl) {
    && f.column in t.columns
    && var c := t.columns[f.column];
      && c.dbType == f.dbType && c.isNull == f.isNull && c.primaryKey == f.primaryKey
      && (v.Mysql? ==> c.autoIncrement == f.auto)
  }

  predicate KeyMatches(t: Table, f: FieldDecl)
    requires f.reference.Some?
  {
    && f.column in t.foreignKeys
    && var k, r := t.foreignKeys[f.column], f.reference.value;
      && k.table == r.table && k.column == r.column
      && NormalRule(k.onDelete) == NoAction && NormalRule(k.onUpdate) == NoAction
  }

  predicate ValidField(v: Vendor, t: Table, m: ModelDecl, f: FieldDecl) {
    && !v.OtherBackend?
    && !(v.Sqlite? && f.decimal)
    && ColumnMatches(v, t, f)
    && (f.check.Some? ==>
      AllLex(ReadClauses(v, t)) && Lexes(f.check.value) && HasClause(ReadClauses(v, t), f.check.value))
    && (f.unique && !f.primaryKey ==> HasUnique(t, f.column))
    && (f.dbIndex && !f.unique ==> HasImplicitIndex(t, m, f.column, v.Mysql? && ChecksReference(f)))
    && (ChecksReference(f) ==> KeyMatches(t, f) && f.reference.value.knownPolicy)
  }

  predicate IndexMatches(t: Table, i: IndexDecl) {
    && i.name in t.infos
    && var item := t.infos[i.name];
      && item.index && !item.unique && item.columns == IndexColumns(i)
      && (item.orders.Some? ==> item.orders.value == IndexOrders(i))
      && (item.kind.Some? ==> item.kind.value == "idx")
  }

  predicate ValidIndex(t: Table, i: IndexDecl) {
    !i.special && IndexMatches(t, i)
  }

  predicate ValidConstraint(v: Vendor, t: Table, c: ConstraintDecl) {
    if c.sql.None? then c.name !in t.infos
    else
      match c
      case UniqueDecl(name, sql, columns, special, conditional) =>
        && !special && name in t.infos && t.infos[name].unique && t.infos[name].columns == columns
        && (conditional ==>
          && v.Sqlite? && name in t.definitions && DefinitionLexes(sql.value)
          && NormaliseSql(t.definitions[name]) == NormaliseSql(sql.value))
      case CheckDecl(name, _, clause) =>
        name in t.infos && t.infos[name].check && Lexes(clause) && ReadAs(v, t, name, clause)
      case OtherDecl(_, _) => false
  }

  function FieldChecks(fs: seq<FieldDecl>): seq<string> {
    if fs == [] then []
    else (if fs[0].check.Some? then [fs[0].check.value] else []) + FieldChecks(fs[1..])
  }

  function ConstraintChecks(cs: seq<ConstraintDecl>): seq<string> {
    if cs == [] then []
    else (if cs[0].CheckDecl? && cs[0].sql.Some? then [cs[0].clause] else []) + ConstraintChecks(cs[1..])
  }

  /** The clauses a table of the model must have. */
  function ExpectedChecks(m: ModelDecl): seq<string> {
    FieldChecks(m.fields) + ConstraintChecks(m.constraints)
  }

  /** The clauses read and the expected ones are the same set of normal forms. */
  predicate SameChecks(clauses: set<string>, expected: seq<string>) {
    && AllLex(clauses)
    && (forall i :: 0 <= i < |expected| ==> Lexes(expected[i]) && HasClause(clauses, expected[i]))
    && (forall c :: c in clauses ==> IsExpected(expected, c))
  }

  predicate IsExpected(expected: seq<string>, clause: string) {
    exists i :: 0 <= i < |expected| && NormaliseExpression(expected[i]) == NormaliseExpression(clause)
  }

  predicate ValidModel(v: Vendor, t: Table, m: ModelDecl) {
    && !v.OtherBackend?
    && t.columns.Keys == (set i | 0 <= i < |m.fields| :: m.fields[i].column)
    && (forall i :: 0 <= i < |m.fields| ==> ValidField(v, t, m, m.fields[i]))
    && (forall i :: 0 <= i < |m.indexes| ==> ValidIndex(t, m.indexes[i]))
    && (forall i :: 0 <= i < |m.constraints| ==> ValidConstraint(v, t, m.constraints[i]))
    && SameChecks(ReadClauses(v, t), ExpectedChecks(m))
  }

  // ---- The operations ----

  datatype Op =
    | CreateModel(model: ModelDecl)
    | AddField(model: ModelDecl, field: FieldDecl)
    | AddIndex(model: ModelDecl, index: IndexDecl)
    | AddConstraint(model: ModelDecl, constraint: ConstraintDecl)

  datatype Outcome = Done | Refused | DatabaseError | Interrupted

  /** Whether the operation validates instead of creating. */
  predicate Exists(db: Database, op: Op) {
    match op
    case CreateModel(m) => m.table in db
    case AddField(m, f) => m.table in db && f.column in db[m.table].columns
    case AddIndex(m, i) => m.table in db && i.name in db[m.table].infos
    case AddConstraint(m, c) => c.sql.None? || (m.table in db && c.name in db[m.table].infos)
  }

  /** The verdict on what exists; a table that is not there has no objects. */
  predicate Accepts(v: Vendor, db: Database, op: Op)
    requires Exists(db, op)
  {
    match op
    case CreateModel(m) => ValidModel(v, db[m.table], m)
    case AddField(m, f) => ValidField(v, db[m.table], m, f)
    case AddIndex(m, i) => !v.OtherBackend? && ValidIndex(db[m.table], i)
    case AddConstraint(m, c) =>
      !v.OtherBackend? && (m.table in db ==> ValidConstraint(v, db[m.table], c))
  }

  function Statements(v: Vendor, op: Op): seq<Ddl> {
    match op
    case CreateModel(m) =>
      [CreateTable(m.table, m.head)] + AllFields(v, m.table, m.fields)
      + IndexStatements(m.table, m.indexes) + AllConstraints(m.table, m.constraints)
    case AddField(m, f) => FieldStatements(v, m.table, f)
    case AddIndex(m, i) => [IndexStatement(m.table, i)]
    case AddConstraint(m, c) => ConstraintStatements(m.table, c)
  }

  /** How many of n statements run before the interruption, if there is one. */
  function Affordable(n: nat, budget: Option<nat>): (k: nat)
    ensures k <= n
  {
    if budget.Some? && budget.value < n then budget.value else n
  }

  /** The database and the outcome after an operation that is interrupted after `budget` statements. */
  function Apply(v: Vendor, db: Database, op: Op, budget: Option<nat>): (Database, Outcome) {
    if Exists(db, op) then (db, if Accepts(v, db, op) then Done else Refused)
    else
      var ds := Statements(v, op);
      var k := Affordable(|ds|, budget);
      var (after, ok) := ExecuteAll(db, ds[..k]);
      (after, if !ok then DatabaseError else if k < |ds| then Interrupted else Done)
  }

  // ---- The declared shape ----

  /** The same clause up to enclosing parentheses, spacing and spelling. */
  predicate SameClause(a: string, b: string) {
    || a == b
    || (Tokens(a).Ok? && Tokens(b).Ok? && StripParens(Tokens(a).value) == StripParens(Tokens(b).value))
  }

  predicate SameDefinition(a: string, b: string) {
    a == b || (Tokens(a).Ok? && Tokens(a) == Tokens(b))
  }

  /** The column is the declared one; only MySQL tells whether it counts by itself. */
  predicate IsColumn(v: Vendor, c: Column, f: FieldDecl) {
    c == Column(f.dbType, f.isNull, f.primaryKey, if v.Mysql? then f.auto else c.autoIncrement)
  }

  predicate IsUnique(i: Info, column: string) {
    i.columns == [column] && i.unique
  }

  /** A unique constraint on plain columns that the model declares and the backend creates. */
  predicate IsDeclaredUnique(m: ModelDecl, name: string, columns: seq<string>) {
    columns != [] &&
    exists c :: c in m.constraints && c.sql.Some? && c == UniqueDecl(name, c.sql, columns, false, false)
  }

  /** The field is a many-to-one reference that the database enforces. */
  predicate Refers(f: FieldDecl) {
    f.reference.Some? && f.reference.value.manyToOne && f.reference.value.dbConstraint
  }

  /** An index on the column alone; for a reference on MySQL also one that starts with the column. */
  predicate IsIndexFor(v: Vendor, m: ModelDecl, f: FieldDecl, name: string, i: Info) {
    && i.index
    && (|| (i.columns == [f.column] && !i.unique)
        || (v.Mysql? && Refers(f) && |i.columns| > 1 && i.columns[0] == f.column
            && (i.unique ==> IsDeclaredUnique(m, name, i.columns))))
  }

  predicate Passive(r: Rule) {
    r == NoAction || r == Restrict
  }

  /** A foreign key to the declared target that never changes a row. */
  predicate IsKey(k: ForeignKey, r: Reference) {
    k == ForeignKey(r.table, r.column, k.onUpdate, k.onDelete) && Passive(k.onUpdate) && Passive(k.onDelete)
  }

  /** A plain index on the declared columns, with their orders where the catalogue tells them. */
  predicate IsIndex(x: Info, i: IndexDecl) {
    && x == Info(x.columns, false, true, x.check, x.orders, x.kind) && x.kind in {None, Some("idx")}
    && |x.columns| == |i.fields| && (forall k :: 0 <= k < |i.fields| ==> x.columns[k] == i.fields[k].0)
    && (x.orders.Some? ==>
          |x.orders.value| == |i.fields| && forall k :: 0 <= k < |i.fields| ==> x.orders.value[k] == i.fields[k].1)
  }

  ghost predicate FieldPresent(v: Vendor, t: Table, m: ModelDecl, f: FieldDecl) {
    && f.column in t.columns && IsColumn(v, t.columns[f.column], f)
    && (f.check.Some? ==> Enforced(t, f.check.value))
    && (f.unique && !f.primaryKey ==> exists n :: n in t.infos && IsUnique(t.infos[n], f.column))
    && (f.dbIndex && !f.unique ==> exists n :: n in t.infos && IsIndexFor(v, m, f, n, t.infos[n]))
    && (Refers(f) ==> f.column in t.foreignKeys && IsKey(t.foreignKeys[f.column], f.reference.value))
  }

  ghost predicate IndexPresent(t: Table, i: IndexDecl) {
    i.name in t.infos && IsIndex(t.infos[i.name], i)
  }

  lemma DeclaredUniqueIs(m: ModelDecl, name: string, columns: seq<string>)
    ensures DeclaredUnique(m, name, columns) <==> IsDeclaredUnique(m, name, columns)
  {
    if IsDeclaredUnique(m, name, columns) {
      var c :| c in m.constraints && c.sql.Some? && c == UniqueDecl(name, c.sql, columns, false, false);
      var i :| 0 <= i < |m.constraints| && m.constraints[i] == c;
      assert IsPlainUnique(m.constraints[i], name, columns);
    }
  }

  lemma ServesIs(v: Vendor, m: ModelDecl, f: FieldDecl, name: string, i: Info)
    ensures ServesAsIndex(m, f.column, v.Mysql? && ChecksReference(f), name, i) <==> IsIndexFor(v, m, f, name, i)
  {
    DeclaredUniqueIs(m, name, i.columns);
    hide DeclaredUnique, IsDeclaredUnique;
  }

  /** The declared shape of a field is what validation compares. */
  lemma FieldPresentIs(v: Vendor, t: Table, m: ModelDecl, f: FieldDecl)
    ensures FieldPresent(v, t, m, f) <==>
      && ColumnMatches(v, t, f)
      && (f.check.Some? ==> Enforced(t, f.check.value))
      && (f.unique && !f.primaryKey ==> HasUnique(t, f.column))
      && (f.dbIndex && !f.unique ==> HasImplicitIndex(t, m, f.column, v.Mysql? && ChecksReference(f)))
      && (ChecksReference(f) ==> KeyMatches(t, f))
  {
    forall n | n in t.infos
      ensures ServesAsIndex(m, f.column, v.Mysql? && ChecksReference(f), n, t.infos[n])
        <==> IsIndexFor(v, m, f, n, t.infos[n])
    {
      ServesIs(v, m, f, n, t.infos[n]);
    }
    hide Enforced, ServesAsIndex, IsIndexFor;
    assert forall n :: n in t.infos ==>
      (IsUnique(t.infos[n], f.column) <==> t.infos[n].columns == [f.column] && t.infos[n].unique);
  }

  lemma IndexPresentIs(t: Table, i: IndexDecl)
    ensures IndexPresent(t, i) <==> IndexMatches(t, i)
  {
  }

  /** Whether a CHECK must be there under its own name, or its clause under any. */
  datatype Under = ItsName | AnyName

  predicate CheckNamed(t: Table, name: string, clause: string) {
    name in t.checks && SameClause(t.checks[name], clause)
  }

  predicate Enforced(t: Table, clause: string) {
    exists n :: n in t.checks && CheckNamed(t, n, clause)
  }

  /** The name matters on SQLite only; elsewhere the catalogue is asked for it. */
  predicate CheckThere(v: Vendor, t: Table, name: string, clause: string, u: Under) {
    if v.Sqlite? && u.AnyName? then Enforced(t, clause) else CheckNamed(t, name, clause)
  }

  /** A constraint the backend never creates is present nowhere. */
  ghost predicate ConstraintPresent(v: Vendor, t: Table, c: ConstraintDecl, u: Under) {
    c.sql.Some? ==>
      && c.name in t.infos
      && match c
        case UniqueDecl(name, sql, columns, _, conditional) =>
          && t.infos[name].unique && t.infos[name].columns == columns
          && (conditional ==> name in t.definitions && SameDefinition(t.definitions[name], sql.value))
        case CheckDecl(name, _, clause) => t.infos[name].check && CheckThere(v, t, name, clause, u)
        case OtherDecl(_, _) => true
  }

  ghost predicate Present(v: Vendor, db: Database, op: Op, u: Under) {
    match op
    case CreateModel(m) =>
      && m.table in db
      && (forall i :: 0 <= i < |m.fields| ==> FieldPresent(v, db[m.table], m, m.fields[i]))
      && (forall i :: 0 <= i < |m.indexes| ==> IndexPresent(db[m.table], m.indexes[i]))
      && (forall i :: 0 <= i < |m.constraints| ==> ConstraintPresent(v, db[m.table], m.constraints[i], u))
    case AddField(m, f) => m.table in db && FieldPresent(v, db[m.table], m, f)
    case AddIndex(m, i) => m.table in db && IndexPresent(db[m.table], i)
    case AddConstraint(m, c) => c.sql.Some? ==> m.table in db && ConstraintPresent(v, db[m.table], c, u)
  }

  // ---- What validation accepts has the declared shape ----

  lemma NormalFormSound(a: string, b: string)
    requires Lexes(b) && NormaliseExpression(a) == NormaliseExpression(b)
    ensures SameClause(a, b)
  {
    SameExpressionForm(a, b);
  }

  /** The fields an operation declares. */
  function Fields(op: Op): seq<FieldDecl> {
    match op
    case CreateModel(m) => m.fields
    case AddField(_, f) => [f]
    case _ => []
  }

  /** The constraints an operation declares. */
  function Constraints(op: Op): seq<ConstraintDecl> {
    match op
    case CreateModel(m) => m.constraints
    case AddConstraint(_, c) => [c]
    case _ => []
  }

  /** A CHECK that is listed and reads like the declared one is there. */
  ghost predicate NameRight(v: Vendor, t: Table, c: ConstraintDecl, u: Under) {
    c.CheckDecl? && c.sql.Some? && c.name in t.infos && t.infos[c.name].check && Lexes(c.clause)
      && ReadAs(v, t, c.name, c.clause)
    ==> CheckThere(v, t, c.name, c.clause, u)
  }

  /** What is read of a table is what is there. */
  ghost predicate Truthful(v: Vendor, t: Table, op: Op, u: Under) {
    ReadClauses(v, t) == t.checks.Values && forall c :: c in Constraints(op) ==> NameRight(v, t, c, u)
  }

  /** The CHECKs that the operation declares are there. */
  ghost predicate ChecksThere(v: Vendor, t: Table, op: Op, u: Under) {
    && (forall f :: f in Fields(op) && f.check.Some? ==> Enforced(t, f.check.value))
    && (forall c :: c in Constraints(op) && c.CheckDecl? && c.sql.Some? ==> CheckThere(v, t, c.name, c.clause, u))
  }

  lemma ValidFieldExact(v: Vendor, t: Table, m: ModelDecl, f: FieldDecl)
    requires ValidField(v, t, m, f)
    ensures FieldPresent(v, t, m, f) <==> (f.check.Some? ==> Enforced(t, f.check.value))
  {
    FieldPresentIs(v, t, m, f);
    hide FieldPresent, ReadClauses, HasClause, AllLex, Lexes, Enforced, HasImplicitIndex, HasUnique, KeyMatches,
         ColumnMatches;
  }

  lemma ValidConstraintExact(v: Vendor, t: Table, c: ConstraintDecl, u: Under)
    requires ValidConstraint(v, t, c)
    ensures ConstraintPresent(v, t, c, u)
      <==> (c.CheckDecl? && c.sql.Some? ==> CheckThere(v, t, c.name, c.clause, u))
  {
    hide ReadAs, CheckThere, NormaliseExpression, NormaliseSql, SameClause, SameDefinition, Lexes;
    if c.sql.Some? && c.UniqueDecl? && c.conditional {
      DefinitionSound(t.definitions[c.name], c.sql.value);
    }
  }

  lemma DefinitionSound(a: string, b: string)
    requires DefinitionLexes(b) && NormaliseSql(a) == NormaliseSql(b)
    ensures SameDefinition(a, b)
  {
    SameNormalForm(a, b);
  }

  lemma DefinitionVerdict(a: string, b: string)
    requires SameDefinition(a, b)
    ensures NormaliseSql(a) == NormaliseSql(b)
  {
    SameNormalForm(a, b);
  }

  lemma ModelAccepted(v: Vendor, t: Table, m: ModelDecl, u: Under)
    requires ValidModel(v, t, m)
    ensures (forall i :: 0 <= i < |m.fields| ==> FieldPresent(v, t, m, m.fields[i]))
      <==> forall f :: f in m.fields && f.check.Some? ==> Enforced(t, f.check.value)
    ensures (forall i :: 0 <= i < |m.constraints| ==> ConstraintPresent(v, t, m.constraints[i], u))
      <==> forall c :: c in m.constraints && c.CheckDecl? && c.sql.Some? ==> CheckThere(v, t, c.name, c.clause, u)
    ensures forall i :: 0 <= i < |m.indexes| ==> IndexPresent(t, m.indexes[i])
  {
    hide ValidField, FieldPresent, ValidConstraint, ConstraintPresent, IndexMatches, IndexPresent, CheckThere, Enforced,
         SameChecks, ExpectedChecks, ReadClauses;
    forall i | 0 <= i < |m.indexes|
      ensures IndexPresent(t, m.indexes[i])
    {
      IndexPresentIs(t, m.indexes[i]);
    }
    forall i | 0 <= i < |m.fields|
      ensures FieldPresent(v, t, m, m.fields[i]) <==> (m.fields[i].check.Some? ==> Enforced(t, m.fields[i].check.value))
    {
      ValidFieldExact(v, t, m, m.fields[i]);
    }
    forall i | 0 <= i < |m.constraints|
      ensures ConstraintPresent(v, t, m.constraints[i], u) <==>
        (m.constraints[i].CheckDecl? && m.constraints[i].sql.Some? ==>
           CheckThere(v, t, m.constraints[i].name, m.constraints[i].clause, u))
    {
      ValidConstraintExact(v, t, m.constraints[i], u);
    }
  }

  /**
    Whatever validation accepts has the declared shape in everything but its CHECKs, of any
    table, and in these if and only if they are there.
   */
  lemma AcceptedExact(v: Vendor, db: Database, op: Op, u: Under)
    requires Exists(db, op) && Accepts(v, db, op)
    ensures Present(v, db, op, u) <==> (op.model.table in db ==> ChecksThere(v, db[op.model.table], op, u))
  {
    hide ValidField, FieldPresent, ValidConstraint, ConstraintPresent, IndexMatches, IndexPresent, CheckThere, Enforced,
         ValidModel;
    match op
    case CreateModel(m) =>
      ModelAccepted(v, db[m.table], m, u);
    case AddField(m, f) => ValidFieldExact(v, db[m.table], m, f);
    case AddIndex(m, i) => IndexPresentIs(db[m.table], i);
    case AddConstraint(m, c) =>
      if m.table in db {
        ValidConstraintExact(v, db[m.table], c, u);
        NeverCreated(v, db[m.table], c, u);
      }
  }

  lemma HasClauseEnforced(t: Table, clause: string)
    requires HasClause(t.checks.Values, clause) && Lexes(clause)
    ensures Enforced(t, clause)
  {
    hide NormaliseExpression, SameClause, Lexes;
    var c :| c in t.checks.Values && NormaliseExpression(c) == NormaliseExpression(clause);
    var n :| n in t.checks && t.checks[n] == c;
    NormalFormSound(t.checks[n], clause);
    assert CheckNamed(t, n, clause);
  }

  lemma AcceptedClause(v: Vendor, db: Database, op: Op, f: FieldDecl)
    requires Exists(db, op) && Accepts(v, db, op) && op.model.table in db && f in Fields(op) && f.check.Some?
    ensures Lexes(f.check.value) && HasClause(ReadClauses(v, db[op.model.table]), f.check.value)
  {
    hide ValidConstraint, ValidIndex, SameChecks, ExpectedChecks, ReadClauses, HasClause, Lexes, AllLex, HasUnique,
         HasImplicitIndex, KeyMatches, ColumnMatches;
  }

  lemma AcceptedName(v: Vendor, db: Database, op: Op, c: ConstraintDecl)
    requires Exists(db, op) && Accepts(v, db, op) && op.model.table in db
    requires c in Constraints(op) && c.CheckDecl? && c.sql.Some?
    ensures var t := db[op.model.table];
      c.name in t.infos && t.infos[c.name].check && Lexes(c.clause) && ReadAs(v, t, c.name, c.clause)
  {
    hide ValidField, ValidIndex, SameChecks, ExpectedChecks, ReadClauses, ReadAs, Lexes;
    if op.CreateModel? {
      var i :| 0 <= i < |op.model.constraints| && op.model.constraints[i] == c;
      assert ValidConstraint(v, db[op.model.table], op.model.constraints[i]);
    }
  }

  /** They are there if what is read of the table is what is there. */
  lemma AcceptedIsPresent(v: Vendor, db: Database, op: Op, u: Under)
    requires Exists(db, op) && Accepts(v, db, op)
    requires op.model.table in db ==> Truthful(v, db[op.model.table], op, u)
    ensures Present(v, db, op, u)
  {
    AcceptedExact(v, db, op, u);
    hide Exists, Accepts, Present, ReadClauses, ReadAs, HasClause, Enforced, CheckThere, Lexes, Fields, Constraints;
    if op.model.table in db {
      var t := db[op.model.table];
      forall f | f in Fields(op) && f.check.Some?
        ensures Enforced(t, f.check.value)
      {
        AcceptedClause(v, db, op, f);
        HasClauseEnforced(t, f.check.value);
      }
      forall c | c in Constraints(op) && c.CheckDecl? && c.sql.Some?
        ensures CheckThere(v, t, c.name, c.clause, u)
      {
        AcceptedName(v, db, op, c);
        assert NameRight(v, t, c, u);
      }
    }
  }

  // ---- What creation leaves has the declared shape ----

  /** A statement whose object validation does not look at. */
  predicate Unchecked(d: Ddl) {
    d.AddForeignKey? && !d.checked
  }

  ghost predicate Served(db: Database, d: Ddl) {
    Unchecked(d) || Effect(db, d)
  }

  lemma FieldMade(v: Vendor, db: Database, m: ModelDecl, f: FieldDecl)
    requires forall d :: d in FieldStatements(v, m.table, f) ==> Served(db, d)
    ensures m.table in db && FieldPresent(v, db[m.table], m, f)
  {
    var ds := FieldStatements(v, m.table, f);
    assert ds[0] in ds && Served(db, ds[0]);
    var t := db[m.table];
    if f.check.Some? {
      assert CheckNamed(t, f.checkName, f.check.value);
    }
    hide SameClause;
    if f.unique && !f.primaryKey {
      assert UniqueStatement(m.table, f) in ds && Served(db, UniqueStatement(m.table, f));
      assert IsUnique(t.infos[f.uniqueName], f.column);
    }
    if f.dbIndex && !f.unique {
      assert IndexOfField(m.table, f) in ds && Served(db, IndexOfField(m.table, f));
      assert IsIndexFor(v, m, f, f.indexName, t.infos[f.indexName]);
    }
    if Refers(f) {
      assert KeyStatement(m.table, f) in ds && Served(db, KeyStatement(m.table, f));
    }
  }

  lemma {:induction false} StatementsOfField(v: Vendor, table: string, fs: seq<FieldDecl>, i: nat)
    requires i < |fs|
    ensures forall d :: d in FieldStatements(v, table, fs[i]) ==> d in AllFields(v, table, fs)
  {
    hide FieldStatements;
    if i > 0 {
      StatementsOfField(v, table, fs[1..], i - 1);
    }
  }

  lemma {:induction false} StatementsOfConstraint(table: string, cs: seq<ConstraintDecl>, i: nat)
    requires i < |cs|
    ensures forall d :: d in ConstraintStatements(table, cs[i]) ==> d in AllConstraints(table, cs)
  {
    hide ConstraintStatements;
    if i > 0 {
      StatementsOfConstraint(table, cs[1..], i - 1);
    }
  }

  lemma ConstraintMade(v: Vendor, db: Database, table: string, c: ConstraintDecl, u: Under)
    requires forall d :: d in ConstraintStatements(table, c) ==> Served(db, d)
    ensures c.sql.Some? ==> table in db && ConstraintPresent(v, db[table], c, u)
  {
    hide Quoted, Tokens, StripParens;
    if c.sql.Some? {
      var d := ConstraintStatements(table, c)[0];
      assert d in ConstraintStatements(table, c) && Effect(db, d);
      assert c.CheckDecl? ==> CheckNamed(db[table], c.name, c.clause);
    }
  }

  lemma IndexMade(db: Database, table: string, i: IndexDecl)
    requires Served(db, IndexStatement(table, i))
    ensures table in db && IndexPresent(db[table], i)
  {
  }

  lemma CreatedModel(v: Vendor, db: Database, m: ModelDecl, u: Under)
    requires forall d :: d in Statements(v, CreateModel(m)) ==> Served(db, d)
    ensures Present(v, db, CreateModel(m), u)
  {
    var ds := Statements(v, CreateModel(m));
    assert ds[0] in ds && Served(db, ds[0]);
    hide Served, FieldStatements, FieldPresent, ConstraintPresent, IndexPresent, ConstraintStatements, IndexStatement;
    forall i | 0 <= i < |m.fields|
      ensures FieldPresent(v, db[m.table], m, m.fields[i])
    {
      StatementsOfField(v, m.table, m.fields, i);
      FieldMade(v, db, m, m.fields[i]);
    }
    forall i | 0 <= i < |m.indexes|
      ensures IndexPresent(db[m.table], m.indexes[i])
    {
      assert IndexStatements(m.table, m.indexes)[i] in ds;
      IndexMade(db, m.table, m.indexes[i]);
    }
    forall i | 0 <= i < |m.constraints|
      ensures ConstraintPresent(v, db[m.table], m.constraints[i], u)
    {
      StatementsOfConstraint(m.table, m.constraints, i);
      ConstraintMade(v, db, m.table, m.constraints[i], u);
      NeverCreated(v, db[m.table], m.constraints[i], u);
    }
  }

  lemma NeverCreated(v: Vendor, t: Table, c: ConstraintDecl, u: Under)
    ensures c.sql.None? ==> ConstraintPresent(v, t, c, u)
  {
  }

  /** Once every statement that validation looks at has run, the object has its declared shape. */
  lemma CreatedIsPresent(v: Vendor, db: Database, op: Op, u: Under)
    requires forall d :: d in Statements(v, op) ==> Served(db, d)
    ensures Present(v, db, op, u)
  {
    match op
    case CreateModel(m) => CreatedModel(v, db, m, u);
    case AddField(m, f) => FieldMade(v, db, m, f);
    case AddIndex(m, i) =>
      var ds := Statements(v, op);
      assert ds[0] in ds;
      IndexMade(db, m.table, i);
    case AddConstraint(m, c) => ConstraintMade(v, db, m.table, c, u);
  }

  lemma ApplyExtends(v: Vendor, db: Database, op: Op, budget: Option<nat>)
    ensures Extends(db, Apply(v, db, op, budget).0)
  {
    var ds := Statements(v, op);
    ExecuteAllExtends(db, ds[..Affordable(|ds|, budget)]);
  }
}
