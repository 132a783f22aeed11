/**
  What a retry refuses (bfg2/bfg/core/migration_operations.py, lines 307-364 and 482-571): an
  existing column, index, constraint or table is accepted exactly when it differs from the declared
  one in no respect.  The respects are listed one by one; the database is never changed.
 */
module SchemaRefusal {
  import opened Wrappers
  import opened SqlLexer
  import opened SqlNormalise
  import opened Parens
  import opened Schema
  import opened SchemaRetry

  lemma Judgement(v: Vendor, db: Database, op: Op, budget: Option<nat>)
    requires Exists(db, op)
    ensures Apply(v, db, op, budget) == (db, if Accepts(v, db, op) then Done else Refused)
  {
  }

  /** What exists can be compared on MySQL and SQLite, but on SQLite no decimal column. */
  predicate Comparable(v: Vendor, fs: seq<FieldDecl>) {
    v.Mysql? || (v.Sqlite? && forall f :: f in fs ==> !f.decimal)
  }

  /**
    What there is to validate: a table of the name, a column, an index or constraint of the name on
    the table, and always a constraint that the backend never creates.
   */
  lemma ExistsExact(db: Database, op: Op)
    ensures Exists(db, op) <==>
      match op
      case CreateModel(m) => m.table in db.Keys
      case AddField(m, f) => m.table in db.Keys && f.column in db[m.table].columns.Keys
      case AddIndex(m, i) => m.table in db.Keys && i.name in db[m.table].infos.Keys
      case AddConstraint(m, c) => c.sql == None || (m.table in db.Keys && c.name in db[m.table].infos.Keys)
  {
  }

  // ---- Columns ----

  /** The column, its CHECK, the indexes and constraints on it, or its foreign key are not the declared ones. */
  predicate FieldDiffers(v: Vendor, t: Table, m: ModelDecl, f: FieldDecl)
    requires f.column in t.columns
  {
    var c := t.columns[f.column];
    || c.dbType != f.dbType || c.isNull != f.isNull || c.primaryKey != f.primaryKey
    || (v.Mysql? && c.autoIncrement != f.auto)
    || (f.check.Some? && forall k :: k in ReadClauses(v, t) ==> !SameClause(k, f.check.value))
    || (f.check.Some? && exists k :: k in ReadClauses(v, t) && Tokens(k).Err?)
    || (f.unique && !f.primaryKey &&
        forall n :: n in t.infos ==> !t.infos[n].unique || t.infos[n].columns != [f.column])
    || (f.dbIndex && !f.unique && forall n :: n in t.infos ==> !IsIndexFor(v, m, f, n, t.infos[n]))
    || (Refers(f) && (f.column !in t.foreignKeys || KeyDiffers(t.foreignKeys[f.column], f.reference.value)))
    || (Refers(f) && !f.reference.value.knownPolicy)
  }

  predicate KeyDiffers(k: ForeignKey, r: Reference) {
    k.table != r.table || k.column != r.column || k.onDelete.OtherRule? || k.onUpdate.OtherRule?
  }

  /** An existing column is accepted exactly when it can be compared and differs in nothing. */
  lemma FieldRetryExact(v: Vendor, db: Database, m: ModelDecl, f: FieldDecl, budget: Option<nat>)
    requires m.table in db && f.column in db[m.table].columns
    ensures Apply(v, db, AddField(m, f), budget) ==
      (db, if Comparable(v, [f]) && !FieldDiffers(v, db[m.table], m, f) then Done else Refused)
  {
    Judgement(v, db, AddField(m, f), budget);
    FieldExactly(v, db[m.table], m, f);
    hide Apply, ValidField, FieldDiffers;
  }

  lemma FieldExactly(v: Vendor, t: Table, m: ModelDecl, f: FieldDecl)
    ensures ValidField(v, t, m, f) <==> Comparable(v, [f]) && f.column in t.columns && !FieldDiffers(v, t, m, f)
  {
    if ValidField(v, t, m, f) {
      ValidSame(v, t, m, f);
      ValidComparable(v, t, m, f);
    }
    if Comparable(v, [f]) && f.column in t.columns && !FieldDiffers(v, t, m, f) {
      assert f in [f];
      SameValid(v, t, m, f);
    }
  }

  lemma ValidComparable(v: Vendor, t: Table, m: ModelDecl, f: FieldDecl)
    requires ValidField(v, t, m, f)
    ensures Comparable(v, [f])
  {
  }

  lemma SameValid(v: Vendor, t: Table, m: ModelDecl, f: FieldDecl)
    requires !v.OtherBackend? && !(v.Sqlite? && f.decimal) && f.column in t.columns && !FieldDiffers(v, t, m, f)
    ensures ValidField(v, t, m, f)
  {
    FieldPresentIs(v, t, m, f.(check := None));
    SameShape(v, t, m, f);
    if f.check.Some? {
      SameCheck(v, t, m, f);
    }
    hide FieldPresent, FieldDiffers, ReadClauses, HasClause, AllLex, Lexes, HasImplicitIndex, HasUnique, KeyMatches;
  }

  lemma SameShape(v: Vendor, t: Table, m: ModelDecl, f: FieldDecl)
    requires f.column in t.columns && !FieldDiffers(v, t, m, f)
    ensures FieldPresent(v, t, m, f.(check := None)) && (Refers(f) ==> f.reference.value.knownPolicy)
  {
    hide ReadClauses, SameClause, Tokens, IsIndexFor;
    var g := f.(check := None);
    forall n | n in t.infos
      ensures IsIndexFor(v, m, g, n, t.infos[n]) <==> IsIndexFor(v, m, f, n, t.infos[n])
    {
      SameIndexFor(v, m, f, n, t.infos[n]);
    }
  }

  lemma SameIndexFor(v: Vendor, m: ModelDecl, f: FieldDecl, n: string, i: Info)
    ensures IsIndexFor(v, m, f.(check := None), n, i) <==> IsIndexFor(v, m, f, n, i)
  {
  }

  lemma SameCheck(v: Vendor, t: Table, m: ModelDecl, f: FieldDecl)
    requires f.column in t.columns && !FieldDiffers(v, t, m, f) && f.check.Some?
    ensures AllLex(ReadClauses(v, t)) && Lexes(f.check.value) && HasClause(ReadClauses(v, t), f.check.value)
  {
    hide ReadClauses, NormaliseExpression, SameClause, Tokens, IsIndexFor, Lexes;
    var k :| k in ReadClauses(v, t) && SameClause(k, f.check.value);
    SameForm(k, f.check.value);
    SameLexes(k, f.check.value);
    forall c | c in ReadClauses(v, t)
      ensures Lexes(c)
    {
      TokensLex(c);
    }
  }

  lemma TokensLex(clause: string)
    requires Tokens(clause).Ok?
    ensures Lexes(clause)
  {
  }

  lemma SameLexes(a: string, b: string)
    requires SameClause(a, b) && Tokens(a).Ok?
    ensures Lexes(b) && Lexes(a)
  {
  }

  /** A valid field has its declared shape, its CHECK aside. */
  lemma ValidShape(v: Vendor, t: Table, m: ModelDecl, f: FieldDecl)
    requires ValidField(v, t, m, f)
    ensures f.column in t.columns && IsColumn(v, t.columns[f.column], f)
    ensures f.unique && !f.primaryKey ==> exists n :: n in t.infos && IsUnique(t.infos[n], f.column)
    ensures f.dbIndex && !f.unique ==> exists n :: n in t.infos && IsIndexFor(v, m, f, n, t.infos[n])
    ensures Refers(f) ==> f.column in t.foreignKeys && IsKey(t.foreignKeys[f.column], f.reference.value)
  {
    FieldPresentIs(v, t, m, f.(check := None));
  }

  lemma Policy(v: Vendor, t: Table, m: ModelDecl, f: FieldDecl)
    requires ValidField(v, t, m, f)
    ensures Refers(f) ==> f.reference.value.knownPolicy
  {
  }

  lemma ValidCheck(v: Vendor, t: Table, m: ModelDecl, f: FieldDecl)
    requires ValidField(v, t, m, f) && f.check.Some?
    ensures exists k :: k in ReadClauses(v, t) && SameClause(k, f.check.value)
    ensures forall k :: k in ReadClauses(v, t) ==> Tokens(k).Ok?
  {
    hide ReadClauses, NormaliseExpression, SameClause, Tokens, HasUnique, HasImplicitIndex, KeyMatches, ColumnMatches;
    var k :| k in ReadClauses(v, t) && NormaliseExpression(k) == NormaliseExpression(f.check.value);
    NormalFormSound(k, f.check.value);
    forall k | k in ReadClauses(v, t)
      ensures Tokens(k).Ok?
    {
      LexesTokens(k);
    }
  }

  lemma LexesTokens(clause: string)
    requires Lexes(clause)
    ensures Tokens(clause).Ok?
  {
  }

  lemma ValidSame(v: Vendor, t: Table, m: ModelDecl, f: FieldDecl)
    requires ValidField(v, t, m, f)
    ensures f.column in t.columns && !FieldDiffers(v, t, m, f)
  {
    Policy(v, t, m, f);
    ValidShape(v, t, m, f);
    if f.check.Some? {
      ValidCheck(v, t, m, f);
    }
    hide ValidField, IsIndexFor, ReadClauses, SameClause, Tokens;
    if f.unique && !f.primaryKey {
      var n :| n in t.infos && IsUnique(t.infos[n], f.column);
      assert t.infos[n].unique && t.infos[n].columns == [f.column];
    }
  }

  // ---- Indexes and constraints ----

  /** Some property of the index is not the declared one, or the declaration cannot be compared. */
  predicate IndexDiffers(x: Info, i: IndexDecl) {
    || i.special || !x.index || x.unique
    || |x.columns| != |i.fields| || (exists k :: 0 <= k < |i.fields| && x.columns[k] != i.fields[k].0)
    || (x.orders.Some? && |x.orders.value| != |i.fields|)
    || (x.orders.Some? && exists k :: 0 <= k < |i.fields| && x.orders.value[k] != i.fields[k].1)
    || (x.kind.Some? && x.kind.value != "idx")
  }

  lemma IndexRetryExact(v: Vendor, db: Database, m: ModelDecl, i: IndexDecl, budget: Option<nat>)
    requires m.table in db && i.name in db[m.table].infos
    ensures Apply(v, db, AddIndex(m, i), budget) ==
      (db, if Comparable(v, []) && !IndexDiffers(db[m.table].infos[i.name], i) then Done else Refused)
  {
    IndexExactly(db[m.table], i);
    Judgement(v, db, AddIndex(m, i), budget);
    hide Apply, IndexDiffers, ValidIndex;
  }

  lemma IndexExactly(t: Table, i: IndexDecl)
    ensures ValidIndex(t, i) <==> i.name in t.infos && !IndexDiffers(t.infos[i.name], i)
  {
    IndexPresentIs(t, i);
    hide IndexMatches;
  }

  /** The listed constraint is not the declared one, or none may be listed. */
  predicate ConstraintDiffers(v: Vendor, t: Table, c: ConstraintDecl)
    requires c.name in t.infos
  {
    var x := t.infos[c.name];
    || c.sql.None? || c.OtherDecl?
    || (c.UniqueDecl? && (c.special || !x.unique || x.columns != c.columns))
    || (c.UniqueDecl? && c.conditional && (!v.Sqlite? || c.name !in t.definitions))
    || (c.UniqueDecl? && c.conditional && c.name in t.definitions &&
        !SameDefinition(t.definitions[c.name], c.sql.value))
    || (c.UniqueDecl? && c.conditional && c.sql.Some? && Tokens(c.sql.value).Err?)
    || (c.CheckDecl? && (!x.check || ReadNamed(v, t, c.name).None? || Tokens(c.clause).Err?))
    || (c.CheckDecl? && ReadNamed(v, t, c.name).Some? && !SameClause(ReadNamed(v, t, c.name).value, c.clause))
  }

  lemma ConstraintRetryExact(v: Vendor, db: Database, m: ModelDecl, c: ConstraintDecl, budget: Option<nat>)
    requires m.table in db && c.name in db[m.table].infos
    ensures Apply(v, db, AddConstraint(m, c), budget) ==
      (db, if Comparable(v, []) && !ConstraintDiffers(v, db[m.table], c) then Done else Refused)
  {
    ConstraintExactly(v, db[m.table], c);
    Judgement(v, db, AddConstraint(m, c), budget);
    hide Apply, ValidConstraint, ConstraintDiffers;
  }

  /** A constraint that the backend never creates is accepted as long as nothing has its name. */
  lemma NeverCreatedExact(v: Vendor, db: Database, m: ModelDecl, c: ConstraintDecl, budget: Option<nat>)
    requires c.sql == None && (m.table in db ==> c.name !in db[m.table].infos)
    ensures Apply(v, db, AddConstraint(m, c), budget) == (db, if v.OtherBackend? then Refused else Done)
  {
    Judgement(v, db, AddConstraint(m, c), budget);
    hide Apply;
  }

  lemma ConstraintExactly(v: Vendor, t: Table, c: ConstraintDecl)
    ensures ValidConstraint(v, t, c) <==>
      if c.name in t.infos then !ConstraintDiffers(v, t, c) else c.sql == None
  {
    if c.name in t.infos {
      if ValidConstraint(v, t, c) {
        ConstraintSame(v, t, c);
      }
      if !ConstraintDiffers(v, t, c) {
        SameConstraint(v, t, c);
      }
    }
  }

  lemma SameConstraint(v: Vendor, t: Table, c: ConstraintDecl)
    requires c.name in t.infos && !ConstraintDiffers(v, t, c)
    ensures ValidConstraint(v, t, c)
  {
    hide ReadNamed, NormaliseExpression, NormaliseSql, SameClause, SameDefinition, Tokens, Lexes, DefinitionLexes;
    match c
    case UniqueDecl(name, sql, _, _, conditional) =>
      if conditional {
        TokensDefine(sql.value);
        DefinitionVerdict(t.definitions[name], sql.value);
      }
    case CheckDecl(name, _, clause) =>
      TokensLex(clause);
      SameForm(ReadNamed(v, t, name).value, clause);
    case OtherDecl(_, _) =>
  }

  lemma TokensDefine(sql: string)
    ensures Tokens(sql).Ok? <==> DefinitionLexes(sql)
  {
  }

  lemma ConstraintSame(v: Vendor, t: Table, c: ConstraintDecl)
    requires c.name in t.infos && ValidConstraint(v, t, c)
    ensures !ConstraintDiffers(v, t, c)
  {
    hide ReadNamed, NormaliseExpression, NormaliseSql, SameClause, SameDefinition, Lexes, DefinitionLexes, Tokens;
    match c
    case UniqueDecl(name, sql, _, _, conditional) =>
      if conditional {
        TokensDefine(sql.value);
        DefinitionSound(t.definitions[name], sql.value);
      }
    case CheckDecl(name, _, clause) =>
      LexesTokens(clause);
      NormalFormSound(ReadNamed(v, t, name).value, clause);
    case OtherDecl(_, _) =>
  }

  // ---- Tables ----

  /** The clause is that of a field or of a constraint the backend creates. */
  predicate DeclaredClause(m: ModelDecl, clause: string) {
    || (exists f :: f in m.fields && f.check.Some? && SameClause(clause, f.check.value))
    || (exists c :: c in m.constraints && c.CheckDecl? && c.sql.Some? && SameClause(clause, c.clause))
  }

  lemma {:induction false} FieldClause(fs: seq<FieldDecl>, i: nat)
    requires i < |FieldChecks(fs)|
    ensures exists f :: f in fs && f.check == Some(FieldChecks(fs)[i])
    decreases |fs|
  {
    var own := if fs[0].check.Some? then 1 else 0;
    if i >= own {
      FieldClause(fs[1..], i - own);
      var f :| f in fs[1..] && f.check == Some(FieldChecks(fs[1..])[i - own]);
      assert f in fs;
    }
  }

  lemma {:induction false} ConstraintClause(cs: seq<ConstraintDecl>, i: nat)
    requires i < |ConstraintChecks(cs)|
    ensures exists c :: c in cs && c.CheckDecl? && c.sql.Some? && c.clause == ConstraintChecks(cs)[i]
    decreases |cs|
  {
    var own := if cs[0].CheckDecl? && cs[0].sql.Some? then 1 else 0;
    if i >= own {
      ConstraintClause(cs[1..], i - own);
      var c :| c in cs[1..] && c.CheckDecl? && c.sql.Some? && c.clause == ConstraintChecks(cs[1..])[i - own];
      assert c in cs;
    }
  }

  /** Every clause read of an accepted table is declared. */
  lemma ExpectedIsDeclared(m: ModelDecl, clause: string)
    requires Lexes(clause) && IsExpected(ExpectedChecks(m), clause)
    ensures DeclaredClause(m, clause)
  {
    var fields, rest := FieldChecks(m.fields), ConstraintChecks(m.constraints);
    hide NormaliseExpression, SameClause, FieldChecks, ConstraintChecks;
    var i :| 0 <= i < |ExpectedChecks(m)| && NormaliseExpression(ExpectedChecks(m)[i]) == NormaliseExpression(clause);
    NormalFormSound(ExpectedChecks(m)[i], clause);
    SameClauseBack(ExpectedChecks(m)[i], clause);
    if i < |fields| {
      FieldClause(m.fields, i);
      var f :| f in m.fields && f.check == Some(fields[i]);
      assert SameClause(clause, f.check.value);
    } else {
      ConstraintClause(m.constraints, i - |fields|);
      var c :| c in m.constraints && c.CheckDecl? && c.sql.Some? && c.clause == rest[i - |fields|];
      assert SameClause(clause, c.clause);
    }
  }

  lemma {:induction false} FieldExpected(fs: seq<FieldDecl>, f: FieldDecl)
    requires f in fs && f.check.Some?
    ensures f.check.value in FieldChecks(fs)
  {
    if f != fs[0] {
      FieldExpected(fs[1..], f);
    }
  }

  lemma {:induction false} ConstraintExpected(cs: seq<ConstraintDecl>, c: ConstraintDecl)
    requires c in cs && c.CheckDecl? && c.sql.Some?
    ensures c.clause in ConstraintChecks(cs)
  {
    if c != cs[0] {
      ConstraintExpected(cs[1..], c);
    }
  }

  lemma InExpected(m: ModelDecl, declared: string, clause: string)
    requires declared in ExpectedChecks(m) && Lexes(clause) && SameClause(clause, declared)
    ensures IsExpected(ExpectedChecks(m), clause)
  {
    SameClauseBack(clause, declared);
    SameForm(declared, clause);
    hide NormaliseExpression, SameClause, ExpectedChecks;
    var i :| 0 <= i < |ExpectedChecks(m)| && ExpectedChecks(m)[i] == declared;
  }

  lemma SameForm(a: string, b: string)
    requires SameClause(a, b)
    ensures NormaliseExpression(a) == NormaliseExpression(b)
  {
  }

  /** The CHECKs a table is expected to have are those of its fields and of its created constraints. */
  lemma ExpectedExact(m: ModelDecl, clause: string)
    requires Lexes(clause)
    ensures IsExpected(ExpectedChecks(m), clause) <==> DeclaredClause(m, clause)
  {
    hide NormaliseExpression, SameClause, FieldChecks, ConstraintChecks, IsExpected;
    if IsExpected(ExpectedChecks(m), clause) {
      ExpectedIsDeclared(m, clause);
    }
    if f :| f in m.fields && f.check.Some? && SameClause(clause, f.check.value) {
      FieldExpected(m.fields, f);
      InExpected(m, f.check.value, clause);
    }
    if c :| c in m.constraints && c.CheckDecl? && c.sql.Some? && SameClause(clause, c.clause) {
      ConstraintExpected(m.constraints, c);
      InExpected(m, c.clause, clause);
    }
  }

  lemma SameClauseBack(a: string, b: string)
    requires SameClause(a, b)
    ensures SameClause(b, a)
  {
  }

  /** The table has a column too many or too few, or a CHECK is read of it that is not declared. */
  predicate TableDiffers(v: Vendor, t: Table, m: ModelDecl) {
    || (exists c :: c in t.columns && forall f :: f in m.fields ==> f.column != c)
    || (exists f :: f in m.fields && f.column !in t.columns)
    || (exists c :: c in m.constraints && c.CheckDecl? && c.sql.Some?
          && forall k :: k in ReadClauses(v, t) ==> !SameClause(k, c.clause))
    || (exists c :: c in ReadClauses(v, t) && (Tokens(c).Err? || !DeclaredClause(m, c)))
    || (exists f :: f in m.fields && (f.column in t.columns && FieldDiffers(v, t, m, f)))
    || (exists i :: i in m.indexes && (i.name in t.infos ==> IndexDiffers(t.infos[i.name], i)))
    || (exists c :: c in m.constraints && c.sql.Some? && (c.name in t.infos ==> ConstraintDiffers(v, t, c)))
    || (exists c :: c in m.constraints && c.sql.None? && c.name in t.infos)
  }

  /** An existing table is accepted exactly when it can be compared and differs in nothing. */
  lemma ModelRetryExact(v: Vendor, db: Database, m: ModelDecl, budget: Option<nat>)
    requires m.table in db
    ensures Apply(v, db, CreateModel(m), budget) ==
      (db, if Comparable(v, m.fields) && !TableDiffers(v, db[m.table], m) then Done else Refused)
  {
    var t := db[m.table];
    if ValidModel(v, t, m) {
      ValidModelSame(v, t, m);
      ModelComparable(v, t, m);
    }
    if Comparable(v, m.fields) && !TableDiffers(v, t, m) {
      SameModelValid(v, t, m);
    }
    Judgement(v, db, CreateModel(m), budget);
    hide Apply, ValidModel, TableDiffers;
  }

  lemma ModelComparable(v: Vendor, t: Table, m: ModelDecl)
    requires ValidModel(v, t, m)
    ensures Comparable(v, m.fields)
  {
    hide ValidField, ValidIndex, ValidConstraint, SameChecks, ExpectedChecks, ReadClauses;
    forall f | f in m.fields
      ensures Comparable(v, [f])
    {
      var i :| 0 <= i < |m.fields| && m.fields[i] == f;
      assert ValidField(v, t, m, m.fields[i]);
      ValidComparable(v, t, m, f);
    }
    assert forall f :: f in m.fields ==> f in [f];
  }

  lemma SameChecksValid(v: Vendor, t: Table, m: ModelDecl)
    requires forall k :: k in ReadClauses(v, t) ==> Tokens(k).Ok? && DeclaredClause(m, k)
    requires forall f :: f in m.fields && f.check.Some? ==>
      exists k :: k in ReadClauses(v, t) && SameClause(k, f.check.value)
    requires forall c :: c in m.constraints && c.CheckDecl? && c.sql.Some? ==>
      exists k :: k in ReadClauses(v, t) && SameClause(k, c.clause)
    ensures SameChecks(ReadClauses(v, t), ExpectedChecks(m))
  {
    hide ReadClauses, DeclaredClause, NormaliseExpression, SameClause, Tokens, Lexes, FieldChecks, ConstraintChecks,
         IsExpected;
    forall k | k in ReadClauses(v, t)
      ensures Lexes(k) && IsExpected(ExpectedChecks(m), k)
    {
      TokensLex(k);
      ExpectedExact(m, k);
    }
    forall i | 0 <= i < |ExpectedChecks(m)|
      ensures Lexes(ExpectedChecks(m)[i]) && HasClause(ReadClauses(v, t), ExpectedChecks(m)[i])
    {
      var declared := ExpectedChecks(m)[i];
      ExpectedOrigin(m, i);
      var k :| k in ReadClauses(v, t) && SameClause(k, declared);
      SameForm(k, declared);
      SameLexes(k, declared);
    }
  }

  /** An expected clause is that of a field or a constraint. */
  lemma ExpectedOrigin(m: ModelDecl, i: nat)
    requires i < |ExpectedChecks(m)|
    ensures (exists f :: f in m.fields && f.check == Some(ExpectedChecks(m)[i]))
         || (exists c :: c in m.constraints && c.CheckDecl? && c.sql.Some? && c.clause == ExpectedChecks(m)[i])
  {
    hide FieldChecks, ConstraintChecks;
    if i < |FieldChecks(m.fields)| {
      FieldClause(m.fields, i);
    } else {
      ConstraintClause(m.constraints, i - |FieldChecks(m.fields)|);
    }
  }

  lemma SameModelValid(v: Vendor, t: Table, m: ModelDecl)
    requires Comparable(v, m.fields) && !TableDiffers(v, t, m)
    ensures ValidModel(v, t, m)
  {
    hide ValidField, ValidIndex, ValidConstraint, SameChecks, ExpectedChecks, ReadClauses, FieldDiffers, IndexDiffers,
         ConstraintDiffers, DeclaredClause, SameClause, Tokens;
    forall i | 0 <= i < |m.fields|
      ensures ValidField(v, t, m, m.fields[i])
    {
      assert m.fields[i] in m.fields;
      SameValid(v, t, m, m.fields[i]);
    }
    forall i | 0 <= i < |m.indexes|
      ensures ValidIndex(t, m.indexes[i])
    {
      assert m.indexes[i] in m.indexes;
      IndexExactly(t, m.indexes[i]);
    }
    forall i | 0 <= i < |m.constraints|
      ensures ValidConstraint(v, t, m.constraints[i])
    {
      assert m.constraints[i] in m.constraints;
      ConstraintExactly(v, t, m.constraints[i]);
    }
    forall f | f in m.fields && f.check.Some?
      ensures exists k :: k in ReadClauses(v, t) && SameClause(k, f.check.value)
    {
      CheckIsRead(v, t, m, f);
    }
    SameChecksValid(v, t, m);
    assert t.columns.Keys == (set i | 0 <= i < |m.fields| :: m.fields[i].column) by {
      SameColumns(v, t, m);
    }
  }

  lemma CheckIsRead(v: Vendor, t: Table, m: ModelDecl, f: FieldDecl)
    requires f.column in t.columns && !FieldDiffers(v, t, m, f) && f.check.Some?
    ensures exists k :: k in ReadClauses(v, t) && SameClause(k, f.check.value)
  {
    hide ReadClauses, SameClause, Tokens, IsIndexFor;
  }

  lemma SameColumns(v: Vendor, t: Table, m: ModelDecl)
    requires !TableDiffers(v, t, m)
    ensures t.columns.Keys == (set i | 0 <= i < |m.fields| :: m.fields[i].column)
  {
    hide ReadClauses, FieldDiffers, IndexDiffers, ConstraintDiffers, DeclaredClause, SameClause, Tokens;
    forall i | 0 <= i < |m.fields|
      ensures m.fields[i].column in t.columns
    {
      assert m.fields[i] in m.fields;
    }
    forall c | c in t.columns
      ensures exists i :: 0 <= i < |m.fields| && m.fields[i].column == c
    {
      var f :| f in m.fields && f.column == c;
      var i :| 0 <= i < |m.fields| && m.fields[i] == f;
    }
  }

  lemma ValidModelSame(v: Vendor, t: Table, m: ModelDecl)
    requires ValidModel(v, t, m)
    ensures !TableDiffers(v, t, m)
  {
    hide ValidField, ValidConstraint, ValidIndex, ReadClauses, ExpectedChecks, DeclaredClause, FieldDiffers,
         IndexDiffers, ConstraintDiffers, IsExpected, HasClause, Lexes;
    forall c | c in t.columns
      ensures exists f :: f in m.fields && f.column == c
    {
      var i :| 0 <= i < |m.fields| && m.fields[i].column == c;
      assert m.fields[i] in m.fields;
    }
    forall c | c in ReadClauses(v, t)
      ensures Tokens(c).Ok? && DeclaredClause(m, c)
    {
      LexesTokens(c);
      ExpectedIsDeclared(m, c);
    }
    forall c | c in m.constraints && c.CheckDecl? && c.sql.Some?
      ensures exists k :: k in ReadClauses(v, t) && SameClause(k, c.clause)
    {
      ExpectedIsRead(v, t, m, c);
    }
    forall f | f in m.fields
      ensures f.column in t.columns && !FieldDiffers(v, t, m, f)
    {
      var i :| 0 <= i < |m.fields| && m.fields[i] == f;
      ValidSame(v, t, m, f);
    }
    forall i | i in m.indexes
      ensures i.name in t.infos && !IndexDiffers(t.infos[i.name], i)
    {
      var k :| 0 <= k < |m.indexes| && m.indexes[k] == i;
      IndexSame(t, i);
    }
    forall c | c in m.constraints
      ensures c.sql.Some? ==> c.name in t.infos && !ConstraintDiffers(v, t, c)
      ensures c.sql.None? ==> c.name !in t.infos
    {
      var k :| 0 <= k < |m.constraints| && m.constraints[k] == c;
      ConstraintExactly(v, t, c);
      if c.name in t.infos && c.sql.None? {
        NoneDiffers(v, t, c);
      }
    }
  }

  lemma ExpectedIsRead(v: Vendor, t: Table, m: ModelDecl, c: ConstraintDecl)
    requires SameChecks(ReadClauses(v, t), ExpectedChecks(m))
    requires c in m.constraints && c.CheckDecl? && c.sql.Some?
    ensures exists k :: k in ReadClauses(v, t) && SameClause(k, c.clause)
  {
    ConstraintExpected(m.constraints, c);
    assert c.clause in ExpectedChecks(m);
    hide NormaliseExpression, SameClause, ReadClauses, ExpectedChecks;
    var i :| 0 <= i < |ExpectedChecks(m)| && ExpectedChecks(m)[i] == c.clause;
    assert HasClause(ReadClauses(v, t), ExpectedChecks(m)[i]);
    var k :| k in ReadClauses(v, t) && NormaliseExpression(k) == NormaliseExpression(c.clause);
    NormalFormSound(k, c.clause);
  }

  lemma IndexSame(t: Table, i: IndexDecl)
    requires ValidIndex(t, i)
    ensures i.name in t.infos && !IndexDiffers(t.infos[i.name], i)
  {
    IndexPresentIs(t, i);
  }

  lemma NoneDiffers(v: Vendor, t: Table, c: ConstraintDecl)
    requires c.sql.None? && c.name in t.infos
    ensures ConstraintDiffers(v, t, c)
  {
  }
}
