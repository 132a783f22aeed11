/**
  Applying operations and whole migrations a second time
  (bfg2/bfg/core/migration_operations.py, lines 1-6, 307-364 and 482-637).  What has its declared
  shape is accepted exactly when nothing in the database stands against it (`Verdict`); said of
  the declarations alone, a completed migration is accepted again if and only if it is
  `Retryable` (`MigrationRetryExact`).
 */
module SchemaReapply {
  import opened Wrappers
  import opened SqlLexer
  import opened Parens
  import opened CheckScan
  import opened CheckExtract
  import opened TableText
  import opened Schema
  import opened SchemaRetry
  import opened SchemaText
  import opened SchemaRuns

  // ---- When validation can prove a shape ----

  predicate ProvableField(v: Vendor, f: FieldDecl) {
    !(v.Sqlite? && f.decimal) && (ChecksReference(f) ==> f.reference.value.knownPolicy)
  }

  predicate ProvableConstraint(v: Vendor, c: ConstraintDecl)
    requires c.sql.Some?
  {
    match c
    case UniqueDecl(_, sql, _, special, conditional) =>
      !special && (conditional ==> v.Sqlite? && DefinitionLexes(sql.value))
    case CheckDecl(_, _, clause) => Lexes(clause)
    case OtherDecl(_, _) => false
  }

  /** Of these definitions the first constraint of that name, case aside, has this clause. */
  predicate FirstAs(ps: seq<Part>, name: string, clause: string) {
    FirstNamed(ps, name).Some? && NormaliseExpression(FirstNamed(ps, name).value) == NormaliseExpression(clause)
  }

  predicate NameJudged(v: Vendor, ps: seq<Part>, c: ConstraintDecl) {
    v.Sqlite? && c.CheckDecl? ==> FirstAs(ps, c.name, c.clause)
  }

  predicate ConstraintJudged(v: Vendor, t: Table, c: ConstraintDecl) {
    if c.sql.Some? then ProvableConstraint(v, c) && NameJudged(v, t.text.parts, c) else c.name !in t.infos
  }

  function Declared(m: ModelDecl): set<string> {
    set i | 0 <= i < |m.fields| :: m.fields[i].column
  }

  predicate FieldsProvable(v: Vendor, m: ModelDecl) {
    forall i :: 0 <= i < |m.fields| ==> ProvableField(v, m.fields[i])
  }

  predicate NothingSpecial(m: ModelDecl) {
    forall i :: 0 <= i < |m.indexes| ==> !m.indexes[i].special
  }

  predicate ExpectedLex(m: ModelDecl) {
    forall i :: 0 <= i < |ExpectedChecks(m)| ==> Lexes(ExpectedChecks(m)[i])
  }

  predicate ConstraintsJudged(v: Vendor, t: Table, m: ModelDecl) {
    forall i :: 0 <= i < |m.constraints| ==> ConstraintJudged(v, t, m.constraints[i])
  }

  predicate OnlyExpected(t: Table, m: ModelDecl) {
    forall c :: c in t.checks.Values ==> Lexes(c) && IsExpected(ExpectedChecks(m), c)
  }

  /** Nothing in the database stands against accepting an object that has its declared shape. */
  predicate Judged(v: Vendor, db: Database, op: Op) {
    && !v.OtherBackend?
    && match op
      case CreateModel(m) =>
        && FieldsProvable(v, m) && NothingSpecial(m) && ExpectedLex(m) && m.table in db
        && var t := db[m.table];
          ConstraintsJudged(v, t, m) && OnlyExpected(t, m) && t.columns.Keys <= Declared(m)
      case AddField(m, f) =>
        && ProvableField(v, f)
        && (f.check.Some? ==> Lexes(f.check.value) && m.table in db && AllLex(db[m.table].checks.Values))
      case AddIndex(_, i) => !i.special
      case AddConstraint(m, c) => m.table in db ==> ConstraintJudged(v, db[m.table], c)
  }

  // ---- The verdict on what has its declared shape ----

  lemma SameClauseForm(a: string, b: string)
    requires SameClause(a, b)
    ensures NormaliseExpression(a) == NormaliseExpression(b)
  {
  }

  lemma EnforcedIsRead(t: Table, clause: string)
    requires Enforced(t, clause)
    ensures HasClause(t.checks.Values, clause)
  {
    var n :| n in t.checks && CheckNamed(t, n, clause);
    SameClauseForm(t.checks[n], clause);
    hide NormaliseExpression, SameClause;
    assert t.checks[n] in t.checks.Values;
  }

  lemma ThereIsEnforced(v: Vendor, t: Table, name: string, clause: string, u: Under)
    requires CheckThere(v, t, name, clause, u)
    ensures Enforced(t, clause)
  {
    hide SameClause;
    assert CheckNamed(t, name, clause) ==> name in t.checks;
  }

  /** What is read of a table is the clauses that are there and the first constraint of each name. */
  ghost predicate PlainlyRead(v: Vendor, t: Table, op: Op) {
    && ReadClauses(v, t) == t.checks.Values
    && (v.Sqlite? ==> forall c :: (c in Constraints(op) && c.CheckDecl? && c.sql.Some?) ==>
          ReadNamed(v, t, c.name) == FirstNamed(t.text.parts, c.name))
  }

  lemma ReadPlainly(v: Vendor, db: Database, op: Op)
    requires SoundDb(v, db) && SafeOp(v, op) && op.model.table in db
    ensures PlainlyRead(v, db[op.model.table], op)
  {
    hide TextSound, SafeOp, ReadClauses, ReadNamed, FirstNamed, Constraints, IsIdentifier;
    var t := db[op.model.table];
    if v.Sqlite? {
      TextTruthful(t);
      forall c | c in Constraints(op) && c.CheckDecl? && c.sql.Some?
        ensures ReadNamed(v, t, c.name) == FirstNamed(t.text.parts, c.name)
      {
        StatedSafe(v, op, c);
      }
    } else {
      CatalogueRead(v, t);
    }
  }

  lemma FieldVerdict(v: Vendor, t: Table, m: ModelDecl, f: FieldDecl)
    requires FieldPresent(v, t, m, f) && ReadClauses(v, t) == t.checks.Values
    ensures ValidField(v, t, m, f) <==>
      !v.OtherBackend? && ProvableField(v, f)
      && (f.check.Some? ==> Lexes(f.check.value) && AllLex(t.checks.Values))
  {
    FieldPresentIs(v, t, m, f);
    hide FieldPresent, ReadClauses, NormaliseExpression, Enforced, HasImplicitIndex, HasUnique, Lexes, AllLex,
         HasClause;
    if f.check.Some? {
      EnforcedIsRead(t, f.check.value);
    }
  }

  lemma ConstraintVerdict(v: Vendor, t: Table, c: ConstraintDecl)
    requires ConstraintPresent(v, t, c, AnyName)
    requires v.Sqlite? && c.CheckDecl? && c.sql.Some? ==> ReadNamed(v, t, c.name) == FirstNamed(t.text.parts, c.name)
    ensures ValidConstraint(v, t, c) <==> ConstraintJudged(v, t, c)
  {
    hide FirstNamed, NamedFrom, Enforced, NormaliseExpression, SameClause, SameDefinition, Lexes, DefinitionLexes;
    if c.sql.Some? {
      match c
      case UniqueDecl(name, sql, _, _, conditional) =>
        if conditional {
          DefinitionVerdict(t.definitions[name], sql.value);
        }
      case CheckDecl(name, _, clause) =>
        if !v.Sqlite? {
          SameClauseForm(t.checks[name], clause);
        }
      case OtherDecl(_, _) =>
    }
  }

  lemma {:induction false} FieldChecksExact(fs: seq<FieldDecl>, c: string)
    ensures c in FieldChecks(fs) <==> exists j :: 0 <= j < |fs| && fs[j].check == Some(c)
  {
    if fs != [] {
      FieldChecksExact(fs[1..], c);
      assert forall j :: 0 < j < |fs| ==> fs[j] == fs[1..][j - 1];
      assert forall j :: 0 <= j < |fs| - 1 ==> fs[1..][j] == fs[j + 1];
    }
  }

  predicate MakesCheck(c: ConstraintDecl, clause: string) {
    c.CheckDecl? && c.sql.Some? && c.clause == clause
  }

  lemma {:induction false} ConstraintChecksExact(cs: seq<ConstraintDecl>, c: string)
    ensures c in ConstraintChecks(cs) <==> exists j :: 0 <= j < |cs| && MakesCheck(cs[j], c)
  {
    if cs != [] {
      ConstraintChecksExact(cs[1..], c);
      assert forall j :: 0 < j < |cs| ==> cs[j] == cs[1..][j - 1];
      assert forall j :: 0 <= j < |cs| - 1 ==> cs[1..][j] == cs[j + 1];
    }
  }

  lemma ExpectedIsRead(v: Vendor, t: Table, m: ModelDecl, i: nat)
    requires i < |ExpectedChecks(m)|
    requires forall j :: 0 <= j < |m.fields| ==> FieldPresent(v, t, m, m.fields[j])
    requires forall j :: 0 <= j < |m.constraints| ==> ConstraintPresent(v, t, m.constraints[j], AnyName)
    ensures HasClause(t.checks.Values, ExpectedChecks(m)[i])
  {
    var c := ExpectedChecks(m)[i];
    assert c in ExpectedChecks(m) && (c in FieldChecks(m.fields) || c in ConstraintChecks(m.constraints));
    FieldChecksExact(m.fields, c);
    ConstraintChecksExact(m.constraints, c);
    hide ExpectedChecks, FieldChecks, ConstraintChecks, HasClause, Enforced;
    if c in FieldChecks(m.fields) {
      var j :| 0 <= j < |m.fields| && m.fields[j].check == Some(c);
      assert FieldPresent(v, t, m, m.fields[j]);
      EnforcedIsRead(t, c);
    } else {
      var j :| 0 <= j < |m.constraints| && MakesCheck(m.constraints[j], c);
      assert ConstraintPresent(v, t, m.constraints[j], AnyName);
      ThereIsEnforced(v, t, m.constraints[j].name, c, AnyName);
      EnforcedIsRead(t, c);
    }
  }

  lemma FieldCheckExpected(m: ModelDecl, j: nat)
    requires j < |m.fields| && m.fields[j].check.Some?
    ensures m.fields[j].check.value in ExpectedChecks(m)
  {
    FieldChecksExact(m.fields, m.fields[j].check.value);
  }

  predicate FieldsValid(v: Vendor, t: Table, m: ModelDecl) {
    forall i :: 0 <= i < |m.fields| ==> ValidField(v, t, m, m.fields[i])
  }

  predicate IndexesValid(t: Table, m: ModelDecl) {
    forall i :: 0 <= i < |m.indexes| ==> ValidIndex(t, m.indexes[i])
  }

  predicate ConstraintsValid(v: Vendor, t: Table, m: ModelDecl) {
    forall i :: 0 <= i < |m.constraints| ==> ValidConstraint(v, t, m.constraints[i])
  }

  lemma FieldsVerdict(v: Vendor, t: Table, m: ModelDecl)
    requires !v.OtherBackend? && ReadClauses(v, t) == t.checks.Values && AllLex(t.checks.Values) && ExpectedLex(m)
    requires forall i :: 0 <= i < |m.fields| ==> FieldPresent(v, t, m, m.fields[i])
    ensures FieldsValid(v, t, m) <==> FieldsProvable(v, m)
  {
    hide FieldPresent, ValidField, ExpectedChecks, ReadClauses, Lexes, ProvableField;
    forall i | 0 <= i < |m.fields|
      ensures ValidField(v, t, m, m.fields[i]) <==> ProvableField(v, m.fields[i])
    {
      FieldVerdict(v, t, m, m.fields[i]);
      if m.fields[i].check.Some? {
        FieldCheckExpected(m, i);
      }
    }
  }

  lemma ConstraintsVerdict(v: Vendor, t: Table, m: ModelDecl)
    requires PlainlyRead(v, t, CreateModel(m))
    requires forall i :: 0 <= i < |m.constraints| ==> ConstraintPresent(v, t, m.constraints[i], AnyName)
    ensures ConstraintsValid(v, t, m) <==> ConstraintsJudged(v, t, m)
  {
    hide ConstraintPresent, ValidConstraint, ReadNamed, FirstNamed, ReadClauses, ConstraintJudged;
    forall i | 0 <= i < |m.constraints|
      ensures ValidConstraint(v, t, m.constraints[i]) <==> ConstraintJudged(v, t, m.constraints[i])
    {
      assert m.constraints[i] in Constraints(CreateModel(m));
      ConstraintVerdict(v, t, m.constraints[i]);
    }
  }

  lemma ChecksVerdict(v: Vendor, t: Table, m: ModelDecl)
    requires forall j :: 0 <= j < |m.fields| ==> FieldPresent(v, t, m, m.fields[j])
    requires forall j :: 0 <= j < |m.constraints| ==> ConstraintPresent(v, t, m.constraints[j], AnyName)
    ensures SameChecks(t.checks.Values, ExpectedChecks(m)) <==> ExpectedLex(m) && OnlyExpected(t, m)
    ensures OnlyExpected(t, m) ==> AllLex(t.checks.Values)
  {
    hide FieldPresent, ConstraintPresent, ExpectedChecks, Lexes, HasClause, IsExpected;
    forall i | 0 <= i < |ExpectedChecks(m)|
      ensures HasClause(t.checks.Values, ExpectedChecks(m)[i])
    {
      ExpectedIsRead(v, t, m, i);
    }
  }

  lemma ColumnsVerdict(v: Vendor, t: Table, m: ModelDecl)
    requires forall j :: 0 <= j < |m.fields| ==> FieldPresent(v, t, m, m.fields[j])
    ensures t.columns.Keys == Declared(m) <==> t.columns.Keys <= Declared(m)
  {
    hide FieldPresent;
    forall c | c in Declared(m)
      ensures c in t.columns
    {
      var i :| 0 <= i < |m.fields| && m.fields[i].column == c;
      PresentColumn(v, t, m, m.fields[i]);
    }
  }

  lemma IndexesVerdict(t: Table, m: ModelDecl)
    requires forall i :: 0 <= i < |m.indexes| ==> IndexPresent(t, m.indexes[i])
    ensures IndexesValid(t, m) <==> NothingSpecial(m)
  {
    hide IndexMatches, IndexPresent;
    forall i | 0 <= i < |m.indexes|
      ensures IndexMatches(t, m.indexes[i])
    {
      IndexPresentIs(t, m.indexes[i]);
    }
  }

  lemma ValidModelIs(v: Vendor, t: Table, m: ModelDecl)
    ensures ValidModel(v, t, m) <==>
      && !v.OtherBackend? && t.columns.Keys == Declared(m)
      && FieldsValid(v, t, m) && IndexesValid(t, m) && ConstraintsValid(v, t, m)
      && SameChecks(ReadClauses(v, t), ExpectedChecks(m))
  {
    hide ValidField, ValidIndex, ValidConstraint, SameChecks, ReadClauses, ExpectedChecks;
  }

  lemma ModelVerdict(v: Vendor, db: Database, m: ModelDecl)
    requires Present(v, db, CreateModel(m), AnyName) && PlainlyRead(v, db[m.table], CreateModel(m))
    ensures ValidModel(v, db[m.table], m) <==> Judged(v, db, CreateModel(m))
  {
    hide FieldPresent, ConstraintPresent, IndexPresent, ValidModel, FieldsValid, IndexesValid, ConstraintsValid,
         FieldsProvable, NothingSpecial, ExpectedLex, ConstraintsJudged, OnlyExpected, AllLex, ExpectedChecks,
         ReadNamed, FirstNamed, ReadClauses, SameChecks, Declared, Constraints;
    var t := db[m.table];
    ChecksVerdict(v, t, m);
    ColumnsVerdict(v, t, m);
    IndexesVerdict(t, m);
    ConstraintsVerdict(v, t, m);
    ValidModelIs(v, t, m);
    if !v.OtherBackend? && AllLex(t.checks.Values) && ExpectedLex(m) {
      FieldsVerdict(v, t, m);
    }
  }

  lemma PresentColumn(v: Vendor, t: Table, m: ModelDecl, f: FieldDecl)
    requires FieldPresent(v, t, m, f)
    ensures f.column in t.columns
  {
  }

  /** What has its declared shape exists, and is accepted exactly when nothing stands against it. */
  lemma Verdict(v: Vendor, db: Database, op: Op)
    requires Present(v, db, op, AnyName) && SoundDb(v, db) && SafeOp(v, op)
    ensures Exists(db, op) && (Accepts(v, db, op) <==> Judged(v, db, op))
  {
    hide SoundDb, SafeOp, ReadNamed, FirstNamed, ReadClauses, ConstraintJudged, ProvableField, ValidField,
         ValidConstraint;
    if op.model.table in db {
      ReadPlainly(v, db, op);
    }
    match op
    case CreateModel(m) => ModelVerdict(v, db, m);
    case AddField(m, f) => FieldVerdict(v, db[m.table], m, f);
    case AddIndex(m, i) => IndexPresentIs(db[m.table], i);
    case AddConstraint(m, c) =>
      if m.table in db {
        NeverCreated(v, db[m.table], c, AnyName);
        assert c in Constraints(op);
        ConstraintVerdict(v, db[m.table], c);
      }
  }

  // ---- Where the objects of a table come from ----

  /** The table before, or an empty one when there is none. */
  function OldTable(db: Database, table: string): Table {
    if table in db then db[table] else EmptyTable("")
  }

  predicate MakesColumn(d: Ddl, table: string, column: string) {
    d.AddColumn? && d.table == table && d.column == column
  }

  predicate MakesClause(d: Ddl, table: string, clause: string) {
    d.table == table && MadeClause(d) == Some(clause)
  }

  predicate MakesInfo(d: Ddl, table: string, name: string, info: Info) {
    && d.table == table
    && ((d.AddColumn? && MadeClause(d).Some? && d.checkName == name && info == CHECK_INFO)
        || (d.AddInfo? && d.name == name && d.info == info))
  }

  /** Everything in the table was there before or is made by one of the statements. */
  ghost predicate Sourced(before: Table, ds: seq<Ddl>, table: string, t: Table) {
    && (forall c :: c in t.columns ==> c in before.columns || exists d :: d in ds && MakesColumn(d, table, c))
    && (forall c :: c in t.checks.Values ==>
          c in before.checks.Values || exists d :: d in ds && MakesClause(d, table, c))
    && (forall n :: n in t.infos ==>
          || (n in before.infos && before.infos[n] == t.infos[n])
          || exists d :: d in ds && MakesInfo(d, table, n, t.infos[n]))
  }

  lemma OneSource(db: Database, d: Ddl, table: string)
    requires Execute(db, d).Some? && table in Execute(db, d).value
    ensures Sourced(OldTable(db, table), [d], table, Execute(db, d).value[table])
  {
    var t, u := OldTable(db, table), Execute(db, d).value[table];
    assert d in [d];
    forall c | c in u.checks.Values
      ensures c in t.checks.Values || MakesClause(d, table, c)
    {
      var n :| n in u.checks && u.checks[n] == c;
      assert n in t.checks && t.checks[n] == c ==> c in t.checks.Values;
    }
  }

  lemma SourcedLater(t: Table, d: Ddl, u: Table, ds: seq<Ddl>, table: string, w: Table)
    requires Sourced(t, [d], table, u) && Sourced(u, ds, table, w)
    ensures Sourced(t, [d] + ds, table, w)
  {
    hide MakesColumn, MakesClause, MakesInfo;
    assert d in [d] + ds && forall e :: e in ds ==> e in [d] + ds;
  }

  lemma {:induction false} Sources(db: Database, ds: seq<Ddl>, table: string)
    requires ExecuteAll(db, ds).1 && table in ExecuteAll(db, ds).0
    ensures Sourced(OldTable(db, table), ds, table, ExecuteAll(db, ds).0[table])
    decreases |ds|
  {
    hide MakesColumn, MakesClause, MakesInfo, Execute, Sourced;
    if ds == [] {
      NoSource(db, table);
    } else {
      var next := Execute(db, ds[0]).value;
      Sources(next, ds[1..], table);
      var after := ExecuteAll(db, ds).0[table];
      assert ds == [ds[0]] + ds[1..];
      if table in next {
        OneSource(db, ds[0], table);
        SourcedLater(OldTable(db, table), ds[0], next[table], ds[1..], table, after);
      } else {
        StillMissing(db, ds[0], table);
        FewerSources(OldTable(db, table), ds[1..], ds, table, after);
      }
    }
  }

  lemma NoSource(db: Database, table: string)
    requires table in db
    ensures Sourced(OldTable(db, table), [], table, db[table])
  {
  }

  lemma StillMissing(db: Database, d: Ddl, table: string)
    requires Execute(db, d).Some? && table !in Execute(db, d).value
    ensures OldTable(db, table) == OldTable(Execute(db, d).value, table)
  {
  }

  lemma FewerSources(t: Table, ds: seq<Ddl>, more: seq<Ddl>, table: string, u: Table)
    requires Sourced(t, ds, table, u) && forall d :: d in ds ==> d in more
    ensures Sourced(t, more, table, u)
  {
    hide MakesColumn, MakesClause, MakesInfo;
  }

  // ---- The same verdict, said of the declarations ----

  /** A clause the table has before the statements or gets from one of them. */
  ghost predicate Comes(db: Database, ds: seq<Ddl>, table: string, clause: string) {
    clause in OldTable(db, table).checks.Values || exists d :: d in ds && MakesClause(d, table, clause)
  }

  ghost predicate NameComes(db: Database, ds: seq<Ddl>, table: string, name: string) {
    name in OldTable(db, table).infos || exists d, info :: d in ds && MakesInfo(d, table, name, info)
  }

  ghost predicate ColumnComes(db: Database, ds: seq<Ddl>, table: string, column: string) {
    column in OldTable(db, table).columns || exists d :: d in ds && MakesColumn(d, table, column)
  }

  /** The definitions that the statements write into the text of a table, in order. */
  function Lines(ds: seq<Ddl>, table: string): seq<Part> {
    if ds == [] then [] else (if ds[0].table == table then Line(ds[0]) else []) + Lines(ds[1..], table)
  }

  function Line(d: Ddl): seq<Part> {
    match d
    case AddColumn(_, _, _, _, part) => [part]
    case AddInfo(_, _, _, _, written) => if written.Some? then [written.value] else []
    case _ => []
  }

  /** The definitions of a table after the statements. */
  function PartsAfter(db: Database, ds: seq<Ddl>, table: string): seq<Part> {
    OldTable(db, table).text.parts + Lines(ds, table)
  }

  ghost predicate ConstraintSettled(v: Vendor, db: Database, ds: seq<Ddl>, table: string, c: ConstraintDecl) {
    if c.sql.Some? then ProvableConstraint(v, c) && NameJudged(v, PartsAfter(db, ds, table), c)
    else !NameComes(db, ds, table, c.name)
  }

  /**
    From the database before the statements, the statements and the declaration alone: the shape
    is one that can be proved, and nothing the table has or gets stands against it, be it a column
    that is not declared, a CHECK that is not expected, a clause that does not lex, a name that
    must be absent, or, on SQLite, a CHECK that stands in front of the declared one under the same
    name, case aside, and has another clause.
   */
  ghost predicate Settled(v: Vendor, db: Database, ds: seq<Ddl>, op: Op) {
    && !v.OtherBackend?
    && match op
      case CreateModel(m) =>
        && FieldsProvable(v, m) && NothingSpecial(m) && ExpectedLex(m)
        && (forall i :: 0 <= i < |m.constraints| ==> ConstraintSettled(v, db, ds, m.table, m.constraints[i]))
        && (forall c :: ColumnComes(db, ds, m.table, c) ==> c in Declared(m))
        && (forall c :: Comes(db, ds, m.table, c) ==> Lexes(c) && IsExpected(ExpectedChecks(m), c))
      case AddField(m, f) =>
        && ProvableField(v, f)
        && (f.check.Some? ==> Lexes(f.check.value) && forall c :: Comes(db, ds, m.table, c) ==> Lexes(c))
      case AddIndex(_, i) => !i.special
      case AddConstraint(m, c) => ConstraintSettled(v, db, ds, m.table, c)
  }

  lemma ComesExact(db: Database, ds: seq<Ddl>, table: string)
    requires ExecuteAll(db, ds).1 && table in ExecuteAll(db, ds).0
    ensures var t := ExecuteAll(db, ds).0[table];
      && (forall c :: c in t.checks.Values <==> Comes(db, ds, table, c))
      && (forall c :: c in t.columns <==> ColumnComes(db, ds, table, c))
      && (forall n :: n in t.infos <==> NameComes(db, ds, table, n))
  {
    var after := ExecuteAll(db, ds).0;
    var t := after[table];
    Sources(db, ds, table);
    AllEffects(db, ds);
    ExecuteAllExtends(db, ds);
    hide Execute, ExecuteAll;
    assert table in db ==> TableKept(db[table], t);
    forall d | d in ds && d.table == table
      ensures MadeClause(d).Some? ==> MadeClause(d).value in t.checks.Values
      ensures d.AddColumn? ==> d.column in t.columns
      ensures forall n, info :: MakesInfo(d, table, n, info) ==> n in t.infos
    {
      MadeIsThere(after, d);
    }
    OldStays(db, table, t);
  }

  lemma MadeIsThere(db: Database, d: Ddl)
    requires Effect(db, d)
    ensures MadeClause(d).Some? ==> MadeClause(d).value in db[d.table].checks.Values
    ensures d.AddColumn? ==> d.column in db[d.table].columns
    ensures forall n, info :: MakesInfo(d, d.table, n, info) ==> n in db[d.table].infos
  {
    var t := db[d.table];
    if MadeClause(d).Some? {
      var name := if d.AddColumn? then d.checkName else d.name;
      assert t.checks[name] in t.checks.Values;
    }
  }

  lemma OldStays(db: Database, table: string, t: Table)
    requires table in db ==> TableKept(db[table], t)
    ensures OldTable(db, table).columns.Keys <= t.columns.Keys && OldTable(db, table).infos.Keys <= t.infos.Keys
    ensures OldTable(db, table).checks.Values <= t.checks.Values
  {
    forall c | c in OldTable(db, table).checks.Values
      ensures c in t.checks.Values
    {
      var n :| n in OldTable(db, table).checks && OldTable(db, table).checks[n] == c;
      assert n in t.checks && t.checks[n] == c;
    }
  }

  lemma {:induction false} LinesExact(db: Database, ds: seq<Ddl>, table: string)
    requires ExecuteAll(db, ds).1 && table in ExecuteAll(db, ds).0
    ensures ExecuteAll(db, ds).0[table].text.parts == PartsAfter(db, ds, table)
    decreases |ds|
  {
    hide Execute, Line;
    if ds != [] {
      var next := Execute(db, ds[0]).value;
      LinesExact(next, ds[1..], table);
      OneLine(db, ds[0], table);
    }
  }

  lemma OneLine(db: Database, d: Ddl, table: string)
    requires Execute(db, d).Some?
    ensures OldTable(Execute(db, d).value, table).text.parts
      == OldTable(db, table).text.parts + if d.table == table then Line(d) else []
  {
  }

  lemma ConstraintSettledExact(v: Vendor, db: Database, ds: seq<Ddl>, table: string, c: ConstraintDecl)
    requires ExecuteAll(db, ds).1 && table in ExecuteAll(db, ds).0
    ensures ConstraintJudged(v, ExecuteAll(db, ds).0[table], c) <==> ConstraintSettled(v, db, ds, table, c)
  {
    ComesExact(db, ds, table);
    LinesExact(db, ds, table);
    hide Execute, ExecuteAll, NameComes, ProvableConstraint, NameJudged, PartsAfter;
  }

  lemma NothingComes(db: Database, ds: seq<Ddl>, table: string, name: string)
    requires ExecuteAll(db, ds).1 && table !in ExecuteAll(db, ds).0
    ensures !NameComes(db, ds, table, name)
  {
    AllEffects(db, ds);
    ExecuteAllExtends(db, ds);
    hide ExecuteAll, Execute;
    forall d | d in ds
      ensures d.table != table
    {
      assert Effect(ExecuteAll(db, ds).0, d);
    }
  }

  lemma ModelSettledExact(v: Vendor, db: Database, ds: seq<Ddl>, m: ModelDecl)
    requires ExecuteAll(db, ds).1 && m.table in ExecuteAll(db, ds).0
    ensures Judged(v, ExecuteAll(db, ds).0, CreateModel(m)) <==> Settled(v, db, ds, CreateModel(m))
  {
    ComesExact(db, ds, m.table);
    hide ExecuteAll, Execute, Comes, NameComes, ColumnComes, FieldsProvable, NothingSpecial, ExpectedLex, Lexes,
         IsExpected, ExpectedChecks, Declared, ConstraintJudged, ConstraintSettled;
    var t := ExecuteAll(db, ds).0[m.table];
    forall i | 0 <= i < |m.constraints|
      ensures ConstraintJudged(v, t, m.constraints[i]) <==> ConstraintSettled(v, db, ds, m.table, m.constraints[i])
    {
      ConstraintSettledExact(v, db, ds, m.table, m.constraints[i]);
    }
    assert t.columns.Keys <= Declared(m) <==> forall c :: ColumnComes(db, ds, m.table, c) ==> c in Declared(m);
  }

  /** For what is present after the statements, the two conditions are the same. */
  lemma SettledExact(v: Vendor, db: Database, ds: seq<Ddl>, op: Op)
    requires ExecuteAll(db, ds).1 && Present(v, ExecuteAll(db, ds).0, op, AnyName)
    ensures Judged(v, ExecuteAll(db, ds).0, op) <==> Settled(v, db, ds, op)
  {
    var after := ExecuteAll(db, ds).0;
    match op
    case CreateModel(m) => ModelSettledExact(v, db, ds, m);
    case AddField(m, f) =>
      ComesExact(db, ds, m.table);
      hide ExecuteAll, Execute, Comes, NameComes, ColumnComes, ProvableField, Lexes, FieldPresent;
    case AddIndex(_, _) =>
    case AddConstraint(m, c) =>
      hide ConstraintJudged, ConstraintSettled, ConstraintPresent, ExecuteAll;
      if m.table in after {
        ConstraintSettledExact(v, db, ds, m.table, c);
      } else {
        NothingComes(db, ds, m.table, c.name);
        NeverSettled(v, db, ds, m.table, c);
      }
  }

  lemma NeverSettled(v: Vendor, db: Database, ds: seq<Ddl>, table: string, c: ConstraintDecl)
    requires c.sql.None? && !NameComes(db, ds, table, c.name)
    ensures ConstraintSettled(v, db, ds, table, c)
  {
  }

  // ---- Whole migrations ----

  /** The statements a migration executes when none of them is refused: those of what does not exist yet. */
  function Added(v: Vendor, db: Database, ops: seq<Op>): seq<Ddl>
    decreases |ops|
  {
    if ops == [] then []
    else (if Exists(db, ops[0]) then [] else Statements(v, ops[0])) + Added(v, Apply(v, db, ops[0], None).0, ops[1..])
  }

  lemma {:induction false} ExecuteBoth(db: Database, a: seq<Ddl>, b: seq<Ddl>)
    requires ExecuteAll(db, a).1
    ensures ExecuteAll(db, a + b) == ExecuteAll(ExecuteAll(db, a).0, b)
    decreases |a|
  {
    hide Execute;
    if a == [] {
      assert a + b == b;
    } else {
      assert (a + b)[1..] == a[1..] + b;
      ExecuteBoth(Execute(db, a[0]).value, a[1..], b);
    }
  }

  lemma ApplyAdds(v: Vendor, db: Database, op: Op)
    requires Apply(v, db, op, None).1 == Done
    ensures var ds := if Exists(db, op) then [] else Statements(v, op);
      ExecuteAll(db, ds) == (Apply(v, db, op, None).0, true)
  {
    hide Exists, Accepts, Statements, Execute;
    var ds := Statements(v, op);
    assert ds[..|ds|] == ds;
    assert ExecuteAll(db, []) == (db, true);
  }

  lemma {:induction false} AttemptAdds(v: Vendor, db: Database, ops: seq<Op>)
    requires Attempt(v, db, ops, None).1 == Done
    ensures ExecuteAll(db, Added(v, db, ops)) == (Attempt(v, db, ops, None).0, true)
    decreases |ops|
  {
    hide Apply, Exists, Statements, ExecuteAll;
    if ops == [] {
      assert ExecuteAll(db, []) == (db, true) by { NothingExecuted(db); }
    } else {
      var next := Apply(v, db, ops[0], None).0;
      ApplyAdds(v, db, ops[0]);
      AttemptAdds(v, next, ops[1..]);
      var ds := if Exists(db, ops[0]) then [] else Statements(v, ops[0]);
      ExecuteBoth(db, ds, Added(v, next, ops[1..]));
    }
  }

  lemma NothingExecuted(db: Database)
    ensures ExecuteAll(db, []) == (db, true)
  {
  }

  lemma ApplyExisting(v: Vendor, db: Database, op: Op, budget: Option<nat>)
    requires Exists(db, op)
    ensures Apply(v, db, op, budget) == (db, if Accepts(v, db, op) then Done else Refused)
    ensures StatementsRun(v, db, op) == 0
  {
  }

  /** Where everything exists, an attempt only validates. */
  lemma {:induction false} ValidateAll(v: Vendor, db: Database, ops: seq<Op>, budget: Option<nat>)
    requires forall op :: op in ops ==> Exists(db, op)
    ensures Attempt(v, db, ops, budget) ==
      (db, if exists op :: op in ops && !Accepts(v, db, op) then Refused
           else if budget.Some? then Interrupted else Done)
    decreases |ops|
  {
    hide Apply, Exists, Accepts, StatementsRun;
    if ops != [] {
      assert ops[0] in ops;
      ApplyExisting(v, db, ops[0], budget);
      assert forall op :: op in ops <==> op == ops[0] || op in ops[1..];
      ValidateAll(v, db, ops[1..], budget);
    }
  }

  /** Every operation of the migration is settled by what the table had and what the migration adds. */
  ghost predicate Retryable(v: Vendor, db: Database, ops: seq<Op>) {
    forall op :: op in ops ==> Settled(v, db, Added(v, db, ops), op)
  }

  /**
    A migration that completed but was not recorded is accepted on retry, and changes nothing, if
    and only if it is `Retryable`; otherwise every retry is refused.
   */
  lemma MigrationRetryExact(v: Vendor, db: Database, ops: seq<Op>, budget: Option<nat>)
    requires Attempt(v, db, ops, None).1 == Done && SoundDb(v, db) && SafeOps(v, ops)
    ensures var after := Attempt(v, db, ops, None).0;
      Attempt(v, after, ops, budget) ==
        (after, if !Retryable(v, db, ops) then Refused else if budget.Some? then Interrupted else Done)
  {
    hide Attempt, Present, SoundDb, SafeOp, Settled, Judged, Accepts, Exists, Added, ExecuteAll, Statements;
    var after := Attempt(v, db, ops, None).0;
    var ds := Added(v, db, ops);
    AttemptIsPresent(v, db, ops, None, AnyName, {});
    AttemptSound(v, db, ops, None, AnyName, {});
    AttemptAdds(v, db, ops);
    forall op | op in ops
      ensures Exists(after, op) && (Accepts(v, after, op) <==> Settled(v, db, ds, op))
    {
      assert SafeOp(v, op);
      Verdict(v, after, op);
      SettledExact(v, db, ds, op);
    }
    ValidateAll(v, after, ops, budget);
  }

  lemma OneAttempt(v: Vendor, db: Database, op: Op)
    ensures var (next, outcome) := Apply(v, db, op, None); Attempt(v, db, [op], None) == (next, outcome)
    ensures !Exists(db, op) ==> Added(v, db, [op]) == Statements(v, op)
  {
    hide Apply, Exists, Statements;
    assert [op][1..] == [];
  }

  /** One operation that created its object is accepted again exactly when it is settled by its own statements. */
  lemma ReapplyExact(v: Vendor, db: Database, op: Op)
    requires !Exists(db, op) && Apply(v, db, op, None).1 == Done && SoundDb(v, db) && SafeOp(v, op)
    ensures var after := Apply(v, db, op, None).0;
      Apply(v, after, op, None) == (after, if Settled(v, db, Statements(v, op), op) then Done else Refused)
  {
    hide Attempt, SoundDb, SafeOp, Settled, Exists, Statements, Added;
    var after := Apply(v, db, op, None).0;
    OneAttempt(v, db, op);
    OneAttempt(v, after, op);
    MigrationRetryExact(v, db, [op], None);
    assert Retryable(v, db, [op]) <==> Settled(v, db, Statements(v, op), op) by {
      assert op in [op];
    }
  }

  lemma ClauseComes(v: Vendor, db: Database, ops: seq<Op>, table: string, clause: string)
    requires Attempt(v, db, ops, None).1 == Done && table in Attempt(v, db, ops, None).0
    requires clause in Attempt(v, db, ops, None).0[table].checks.Values
    ensures Comes(db, Added(v, db, ops), table, clause)
  {
    hide Attempt, Added, Comes, ExecuteAll;
    AttemptAdds(v, db, ops);
    ComesExact(db, Added(v, db, ops), table);
  }

  /**
    A migration that creates a table and also adds a column to it that its CreateModel does not
    declare is refused on every retry.
   */
  lemma AddAfterCreate(v: Vendor, db: Database, ops: seq<Op>, m: ModelDecl, wider: ModelDecl, f: FieldDecl,
                       budget: Option<nat>)
    requires CreateModel(m) in ops && AddField(wider, f) in ops && wider.table == m.table && f.column !in Declared(m)
    requires Attempt(v, db, ops, None).1 == Done && SoundDb(v, db) && SafeOps(v, ops)
    ensures var after := Attempt(v, db, ops, None).0; Attempt(v, after, ops, budget) == (after, Refused)
  {
    hide Attempt, Added, SoundDb, SafeOps, FieldPresent, ExecuteAll, Declared, Comes, ColumnComes, ConstraintSettled;
    var after := Attempt(v, db, ops, None).0;
    MigrationRetryExact(v, db, ops, budget);
    AttemptIsPresent(v, db, ops, None, AnyName, {});
    AttemptAdds(v, db, ops);
    assert Present(v, after, AddField(wider, f), AnyName);
    PresentColumn(v, after[m.table], wider, f);
    ComesExact(db, Added(v, db, ops), m.table);
    assert !Settled(v, db, Added(v, db, ops), CreateModel(m));
  }

  lemma ExpectedSame(expected: seq<string>, a: string, b: string)
    requires SameClause(a, b)
    ensures IsExpected(expected, a) <==> IsExpected(expected, b)
  {
    SameClauseForm(a, b);
    hide NormaliseExpression;
  }

  /** So is one that adds a CHECK to it that its CreateModel does not expect. */
  lemma CheckAfterCreate(v: Vendor, db: Database, ops: seq<Op>, m: ModelDecl, wider: ModelDecl, c: ConstraintDecl,
                         budget: Option<nat>)
    requires CreateModel(m) in ops && AddConstraint(wider, c) in ops && wider.table == m.table
    requires c.CheckDecl? && c.sql.Some? && !IsExpected(ExpectedChecks(m), c.clause)
    requires Attempt(v, db, ops, None).1 == Done && SoundDb(v, db) && SafeOps(v, ops)
    ensures var after := Attempt(v, db, ops, None).0; Attempt(v, after, ops, budget) == (after, Refused)
  {
    hide Attempt, Added, SoundDb, SafeOps, ExecuteAll, Comes, ColumnComes, ConstraintSettled, SameClause, IsExpected,
         ExpectedChecks, Lexes;
    var after := Attempt(v, db, ops, None).0;
    MigrationRetryExact(v, db, ops, budget);
    AttemptIsPresent(v, db, ops, None, AnyName, {});
    assert Present(v, after, AddConstraint(wider, c), AnyName);
    var t := after[m.table];
    ThereIsEnforced(v, t, c.name, c.clause, AnyName);
    var n :| n in t.checks && CheckNamed(t, n, c.clause);
    ExpectedSame(ExpectedChecks(m), t.checks[n], c.clause);
    assert t.checks[n] in t.checks.Values;
    ClauseComes(v, db, ops, m.table, t.checks[n]);
    assert !Settled(v, db, Added(v, db, ops), CreateModel(m));
  }

  predicate MakesName(d: Ddl, table: string, name: string) {
    d.table == table && ((d.AddColumn? && MadeClause(d).Some? && d.checkName == name) || (d.AddInfo? && d.name == name))
  }

  /** The names of constraints that the backend never creates. */
  function AbsentNames(op: Op): set<string> {
    set c | c in Constraints(op) && c.sql.None? :: c.name
  }

  /** Statements that give the operation's table no column, no CHECK, and no name that must be absent. */
  predicate Harmless(op: Op, d: Ddl) {
    d.table == op.model.table ==>
      && !d.AddColumn? && MadeClause(d).None?
      && forall n :: n in AbsentNames(op) ==> !MakesName(d, op.model.table, n)
  }

  lemma HarmlessComes(db: Database, ds: seq<Ddl>, extra: seq<Ddl>, op: Op)
    requires forall d :: d in extra ==> Harmless(op, d)
    ensures forall c :: Comes(db, ds + extra, op.model.table, c) <==> Comes(db, ds, op.model.table, c)
    ensures forall c :: ColumnComes(db, ds + extra, op.model.table, c) <==> ColumnComes(db, ds, op.model.table, c)
    ensures forall n :: n in AbsentNames(op) ==>
      (NameComes(db, ds + extra, op.model.table, n) <==> NameComes(db, ds, op.model.table, n))
  {
    hide AbsentNames;
    var all, table := ds + extra, op.model.table;
    assert forall d :: d in all <==> d in ds || d in extra;
    forall d | d in extra
      ensures forall c :: !MakesClause(d, table, c) && !MakesColumn(d, table, c)
      ensures forall n, info :: n in AbsentNames(op) ==> !MakesInfo(d, table, n, info)
    {
      assert Harmless(op, d);
    }
    hide MakesClause, MakesColumn, MakesInfo, Harmless;
  }

  lemma {:induction false} LinesTogether(ds: seq<Ddl>, es: seq<Ddl>, table: string)
    ensures Lines(ds + es, table) == Lines(ds, table) + Lines(es, table)
  {
    hide Line;
    if ds == [] {
      assert ds + es == es;
    } else {
      assert (ds + es)[0] == ds[0] && (ds + es)[1..] == ds[1..] + es;
      LinesTogether(ds[1..], es, table);
    }
  }

  lemma {:induction false} FirstOfBoth(ps: seq<Part>, qs: seq<Part>, name: string)
    ensures FirstNamed(ps + qs, name) ==
      if FirstNamed(ps, name).Some? then FirstNamed(ps, name) else FirstNamed(qs, name)
  {
    hide Names;
    if ps == [] {
      assert ps + qs == qs;
    } else {
      assert (ps + qs)[0] == ps[0] && (ps + qs)[1..] == ps[1..] + qs;
      FirstOfBoth(ps[1..], qs, name);
    }
  }

  lemma {:induction false} HarmlessLines(op: Op, ds: seq<Ddl>, name: string)
    requires forall d :: d in ds ==> Harmless(op, d)
    ensures FirstNamed(Lines(ds, op.model.table), name) == None
  {
    if ds != [] {
      HarmlessLines(op, ds[1..], name);
      assert ds[0] in ds && Harmless(op, ds[0]);
      var first := if ds[0].table == op.model.table then Line(ds[0]) else [];
      FirstOfBoth(first, Lines(ds[1..], op.model.table), name);
    }
  }

  lemma HarmlessParts(v: Vendor, db: Database, ds: seq<Ddl>, extra: seq<Ddl>, op: Op, c: ConstraintDecl)
    requires forall d :: d in extra ==> Harmless(op, d)
    ensures NameJudged(v, PartsAfter(db, ds + extra, op.model.table), c)
      <==> NameJudged(v, PartsAfter(db, ds, op.model.table), c)
  {
    var table := op.model.table;
    var ps, a, b := OldTable(db, table).text.parts, Lines(ds, table), Lines(extra, table);
    LinesTogether(ds, extra, table);
    HarmlessLines(op, extra, c.name);
    assert ps + (a + b) == (ps + a) + b;
    FirstOfBoth(ps + a, b, c.name);
    hide FirstNamed, Harmless, Lines, NormaliseExpression;
  }

  /** Such statements, the indexes and unique constraints of a migration say, change no verdict. */
  lemma HarmlessAdditions(v: Vendor, db: Database, ds: seq<Ddl>, extra: seq<Ddl>, op: Op)
    requires forall d :: d in extra ==> Harmless(op, d)
    ensures Settled(v, db, ds + extra, op) <==> Settled(v, db, ds, op)
  {
    HarmlessComes(db, ds, extra, op);
    hide Harmless, Comes, NameComes, ColumnComes, ProvableConstraint, FieldsProvable, NothingSpecial, ExpectedLex,
         ProvableField, Lexes, IsExpected, ExpectedChecks, Declared, NameJudged, PartsAfter;
    forall c | c in Constraints(op)
      ensures ConstraintSettled(v, db, ds + extra, op.model.table, c)
        <==> ConstraintSettled(v, db, ds, op.model.table, c)
    {
      HarmlessParts(v, db, ds, extra, op, c);
      assert c.sql.None? ==> c.name in AbsentNames(op);
    }
    hide ConstraintSettled;
    if op.CreateModel? {
      assert forall i :: 0 <= i < |op.model.constraints| ==> op.model.constraints[i] in Constraints(op);
    }
  }

  /**
    On SQLite a migration that adds a CHECK is refused on every retry when the table had one
    under a name that differs in case only, and with another clause.
   */
  lemma TakenNameRefused(v: Vendor, db: Database, ops: seq<Op>, m: ModelDecl, c: ConstraintDecl, budget: Option<nat>)
    requires v.Sqlite? && AddConstraint(m, c) in ops && c.CheckDecl? && c.sql.Some?
    requires FirstNamed(OldTable(db, m.table).text.parts, c.name).Some?
    requires !FirstAs(OldTable(db, m.table).text.parts, c.name, c.clause)
    requires Attempt(v, db, ops, None).1 == Done && SoundDb(v, db) && SafeOps(v, ops)
    ensures var after := Attempt(v, db, ops, None).0; Attempt(v, after, ops, budget) == (after, Refused)
  {
    MigrationRetryExact(v, db, ops, budget);
    FirstOfBoth(OldTable(db, m.table).text.parts, Lines(Added(v, db, ops), m.table), c.name);
    hide Attempt, SoundDb, SafeOps, Added, Lines, FirstNamed, NormaliseExpression, OldTable, ProvableConstraint;
    assert !Settled(v, db, Added(v, db, ops), AddConstraint(m, c));
  }

  /**
    A declared clause that mentions another one as a literal makes every retry of its CreateModel
    fail on SQLite, although the table is exactly the declared one.
   */
  lemma MentionRefusesRetry(db: Database, m: ModelDecl, j: nat, x: string, c: string, y: string)
    requires !Exists(db, CreateModel(m)) && Apply(Sqlite, db, CreateModel(m), None).1 == Done
    requires j < |m.fields| && m.fields[j].check == Some(x + (Mention(c) + y))
    requires Readable(c) && !IsExpected(ExpectedChecks(m), c)
    ensures var after := Apply(Sqlite, db, CreateModel(m), None).0;
      Present(Sqlite, after, CreateModel(m), ItsName) && Apply(Sqlite, after, CreateModel(m), None) == (after, Refused)
  {
    hide Present, Mention, ReadClauses, IsExpected, ExpectedChecks, Execute, ValidModel, Readable, Effect;
    var ds := Statements(Sqlite, CreateModel(m));
    assert ds[..|ds|] == ds;
    var after := ExecuteAll(db, ds).0;
    AllEffects(db, ds);
    CreatedIsPresent(Sqlite, after, CreateModel(m), ItsName);
    var f := m.fields[j];
    StatementsOfField(Sqlite, m.table, m.fields, j);
    var d := FieldStatements(Sqlite, m.table, f)[0];
    assert d in FieldStatements(Sqlite, m.table, f) && d in ds;
    ColumnWritten(after, d);
    MentionIsRead(after[m.table], d.part, x, c, y);
    UnexpectedRefused(after[m.table], m, c);
  }

  lemma ColumnWritten(db: Database, d: Ddl)
    requires d.AddColumn? && Effect(db, d)
    ensures d.table in db && d.part in db[d.table].text.parts
  {
  }
}
