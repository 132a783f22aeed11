/**
  What validation reads of a SQLite table against what is there
  (bfg2/bfg/core/migration_operations.py, lines 403-479 and 527-537).  Where every definition of
  a table is good text, the clauses read are the real ones and a name finds the first CHECK that
  has it, case aside (`TextTruthful`); every statement that writes good text keeps it so
  (`ExecuteSound`).  Elsewhere anything that looks like a CHECK is read as one
  (`AnyCheckIsRead`), so a CHECK may be accepted that does not exist (`FalseCheckAccepted`) or
  that is another one (`CaseMistaken`, `LiteralMistaken`).  `FieldAcceptanceSound` and
  `NamedAcceptanceSound` are the exact conditions.
 */
module SchemaText {
  import opened Wrappers
  import opened SqlLexer
  import opened SqlNormalise
  import opened Parens
  import opened CheckScan
  import opened CheckExtract
  import opened TableText
  import opened Schema
  import opened SchemaRetry

  // ---- Good text is read truthfully ----

  /** A definition with a CHECK stands for a real one. */
  predicate PartReal(t: Table, p: Part) {
    match p
    case Item(_, check, _) => check.Some? ==> check.value in t.checks.Values
    case NamedCheck(name, clause) => name in t.checks && t.checks[name] == clause
  }

  predicate InText(t: Table, clause: string) {
    exists p :: p in t.text.parts && ClauseOf(p) == Some(clause)
  }

  /** The definitions are good text, and their CHECKs are the real ones and those that are listed. */
  ghost predicate TextSound(t: Table) {
    && GoodText(t.text)
    && (forall p :: p in t.text.parts ==> PartReal(t, p))
    && (forall n :: n in t.checks ==> InText(t, t.checks[n]))
    && Listed(t)
  }

  predicate Listed(t: Table) {
    forall n :: n in t.infos && t.infos[n].check ==> n in t.checks
  }

  lemma {:induction false} ClausesExact(ps: seq<Part>, c: string)
    ensures c in PartClauses(ps) <==> exists p :: p in ps && ClauseOf(p) == Some(c)
  {
    if ps != [] {
      ClausesExact(ps[1..], c);
      assert forall p :: p in ps <==> p == ps[0] || p in ps[1..];
    }
  }

  lemma {:induction false} FirstNamedExact(ps: seq<Part>, name: string)
    ensures match FirstNamed(ps, name)
      case Some(c) => exists p :: p in ps && Names(p, name) && p.clause == c
      case None => forall p :: p in ps ==> !Names(p, name)
  {
    hide Names;
    if ps != [] {
      FirstNamedExact(ps[1..], name);
      assert forall p :: p in ps <==> p == ps[0] || p in ps[1..];
    }
  }

  lemma ClausesTruthful(t: Table)
    requires TextSound(t)
    ensures ReadClauses(Sqlite, t) == t.checks.Values
  {
    ChecksRead(t.text);
    hide GoodText, Checks, Sql;
    forall c
      ensures c in PartClauses(t.text.parts) <==> c in t.checks.Values
    {
      ClausesExact(t.text.parts, c);
      if c in t.checks.Values {
        var n :| n in t.checks && t.checks[n] == c;
        assert InText(t, t.checks[n]);
      }
      if p :| p in t.text.parts && ClauseOf(p) == Some(c) {
        assert PartReal(t, p);
      }
    }
  }

  /**
    Of a table whose definitions are good text the clauses read are the real ones, and under a
    name the first constraint with that name is read, case aside.
   */
  lemma TextTruthful(t: Table)
    requires TextSound(t)
    ensures ReadClauses(Sqlite, t) == t.checks.Values
    ensures forall n :: IsIdentifier(n) ==> ReadNamed(Sqlite, t, n) == FirstNamed(t.text.parts, n)
  {
    ClausesTruthful(t);
    hide GoodText, FirstNamed, NamedFrom, Sql, IsIdentifier, ReadClauses, Listed;
    forall n | IsIdentifier(n)
      ensures ReadNamed(Sqlite, t, n) == FirstNamed(t.text.parts, n)
    {
      NamedRead(t.text, n);
    }
  }

  /** The constraint that is read under a name is a real one, and its name differs in case only. */
  lemma FirstIsReal(t: Table, n: string) returns (x: string)
    requires TextSound(t) && FirstNamed(t.text.parts, n).Some?
    ensures Lower(x) == Lower(n) && x in t.checks && t.checks[x] == FirstNamed(t.text.parts, n).value
  {
    FirstNamedExact(t.text.parts, n);
    hide FirstNamed, GoodText, Lower;
    var p :| p in t.text.parts && Names(p, n) && p.clause == FirstNamed(t.text.parts, n).value;
    x := p.name;
    assert PartReal(t, p);
  }

  // ---- Names that cannot be taken for one another ----

  /** A CHECK of this name and clause, declared or there, on a table. */
  datatype CheckOf = CheckOf(table: string, name: string, clause: string)

  /** `here` reads like `declared` under a name that differs in case, while its own clause is another. */
  predicate Mistaken(here: CheckOf, declared: CheckOf, own: CheckOf) {
    && here.table == declared.table == own.table && declared.name == own.name && here.name != declared.name
    && Lower(here.name) == Lower(declared.name) && SameClause(here.clause, declared.clause)
    && !SameClause(own.clause, declared.clause)
  }

  /** No CHECK can pass for another one. */
  predicate Clear(known: set<CheckOf>) {
    forall x, d, r :: x in known && d in known && r in known ==> !Mistaken(x, d, r)
  }

  ghost predicate KnownTable(t: Table, table: string, known: set<CheckOf>) {
    forall n :: n in t.checks ==> CheckOf(table, n, t.checks[n]) in known
  }

  predicate KnownDdl(d: Ddl, known: set<CheckOf>) {
    match d
    case AddColumn(table, _, _, name, _) => MadeClause(d).Some? ==> CheckOf(table, name, MadeClause(d).value) in known
    case AddInfo(table, name, _, _, _) => MadeClause(d).Some? ==> CheckOf(table, name, MadeClause(d).value) in known
    case _ => true
  }

  ghost predicate KnownDb(db: Database, known: set<CheckOf>) {
    forall t :: t in db ==> KnownTable(db[t], t, known)
  }

  /** Where names matter, all CHECKs are known and none of these can pass for another. */
  ghost predicate Told(v: Vendor, db: Database, u: Under, known: set<CheckOf>) {
    v.Sqlite? && u.ItsName? ==> Clear(known) && KnownDb(db, known)
  }

  ghost predicate KnownOp(v: Vendor, op: Op, u: Under, known: set<CheckOf>) {
    v.Sqlite? && u.ItsName? ==> forall d :: d in Statements(v, op) ==> KnownDdl(d, known)
  }

  // ---- Statements keep the text good ----

  /** A statement that writes good text, and lists a CHECK only if it makes one. */
  ghost predicate SafeDdl(d: Ddl) {
    match d
    case CreateTable(_, head) => Quiet(head)
    case AddColumn(_, _, _, name, part) => part.Item? && GoodPart(part)
    case AddInfo(_, name, info, _, written) =>
      && (info.check ==> MadeClause(d).Some?)
      && (written.Some? ==> GoodPart(written.value) && (written.value.NamedCheck? ==> written.value.name == name))
    case AddForeignKey(_, _, _, _) => true
  }

  ghost predicate SoundDb(v: Vendor, db: Database) {
    v.Sqlite? ==> forall t :: t in db ==> TextSound(db[t])
  }

  ghost predicate SafeOp(v: Vendor, op: Op) {
    v.Sqlite? ==> forall d :: d in Statements(v, op) ==> SafeDdl(d)
  }

  /** A CHECK that an operation declares is made by one of its statements. */
  lemma CheckStated(v: Vendor, op: Op, c: ConstraintDecl)
    requires c in Constraints(op) && c.CheckDecl? && c.sql.Some?
    ensures AddInfo(op.model.table, c.name, CHECK_INFO, None, Some(NamedCheck(c.name, c.clause))) in Statements(v, op)
  {
    var d := AddInfo(op.model.table, c.name, CHECK_INFO, None, Some(NamedCheck(c.name, c.clause)));
    assert ConstraintStatements(op.model.table, c) == [d];
    if op.CreateModel? {
      var i :| 0 <= i < |op.model.constraints| && op.model.constraints[i] == c;
      StatementsOfConstraint(op.model.table, op.model.constraints, i);
      hide AllConstraints, AllFields, ConstraintStatements;
      assert d in ConstraintStatements(op.model.table, c) && d in AllConstraints(op.model.table, op.model.constraints);
    }
  }

  lemma StatedSafe(v: Vendor, op: Op, c: ConstraintDecl)
    requires v.Sqlite? && SafeOp(v, op) && c in Constraints(op) && c.CheckDecl? && c.sql.Some?
    ensures IsIdentifier(c.name)
  {
    CheckStated(v, op, c);
    hide Statements, GoodClause, IsIdentifier;
    assert SafeDdl(AddInfo(op.model.table, c.name, CHECK_INFO, None, Some(NamedCheck(c.name, c.clause))));
  }

  lemma StatedKnown(v: Vendor, op: Op, c: ConstraintDecl, known: set<CheckOf>)
    requires v.Sqlite? && KnownOp(v, op, ItsName, known) && c in Constraints(op) && c.CheckDecl? && c.sql.Some?
    ensures CheckOf(op.model.table, c.name, c.clause) in known
  {
    CheckStated(v, op, c);
    hide Statements, Constraints, KnownDdl;
    KnownCheck(op.model.table, c.name, c.clause, known);
  }

  lemma KnownCheck(table: string, name: string, clause: string, known: set<CheckOf>)
    ensures KnownDdl(AddInfo(table, name, CHECK_INFO, None, Some(NamedCheck(name, clause))), known)
      <==> CheckOf(table, name, clause) in known
  {
  }

  /** In good text a CHECK that is read under a name is real, and has this very name if none can pass for it. */
  lemma NamesRight(v: Vendor, t: Table, table: string, c: ConstraintDecl, u: Under, known: set<CheckOf>)
    requires v.Sqlite? && TextSound(t) && IsIdentifier(c.name)
    requires u.ItsName? ==> Clear(known) && KnownTable(t, table, known)
    requires u.ItsName? && c.CheckDecl? ==> CheckOf(table, c.name, c.clause) in known
    ensures NameRight(v, t, c, u)
  {
    TextTruthful(t);
    hide ReadNamed, FirstNamed, GoodText, InText, PartReal, NormaliseExpression, Tokens, IsIdentifier, Lower,
         SameClause;
    if c.CheckDecl? && c.name in t.infos && t.infos[c.name].check && Lexes(c.clause)
       && ReadAs(v, t, c.name, c.clause) {
      var x := FirstIsReal(t, c.name);
      NormalFormSound(t.checks[x], c.clause);
      assert CheckNamed(t, x, c.clause);
      if u.ItsName? && x != c.name {
        var here, declared, own := CheckOf(table, x, t.checks[x]), CheckOf(table, c.name, c.clause),
                                    CheckOf(table, c.name, t.checks[c.name]);
        assert !Mistaken(here, declared, own);
      }
    }
  }

  /** Of a sound database an operation reads what is there. */
  lemma OpTruthful(v: Vendor, db: Database, op: Op, u: Under, known: set<CheckOf>)
    requires SoundDb(v, db) && SafeOp(v, op) && Told(v, db, u, known) && KnownOp(v, op, u, known)
    ensures op.model.table in db ==> Truthful(v, db[op.model.table], op, u)
  {
    hide TextSound, SafeOp, KnownOp, Clear, KnownTable, ReadClauses, Constraints, IsIdentifier;
    if op.model.table in db {
      var t := db[op.model.table];
      if v.Sqlite? {
        TextTruthful(t);
      } else {
        CatalogueRead(v, t);
      }
      forall c | c in Constraints(op)
        ensures NameRight(v, t, c, u)
      {
        if v.Sqlite? && c.CheckDecl? && c.sql.Some? {
          StatedSafe(v, op, c);
          if u.ItsName? {
            StatedKnown(v, op, c, known);
          }
          NamesRight(v, t, op.model.table, c, u, known);
        } else if c.CheckDecl? && c.sql.Some? {
          CatalogueRight(v, t, c, u);
        }
      }
    }
  }

  lemma CatalogueRead(v: Vendor, t: Table)
    requires !v.Sqlite?
    ensures ReadClauses(v, t) == t.checks.Values
  {
  }

  lemma CatalogueRight(v: Vendor, t: Table, c: ConstraintDecl, u: Under)
    requires !v.Sqlite?
    ensures NameRight(v, t, c, u)
  {
    hide NormaliseExpression, SameClause;
    if c.CheckDecl? && c.sql.Some? && Lexes(c.clause) && ReadAs(v, t, c.name, c.clause) {
      NormalFormSound(t.checks[c.name], c.clause);
    }
  }

  lemma PartsStayReal(t: Table, u: Table, p: Part)
    requires Kept(t.checks, u.checks) && PartReal(t, p)
    ensures PartReal(u, p)
  {
    if p.Item? && p.check.Some? {
      var n :| n in t.checks && t.checks[n] == p.check.value;
      assert n in u.checks && u.checks[n] == p.check.value;
    }
  }

  /** Writing one more definition. */
  lemma WriteSound(t: Table, u: Table, p: Part, name: string)
    requires TextSound(t) && GoodPart(p) && u.text == Text(t.text.head, t.text.parts + [p]) && Listed(u)
    requires name !in t.checks && u.checks == WithClause(t.checks, name, ClauseOf(p))
    requires p.NamedCheck? ==> p.name == name
    ensures TextSound(u)
  {
    hide GoodPart, Quiet, Listed;
    assert Kept(t.checks, u.checks);
    assert ClauseOf(p).Some? ==> name in u.checks && u.checks[name] == ClauseOf(p).value;
    forall q | q in u.text.parts
      ensures PartReal(u, q) && GoodPart(q)
    {
      if q in t.text.parts {
        PartsStayReal(t, u, q);
      }
    }
    forall n | n in u.checks
      ensures InText(u, u.checks[n])
    {
      if n in t.checks {
        assert InText(t, t.checks[n]);
        var q :| q in t.text.parts && ClauseOf(q) == Some(t.checks[n]);
        assert q in u.text.parts;
      } else {
        assert p in u.text.parts;
      }
    }
  }

  lemma SameTextSound(t: Table, u: Table)
    requires TextSound(t) && u.text == t.text && u.checks == t.checks && Listed(u)
    ensures TextSound(u)
  {
    hide GoodText, Listed;
    forall p | p in u.text.parts
      ensures PartReal(u, p)
    {
      assert PartReal(t, p);
    }
    forall n | n in u.checks
      ensures InText(u, u.checks[n])
    {
      assert InText(t, t.checks[n]);
    }
  }

  lemma StaysListed(t: Table, d: Ddl)
    requires Listed(t) && SafeDdl(d) && Altered(t, d).Some?
    ensures Listed(Altered(t, d).value)
  {
    hide GoodPart, Quiet;
  }

  lemma AlteredSound(t: Table, d: Ddl)
    requires TextSound(t) && SafeDdl(d) && Altered(t, d).Some?
    ensures TextSound(Altered(t, d).value)
  {
    StaysListed(t, d);
    hide TextSound, GoodPart, Listed;
    var u := Altered(t, d).value;
    match d
    case AddColumn(_, _, _, name, part) =>
      if part.check.Some? {
        WriteSound(t, u, part, name);
      } else {
        UncheckedSound(t, u, part);
      }
    case AddInfo(_, name, _, _, written) =>
      if written.Some? {
        WriteSound(t, u, written.value, name);
      } else {
        SameTextSound(t, u);
      }
    case AddForeignKey(_, _, _, _) => SameTextSound(t, u);
  }

  lemma UncheckedSound(t: Table, u: Table, p: Part)
    requires TextSound(t) && GoodPart(p) && ClauseOf(p) == None && Listed(u)
    requires u.text == Text(t.text.head, t.text.parts + [p]) && u.checks == t.checks
    ensures TextSound(u)
  {
    hide GoodPart, Quiet, Listed;
    forall q | q in u.text.parts
      ensures PartReal(u, q) && GoodPart(q)
    {
      if q in t.text.parts {
        PartsStayReal(t, u, q);
      }
    }
    forall n | n in u.checks
      ensures InText(u, u.checks[n])
    {
      assert InText(t, t.checks[n]);
      var q :| q in t.text.parts && ClauseOf(q) == Some(t.checks[n]);
      assert q in u.text.parts;
    }
  }

  /** A statement that writes good text keeps every table sound, and one whose CHECK is known all CHECKs known. */
  lemma ExecuteSound(v: Vendor, db: Database, d: Ddl, u: Under, known: set<CheckOf>)
    requires SoundDb(v, db) && (v.Sqlite? ==> SafeDdl(d)) && Execute(db, d).Some?
    requires Told(v, db, u, known) && (v.Sqlite? && u.ItsName? ==> KnownDdl(d, known))
    ensures SoundDb(v, Execute(db, d).value) && Told(v, Execute(db, d).value, u, known)
  {
    hide TextSound, Altered, KnownTable, Clear, KnownDdl;
    if v.Sqlite? {
      if d.CreateTable? {
        NewSound(d.head);
        NewKnown(d.table, d.head, known);
      } else {
        AlteredSound(db[d.table], d);
        if u.ItsName? {
          AlteredKnown(db[d.table], d, known);
        }
      }
    }
  }

  lemma NewSound(head: string)
    requires Quiet(head)
    ensures TextSound(EmptyTable(head))
  {
  }

  lemma NewKnown(table: string, head: string, known: set<CheckOf>)
    ensures KnownTable(EmptyTable(head), table, known)
  {
  }

  lemma AlteredKnown(t: Table, d: Ddl, known: set<CheckOf>)
    requires KnownTable(t, d.table, known) && KnownDdl(d, known) && Altered(t, d).Some?
    ensures KnownTable(Altered(t, d).value, d.table, known)
  {
  }

  lemma {:induction false} ExecuteAllSound(v: Vendor, db: Database, ds: seq<Ddl>, u: Under, known: set<CheckOf>)
    requires SoundDb(v, db) && (v.Sqlite? ==> forall d :: d in ds ==> SafeDdl(d))
    requires Told(v, db, u, known) && (v.Sqlite? && u.ItsName? ==> forall d :: d in ds ==> KnownDdl(d, known))
    ensures SoundDb(v, ExecuteAll(db, ds).0) && Told(v, ExecuteAll(db, ds).0, u, known)
    decreases |ds|
  {
    hide SoundDb, SafeDdl, Execute, Told, KnownDdl;
    if ds != [] && Execute(db, ds[0]).Some? {
      assert ds[0] in ds;
      ExecuteSound(v, db, ds[0], u, known);
      ExecuteAllSound(v, Execute(db, ds[0]).value, ds[1..], u, known);
    }
  }

  lemma ApplySound(v: Vendor, db: Database, op: Op, budget: Option<nat>, u: Under, known: set<CheckOf>)
    requires SoundDb(v, db) && SafeOp(v, op) && Told(v, db, u, known) && KnownOp(v, op, u, known)
    ensures SoundDb(v, Apply(v, db, op, budget).0) && Told(v, Apply(v, db, op, budget).0, u, known)
  {
    hide SoundDb, SafeDdl, Statements, Exists, Accepts, Told, KnownDdl;
    var ds := Statements(v, op);
    var k := Affordable(|ds|, budget);
    assert forall d :: d in ds[..k] ==> d in ds;
    ExecuteAllSound(v, db, ds[..k], u, known);
  }

  /** An operation that completes, by creating or by accepting, leaves its object in the declared shape. */
  lemma DoneIsPresent(v: Vendor, db: Database, op: Op, budget: Option<nat>, u: Under, known: set<CheckOf>)
    requires Apply(v, db, op, budget).1 == Done && SoundDb(v, db) && SafeOp(v, op)
    requires Told(v, db, u, known) && KnownOp(v, op, u, known)
    ensures Present(v, Apply(v, db, op, budget).0, op, u)
  {
    hide Present, Statements, Truthful, Accepts, Exists, Effect, SoundDb, SafeOp, Told, KnownOp;
    if Exists(db, op) {
      OpTruthful(v, db, op, u, known);
      AcceptedIsPresent(v, db, op, u);
    } else {
      var ds := Statements(v, op);
      assert ds[..|ds|] == ds;
      AllEffects(db, ds);
      CreatedIsPresent(v, ExecuteAll(db, ds).0, op, u);
    }
  }

  // ---- Text that only looks like a CHECK ----

  lemma {:induction false} LaterReads(s: string, i: nat, c: string)
    requires i <= |s| && c in Checks(s, i)
    ensures c in Checks(s, 0)
  {
    hide ClauseAt;
    if i > 0 {
      assert c in ClauseAt(s, i - 1) + Checks(s, i);
      LaterReads(s, i - 1, c);
    }
  }

  /** Wherever ` CHECK (c)` stands in a text, in a literal or a clause as well, c is read as a CHECK. */
  lemma AnyCheckIsRead(pre: string, c: string, post: string)
    requires Readable(c)
    ensures c in Checks(Checked(pre + " ", c, post), 0)
  {
    hide Readable, Checks, CheckWord;
    var lead, tail := pre + " ", c + (")" + post);
    var s := Checked(lead, c, post);
    WordOpens(lead, "CHECK", " ", tail) by { assert CheckWord("CHECK", 0) by { KeywordIs(); } }
    var at, start := |lead|, |lead| + 6;
    assert s == (lead + ("CHECK" + " ")) + ("(" + tail);
    assert s[start..] == "(" + tail;
    OpensAlone(s, lead, "CHECK" + (" " + ("(" + tail)), at, start);
    FoundClause(s, at, start, c, post);
    assert c in [c] + Checks(s, start + 1);
    LaterReads(s, at, c);
  }

  lemma KeywordIs()
    ensures CheckWord("CHECK", 0)
  {
  }

  /** The same characters as a CHECK, inside something else. */
  function Mention(c: string): string {
    " " + ("CHECK" + (" " + ("(" + (c + ")"))))
  }

  lemma MentionIs(x: string, c: string, y: string)
    ensures x + (Mention(c) + y) == Checked(x + " ", c, y)
  {
    var inner := "CHECK" + (" " + ("(" + c));
    assert Mention(c) + y == " " + (inner + (")" + y));
    assert Checked(x + " ", c, y) == (x + " ") + (inner + (")" + y));
  }

  lemma TwinText(b: string, c: string, a: string)
    ensures PartText(Item(b + Mention(c), None, a)) == PartText(Item(b, Some(c), a))
  {
    MentionIs(b, c, a);
    assert (b + Mention(c)) + a == b + (Mention(c) + a);
  }

  lemma TwoParts(head: string, p: Part, q: Part)
    ensures Sql(Text(head, [p, q])) == head + ("(" + (PartText(p) + (", " + (PartText(q) + ")"))))
  {
    hide PartText;
    assert [p, q][1..] == [q] && [q][1..] == [];
    assert Rest(", ", [q]) == ", " + (PartText(q) + ")");
  }

  /**
    A column that exists without its CHECK is accepted and recorded when a literal elsewhere in
    the table's SQL reads like that CHECK: one whose text has CHECK and the clause in parentheses.
   */
  lemma FalseCheckAccepted(m: ModelDecl, f: FieldDecl, c: string, head: string, b: string, a: string)
    requires f.check == Some(c) && GoodClause(c) && Quiet(head) && Quiet(f.before) && Quiet(f.after)
    requires !f.decimal && !f.unique && !f.dbIndex && f.reference.None?
    requires Quiet(b) && Quiet(a) && Anonymous(b + " ")
    ensures var literal := Item(b + Mention(c), None, a);
      var t := Table(map[f.column := ColumnOf(Sqlite, f)], map[], map[], map[], map[],
                     Text(head, [Item(f.before, None, f.after), literal]));
      var db := map[m.table := t];
      Apply(Sqlite, db, AddField(m, f), None) == (db, Done) && !Present(Sqlite, db, AddField(m, f), AnyName)
  {
    hide Sql, Checks, GoodClause, Quiet, Anonymous, PartText, Lexes, Mention, NormaliseExpression;
    var p, q := Item(f.before, None, f.after), Item(b + Mention(c), None, a);
    var t := Table(map[f.column := ColumnOf(Sqlite, f)], map[], map[], map[], map[], Text(head, [p, q]));
    LiteralRead(head, p, b, c, a);
    GoodClauseLexes(c);
    assert ReadClauses(Sqlite, t) == {c};
    assert HasClause({c}, c);
    assert ValidField(Sqlite, t, m, f);
    assert !FieldPresent(Sqlite, t, m, f);
  }

  lemma LiteralRead(head: string, p: Part, b: string, c: string, a: string)
    requires GoodPart(p) && ClauseOf(p) == None && Quiet(head) && GoodPart(Item(b, Some(c), a))
    ensures Checks(Sql(Text(head, [p, Item(b + Mention(c), None, a)])), 0) == [c]
  {
    hide Sql, Checks, GoodPart, Quiet, PartText, Mention;
    var q, twin := Item(b + Mention(c), None, a), Item(b, Some(c), a);
    TwinText(b, c, a);
    TwoParts(head, p, q);
    TwoParts(head, p, twin);
    ChecksRead(Text(head, [p, twin]));
    assert [p, twin][1..] == [twin] && [twin][1..] == [];
    assert PartClauses([twin]) == [c];
  }

  lemma GoodClauseLexes(c: string)
    requires GoodClause(c)
    ensures Lexes(c)
  {
    LexStrip(c);
  }

  lemma {:induction false} PartPlace(sep: string, ps: seq<Part>, p: Part) returns (pre: string, post: string)
    requires p in ps
    ensures Rest(sep, ps) == pre + (PartText(p) + post)
    decreases |ps|
  {
    hide PartText;
    if p == ps[0] {
      pre, post := sep, Rest(", ", ps[1..]);
    } else {
      var before;
      before, post := PartPlace(", ", ps[1..], p);
      pre := sep + (PartText(ps[0]) + before);
      assert pre + (PartText(p) + post) == sep + (PartText(ps[0]) + (before + (PartText(p) + post)));
    }
  }

  /** A clause that mentions another CHECK makes that one be read too. */
  lemma MentionIsRead(t: Table, p: Part, x: string, c: string, y: string)
    requires p in t.text.parts && p.Item? && p.check == Some(x + (Mention(c) + y)) && Readable(c)
    ensures c in ReadClauses(Sqlite, t)
  {
    hide Readable, Checks, Mention, Rest;
    var pre, post := PartPlace("(", t.text.parts, p);
    var k, z := x + (Mention(c) + y), ")" + p.after;
    var g := (p.before + " ") + ("CHECK" + (" " + "("));
    OpenFirst(p.before + " ", k + z);
    AssociateClause(k, p.after);
    assert PartText(p) == g + (k + z);
    Nested(t.text.head, pre, g, x, Mention(c), y, z, post);
    MentionIs(t.text.head + (pre + (g + x)), c, y + (z + post));
    hide Sql, Checked, PartText;
    AnyCheckIsRead(t.text.head + (pre + (g + x)), c, y + (z + post));
  }

  lemma OpenFirst(lead: string, tail: string)
    ensures lead + ("CHECK" + (" " + ("(" + tail))) == (lead + ("CHECK" + (" " + "("))) + tail
  {
  }

  lemma AssociateClause(k: string, after: string)
    ensures k + (")" + after) == k + ")" + after
  {
  }

  lemma Nested(h: string, pre: string, g: string, x: string, m: string, y: string, z: string, post: string)
    ensures h + (pre + ((g + ((x + (m + y)) + z)) + post)) == (h + (pre + (g + x))) + (m + (y + (z + post)))
  {
    var tail := m + (y + (z + post));
    assert ((x + (m + y)) + z) + post == x + tail;
    assert (g + ((x + (m + y)) + z)) + post == g + (x + tail);
    assert pre + (g + (x + tail)) == (pre + (g + x)) + tail;
  }

  /** A table of which a clause is read that the model does not expect is refused. */
  lemma UnexpectedRefused(t: Table, m: ModelDecl, c: string)
    requires c in ReadClauses(Sqlite, t) && !IsExpected(ExpectedChecks(m), c)
    ensures !ValidModel(Sqlite, t, m)
  {
    hide ReadClauses, ValidField, ValidIndex, ValidConstraint, IsExpected, ExpectedChecks, Lexes, HasClause;
  }

  // ---- When accepting a field is sound ----

  ghost predicate FieldsSound(t: Table) {
    forall m: ModelDecl, f: FieldDecl :: ValidField(Sqlite, t, m, f) ==> FieldPresent(Sqlite, t, m, f)
  }

  predicate RealOne(t: Table, c: string) {
    exists n :: n in t.checks && SameClause(t.checks[n], c)
  }

  lemma SameClauseTrans(a: string, b: string, c: string)
    requires SameClause(a, b) && Lexes(c) && NormaliseExpression(b) == NormaliseExpression(c)
    ensures SameClause(a, c)
  {
    NormalFormSound(b, c);
  }

  lemma RealFieldSound(t: Table, m: ModelDecl, f: FieldDecl)
    requires AllLex(ReadClauses(Sqlite, t)) ==> forall c :: c in ReadClauses(Sqlite, t) ==> RealOne(t, c)
    requires ValidField(Sqlite, t, m, f)
    ensures FieldPresent(Sqlite, t, m, f)
  {
    FieldPresentIs(Sqlite, t, m, f);
    hide FieldPresent, ReadClauses, NormaliseExpression, SameClause, Lexes, HasImplicitIndex, HasUnique, KeyMatches;
    if f.check.Some? {
      var c :| c in ReadClauses(Sqlite, t) && NormaliseExpression(c) == NormaliseExpression(f.check.value);
      assert RealOne(t, c);
      var n :| n in t.checks && SameClause(t.checks[n], c);
      SameClauseTrans(t.checks[n], c, f.check.value);
      assert CheckNamed(t, n, f.check.value);
    }
  }

  lemma UnrealFieldAccepted(t: Table, column: string, c: string)
    requires AllLex(ReadClauses(Sqlite, t)) && c in ReadClauses(Sqlite, t) && !RealOne(t, c)
    requires column in t.columns && !(t.columns[column].primaryKey && t.columns[column].isNull)
    ensures !FieldsSound(t)
  {
    hide ReadClauses, NormaliseExpression, SameClause, Lexes;
    var k, m := t.columns[column], Model("", "", [], [], []);
    var f := Field(column, k.dbType, false, k.isNull, k.primaryKey, false, false, false, Some(c), None,
                   "", "", "", "", "");
    assert HasClause(ReadClauses(Sqlite, t), c);
    assert ValidField(Sqlite, t, m, f);
    assert !FieldPresent(Sqlite, t, m, f);
  }

  /**
    On SQLite the code accepts only fields that are there, whatever is declared, exactly when
    every clause it reads out of the table's SQL is a real one (or one of them does not lex).
   */
  lemma FieldAcceptanceSound(t: Table)
    requires exists n :: n in t.columns && !(t.columns[n].primaryKey && t.columns[n].isNull)
    ensures FieldsSound(t) <==>
      (AllLex(ReadClauses(Sqlite, t)) ==> forall c :: c in ReadClauses(Sqlite, t) ==> RealOne(t, c))
  {
    hide ReadClauses, AllLex, ValidField, FieldPresent, RealOne;
    if AllLex(ReadClauses(Sqlite, t)) && exists c :: c in ReadClauses(Sqlite, t) && !RealOne(t, c) {
      var c :| c in ReadClauses(Sqlite, t) && !RealOne(t, c);
      var n :| n in t.columns && !(t.columns[n].primaryKey && t.columns[n].isNull);
      UnrealFieldAccepted(t, n, c);
    } else {
      forall m: ModelDecl, f: FieldDecl | ValidField(Sqlite, t, m, f)
        ensures FieldPresent(Sqlite, t, m, f)
      {
        RealFieldSound(t, m, f);
      }
    }
  }

  // ---- When accepting a named CHECK is sound ----

  ghost predicate NamedSound(t: Table, n: string) {
    forall c: ConstraintDecl :: c.CheckDecl? && c.name == n && ValidConstraint(Sqlite, t, c)
      ==> ConstraintPresent(Sqlite, t, c, ItsName)
  }

  /** The clause read under the name is that of the CHECK of this name, or does not lex. */
  ghost predicate ReadsOwn(t: Table, n: string) {
    ReadNamed(Sqlite, t, n).Some? && Lexes(ReadNamed(Sqlite, t, n).value)
    ==> CheckNamed(t, n, ReadNamed(Sqlite, t, n).value)
  }

  lemma OwnNamedSound(t: Table, n: string, c: ConstraintDecl)
    requires ReadsOwn(t, n) && c.CheckDecl? && c.name == n && ValidConstraint(Sqlite, t, c)
    ensures ConstraintPresent(Sqlite, t, c, ItsName)
  {
    hide ReadNamed, NormaliseExpression, SameClause;
    if c.sql.Some? {
      SameClauseTrans(t.checks[n], ReadNamed(Sqlite, t, n).value, c.clause);
    }
  }

  lemma OtherNamedAccepted(t: Table, n: string)
    requires n in t.infos && t.infos[n].check && !ReadsOwn(t, n)
    ensures !NamedSound(t, n)
  {
    hide ReadNamed, NormaliseExpression, SameClause;
    var c := CheckDecl(n, Some(""), ReadNamed(Sqlite, t, n).value);
    assert ReadAs(Sqlite, t, n, c.clause);
    assert ValidConstraint(Sqlite, t, c) && !ConstraintPresent(Sqlite, t, c, ItsName);
  }

  /**
    Of a CHECK that SQLite lists under a name the code accepts only declarations that are right,
    exactly when the clause it reads under this name is that of the CHECK of this name (or does not lex).
   */
  lemma NamedAcceptanceSound(t: Table, n: string)
    requires n in t.infos && t.infos[n].check
    ensures NamedSound(t, n) <==> ReadsOwn(t, n)
  {
    hide ReadsOwn, ValidConstraint, ConstraintPresent;
    if ReadsOwn(t, n) {
      forall c: ConstraintDecl | c.CheckDecl? && c.name == n && ValidConstraint(Sqlite, t, c)
        ensures ConstraintPresent(Sqlite, t, c, ItsName)
      {
        OwnNamedSound(t, n, c);
      }
    } else {
      OtherNamedAccepted(t, n);
    }
  }

  /** A table with two CHECKs, the first of which stands in its text first. */
  function TwoChecks(x: string, a: string, n: string, c: string): Table {
    Table(map[], map[x := CHECK_INFO, n := CHECK_INFO], map[], map[x := a, n := c], map[],
          Text("", [NamedCheck(x, a), NamedCheck(n, c)]))
  }

  lemma TwoChecksRead(x: string, a: string, n: string, c: string)
    requires IsIdentifier(x) && IsIdentifier(n) && GoodClause(a) && GoodClause(c)
    requires x != n && Lower(x) == Lower(n)
    ensures var t := TwoChecks(x, a, n, c); TextSound(t) && ReadNamed(Sqlite, t, n) == Some(a)
  {
    hide GoodClause, Lower, ReadNamed, IsIdentifier;
    var t, p, q := TwoChecks(x, a, n, c), NamedCheck(x, a), NamedCheck(n, c);
    EmptyQuiet();
    assert p in t.text.parts && q in t.text.parts;
    assert PartReal(t, p) && PartReal(t, q) && InText(t, a) && InText(t, c);
    assert TextSound(t);
    TextTruthful(t);
    assert Names(p, n) && FirstNamed(t.text.parts, n) == Some(a);
  }

  /**
    Of two CHECKs whose names differ in case only the first one is read under either name: the
    second is accepted with the clause of the first, and refused with its own.
   */
  lemma CaseMistaken(m: ModelDecl, x: string, a: string, n: string, b: string, c: string)
    requires IsIdentifier(x) && IsIdentifier(n) && GoodClause(a) && GoodClause(b) && GoodClause(c)
    requires x != n && Lower(x) == Lower(n) && SameClause(a, b) && !SameClause(c, b)
    ensures var db := map[m.table := TwoChecks(x, a, n, c)];
      var first, own := AddConstraint(m, CheckDecl(n, Some(""), b)), AddConstraint(m, CheckDecl(n, Some(""), c));
      && SoundDb(Sqlite, db)
      && Apply(Sqlite, db, first, None) == (db, Done) && !Present(Sqlite, db, first, ItsName)
      && Apply(Sqlite, db, own, None) == (db, Refused) && Present(Sqlite, db, own, ItsName)
  {
    TwoChecksRead(x, a, n, c);
    GoodClauseLexes(b);
    GoodClauseLexes(c);
    Apart(a, b, c);
    ItsOwn(c);
    var t := TwoChecks(x, a, n, c);
    CheckVerdict(m, t, n, b);
    CheckVerdict(m, t, n, c);
    hide GoodClause, Lower, ReadNamed, IsIdentifier, NormaliseExpression, SameClause, Lexes, TextSound, Apply, Present;
  }

  /** A CHECK that is listed is accepted by what is read under its name, and is there by what it is. */
  lemma CheckVerdict(m: ModelDecl, t: Table, n: string, b: string)
    requires n in t.infos && t.infos[n].check
    ensures var db, op := map[m.table := t], AddConstraint(m, CheckDecl(n, Some(""), b));
      && Apply(Sqlite, db, op, None) == (db, if Lexes(b) && ReadAs(Sqlite, t, n, b) then Done else Refused)
      && (Present(Sqlite, db, op, ItsName) <==> CheckNamed(t, n, b))
  {
    hide ReadAs, Lexes, CheckNamed;
  }

  lemma ItsOwn(c: string)
    ensures SameClause(c, c)
  {
  }

  lemma Apart(a: string, b: string, c: string)
    requires Lexes(b) && Lexes(c) && SameClause(a, b) && !SameClause(c, b)
    ensures NormaliseExpression(a) == NormaliseExpression(b) && NormaliseExpression(a) != NormaliseExpression(c)
  {
    SameExpressionForm(a, b);
    SameExpressionForm(c, b);
    hide NormaliseExpression;
  }

  /** The characters of a named constraint, inside something else. */
  function NamedMention(n: string, c: string): string {
    LeadText(LeadOf(n)) + ("CHECK" + (" " + ("(" + (c + ")"))))
  }

  lemma NamedMentionRead(pre: string, n: string, c: string, post: string)
    requires Readable(c) && IsIdentifier(n)
    requires forall k :: 0 <= k < |pre| ==> !NamedMatch(pre + (NamedMention(n, c) + post), k, n)
    ensures NamedFrom(pre + (NamedMention(n, c) + post), 0, n) == Some(c)
  {
    LeadIsGood(n);
    KeywordIs();
    NamedMentionIs(pre, n, c, post);
    hide NamedMatch, NamedFrom, Readable, LeadText, IsIdentifier, GoodLead, CheckWord, Lower, NamedMention;
    NamedReadBack(pre, LeadOf(n), "CHECK", " ", c, post, n);
  }

  lemma NamedMentionIs(pre: string, n: string, c: string, post: string)
    ensures pre + (NamedMention(n, c) + post) ==
      (pre + LeadText(LeadOf(n))) + ("CHECK" + (" " + ("(" + (c + (")" + post)))))
  {
    hide LeadText;
    var lead, body := LeadText(LeadOf(n)), "CHECK" + (" " + ("(" + (c + ")")));
    assert body + post == "CHECK" + (" " + ("(" + (c + (")" + post))));
    assert pre + ((lead + body) + post) == (pre + lead) + (body + post);
  }

  /**
    A CHECK that exists under its name is accepted with another clause when a literal in front of
    it in the table's SQL reads like a constraint of this name with that clause.
   */
  lemma LiteralMistaken(m: ModelDecl, t: Table, b: string, n: string, a: string, after: string, rest: seq<Part>)
    requires t.text.parts == [Item(b + NamedMention(n, a), None, after)] + rest
    requires n in t.infos && t.infos[n].check && IsIdentifier(n) && Readable(a) && Lexes(a) && !CheckNamed(t, n, a)
    requires forall k :: 0 <= k < |t.text.head + "(" + b| ==> !NamedMatch(Sql(t.text), k, n)
    ensures var db, op := map[m.table := t], AddConstraint(m, CheckDecl(n, Some(""), a));
      Apply(Sqlite, db, op, None) == (db, Done) && !Present(Sqlite, db, op, ItsName)
  {
    CheckVerdict(m, t, n, a);
    hide NamedMatch, NamedFrom, Readable, IsIdentifier, NormaliseExpression, SameClause, Apply, Present;
    MentionFirst(t.text, b, NamedMention(n, a), after, rest);
    NamedMentionRead(t.text.head + "(" + b, n, a, after + Rest(", ", rest));
    hide Sql;
  }

  lemma MentionFirst(x: Text, b: string, mention: string, after: string, rest: seq<Part>)
    requires x.parts == [Item(b + mention, None, after)] + rest
    ensures Sql(x) == (x.head + "(" + b) + (mention + (after + Rest(", ", rest)))
  {
    assert x.parts[1..] == rest && x.parts[0] == Item(b + mention, None, after);
    RestIs("(", x.parts);
    hide Rest;
    assert PartText(x.parts[0]) == (b + mention) + after;
    MentionInside(x.head, b, mention, after, Rest(", ", rest));
  }

  lemma MentionInside(h: string, b: string, mention: string, after: string, later: string)
    ensures h + ("(" + (((b + mention) + after) + later)) == (h + "(" + b) + (mention + (after + later))
  {
    assert ((b + mention) + after) + later == b + (mention + (after + later));
  }
}
