/**
  A migration that is stopped inside one of its operations and then attempted again from the start
  (bfg2/bfg/core/migration_operations.py, lines 1-6 and 574-637).  `StoppedExact` says when the
  second attempt completes, from what the first one ran.
 */
module SchemaStopped {
  import opened Wrappers
  import opened Schema
  import opened SchemaRetry
  import opened SchemaText
  import opened SchemaRuns
  import opened SchemaReapply
  import opened SchemaInterrupt

  // ---- What a stopped attempt has run ----

  /** How many operations it validated, finished or began. */
  function Tries(v: Vendor, db: Database, ops: seq<Op>, budget: nat): (i: nat)
    ensures i <= |ops|
    decreases |ops|
  {
    if ops == [] then 0
    else if Exists(db, ops[0]) then 1 + Tries(v, db, ops[1..], budget)
    else
      var n := |Statements(v, ops[0])|;
      if budget < n then if budget == 0 then 0 else 1
      else 1 + Tries(v, ExecuteAll(db, Statements(v, ops[0])).0, ops[1..], budget - n)
  }

  /** The statements it executed. */
  function Ran(v: Vendor, db: Database, ops: seq<Op>, budget: nat): seq<Ddl>
    decreases |ops|
  {
    if ops == [] then []
    else if Exists(db, ops[0]) then Ran(v, db, ops[1..], budget)
    else
      var ds := Statements(v, ops[0]);
      if budget < |ds| then ds[..budget]
      else ds + Ran(v, ExecuteAll(db, ds).0, ops[1..], budget - |ds|)
  }

  /** The statements of the operation it stopped in that did not run. */
  function Left(v: Vendor, db: Database, ops: seq<Op>, budget: nat): seq<Ddl>
    decreases |ops|
  {
    if ops == [] then []
    else if Exists(db, ops[0]) then Left(v, db, ops[1..], budget)
    else
      var ds := Statements(v, ops[0]);
      if budget < |ds| then if budget == 0 then [] else ds[budget..]
      else Left(v, ExecuteAll(db, ds).0, ops[1..], budget - |ds|)
  }

  lemma ApplyCreates(v: Vendor, db: Database, op: Op, budget: nat)
    requires !Exists(db, op) && ExecuteAll(db, Statements(v, op)).1
    ensures var ds := Statements(v, op);
      && ExecuteAll(db, ds[..Affordable(|ds|, Some(budget))]).1
      && Apply(v, db, op, None) == (ExecuteAll(db, ds).0, Done)
      && Apply(v, db, op, Some(budget)) ==
        if budget < |ds| then (ExecuteAll(db, ds[..budget]).0, Interrupted) else (ExecuteAll(db, ds).0, Done)
  {
    hide ExecuteAll, Statements, Exists;
    var ds := Statements(v, op);
    var k := Affordable(|ds|, Some(budget));
    assert ds == ds[..k] + ds[k..] && ds[..|ds|] == ds;
    FrontExecutes(db, ds[..k], ds[k..]);
  }

  /** A complete attempt executes or accepts its first operation, and completes the others. */
  lemma FirstOfDone(v: Vendor, db: Database, ops: seq<Op>)
    requires ops != [] && Attempt(v, db, ops, None).1 == Done
    ensures Exists(db, ops[0]) ==> Accepts(v, db, ops[0]) && Apply(v, db, ops[0], None) == (db, Done)
    ensures !Exists(db, ops[0]) ==>
      && ExecuteAll(db, Statements(v, ops[0])).1
      && Apply(v, db, ops[0], None) == (ExecuteAll(db, Statements(v, ops[0])).0, Done)
    ensures Attempt(v, Apply(v, db, ops[0], None).0, ops[1..], None) == Attempt(v, db, ops, None)
  {
    hide ExecuteAll, Statements, Exists, Accepts;
    var ds := Statements(v, ops[0]);
    assert ds[..|ds|] == ds;
  }

  /** The stopped attempt is interrupted with what it ran, and the rest of the last operation would run as well. */
  lemma {:induction false} RanExact(v: Vendor, db: Database, ops: seq<Op>, budget: nat)
    requires Attempt(v, db, ops, None).1 == Done
    ensures var ran, left := Ran(v, db, ops, budget), Left(v, db, ops, budget);
      && ExecuteAll(db, ran + left).1
      && Attempt(v, db, ops, Some(budget)) == (ExecuteAll(db, ran).0, Interrupted)
    decreases |ops|
  {
    hide ExecuteAll, Statements, Exists, Accepts, Apply;
    NothingExecuted(db);
    if ops == [] {
      assert Ran(v, db, ops, budget) + Left(v, db, ops, budget) == [];
    } else {
      FirstOfDone(v, db, ops);
      var ds, next := Statements(v, ops[0]), Apply(v, db, ops[0], None).0;
      if Exists(db, ops[0]) {
        ApplyExisting(v, db, ops[0], Some(budget));
        RanExact(v, db, ops[1..], budget);
      } else {
        ApplyCreates(v, db, ops[0], budget);
        if budget < |ds| {
          assert ds == ds[..budget] + ds[budget..];
          FrontExecutes(db, ds[..budget], ds[budget..]);
          assert ds[..budget] + [] == ds[..budget];
        } else {
          var ran, left := Ran(v, next, ops[1..], budget - |ds|), Left(v, next, ops[1..], budget - |ds|);
          RanExact(v, next, ops[1..], budget - |ds|);
          assert (ds + ran) + left == ds + (ran + left);
          ExecuteBoth(db, ds, ran + left);
          ExecuteBoth(db, ds, ran);
        }
      }
    }
  }

  lemma {:induction false} RanIsStated(v: Vendor, db: Database, ops: seq<Op>, budget: nat, d: Ddl)
    requires d in Ran(v, db, ops, budget)
    ensures exists op :: op in ops && d in Statements(v, op)
    decreases |ops|
  {
    hide ExecuteAll, Statements, Exists;
    var ds := Statements(v, ops[0]);
    assert ops[0] in ops && forall op :: op in ops[1..] ==> op in ops;
    if Exists(db, ops[0]) {
      RanIsStated(v, db, ops[1..], budget, d);
    } else if d !in ds {
      RanIsStated(v, ExecuteAll(db, ds).0, ops[1..], budget - |ds|, d);
    }
  }

  lemma MetLater(v: Vendor, db: Database, ds: seq<Ddl>, ran: seq<Ddl>, op: Op)
    requires ExecuteAll(db, ds).1 && Met(v, ExecuteAll(db, ds).0, ran, op)
    ensures Met(v, db, ds + ran, op)
  {
    hide Accepted, ExecuteAll;
    var next := ExecuteAll(db, ds).0;
    var k :| 0 <= k <= |ran| && Accepted(v, ExecuteAll(next, ran[..k]).0, op);
    ExecuteBoth(db, ds, ran[..k]);
    assert (ds + ran)[..|ds| + k] == ds + ran[..k];
  }

  lemma TriedLater(v: Vendor, db: Database, ds: seq<Ddl>, ran: seq<Ddl>, left: seq<Ddl>, op: Op)
    requires ExecuteAll(db, ds).1 && Tried(v, ExecuteAll(db, ds).0, ran, left, op)
    ensures Tried(v, db, ds + ran, left, op)
  {
    hide ExecuteAll, Statements, Met;
    if Met(v, ExecuteAll(db, ds).0, ran, op) {
      MetLater(v, db, ds, ran, op);
    }
  }

  lemma MetAtOnce(v: Vendor, db: Database, ran: seq<Ddl>, op: Op)
    requires Accepted(v, db, op)
    ensures Met(v, db, ran, op)
  {
    hide Accepted;
    NothingExecuted(db);
    hide ExecuteAll;
    assert ran[..0] == [];
  }

  lemma BegunWith(v: Vendor, db: Database, op: Op, k: nat, more: seq<Ddl>, left: seq<Ddl>)
    requires 0 < k <= |Statements(v, op)|
    requires Statements(v, op)[k..] == left || k == |Statements(v, op)|
    ensures Tried(v, db, Statements(v, op)[..k] + more, left, op)
  {
    hide Statements, Met;
    var ds := Statements(v, op);
    assert ds == ds[..k] + ds[k..];
    assert (ds[..k] + more)[0] == ds[0];
  }

  lemma Something(v: Vendor, db: Database, op: Op)
    requires !Exists(db, op)
    ensures Statements(v, op) != []
  {
  }

  lemma {:induction false} AllTried(v: Vendor, db: Database, ops: seq<Op>, budget: nat)
    requires Attempt(v, db, ops, None).1 == Done
    ensures forall op :: op in ops[..Tries(v, db, ops, budget)] ==>
      Tried(v, db, Ran(v, db, ops, budget), Left(v, db, ops, budget), op)
    decreases |ops|
  {
    hide ExecuteAll, Statements, Exists, Accepts, Apply, Tried, Met, Attempt;
    if ops != [] {
      FirstOfDone(v, db, ops);
      var ds, next, i := Statements(v, ops[0]), Apply(v, db, ops[0], None).0, Tries(v, db, ops, budget);
      var ran, left := Ran(v, db, ops, budget), Left(v, db, ops, budget);
      assert i > 0 ==> ops[..i] == [ops[0]] + ops[1..][..i - 1];
      if Exists(db, ops[0]) {
        MetAtOnce(v, db, ran, ops[0]);
        MetIsTried(v, db, ran, left, ops[0]);
        AllTried(v, db, ops[1..], budget);
      } else {
        Something(v, db, ops[0]);
        if budget < |ds| {
          assert ds[..budget] + [] == ds[..budget];
          if budget > 0 {
            BegunWith(v, db, ops[0], budget, [], left);
          }
        } else {
          var more := Ran(v, next, ops[1..], budget - |ds|);
          assert ds[..|ds|] == ds;
          BegunWith(v, db, ops[0], |ds|, more, left);
          AllTried(v, next, ops[1..], budget - |ds|);
          forall op | op in ops[1..][..i - 1]
            ensures Tried(v, db, ran, left, op)
          {
            TriedLater(v, db, ds, more, left, op);
          }
        }
      }
    }
  }

  lemma MetIsTried(v: Vendor, db: Database, ran: seq<Ddl>, left: seq<Ddl>, op: Op)
    requires Met(v, db, ran, op)
    ensures Tried(v, db, ran, left, op)
  {
  }

  // ---- The operations that had not been tried ----

  /** Everything of a is in b, by name, and the tables are the same. */
  ghost predicate Below(a: Database, b: Database) {
    a.Keys == b.Keys && forall t :: t in a ==> TableBelow(a[t], b[t])
  }

  predicate TableBelow(a: Table, b: Table) {
    && a.columns.Keys <= b.columns.Keys && a.infos.Keys <= b.infos.Keys && a.foreignKeys.Keys <= b.foreignKeys.Keys
    && a.checks.Keys <= b.checks.Keys && a.definitions.Keys <= b.definitions.Keys
  }

  lemma AlteredBelow(a: Table, b: Table, d: Ddl)
    requires TableBelow(a, b) && Altered(b, d).Some?
    ensures Altered(a, d).Some? && TableBelow(Altered(a, d).value, Altered(b, d).value)
  {
  }

  lemma ExecuteBelow(a: Database, b: Database, d: Ddl)
    requires Below(a, b) && Execute(b, d).Some?
    ensures Execute(a, d).Some? && Below(Execute(a, d).value, Execute(b, d).value)
  {
    hide Altered, TableBelow;
    if d.CreateTable? {
      NewBelow(d.head);
    } else {
      AlteredBelow(a[d.table], b[d.table], d);
    }
  }

  lemma NewBelow(head: string)
    ensures TableBelow(EmptyTable(head), EmptyTable(head))
  {
  }

  lemma {:induction false} ExecuteAllBelow(a: Database, b: Database, ds: seq<Ddl>)
    requires Below(a, b) && ExecuteAll(b, ds).1
    ensures ExecuteAll(a, ds).1 && Below(ExecuteAll(a, ds).0, ExecuteAll(b, ds).0)
    decreases |ds|
  {
    hide Execute, Below;
    if ds != [] {
      ExecuteBelow(a, b, ds[0]);
      ExecuteAllBelow(Execute(a, ds[0]).value, Execute(b, ds[0]).value, ds[1..]);
    }
  }

  lemma ExistsBelow(a: Database, b: Database, op: Op)
    requires Below(a, b) && Exists(a, op)
    ensures Exists(b, op)
  {
    assert op.model.table in a ==> TableBelow(a[op.model.table], b[op.model.table]);
  }

  /** Every operation creates its object: none is there when its turn comes. */
  predicate Creates(v: Vendor, db: Database, ops: seq<Op>)
    decreases |ops|
  {
    ops == [] || (!Exists(db, ops[0]) && Creates(v, ExecuteAll(db, Statements(v, ops[0])).0, ops[1..]))
  }

  /** What can be created where there is more can be created where there is less. */
  lemma {:induction false} CreatesBelow(v: Vendor, a: Database, b: Database, ops: seq<Op>)
    requires Below(a, b) && Creates(v, b, ops) && Attempt(v, b, ops, None).1 == Done
    ensures Attempt(v, a, ops, None).1 == Done
    decreases |ops|
  {
    hide ExecuteAll, Statements, Exists, Below, Apply;
    if ops != [] {
      FirstOfDone(v, b, ops);
      var ds := Statements(v, ops[0]);
      ExecuteAllBelow(a, b, ds);
      if Exists(a, ops[0]) {
        ExistsBelow(a, b, ops[0]);
      } else {
        ApplyCreates(v, a, ops[0], 0);
        CreatesBelow(v, ExecuteAll(a, ds).0, ExecuteAll(b, ds).0, ops[1..]);
        assert StatementsRun(v, a, ops[0]) >= 0 && Remaining(None, StatementsRun(v, a, ops[0])) == None;
      }
    }
  }

  lemma {:induction false} LaterBelow(a: Database, ds: seq<Ddl>)
    requires ExecuteAll(a, ds).1 && forall d :: d in ds ==> !d.CreateTable?
    ensures Below(a, ExecuteAll(a, ds).0)
    decreases |ds|
  {
    ExecuteAllExtends(a, ds);
    SameTables(a, ds);
    hide ExecuteAll;
    forall t | t in a
      ensures TableBelow(a[t], ExecuteAll(a, ds).0[t])
    {
      assert TableKept(a[t], ExecuteAll(a, ds).0[t]);
    }
  }

  lemma {:induction false} SameTables(a: Database, ds: seq<Ddl>)
    requires ExecuteAll(a, ds).1 && forall d :: d in ds ==> !d.CreateTable?
    ensures ExecuteAll(a, ds).0.Keys == a.Keys
    decreases |ds|
  {
    if ds != [] {
      var next := Execute(a, ds[0]).value;
      assert ds[0] in ds && next.Keys == a.Keys;
      hide Execute;
      SameTables(next, ds[1..]);
    }
  }

  lemma OneTable(v: Vendor, op: Op, k: nat, d: Ddl)
    requires 0 < k <= |Statements(v, op)| && d in Statements(v, op)[k..]
    ensures !d.CreateTable?
  {
    hide FieldStatements, ConstraintStatements;
    var ds := Statements(v, op);
    assert d in ds[1..];
    match op
    case CreateModel(m) =>
      assert ds[1..] == AllFields(v, m.table, m.fields) + IndexStatements(m.table, m.indexes)
                        + AllConstraints(m.table, m.constraints);
      if d in AllFields(v, m.table, m.fields) {
        var i := FieldOf(v, m.table, m.fields, d);
        FieldShape(v, m.table, m.fields[i], d);
      } else {
        OwnStatements(m, d);
      }
    case AddField(m, f) => FieldShape(v, m.table, f, d);
    case AddIndex(_, _) =>
    case AddConstraint(m, c) => ConstraintShape(m.table, c, d);
  }

  lemma {:induction false} LeftMakesNoTable(v: Vendor, db: Database, ops: seq<Op>, budget: nat)
    ensures forall d :: d in Left(v, db, ops, budget) ==> !d.CreateTable?
    decreases |ops|
  {
    hide ExecuteAll, Statements, Exists;
    if ops != [] {
      var ds := Statements(v, ops[0]);
      if Exists(db, ops[0]) {
        LeftMakesNoTable(v, db, ops[1..], budget);
      } else if budget < |ds| {
        forall d | d in ds[budget..] && budget > 0
          ensures !d.CreateTable?
        {
          OneTable(v, ops[0], budget, d);
        }
      } else {
        LeftMakesNoTable(v, ExecuteAll(db, ds).0, ops[1..], budget - |ds|);
      }
    }
  }

  /** The same when the attempt stops in its first operation. */
  lemma StoppedHere(v: Vendor, db: Database, ops: seq<Op>, budget: nat)
    requires ops != [] && !Exists(db, ops[0]) && budget < |Statements(v, ops[0])|
    requires Attempt(v, db, ops, None).1 == Done
    ensures var reached := ExecuteAll(db, Ran(v, db, ops, budget) + Left(v, db, ops, budget)).0;
      Attempt(v, reached, ops[Tries(v, db, ops, budget)..], None).1 == Done
  {
    hide ExecuteAll, Statements, Exists, Accepts, Apply, Attempt;
    NothingExecuted(db);
    FirstOfDone(v, db, ops);
    var ds, ran, left := Statements(v, ops[0]), Ran(v, db, ops, budget), Left(v, db, ops, budget);
    if budget == 0 {
      assert ran + left == [] && ops[0..] == ops;
    } else {
      assert ran + left == ds;
    }
  }

  /** With what was left the database is where the complete attempt was at that operation, and it went on from there. */
  lemma {:induction false} WithTheRest(v: Vendor, db: Database, ops: seq<Op>, budget: nat)
    requires Attempt(v, db, ops, None).1 == Done
    ensures var reached := ExecuteAll(db, Ran(v, db, ops, budget) + Left(v, db, ops, budget)).0;
      Attempt(v, reached, ops[Tries(v, db, ops, budget)..], None).1 == Done
    decreases |ops|
  {
    hide ExecuteAll, Statements, Exists, Accepts, Apply, Attempt;
    if ops == [] {
      NothingExecuted(db);
      assert Ran(v, db, ops, budget) + Left(v, db, ops, budget) == [] && ops[0..] == ops;
    } else {
      FirstOfDone(v, db, ops);
      var ds, next := Statements(v, ops[0]), Apply(v, db, ops[0], None).0;
      if Exists(db, ops[0]) {
        assert ops[Tries(v, db, ops, budget)..] == ops[1..][Tries(v, db, ops[1..], budget)..];
        WithTheRest(v, db, ops[1..], budget);
      } else if budget < |ds| {
        StoppedHere(v, db, ops, budget);
      } else {
        var more := budget - |ds|;
        var ran, left := Ran(v, next, ops[1..], more), Left(v, next, ops[1..], more);
        WithTheRest(v, next, ops[1..], more);
        assert (ds + ran) + left == ds + (ran + left);
        RanExact(v, next, ops[1..], more);
        ExecuteBoth(db, ds, ran + left);
        assert ops[Tries(v, db, ops, budget)..] == ops[1..][Tries(v, next, ops[1..], more)..];
      }
    }
  }

  /**
    A migration that would complete, stopped after any number of statements, in the middle of an
    operation or between two, and attempted again from the start: if every operation tried is
    accomplished by what ran, the second attempt takes up after these, and completes when the
    others create their objects.  Otherwise it is refused, and every further attempt as well.
   */
  lemma StoppedExact(v: Vendor, db: Database, ops: seq<Op>, budget: nat, next: Option<nat>)
    requires Attempt(v, db, ops, None).1 == Done && SoundDb(v, db) && SafeOps(v, ops)
    ensures var (after, outcome) := Attempt(v, db, ops, Some(budget));
      var ran, i := Ran(v, db, ops, budget), Tries(v, db, ops, budget);
      && outcome == Interrupted && ExecuteAll(db, ran) == (after, true)
      && Attempt(v, after, ops, next) ==
        if forall op :: op in ops[..i] ==> Accomplished(v, db, ran, op) then Attempt(v, after, ops[i..], next)
        else (after, Refused)
  {
    hide ExecuteAll, Statements, SoundDb, SafeOp, Attempt, Tried, Accomplished, SafeDdl;
    var ran, left, i := Ran(v, db, ops, budget), Left(v, db, ops, budget), Tries(v, db, ops, budget);
    RanExact(v, db, ops, budget);
    FrontExecutes(db, ran, left);
    AllTried(v, db, ops, budget);
    forall d | d in ran && v.Sqlite?
      ensures SafeDdl(d)
    {
      RanIsStated(v, db, ops, budget, d);
      var op :| op in ops && d in Statements(v, op);
      StatementSafe(v, op, d);
    }
    assert SafeOps(v, ops[..i]);
    MigrationInterruptedExact(v, db, ops, i, ran, left, next);
  }

  lemma StatementSafe(v: Vendor, op: Op, d: Ddl)
    requires v.Sqlite? && SafeOp(v, op) && d in Statements(v, op)
    ensures SafeDdl(d)
  {
    hide Statements, SafeDdl;
  }

  /**
    When the operations that were not tried create their objects, the second attempt completes if
    and only if every operation tried is accomplished by what ran.
   */
  lemma StoppedCompletes(v: Vendor, db: Database, ops: seq<Op>, budget: nat)
    requires Attempt(v, db, ops, None).1 == Done && SoundDb(v, db) && SafeOps(v, ops)
    requires var reached := ExecuteAll(db, Ran(v, db, ops, budget) + Left(v, db, ops, budget)).0;
      Creates(v, reached, ops[Tries(v, db, ops, budget)..])
    ensures Attempt(v, Attempt(v, db, ops, Some(budget)).0, ops, None).1 == Done
      <==> forall op :: op in ops[..Tries(v, db, ops, budget)] ==> Accomplished(v, db, Ran(v, db, ops, budget), op)
  {
    hide ExecuteAll, Statements, SoundDb, SafeOps, Attempt, Accomplished, Below, Creates, Tries, Ran, Left;
    var ran, left, i := Ran(v, db, ops, budget), Left(v, db, ops, budget), Tries(v, db, ops, budget);
    var after := ExecuteAll(db, ran).0;
    StoppedExact(v, db, ops, budget, None);
    RanExact(v, db, ops, budget);
    WithTheRest(v, db, ops, budget);
    FrontExecutes(db, ran, left);
    LeftMakesNoTable(v, db, ops, budget);
    LaterBelow(after, left);
    CreatesBelow(v, after, ExecuteAll(db, ran + left).0, ops[i..]);
  }
}
