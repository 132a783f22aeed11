/**
  Nested AND/OR conditions (bfg2/bfg/core/condition_engine.py, lines 77-214).  `Evaluate` keeps
  the source's order: an empty rule list is true before its operator is looked at, and a rule
  that errors stops the evaluation only if it is reached.  `Simplify` flattens nested groups and
  drops empty ones; `SimplifyPreserves` is that it never changes the three-way outcome.
 */
module ConditionEngine {
  import opened Wrappers

  datatype Outcome = Yes | No | Error

  /** What reading a field from the context gives; a field provider may raise. */
  datatype Lookup = Missing | Found(value: string) | Raises

  /** The context behind the fields, and the comparison of two present values. */
  datatype Context = Context(read: string -> Lookup, compare: (string, string, string) -> Outcome)

  datatype Rule = Leaf(field: string, op: string, expected: string) | Nested(group: Group)

  datatype Group = Group(operator: string, rules: seq<Rule>)

  predicate IsComparison(op: string) {
    op == "==" || op == "!=" || op == ">" || op == ">=" || op == "<" || op == "<="
    || op == "in" || op == "not_in" || op == "contains"
  }

  /** A missing value is never matched, even by an unknown operator. */
  function EvaluateLeaf(c: Context, field: string, op: string, expected: string): Outcome {
    if field == "" || op == "" then Error
    else
      match c.read(field)
      case Raises => Error
      case Missing => No
      case Found(value) => if IsComparison(op) then c.compare(value, op, expected) else Error
  }

  function EvaluateRule(c: Context, r: Rule): Outcome
    decreases r, 0
  {
    match r
    case Nested(g) => Evaluate(c, g)
    case Leaf(field, op, expected) => EvaluateLeaf(c, field, op, expected)
  }

  function Evaluate(c: Context, g: Group): Outcome
    decreases g, 0
  {
    if g.rules == [] then Yes
    else if g.operator == "AND" then All(c, g.rules)
    else if g.operator == "OR" then Any(c, g.rules)
    else Error
  }

  function All(c: Context, rs: seq<Rule>): Outcome
    decreases rs, 1
  {
    if rs == [] then Yes
    else match EvaluateRule(c, rs[0])
      case Yes => All(c, rs[1..])
      case o => o
  }

  function Any(c: Context, rs: seq<Rule>): Outcome
    decreases rs, 1
  {
    if rs == [] then No
    else match EvaluateRule(c, rs[0])
      case No => Any(c, rs[1..])
      case o => o
  }

  /** No condition at all always matches. */
  function EvaluateConfig(c: Context, config: Option<Group>): Outcome {
    match config
    case None => Yes
    case Some(g) => Evaluate(c, g)
  }

  /**
    A single comparison: it is true exactly when the field and the operator are named, the field
    has a value, the operator is one of the nine, and the value compares so, value first.
   */
  lemma LeafExact(c: Context, field: string, op: string, expected: string)
    ensures EvaluateRule(c, Leaf(field, op, expected)) == Yes <==>
      && field != "" && op in {"==", "!=", ">", ">=", "<", "<=", "in", "not_in", "contains"}
      && c.read(field).Found? && c.compare(c.read(field).value, op, expected) == Yes
    ensures EvaluateRule(c, Leaf(field, op, expected)) == Error <==>
      || field == "" || op == "" || c.read(field) == Raises
      || (c.read(field).Found? && op !in {"==", "!=", ">", ">=", "<", "<=", "in", "not_in", "contains"})
      || (c.read(field).Found? && c.compare(c.read(field).value, op, expected) == Error)
  {
  }

  /** A nested group counts as its own condition. */
  lemma NestedExact(c: Context, g: Group)
    ensures EvaluateRule(c, Nested(g)) == EvaluateConfig(c, Some(g))
  {
  }

  // ---- The first rule that decides ----

  /** Rule k gives o, and every rule before it gives `neutral`. */
  predicate FirstAt(c: Context, rs: seq<Rule>, neutral: Outcome, k: nat, o: Outcome) {
    k < |rs| && EvaluateRule(c, rs[k]) == o && forall j :: 0 <= j < k ==> EvaluateRule(c, rs[j]) == neutral
  }

  /** The first rule that does not give `neutral` gives o. */
  ghost predicate Decided(c: Context, rs: seq<Rule>, neutral: Outcome, o: Outcome) {
    exists k: nat :: FirstAt(c, rs, neutral, k, o)
  }

  lemma FirstLater(c: Context, rs: seq<Rule>, neutral: Outcome, k: nat, o: Outcome)
    requires rs != [] && EvaluateRule(c, rs[0]) == neutral
    ensures FirstAt(c, rs, neutral, k + 1, o) <==> FirstAt(c, rs[1..], neutral, k, o)
  {
    hide EvaluateRule;
    if FirstAt(c, rs[1..], neutral, k, o) {
      forall j | 0 <= j < k + 1
        ensures EvaluateRule(c, rs[j]) == neutral
      {
        assert j > 0 ==> rs[j] == rs[1..][j - 1];
      }
    }
    if FirstAt(c, rs, neutral, k + 1, o) {
      forall j | 0 <= j < k
        ensures EvaluateRule(c, rs[1..][j]) == neutral
      {
        assert rs[1..][j] == rs[j + 1];
      }
    }
  }

  lemma DecidedLater(c: Context, rs: seq<Rule>, neutral: Outcome, o: Outcome)
    requires rs != [] && EvaluateRule(c, rs[0]) == neutral && o != neutral
    ensures Decided(c, rs, neutral, o) <==> Decided(c, rs[1..], neutral, o)
  {
    hide EvaluateRule;
    if k: nat :| FirstAt(c, rs, neutral, k, o) {
      assert k > 0;
      FirstLater(c, rs, neutral, k - 1, o);
    }
    if k: nat :| FirstAt(c, rs[1..], neutral, k, o) {
      FirstLater(c, rs, neutral, k, o);
    }
  }

  /** AND is the outcome of its first rule that is not true; the rules after it are never looked at. */
  lemma {:induction false} AllByFirst(c: Context, rs: seq<Rule>)
    ensures All(c, rs) == Yes <==> forall j :: 0 <= j < |rs| ==> EvaluateRule(c, rs[j]) == Yes
    ensures forall o :: o != Yes ==> (All(c, rs) == o <==> Decided(c, rs, Yes, o))
  {
    hide EvaluateRule;
    if rs != [] && EvaluateRule(c, rs[0]) == Yes {
      AllByFirst(c, rs[1..]);
      assert forall j :: 0 < j < |rs| ==> rs[j] == rs[1..][j - 1];
      forall o: Outcome | o != Yes
        ensures Decided(c, rs, Yes, o) <==> Decided(c, rs[1..], Yes, o)
      {
        DecidedLater(c, rs, Yes, o);
      }
    } else if rs != [] {
      assert FirstAt(c, rs, Yes, 0, EvaluateRule(c, rs[0]));
    }
  }

  /** OR is the outcome of its first rule that is not false, and false when there is none. */
  lemma {:induction false} AnyByFirst(c: Context, rs: seq<Rule>)
    ensures Any(c, rs) == No <==> forall j :: 0 <= j < |rs| ==> EvaluateRule(c, rs[j]) == No
    ensures forall o :: o != No ==> (Any(c, rs) == o <==> Decided(c, rs, No, o))
  {
    hide EvaluateRule;
    if rs != [] && EvaluateRule(c, rs[0]) == No {
      AnyByFirst(c, rs[1..]);
      assert forall j :: 0 < j < |rs| ==> rs[j] == rs[1..][j - 1];
      forall o: Outcome | o != No
        ensures Decided(c, rs, No, o) <==> Decided(c, rs[1..], No, o)
      {
        DecidedLater(c, rs, No, o);
      }
    } else if rs != [] {
      assert FirstAt(c, rs, No, 0, EvaluateRule(c, rs[0]));
    }
  }

  /** When a condition is true and when it is an error; otherwise it is false. */
  lemma OutcomeExact(c: Context, config: Option<Group>)
    ensures EvaluateConfig(c, config) == Yes <==>
      || config.None? || config.value.rules == []
      || (config.value.operator == "AND"
          && forall j :: 0 <= j < |config.value.rules| ==> EvaluateRule(c, config.value.rules[j]) == Yes)
      || (config.value.operator == "OR" && Decided(c, config.value.rules, No, Yes))
    ensures EvaluateConfig(c, config) == Error <==>
      (config.Some? && config.value.rules != []
       && (config.value.operator == "AND" ==> Decided(c, config.value.rules, Yes, Error))
       && (config.value.operator == "OR" ==> Decided(c, config.value.rules, No, Error)))
  {
    if config.Some? {
      AllByFirst(c, config.value.rules);
      AnyByFirst(c, config.value.rules);
    }
  }

  // ---- Flattening ----

  function Simplify(g: Group): Group
    decreases g, 0
  {
    Group(g.operator, SimplifyRules(g.operator, g.rules))
  }

  /** The rules that stand for r inside a group with this operator. */
  function Splice(operator: string, r: Rule): seq<Rule>
    decreases r, 0
  {
    match r
    case Leaf(_, _, _) => [r]
    case Nested(g) =>
      var inner := Simplify(g);
      if inner.rules == [] then (if operator == "AND" then [] else [Nested(inner)])
      else if inner.operator == operator && (operator == "AND" || operator == "OR") then inner.rules
      else [Nested(inner)]
  }

  function SimplifyRules(operator: string, rs: seq<Rule>): seq<Rule>
    decreases rs, 1
  {
    if rs == [] then [] else Splice(operator, rs[0]) + SimplifyRules(operator, rs[1..])
  }

  lemma {:induction false} AllAppend(c: Context, a: seq<Rule>, b: seq<Rule>)
    ensures All(c, a + b) == match All(c, a) case Yes => All(c, b) case o => o
  {
    if a == [] {
      assert a + b == b;
    } else {
      assert (a + b)[1..] == a[1..] + b;
      AllAppend(c, a[1..], b);
    }
  }

  lemma {:induction false} AnyAppend(c: Context, a: seq<Rule>, b: seq<Rule>)
    ensures Any(c, a + b) == match Any(c, a) case No => Any(c, b) case o => o
  {
    if a == [] {
      assert a + b == b;
    } else {
      assert (a + b)[1..] == a[1..] + b;
      AnyAppend(c, a[1..], b);
    }
  }

  lemma OneRule(c: Context, r: Rule)
    ensures All(c, [r]) == EvaluateRule(c, r) && Any(c, [r]) == EvaluateRule(c, r)
  {
    assert [r][1..] == [];
  }

  lemma {:induction false} SpliceNonEmpty(operator: string, rs: seq<Rule>)
    requires operator != "AND" && rs != []
    ensures SimplifyRules(operator, rs) != []
  {
  }

  lemma {:induction false} SpliceAll(c: Context, r: Rule)
    ensures All(c, Splice("AND", r)) == EvaluateRule(c, r)
    decreases r, 0
  {
    OneRule(c, r);
    if r.Nested? {
      SimplifyPreserves(c, r.group);
      OneRule(c, Nested(Simplify(r.group)));
    }
  }

  lemma {:induction false} SpliceAny(c: Context, r: Rule)
    ensures Any(c, Splice("OR", r)) == EvaluateRule(c, r)
    decreases r, 0
  {
    OneRule(c, r);
    if r.Nested? {
      SimplifyPreserves(c, r.group);
      OneRule(c, Nested(Simplify(r.group)));
    }
  }

  lemma {:induction false} RulesAll(c: Context, rs: seq<Rule>)
    ensures All(c, SimplifyRules("AND", rs)) == All(c, rs)
    decreases rs, 1
  {
    if rs != [] {
      SpliceAll(c, rs[0]);
      RulesAll(c, rs[1..]);
      AllAppend(c, Splice("AND", rs[0]), SimplifyRules("AND", rs[1..]));
    }
  }

  lemma {:induction false} RulesAny(c: Context, rs: seq<Rule>)
    ensures Any(c, SimplifyRules("OR", rs)) == Any(c, rs)
    decreases rs, 1
  {
    if rs != [] {
      SpliceAny(c, rs[0]);
      RulesAny(c, rs[1..]);
      AnyAppend(c, Splice("OR", rs[0]), SimplifyRules("OR", rs[1..]));
    }
  }

  /** Flattening at any depth keeps the outcome, error included, in every context. */
  lemma {:induction false} SimplifyPreserves(c: Context, g: Group)
    ensures Evaluate(c, Simplify(g)) == Evaluate(c, g)
    decreases g, 0
  {
    if g.rules != [] {
      if g.operator == "AND" {
        RulesAll(c, g.rules);
      } else {
        SpliceNonEmpty(g.operator, g.rules);
        if g.operator == "OR" {
          RulesAny(c, g.rules);
        }
      }
    }
  }

  // ---- The result is flat ----

  /** No rule of the group could still be spliced or dropped, at any depth. */
  predicate Flat(g: Group)
    decreases g, 0
  {
    FlatRules(g.operator, g.rules)
  }

  predicate FlatRules(operator: string, rs: seq<Rule>)
    decreases rs, 1
  {
    rs == [] || (FlatRule(operator, rs[0]) && FlatRules(operator, rs[1..]))
  }

  predicate FlatRule(operator: string, r: Rule)
    decreases r, 0
  {
    match r
    case Leaf(_, _, _) => true
    case Nested(g) =>
      && Flat(g)
      && (operator == "AND" ==> g.rules != [] && g.operator != "AND")
      && (operator == "OR" ==> g.rules == [] || g.operator != "OR")
  }

  lemma {:induction false} FlatAppend(operator: string, a: seq<Rule>, b: seq<Rule>)
    requires FlatRules(operator, a) && FlatRules(operator, b)
    ensures FlatRules(operator, a + b)
  {
    if a == [] {
      assert a + b == b;
    } else {
      assert (a + b)[1..] == a[1..] + b;
      FlatAppend(operator, a[1..], b);
    }
  }

  lemma {:induction false} SimplifiedRulesFlat(operator: string, rs: seq<Rule>)
    ensures FlatRules(operator, SimplifyRules(operator, rs))
    decreases rs, 1
  {
    if rs != [] {
      SplicedFlat(operator, rs[0]);
      SimplifiedRulesFlat(operator, rs[1..]);
      FlatAppend(operator, Splice(operator, rs[0]), SimplifyRules(operator, rs[1..]));
    }
  }

  lemma {:induction false} SplicedFlat(operator: string, r: Rule)
    ensures FlatRules(operator, Splice(operator, r))
    decreases r, 0
  {
    if r.Nested? {
      SimplifiedFlat(r.group);
      assert [Nested(Simplify(r.group))][1..] == [];
    }
  }

  lemma {:induction false} SimplifiedFlat(g: Group)
    ensures Flat(Simplify(g))
    decreases g, 0
  {
    SimplifiedRulesFlat(g.operator, g.rules);
  }

  /** Flattening would be wrong for an empty group under OR, which is true and not false. */
  lemma EmptyUnderOr(c: Context, rest: Rule)
    requires EvaluateRule(c, rest) == No
    ensures Evaluate(c, Group("OR", [rest, Nested(Group("OR", []))])) == Yes
    ensures Evaluate(c, Group("OR", [rest])) == No
  {
    OneRule(c, rest);
    AnyAppend(c, [rest], [Nested(Group("OR", []))]);
    assert [rest] + [Nested(Group("OR", []))] == [rest, Nested(Group("OR", []))];
    OneRule(c, Nested(Group("OR", [])));
  }
}
