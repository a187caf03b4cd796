/**
  Authorization against compilation: the policy walks a tree one way (conditionColumns), the SQL
  builder another (compileCondition). What the first approved is all the second can mention.
  */
module Confinement {
  import opened Outcomes
  import opened Conditions
  import opened Job
  import opened Policy
  import opened Sql
  import opened CompilerCorrectness
  import opened Statements

  function Elements(cs: seq<string>): set<string> {
    set c | c in cs
  }

  /** The columns of the compiled expression are exactly those the policy collected. */
  lemma {:induction false} PlanColumns(c: Condition, n: nat)
    requires WellFormed(c)
    ensures Columns(Plan(c, n)) == Elements(ConditionColumns(c))
    decreases c, 1
  {
    if !HasPredicateForm(c) {
      if c.negated.Some? {
        PlanColumns(c.negated.value, n);
        assert c.all == [] && c.any == [];
      } else {
        PlanEachColumns(Children(c), n);
        GroupColumns(PlanEach(Children(c), n));
        assert c.all == [] || c.any == [];
      }
    }
  }

  lemma {:induction false} PlanEachColumns(cs: seq<Condition>, n: nat)
    requires AllWellFormed(cs)
    ensures ColumnsEach(PlanEach(cs, n)) == Elements(EachColumns(cs))
    decreases cs, 0
  {
    if cs != [] {
      var m := n + |Literals(cs[0])|;
      PlanColumns(cs[0], n);
      PlanEachColumns(cs[1..], m);
      ElementsAppend(ConditionColumns(cs[0]), EachColumns(cs[1..]));
      ColumnsAppend([Plan(cs[0], n)], PlanEach(cs[1..], m));
      ColumnsOfOne(Plan(cs[0], n));
    }
  }

  lemma ElementsAppend(a: seq<string>, b: seq<string>)
    ensures Elements(a + b) == Elements(a) + Elements(b)
  {
  }

  lemma GroupColumns(es: seq<Expr>)
    ensures Columns(AllOf(es)) == ColumnsEach(es) == Columns(AnyOf(es))
  {
    if |es| == 1 {
      assert es[1..] == [];
      assert ColumnsEach(es[1..]) == {};
    }
  }

  lemma {:induction false} ColumnsAppend(es: seq<Expr>, fs: seq<Expr>)
    ensures ColumnsEach(es + fs) == ColumnsEach(es) + ColumnsEach(fs)
  {
    if es == [] {
      assert es + fs == fs;
    } else {
      assert (es + fs)[1..] == es[1..] + fs;
      ColumnsAppend(es[1..], fs);
    }
  }

  lemma ColumnsOfOne(e: Expr)
    ensures ColumnsEach([e]) == Columns(e)
  {
    assert [e][1..] == [] && ColumnsEach([e][1..]) == {};
  }

  lemma EligibilityColumns(p: Predicate, condition: Option<Condition>)
    requires condition.Some? ==> WellFormed(condition.value)
    ensures ColumnsEach(EligibilityExprs(p, condition))
            == {p.column} + Elements(if condition.Some? then ConditionColumns(condition.value) else [])
  {
    ColumnsOfOne(RetentionExpr(p));
    if condition.Some? {
      PlanColumns(condition.value, 1);
      ColumnsAppend([RetentionExpr(p)], [Plan(condition.value, 1)]);
      ColumnsOfOne(Plan(condition.value, 1));
    }
  }

  /** The candidate clause reads the retention column and what the policy collected, nothing else. */
  lemma ClauseColumns(p: Predicate, condition: Option<Condition>, holds: seq<Condition>)
    requires Compilable(p, condition, holds)
    ensures Columns(CandidateExpr(p, condition, holds)) == {p.column} + Elements(JobColumns(condition, holds))
  {
    var n := 1 + if condition.Some? then |Literals(condition.value)| else 0;
    PlanEachColumns(holds, n);
    GroupColumns(PlanEach(holds, n));
    EligibilityColumns(p, condition);
    ColumnsAppend(EligibilityExprs(p, condition), [Not(HoldsExpr(condition, holds))]);
    ColumnsOfOne(Not(HoldsExpr(condition, holds)));
    ElementsAppend(if condition.Some? then ConditionColumns(condition.value) else [], EachColumns(holds));
  }

  lemma AuthorizedColumns(s: Safety, j: Envelope, now: int)
    requires Valid(j) && (j.operation.Count? || j.operation.Delete?) && Authorize(s, j, now).Allowed?
    requires Compilable(j.retention.value, j.condition, j.holds)
    ensures Rule(s.tables, j.target.value).Some?
    ensures var r := CandidateWhere(j.retention.value, j.condition, j.holds);
            && r.Ok? && Parse(r.value.text).Some?
            && forall c :: c in Columns(Parse(r.value.text).value) ==>
                 c in Rule(s.tables, j.target.value).value.retentionColumns
  {
    CandidateReads(j.retention.value, j.condition, j.holds);
    ClauseColumns(j.retention.value, j.condition, j.holds);
  }

  /**
    Every valid, authorized count or delete compiles - no error, no identifier panic - to clauses
    whose text parses, and every column that text mentions is a retention column of the single
    rule for its target.
    */
  lemma AuthorizedIsConfined(s: Safety, j: Envelope, now: int)
    requires ValidSafety(s) && Valid(j) && (j.operation.Count? || j.operation.Delete?)
    requires Authorize(s, j, now).Allowed?
    ensures var rule := Rule(s.tables, j.target.value);
            && rule.Some?
            && (forall other :: other in s.tables
                  && other.schema == j.target.value.schema && other.table == j.target.value.table
                  ==> other == rule.value)
    ensures var r := DeleteBatchStatement(j.target.value, j.retention.value, j.condition, j.holds);
            && r.Ok?
            && Parse(r.value.where).Some?
            && forall c :: c in Columns(Parse(r.value.where).value) ==>
                 c in Rule(s.tables, j.target.value).value.retentionColumns
  {
    DeleteStatementBuilds(j);
    AuthorizedColumns(s, j, now);
    forall other | other in s.tables && other.schema == j.target.value.schema && other.table == j.target.value.table
      ensures Rule(s.tables, j.target.value) == Some(other)
    {
      RuleIsUnique(s, j.target.value, other);
    }
  }
}
