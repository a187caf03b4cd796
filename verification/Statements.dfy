/**
  The WHERE clauses of adapters/postgres/sql.go and the delete statement built on them, with the
  theorem that ties each clause's text and arguments to what the job's operands mean.
  */
module Statements {
  import opened Outcomes
  import Decimal
  import JsonTree
  import opened Conditions
  import opened Job
  import opened Sql
  import opened ConditionCompiler
  import opened CompilerCorrectness

  datatype Parts = Parts(parts: seq<string>, arguments: seq<Value>)

  datatype Where = Where(text: string, arguments: seq<Value>)

  /** How a retention kind compares; a kind nobody knows compares strictly. */
  function ComparisonText(kind: PredicateType): string {
    if kind.OnOrBefore? then "<=" else "<"
  }

  function RetentionText(p: Predicate): Result<string, Fault> {
    match QuoteIdentifier(p.column)
    case Err(f) => Err(f)
    case Ok(column) => Ok(column + " " + ComparisonText(p.kind) + " $1")
  }

  /** eligibilityWhere. */
  function EligibilityWhere(p: Predicate, condition: Option<Condition>): Result<Parts, Fault> {
    match RetentionText(p)
    case Err(f) => Err(f)
    case Ok(retention) =>
      if condition.None? then Ok(Parts([retention], [Instant(p.at)]))
      else
        match CompileCondition(condition.value, 1)
        case Err(f) => Err(f)
        case Ok(k) => Ok(Parts([retention, "(" + k.text + ")"], [Instant(p.at)] + k.literals))
  }

  function HoldClauses(eligible: Parts, holds: seq<Condition>): Result<CompiledEach, Fault> {
    CompileConditions(holds, |eligible.arguments|)
  }

  /** candidateWhere: eligible and not under any hold. */
  function CandidateWhere(p: Predicate, condition: Option<Condition>, holds: seq<Condition>): Result<Where, Fault> {
    match EligibilityWhere(p, condition)
    case Err(f) => Err(f)
    case Ok(eligible) =>
      match HoldClauses(eligible, holds)
      case Err(f) => Err(f)
      case Ok(k) =>
        var exclusion := if k.clauses == [] then [] else ["NOT (" + Join(k.clauses, " OR ") + ")"];
        Ok(Where(Join(eligible.parts + exclusion, " AND "), eligible.arguments + k.literals))
  }

  /** The clause of heldCountStatement: eligible and under some hold. */
  function HeldWhere(p: Predicate, condition: Option<Condition>, holds: seq<Condition>): Result<Where, Fault> {
    match EligibilityWhere(p, condition)
    case Err(f) => Err(f)
    case Ok(eligible) =>
      match HoldClauses(eligible, holds)
      case Err(f) => Err(f)
      case Ok(k) =>
        Ok(Where(Join(eligible.parts + ["(" + Join(k.clauses, " OR ") + ")"], " AND "),
                 eligible.arguments + k.literals))
  }

  /**
    deleteBatchStatement: the clause occurs twice, in the SELECT that picks the batch and on the
    DELETE itself; limit is the placeholder the batch size is bound to.
    */
  datatype DeleteStatement = DeleteStatement(table: string, where: string, orderBy: string, limit: string,
                                             arguments: seq<Value>)

  function Qualified(t: Target): Result<string, Fault> {
    match (QuoteIdentifier(t.schema), QuoteIdentifier(t.table))
    case (Ok(schema), Ok(table)) => Ok(schema + "." + table)
    case _ => Err(IdentifierPanic)
  }

  function DeleteBatchStatement(t: Target, p: Predicate, condition: Option<Condition>,
                                holds: seq<Condition>): Result<DeleteStatement, Fault> {
    match (Qualified(t), QuoteIdentifier(p.column), CandidateWhere(p, condition, holds))
    case (Err(f), _, _) => Err(f)
    case (_, Err(f), _) => Err(f)
    case (_, _, Err(f)) => Err(f)
    case (Ok(table), Ok(column), Ok(where)) =>
      Ok(DeleteStatement(table, where.text, column, Placeholder(|where.arguments| + 1), where.arguments))
  }

  // ---- The builders as the code runs them: one argument list per statement ----

  method BuildEligibility(p: Predicate, condition: Option<Condition>)
    returns (parts: Result<seq<string>, Fault>, builder: Builder)
    ensures fresh(builder)
    ensures match EligibilityWhere(p, condition)
            case Err(f) => parts == Err(f)
            case Ok(k) => parts == Ok(k.parts) && builder.arguments == k.arguments
  {
    builder := new Builder(Instant(p.at));
    var retention := RetentionText(p);
    if retention.Err? {
      return Err(retention.error), builder;
    }
    parts := Ok([retention.value]);
    if condition.Some? {
      var clause := builder.BuildCondition(condition.value);
      if clause.Err? {
        return Err(clause.error), builder;
      }
      parts := Ok([retention.value, "(" + clause.value + ")"]);
    }
  }

  method BuildCandidateWhere(p: Predicate, condition: Option<Condition>, holds: seq<Condition>)
    returns (r: Result<Where, Fault>)
    ensures r == CandidateWhere(p, condition, holds)
  {
    var parts, builder := BuildEligibility(p, condition);
    if parts.Err? {
      return Err(parts.error);
    }
    var clauses := builder.BuildConditions(holds);
    if clauses.Err? {
      return Err(clauses.error);
    }
    var all := parts.value;
    if clauses.value != [] {
      all := all + ["NOT (" + Join(clauses.value, " OR ") + ")"];
    } else {
      assert all + [] == all;
    }
    return Ok(Where(Join(all, " AND "), builder.arguments));
  }

  method BuildHeldWhere(p: Predicate, condition: Option<Condition>, holds: seq<Condition>)
    returns (r: Result<Where, Fault>)
    ensures r == HeldWhere(p, condition, holds)
  {
    var parts, builder := BuildEligibility(p, condition);
    if parts.Err? {
      return Err(parts.error);
    }
    var clauses := builder.BuildConditions(holds);
    if clauses.Err? {
      return Err(clauses.error);
    }
    return Ok(Where(Join(parts.value + ["(" + Join(clauses.value, " OR ") + ")"], " AND "), builder.arguments));
  }

  // ---- What the operands mean ----

  function RetentionMeaning(p: Predicate, row: Row, ord: Ordering): Truth {
    Compare(ord, if p.kind.OnOrBefore? then AtMost else Less, Cell(row, p.column), Instant(p.at))
  }

  ghost function EligibleMeaning(p: Predicate, condition: Option<Condition>, row: Row, ord: Ordering): Truth
    requires condition.Some? ==> WellFormed(condition.value)
  {
    And3(RetentionMeaning(p, row, ord),
         if condition.Some? then Meaning(condition.value, row, Instant(p.at), ord) else True)
  }

  /** Whether some hold applies: unknown when none is known to apply but one is unknown. */
  ghost function HoldMeaning(p: Predicate, holds: seq<Condition>, row: Row, ord: Ordering): Truth
    requires AllWellFormed(holds)
  {
    Disjunction(Meanings(holds, row, Instant(p.at), ord))
  }

  ghost function CandidateMeaning(p: Predicate, condition: Option<Condition>, holds: seq<Condition>, row: Row,
                                  ord: Ordering): Truth
    requires condition.Some? ==> WellFormed(condition.value)
    requires AllWellFormed(holds)
  {
    And3(EligibleMeaning(p, condition, row, ord), Not3(HoldMeaning(p, holds, row, ord)))
  }

  ghost function HeldMeaning(p: Predicate, condition: Option<Condition>, holds: seq<Condition>, row: Row,
                             ord: Ordering): Truth
    requires condition.Some? ==> WellFormed(condition.value)
    requires AllWellFormed(holds)
  {
    And3(EligibleMeaning(p, condition, row, ord), HoldMeaning(p, holds, row, ord))
  }

  /** Operands the builder accepts: identifiers and trees as validation leaves them. */
  predicate Compilable(p: Predicate, condition: Option<Condition>, holds: seq<Condition>) {
    && IsIdentifier(p.column)
    && (condition.Some? ==> WellFormed(condition.value))
    && holds != [] && AllWellFormed(holds)
  }

  // ---- The expressions the clauses are ----

  function RetentionExpr(p: Predicate): Expr {
    Comparison(p.column, if p.kind.OnOrBefore? then AtMost else Less, 1)
  }

  function EligibilityExprs(p: Predicate, condition: Option<Condition>): seq<Expr>
    requires condition.Some? ==> WellFormed(condition.value)
  {
    [RetentionExpr(p)] + if condition.Some? then [Plan(condition.value, 1)] else []
  }

  function HoldsExpr(condition: Option<Condition>, holds: seq<Condition>): Expr
    requires condition.Some? ==> WellFormed(condition.value)
    requires AllWellFormed(holds)
  {
    AnyOf(PlanEach(holds, 1 + if condition.Some? then |Literals(condition.value)| else 0))
  }

  function AllArguments(p: Predicate, condition: Option<Condition>, holds: seq<Condition>): seq<Value>
    requires condition.Some? ==> WellFormed(condition.value)
    requires AllWellFormed(holds)
  {
    [Instant(p.at)] + (if condition.Some? then Literals(condition.value) else []) + LiteralsEach(holds)
  }

  function CandidateExpr(p: Predicate, condition: Option<Condition>, holds: seq<Condition>): Expr
    requires Compilable(p, condition, holds)
  {
    And(EligibilityExprs(p, condition) + [Not(HoldsExpr(condition, holds))])
  }

  function HeldExpr(p: Predicate, condition: Option<Condition>, holds: seq<Condition>): Expr
    requires Compilable(p, condition, holds)
  {
    And(EligibilityExprs(p, condition) + [HoldsExpr(condition, holds)])
  }

  // ---- Text ----

  /** The retention comparison is read whole as long as no digit follows it. */
  lemma RetentionReads(p: Predicate, rest: string)
    requires IsIdentifier(p.column) && Decimal.NoDigitAhead(rest)
    ensures RetentionText(p).Ok?
    ensures ParseUnary(RetentionText(p).value + rest) == Some((RetentionExpr(p), rest))
  {
    var op := if p.kind.OnOrBefore? then Lte else Lt;
    var test := " " + ComparisonText(p.kind) + " $1";
    assert Decimal.FormatNat(1) == "1";
    assert test == " " + OperatorText(op).value + " " + Placeholder(1);
    TestReadsComparison(p.column, op, 1, rest);
    NamedTestReads(p.column, test, rest, RetentionExpr(p));
    var quoted := "\"" + p.column + "\"";
    assert quoted + " " + ComparisonText(p.kind) + " $1" == quoted + test;
  }

  /** The text is a conjunction of exactly these, with no parentheses around it. */
  predicate Flat(s: string, es: seq<Expr>) {
    |es| > 1 && ParseAndList(s) == Some((es, "")) && Parse(s) == Some(And(es))
  }

  /** Conjoining the retention comparison with further clauses parses as exactly that conjunction. */
  lemma ConjunctionReads(p: Predicate, clauses: seq<string>, es: seq<Expr>)
    requires IsIdentifier(p.column) && es != [] && EachReadsAs(clauses, es)
    ensures RetentionText(p).Ok?
    ensures Flat(Join([RetentionText(p).value] + clauses, " AND "), [RetentionExpr(p)] + es)
  {
    var more := Join(clauses, " AND ");
    RetentionReads(p, " AND " + more);
    var first := RetentionText(p).value;
    assert ([first] + clauses)[1..] == clauses;
    assert Join([first] + clauses, " AND ") == first + (" AND " + more);
    StripPrefix(" AND ", more);
    assert more + "" == more;
    AndListReads(clauses, es, "");
    ConjunctionAlone(first + (" AND " + more), [RetentionExpr(p)] + es);
  }

  lemma ConjunctionAlone(s: string, es: seq<Expr>)
    requires |es| > 1 && ParseAndList(s) == Some((es, ""))
    ensures Parse(s) == Some(And(es))
  {
    assert ParseAnd(s) == Some((And(es), ""));
    assert ParseOrList(s) == Some(([And(es)], ""));
  }

  lemma EligibilityReads(p: Predicate, condition: Option<Condition>)
    requires IsIdentifier(p.column) && (condition.Some? ==> WellFormed(condition.value))
    ensures var r := EligibilityWhere(p, condition);
            && r.Ok? && RetentionText(p).Ok?
            && r.value.parts != [] && r.value.parts[0] == RetentionText(p).value
            && EachReadsAs(r.value.parts[1..], EligibilityExprs(p, condition)[1..])
            && r.value.arguments == AllArguments(p, condition, [])
  {
    RetentionReads(p, "");
    if condition.Some? {
      ConditionReads(condition.value, 1);
      ParenthesesRead(CompileCondition(condition.value, 1).value.text, Plan(condition.value, 1));
    }
  }

  lemma HoldsRead(p: Predicate, condition: Option<Condition>, holds: seq<Condition>, eligible: Parts)
    requires Compilable(p, condition, holds)
    requires eligible.arguments == AllArguments(p, condition, [])
    ensures var r := HoldClauses(eligible, holds);
            && r.Ok? && r.value.clauses != []
            && eligible.arguments + r.value.literals == AllArguments(p, condition, holds)
            && ReadsAs("(" + Join(r.value.clauses, " OR ") + ")", HoldsExpr(condition, holds))
            && ReadsAs("NOT (" + Join(r.value.clauses, " OR ") + ")", Not(HoldsExpr(condition, holds)))
  {
    var n := |eligible.arguments|;
    ConditionsRead(holds, n);
    assert n == 1 + if condition.Some? then |Literals(condition.value)| else 0;
    AnyGroupReads(CompileConditions(holds, n).value.clauses, PlanEach(holds, n));
    NegatedGroupReads(CompileConditions(holds, n).value.clauses, PlanEach(holds, n));
    assert LiteralsEach([]) == [];
  }

  /**
    The candidate clause compiles, binds the cutoff and then every literal in order, and its text
    parses - NOT over AND over OR - to retention AND condition AND NOT (any hold).
    */
  lemma CandidateReads(p: Predicate, condition: Option<Condition>, holds: seq<Condition>)
    requires Compilable(p, condition, holds)
    ensures var r := CandidateWhere(p, condition, holds);
            && r.Ok?
            && r.value.arguments == AllArguments(p, condition, holds)
            && Parse(r.value.text) == Some(CandidateExpr(p, condition, holds))
            && Flat(r.value.text, CandidateExpr(p, condition, holds).conjuncts)
  {
    EligibilityReads(p, condition);
    var eligible := EligibilityWhere(p, condition).value;
    HoldsRead(p, condition, holds, eligible);
    var exclusion := "NOT (" + Join(HoldClauses(eligible, holds).value.clauses, " OR ") + ")";
    ClauseReads(p, condition, eligible, exclusion, Not(HoldsExpr(condition, holds)));
  }

  /** The same for the hold-blocked clause. */
  lemma HeldReads(p: Predicate, condition: Option<Condition>, holds: seq<Condition>)
    requires Compilable(p, condition, holds)
    ensures var r := HeldWhere(p, condition, holds);
            && r.Ok?
            && r.value.arguments == AllArguments(p, condition, holds)
            && Parse(r.value.text) == Some(HeldExpr(p, condition, holds))
  {
    EligibilityReads(p, condition);
    var eligible := EligibilityWhere(p, condition).value;
    HoldsRead(p, condition, holds, eligible);
    var group := "(" + Join(HoldClauses(eligible, holds).value.clauses, " OR ") + ")";
    ClauseReads(p, condition, eligible, group, HoldsExpr(condition, holds));
  }

  lemma ClauseReads(p: Predicate, condition: Option<Condition>, eligible: Parts, last: string, e: Expr)
    requires IsIdentifier(p.column) && (condition.Some? ==> WellFormed(condition.value))
    requires EligibilityWhere(p, condition) == Ok(eligible) && ReadsAs(last, e)
    ensures Flat(Join(eligible.parts + [last], " AND "), EligibilityExprs(p, condition) + [e])
  {
    EligibilityReads(p, condition);
    var clauses := eligible.parts[1..] + [last];
    var es := EligibilityExprs(p, condition)[1..] + [e];
    ConjunctionReads(p, clauses, es);
    assert [eligible.parts[0]] + clauses == eligible.parts + [last];
    assert [RetentionExpr(p)] + es == EligibilityExprs(p, condition) + [e];
  }

  // ---- Meaning ----

  lemma ArgumentsBind(p: Predicate, condition: Option<Condition>, holds: seq<Condition>, args: seq<Value>)
    requires Compilable(p, condition, holds) && AllArguments(p, condition, holds) <= args
    ensures condition.Some? ==> Binds(args, Instant(p.at), 1, Literals(condition.value))
    ensures Binds(args, Instant(p.at), 1 + (if condition.Some? then |Literals(condition.value)| else 0),
                  LiteralsEach(holds))
  {
    if condition.Some? {
      SlicesBind(args, Instant(p.at), Literals(condition.value), LiteralsEach(holds));
    } else {
      SlicesBind(args, Instant(p.at), [], LiteralsEach(holds));
    }
  }

  lemma SlicesBind(args: seq<Value>, head: Value, first: seq<Value>, last: seq<Value>)
    requires [head] + first + last <= args
    ensures Binds(args, head, 1, first) && Binds(args, head, 1 + |first|, last)
  {
    var all := [head] + first + last;
    assert args[..|all|] == all;
    assert args[1..1 + |first|] == all[1..1 + |first|] == first;
    assert args[1 + |first|..1 + |first| + |last|] == all[1 + |first|..] == last;
  }

  lemma HoldsMean(p: Predicate, condition: Option<Condition>, holds: seq<Condition>, args: seq<Value>, row: Row,
                  ord: Ordering)
    requires Compilable(p, condition, holds) && AllArguments(p, condition, holds) <= args
    ensures Eval(HoldsExpr(condition, holds), row, args, ord) == HoldMeaning(p, holds, row, ord)
  {
    ArgumentsBind(p, condition, holds, args);
    var n := 1 + if condition.Some? then |Literals(condition.value)| else 0;
    PlansPreserve(holds, n, row, Instant(p.at), args, ord);
    GroupMeaning(PlanEach(holds, n), Meanings(holds, row, Instant(p.at), ord), row, args, ord);
  }

  lemma ClauseMeans(p: Predicate, condition: Option<Condition>, holds: seq<Condition>, e: Expr, args: seq<Value>,
                    row: Row, ord: Ordering)
    requires Compilable(p, condition, holds) && AllArguments(p, condition, holds) <= args
    ensures Eval(And(EligibilityExprs(p, condition) + [e]), row, args, ord)
            == And3(EligibleMeaning(p, condition, row, ord), Eval(e, row, args, ord))
  {
    ArgumentsBind(p, condition, holds, args);
    var es := EligibilityExprs(p, condition) + [e];
    assert args[0] == AllArguments(p, condition, holds)[0];
    assert Eval(And(es), row, args, ord) == EvalAnd(es, row, args, ord);
    assert es[0] == RetentionExpr(p);
    assert Eval(es[0], row, args, ord) == RetentionMeaning(p, row, ord);
    assert [e][1..] == [];
    assert EvalAnd([e], row, args, ord) == And3(Eval(e, row, args, ord), True);
    if condition.Some? {
      PlanPreserves(condition.value, 1, row, Instant(p.at), args, ord);
      var plan := Plan(condition.value, 1);
      assert es[1..] == [plan, e];
      assert [plan, e][1..] == [e];
      assert EvalAnd(es, row, args, ord) == And3(Eval(es[0], row, args, ord), EvalAnd([plan, e], row, args, ord));
      assert EvalAnd([plan, e], row, args, ord) == And3(Eval(plan, row, args, ord), EvalAnd([e], row, args, ord));
    } else {
      assert es[1..] == [e];
    }
  }

  /** The truth value of a clause's text on a row, with args bound; unknown when it does not parse. */
  function EvalText(text: string, row: Row, args: seq<Value>, ord: Ordering): Truth {
    match Parse(text)
    case Some(e) => Eval(e, row, args, ord)
    case None => Unknown
  }

  /**
    End to end: for every job's operands, every row, every comparison and whatever is bound after
    the clause's own arguments, the rendered candidate clause is exactly the candidate meaning.
    */
  lemma CandidateClauseCorrect(p: Predicate, condition: Option<Condition>, holds: seq<Condition>, later: seq<Value>,
                               row: Row, ord: Ordering)
    requires Compilable(p, condition, holds)
    ensures CandidateWhere(p, condition, holds).Ok?
    ensures var where := CandidateWhere(p, condition, holds).value;
            && where.arguments != [] && where.arguments[0] == Instant(p.at)
            && EvalText(where.text, row, where.arguments + later, ord)
               == CandidateMeaning(p, condition, holds, row, ord)
  {
    CandidateReads(p, condition, holds);
    var args := AllArguments(p, condition, holds) + later;
    ClauseMeans(p, condition, holds, Not(HoldsExpr(condition, holds)), args, row, ord);
    HoldsMean(p, condition, holds, args, row, ord);
  }

  /**
    The DELETE repeats the clause behind one more operand (adapters/postgres/sql.go:100-102). Because
    the clause is a conjunction at its top level that is read as one flat conjunction, so the rows
    removed satisfy the operand and the whole clause.
    */
  lemma GuardedClauseCorrect(p: Predicate, condition: Option<Condition>, holds: seq<Condition>, guard: string, e: Expr,
                             later: seq<Value>, row: Row, ord: Ordering)
    requires Compilable(p, condition, holds) && ReadsAs(guard, e)
    ensures CandidateWhere(p, condition, holds).Ok?
    ensures var where := CandidateWhere(p, condition, holds).value;
            && Parse(guard + (" AND " + where.text)) == Some(And([e] + CandidateExpr(p, condition, holds).conjuncts))
            && EvalText(guard + (" AND " + where.text), row, where.arguments + later, ord)
               == And3(Eval(e, row, where.arguments + later, ord), CandidateMeaning(p, condition, holds, row, ord))
  {
    CandidateReads(p, condition, holds);
    CandidateClauseCorrect(p, condition, holds, later, row, ord);
    var where, es := CandidateWhere(p, condition, holds).value, CandidateExpr(p, condition, holds).conjuncts;
    GuardedReads(guard, e, where.text, es);
    GuardedMeans(e, es, row, where.arguments + later, ord);
  }

  lemma GuardedMeans(e: Expr, es: seq<Expr>, row: Row, args: seq<Value>, ord: Ordering)
    ensures Eval(And([e] + es), row, args, ord) == And3(Eval(e, row, args, ord), Eval(And(es), row, args, ord))
  {
    assert ([e] + es)[1..] == es;
    assert EvalAnd([e] + es, row, args, ord) == And3(Eval(e, row, args, ord), EvalAnd(es, row, args, ord));
  }

  lemma GuardedReads(guard: string, e: Expr, text: string, es: seq<Expr>)
    requires ReadsAs(guard, e) && Flat(text, es)
    ensures Parse(guard + (" AND " + text)) == Some(And([e] + es))
  {
    assert ParseUnary(guard + (" AND " + text)) == Some((e, " AND " + text));
    StripPrefix(" AND ", text);
    ConjunctionAlone(guard + (" AND " + text), [e] + es);
  }

  lemma HeldClauseCorrect(p: Predicate, condition: Option<Condition>, holds: seq<Condition>, later: seq<Value>,
                          row: Row, ord: Ordering)
    requires Compilable(p, condition, holds)
    ensures HeldWhere(p, condition, holds).Ok?
    ensures var where := HeldWhere(p, condition, holds).value;
            EvalText(where.text, row, where.arguments + later, ord) == HeldMeaning(p, condition, holds, row, ord)
  {
    HeldReads(p, condition, holds);
    var args := AllArguments(p, condition, holds) + later;
    ClauseMeans(p, condition, holds, HoldsExpr(condition, holds), args, row, ord);
    HoldsMean(p, condition, holds, args, row, ord);
  }

  // ---- Every validated job compiles, within the protocol's parameter limit ----

  const MAX_PARAMETERS := 50_002
  const POSTGRES_PARAMETER_LIMIT := 65_535

  lemma ValidatedIsCompilable(j: Envelope)
    requires ValidOperands(j) && (j.operation.Count? || j.operation.Delete?)
    ensures Compilable(j.retention.value, j.condition, j.holds)
  {
    TreesValidIff(j.condition, j.holds);
  }

  lemma ArgumentsBounded(p: Predicate, condition: Option<Condition>, holds: seq<Condition>)
    requires ValidTrees(condition, holds) && (condition.Some? ==> WellFormed(condition.value)) && AllWellFormed(holds)
    ensures |AllArguments(p, condition, holds)| + 1 <= MAX_PARAMETERS
  {
    TreesValidIff(condition, holds);
    LiteralsEachBounded(holds);
    if condition.Some? {
      LiteralsBounded(condition.value);
    }
  }

  /**
    A validated count or delete builds its statement with no error and no identifier panic; the
    batch size is bound to the first placeholder after the clause's own, and all parameters
    together stay below what PostgreSQL accepts.
    */
  lemma DeleteStatementBuilds(j: Envelope)
    requires ValidOperands(j) && (j.operation.Count? || j.operation.Delete?)
    ensures Compilable(j.retention.value, j.condition, j.holds)
    ensures var r := DeleteBatchStatement(j.target.value, j.retention.value, j.condition, j.holds);
            && r.Ok?
            && r.value.arguments == AllArguments(j.retention.value, j.condition, j.holds)
            && ParsePlaceholder(r.value.limit) == Some((|r.value.arguments| + 1, ""))
            && |r.value.arguments| + 1 <= MAX_PARAMETERS < POSTGRES_PARAMETER_LIMIT
  {
    ValidatedIsCompilable(j);
    CandidateReads(j.retention.value, j.condition, j.holds);
    ArgumentsBounded(j.retention.value, j.condition, j.holds);
    var n := |AllArguments(j.retention.value, j.condition, j.holds)| + 1;
    PlaceholderReads(n, "");
    assert Placeholder(n) + "" == Placeholder(n);
  }

  // ---- The bound is reached ----

  function FullList(): Condition {
    Condition("a", In, Some(JsonTree.Array(seq(MAX_VALUES, _ => JsonTree.Bool(true)))), [], [], None)
  }

  lemma {:induction false} TrueItems(k: nat)
    ensures NormalizeItems(seq(k, _ => JsonTree.Bool(true))).Some?
  {
    if k > 0 {
      TrueItems(k - 1);
      var items := seq(k, _ => JsonTree.Bool(true));
      assert items[..k - 1] == seq(k - 1, _ => JsonTree.Bool(true));
    }
  }

  lemma {:induction false} FullListsValidate(k: nat, budget: nat)
    requires budget + k <= NODE_BUDGET
    ensures var holds := seq(k, _ => FullList());
            && ValidateEach(holds, budget, 0) == Some(budget + k)
            && AllWellFormed(holds)
            && |LiteralsEach(holds)| == MAX_VALUES * k
    decreases k
  {
    var holds := seq(k, _ => FullList());
    if k > 0 {
      TrueItems(MAX_VALUES);
      FullListsValidate(k - 1, budget + 1);
      assert holds[1..] == seq(k - 1, _ => FullList());
      assert |NormalizeItems(FullList().value.value.items).value| == MAX_VALUES;
      assert |Literals(FullList())| == MAX_VALUES;
    }
  }

  /** Five hundred holds of one hundred values each validate and bind the full count. */
  lemma ParameterBoundIsReached(p: Predicate)
    ensures var holds := seq(NODE_BUDGET, _ => FullList());
            && ValidTrees(None, holds)
            && AllWellFormed(holds)
            && |AllArguments(p, None, holds)| + 1 == MAX_PARAMETERS
  {
    FullListsValidate(NODE_BUDGET, 0);
  }
}
