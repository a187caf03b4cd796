/**
  Correctness of the condition compiler: the text it renders parses back to the intended
  expression under SQL precedence, and that expression means what the tree means.
  */
module CompilerCorrectness {
  import opened Outcomes
  import opened Sequences
  import Decimal
  import opened Conditions
  import opened Sql
  import opened ConditionCompiler

  // ---- What a condition means, without any SQL ----

  function TestOf(op: Operator): Comparator
    requires OperatorText(op).Some?
  {
    match op
    case Eq => Equal
    case Neq => Different
    case Lt => Less
    case Lte => AtMost
    case Gt => Greater
    case Gte => AtLeast
  }

  /** Whether x is one of vs: unknown when x is null, since no literal is. */
  function OneOf(ord: Ordering, x: Value, vs: seq<Value>): Truth {
    if x.Null? then Unknown else Known(exists i :: 0 <= i < |vs| && ord(x, vs[i]) == 0)
  }

  /** What the literal of a predicate stands for. */
  ghost function OperandMeant(c: Condition): (o: Operand)
    requires ValidPredicate(c) && c.value.Some?
    ensures DenotesOperand(c.value.value, o)
    ensures if c.operator.In? || c.operator.NotIn? then o.Sequence? else o.Scalar?
  {
    DecodeIff(c.value.value, DecodeConditionValue(c.value.value).value);
    var o :| DenotesOperand(c.value.value, o);
    DecodeIff(c.value.value, o);
    o
  }

  lemma OperandMeantIs(c: Condition)
    requires ValidPredicate(c) && c.value.Some?
    ensures DecodeConditionValue(c.value.value) == Some(OperandMeant(c))
  {
    DecodeIff(c.value.value, OperandMeant(c));
  }

  ghost function PredicateMeaning(c: Condition, row: Row, cutoff: Value, ord: Ordering): Truth
    requires ValidPredicate(c)
  {
    var x := Cell(row, c.column);
    match c.operator
    case IsNull => Known(x.Null?)
    case IsNotNull => Known(!x.Null?)
    case BeforeCutoff => Compare(ord, Less, x, cutoff)
    case AfterCutoff => Compare(ord, AtLeast, x, cutoff)
    case In => OneOf(ord, x, OperandMeant(c).values)
    case NotIn => Not3(OneOf(ord, x, OperandMeant(c).values))
    case Eq | Neq | Lt | Lte | Gt | Gte => Compare(ord, TestOf(c.operator), x, OperandMeant(c).value)
  }

  /** The tree's own truth value on a row, group members combined by which values occur. */
  ghost function Meaning(c: Condition, row: Row, cutoff: Value, ord: Ordering): Truth
    requires WellFormed(c)
    decreases c, 1
  {
    if HasPredicateForm(c) then PredicateMeaning(c, row, cutoff, ord)
    else if c.negated.Some? then Not3(Meaning(c.negated.value, row, cutoff, ord))
    else if |c.any| > 0 then Disjunction(Meanings(c.any, row, cutoff, ord))
    else Conjunction(Meanings(c.all, row, cutoff, ord))
  }

  ghost function Meanings(cs: seq<Condition>, row: Row, cutoff: Value, ord: Ordering): (ts: seq<Truth>)
    requires AllWellFormed(cs)
    ensures |ts| == |cs|
    decreases cs, 0
  {
    if cs == [] then [] else [Meaning(cs[0], row, cutoff, ord)] + Meanings(cs[1..], row, cutoff, ord)
  }

  // ---- The expression the compiler intends ----

  /** The placeholder numbers for count arguments bound after the first n. */
  function Numbers(n: nat, count: nat): (ns: seq<nat>)
    ensures |ns| == count && forall i :: 0 <= i < count ==> ns[i] == n + 1 + i
  {
    seq(count, i => n + 1 + i)
  }

  function PlanPredicate(c: Condition, n: nat): Expr
    requires ValidPredicate(c)
  {
    match c.operator
    case IsNull => NullTest(c.column, false)
    case IsNotNull => NullTest(c.column, true)
    case BeforeCutoff => Comparison(c.column, Less, 1)
    case AfterCutoff => Comparison(c.column, AtLeast, 1)
    case In => Membership(c.column, false, Numbers(n, |DecodeConditionValue(c.value.value).value.values|))
    case NotIn => Membership(c.column, true, Numbers(n, |DecodeConditionValue(c.value.value).value.values|))
    case Eq | Neq | Lt | Lte | Gt | Gte => Comparison(c.column, TestOf(c.operator), n + 1)
  }

  /** The expression for a tree compiled with n arguments bound; one-member groups vanish. */
  function Plan(c: Condition, n: nat): Expr
    requires WellFormed(c)
    decreases c, 1
  {
    if HasPredicateForm(c) then PlanPredicate(c, n)
    else if c.negated.Some? then Not(Plan(c.negated.value, n))
    else
      var es := PlanEach(Children(c), n);
      if |c.any| > 0 then AnyOf(es) else AllOf(es)
  }

  function PlanEach(cs: seq<Condition>, n: nat): (es: seq<Expr>)
    requires AllWellFormed(cs)
    ensures |es| == |cs|
    decreases cs, 0
  {
    if cs == [] then [] else [Plan(cs[0], n)] + PlanEach(cs[1..], n + |Literals(cs[0])|)
  }

  function AllOf(es: seq<Expr>): Expr {
    if |es| == 1 then es[0] else And(es)
  }

  function AnyOf(es: seq<Expr>): Expr {
    if |es| == 1 then es[0] else Or(es)
  }

  // ---- The rendered text parses back to the plan ----

  /** What can follow a rendered condition: nothing, or the parenthesis that closes it. */
  predicate Closes(rest: string) {
    rest == "" || rest[0] == ')'
  }

  lemma {:induction false} NameOfIdentifier(name: string, rest: string)
    requires forall i :: 0 <= i < |name| ==> IsIdentifierChar(name[i])
    ensures NameOf(name + "\"" + rest) == name
  {
    if name != "" {
      assert (name + "\"" + rest)[1..] == name[1..] + "\"" + rest;
      NameOfIdentifier(name[1..], rest);
    }
  }

  /** A quoted identifier followed by a test is read as that identifier and that test. */
  lemma PrimaryReadsName(column: string, tail: string)
    requires IsIdentifier(column)
    ensures ParseUnary("\"" + column + "\"" + tail) == ParseTest(column, tail)
  {
    var s := "\"" + column + "\"" + tail;
    assert s[0] == '"';
    assert s[1..] == column + "\"" + tail;
    NameOfIdentifier(column, tail);
    assert s[|column| + 2..] == tail;
  }

  lemma PlaceholderReads(n: nat, rest: string)
    requires Decimal.NoDigitAhead(rest)
    ensures ParsePlaceholder(Placeholder(n) + rest) == Some((n, rest))
  {
    var s := Placeholder(n) + rest;
    assert s[0] == '$';
    assert s[1..] == Decimal.FormatNat(n) + rest;
    Decimal.ScanFormat(n, rest);
  }

  lemma {:induction false} PlaceholdersRead(n: nat, count: nat, rest: string)
    requires count > 0
    requires Closes(rest)
    ensures ParsePlaceholders(Join(Placeholders(n, count), ", ") + rest) == Some((Numbers(n, count), rest))
    decreases count
  {
    if count == 1 {
      SinglePlaceholder(n);
      PlaceholderReads(n + 1, rest);
    } else {
      var more := Join(Placeholders(n + 1, count - 1), ", ") + rest;
      MorePlaceholders(n, count, rest);
      PlaceholderReads(n + 1, ", " + more);
      StripPrefix(", ", more);
      PlaceholdersRead(n + 1, count - 1, rest);
    }
  }

  lemma SinglePlaceholder(n: nat)
    ensures Join(Placeholders(n, 1), ", ") == Placeholder(n + 1)
    ensures Numbers(n, 1) == [n + 1]
  {
    assert Placeholders(n + 1, 0) == [];
    assert Placeholders(n, 1) == [Placeholder(n + 1)];
  }

  lemma MorePlaceholders(n: nat, count: nat, rest: string)
    requires count > 1
    ensures Join(Placeholders(n, count), ", ") + rest
            == Placeholder(n + 1) + (", " + (Join(Placeholders(n + 1, count - 1), ", ") + rest))
    ensures Numbers(n, count) == [n + 1] + Numbers(n + 1, count - 1)
  {
    var parts := Placeholders(n, count);
    var tail := Placeholders(n + 1, count - 1);
    assert parts == [Placeholder(n + 1)] + tail && tail != [];
    assert parts[1..] == tail;
  }

  /** Text that differs from a prefix inside that prefix does not start with it. */
  lemma StripDiffers(prefix: string, s: string, i: nat)
    requires i < |prefix| && i < |s| && prefix[i] != s[i]
    ensures Strip(prefix, s).None?
  {
  }

  lemma TestReadsComparison(column: string, op: Operator, n: nat, rest: string)
    requires OperatorText(op).Some? && Decimal.NoDigitAhead(rest)
    ensures ParseTest(column, " " + OperatorText(op).value + " " + Placeholder(n) + rest)
            == Some((Comparison(column, TestOf(op), n), rest))
  {
    var lead := " " + OperatorText(op).value + " ";
    var body := Placeholder(n) + rest;
    assert " " + OperatorText(op).value + " " + Placeholder(n) + rest == lead + body;
    PlaceholderReads(n, rest);
    OperatorReads(column, op, body);
    SymbolIsNoWord(column, lead + body);
  }

  /** A test whose second character is no letter is read as an operator. */
  lemma SymbolIsNoWord(column: string, s: string)
    requires |s| > 1 && s[1] != 'I' && s[1] != 'N'
    ensures ParseTest(column, s) == ParseOperator(column, s)
  {
    StripDiffers(" IS NULL", s, 1);
    StripDiffers(" IS NOT NULL", s, 1);
    StripDiffers(" IN (", s, 1);
    StripDiffers(" NOT IN (", s, 1);
  }

  lemma OperatorReads(column: string, op: Operator, body: string)
    requires OperatorText(op).Some?
    ensures ParseOperator(column, " " + OperatorText(op).value + " " + body)
            == ParseComparison(column, TestOf(op), body)
  {
    var lead := " " + OperatorText(op).value + " ";
    StripPrefix(lead, body);
    OperatorsDiffer(op, lead + body);
    match op {
      case Eq => assert lead == " = ";
      case Neq => assert lead == " <> ";
      case Lt => assert lead == " < ";
      case Lte => assert lead == " <= ";
      case Gt => assert lead == " > ";
      case Gte => assert lead == " >= ";
    }
  }

  /** Among the six comparison operators, only the rendered one matches. */
  lemma OperatorsDiffer(op: Operator, s: string)
    requires OperatorText(op).Some? && " " + OperatorText(op).value + " " <= s
    ensures !op.Eq? ==> Strip(" = ", s).None?
    ensures !op.Neq? ==> Strip(" <> ", s).None?
    ensures !op.Lt? ==> Strip(" < ", s).None?
    ensures !op.Lte? ==> Strip(" <= ", s).None?
    ensures !op.Gt? ==> Strip(" > ", s).None?
    ensures !op.Gte? ==> Strip(" >= ", s).None?
  {
    var mine := " " + OperatorText(op).value + " ";
    assert s[1] == mine[1] && s[2] == mine[2];
    assert forall its: string :: 3 <= |its| && its <= s ==> its[1] == s[1] && its[2] == s[2];
  }

  lemma TestReadsMembership(column: string, negated: bool, n: nat, count: nat, rest: string)
    requires count > 0
    ensures ParseTest(column, (if negated then " NOT IN (" else " IN (")
                              + Join(Placeholders(n, count), ", ") + ")" + rest)
            == Some((Membership(column, negated, Numbers(n, count)), rest))
  {
    var lead := if negated then " NOT IN (" else " IN (";
    var list := Join(Placeholders(n, count), ", ");
    var s := lead + list + ")" + rest;
    assert s == lead + (list + (")" + rest));
    StripPrefix(lead, list + (")" + rest));
    assert forall i :: 0 <= i < |lead| ==> s[i] == lead[i];
    StripDiffers(" IS NULL", s, if negated then 1 else 2);
    StripDiffers(" IS NOT NULL", s, if negated then 1 else 2);
    if negated {
      StripDiffers(" IN (", s, 1);
    }
    MembershipReads(column, negated, n, count, rest);
  }

  lemma MembershipReads(column: string, negated: bool, n: nat, count: nat, rest: string)
    requires count > 0
    ensures ParseMembership(column, negated, Join(Placeholders(n, count), ", ") + (")" + rest))
            == Some((Membership(column, negated, Numbers(n, count)), rest))
  {
    PlaceholdersRead(n, count, ")" + rest);
    assert (")" + rest)[1..] == rest;
  }

  /** What follows the quoted column in a rendered predicate. */
  function TestText(c: Condition, n: nat): string
    requires ValidPredicate(c)
  {
    match c.operator
    case IsNull => " IS NULL"
    case IsNotNull => " IS NOT NULL"
    case BeforeCutoff => " < $1"
    case AfterCutoff => " >= $1"
    case In => " IN (" + Join(Placeholders(n, |DecodeConditionValue(c.value.value).value.values|), ", ") + ")"
    case NotIn => " NOT IN (" + Join(Placeholders(n, |DecodeConditionValue(c.value.value).value.values|), ", ") + ")"
    case Eq | Neq | Lt | Lte | Gt | Gte => " " + OperatorText(c.operator).value + " " + Placeholder(n + 1)
  }

  lemma PredicateText(c: Condition, n: nat)
    requires ValidPredicate(c)
    ensures CompilePredicate(c, n).Ok?
    ensures CompilePredicate(c, n).value.text == "\"" + c.column + "\"" + TestText(c, n)
    ensures Forms(c) == 1 ==> CompilePredicate(c, n).value.literals == Literals(c)
  {
    if c.value.Some? {
      ValuedText("\"" + c.column + "\"", c, n);
    }
  }

  lemma ValuedText(column: string, c: Condition, n: nat)
    requires ValidPredicate(c) && c.value.Some?
    ensures CompileValued(column, c, n).Ok?
    ensures CompileValued(column, c, n).value.text == column + TestText(c, n)
    ensures Forms(c) == 1 ==> CompileValued(column, c, n).value.literals == Literals(c)
  {
    if c.operator.In? || c.operator.NotIn? {
      var keyword := if c.operator.NotIn? then " NOT IN (" else " IN (";
      var list := Join(Placeholders(n, |DecodeConditionValue(c.value.value).value.values|), ", ");
      Regroup(column, keyword, list);
      Regroup(column, keyword + list, ")");
    } else {
      var op := OperatorText(c.operator).value;
      Regroup(column, " ", op);
      Regroup(column, " " + op, " ");
      Regroup(column, " " + op + " ", Placeholder(n + 1));
    }
  }

  lemma TestReadsNull(column: string, negated: bool, rest: string)
    ensures ParseTest(column, (if negated then " IS NOT NULL" else " IS NULL") + rest)
            == Some((NullTest(column, negated), rest))
  {
    var lead := if negated then " IS NOT NULL" else " IS NULL";
    StripPrefix(lead, rest);
    if negated {
      StripDiffers(" IS NULL", lead + rest, 5);
    }
  }

  lemma TestReads(c: Condition, n: nat, rest: string)
    requires ValidPredicate(c) && Decimal.NoDigitAhead(rest)
    ensures ParseTest(c.column, TestText(c, n) + rest) == Some((PlanPredicate(c, n), rest))
  {
    match c.operator {
      case IsNull => TestReadsNull(c.column, false, rest);
      case IsNotNull => TestReadsNull(c.column, true, rest);
      case BeforeCutoff =>
        assert Decimal.FormatNat(1) == "1";
        assert " < $1" == " " + "<" + " " + Placeholder(1);
        TestReadsComparison(c.column, Lt, 1, rest);
      case AfterCutoff =>
        assert Decimal.FormatNat(1) == "1";
        assert " >= $1" == " " + ">=" + " " + Placeholder(1);
        TestReadsComparison(c.column, Gte, 1, rest);
      case In =>
        TestReadsMembership(c.column, false, n, |DecodeConditionValue(c.value.value).value.values|, rest);
      case NotIn =>
        TestReadsMembership(c.column, true, n, |DecodeConditionValue(c.value.value).value.values|, rest);
      case Eq | Neq | Lt | Lte | Gt | Gte =>
        TestReadsComparison(c.column, c.operator, n + 1, rest);
    }
  }

  lemma NamedTestReads(column: string, test: string, rest: string, e: Expr)
    requires IsIdentifier(column) && ParseTest(column, test + rest) == Some((e, rest))
    ensures ParseUnary("\"" + column + "\"" + test + rest) == Some((e, rest))
  {
    PrimaryReadsName(column, test + rest);
    var quoted := "\"" + column + "\"";
    assert quoted + test + rest == quoted + (test + rest);
  }

  /** A rendered predicate parses back to the planned test. */
  lemma PredicateReads(c: Condition, n: nat, rest: string)
    requires ValidPredicate(c) && Decimal.NoDigitAhead(rest)
    ensures CompilePredicate(c, n).Ok?
    ensures ParseUnary(CompilePredicate(c, n).value.text + rest) == Some((PlanPredicate(c, n), rest))
  {
    PredicateText(c, n);
    TestReads(c, n, rest);
    NamedTestReads(c.column, TestText(c, n), rest, PlanPredicate(c, n));
  }

  // ---- Groups ----

  /** A clause the parser reads as one operand, whatever follows it. */
  ghost predicate ReadsAs(clause: string, e: Expr) {
    forall rest: string :: ParseUnary(clause + rest) == Some((e, rest))
  }

  ghost predicate EachReadsAs(clauses: seq<string>, es: seq<Expr>) {
    |clauses| == |es| && forall i :: 0 <= i < |es| ==> ReadsAs(clauses[i], es[i])
  }

  /** Text that continues neither a conjunction nor a disjunction. */
  predicate EndsGroup(rest: string) {
    Strip(" AND ", rest).None? && Strip(" OR ", rest).None?
  }

  lemma ClosingEndsGroup(rest: string)
    requires Closes(rest)
    ensures EndsGroup(rest)
  {
  }

  /** A single operand is a whole expression. */
  lemma OperandAlone(s: string, e: Expr, rest: string)
    requires ParseUnary(s) == Some((e, rest)) && EndsGroup(rest)
    ensures ParseOr(s) == Some((e, rest))
  {
    assert ParseAndList(s) == Some(([e], rest));
    assert ParseAnd(s) == Some((e, rest));
    assert ParseOrList(s) == Some(([e], rest));
  }

  lemma ParenthesesRead(t: string, e: Expr)
    requires forall rest: string :: Closes(rest) ==> ParseOr(t + rest) == Some((e, rest))
    ensures ReadsAs("(" + t + ")", e)
  {
    forall rest: string
      ensures ParseUnary("(" + t + ")" + rest) == Some((e, rest))
    {
      var s := "(" + t + ")" + rest;
      assert s[0] == '(';
      assert s[1..] == t + (")" + rest);
      assert (")" + rest)[1..] == rest;
    }
  }

  lemma NegationReads(clause: string, e: Expr)
    requires ReadsAs(clause, e)
    ensures ReadsAs("NOT " + clause, Not(e))
  {
    forall rest: string
      ensures ParseUnary("NOT " + clause + rest) == Some((Not(e), rest))
    {
      assert "NOT " + clause + rest == "NOT " + (clause + rest);
      StripPrefix("NOT ", clause + rest);
    }
  }

  lemma {:induction false} AndListReads(clauses: seq<string>, es: seq<Expr>, rest: string)
    requires es != [] && EachReadsAs(clauses, es) && Strip(" AND ", rest).None?
    ensures ParseAndList(Join(clauses, " AND ") + rest) == Some((es, rest))
    decreases |es|
  {
    assert ReadsAs(clauses[0], es[0]);
    if |es| == 1 {
      assert es == [es[0]];
      assert Join(clauses, " AND ") + rest == clauses[0] + rest;
    } else {
      var more := Join(clauses[1..], " AND ") + rest;
      assert Join(clauses, " AND ") + rest == clauses[0] + (" AND " + more);
      StripPrefix(" AND ", more);
      AndListReads(clauses[1..], es[1..], rest);
      assert es == [es[0]] + es[1..];
    }
  }

  lemma {:induction false} OrListReads(clauses: seq<string>, es: seq<Expr>, rest: string)
    requires es != [] && EachReadsAs(clauses, es) && EndsGroup(rest)
    ensures ParseOrList(Join(clauses, " OR ") + rest) == Some((es, rest))
    decreases |es|
  {
    assert ReadsAs(clauses[0], es[0]);
    if |es| == 1 {
      assert Join(clauses, " OR ") + rest == clauses[0] + rest;
      assert es == [es[0]];
      assert ParseAndList(clauses[0] + rest) == Some(([es[0]], rest));
    } else {
      var more := Join(clauses[1..], " OR ") + rest;
      assert Join(clauses, " OR ") + rest == clauses[0] + (" OR " + more);
      StripDiffers(" AND ", " OR " + more, 1);
      assert ParseAndList(clauses[0] + (" OR " + more)) == Some(([es[0]], " OR " + more));
      StripPrefix(" OR ", more);
      OrListReads(clauses[1..], es[1..], rest);
      assert es == [es[0]] + es[1..];
    }
  }

  lemma AllReads(clauses: seq<string>, es: seq<Expr>, rest: string)
    requires es != [] && EachReadsAs(clauses, es) && EndsGroup(rest)
    ensures ParseOr(Join(clauses, " AND ") + rest) == Some((AllOf(es), rest))
  {
    var s := Join(clauses, " AND ") + rest;
    AndListReads(clauses, es, rest);
    assert ParseAnd(s) == Some((AllOf(es), rest));
    assert ParseOrList(s) == Some(([AllOf(es)], rest));
  }

  lemma AnyReads(clauses: seq<string>, es: seq<Expr>, rest: string)
    requires es != [] && EachReadsAs(clauses, es) && EndsGroup(rest)
    ensures ParseOr(Join(clauses, " OR ") + rest) == Some((AnyOf(es), rest))
  {
    OrListReads(clauses, es, rest);
  }

  lemma AnyGroupReads(clauses: seq<string>, es: seq<Expr>)
    requires es != [] && EachReadsAs(clauses, es)
    ensures ReadsAs("(" + Join(clauses, " OR ") + ")", AnyOf(es))
  {
    forall rest: string | Closes(rest)
      ensures ParseOr(Join(clauses, " OR ") + rest) == Some((AnyOf(es), rest))
    {
      ClosingEndsGroup(rest);
      AnyReads(clauses, es, rest);
    }
    ParenthesesRead(Join(clauses, " OR "), AnyOf(es));
  }

  lemma NegatedGroupReads(clauses: seq<string>, es: seq<Expr>)
    requires es != [] && EachReadsAs(clauses, es)
    ensures ReadsAs("NOT (" + Join(clauses, " OR ") + ")", Not(AnyOf(es)))
  {
    var group := "(" + Join(clauses, " OR ") + ")";
    AnyGroupReads(clauses, es);
    NegationReads(group, AnyOf(es));
    assert "NOT (" + Join(clauses, " OR ") + ")" == "NOT " + group;
  }

  // ---- Trees ----

  /**
    Every well-formed tree compiles, binds exactly its literals, and its text parses back to the
    planned expression, leaving what follows it untouched.
    */
  lemma {:induction false} ConditionReads(c: Condition, n: nat)
    requires WellFormed(c)
    ensures CompileCondition(c, n).Ok?
    ensures CompileCondition(c, n).value.literals == Literals(c)
    ensures forall rest: string :: Closes(rest) ==>
              ParseOr(CompileCondition(c, n).value.text + rest) == Some((Plan(c, n), rest))
    decreases c, 1
  {
    if HasPredicateForm(c) {
      PredicateText(c, n);
      forall rest: string | Closes(rest)
        ensures ParseOr(CompileCondition(c, n).value.text + rest) == Some((Plan(c, n), rest))
      {
        ClosingEndsGroup(rest);
        PredicateReads(c, n, rest);
        OperandAlone(CompileCondition(c, n).value.text + rest, Plan(c, n), rest);
      }
    } else if c.negated.Some? {
      var inner := c.negated.value;
      ConditionReads(inner, n);
      var t := CompileCondition(inner, n).value.text;
      ParenthesesRead(t, Plan(inner, n));
      NegationReads("(" + t + ")", Plan(inner, n));
      assert "NOT (" + t + ")" == "NOT " + ("(" + t + ")");
      forall rest: string | Closes(rest)
        ensures ParseOr("NOT (" + t + ")" + rest) == Some((Plan(c, n), rest))
      {
        ClosingEndsGroup(rest);
        OperandAlone("NOT (" + t + ")" + rest, Plan(c, n), rest);
      }
    } else {
      var cs := Children(c);
      ConditionsRead(cs, n);
      var k := CompileConditions(cs, n).value;
      forall rest: string | Closes(rest)
        ensures ParseOr(CompileCondition(c, n).value.text + rest) == Some((Plan(c, n), rest))
      {
        ClosingEndsGroup(rest);
        if |c.any| > 0 {
          AnyReads(k.clauses, PlanEach(cs, n), rest);
        } else {
          AllReads(k.clauses, PlanEach(cs, n), rest);
        }
      }
    }
  }

  lemma {:induction false} ConditionsRead(cs: seq<Condition>, n: nat)
    requires AllWellFormed(cs)
    ensures CompileConditions(cs, n).Ok?
    ensures CompileConditions(cs, n).value.literals == LiteralsEach(cs)
    ensures EachReadsAs(CompileConditions(cs, n).value.clauses, PlanEach(cs, n))
    decreases cs, 0
  {
    if cs != [] {
      ConditionReads(cs[0], n);
      var t := CompileCondition(cs[0], n).value.text;
      ParenthesesRead(t, Plan(cs[0], n));
      ConditionsRead(cs[1..], n + |Literals(cs[0])|);
    }
  }

  // ---- Meaning ----

  /** The arguments hold the cutoff first and these literals right after the first n. */
  predicate Binds(args: seq<Value>, cutoff: Value, n: nat, literals: seq<Value>) {
    1 <= n && n + |literals| <= |args| && args[0] == cutoff && args[n..n + |literals|] == literals
  }

  lemma BindsSplit(args: seq<Value>, cutoff: Value, n: nat, head: seq<Value>, tail: seq<Value>)
    requires Binds(args, cutoff, n, head + tail)
    ensures Binds(args, cutoff, n, head) && Binds(args, cutoff, n + |head|, tail)
  {
    var all := args[n..n + |head + tail|];
    assert args[n..n + |head|] == all[..|head|] == head;
    assert args[n + |head|..n + |head| + |tail|] == all[|head|..] == tail;
  }

  lemma {:induction false} MembershipMeaning(x: Value, args: seq<Value>, n: nat, vs: seq<Value>, ord: Ordering)
    requires n + |vs| <= |args| && args[n..n + |vs|] == vs && vs != [] && Null !in vs
    ensures EvalMember(x, Numbers(n, |vs|), args, ord) == OneOf(ord, x, vs)
    decreases |vs|
  {
    var ns := Numbers(n, |vs|);
    assert vs[0] in vs;
    assert Bound(args, ns[0]) == args[n..n + |vs|][0] == vs[0];
    if |vs| == 1 {
      assert ns[1..] == [];
    } else {
      assert ns[1..] == Numbers(n + 1, |vs| - 1);
      assert args[n + 1..n + |vs|] == vs[1..];
      MembershipMeaning(x, args, n + 1, vs[1..], ord);
      OneOfSplits(ord, x, vs);
    }
  }

  lemma OneOfSplits(ord: Ordering, x: Value, vs: seq<Value>)
    requires vs != []
    ensures OneOf(ord, x, vs) ==
            if x.Null? then Unknown else Or3(Known(ord(x, vs[0]) == 0), OneOf(ord, x, vs[1..]))
  {
    if i :| 0 <= i < |vs| && ord(x, vs[i]) == 0 {
      assert i > 0 ==> vs[1..][i - 1] == vs[i];
    }
  }

  lemma PredicatePreserved(c: Condition, n: nat, row: Row, cutoff: Value, args: seq<Value>, ord: Ordering)
    requires ValidPredicate(c) && WellFormed(c) && HasPredicateForm(c)
    requires Binds(args, cutoff, n, Literals(c))
    ensures Eval(PlanPredicate(c, n), row, args, ord) == PredicateMeaning(c, row, cutoff, ord)
  {
    if c.value.Some? {
      OperandMeantIs(c);
    }
    match c.operator {
      case In | NotIn =>
        var vs := DecodeConditionValue(c.value.value).value.values;
        assert vs == Literals(c);
        MembershipMeaning(Cell(row, c.column), args, n, vs, ord);
      case Eq | Neq | Lt | Lte | Gt | Gte =>
        assert args[n] == args[n..n + 1][0];
      case _ =>
    }
  }

  lemma {:induction false} AndIsConjunction(es: seq<Expr>, ts: seq<Truth>, row: Row, args: seq<Value>, ord: Ordering)
    requires |es| == |ts| && forall i :: 0 <= i < |es| ==> Eval(es[i], row, args, ord) == ts[i]
    ensures EvalAnd(es, row, args, ord) == Conjunction(ts)
    decreases |es|
  {
    if es != [] {
      AndIsConjunction(es[1..], ts[1..], row, args, ord);
      assert ts == [ts[0]] + ts[1..];
    }
  }

  lemma {:induction false} OrIsDisjunction(es: seq<Expr>, ts: seq<Truth>, row: Row, args: seq<Value>, ord: Ordering)
    requires |es| == |ts| && forall i :: 0 <= i < |es| ==> Eval(es[i], row, args, ord) == ts[i]
    ensures EvalOr(es, row, args, ord) == Disjunction(ts)
    decreases |es|
  {
    if es != [] {
      OrIsDisjunction(es[1..], ts[1..], row, args, ord);
      assert ts == [ts[0]] + ts[1..];
    }
  }

  lemma GroupMeaning(es: seq<Expr>, ts: seq<Truth>, row: Row, args: seq<Value>, ord: Ordering)
    requires es != []
    requires |es| == |ts| && forall i :: 0 <= i < |es| ==> Eval(es[i], row, args, ord) == ts[i]
    ensures Eval(AllOf(es), row, args, ord) == Conjunction(ts)
    ensures Eval(AnyOf(es), row, args, ord) == Disjunction(ts)
  {
    AndIsConjunction(es, ts, row, args, ord);
    OrIsDisjunction(es, ts, row, args, ord);
    if |es| == 1 {
      assert ts == [ts[0]];
    }
  }

  /**
    Meaning preservation: evaluated against any argument list that binds the cutoff and this
    tree's literals - whatever was bound before or is bound later - the planned expression has the
    tree's own truth value on every row.
    */
  lemma {:induction false} PlanPreserves(c: Condition, n: nat, row: Row, cutoff: Value, args: seq<Value>, ord: Ordering)
    requires WellFormed(c) && Binds(args, cutoff, n, Literals(c))
    ensures Eval(Plan(c, n), row, args, ord) == Meaning(c, row, cutoff, ord)
    decreases c, 1
  {
    if HasPredicateForm(c) {
      PredicatePreserved(c, n, row, cutoff, args, ord);
    } else if c.negated.Some? {
      PlanPreserves(c.negated.value, n, row, cutoff, args, ord);
    } else {
      var cs := Children(c);
      PlansPreserve(cs, n, row, cutoff, args, ord);
      GroupMeaning(PlanEach(cs, n), Meanings(cs, row, cutoff, ord), row, args, ord);
    }
  }

  lemma {:induction false} PlansPreserve(cs: seq<Condition>, n: nat, row: Row, cutoff: Value, args: seq<Value>,
                                         ord: Ordering)
    requires AllWellFormed(cs) && Binds(args, cutoff, n, LiteralsEach(cs))
    ensures forall i :: 0 <= i < |cs| ==>
              Eval(PlanEach(cs, n)[i], row, args, ord) == Meanings(cs, row, cutoff, ord)[i]
    decreases cs, 0
  {
    if cs != [] {
      var head, tail := Literals(cs[0]), LiteralsEach(cs[1..]);
      BindsSplit(args, cutoff, n, head, tail);
      PlanPreserves(cs[0], n, row, cutoff, args, ord);
      PlansPreserve(cs[1..], n + |head|, row, cutoff, args, ord);
    }
  }
}
