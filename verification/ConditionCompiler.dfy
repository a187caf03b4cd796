/**
  The condition compiler of adapters/postgres/sql.go: a recursive tree becomes parameterised text
  while a shared argument list grows. The functions give what each call returns for a given number
  of arguments already bound; class Builder is the code's own form, with the list as mutable state.
  */
module ConditionCompiler {
  import opened Outcomes
  import Decimal
  import opened Conditions
  import opened Sql

  /** IdentifierPanic is the process abort of quoteIdentifier; the others are returned errors. */
  datatype Fault = IdentifierPanic | BadValue | UnsupportedOperator

  datatype Compiled = Compiled(text: string, literals: seq<Value>)

  datatype CompiledEach = CompiledEach(clauses: seq<string>, literals: seq<Value>)

  function QuoteIdentifier(name: string): Result<string, Fault> {
    if IsIdentifier(name) then Ok("\"" + name + "\"") else Err(IdentifierPanic)
  }

  function Placeholder(n: nat): string {
    "$" + Decimal.FormatNat(n)
  }

  /** The placeholders for count arguments bound after the first n. */
  function Placeholders(n: nat, count: nat): seq<string>
    decreases count
  {
    if count == 0 then [] else [Placeholder(n + 1)] + Placeholders(n + 1, count - 1)
  }

  lemma {:induction false} OneMorePlaceholder(n: nat, count: nat)
    ensures Placeholders(n, count + 1) == Placeholders(n, count) + [Placeholder(n + count + 1)]
    decreases count
  {
    if count > 0 {
      OneMorePlaceholder(n + 1, count - 1);
    }
  }

  function OperatorText(op: Operator): Option<string> {
    match op
    case Eq => Some("=")
    case Neq => Some("<>")
    case Lt => Some("<")
    case Lte => Some("<=")
    case Gt => Some(">")
    case Gte => Some(">=")
    case _ => None
  }

  /** compilePredicate, called with n arguments bound. */
  function CompilePredicate(c: Condition, n: nat): Result<Compiled, Fault> {
    match QuoteIdentifier(c.column)
    case Err(f) => Err(f)
    case Ok(column) =>
      match c.operator
      case IsNull => Ok(Compiled(column + " IS NULL", []))
      case IsNotNull => Ok(Compiled(column + " IS NOT NULL", []))
      case BeforeCutoff => Ok(Compiled(column + " < $1", []))
      case AfterCutoff => Ok(Compiled(column + " >= $1", []))
      case _ => CompileValued(column, c, n)
  }

  function CompileValued(column: string, c: Condition, n: nat): Result<Compiled, Fault> {
    var decoded := if c.value.Some? then DecodeConditionValue(c.value.value) else None;
    match decoded
    case None => Err(BadValue)
    case Some(Sequence(values)) =>
      var keyword := if c.operator.NotIn? then " NOT IN (" else " IN (";
      Ok(Compiled(column + keyword + Join(Placeholders(n, |values|), ", ") + ")", values))
    case Some(Scalar(value)) =>
      match OperatorText(c.operator)
      case None => Err(UnsupportedOperator)
      case Some(op) => Ok(Compiled(column + " " + op + " " + Placeholder(n + 1), [value]))
  }

  /** compileCondition, called with n arguments bound. */
  function CompileCondition(c: Condition, n: nat): Result<Compiled, Fault>
    decreases c, 1
  {
    if c.column != "" then CompilePredicate(c, n)
    else if c.negated.Some? then
      match CompileCondition(c.negated.value, n)
      case Err(f) => Err(f)
      case Ok(k) => Ok(Compiled("NOT (" + k.text + ")", k.literals))
    else
      match CompileConditions(Children(c), n)
      case Err(f) => Err(f)
      case Ok(k) => Ok(Compiled(Join(k.clauses, Joiner(c)), k.literals))
  }

  function Joiner(c: Condition): string {
    if |c.any| > 0 then " OR " else " AND "
  }

  /** compileConditions, and the loop over children: each clause is parenthesised. */
  function CompileConditions(cs: seq<Condition>, n: nat): Result<CompiledEach, Fault>
    decreases cs, 0
  {
    if cs == [] then Ok(CompiledEach([], []))
    else
      match CompileCondition(cs[0], n)
      case Err(f) => Err(f)
      case Ok(k) => Prepend("(" + k.text + ")", k.literals, CompileConditions(cs[1..], n + |k.literals|))
  }

  function Prepend(clause: string, literals: seq<Value>, r: Result<CompiledEach, Fault>): Result<CompiledEach, Fault> {
    match r
    case Err(f) => Err(f)
    case Ok(k) => Ok(CompiledEach([clause] + k.clauses, literals + k.literals))
  }

  function PrependAll(done: CompiledEach, r: Result<CompiledEach, Fault>): Result<CompiledEach, Fault> {
    match r
    case Err(f) => Err(f)
    case Ok(k) => Ok(CompiledEach(done.clauses + k.clauses, done.literals + k.literals))
  }

  lemma PrependNothing(r: Result<CompiledEach, Fault>)
    ensures PrependAll(CompiledEach([], []), r) == r
  {
    if r.Ok? {
      assert [] + r.value.clauses == r.value.clauses;
      assert [] + r.value.literals == r.value.literals;
    }
  }

  lemma PrependOne(done: CompiledEach, clause: string, literals: seq<Value>, r: Result<CompiledEach, Fault>)
    ensures PrependAll(done, Prepend(clause, literals, r)) ==
            PrependAll(CompiledEach(done.clauses + [clause], done.literals + literals), r)
  {
    if r.Ok? {
      var k := r.value;
      assert done.clauses + ([clause] + k.clauses) == (done.clauses + [clause]) + k.clauses;
      assert done.literals + (literals + k.literals) == (done.literals + literals) + k.literals;
    }
  }

  /** The argument list one statement accumulates, and the methods that append to it. */
  class Builder {
    var arguments: seq<Value>

    constructor (cutoff: Value)
      ensures arguments == [cutoff]
    {
      arguments := [cutoff];
    }

    /** What a call starting from before has to leave behind. */
    ghost predicate Built(before: seq<Value>, text: Result<string, Fault>, spec: Result<Compiled, Fault>)
      reads this
    {
      match spec
      case Err(f) => text == Err(f) && before <= arguments
      case Ok(k) => text == Ok(k.text) && arguments == before + k.literals
    }

    method BuildPredicate(c: Condition) returns (text: Result<string, Fault>)
      modifies this
      ensures Built(old(arguments), text, CompilePredicate(c, |old(arguments)|))
    {
      var quoted := QuoteIdentifier(c.column);
      if quoted.Err? {
        return Err(quoted.error);
      }
      var column := quoted.value;
      match c.operator {
        case IsNull => return Ok(column + " IS NULL");
        case IsNotNull => return Ok(column + " IS NOT NULL");
        case BeforeCutoff => return Ok(column + " < $1");
        case AfterCutoff => return Ok(column + " >= $1");
        case _ =>
      }
      var decoded := if c.value.Some? then DecodeConditionValue(c.value.value) else None;
      if decoded.None? {
        return Err(BadValue);
      }
      if decoded.value.Sequence? {
        var list := BuildList(decoded.value.values);
        var keyword := if c.operator.NotIn? then " NOT IN (" else " IN (";
        return Ok(column + keyword + Join(list, ", ") + ")");
      }
      var op := OperatorText(c.operator);
      if op.None? {
        return Err(UnsupportedOperator);
      }
      arguments := arguments + [decoded.value.value];
      return Ok(column + " " + op.value + " " + Placeholder(|arguments|));
    }

    /** Binds a list of values one by one. */
    method BuildList(values: seq<Value>) returns (placeholders: seq<string>)
      modifies this
      ensures arguments == old(arguments) + values
      ensures placeholders == Placeholders(|old(arguments)|, |values|)
    {
      placeholders := [];
      for i := 0 to |values|
        invariant arguments == old(arguments) + values[..i]
        invariant placeholders == Placeholders(|old(arguments)|, i)
      {
        OneMorePlaceholder(|old(arguments)|, i);
        arguments := arguments + [values[i]];
        placeholders := placeholders + [Placeholder(|arguments|)];
      }
      assert values[..|values|] == values;
    }

    method BuildCondition(c: Condition) returns (text: Result<string, Fault>)
      modifies this
      ensures Built(old(arguments), text, CompileCondition(c, |old(arguments)|))
      decreases c, 1
    {
      if c.column != "" {
        text := BuildPredicate(c);
      } else if c.negated.Some? {
        text := BuildCondition(c.negated.value);
        if text.Ok? {
          text := Ok("NOT (" + text.value + ")");
        }
      } else {
        var clauses := BuildConditions(Children(c));
        text := match clauses case Err(f) => Err(f) case Ok(parts) => Ok(Join(parts, Joiner(c)));
      }
    }

    method BuildConditions(cs: seq<Condition>) returns (clauses: Result<seq<string>, Fault>)
      modifies this
      ensures match CompileConditions(cs, |old(arguments)|)
              case Err(f) => clauses == Err(f) && old(arguments) <= arguments
              case Ok(k) => clauses == Ok(k.clauses) && arguments == old(arguments) + k.literals
      decreases cs, 0
    {
      var parts: seq<string> := [];
      ghost var literals: seq<Value> := [];
      PrependNothing(CompileConditions(cs, |arguments|));
      assert cs[0..] == cs;
      for i := 0 to |cs|
        invariant arguments == old(arguments) + literals
        invariant CompileConditions(cs, |old(arguments)|) ==
                  PrependAll(CompiledEach(parts, literals), CompileConditions(cs[i..], |arguments|))
      {
        ghost var before := arguments;
        var text := BuildCondition(cs[i]);
        if text.Err? {
          return Err(text.error);
        }
        assert cs[i..][1..] == cs[i + 1..];
        ghost var added := arguments[|before|..];
        PrependOne(CompiledEach(parts, literals), "(" + text.value + ")", added,
                   CompileConditions(cs[i + 1..], |arguments|));
        parts := parts + ["(" + text.value + ")"];
        literals := literals + added;
      }
      assert cs[|cs|..] == [] && parts + [] == parts && literals + [] == literals;
      clauses := Ok(parts);
    }
  }
}
