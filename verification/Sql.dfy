/**
  The fragment of SQL the connector emits in a WHERE clause: its syntax tree, its meaning under
  three-valued logic (PostgreSQL manual, section 9.1), and a parser with the precedence of
  section 4.1.6 of that manual - NOT binds tighter than AND, AND tighter than OR.
  */
module Sql {
  import opened Outcomes
  import Decimal
  import opened Conditions

  // ---- Three-valued logic ----

  datatype Truth = True | False | Unknown

  function Not3(a: Truth): Truth {
    match a case True => False case False => True case Unknown => Unknown
  }

  function And3(a: Truth, b: Truth): Truth {
    if a.False? || b.False? then False else if a.Unknown? || b.Unknown? then Unknown else True
  }

  function Or3(a: Truth, b: Truth): Truth {
    if a.True? || b.True? then True else if a.Unknown? || b.Unknown? then Unknown else False
  }

  function Known(b: bool): Truth {
    if b then True else False
  }

  /**
    The database's comparison of two non-null values: negative, zero or positive. It is a
    parameter of every meaning below, so nothing depends on collation or on type coercion.
    */
  type Ordering = (Value, Value) -> int

  type Row = map<string, Value>

  function Cell(row: Row, column: string): Value {
    if column in row then row[column] else Null
  }

  datatype Comparator = Equal | Different | Less | AtMost | Greater | AtLeast

  function Compare(ord: Ordering, op: Comparator, a: Value, b: Value): Truth {
    if a.Null? || b.Null? then Unknown
    else
      match op
      case Equal => Known(ord(a, b) == 0)
      case Different => Known(ord(a, b) != 0)
      case Less => Known(ord(a, b) < 0)
      case AtMost => Known(ord(a, b) <= 0)
      case Greater => Known(ord(a, b) > 0)
      case AtLeast => Known(ord(a, b) >= 0)
  }

  // ---- Syntax trees ----

  datatype Expr =
    | Comparison(column: string, op: Comparator, param: nat)
    | NullTest(column: string, negated: bool)
    | Membership(column: string, negated: bool, params: seq<nat>)
    | Not(operand: Expr)
    | And(conjuncts: seq<Expr>)
    | Or(disjuncts: seq<Expr>)

  /** The value bound to $i. */
  function Bound(args: seq<Value>, i: nat): Value {
    if 1 <= i <= |args| then args[i - 1] else Null
  }

  function Eval(e: Expr, row: Row, args: seq<Value>, ord: Ordering): Truth
    decreases e, 1
  {
    match e
    case Comparison(column, op, param) => Compare(ord, op, Cell(row, column), Bound(args, param))
    case NullTest(column, negated) => Known(Cell(row, column).Null? != negated)
    case Membership(column, negated, params) =>
      var member := EvalMember(Cell(row, column), params, args, ord);
      if negated then Not3(member) else member
    case Not(operand) => Not3(Eval(operand, row, args, ord))
    case And(es) => EvalAnd(es, row, args, ord)
    case Or(es) => EvalOr(es, row, args, ord)
  }

  /** x IN ($a, $b, ...) is x = $a OR x = $b OR ... */
  function EvalMember(x: Value, params: seq<nat>, args: seq<Value>, ord: Ordering): Truth {
    if params == [] then False
    else Or3(Compare(ord, Equal, x, Bound(args, params[0])), EvalMember(x, params[1..], args, ord))
  }

  function EvalAnd(es: seq<Expr>, row: Row, args: seq<Value>, ord: Ordering): Truth
    decreases es, 0
  {
    if es == [] then True else And3(Eval(es[0], row, args, ord), EvalAnd(es[1..], row, args, ord))
  }

  function EvalOr(es: seq<Expr>, row: Row, args: seq<Value>, ord: Ordering): Truth
    decreases es, 0
  {
    if es == [] then False else Or3(Eval(es[0], row, args, ord), EvalOr(es[1..], row, args, ord))
  }

  /** The columns an expression reads. */
  function Columns(e: Expr): set<string>
    decreases e, 1
  {
    match e
    case Comparison(column, _, _) => {column}
    case NullTest(column, _) => {column}
    case Membership(column, _, _) => {column}
    case Not(operand) => Columns(operand)
    case And(es) => ColumnsEach(es)
    case Or(es) => ColumnsEach(es)
  }

  function ColumnsEach(es: seq<Expr>): set<string>
    decreases es, 0
  {
    if es == [] then {} else Columns(es[0]) + ColumnsEach(es[1..])
  }

  // ---- Text ----

  /** strings.Join. */
  function Join(parts: seq<string>, separator: string): string {
    if parts == [] then ""
    else if |parts| == 1 then parts[0]
    else parts[0] + separator + Join(parts[1..], separator)
  }

  // ---- Parser ----

  function Strip(prefix: string, s: string): (r: Option<string>)
    ensures r.Some? ==> s == prefix + r.value
  {
    if prefix <= s then Some(s[|prefix|..]) else None
  }

  lemma StripPrefix(prefix: string, rest: string)
    ensures Strip(prefix, prefix + rest) == Some(rest)
  {
    assert (prefix + rest)[|prefix|..] == rest;
  }

  type Parsed = Option<(Expr, string)>

  function ParseOr(s: string): (r: Parsed)
    ensures r.Some? ==> |r.value.1| < |s|
    decreases |s|, 5
  {
    match ParseOrList(s)
    case None => None
    case Some((es, rest)) => Some((if |es| == 1 then es[0] else Or(es), rest))
  }

  function ParseOrList(s: string): (r: Option<(seq<Expr>, string)>)
    ensures r.Some? ==> |r.value.1| < |s|
    decreases |s|, 4
  {
    match ParseAnd(s)
    case None => None
    case Some((e, rest)) =>
      match Strip(" OR ", rest)
      case None => Some(([e], rest))
      case Some(more) =>
        match ParseOrList(more)
        case None => None
        case Some((es, end)) => Some(([e] + es, end))
  }

  function ParseAnd(s: string): (r: Parsed)
    ensures r.Some? ==> |r.value.1| < |s|
    decreases |s|, 3
  {
    match ParseAndList(s)
    case None => None
    case Some((es, rest)) => Some((if |es| == 1 then es[0] else And(es), rest))
  }

  function ParseAndList(s: string): (r: Option<(seq<Expr>, string)>)
    ensures r.Some? ==> |r.value.1| < |s|
    decreases |s|, 2
  {
    match ParseUnary(s)
    case None => None
    case Some((e, rest)) =>
      match Strip(" AND ", rest)
      case None => Some(([e], rest))
      case Some(more) =>
        match ParseAndList(more)
        case None => None
        case Some((es, end)) => Some(([e] + es, end))
  }

  function ParseUnary(s: string): (r: Parsed)
    ensures r.Some? ==> |r.value.1| < |s|
    decreases |s|, 1
  {
    match Strip("NOT ", s)
    case Some(more) =>
      (match ParseUnary(more)
       case None => None
       case Some((e, rest)) => Some((Not(e), rest)))
    case None => ParsePrimary(s)
  }

  function ParsePrimary(s: string): (r: Parsed)
    ensures r.Some? ==> |r.value.1| < |s|
    decreases |s|, 0
  {
    if s == "" then None
    else if s[0] == '(' then
      match ParseOr(s[1..])
      case None => None
      case Some((e, rest)) => if rest != "" && rest[0] == ')' then Some((e, rest[1..])) else None
    else if s[0] == '"' then
      var name := NameOf(s[1..]);
      if |name| + 1 < |s| then ParseTest(name, s[|name| + 2..]) else None
    else None
  }

  /** The characters before the next double quote. */
  function NameOf(s: string): (name: string)
    ensures |name| <= |s|
  {
    if s == "" || s[0] == '"' then "" else [s[0]] + NameOf(s[1..])
  }

  /** What may follow a quoted column name. */
  function ParseTest(column: string, s: string): (r: Parsed)
    ensures r.Some? ==> |r.value.1| < |s|
  {
    if Strip(" IS NULL", s).Some? then Some((NullTest(column, false), Strip(" IS NULL", s).value))
    else if Strip(" IS NOT NULL", s).Some? then Some((NullTest(column, true), Strip(" IS NOT NULL", s).value))
    else if Strip(" IN (", s).Some? then ParseMembership(column, false, Strip(" IN (", s).value)
    else if Strip(" NOT IN (", s).Some? then ParseMembership(column, true, Strip(" NOT IN (", s).value)
    else ParseOperator(column, s)
  }

  function ParseOperator(column: string, s: string): (r: Parsed)
    ensures r.Some? ==> |r.value.1| < |s|
  {
    if Strip(" = ", s).Some? then ParseComparison(column, Equal, Strip(" = ", s).value)
    else if Strip(" <> ", s).Some? then ParseComparison(column, Different, Strip(" <> ", s).value)
    else if Strip(" < ", s).Some? then ParseComparison(column, Less, Strip(" < ", s).value)
    else if Strip(" <= ", s).Some? then ParseComparison(column, AtMost, Strip(" <= ", s).value)
    else if Strip(" > ", s).Some? then ParseComparison(column, Greater, Strip(" > ", s).value)
    else if Strip(" >= ", s).Some? then ParseComparison(column, AtLeast, Strip(" >= ", s).value)
    else None
  }

  function ParseComparison(column: string, op: Comparator, s: string): (r: Parsed)
    ensures r.Some? ==> |r.value.1| < |s|
  {
    match ParsePlaceholder(s)
    case None => None
    case Some((n, rest)) => Some((Comparison(column, op, n), rest))
  }

  function ParsePlaceholder(s: string): (r: Option<(nat, string)>)
    ensures r.Some? ==> |r.value.1| < |s|
  {
    if s == "" || s[0] != '$' then None else Decimal.ScanNat(s[1..])
  }

  function ParseMembership(column: string, negated: bool, s: string): (r: Parsed)
    ensures r.Some? ==> |r.value.1| < |s|
  {
    match ParsePlaceholders(s)
    case None => None
    case Some((ns, rest)) =>
      if rest != "" && rest[0] == ')' then Some((Membership(column, negated, ns), rest[1..])) else None
  }

  function ParsePlaceholders(s: string): (r: Option<(seq<nat>, string)>)
    ensures r.Some? ==> |r.value.1| < |s|
    decreases |s|
  {
    match ParsePlaceholder(s)
    case None => None
    case Some((n, rest)) =>
      match Strip(", ", rest)
      case None => Some(([n], rest))
      case Some(more) =>
        match ParsePlaceholders(more)
        case None => None
        case Some((ns, end)) => Some(([n] + ns, end))
  }

  /** A whole clause: the expression, with nothing left over. */
  function Parse(s: string): Option<Expr> {
    match ParseOr(s)
    case Some((e, rest)) => if rest == "" then Some(e) else None
    case None => None
  }

  // ---- Folding over operands ----

  /** What a conjunction of truth values amounts to, stated by which values occur. */
  function Conjunction(ts: seq<Truth>): Truth {
    if False in ts then False else if Unknown in ts then Unknown else True
  }

  function Disjunction(ts: seq<Truth>): Truth {
    if True in ts then True else if Unknown in ts then Unknown else False
  }
}
