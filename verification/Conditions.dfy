/**
  The declarative condition tree a job carries, and its structural validation
  (protocol/v1/job.go). A Condition has the fields of the wire type; only validation makes sure
  that exactly one of its forms is present.
  */
module Conditions {
  import opened Outcomes
  import Decimal
  import JsonTree

  /** What a bound argument or a table cell can hold. */
  datatype Value =
    | Null
    | Text(s: string)
    | Integer(n: int)
    | Boolean(b: bool)
    | Instant(at: int)

  datatype Operator =
    | Absent
    | Eq | Neq | Lt | Lte | Gt | Gte
    | In | NotIn
    | IsNull | IsNotNull
    | BeforeCutoff | AfterCutoff
    | Unrecognised(name: string)

  datatype Condition = Condition(
    column: string,
    operator: Operator,
    value: Option<JsonTree.Tree>,
    all: seq<Condition>,
    any: seq<Condition>,
    negated: Option<Condition>)

  predicate IsIdentifier(name: string) {
    && 1 <= |name| <= 63
    && !('0' <= name[0] <= '9')
    && forall i :: 0 <= i < |name| ==> IsIdentifierChar(name[i])
  }

  predicate IsIdentifierChar(c: char) {
    'a' <= c <= 'z' || '0' <= c <= '9' || c == '_'
  }

  // ---- Literals ----

  datatype Operand = Scalar(value: Value) | Sequence(values: seq<Value>)

  /** One scalar JSON literal; floats, out-of-range integers, null and objects have no value here. */
  function NormalizeScalar(t: JsonTree.Tree): (r: Option<Value>)
    ensures r.Some? ==> !r.value.Null?
  {
    match t
    case Text(s) => Some(Text(s))
    case Bool(b) => Some(Boolean(b))
    case Number(text) =>
      if '.' in text || 'e' in text || 'E' in text then None
      else
        (match Decimal.ParseInt64(text)
         case Some(n) => Some(Integer(n))
         case None => None)
    case _ => None
  }

  function NormalizeItems(items: seq<JsonTree.Tree>): (r: Option<seq<Value>>)
    ensures r.Some? ==> |r.value| == |items| && Null !in r.value
  {
    if items == [] then Some([])
    else
      match (NormalizeItems(items[..|items| - 1]), NormalizeScalar(items[|items| - 1]))
      case (Some(vs), Some(v)) => Some(vs + [v])
      case _ => None
  }

  /** DecodeConditionValue: a nested list is refused because no list is a scalar. */
  function DecodeConditionValue(t: JsonTree.Tree): (r: Option<Operand>)
    ensures r.Some? && r.value.Scalar? ==> !t.Array? && !r.value.value.Null?
    ensures r.Some? && r.value.Sequence? ==> t.Array? && |r.value.values| == |t.items| && Null !in r.value.values
  {
    match t
    case Array(items) =>
      (match NormalizeItems(items)
       case Some(vs) => Some(Sequence(vs))
       case None => None)
    case _ =>
      match NormalizeScalar(t)
      case Some(v) => Some(Scalar(v))
      case None => None
  }

  // ---- What a literal stands for ----

  /** A JSON scalar and the value it is: text and booleans as they are, and a number its integer. */
  predicate Denotes(t: JsonTree.Tree, v: Value) {
    match t
    case Text(s) => v == Text(s)
    case Bool(b) => v == Boolean(b)
    case Number(text) => v.Integer? && Decimal.IsInt64(v.n) && Decimal.Spells(text, v.n)
    case _ => false
  }

  predicate EachDenotes(items: seq<JsonTree.Tree>, vs: seq<Value>) {
    |vs| == |items| && forall i :: 0 <= i < |items| ==> Denotes(items[i], vs[i])
  }

  /** A scalar stands for one value, a list for the values of its items in order. */
  predicate DenotesOperand(t: JsonTree.Tree, o: Operand) {
    match o
    case Scalar(v) => Denotes(t, v)
    case Sequence(vs) => t.Array? && EachDenotes(t.items, vs)
  }

  lemma NormalizeScalarIff(t: JsonTree.Tree, v: Value)
    ensures NormalizeScalar(t) == Some(v) <==> Denotes(t, v)
  {
    if t.Number? {
      Decimal.ParseInt64Iff(t.text, if v.Integer? then v.n else 0);
    }
  }

  lemma {:induction false} NormalizeItemsIff(items: seq<JsonTree.Tree>, vs: seq<Value>)
    ensures NormalizeItems(items) == Some(vs) <==> EachDenotes(items, vs)
    decreases |items|
  {
    if items != [] {
      var k := |items| - 1;
      if |vs| == |items| {
        NormalizeItemsIff(items[..k], vs[..k]);
        NormalizeScalarIff(items[k], vs[k]);
        assert vs == vs[..k] + [vs[k]];
      }
    }
  }

  /** Decoding gives an operand exactly when the literal stands for it. */
  lemma DecodeIff(t: JsonTree.Tree, o: Operand)
    ensures DecodeConditionValue(t) == Some(o) <==> DenotesOperand(t, o)
  {
    match o {
      case Scalar(v) => NormalizeScalarIff(t, v);
      case Sequence(vs) =>
        if t.Array? {
          NormalizeItemsIff(t.items, vs);
        }
    }
  }

  /** A list is refused exactly when some item stands for nothing. */
  lemma {:induction false} NormalizeItemsRefusesIff(items: seq<JsonTree.Tree>)
    ensures NormalizeItems(items).None? <==> exists i :: 0 <= i < |items| && Meaningless(items[i])
    decreases |items|
  {
    if items != [] {
      var k := |items| - 1;
      NormalizeItemsRefusesIff(items[..k]);
      MeaninglessIff(items[k]);
      if i :| 0 <= i < |items| && Meaningless(items[i]) {
        assert i < k ==> items[..k][i] == items[i];
      }
    }
  }

  /** The literal stands for nothing. */
  ghost predicate Meaningless(t: JsonTree.Tree) {
    forall v :: !Denotes(t, v)
  }

  lemma MeaninglessIff(t: JsonTree.Tree)
    ensures NormalizeScalar(t).None? <==> Meaningless(t)
  {
    forall v ensures NormalizeScalar(t) == Some(v) <==> Denotes(t, v) {
      NormalizeScalarIff(t, v);
    }
    if NormalizeScalar(t).Some? {
      assert Denotes(t, NormalizeScalar(t).value);
    }
  }

  /** The slice-building loop of normalizeConditionValue. */
  method NormalizeList(items: seq<JsonTree.Tree>) returns (r: Option<seq<Value>>)
    ensures r == NormalizeItems(items)
    ensures r.Some? ==> EachDenotes(items, r.value)
    ensures r.None? <==> exists i :: 0 <= i < |items| && Meaningless(items[i])
  {
    NormalizeItemsRefusesIff(items);
    var values := [];
    for i := 0 to |items|
      invariant NormalizeItems(items[..i]) == Some(values)
    {
      assert items[..i + 1][..i] == items[..i];
      var v := NormalizeScalar(items[i]);
      if v.None? {
        NormalizeItemsPrefix(items, i + 1);
        return None;
      }
      values := values + [v.value];
    }
    assert items[..|items|] == items;
    NormalizeItemsIff(items, values);
    return Some(values);
  }

  /** A bad item spoils the list, whatever follows it. */
  lemma {:induction false} NormalizeItemsPrefix(items: seq<JsonTree.Tree>, k: nat)
    requires k <= |items| && NormalizeItems(items[..k]).None?
    ensures NormalizeItems(items).None?
    decreases |items|
  {
    if k == |items| {
      assert items[..k] == items;
    } else {
      assert items[..|items| - 1][..k] == items[..k];
      NormalizeItemsPrefix(items[..|items| - 1], k);
    }
  }

  // ---- Structural validation ----

  const NODE_BUDGET := 500
  const MAX_DEPTH := 16
  const MAX_GROUP := 100
  const MAX_VALUES := 100

  predicate HasPredicateForm(c: Condition) {
    c.column != "" || !c.operator.Absent? || c.value.Some?
  }

  function Forms(c: Condition): nat {
    (if HasPredicateForm(c) then 1 else 0)
    + (if |c.all| > 0 then 1 else 0)
    + (if |c.any| > 0 then 1 else 0)
    + (if c.negated.Some? then 1 else 0)
  }

  predicate Valueless(op: Operator) {
    op.IsNull? || op.IsNotNull? || op.BeforeCutoff? || op.AfterCutoff?
  }

  /** validatePredicate. */
  predicate ValidPredicate(c: Condition) {
    && IsIdentifier(c.column)
    && !c.operator.Absent? && !c.operator.Unrecognised?
    && (Valueless(c.operator) <==> c.value.None?)
    && (c.value.Some? ==>
          var decoded := DecodeConditionValue(c.value.value);
          && decoded.Some?
          && (if c.operator.In? || c.operator.NotIn?
              then decoded.value.Sequence? && 1 <= |decoded.value.values| <= MAX_VALUES
              else decoded.value.Scalar?))
  }

  /** The children validation and compilation walk: Any when it is non-empty, All otherwise. */
  function Children(c: Condition): seq<Condition> {
    if |c.any| > 0 then c.any else c.all
  }

  /**
    Condition.validate: the budget after the walk, or None when the tree is refused. Every node
    costs one unit of a budget shared by the whole job.
    */
  function Validate(c: Condition, budget: nat, depth: nat): (r: Option<nat>)
    decreases c, 1
  {
    if budget + 1 > NODE_BUDGET || depth > MAX_DEPTH || Forms(c) != 1 then None
    else if HasPredicateForm(c) then
      if ValidPredicate(c) then Some(budget + 1) else None
    else if |Children(c)| > MAX_GROUP then None
    else
      match ValidateEach(Children(c), budget + 1, depth + 1)
      case None => None
      case Some(spent) =>
        if c.negated.Some? then Validate(c.negated.value, spent, depth + 1) else Some(spent)
  }

  function ValidateEach(cs: seq<Condition>, budget: nat, depth: nat): (r: Option<nat>)
    decreases cs, 0
  {
    if cs == [] then Some(budget)
    else
      match Validate(cs[0], budget, depth)
      case None => None
      case Some(spent) => ValidateEach(cs[1..], spent, depth)
  }

  /** The budget counter one job's validation shares between its trees. */
  class Budget {
    var used: nat

    constructor ()
      ensures used == 0
    {
      used := 0;
    }

    method ValidateCondition(c: Condition, depth: nat) returns (ok: bool)
      modifies this
      ensures ok == Validate(c, old(used), depth).Some?
      ensures ok ==> Validate(c, old(used), depth) == Some(used)
      decreases c, 1
    {
      used := used + 1;
      if used > NODE_BUDGET || depth > MAX_DEPTH {
        return false;
      }
      if Forms(c) != 1 {
        return false;
      }
      if HasPredicateForm(c) {
        return ValidPredicate(c);
      }
      var children := Children(c);
      if |children| > MAX_GROUP {
        return false;
      }
      ok := ValidateConditions(children, depth + 1);
      if ok && c.negated.Some? {
        ok := ValidateCondition(c.negated.value, depth + 1);
      }
    }

    method ValidateConditions(cs: seq<Condition>, depth: nat) returns (ok: bool)
      modifies this
      ensures ok == ValidateEach(cs, old(used), depth).Some?
      ensures ok ==> ValidateEach(cs, old(used), depth) == Some(used)
      decreases cs, 0
    {
      for i := 0 to |cs|
        invariant ValidateEach(cs, old(used), depth) == ValidateEach(cs[i..], used, depth)
      {
        assert cs[i..][1..] == cs[i + 1..];
        ok := ValidateCondition(cs[i], depth);
        if !ok {
          return;
        }
      }
      ok := true;
    }
  }

  // ---- What validation establishes ----

  /** Shape of a validated tree: exactly one form at every node, every predicate well-formed. */
  predicate WellFormed(c: Condition)
    decreases c, 1
  {
    && Forms(c) == 1
    && (if HasPredicateForm(c) then ValidPredicate(c)
        else if c.negated.Some? then WellFormed(c.negated.value)
        else AllWellFormed(Children(c)))
  }

  predicate AllWellFormed(cs: seq<Condition>)
    decreases cs, 0
  {
    cs == [] || (WellFormed(cs[0]) && AllWellFormed(cs[1..]))
  }

  function Nodes(c: Condition): nat
    decreases c, 1
  {
    1 + NodesEach(Children(c)) + (if c.negated.Some? then Nodes(c.negated.value) else 0)
  }

  function NodesEach(cs: seq<Condition>): nat
    decreases cs, 0
  {
    if cs == [] then 0 else Nodes(cs[0]) + NodesEach(cs[1..])
  }

  /** The literals a well-formed tree binds, in the order a left-to-right walk meets them. */
  function Literals(c: Condition): seq<Value>
    requires WellFormed(c)
    decreases c, 1
  {
    if HasPredicateForm(c) then
      if c.value.None? then []
      else
        match DecodeConditionValue(c.value.value).value
        case Scalar(v) => [v]
        case Sequence(vs) => vs
    else if c.negated.Some? then Literals(c.negated.value)
    else LiteralsEach(Children(c))
  }

  function LiteralsEach(cs: seq<Condition>): seq<Value>
    requires AllWellFormed(cs)
    decreases cs, 0
  {
    if cs == [] then [] else Literals(cs[0]) + LiteralsEach(cs[1..])
  }

  /** How far the deepest node lies below the root. */
  function Height(c: Condition): nat
    decreases c, 1
  {
    if c.negated.Some? then 1 + Height(c.negated.value)
    else if Children(c) == [] then 0
    else 1 + HeightEach(Children(c))
  }

  function HeightEach(cs: seq<Condition>): nat
    decreases cs, 0
  {
    if cs == [] then 0
    else
      var first, others := Height(cs[0]), HeightEach(cs[1..]);
      if first < others then others else first
  }

  /** No group of the tree has more members than a group may have. */
  predicate Narrow(c: Condition)
    decreases c, 1
  {
    |Children(c)| <= MAX_GROUP && NarrowEach(Children(c)) && (c.negated.Some? ==> Narrow(c.negated.value))
  }

  predicate NarrowEach(cs: seq<Condition>)
    decreases cs, 0
  {
    cs == [] || (Narrow(cs[0]) && NarrowEach(cs[1..]))
  }

  /** What a tree has to be to be accepted at a depth with part of the budget spent. */
  predicate Acceptable(c: Condition, budget: nat, depth: nat) {
    WellFormed(c) && Narrow(c) && budget + Nodes(c) <= NODE_BUDGET && depth + Height(c) <= MAX_DEPTH
  }

  predicate AllAcceptable(cs: seq<Condition>, budget: nat, depth: nat) {
    && AllWellFormed(cs) && NarrowEach(cs)
    && (cs != [] ==> budget + NodesEach(cs) <= NODE_BUDGET && depth + HeightEach(cs) <= MAX_DEPTH)
  }

  /**
    Validation accepts exactly the well-formed trees within the limits on nodes, depth and group
    size, and charges the shared budget exactly the node count.
    */
  lemma {:induction false} ValidatedIff(c: Condition, budget: nat, depth: nat)
    ensures Validate(c, budget, depth) == if Acceptable(c, budget, depth) then Some(budget + Nodes(c)) else None
    decreases c, 1
  {
    assert NodesEach([]) == 0 && NarrowEach([]);
    if Forms(c) == 1 {
      if HasPredicateForm(c) {
        assert Children(c) == [] && c.negated.None?;
      } else if c.negated.Some? {
        assert Children(c) == [];
        assert ValidateEach([], budget + 1, depth + 1) == Some(budget + 1);
        ValidatedIff(c.negated.value, budget + 1, depth + 1);
      } else {
        ValidatedEachIff(Children(c), budget + 1, depth + 1);
      }
    }
  }

  lemma {:induction false} ValidatedEachIff(cs: seq<Condition>, budget: nat, depth: nat)
    ensures ValidateEach(cs, budget, depth)
            == if AllAcceptable(cs, budget, depth) then Some(budget + NodesEach(cs)) else None
    decreases cs, 0
  {
    if cs != [] {
      ValidatedIff(cs[0], budget, depth);
      ValidatedEachIff(cs[1..], budget + Nodes(cs[0]), depth);
      AcceptableSplits(cs, budget, depth);
    }
  }

  lemma AcceptableSplits(cs: seq<Condition>, budget: nat, depth: nat)
    requires cs != []
    ensures AllAcceptable(cs, budget, depth) <==>
            Acceptable(cs[0], budget, depth) && AllAcceptable(cs[1..], budget + Nodes(cs[0]), depth)
  {
    assert NodesEach(cs) == Nodes(cs[0]) + NodesEach(cs[1..]);
    assert HeightEach(cs) == if Height(cs[0]) < HeightEach(cs[1..]) then HeightEach(cs[1..]) else Height(cs[0]);
    if cs[1..] == [] {
      assert NodesEach(cs[1..]) == 0 && HeightEach(cs[1..]) == 0;
    }
  }

  // ---- The limits, met and passed ----

  const LEAF := Condition("a", IsNull, None, [], [], None)

  /** A chain of k nodes above one predicate, as far as validation is concerned. */
  predicate IsChain(c: Condition, k: nat) {
    WellFormed(c) && Narrow(c) && Nodes(c) == k + 1 && Height(c) == k
  }

  lemma LeafIs()
    ensures IsChain(LEAF, 0)
  {
    assert ValidPredicate(LEAF) && Forms(LEAF) == 1 && Children(LEAF) == [];
    assert NodesEach([]) == 0 && NarrowEach([]);
  }

  function Negation(c: Condition): Condition {
    Condition("", Absent, None, [], [], Some(c))
  }

  lemma NegationIs(c: Condition, k: nat)
    requires IsChain(c, k)
    ensures IsChain(Negation(c), k + 1)
  {
    var n := Negation(c);
    assert Forms(n) == 1 && !HasPredicateForm(n) && Children(n) == [];
    assert NodesEach([]) == 0 && NarrowEach([]);
  }

  /** A predicate under k negations. */
  function Negations(k: nat): Condition {
    if k == 0 then LEAF else Negation(Negations(k - 1))
  }

  lemma {:induction false} NegationsAre(k: nat)
    ensures IsChain(Negations(k), k)
  {
    if k == 0 {
      LeafIs();
    } else {
      NegationsAre(k - 1);
      NegationIs(Negations(k - 1), k - 1);
    }
  }

  /** A tree may be sixteen levels deep, and no deeper. */
  lemma SixteenLevels(k: nat)
    ensures Validate(Negations(k), 0, 0).Some? <==> k <= 16
  {
    NegationsAre(k);
    ValidatedIff(Negations(k), 0, 0);
  }

  /** A disjunction of k predicates. */
  function Alternatives(k: nat): Condition {
    Condition("", Absent, None, [], Leaves(k), None)
  }

  function Leaves(k: nat): (cs: seq<Condition>)
    ensures |cs| == k
  {
    if k == 0 then [] else [LEAF] + Leaves(k - 1)
  }

  lemma {:induction false} LeavesAre(k: nat)
    ensures AllWellFormed(Leaves(k)) && NarrowEach(Leaves(k)) && NodesEach(Leaves(k)) == k && HeightEach(Leaves(k)) == 0
  {
    LeafIs();
    if k > 0 {
      LeavesAre(k - 1);
      assert Leaves(k)[0] == LEAF && Leaves(k)[1..] == Leaves(k - 1);
    }
  }

  /** A group may have a hundred members, and no more; an empty one has no form at all. */
  lemma HundredMembers(k: nat)
    ensures Validate(Alternatives(k), 0, 0).Some? <==> 1 <= k <= 100
  {
    LeavesAre(k);
    ValidatedIff(Alternatives(k), 0, 0);
    if k > 0 {
      assert Nodes(Alternatives(k)) == k + 1 && Height(Alternatives(k)) == 1;
    }
  }

  /** A tree binds at most MAX_VALUES literals per node. */
  lemma {:induction false} LiteralsBounded(c: Condition)
    requires WellFormed(c)
    ensures |Literals(c)| <= MAX_VALUES * Nodes(c)
    decreases c, 1
  {
    if !HasPredicateForm(c) {
      if c.negated.Some? {
        LiteralsBounded(c.negated.value);
      } else {
        LiteralsEachBounded(Children(c));
      }
    }
  }

  lemma {:induction false} LiteralsEachBounded(cs: seq<Condition>)
    requires AllWellFormed(cs)
    ensures |LiteralsEach(cs)| <= MAX_VALUES * NodesEach(cs)
    decreases cs, 0
  {
    if cs != [] {
      LiteralsBounded(cs[0]);
      LiteralsEachBounded(cs[1..]);
    }
  }
}
