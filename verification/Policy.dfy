/** The local safety policy (internal/policy/policy.go): validation, and the decision on a job. */
module Policy {
  import opened Outcomes
  import opened Sequences
  import opened Conditions
  import opened Job

  datatype Action = Inspect | DeleteRows | UnknownAction(name: string)

  datatype TableRule = TableRule(
    schema: string,
    table: string,
    actions: seq<Action>,
    retentionColumns: seq<string>,
    maxDeleteRows: int,
    maxBatchSize: int)

  datatype DriftMode = Unset | Strict | Bounded | UnknownMode(name: string)

  datatype DriftPolicy = DriftPolicy(mode: DriftMode, exactMatchBelowRows: int, maxRows: int, maxBasisPoints: int)

  datatype Safety = Safety(
    allowedSchemas: seq<string>,
    requireApproval: bool,
    drift: DriftPolicy,
    maxDeleteRows: int,
    maxBatchSize: int,
    statementTimeout: int,
    lockTimeout: int,
    maxDuration: int,
    tables: seq<TableRule>)

  // ---- Validation ----

  predicate ValidDriftPolicy(d: DriftPolicy) {
    && d.exactMatchBelowRows >= 0 && d.maxRows >= 0 && 0 <= d.maxBasisPoints <= 10_000
    && match d.mode
       case Strict => d.exactMatchBelowRows == 0 && d.maxRows == 0 && d.maxBasisPoints == 0
       case Bounded => d.exactMatchBelowRows != 0 && d.maxRows != 0 && d.maxBasisPoints != 0
       case _ => false
  }

  predicate ValidTable(s: Safety, rule: TableRule) {
    && IsIdentifier(rule.schema) && IsIdentifier(rule.table)
    && rule.schema in s.allowedSchemas
    && rule.actions != []
    && (forall a :: a in rule.actions ==> !a.UnknownAction?)
    && (forall c :: c in rule.retentionColumns ==> IsIdentifier(c))
    && (DeleteRows in rule.actions ==>
          rule.retentionColumns != [] && (rule.maxDeleteRows > 0 || s.maxDeleteRows > 0))
  }

  /** No two of the rules name the same table. */
  predicate DistinctTables(tables: seq<TableRule>) {
    forall i, j :: 0 <= i < j < |tables| ==>
      tables[i].schema != tables[j].schema || tables[i].table != tables[j].table
  }

  predicate ValidSafety(s: Safety) {
    && s.allowedSchemas != []
    && (forall name :: name in s.allowedSchemas ==> IsIdentifier(name))
    && (forall i :: 0 <= i < |s.tables| ==> ValidTable(s, s.tables[i]))
    && DistinctTables(s.tables)
    && s.maxDeleteRows >= 0 && s.maxBatchSize >= 0
    && ValidDriftPolicy(s.drift)
  }

  function TableKey(rule: TableRule): string {
    rule.schema + "." + rule.table
  }

  /** A dot cannot occur in an identifier, so the joined key names exactly one table. */
  lemma KeyNamesTable(a: TableRule, b: TableRule)
    requires IsIdentifier(a.schema) && IsIdentifier(b.schema) && TableKey(a) == TableKey(b)
    ensures a.schema == b.schema && a.table == b.table
  {
    var key := TableKey(a);
    assert forall i :: 0 <= i < |a.schema| ==> key[i] == a.schema[i] && key[i] != '.';
    assert forall i :: 0 <= i < |b.schema| ==> TableKey(b)[i] == b.schema[i];
    assert key[|a.schema|] == '.' && TableKey(b)[|b.schema|] == '.';
    assert |a.schema| == |b.schema|;
    assert a.schema == key[..|a.schema|] && b.schema == TableKey(b)[..|b.schema|];
    assert a.table == key[|a.schema| + 1..] && b.table == TableKey(b)[|b.schema| + 1..];
  }

  predicate DistinctKeys(tables: seq<TableRule>) {
    forall i, j :: 0 <= i < j < |tables| ==> TableKey(tables[i]) != TableKey(tables[j])
  }

  lemma DistinctKeysMeanDistinctTables(tables: seq<TableRule>)
    requires forall i :: 0 <= i < |tables| ==> IsIdentifier(tables[i].schema)
    ensures DistinctKeys(tables) <==> DistinctTables(tables)
  {
    if DistinctTables(tables) {
      forall i, j | 0 <= i < j < |tables| ensures TableKey(tables[i]) != TableKey(tables[j]) {
        if TableKey(tables[i]) == TableKey(tables[j]) {
          KeyNamesTable(tables[i], tables[j]);
        }
      }
    }
  }

  /** The loop of Safety.Validate: duplicates are found through a set of joined keys. */
  method ValidateTables(s: Safety) returns (ok: bool)
    ensures ok == ((forall i :: 0 <= i < |s.tables| ==> ValidTable(s, s.tables[i])) && DistinctKeys(s.tables))
  {
    var seen: set<string> := {};
    ghost var keys: seq<string> := [];
    for i := 0 to |s.tables|
      invariant |keys| == i
      invariant forall k :: 0 <= k < i ==> keys[k] == TableKey(s.tables[k]) && ValidTable(s, s.tables[k])
      invariant forall key :: key in seen <==> key in keys
      invariant forall j, k :: 0 <= j < k < i ==> keys[j] != keys[k]
    {
      var rule := s.tables[i];
      if !ValidTable(s, rule) {
        return false;
      }
      var key := TableKey(rule);
      if key in seen {
        ghost var k :| 0 <= k < i && keys[k] == key;
        assert TableKey(s.tables[k]) == TableKey(s.tables[i]);
        return false;
      }
      seen := seen + {key};
      keys := keys + [key];
    }
    forall j, k | 0 <= j < k < |s.tables| ensures TableKey(s.tables[j]) != TableKey(s.tables[k]) {
      assert keys[j] != keys[k];
    }
    return true;
  }

  /** Safety.Validate. */
  method ValidateSafety(s: Safety) returns (ok: bool)
    ensures ok == ValidSafety(s)
  {
    if s.allowedSchemas == [] || exists name :: name in s.allowedSchemas && !IsIdentifier(name) {
      return false;
    }
    ok := ValidateTables(s);
    if ok {
      DistinctKeysMeanDistinctTables(s.tables);
      ok := s.maxDeleteRows >= 0 && s.maxBatchSize >= 0 && ValidDriftPolicy(s.drift);
    } else if forall i :: 0 <= i < |s.tables| ==> ValidTable(s, s.tables[i]) {
      DistinctKeysMeanDistinctTables(s.tables);
    }
  }

  predicate GrantsDelete(s: Safety) {
    exists i :: 0 <= i < |s.tables| && DeleteRows in s.tables[i].actions
  }

  /** A small policy that grants deletes, with the drift policy a configuration gets by default. */
  const EXAMPLE_SAFETY :=
    Safety(["a"], false, DriftPolicy(Bounded, 1000, 100, 50), 0, 0, 0, 0, 0,
           [TableRule("a", "t", [DeleteRows], ["c"], 2000, 0)])

  lemma ExampleSafetyIsValid()
    ensures ValidSafety(EXAMPLE_SAFETY) && GrantsDelete(EXAMPLE_SAFETY)
  {
    var rule := EXAMPLE_SAFETY.tables[0];
    assert ValidTable(EXAMPLE_SAFETY, rule);
    assert DeleteRows in rule.actions;
  }

  // ---- The columns a job's trees name ----

  /** The order in which conditionColumns meets a tree's columns. */
  function ConditionColumns(c: Condition): seq<string>
    decreases c, 1
  {
    (if c.column != "" then [c.column] else [])
    + EachColumns(c.all) + EachColumns(c.any)
    + (if c.negated.Some? then ConditionColumns(c.negated.value) else [])
  }

  function EachColumns(cs: seq<Condition>): seq<string>
    decreases cs, 0
  {
    if cs == [] then [] else ConditionColumns(cs[0]) + EachColumns(cs[1..])
  }

  function JobColumns(condition: Option<Condition>, holds: seq<Condition>): seq<string> {
    (if condition.Some? then ConditionColumns(condition.value) else []) + EachColumns(holds)
  }

  /** The slice the recursive closure of conditionColumns appends to. */
  class Collector {
    var columns: seq<string>

    constructor ()
      ensures columns == []
    {
      columns := [];
    }

    method Visit(c: Condition)
      modifies this
      ensures columns == old(columns) + ConditionColumns(c)
      decreases c, 1
    {
      ghost var before := columns;
      ghost var own := if c.column != "" then [c.column] else [];
      ghost var below := if c.negated.Some? then ConditionColumns(c.negated.value) else [];
      if c.column != "" {
        columns := columns + [c.column];
      }
      assert columns == before + own;
      VisitEach(c.all);
      VisitEach(c.any);
      assert columns == before + own + EachColumns(c.all) + EachColumns(c.any);
      if c.negated.Some? {
        Visit(c.negated.value);
      }
      assert columns == before + own + EachColumns(c.all) + EachColumns(c.any) + below;
      Regroup(before, own, EachColumns(c.all));
      Regroup(before, own + EachColumns(c.all), EachColumns(c.any));
      Regroup(before, own + EachColumns(c.all) + EachColumns(c.any), below);
    }

    method VisitEach(cs: seq<Condition>)
      modifies this
      ensures columns == old(columns) + EachColumns(cs)
      decreases cs, 0
    {
      for i := 0 to |cs|
        invariant old(columns) + EachColumns(cs) == columns + EachColumns(cs[i..])
      {
        assert cs[i..][1..] == cs[i + 1..];
        Visit(cs[i]);
      }
    }
  }

  method CollectColumns(condition: Option<Condition>, holds: seq<Condition>) returns (columns: seq<string>)
    ensures columns == JobColumns(condition, holds)
  {
    var collector := new Collector();
    if condition.Some? {
      collector.Visit(condition.value);
    }
    collector.VisitEach(holds);
    return collector.columns;
  }

  // ---- Authorization ----

  datatype Denial =
    | ByLocalPolicy | OperationNotImplemented | TargetNotAllowed | ColumnNotAllowed
    | RowLimit | BatchLimit | ApprovalRequired | ApprovalExpired

  datatype Decision = Allowed(effective: Limits) | Denied(code: Denial)

  /** Safety.Rule: the first entry for a target. */
  function Rule(tables: seq<TableRule>, t: Target): (r: Option<TableRule>)
    ensures r.Some? ==> r.value in tables && r.value.schema == t.schema && r.value.table == t.table
    ensures r.None? ==> forall rule :: rule in tables ==> rule.schema != t.schema || rule.table != t.table
  {
    if tables == [] then None
    else if tables[0].schema == t.schema && tables[0].table == t.table then Some(tables[0])
    else
      var r := Rule(tables[1..], t);
      assert forall rule :: rule in tables ==> rule == tables[0] || rule in tables[1..];
      r
  }

  function SmallestPositive(left: int, right: int): int {
    if left <= 0 then right else if right <= 0 then left else if left < right then left else right
  }

  function RowCeiling(s: Safety, rule: TableRule): int {
    SmallestPositive(rule.maxDeleteRows, s.maxDeleteRows)
  }

  function BatchCeiling(s: Safety, rule: TableRule): int {
    SmallestPositive(rule.maxBatchSize, s.maxBatchSize)
  }

  function CheckCeilings(s: Safety, rule: TableRule, l: Limits): Option<Denial> {
    if RowCeiling(s, rule) > 0 && l.maxRows > RowCeiling(s, rule) then Some(RowLimit)
    else if BatchCeiling(s, rule) > 0 && l.batchSize > BatchCeiling(s, rule) then Some(BatchLimit)
    else None
  }

  function CheckApproval(s: Safety, j: Envelope, now: int): Option<Denial> {
    if !j.operation.Delete? || !s.requireApproval then None
    else if j.approval.None? then Some(ApprovalRequired)
    else if now >= j.approval.value.expiresAt then Some(ApprovalExpired)
    else None
  }

  /** Plans the local policy wants recounted exactly. */
  predicate NeedsExactRecount(d: DriftPolicy, expected: int) {
    d.mode.Strict? || expected < d.exactMatchBelowRows
  }

  function CheckDrift(s: Safety, j: Envelope): Option<Denial> {
    if !j.operation.Delete? then None
    else if j.drift.None? then Some(ByLocalPolicy)
    else
      var d := j.drift.value;
      if NeedsExactRecount(s.drift, d.expectedRows) then
        if d.maxRows == 0 && d.maxBasisPoints == 0 then None else Some(ByLocalPolicy)
      else if d.maxRows > s.drift.maxRows || d.maxBasisPoints > s.drift.maxBasisPoints then Some(ByLocalPolicy)
      else None
  }

  function Clamp(asked: int, ceiling: int): int {
    if ceiling > 0 then SmallestPositive(asked, ceiling) else asked
  }

  function EffectiveLimits(s: Safety, l: Limits): Limits {
    l.(statementTimeout := Clamp(l.statementTimeout, s.statementTimeout),
       lockTimeout := Clamp(l.lockTimeout, s.lockTimeout),
       maxDuration := Clamp(l.maxDuration, s.maxDuration))
  }

  const NO_LIMITS := Limits(0, 0, 0, 0, 0, 0)

  /** Safety.Authorize. */
  function Authorize(s: Safety, j: Envelope, now: int): Decision {
    match j.operation
    case TestConnection => Allowed(NO_LIMITS)
    case Discover => Allowed(NO_LIMITS)
    case UnknownOperation(_) => Denied(OperationNotImplemented)
    case _ =>
      if j.target.None? || j.retention.None? || j.limits.None? then Denied(ByLocalPolicy)
      else if j.target.value.schema !in s.allowedSchemas then Denied(TargetNotAllowed)
      else
        match Rule(s.tables, j.target.value)
        case None => Denied(TargetNotAllowed)
        case Some(rule) => AuthorizeUnder(s, rule, j, now)
  }

  function AuthorizeUnder(s: Safety, rule: TableRule, j: Envelope, now: int): Decision
    requires j.target.Some? && j.retention.Some? && j.limits.Some?
  {
    var required := if j.operation.Delete? then DeleteRows else Inspect;
    if required !in rule.actions then Denied(TargetNotAllowed)
    else if j.retention.value.column !in rule.retentionColumns then Denied(ColumnNotAllowed)
    else if exists c :: c in JobColumns(j.condition, j.holds) && c !in rule.retentionColumns
    then Denied(ColumnNotAllowed)
    else if CheckCeilings(s, rule, j.limits.value).Some? then Denied(CheckCeilings(s, rule, j.limits.value).value)
    else if CheckApproval(s, j, now).Some? then Denied(CheckApproval(s, j, now).value)
    else if CheckDrift(s, j).Some? then Denied(CheckDrift(s, j).value)
    else Allowed(EffectiveLimits(s, j.limits.value))
  }

  // ---- What an authorization means ----

  function RequiredAction(j: Envelope): Action {
    if j.operation.Delete? then DeleteRows else Inspect
  }

  /** The rule is the target's own, in an allowed schema, and grants what the operation needs. */
  predicate GrantsTarget(s: Safety, rule: TableRule, j: Envelope)
    requires j.target.Some?
  {
    && rule in s.tables && rule.schema == j.target.value.schema && rule.table == j.target.value.table
    && rule.schema in s.allowedSchemas
    && RequiredAction(j) in rule.actions
  }

  /** Every column the job names is a retention column of the rule. */
  predicate ListsColumns(rule: TableRule, j: Envelope)
    requires j.retention.Some?
  {
    && j.retention.value.column in rule.retentionColumns
    && forall c :: c in JobColumns(j.condition, j.holds) ==> c in rule.retentionColumns
  }

  /** A requested amount respects a ceiling; a ceiling that is not positive is none. */
  predicate Respects(asked: int, ceiling: int) {
    ceiling > 0 ==> asked <= ceiling
  }

  predicate ApprovalHolds(s: Safety, j: Envelope, now: int) {
    j.operation.Delete? && s.requireApproval ==> j.approval.Some? && now < j.approval.value.expiresAt
  }

  /** The tolerances of a delete are within the local drift policy. */
  predicate DriftAllowed(s: Safety, j: Envelope) {
    j.operation.Delete? ==>
      && j.drift.Some?
      && var d := j.drift.value;
         if s.drift.mode.Strict? || d.expectedRows < s.drift.exactMatchBelowRows
         then d.maxRows == 0 && d.maxBasisPoints == 0
         else d.maxRows <= s.drift.maxRows && d.maxBasisPoints <= s.drift.maxBasisPoints
  }

  predicate RowsRespected(s: Safety, rule: TableRule, j: Envelope)
    requires j.limits.Some?
  {
    Respects(j.limits.value.maxRows, rule.maxDeleteRows) && Respects(j.limits.value.maxRows, s.maxDeleteRows)
  }

  predicate BatchRespected(s: Safety, rule: TableRule, j: Envelope)
    requires j.limits.Some?
  {
    Respects(j.limits.value.batchSize, rule.maxBatchSize) && Respects(j.limits.value.batchSize, s.maxBatchSize)
  }

  /** What a rule has to grant for a count or delete to run under it. */
  predicate Grants(s: Safety, rule: TableRule, j: Envelope, now: int)
    requires j.target.Some? && j.retention.Some? && j.limits.Some?
  {
    && GrantsTarget(s, rule, j) && ListsColumns(rule, j)
    && RowsRespected(s, rule, j) && BatchRespected(s, rule, j)
    && ApprovalHolds(s, j, now) && DriftAllowed(s, j)
  }

  lemma CeilingsIff(s: Safety, rule: TableRule, j: Envelope)
    requires j.limits.Some?
    ensures CheckCeilings(s, rule, j.limits.value) ==
            if !RowsRespected(s, rule, j) then Some(RowLimit)
            else if !BatchRespected(s, rule, j) then Some(BatchLimit)
            else None
  {
  }

  /** The decision under one rule, and the first thing that stands in its way. */
  lemma DecidedUnder(s: Safety, rule: TableRule, j: Envelope, now: int)
    requires j.target.Some? && j.retention.Some? && j.limits.Some?
    ensures AuthorizeUnder(s, rule, j, now) ==
            if RequiredAction(j) !in rule.actions then Denied(TargetNotAllowed)
            else if !ListsColumns(rule, j) then Denied(ColumnNotAllowed)
            else if !RowsRespected(s, rule, j) then Denied(RowLimit)
            else if !BatchRespected(s, rule, j) then Denied(BatchLimit)
            else if !ApprovalHolds(s, j, now)
            then Denied(if j.approval.None? then ApprovalRequired else ApprovalExpired)
            else if !DriftAllowed(s, j) then Denied(ByLocalPolicy)
            else Allowed(EffectiveLimits(s, j.limits.value))
  {
    CeilingsIff(s, rule, j);
  }

  /**
    A valid count or delete is allowed if and only if the one rule for its target grants the action,
    lists every column the job names, and the ceilings, the approval and the drift policy are met.
    */
  lemma AllowedIff(s: Safety, j: Envelope, now: int)
    requires ValidSafety(s) && Valid(j) && (j.operation.Count? || j.operation.Delete?)
    ensures Authorize(s, j, now).Allowed? <==> exists rule :: rule in s.tables && Grants(s, rule, j, now)
  {
    var found := Rule(s.tables, j.target.value);
    if found.Some? {
      DecidedUnder(s, found.value, j, now);
    }
    forall rule | rule in s.tables && Grants(s, rule, j, now) ensures found == Some(rule) {
      RuleIsUnique(s, j.target.value, rule);
    }
  }

  /** Why a valid count or delete is denied: the first check of the order below that it fails. */
  lemma DeniedIff(s: Safety, j: Envelope, now: int, rule: TableRule)
    requires ValidSafety(s) && Valid(j) && (j.operation.Count? || j.operation.Delete?)
    requires rule in s.tables && rule.schema == j.target.value.schema && rule.table == j.target.value.table
    ensures var code := Authorize(s, j, now);
            var target, columns := GrantsTarget(s, rule, j), ListsColumns(rule, j);
            var rows, batch := RowsRespected(s, rule, j), BatchRespected(s, rule, j);
            && (code == Denied(TargetNotAllowed) <==> !target)
            && (code == Denied(ColumnNotAllowed) <==> target && !columns)
            && (code == Denied(RowLimit) <==> target && columns && !rows)
            && (code == Denied(BatchLimit) <==> target && columns && rows && !batch)
            && (code == Denied(ApprovalExpired) <==> target && columns && rows && batch && !ApprovalHolds(s, j, now))
            && (code == Denied(ByLocalPolicy) <==>
                target && columns && rows && batch && ApprovalHolds(s, j, now) && !DriftAllowed(s, j))
  {
    RuleIsUnique(s, j.target.value, rule);
    DecidedUnder(s, rule, j, now);
  }

  /**
    A target without a rule, or outside the allowed schemas, is not allowed - not even by a policy
    nobody validated.
    */
  lemma NoRuleNoGrant(s: Safety, j: Envelope, now: int)
    requires Valid(j) && (j.operation.Count? || j.operation.Delete?)
    requires j.target.value.schema !in s.allowedSchemas
             || forall rule :: rule in s.tables ==>
                  rule.schema != j.target.value.schema || rule.table != j.target.value.table
    ensures Authorize(s, j, now) == Denied(TargetNotAllowed)
  {
  }

  /** r is the smaller of the positive ones among asked and a ceiling; without a ceiling it is asked. */
  predicate Tightened(asked: int, ceiling: int, r: int) {
    if ceiling <= 0 then r == asked
    else 0 < r && (r == asked || r == ceiling) && r <= ceiling && (asked > 0 ==> r <= asked)
  }

  /** The limits a granted job runs under: protective timeouts tightened, everything else as asked. */
  lemma EffectiveLimitsAre(s: Safety, l: Limits)
    ensures var e := EffectiveLimits(s, l);
            && e.batchSize == l.batchSize && e.maxRows == l.maxRows && e.pauseBetweenBatches == l.pauseBetweenBatches
            && Tightened(l.statementTimeout, s.statementTimeout, e.statementTimeout)
            && Tightened(l.lockTimeout, s.lockTimeout, e.lockTimeout)
            && Tightened(l.maxDuration, s.maxDuration, e.maxDuration)
  {
  }

  /** A limit where zero stands for "none": a is at least as strict as b. */
  predicate AsStrict(a: int, b: int) {
    b > 0 ==> 0 < a <= b
  }

  /**
    An authorized delete runs under a positive local row ceiling that its max_rows respects; its
    scope is untouched by the clamping, which only ever tightens the protective timeouts.
    */
  lemma AuthorizedWithinCeilings(s: Safety, j: Envelope, now: int)
    requires ValidSafety(s) && Valid(j) && j.operation.Delete? && Authorize(s, j, now).Allowed?
    ensures var rule := Rule(s.tables, j.target.value);
            && rule.Some?
            && RowCeiling(s, rule.value) > 0
            && j.limits.value.maxRows <= RowCeiling(s, rule.value)
            && AsStrict(j.limits.value.batchSize, BatchCeiling(s, rule.value))
    ensures var effective, asked := Authorize(s, j, now).effective, j.limits.value;
            && effective.maxRows == asked.maxRows && effective.batchSize == asked.batchSize
            && AsStrict(effective.statementTimeout, asked.statementTimeout)
            && AsStrict(effective.statementTimeout, s.statementTimeout)
            && AsStrict(effective.lockTimeout, asked.lockTimeout) && AsStrict(effective.lockTimeout, s.lockTimeout)
            && AsStrict(effective.maxDuration, asked.maxDuration) && AsStrict(effective.maxDuration, s.maxDuration)
    ensures s.requireApproval ==> now < j.approval.value.expiresAt
    ensures Grants(s, Rule(s.tables, j.target.value).value, j, now)
  {
    DecidedUnder(s, Rule(s.tables, j.target.value).value, j, now);
    var rule := Rule(s.tables, j.target.value).value;
    var i :| 0 <= i < |s.tables| && s.tables[i] == rule;
    assert ValidTable(s, s.tables[i]);
  }

  /** The rule that decided is the only one for the target. */
  lemma RuleIsUnique(s: Safety, t: Target, rule: TableRule)
    requires ValidSafety(s) && rule in s.tables && rule.schema == t.schema && rule.table == t.table
    ensures Rule(s.tables, t) == Some(rule)
  {
    var found := Rule(s.tables, t).value;
    var i :| 0 <= i < |s.tables| && s.tables[i] == rule;
    var k :| 0 <= k < |s.tables| && s.tables[k] == found;
    assert i == k;
  }
}
