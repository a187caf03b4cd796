/**
  The job envelope and its structural validation (protocol/v1/job.go). Times are integers counted
  from the zero time, durations differences of them. The regular expressions over identities,
  nonce, digest and signature are one flag each: they are engines outside this model.
  */
module Job {
  import opened Outcomes
  import opened Conditions

  datatype Operation = TestConnection | Discover | Count | Delete | UnknownOperation(name: string)

  datatype PredicateType = Before | OnOrBefore | UnknownType(name: string)

  datatype Predicate = Predicate(kind: PredicateType, column: string, at: int)

  datatype Target = Target(schema: string, table: string)

  datatype Limits = Limits(
    batchSize: int,
    maxRows: int,
    statementTimeout: int,
    lockTimeout: int,
    maxDuration: int,
    pauseBetweenBatches: int)

  datatype Drift = Drift(expectedRows: int, maxRows: int, maxBasisPoints: int)

  datatype Approval = Approval(wellFormedId: bool, approvedAt: int, expiresAt: int)

  datatype Envelope = Envelope(
    wellFormedHeader: bool,
    organization: string,
    connector: string,
    dataSource: string,
    operation: Operation,
    target: Option<Target>,
    retention: Option<Predicate>,
    condition: Option<Condition>,
    holds: seq<Condition>,
    limits: Option<Limits>,
    drift: Option<Drift>,
    wellFormedPlanDigest: bool,
    approval: Option<Approval>,
    issuedAt: int,
    expiresAt: int,
    nonce: string)

  predicate ValidLimits(l: Limits) {
    && 1 <= l.batchSize <= 50_000
    && 1 <= l.maxRows <= 100_000_000
    && 1 <= l.statementTimeout <= 3600
    && 0 <= l.lockTimeout <= 600
    && 0 <= l.maxDuration <= 86_400
    && 0 <= l.pauseBetweenBatches <= 60_000
    && l.batchSize <= l.maxRows
  }

  /** What the batch loop needs of its limits; clamping the timeouts preserves it. */
  predicate PositiveScope(l: Limits) {
    1 <= l.batchSize && 1 <= l.maxRows
  }

  predicate ValidDrift(d: Drift) {
    && 0 <= d.expectedRows <= 100_000_000
    && 0 <= d.maxRows <= 100_000_000
    && 0 <= d.maxBasisPoints <= 10_000
  }

  /** The budget left spent by the condition, the start of the holds' share. */
  function ConditionBudget(condition: Option<Condition>): Option<nat> {
    if condition.Some? then Validate(condition.value, 0, 0) else Some(0)
  }

  predicate ValidTrees(condition: Option<Condition>, holds: seq<Condition>) {
    && ConditionBudget(condition).Some?
    && holds != []
    && ValidateEach(holds, ConditionBudget(condition).value, 0).Some?
  }

  /** validateOperands. */
  predicate ValidOperands(j: Envelope) {
    j.operation.Count? || j.operation.Delete? ==>
      && j.target.Some? && j.retention.Some? && j.limits.Some?
      && IsIdentifier(j.target.value.schema) && IsIdentifier(j.target.value.table)
      && IsIdentifier(j.retention.value.column)
      && !j.retention.value.kind.UnknownType?
      && j.retention.value.at != 0
      && ValidTrees(j.condition, j.holds)
      && ValidLimits(j.limits.value)
  }

  /** validateDestructiveOperands. */
  predicate ValidDestructiveOperands(j: Envelope) {
    j.operation.Delete? ==>
      && j.wellFormedPlanDigest
      && j.drift.Some? && ValidDrift(j.drift.value)
      && j.approval.Some? && j.approval.value.wellFormedId
      && j.approval.value.approvedAt != 0 && j.approval.value.expiresAt != 0
      && j.approval.value.approvedAt < j.approval.value.expiresAt
  }

  /** JobEnvelope.Validate. */
  predicate Valid(j: Envelope) {
    && j.wellFormedHeader
    && !j.operation.UnknownOperation?
    && j.issuedAt != 0 && j.expiresAt != 0
    && j.issuedAt < j.expiresAt
    && ValidOperands(j)
    && ValidDestructiveOperands(j)
  }

  /** What a delete has to carry beyond a count, with the protocol's ranges. */
  predicate CarriesApprovedPlan(j: Envelope) {
    && j.wellFormedPlanDigest && j.drift.Some? && j.approval.Some? && j.approval.value.wellFormedId
    && j.approval.value.approvedAt != 0 && j.approval.value.expiresAt != 0
    && j.approval.value.approvedAt < j.approval.value.expiresAt
    && 0 <= j.drift.value.expectedRows <= 100_000_000 && 0 <= j.drift.value.maxRows <= 100_000_000
    && 0 <= j.drift.value.maxBasisPoints <= 10_000
  }

  predicate LimitsInRange(l: Limits) {
    && 1 <= l.batchSize <= 50_000 && l.batchSize <= l.maxRows <= 100_000_000
    && 1 <= l.statementTimeout <= 3600 && 0 <= l.lockTimeout <= 600
    && 0 <= l.maxDuration <= 86_400 && 0 <= l.pauseBetweenBatches <= 60_000
  }

  /**
    A count or delete is valid exactly when its header, window, operands, trees and limits are in
    order and, for a delete, it carries an approved plan.
    */
  lemma ValidJobIff(j: Envelope)
    requires j.operation.Count? || j.operation.Delete?
    ensures Valid(j) <==>
            && j.wellFormedHeader && j.issuedAt != 0 && j.expiresAt != 0 && j.issuedAt < j.expiresAt
            && j.target.Some? && IsIdentifier(j.target.value.schema) && IsIdentifier(j.target.value.table)
            && j.retention.Some? && IsIdentifier(j.retention.value.column) && j.retention.value.at != 0
            && (j.retention.value.kind == Before || j.retention.value.kind == OnOrBefore)
            && j.holds != [] && (j.condition.Some? ==> Acceptable(j.condition.value, 0, 0))
            && AllAcceptable(j.holds, if j.condition.Some? then Nodes(j.condition.value) else 0, 0)
            && j.limits.Some? && LimitsInRange(j.limits.value)
            && (j.operation.Delete? ==> CarriesApprovedPlan(j))
  {
    TreesValidIff(j.condition, j.holds);
  }

  /** The part of validateOperands that spends one shared budget over the condition and the holds. */
  method ValidateTrees(condition: Option<Condition>, holds: seq<Condition>) returns (ok: bool)
    ensures ok == ValidTrees(condition, holds)
  {
    var budget := new Budget();
    if condition.Some? {
      ok := budget.ValidateCondition(condition.value, 0);
      if !ok {
        return;
      }
    }
    if holds == [] {
      return false;
    }
    ok := budget.ValidateConditions(holds, 0);
  }

  /**
    The trees of a job are accepted exactly when there are holds, every tree is acceptable on its
    own, and all of them together fit in one budget.
    */
  lemma TreesValidIff(condition: Option<Condition>, holds: seq<Condition>)
    ensures ValidTrees(condition, holds) <==>
            && holds != []
            && (condition.Some? ==> Acceptable(condition.value, 0, 0))
            && AllAcceptable(holds, if condition.Some? then Nodes(condition.value) else 0, 0)
  {
    if condition.Some? {
      ValidatedIff(condition.value, 0, 0);
    }
    ValidatedEachIff(holds, if condition.Some? then Nodes(condition.value) else 0, 0);
  }
}
