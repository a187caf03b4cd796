/**
  The recount gate (internal/evidence/evidence.go) against the drift the local policy authorized
  (internal/policy/policy.go). Int64 arithmetic wraps as it does in Go.
  */
module DriftGate {
  import opened Outcomes
  import opened Conditions
  import opened Job
  import opened Policy
  import Decimal

  function Wrap64(n: int): (r: int)
    ensures Decimal.IsInt64(r)
    ensures Decimal.IsInt64(n) ==> r == n
  {
    (n + 0x8000_0000_0000_0000) % 0x1_0000_0000_0000_0000 - 0x8000_0000_0000_0000
  }

  /** evidence.DriftExceeded on int64 operands. */
  predicate DriftExceeded(drift: Option<Drift>, observed: int) {
    if drift.None? then true
    else
      var d := drift.value;
      var raw := Wrap64(observed - d.expectedRows);
      var difference := if raw < 0 then Wrap64(-raw) else raw;
      if d.maxRows == 0 && d.maxBasisPoints == 0 then difference != 0
      else
        || (d.maxRows > 0 && difference > d.maxRows)
        || (d.maxBasisPoints > 0 && d.expectedRows > 0 &&
            Wrap64(difference * 10_000) > Wrap64(d.expectedRows * d.maxBasisPoints))
  }

  function Distance(observed: int, expected: int): nat {
    if observed < expected then expected - observed else observed - expected
  }

  /** A count as the recount can return it. */
  predicate IsCount(n: int) {
    0 <= n <= Decimal.INT64_MAX
  }

  /** What the local policy promises about a recount that is allowed to proceed. */
  predicate WithinLocal(d: DriftPolicy, expected: int, observed: int) {
    if NeedsExactRecount(d, expected) then observed == expected
    else
      && Distance(observed, expected) <= d.maxRows
      && Distance(observed, expected) * 10_000 <= expected * d.maxBasisPoints
  }

  /** The largest difference whose ten-thousandfold still fits in an int64. */
  const MAX_SCALED: int := 922_337_203_685_477

  lemma ScaledFits()
    ensures MAX_SCALED * 10_000 <= Decimal.INT64_MAX < (MAX_SCALED + 1) * 10_000
  {
  }

  lemma ProductBound(a: int, b: int, c: int, d: int)
    requires 0 <= a <= c && 0 <= b <= d
    ensures 0 <= a * b <= c * d
  {
    assert a * b <= c * b <= c * d;
  }

  /**
    The gate without machine arithmetic: it agrees with DriftExceeded whenever the difference can
    be scaled, and always when the job carries a row tolerance.
    */
  predicate ExceedsExactly(d: Drift, observed: int) {
    var difference := Distance(observed, d.expectedRows);
    if d.maxRows == 0 && d.maxBasisPoints == 0 then difference != 0
    else
      || (d.maxRows > 0 && difference > d.maxRows)
      || (d.maxBasisPoints > 0 && d.expectedRows > 0 && difference * 10_000 > d.expectedRows * d.maxBasisPoints)
  }

  /** A job without tolerances to check against never passes. */
  lemma MissingDriftNeverPasses(observed: int)
    ensures DriftExceeded(None, observed)
  {
  }

  lemma NoOverflow(d: Drift, observed: int)
    requires ValidDrift(d) && IsCount(observed)
    requires d.maxRows > 0 || d.maxBasisPoints == 0 || Distance(observed, d.expectedRows) <= MAX_SCALED
    ensures DriftExceeded(Some(d), observed) == ExceedsExactly(d, observed)
  {
    ProductBound(d.expectedRows, d.maxBasisPoints, 100_000_000, 10_000);
    assert Decimal.IsInt64(observed - d.expectedRows);
    ScaledFits();
  }

  /**
    When the two tolerances, authorized separately, bound the recount as the local policy states:
    both absent, both present, or a row tolerance alone that is already inside the local
    basis-point limit.
    */
  predicate TolerancesCompose(s: Safety, d: Drift) {
    || (d.maxRows == 0 && d.maxBasisPoints == 0)
    || (d.maxRows > 0 && d.maxBasisPoints > 0)
    || (d.maxRows > 0 && d.maxRows * 10_000 <= d.expectedRows * s.drift.maxBasisPoints)
  }

  /** The drift half of an authorization. */
  predicate DriftAuthorized(s: Safety, d: Drift) {
    if NeedsExactRecount(s.drift, d.expectedRows) then d.maxRows == 0 && d.maxBasisPoints == 0
    else d.maxRows <= s.drift.maxRows && d.maxBasisPoints <= s.drift.maxBasisPoints
  }

  lemma AuthorizedDrift(s: Safety, j: Envelope, now: int)
    requires Valid(j) && j.operation.Delete? && Authorize(s, j, now).Allowed?
    ensures ValidDrift(j.drift.value) && DriftAuthorized(s, j.drift.value)
  {
  }

  lemma ComposedTolerancesHold(s: Safety, d: Drift, observed: int)
    requires ValidDriftPolicy(s.drift) && ValidDrift(d) && DriftAuthorized(s, d)
    requires TolerancesCompose(s, d)
    requires IsCount(observed) && !DriftExceeded(Some(d), observed)
    ensures WithinLocal(s.drift, d.expectedRows, observed)
  {
    NoOverflow(d, observed);
    if d.maxRows > 0 {
      ProductBound(d.expectedRows, d.maxBasisPoints, d.expectedRows, s.drift.maxBasisPoints);
    } else {
      assert Distance(observed, d.expectedRows) == 0;
      ProductBound(0, 0, d.expectedRows, s.drift.maxBasisPoints);
    }
  }

  /** A count that passes the gate and breaks the local promise, when the tolerances do not compose. */
  function EscapingCount(d: Drift): int {
    d.expectedRows + if d.maxRows > 0 then d.maxRows else MAX_SCALED + 1
  }

  lemma UncomposedTolerancesFail(s: Safety, d: Drift)
    requires ValidDriftPolicy(s.drift) && ValidDrift(d) && DriftAuthorized(s, d)
    requires !TolerancesCompose(s, d)
    ensures IsCount(EscapingCount(d)) && !DriftExceeded(Some(d), EscapingCount(d))
    ensures !WithinLocal(s.drift, d.expectedRows, EscapingCount(d))
  {
    ProductBound(d.expectedRows, s.drift.maxBasisPoints, 100_000_000, 10_000);
    ProductBound(d.expectedRows, d.maxBasisPoints, 100_000_000, 10_000);
    var observed := EscapingCount(d);
    if d.maxRows > 0 {
      NoOverflow(d, observed);
    } else {
      assert Wrap64((MAX_SCALED + 1) * 10_000) < 0;
    }
  }

  /** A delete of rows expected to be a thousand, with a row tolerance of a hundred and no basis-point tolerance. */
  const EXAMPLE_JOB :=
    Envelope(true, "o", "k", "s", Delete, Some(Target("a", "t")), Some(Predicate(Before, "c", 1)), None,
             [Condition("c", IsNull, None, [], [], None)], Some(Limits(1, 2000, 1, 0, 0, 0)), Some(Drift(1000, 100, 0)),
             true, Some(Approval(true, 1, 2)), 1, 2, "n")

  lemma ExampleJobIsValid()
    ensures Valid(EXAMPLE_JOB)
  {
    var hold := EXAMPLE_JOB.holds[0];
    assert ValidPredicate(hold) && Forms(hold) == 1;
    assert Validate(hold, 0, 0) == Some(1);
    assert EXAMPLE_JOB.holds[1..] == [];
    assert ValidateEach(EXAMPLE_JOB.holds, 0, 0) == ValidateEach([], 1, 0);
    assert ValidTrees(EXAMPLE_JOB.condition, EXAMPLE_JOB.holds);
  }

  lemma ExampleJobIsAuthorized(now: int)
    ensures Authorize(EXAMPLE_SAFETY, EXAMPLE_JOB, now).Allowed?
  {
    var j := EXAMPLE_JOB;
    assert j.holds[1..] == [] && EachColumns(j.holds[1..]) == [];
    assert ConditionColumns(j.holds[0]) == ["c"];
    assert JobColumns(j.condition, j.holds) == ["c"];
    var rule := EXAMPLE_SAFETY.tables[0];
    assert Rule(EXAMPLE_SAFETY.tables, j.target.value) == Some(rule);
    assert AuthorizeUnder(EXAMPLE_SAFETY, rule, j, now).Allowed?;
  }

  /**
    The default drift policy authorizes such a job, and a recount of 1100 then proceeds: ten percent
    off where the policy says half a percent.
    */
  lemma DefaultPolicyIsEscaped(now: int)
    ensures var s, j := EXAMPLE_SAFETY, EXAMPLE_JOB;
            && ValidSafety(s) && s.drift == DriftPolicy(Bounded, 1000, 100, 50)
            && Valid(j) && Authorize(s, j, now).Allowed? && !TolerancesCompose(s, j.drift.value)
            && !DriftExceeded(j.drift, 1100) && !WithinLocal(s.drift, 1000, 1100)
  {
    ExampleSafetyIsValid();
    ExampleJobIsValid();
    ExampleJobIsAuthorized(now);
    UncomposedTolerancesFail(EXAMPLE_SAFETY, EXAMPLE_JOB.drift.value);
  }

  /**
    Drift composition: an authorized delete's gate keeps every recount within the local drift
    limits if and only if its tolerances compose.
    */
  lemma DriftComposition(s: Safety, j: Envelope, now: int)
    requires ValidSafety(s) && Valid(j) && j.operation.Delete? && Authorize(s, j, now).Allowed?
    ensures (forall observed :: IsCount(observed) && !DriftExceeded(j.drift, observed) ==>
               WithinLocal(s.drift, j.drift.value.expectedRows, observed))
            <==> TolerancesCompose(s, j.drift.value)
  {
    var d := j.drift.value;
    AuthorizedDrift(s, j, now);
    if TolerancesCompose(s, d) {
      forall observed | IsCount(observed) && !DriftExceeded(j.drift, observed)
        ensures WithinLocal(s.drift, d.expectedRows, observed)
      {
        ComposedTolerancesHold(s, d, observed);
      }
    } else {
      UncomposedTolerancesFail(s, d);
    }
  }

  /** A lone basis-point tolerance whose admitted rows are within the local row limit. */
  predicate LoneBasisPointsCompose(s: Safety, d: Drift) {
    d.maxRows == 0 && d.expectedRows * d.maxBasisPoints / 10_000 <= s.drift.maxRows
  }

  predicate IsScalableCount(d: Drift, observed: int) {
    IsCount(observed) && Distance(observed, d.expectedRows) <= MAX_SCALED
  }

  /**
    Restricted to differences the gate can scale, a lone basis-point tolerance also composes as
    long as the rows it admits are within the local row limit - again exactly then.
    */
  lemma ScalableDriftComposition(s: Safety, j: Envelope, now: int)
    requires ValidSafety(s) && Valid(j) && j.operation.Delete? && Authorize(s, j, now).Allowed?
    ensures (forall observed :: IsScalableCount(j.drift.value, observed) && !DriftExceeded(j.drift, observed) ==>
               WithinLocal(s.drift, j.drift.value.expectedRows, observed))
            <==> (TolerancesCompose(s, j.drift.value) || LoneBasisPointsCompose(s, j.drift.value))
  {
    var d := j.drift.value;
    AuthorizedDrift(s, j, now);
    var admitted := d.expectedRows * d.maxBasisPoints / 10_000;
    ProductBound(d.expectedRows, d.maxBasisPoints, 100_000_000, 10_000);
    if TolerancesCompose(s, d) {
      DriftComposition(s, j, now);
    } else if d.maxRows > 0 {
      UncomposedTolerancesFail(s, d);
      assert IsScalableCount(d, EscapingCount(d));
    } else {
      var edge := d.expectedRows + admitted;
      NoOverflow(d, edge);
      assert IsScalableCount(d, edge) && Distance(edge, d.expectedRows) == admitted && !DriftExceeded(j.drift, edge);
      forall observed | IsScalableCount(d, observed) && !DriftExceeded(j.drift, observed)
        ensures Distance(observed, d.expectedRows) <= admitted
        ensures Distance(observed, d.expectedRows) * 10_000 <= d.expectedRows * s.drift.maxBasisPoints
      {
        NoOverflow(d, observed);
        ProductBound(d.expectedRows, d.maxBasisPoints, d.expectedRows, s.drift.maxBasisPoints);
      }
    }
  }
}
