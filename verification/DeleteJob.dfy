/**
  A whole delete job (internal/agent/agent.go:340-397): recount, drift gate, first checkpoint,
  batched delete, and the ending it reports.
  */
module DeleteJob {
  import opened Outcomes
  import opened Conditions
  import opened Job
  import opened Sql
  import opened ConditionCompiler
  import CompilerCorrectness
  import opened Statements
  import opened Holds
  import opened BatchedDelete
  import opened Checkpoint
  import opened BatchRun
  import opened DriftGate

  /** The retention work of one job, as the adapter receives it. */
  datatype Work = Work(target: Target, retention: Predicate, condition: Option<Condition>, holds: seq<Condition>)

  predicate Buildable(w: Work) {
    && IsIdentifier(w.target.schema) && IsIdentifier(w.target.table)
    && Compilable(w.retention, w.condition, w.holds)
  }

  ghost function CandidatesOf(t: Table, w: Work, ord: Ordering): (ids: set<nat>)
    requires Buildable(w)
    ensures ids <= t.Keys
  {
    Candidates(t, w.retention, w.condition, w.holds, ord)
  }

  ghost function TestFor(w: Work, ord: Ordering): Row -> bool
    requires Buildable(w)
  {
    row => CandidateMeaning(w.retention, w.condition, w.holds, row, ord).True?
  }

  lemma TestSelectsCandidates(t: Table, w: Work, ord: Ordering)
    requires Buildable(w)
    ensures Matching(t, TestFor(w, ord)) == CandidatesOf(t, w, ord)
  {
  }

  /** The compiled statement does what the work means, whatever batch size is bound to it. */
  lemma StatementRealises(w: Work, ord: Ordering)
    requires Buildable(w)
    ensures DeleteBatchStatement(w.target, w.retention, w.condition, w.holds).Ok?
    ensures Realises(DeleteBatchStatement(w.target, w.retention, w.condition, w.holds).value, ord, TestFor(w, ord),
                     w.retention.column)
  {
    CandidateReads(w.retention, w.condition, w.holds);
    var st := DeleteBatchStatement(w.target, w.retention, w.condition, w.holds).value;
    var column := w.retention.column;
    assert st.orderBy[1..] == column + "\"" + "";
    CompilerCorrectness.NameOfIdentifier(column, "");
    var n := |st.arguments| + 1;
    CompilerCorrectness.PlaceholderReads(n, "");
    assert Placeholder(n) + "" == Placeholder(n);
    forall row, size: nat
      ensures EvalText(st.where, row, st.arguments + [Integer(size)], ord).True? <==> TestFor(w, ord)(row)
    {
      CandidateClauseCorrect(w.retention, w.condition, w.holds, [Integer(size)], row, ord);
    }
  }

  datatype Measured = Measured(candidates: nat, resource: nat, blocked: nat)

  /** Adapter.Count: the candidate, total and hold-blocked counts of one snapshot, or an error. */
  method Count(t: Table, w: Work, ord: Ordering) returns (r: Option<Measured>)
    requires Buildable(w)
    ensures r.Some? ==>
              && r.value.candidates == |CandidatesOf(t, w, ord)|
              && r.value.resource == |t|
              && r.value.blocked == |Held(t, w.retention, w.condition, w.holds, ord)|
  {
    var unreachable: bool := *;
    if unreachable {
      return None;
    }
    ClausesSelect(t, w.retention, w.condition, w.holds, [], ord);
    var where := BuildCandidateWhere(w.retention, w.condition, w.holds);
    var held := BuildHeldWhere(w.retention, w.condition, w.holds);
    assert where.value.arguments + [] == where.value.arguments && held.value.arguments + [] == held.value.arguments;
    return Some(Measured(|Selected(t, where.value.text, where.value.arguments, ord)|, |t|,
                         |Selected(t, held.value.text, held.value.arguments, ord)|));
  }

  datatype Ending =
    | CountFailed
    | Stale(observed: nat)
    | CancelledAtCheckpoint(rows: nat)
    | InterruptedRun(rows: nat)
    | FailedRun(rows: nat)
    | Finished(rows: nat, batches: nat, complete: bool, ranOutOfTime: bool)

  /** Endings before the first destructive checkpoint. */
  predicate NeverStarted(e: Ending) {
    e.CountFailed? || e.Stale?
  }

  /** An ABORTED event may close any accounted trace. */
  lemma AbortIsSafe(t: Trace, maxRows: nat, sequence: nat, rows: nat)
    requires Safe(t, maxRows) && !AcceptsPause(t) && RowsCommitted(t) == RowsReported(t) == rows
    requires LatestEvent(t).Some? && LatestEvent(t).value.sequence == sequence
    ensures var after := t + [Emitted(Event(sequence + 1, Aborted, 0, rows))];
            && Safe(after, maxRows) && !AcceptsPause(after) && RowsCommitted(after) == rows
            && RowsGone(after) == RowsGone(t)
            && (Halted(t) <==> Halted(after)) && Batches(after) == Batches(t) && LatestTry(after) == LatestTry(t)
  {
    Appended(t, Emitted(Event(sequence + 1, Aborted, 0, rows)));
  }

  /** Which single bounded delete the batches amount to. */
  lemma BatchesAreOneDelete(before: Table, after: Table, test: Row -> bool, column: string, ord: Ordering,
                            gone: set<nat>, limit: nat)
    requires after == before - gone && OldestFirst(before, Matching(before, test), column, ord, gone)
    requires |gone| == limit || (Matching(after, test) == {} && |gone| <= limit)
    ensures IsOldestBatch(before, Matching(before, test), column, ord, limit, gone)
    ensures Matching(after, test) == {} <==> |gone| >= |Matching(before, test)|
  {
    var all := Matching(before, test);
    MatchingShrinks(before, test, gone);
    assert |all| == |gone| + |all - gone| by {
      assert all == gone + (all - gone);
    }
  }

  /** What a run without other writers did to the table: the oldest rows of the test, and how it ended. */
  ghost predicate Outcome(before: Table, after: Table, test: Row -> bool, column: string, ord: Ordering,
                          gone: set<nat>, ending: Ending, limits: Limits)
    requires PositiveScope(limits)
  {
    && after == before - gone
    && OldestFirst(before, Matching(before, test), column, ord, gone)
    && (ending.Finished? ==>
          && IsOldestBatch(before, Matching(before, test), column, ord,
                           if ending.ranOutOfTime then ending.rows else limits.maxRows, gone)
          && (ending.complete <==> Matching(after, test) == {}))
  }

  /**
    What the trace of a run says, however it ended: safe, truthful about rows, and numbered strictly
    unless a checkpoint was paused twice.
    */
  ghost predicate Recorded(t: Trace, ending: Ending, limits: Limits)
    requires PositiveScope(limits)
  {
    && Safe(t, limits.maxRows)
    && (StrictlyNumbered(t) <==> OnePauseEach(t))
    && (if NeverStarted(ending) then t == [] else ending.rows == RowsCommitted(t))
    && RowsGone(t) <= RowsCommitted(t) + limits.batchSize
    && (!ending.FailedRun? ==> RowsGone(t) == RowsCommitted(t))
    && (ending.CancelledAtCheckpoint? <==> Halted(t))
    && (ending.FailedRun? ==> LatestTry(t).None? || LatestTry(t).value.Failed?)
    && (ending.Finished? ==>
          && ending.batches == Batches(t)
          && (if ending.ranOutOfTime then limits.maxDuration > 0
              else ending.rows == limits.maxRows || LatestTry(t) == Some(Committed(0))))
  }

  /** The ACCEPTED event and the first checkpoint. */
  method Begin(session: Session, maxRows: nat) returns (verdict: Verdict)
    requires session.Fresh()
    modifies session
    ensures session.rows == old(session.rows) && session.discarded == []
    ensures session.Accounted(maxRows, 0) && RowsGone(session.trace) == 0
    ensures verdict.Proceed? ==> session.BetweenBatches(maxRows, 0)
    ensures verdict.Cancelled? <==> Halted(session.trace)
    ensures verdict.Interrupted? ==> session.answers == []
    ensures Batches(session.trace) == 0 && LatestTry(session.trace).None?
  {
    session.Emit(JobAccepted, session.sequence, 0, 0);
    assert session.trace == [Emitted(Event(0, JobAccepted, 0, 0))];
    assert Checkpoint.Before(session.trace) == [];
    AcceptanceIsCheckpoint(maxRows);
    GateKeepsSafe(session.trace, maxRows, session.answers, session.sequence, session.highest, 0, false);
    verdict := session.AwaitControl(0);
  }

  /** The ABORTED event of a run that stopped on an error. */
  method Abort(session: Session, maxRows: nat, deleted: nat)
    requires session.Accounted(maxRows, deleted)
    modifies session`trace
    ensures Safe(session.trace, maxRows) && !AcceptsPause(session.trace) && RowsCommitted(session.trace) == deleted
    ensures RowsGone(session.trace) == RowsGone(old(session.trace))
    ensures Halted(old(session.trace)) <==> Halted(session.trace)
    ensures Batches(session.trace) == Batches(old(session.trace))
    ensures LatestTry(session.trace) == LatestTry(old(session.trace))
    ensures session.trace == old(session.trace) + [Emitted(Event(session.sequence + 1, Aborted, 0, deleted))]
  {
    AbortIsSafe(session.trace, maxRows, session.sequence, deleted);
    session.Emit(Aborted, session.sequence + 1, 0, deleted);
  }

  /** From the ACCEPTED event to the end of the run. */
  method Execute(session: Session, st: DeleteStatement, limits: Limits, measured: nat, ghost test: Row -> bool,
                 ghost column: string)
    returns (ending: Ending, ghost gone: set<nat>)
    requires PositiveScope(limits) && TotalPreorder(session.ord) && Realises(st, session.ord, test, column)
    requires session.Fresh()
    requires session.quiet ==> measured == |Matching(session.rows, test)|
    modifies session
    ensures !NeverStarted(ending) && Recorded(session.trace, ending, limits) && session.Justified(test)
    ensures ending.Finished? ==>
              (ending.complete <==> LatestTry(session.trace) == Some(Committed(0)) || ending.rows >= measured)
    ensures ending.InterruptedRun? ==> session.answers == [] || limits.pauseBetweenBatches > 0
    ensures session.quiet ==>
              && Outcome(old(session.rows), session.rows, test, column, session.ord, gone, ending, limits)
              && |gone| == RowsGone(session.trace)
  {
    ghost var before := session.rows;
    gone := {};
    assert before - {} == before;
    var verdict := Begin(session, limits.maxRows);
    if verdict != Proceed {
      StrictlyNumberedIffOnePauseEach(session.trace, limits.maxRows);
      return if verdict.Cancelled? then CancelledAtCheckpoint(0) else InterruptedRun(0), gone;
    }
    var deleted, batches, stop := 0, 0, NotConnected;
    var connected: bool := *;
    if connected {
      deleted, batches, stop, gone := session.AdapterDelete(st, limits, test, column);
    }
    ending := Conclude(session, limits, measured, deleted, batches, stop, test, column, before, gone);
  }

  /** The run's report, once the adapter has returned. */
  method Conclude(session: Session, limits: Limits, measured: nat, deleted: nat, batches: nat, stop: Stop,
                  ghost test: Row -> bool, ghost column: string, ghost before: Table, ghost gone: set<nat>)
    returns (ending: Ending)
    requires PositiveScope(limits) && session.Ended(limits, deleted, stop, test) && batches == Batches(session.trace)
    requires session.quiet ==>
               measured == |Matching(before, test)|
               && session.Progress(before, test, column, gone, RowsGone(session.trace))
    modifies session`trace
    ensures !NeverStarted(ending) && Recorded(session.trace, ending, limits)
            && RowsGone(session.trace) == RowsGone(old(session.trace))
    ensures session.quiet ==> Outcome(before, session.rows, test, column, session.ord, gone, ending, limits)
    ensures stop.Drained? || stop.CeilingReached? || stop.OutOfTime? <==> ending.Finished?
    ensures ending.Finished? ==>
              session.trace == old(session.trace) && (ending.complete <==> stop.Drained? || deleted >= measured)
    ensures !ending.Finished? ==>
              session.trace == old(session.trace) + [Emitted(Event(session.sequence + 1, Aborted, 0, deleted))]
    ensures ending.InterruptedRun? ==> session.answers == [] || limits.pauseBetweenBatches > 0
  {
    GoneWithinCeiling(session.trace, limits.maxRows);
    if stop.Drained? || stop.CeilingReached? || stop.OutOfTime? {
      StrictlyNumberedIffOnePauseEach(session.trace, limits.maxRows);
      // Reaching the ceiling is complete when the recount proved it to be the whole candidate set.
      var complete := stop.Drained? || deleted >= measured;
      if session.quiet {
        BatchesAreOneDelete(before, session.rows, test, column, session.ord, gone,
                            if stop.OutOfTime? then deleted else limits.maxRows);
      }
      return Finished(deleted, batches, complete, stop.OutOfTime?);
    }
    assert stop.GateClosed? ==>
             stop == GateClosed(stop.verdict) && (stop.verdict.Interrupted? ==> session.answers == []);
    ending := Fail(session, limits, deleted, stop, test);
  }

  /** The report of a run that stopped on an error. */
  method Fail(session: Session, limits: Limits, deleted: nat, stop: Stop, ghost test: Row -> bool)
    returns (ending: Ending)
    requires PositiveScope(limits) && session.Ended(limits, deleted, stop, test)
    requires !stop.Drained? && !stop.CeilingReached? && !stop.OutOfTime?
    modifies session`trace
    ensures Recorded(session.trace, ending, limits) && RowsGone(session.trace) == RowsGone(old(session.trace))
    ensures ending == if stop == GateClosed(Verdict.Cancelled) then CancelledAtCheckpoint(deleted)
                      else if stop.BatchFailed? || stop.NotConnected? then FailedRun(deleted)
                      else InterruptedRun(deleted)
    ensures session.trace == old(session.trace) + [Emitted(Event(session.sequence + 1, Aborted, 0, deleted))]
  {
    Abort(session, limits.maxRows, deleted);
    StrictlyNumberedIffOnePauseEach(session.trace, limits.maxRows);
    ending := if stop == GateClosed(Verdict.Cancelled) then CancelledAtCheckpoint(deleted)
              else if stop.BatchFailed? || stop.NotConnected? then FailedRun(deleted)
              else InterruptedRun(deleted);
  }

  /**
    The agent's delete. It starts exactly when the recount succeeds and passes the drift gate;
    counted is the table the recount saw. Without other writers the run amounts to one bounded
    delete of the work's candidates.
    */
  method Delete(session: Session, w: Work, drift: Option<Drift>, limits: Limits)
    returns (ending: Ending, ghost gone: set<nat>, ghost counted: Table)
    requires Buildable(w) && PositiveScope(limits) && TotalPreorder(session.ord)
    requires session.Fresh()
    modifies session
    ensures Recorded(session.trace, ending, limits) && session.Justified(TestFor(w, session.ord))
    ensures !ending.CountFailed? ==>
              (ending.Stale? <==> DriftExceeded(drift, |CandidatesOf(counted, w, session.ord)|))
    ensures ending.Finished? ==>
              (ending.complete <==> LatestTry(session.trace) == Some(Committed(0))
                                    || ending.rows >= |CandidatesOf(counted, w, session.ord)|)
    ensures ending.InterruptedRun? ==> session.answers == [] || limits.pauseBetweenBatches > 0
    ensures ending.Stale? ==> ending.observed == |CandidatesOf(counted, w, session.ord)|
    ensures session.quiet ==>
              && counted == old(session.rows)
              && Outcome(old(session.rows), session.rows, TestFor(w, session.ord), w.retention.column, session.ord,
                         gone, ending, limits)
              && |gone| == RowsGone(session.trace)
  {
    gone := {};
    session.OtherWriters();
    counted := session.rows;
    assert session.rows - {} == session.rows;
    TestSelectsCandidates(session.rows, w, session.ord);
    StatementRealises(w, session.ord);
    var st := DeleteBatchStatement(w.target, w.retention, w.condition, w.holds).value;
    var measured := Count(session.rows, w, session.ord);
    session.OtherWriters();
    if measured.None? {
      return CountFailed, gone, counted;
    }
    if DriftExceeded(drift, measured.value.candidates) {
      return Stale(measured.value.candidates), gone, counted;
    }
    var rows := measured.value.candidates;
    ending, gone := Execute(session, st, limits, rows, TestFor(w, session.ord), w.retention.column);
  }
}
