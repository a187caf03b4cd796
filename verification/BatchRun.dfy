/**
  The destructive run between the first checkpoint and its end (adapters/postgres/adapter.go, Delete
  and deleteOneBatch; internal/agent/agent.go, awaitControl and the batch observer) over a table, a
  control plane and other writers that behave arbitrarily. A batch attempt may succeed, fail without
  effect, or fail after its commit took effect. The duration ceiling and a cancelled context between
  batches are arbitrary choices.
  */
module BatchRun {
  import opened Outcomes
  import opened Sequences
  import opened Conditions
  import opened Job
  import opened Sql
  import opened Statements
  import opened Holds
  import opened BatchedDelete
  import opened Checkpoint

  /** Why the adapter's loop stopped. */
  datatype Stop =
    | NotConnected
    | Drained
    | CeilingReached
    | OutOfTime
    | GateClosed(verdict: Verdict)
    | BatchFailed
    | ContextCancelled

  /** The column a rendered ORDER BY names. */
  function OrderColumn(st: DeleteStatement): string {
    if st.orderBy == "" then "" else NameOf(st.orderBy[1..])
  }

  /** With any batch size bound last, the statement picks the rows passing test, ordered by column. */
  ghost predicate Realises(st: DeleteStatement, ord: Ordering, test: Row -> bool, column: string) {
    && OrderColumn(st) == column
    && ParsePlaceholder(st.limit) == Some((|st.arguments| + 1, ""))
    && forall row, size: nat :: EvalText(st.where, row, st.arguments + [Integer(size)], ord).True? <==> test(row)
  }

  lemma StatementSelects(t: Table, st: DeleteStatement, ord: Ordering, test: Row -> bool, column: string, size: nat)
    requires Realises(st, ord, test, column)
    ensures Selected(t, st.where, st.arguments + [Integer(size)], ord) == Matching(t, test)
    ensures Bound(st.arguments + [Integer(size)], ParsePlaceholder(st.limit).value.0) == Integer(size)
  {
  }

  class Session {
    /** No other writer touches the table. */
    const quiet: bool
    const ord: Ordering
    var rows: Table
    /** What the control plane will answer; when it runs out, the context has been cancelled. */
    var answers: seq<Answer>
    var sequence: nat
    var highest: int
    var trace: Trace
    /** The rows each attempt removed, as they were when they were removed. */
    ghost var discarded: seq<Table>

    constructor (quiet: bool, ord: Ordering, rows: Table, answers: seq<Answer>)
      ensures this.quiet == quiet && this.ord == ord && this.rows == rows && this.answers == answers
      ensures Fresh()
    {
      this.quiet, this.ord, this.rows, this.answers := quiet, ord, rows, answers;
      sequence, highest, trace, discarded := 0, 0, [], [];
    }

    ghost predicate Fresh()
      reads this
    {
      sequence == 0 && highest == 0 && trace == [] && discarded == []
    }

    /** Every row gone from the table passed the test at the moment it went, whatever else was being written. */
    ghost predicate Justified(test: Row -> bool)
      reads this
    {
      OnlyMatching(discarded, test) && Total(discarded) == RowsGone(trace)
    }

    /** Whatever else happens to the table in the meantime. */
    method OtherWriters()
      modifies this`rows
      ensures quiet ==> rows == old(rows)
    {
      if !quiet {
        rows := *;
      }
    }

    method Emit(kind: EventKind, number: nat, affected: nat, cumulative: nat)
      modifies this`trace
      ensures trace == old(trace) + [Emitted(Event(number, kind, affected, cumulative))]
    {
      trace := trace + [Emitted(Event(number, kind, affected, cumulative))];
    }

    /** The checkpoint gate. */
    method AwaitControl(cumulative: nat) returns (verdict: Verdict)
      modifies this`answers, this`sequence, this`highest, this`trace
      ensures var g := Await(old(answers), old(sequence), old(highest), cumulative, false);
              && verdict == g.verdict && answers == g.rest && sequence == g.sequence
              && highest == g.highest && trace == old(trace) + g.log
      ensures VerdictFits(old(answers), old(highest), verdict)
      ensures verdict.Interrupted? ==> answers == []
      ensures Batches(trace) == Batches(old(trace)) && LatestTry(trace) == LatestTry(old(trace))
    {
      VerdictIff(answers, sequence, highest, cumulative, false);
      InterruptedConsumes(answers, sequence, highest, cumulative, false);
      GateOnlyTalks(answers, sequence, highest, cumulative, false);
      TalkKeepsBatches(trace, Await(answers, sequence, highest, cumulative, false).log);
      verdict := Poll(cumulative);
    }

    /** Asking until an answer decides. */
    method Poll(cumulative: nat) returns (verdict: Verdict)
      modifies this`answers, this`sequence, this`highest, this`trace
      ensures var g := Await(old(answers), old(sequence), old(highest), cumulative, false);
              && verdict == g.verdict && answers == g.rest && sequence == g.sequence
              && highest == g.highest && trace == old(trace) + g.log
    {
      var paused := false;
      ghost var g := Await(answers, sequence, highest, cumulative, false);
      ghost var written: Trace := [];
      LoggedNothing(g);
      while answers != []
        invariant trace == old(trace) + written
        invariant g == Logged(written, Await(answers, sequence, highest, cumulative, paused))
        decreases |answers|
      {
        var control := answers[0];
        answers := answers[1..];
        ghost var r := Respond(control, sequence, highest, cumulative, paused);
        var decided;
        decided, paused := Weigh(control, paused, cumulative);
        Regroup(old(trace), written, r.log);
        if decided.Some? {
          return decided.value;
        }
        LoggedMore(written, r.log, Await(answers, sequence, highest, cumulative, paused));
        written := written + r.log;
      }
      return Interrupted;
    }

    /** One round of the gate: refuse a stale answer, obey RUN and CANCEL, report PAUSE and stay. */
    method Weigh(control: Answer, wasPaused: bool, cumulative: nat) returns (verdict: Option<Verdict>, paused: bool)
      modifies this`sequence, this`highest, this`trace
      ensures var r := Respond(control, old(sequence), old(highest), cumulative, wasPaused);
              && verdict == r.verdict && sequence == r.sequence && highest == r.highest
              && trace == old(trace) + r.log && paused == r.paused
    {
      paused := wasPaused;
      trace := trace + [Answered(control)];
      if control.Unavailable? || control.version < highest {
        return None, paused;
      }
      highest := control.version;
      match control.action {
        case Run =>
          if paused {
            sequence := sequence + 1;
            Emit(Resumed, sequence, 0, cumulative);
          }
          return Some(Proceed), paused;
        case Cancel =>
          return Some(Cancelled), paused;
        case Pause =>
          if !paused {
            paused := true;
            sequence := sequence + 1;
          }
          Emit(Paused, sequence, 0, cumulative);
          return None, paused;
      }
    }

    /**
      One batch in its own transaction. The statement picks at most the bound LIMIT of rows, and its
      DELETE repeats the predicate: other writers may act in between, and a picked row goes only if
      it still passes. On failure removed is what may be gone regardless.
      */
    method DeleteOneBatch(st: DeleteStatement, size: nat, ghost test: Row -> bool, ghost column: string)
      returns (affected: Option<nat>, ghost removed: set<nat>)
      requires TotalPreorder(ord) && Realises(st, ord, test, column)
      modifies this`rows, this`trace, this`discarded
      ensures |removed| <= size
      ensures affected.Some? ==> affected.value == |removed|
      ensures trace
              == old(trace) + [Attempted(size), if affected.Some? then Committed(|removed|) else Failed(|removed|)]
      ensures Discards(old(discarded), discarded, removed, test)
      ensures quiet ==> rows == old(rows) - removed
      ensures quiet && (affected.Some? || removed != {}) ==>
                IsOldestBatch(old(rows), Matching(old(rows), test), column, ord, size, removed)
    {
      trace := trace + [Attempted(size)];
      OtherWriters();
      var doomed := Pick(st, size, test, column);
      OtherWriters();
      var batch := Recheck(st, size, doomed, test, column);
      SubsetSize(batch, doomed);
      var fails: bool := *;
      var takesEffect: bool := *;
      if fails && !takesEffect {
        batch := {};
      }
      removed := batch;
      affected := Remove(batch, fails);
      OtherWriters();
    }

    /** The rows go; whether anyone hears of it is another matter. */
    method Remove(batch: set<nat>, fails: bool) returns (affected: Option<nat>)
      requires batch <= rows.Keys
      modifies this`rows, this`trace, this`discarded
      ensures affected == if fails then None else Some(|batch|)
      ensures rows == old(rows) - batch
      ensures discarded == old(discarded) + [map id | id in batch :: old(rows)[id]]
      ensures trace == old(trace) + [if fails then Failed(|batch|) else Committed(|batch|)]
    {
      discarded := discarded + [map id | id in batch :: rows[id]];
      rows := rows - batch;
      trace := trace + [if fails then Failed(|batch|) else Committed(|batch|)];
      return if fails then None else Some(|batch|);
    }

    /** The SELECT: the oldest rows passing the WHERE clause, at most the bound limit. */
    method Pick(st: DeleteStatement, size: nat, ghost test: Row -> bool, ghost column: string)
      returns (doomed: set<nat>)
      requires TotalPreorder(ord) && Realises(st, ord, test, column)
      ensures IsOldestBatch(rows, Matching(rows, test), column, ord, size, doomed)
      ensures |doomed| <= size
    {
      var arguments := st.arguments + [Integer(size)];
      StatementSelects(rows, st, ord, test, column, size);
      var limit := Bound(arguments, ParsePlaceholder(st.limit).value.0);
      var selected := Selected(rows, st.where, arguments, ord);
      ghost var some := OldestBatchExists(rows, selected, OrderColumn(st), ord, limit.n);
      doomed :| IsOldestBatch(rows, selected, OrderColumn(st), ord, limit.n, doomed);
    }

    /** The DELETE's own WHERE: picked rows that pass now; one a concurrent update moved may be missed. */
    method Recheck(st: DeleteStatement, size: nat, doomed: set<nat>, ghost test: Row -> bool, ghost column: string)
      returns (batch: set<nat>)
      requires Realises(st, ord, test, column)
      ensures batch <= doomed && batch <= Matching(rows, test)
      ensures quiet && doomed <= Matching(rows, test) ==> batch == doomed
    {
      StatementSelects(rows, st, ord, test, column, size);
      batch := doomed * Selected(rows, st.where, st.arguments + [Integer(size)], ord);
      if !quiet {
        var missed: set<nat> := *;
        batch := batch - missed;
      }
    }

    /** The adapter's loop state between two batches: licensed to go on, everything accounted for. */
    ghost predicate BetweenBatches(maxRows: nat, deleted: nat)
      reads this
    {
      AtCheckpoint(trace, maxRows, sequence, highest, deleted) && Open(trace)
    }

    /** Every trace the loop leaves behind is safe and its report is what was confirmed. */
    ghost predicate Accounted(maxRows: nat, deleted: nat)
      reads this
    {
      && Safe(trace, maxRows) && !AcceptsPause(trace)
      && RowsCommitted(trace) == RowsReported(trace) == deleted
      && LatestEvent(trace).Some? && LatestEvent(trace).value.sequence == sequence
    }

    /** The agent's observer: report the committed batch, then ask before the next one. */
    method Observe(affected: nat, cumulative: nat, ghost maxRows: nat) returns (verdict: Verdict)
      requires ReadyToReport(trace, maxRows, sequence, highest, affected, cumulative)
      modifies this`answers, this`sequence, this`highest, this`trace
      ensures Accounted(maxRows, cumulative) && RowsGone(trace) == cumulative
      ensures verdict.Proceed? ==> BetweenBatches(maxRows, cumulative)
      ensures verdict.Cancelled? <==> Halted(trace)
      ensures verdict.Interrupted? ==> answers == []
      ensures Batches(trace) == Batches(old(trace)) && LatestTry(trace) == LatestTry(old(trace))
    {
      sequence := sequence + 1;
      Emit(BatchCommitted, sequence, affected, cumulative);
      GateKeepsSafe(trace, maxRows, answers, sequence, highest, cumulative, false);
      verdict := AwaitControl(cumulative);
    }

    /** Without other writers: the n rows gone so far are the oldest candidates of the table before. */
    ghost predicate Progress(before: Table, test: Row -> bool, column: string, gone: set<nat>, n: nat)
      reads this
    {
      Removed(before, rows, ord, test, column, gone, n)
    }

    /** One round up to the outcome of its batch. */
    method AttemptBatch(st: DeleteStatement, limits: Limits, deleted: nat,
                        ghost test: Row -> bool, ghost column: string, ghost before: Table, ghost gone: set<nat>)
      returns (affected: Option<nat>, ghost total: set<nat>)
      requires PositiveScope(limits) && TotalPreorder(ord) && Realises(st, ord, test, column)
      requires deleted < limits.maxRows && BetweenBatches(limits.maxRows, deleted)
      requires Justified(test)
      requires quiet ==> Progress(before, test, column, gone, deleted)
      modifies this`rows, this`trace, this`discarded
      ensures Justified(test)
      ensures AfterAttempt(trace, limits, sequence, highest, deleted, affected)
      ensures Batches(trace) == Batches(old(trace)) + (if affected.Some? && affected.value > 0 then 1 else 0)
      ensures |trace| == |old(trace)| + 2
      ensures trace[|old(trace)|] == Attempted(Min(limits.batchSize, limits.maxRows - deleted))
      ensures quiet ==> Progress(before, test, column, total, RowsGone(trace))
      ensures quiet && affected == Some(0) ==> Matching(rows, test) == {}
    {
      var remaining := limits.maxRows - deleted;
      // The last batch is trimmed, so the ceiling is never passed by part of a batch.
      var size := if remaining < limits.batchSize then remaining else limits.batchSize;
      ghost var start, here := trace, rows;
      ghost var removed;
      affected, removed := DeleteOneBatch(st, size, test, column);
      AttemptLeaves(start, limits, sequence, highest, deleted, size, |removed|, affected);
      DiscardsCount(old(discarded), discarded, removed, test);
      total := gone + removed;
      if quiet {
        BatchRemoves(before, here, rows, ord, test, column, gone, deleted, removed, size, affected.Some?);
      }
    }

    /** What the loop leaves behind when it stops. */
    ghost predicate Ended(limits: Limits, deleted: nat, stop: Stop, test: Row -> bool)
      requires PositiveScope(limits)
      reads this
    {
      && Accounted(limits.maxRows, deleted)
      && RowsGone(trace) <= deleted + limits.batchSize && (!stop.BatchFailed? ==> RowsGone(trace) == deleted)
      && (stop == GateClosed(Cancelled) <==> Halted(trace))
      && stop != GateClosed(Proceed)
      && (stop == GateClosed(Interrupted) ==> answers == [])
      && (stop.NotConnected? ==> LatestTry(trace).None?)
      && (stop.BatchFailed? ==> LatestTry(trace).Some? && LatestTry(trace).value.Failed?)
      && (stop.Drained? <==> LatestTry(trace) == Some(Committed(0)))
      && (stop.OutOfTime? ==> limits.maxDuration > 0)
      && (stop.ContextCancelled? ==> limits.pauseBetweenBatches > 0)
      && (stop.CeilingReached? ==> deleted == limits.maxRows)
      && (quiet && stop.Drained? ==> Matching(rows, test) == {})
    }

    /** The same, with what a failed or empty batch means for the loop. */
    method TryBatch(st: DeleteStatement, limits: Limits, deleted: nat,
                    ghost test: Row -> bool, ghost column: string, ghost before: Table, ghost gone: set<nat>)
      returns (affected: Option<nat>, ghost total: set<nat>)
      requires PositiveScope(limits) && TotalPreorder(ord) && Realises(st, ord, test, column)
      requires deleted < limits.maxRows && BetweenBatches(limits.maxRows, deleted) && Justified(test)
      requires quiet ==> Progress(before, test, column, gone, deleted)
      modifies this`rows, this`trace, this`discarded
      ensures Justified(test)
      ensures quiet ==> Progress(before, test, column, total, RowsGone(trace))
      ensures Batches(trace) == Batches(old(trace)) + (if affected.Some? && affected.value > 0 then 1 else 0)
      ensures affected.None? ==> Ended(limits, deleted, BatchFailed, test)
      ensures affected == Some(0) ==> Ended(limits, deleted, Drained, test)
      ensures affected.Some? ==>
                && RowsGone(trace) == deleted + affected.value <= limits.maxRows
                && LatestTry(trace) == Some(Committed(affected.value))
                && ReadyToReport(trace, limits.maxRows, sequence, highest, affected.value, deleted + affected.value)
    {
      affected, total := AttemptBatch(st, limits, deleted, test, column, before, gone);
    }

    /** One turn of the adapter's loop: a batch, the agent's observer, the duration ceiling, the pause. */
    method Turn(st: DeleteStatement, limits: Limits, deleted: nat,
                ghost test: Row -> bool, ghost column: string, ghost before: Table, ghost gone: set<nat>)
      returns (rowsDeleted: nat, stop: Option<Stop>, ghost total: set<nat>)
      requires PositiveScope(limits) && TotalPreorder(ord) && Realises(st, ord, test, column)
      requires deleted < limits.maxRows && BetweenBatches(limits.maxRows, deleted) && Justified(test)
      requires quiet ==> Progress(before, test, column, gone, deleted)
      modifies this
      ensures Justified(test)
      ensures quiet ==> Progress(before, test, column, total, RowsGone(trace))
      ensures stop.Some? ==> Ended(limits, rowsDeleted, stop.value, test)
      ensures stop.None? ==> deleted < rowsDeleted <= limits.maxRows && BetweenBatches(limits.maxRows, rowsDeleted)
      ensures stop.None? ==> LatestTry(trace) != Some(Committed(0))
      ensures deleted <= rowsDeleted && Batches(trace) == Batches(old(trace)) + (if rowsDeleted > deleted then 1 else 0)
      ensures stop != Some(NotConnected)
    {
      var affected;
      affected, total := TryBatch(st, limits, deleted, test, column, before, gone);
      if affected.None? {
        return deleted, Some(BatchFailed), total;
      }
      if affected.value == 0 {
        return deleted, Some(Drained), total;
      }
      rowsDeleted := deleted + affected.value;
      stop := Report(affected.value, rowsDeleted, limits, test);
    }

    /** After a committed batch: the observer, the duration ceiling, the pause between batches. */
    method Report(affected: nat, rowsDeleted: nat, limits: Limits, ghost test: Row -> bool) returns (stop: Option<Stop>)
      requires PositiveScope(limits) && affected > 0 && LatestTry(trace) == Some(Committed(affected))
      requires ReadyToReport(trace, limits.maxRows, sequence, highest, affected, rowsDeleted)
      modifies this`answers, this`sequence, this`highest, this`trace
      ensures RowsGone(trace) == rowsDeleted && Batches(trace) == Batches(old(trace))
      ensures stop.Some? ==> !stop.value.NotConnected? && Ended(limits, rowsDeleted, stop.value, test)
      ensures stop.None? ==>
                BetweenBatches(limits.maxRows, rowsDeleted) && LatestTry(trace) == Some(Committed(affected))
    {
      var verdict := Observe(affected, rowsDeleted, limits.maxRows);
      if verdict != Proceed {
        return Some(GateClosed(verdict));
      }
      var late: bool := *;
      if limits.maxDuration > 0 && late {
        return Some(OutOfTime);
      }
      var interrupted: bool := *;
      if limits.pauseBetweenBatches > 0 && interrupted {
        return Some(ContextCancelled);
      }
      stop := None;
    }

    /** Adapter.Delete, with the agent's observer as its checkpoint. */
    method AdapterDelete(st: DeleteStatement, limits: Limits, ghost test: Row -> bool, ghost column: string)
      returns (deleted: nat, batches: nat, stop: Stop, ghost gone: set<nat>)
      requires PositiveScope(limits) && TotalPreorder(ord) && Realises(st, ord, test, column)
      requires BetweenBatches(limits.maxRows, 0) && Justified(test) && Batches(trace) == 0 && LatestTry(trace).None?
      modifies this
      ensures Ended(limits, deleted, stop, test) && Justified(test) && stop != NotConnected
      ensures batches == Batches(trace)
      ensures quiet ==> Progress(old(rows), test, column, gone, RowsGone(trace))
    {
      gone := {};
      deleted, batches := 0, 0;
      assert rows - {} == rows;
      while deleted < limits.maxRows
        invariant deleted <= limits.maxRows && BetweenBatches(limits.maxRows, deleted) && Justified(test)
        invariant batches == Batches(trace) && LatestTry(trace) != Some(Committed(0))
        invariant quiet ==> Progress(old(rows), test, column, gone, deleted)
        decreases limits.maxRows - deleted
      {
        var before, ended := deleted, None;
        deleted, ended, gone := Turn(st, limits, deleted, test, column, old(rows), gone);
        if deleted > before {
          batches := batches + 1;
        }
        if ended.Some? {
          return deleted, batches, ended.value, gone;
        }
      }
      stop := CeilingReached;
    }
  }

  lemma LoggedNothing(g: Gate)
    ensures Logged([], g) == g
  {
    assert [] + g.log == g.log;
  }

  lemma LoggedMore(a: Trace, b: Trace, g: Gate)
    ensures Logged(a, Logged(b, g)) == Logged(a + b, g)
  {
    Regroup(a, b, g.log);
  }

  /** The table after removing exactly the n oldest rows passing the test. */
  ghost predicate Removed(before: Table, after: Table, ord: Ordering, test: Row -> bool, column: string,
                          gone: set<nat>, n: nat) {
    && after == before - gone && |gone| == n
    && OldestFirst(before, Matching(before, test), column, ord, gone)
  }

  lemma BatchRemoves(before: Table, here: Table, after: Table, ord: Ordering, test: Row -> bool, column: string,
                     gone: set<nat>, n: nat, removed: set<nat>, size: nat, confirmed: bool)
    requires Removed(before, here, ord, test, column, gone, n) && after == here - removed && size > 0
    requires confirmed || removed != {} ==> IsOldestBatch(here, Matching(here, test), column, ord, size, removed)
    ensures Removed(before, after, ord, test, column, gone + removed, n + |removed|)
    ensures confirmed && removed == {} ==> Matching(after, test) == {}
  {
    MatchingShrinks(before, test, gone);
    BatchExtends(before, Matching(before, test), column, ord, gone, removed);
    if confirmed && removed == {} {
      assert |Matching(here, test)| == 0;
      assert here - {} == here;
    }
  }

  /** The sub-tables removed so far hold only rows passing the test. */
  ghost predicate OnlyMatching(discarded: seq<Table>, test: Row -> bool) {
    forall i, id :: 0 <= i < |discarded| && id in discarded[i] ==> test(discarded[i][id])
  }

  function Total(discarded: seq<Table>): nat {
    if discarded == [] then 0 else Total(discarded[..|discarded| - 1]) + |discarded[|discarded| - 1].Keys|
  }

  /** One more removal, of the rows at ids, each passing the test. */
  ghost predicate Discards(before: seq<Table>, after: seq<Table>, ids: set<nat>, test: Row -> bool) {
    && |after| == |before| + 1 && after[..|before|] == before && after[|before|].Keys == ids
    && forall id :: id in ids ==> test(after[|before|][id])
  }

  lemma DiscardsCount(before: seq<Table>, after: seq<Table>, ids: set<nat>, test: Row -> bool)
    requires OnlyMatching(before, test) && Discards(before, after, ids, test)
    ensures OnlyMatching(after, test) && Total(after) == Total(before) + |ids|
  {
    assert forall i :: 0 <= i < |before| ==> after[i] == before[i];
  }

  /** A committed batch whose report brings the run to its next checkpoint. */
  predicate ReadyToReport(t: Trace, maxRows: nat, sequence: nat, highest: int, affected: nat, cumulative: nat) {
    var reported := t + [Emitted(Event(sequence + 1, BatchCommitted, affected, cumulative))];
    AtCheckpoint(reported, maxRows, sequence + 1, highest, cumulative) && !Waiting(reported)
  }

  /** How an attempt leaves the trace: accounted for, or about to be reported. */
  predicate AfterAttempt(t: Trace, limits: Limits, sequence: nat, highest: int, deleted: nat, affected: Option<nat>)
    requires PositiveScope(limits)
  {
    && Safe(t, limits.maxRows) && !AcceptsPause(t) && !Halted(t)
    && LatestEvent(t).Some? && LatestEvent(t).value.sequence == sequence && RowsReported(t) == deleted
    && match affected
       case None =>
         && RowsCommitted(t) == deleted && RowsGone(t) <= deleted + limits.batchSize
         && LatestTry(t).Some? && LatestTry(t).value.Failed?
       case Some(n) =>
         && LatestTry(t) == Some(Committed(n))
         && RowsCommitted(t) == RowsGone(t) == deleted + n <= limits.maxRows
         && ReadyToReport(t, limits.maxRows, sequence, highest, n, deleted + n)
  }

  lemma AttemptLeaves(t: Trace, limits: Limits, sequence: nat, highest: int, deleted: nat, size: nat, n: nat,
                      affected: Option<nat>)
    requires PositiveScope(limits)
    requires AtCheckpoint(t, limits.maxRows, sequence, highest, deleted) && Open(t)
    requires deleted + size <= limits.maxRows && n <= size <= limits.batchSize
             && (affected.Some? ==> affected.value == n)
    ensures var after := t + [Attempted(size), if affected.Some? then Committed(n) else Failed(n)];
            && AfterAttempt(after, limits, sequence, highest, deleted, affected) && RowsGone(after) == deleted + n
            && Batches(after) == Batches(t) + (if affected.Some? && n > 0 then 1 else 0)
  {
    AttemptIsSafe(t, limits.maxRows, sequence, highest, deleted, size, n, affected.Some?);
    if affected.Some? {
      ReportIsSafe(t + [Attempted(size), Committed(n)], limits.maxRows, sequence, highest, deleted, n);
    }
  }

  /** An attempt at an open checkpoint, and its outcome. */
  lemma AttemptIsSafe(t: Trace, maxRows: nat, sequence: nat, highest: int, deleted: nat, size: nat, n: nat,
                      confirmed: bool)
    requires AtCheckpoint(t, maxRows, sequence, highest, deleted) && Open(t)
    requires deleted + size <= maxRows && n <= size
    ensures var after := t + [Attempted(size), if confirmed then Committed(n) else Failed(n)];
            && Safe(after, maxRows) && !AcceptsPause(after) && !Waiting(after)
            && LatestEvent(after) == LatestEvent(t) && RowsReported(after) == deleted
            && RowsGone(after) == deleted + n
            && RowsCommitted(after) == deleted + (if confirmed then n else 0)
            && Highest(after) == highest && !Halted(after)
            && Batches(after) == Batches(t) + (if confirmed && n > 0 then 1 else 0)
            && LatestTry(after) == Some(if confirmed then Committed(n) else Failed(n))
  {
    var outcome := if confirmed then Committed(n) else Failed(n);
    var tried := t + [Attempted(size)];
    OpenIsNotWaiting(t);
    Appended(t, Attempted(size));
    Appended(tried, outcome);
    assert t + [Attempted(size), outcome] == tried + [outcome];
  }

  /** The event that reports a committed batch. */
  lemma ReportIsSafe(t: Trace, maxRows: nat, sequence: nat, highest: int, deleted: nat, n: nat)
    requires Safe(t, maxRows) && !AcceptsPause(t) && !Waiting(t) && Highest(t) == highest && !Halted(t)
    requires LatestEvent(t).Some? && LatestEvent(t).value.sequence == sequence
    requires RowsReported(t) == deleted && RowsCommitted(t) == RowsGone(t) == deleted + n
    ensures ReadyToReport(t, maxRows, sequence, highest, n, deleted + n)
  {
    Appended(t, Emitted(Event(sequence + 1, BatchCommitted, n, deleted + n)));
  }
}
