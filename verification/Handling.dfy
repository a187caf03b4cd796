/**
  One delete document from the network to its ending (internal/agent/agent.go:175-249): verification,
  the configured source, the local policy, and only then the run.
  */
module Handling {
  import opened Outcomes
  import opened Job
  import opened Policy
  import opened Sql
  import opened Statements
  import opened Holds
  import opened Checkpoint
  import opened BatchedDelete
  import opened BatchRun
  import opened DriftGate
  import Replay
  import Config
  import opened Confinement
  import opened DeleteJob

  datatype Handled =
    | NotVerified(verdict: Replay.Verdict)
    | UnknownSource
    | ExecutionDisabled
    | DeniedByPolicy(code: Denial)
    | NotADelete
    | Ran(ending: Ending)

  function WorkOf(j: Envelope): Work
    requires j.target.Some? && j.retention.Some?
  {
    Work(j.target.value, j.retention.value, j.condition, j.holds)
  }

  /** The source a document may run against: known, configured, and enabled for execution. */
  predicate Executable(config: Config.Config, j: Envelope) {
    && j.dataSource in config.sources
    && !Config.Pending(config.sources[j.dataSource])
    && config.sources[j.dataSource].mode.Execution?
  }

  /** A source that may execute carries a valid policy, even where an empty one is tolerated. */
  lemma ExecutableIsGoverned(config: Config.Config, j: Envelope)
    requires Config.ValidConfig(config) && Executable(config, j)
    ensures ValidSafety(config.sources[j.dataSource].safety)
  {
    assert Config.ValidSource(config.sources[j.dataSource]);
  }

  /** The rule that authorized a delete. */
  function GoverningRule(config: Config.Config, j: Envelope): TableRule
    requires Executable(config, j) && j.target.Some?
    requires Rule(config.sources[j.dataSource].safety.tables, j.target.value).Some?
  {
    Rule(config.sources[j.dataSource].safety.tables, j.target.value).value
  }

  /** What has to be true of a document before anything is attempted on its behalf. */
  ghost predicate Admitted(id: Replay.Identity, entries: Replay.Entries, config: Config.Config, doc: Replay.Document,
                           now: int, storage: Replay.Storage, later: int) {
    && doc.Document? && Replay.VerdictOf(id, entries, doc, now, storage).Accepted?
    && doc.job.operation.Delete? && Valid(doc.job) && Executable(config, doc.job)
    && ValidSafety(config.sources[doc.job.dataSource].safety)
    && Authorize(config.sources[doc.job.dataSource].safety, doc.job, later).Allowed?
  }

  /** What an admitted run is held to, end to end. */
  ghost predicate WithinLocalRules(config: Config.Config, j: Envelope, t: Trace) {
    && Executable(config, j) && j.target.Some? && j.retention.Some? && j.limits.Some?
    && var s := config.sources[j.dataSource].safety;
       && Rule(s.tables, j.target.value).Some?
       && DeleteRows in GoverningRule(config, j).actions
       && 0 < RowCeiling(s, GoverningRule(config, j))
       && RowsGone(t) <= j.limits.value.maxRows <= RowCeiling(s, GoverningRule(config, j))
       && var st := DeleteBatchStatement(j.target.value, j.retention.value, j.condition, j.holds);
          && st.Ok? && Parse(st.value.where).Some?
          && forall c :: c in Columns(Parse(st.value.where).value) ==> c in GoverningRule(config, j).retentionColumns
  }

  lemma AdmittedIsBuildable(id: Replay.Identity, entries: Replay.Entries, config: Config.Config, doc: Replay.Document,
                            now: int, storage: Replay.Storage, later: int)
    requires Admitted(id, entries, config, doc, now, storage, later)
    ensures doc.job.target.Some? && doc.job.retention.Some? && doc.job.limits.Some?
    ensures Buildable(WorkOf(doc.job))
    ensures PositiveScope(Authorize(config.sources[doc.job.dataSource].safety, doc.job, later).effective)
  {
    ValidatedIsCompilable(doc.job);
    AuthorizedWithinCeilings(config.sources[doc.job.dataSource].safety, doc.job, later);
  }

  lemma AdmittedStaysWithinRules(id: Replay.Identity, entries: Replay.Entries, config: Config.Config,
                                 doc: Replay.Document, now: int, storage: Replay.Storage, later: int, t: Trace)
    requires Admitted(id, entries, config, doc, now, storage, later)
    requires var limits := Authorize(config.sources[doc.job.dataSource].safety, doc.job, later).effective;
             0 <= limits.maxRows && Safe(t, limits.maxRows)
    ensures WithinLocalRules(config, doc.job, t)
  {
    var s := config.sources[doc.job.dataSource].safety;
    AuthorizedWithinCeilings(s, doc.job, later);
    AuthorizedIsConfined(s, doc.job, later);
    GoneWithinCeiling(t, Authorize(s, doc.job, later).effective.maxRows);
  }

  /** The recount a run started from respects the local drift limits, whenever its tolerances compose. */
  ghost predicate StartedWithinDrift(config: Config.Config, j: Envelope, rows: Table, ord: Ordering)
    requires Executable(config, j) && j.target.Some? && j.retention.Some? && Buildable(WorkOf(j)) && j.drift.Some?
  {
    var s, count := config.sources[j.dataSource].safety, |CandidatesOf(rows, WorkOf(j), ord)|;
    IsCount(count) && TolerancesCompose(s, j.drift.value) ==> WithinLocal(s.drift, j.drift.value.expectedRows, count)
  }

  lemma StartMeansWithinDrift(config: Config.Config, j: Envelope, now: int, rows: Table, ord: Ordering)
    requires Valid(j) && j.operation.Delete? && Executable(config, j) && Buildable(WorkOf(j))
    requires ValidSafety(config.sources[j.dataSource].safety)
             && Authorize(config.sources[j.dataSource].safety, j, now).Allowed?
    requires !DriftExceeded(j.drift, |CandidatesOf(rows, WorkOf(j), ord)|)
    ensures StartedWithinDrift(config, j, rows, ord)
  {
    var s, count := config.sources[j.dataSource].safety, |CandidatesOf(rows, WorkOf(j), ord)|;
    AuthorizedDrift(s, j, now);
    if IsCount(count) && TolerancesCompose(s, j.drift.value) {
      ComposedTolerancesHold(s, j.drift.value, count);
    }
  }

  /** What was checked of a document that ran: signed, for this connector, timely, and not seen before. */
  predicate Genuine(id: Replay.Identity, entries: Replay.Entries, doc: Replay.Document, now: int) {
    && doc.Document? && doc.signed
    && doc.job.organization == id.organization && doc.job.connector == id.connector
    && doc.job.issuedAt - Replay.CLOCK_SKEW <= now < doc.job.expiresAt
    && doc.job.nonce !in entries
  }

  /** The source a document names is known and configured. */
  predicate Known(config: Config.Config, j: Envelope) {
    j.dataSource in config.sources && !Config.Pending(config.sources[j.dataSource])
  }

  /** When a document gets each answer; the cases exclude each other. */
  ghost predicate Routed(id: Replay.Identity, entries: Replay.Entries, config: Config.Config, doc: Replay.Document,
                         now: int, storage: Replay.Storage, later: int, handled: Handled) {
    var verdict := Replay.VerdictOf(id, entries, doc, now, storage);
    match handled
    case NotVerified(v) => v == verdict && !verdict.Accepted?
    case UnknownSource => verdict.Accepted? && doc.Document? && !Known(config, doc.job)
    case NotADelete => verdict.Accepted? && doc.Document? && Known(config, doc.job) && !doc.job.operation.Delete?
    case ExecutionDisabled =>
      && verdict.Accepted? && doc.Document? && Known(config, doc.job) && doc.job.operation.Delete?
      && config.sources[doc.job.dataSource].mode.DiscoveryOnly?
    case DeniedByPolicy(code) =>
      && verdict.Accepted? && doc.Document? && doc.job.operation.Delete? && Executable(config, doc.job)
      && Authorize(config.sources[doc.job.dataSource].safety, doc.job, later) == Denied(code)
    case Ran(_) => Admitted(id, entries, config, doc, now, storage, later)
  }

  /** The limits a granted job runs under. */
  function LimitsOf(config: Config.Config, j: Envelope, later: int): Option<Limits>
    requires Executable(config, j)
  {
    match Authorize(config.sources[j.dataSource].safety, j, later)
    case Allowed(effective) => Some(effective)
    case Denied(_) => None
  }

  /** What holds of every run, disturbed or not: its trace, its ending, and the drift it started from. */
  ghost predicate RunIsBound(config: Config.Config, j: Envelope, later: int, t: Trace, ending: Ending, counted: Table,
                             ord: Ordering) {
    && Executable(config, j) && j.target.Some? && j.retention.Some? && j.drift.Some? && Buildable(WorkOf(j))
    && LimitsOf(config, j, later).Some? && PositiveScope(LimitsOf(config, j, later).value)
    && Recorded(t, ending, LimitsOf(config, j, later).value)
    && (!ending.CountFailed? ==>
          (ending.Stale? <==> DriftExceeded(j.drift, |CandidatesOf(counted, WorkOf(j), ord)|)))
    && (!NeverStarted(ending) ==> StartedWithinDrift(config, j, counted, ord))
  }

  /** What an undisturbed run comes to. */
  ghost predicate OneDelete(config: Config.Config, j: Envelope, later: int, before: Table, after: Table, ord: Ordering,
                            gone: set<nat>, ending: Ending) {
    && Executable(config, j) && j.target.Some? && j.retention.Some? && Buildable(WorkOf(j))
    && LimitsOf(config, j, later).Some? && PositiveScope(LimitsOf(config, j, later).value)
    && Outcome(before, after, TestFor(WorkOf(j), ord), j.retention.value.column, ord, gone, ending,
               LimitsOf(config, j, later).value)
  }

  /**
    handle. Whatever the control plane sends, the table is untouched unless the document is
    verified at one clock reading, its source enabled, and the local policy grants it at a later
    reading; and then, whatever other writers do, the run stays under the local row ceiling and
    within the rule's columns, starts only behind the drift gate, and removes only rows that pass its
    test when they go. counted is the table the recount saw.
    */
  method Handle(id: Replay.Identity, ledger: Replay.ReplayLedger, config: Config.Config, session: Session,
                doc: Replay.Document, now: int, storage: Replay.Storage, later: int)
    returns (handled: Handled, ghost gone: set<nat>, ghost counted: Table)
    requires Config.ValidConfig(config) && TotalPreorder(session.ord)
    requires session.Fresh()
    modifies ledger, session
    ensures ledger.entries == Replay.Verified(id, old(ledger.entries), doc, now, storage)
    ensures Routed(id, old(ledger.entries), config, doc, now, storage, later, handled)
    ensures handled.Ran? <==> Admitted(id, old(ledger.entries), config, doc, now, storage, later)
    ensures !handled.Ran? ==> session.rows == old(session.rows) && session.trace == []
    ensures handled.Ran? ==>
              && Genuine(id, old(ledger.entries), doc, now)
              && WithinLocalRules(config, doc.job, session.trace)
              && RunIsBound(config, doc.job, later, session.trace, handled.ending, counted, session.ord)
              && session.Justified(TestFor(WorkOf(doc.job), session.ord))
    ensures handled.Ran? && session.quiet ==>
              && counted == old(session.rows) && |gone| == RowsGone(session.trace)
              && OneDelete(config, doc.job, later, old(session.rows), session.rows, session.ord, gone, handled.ending)
  {
    gone, counted := {}, session.rows;
    ghost var entries := ledger.entries;
    var verdict := Replay.Verify(id, ledger, doc, now, storage);
    if !verdict.Accepted? {
      return NotVerified(verdict), gone, counted;
    }
    var job := doc.job;
    if job.dataSource !in config.sources || Config.Pending(config.sources[job.dataSource]) {
      return UnknownSource, gone, counted;
    }
    if !job.operation.Delete? {
      return NotADelete, gone, counted;
    }
    var source := config.sources[job.dataSource];
    if source.mode.DiscoveryOnly? {
      return ExecutionDisabled, gone, counted;
    }
    assert Config.ValidSource(source);
    ExecutableIsGoverned(config, job);
    Replay.AcceptedIff(id, entries, doc, now, storage);
    var decision := Authorize(source.safety, job, later);
    if decision.Denied? {
      return DeniedByPolicy(decision.code), gone, counted;
    }
    var ending;
    ending, gone, counted := Perform(id, entries, config, session, doc, now, storage, later, decision.effective);
    handled := Ran(ending);
  }

  /** The run of an admitted document. */
  method Perform(ghost id: Replay.Identity, ghost entries: Replay.Entries, ghost config: Config.Config,
                 session: Session, doc: Replay.Document, ghost now: int, ghost storage: Replay.Storage,
                 ghost later: int, limits: Limits)
    returns (ending: Ending, ghost gone: set<nat>, ghost counted: Table)
    requires Admitted(id, entries, config, doc, now, storage, later) && LimitsOf(config, doc.job, later) == Some(limits)
    requires TotalPreorder(session.ord) && session.Fresh()
    modifies session
    ensures WithinLocalRules(config, doc.job, session.trace)
    ensures RunIsBound(config, doc.job, later, session.trace, ending, counted, session.ord)
    ensures session.Justified(TestFor(WorkOf(doc.job), session.ord))
    ensures session.quiet ==>
              && counted == old(session.rows) && |gone| == RowsGone(session.trace)
              && OneDelete(config, doc.job, later, old(session.rows), session.rows, session.ord, gone, ending)
  {
    AdmittedIsBuildable(id, entries, config, doc, now, storage, later);
    ending, gone, counted := DeleteJob.Delete(session, WorkOf(doc.job), doc.job.drift, limits);
    AdmittedStaysWithinRules(id, entries, config, doc, now, storage, later, session.trace);
    if !NeverStarted(ending) {
      StartMeansWithinDrift(config, doc.job, later, counted, session.ord);
    }
  }
}
