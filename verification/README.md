# Retention connector: a verified model

The connector runs retention work that a remote control plane asks for, under rules that only the
local operator can write. This project models the parts of it that decide what may be deleted, and
proves what they guarantee:

- **Condition compiler.** A recursive boolean tree becomes parameterised SQL while a shared argument
  list grows. The rendered text is parsed back with SQL precedence and evaluated under three-valued
  logic, and both agree with the tree for every row, every comparison and whatever is bound later.
- **Destructive run.** Recount, drift gate, checkpoint, committed batch, event - against a control
  plane, other writers and failures that behave arbitrarily. A trace of everything observable is
  safe by construction of the code, and safety is unfolded into what it means over a whole run.
- **Admission.** Verification, the nonce ledger, local authorization and the drift arithmetic,
  composed in one handler.
- **Sealed configuration.** At-least-once delivery over a durable overlay, a write-once ledger and
  memory, with failures and crashes at every point, and what a restart makes of it.
- **Canonical JSON.** A parser inverts the writer, so equal bytes mean equal documents; member order
  does not depend on how a map was iterated.

`dafny verify dfyconfig.toml` checks all of it.

## How it is laid out

| files | part |
|---|---|
| `Outcomes`, `Sequences`, `Decimal`, `JsonTree` | shared: results, concatenation, base-ten text, decoded JSON |
| `Conditions`, `Job` | the wire types and their structural validation |
| `Sql`, `ConditionCompiler`, `CompilerCorrectness`, `Statements`, `Holds` | the compiler, the SQL fragment it targets, and their agreement |
| `Policy`, `Confinement`, `DriftGate`, `Replay` | admission |
| `Checkpoint`, `BatchedDelete`, `BatchRun`, `DeleteJob`, `Handling` | the run, from one gate to one handled document |
| `Config`, `SealedApplication`, `RestartRefinement`, `Framing` | sealed configuration |
| `MemberOrder`, `CanonicalJson`, `CanonicalWriter`, `Signing` | canonical JSON and signed bytes |

Code that changes things step by step is a class or a method with loops, proved equal to a function;
the properties are lemmas about that function.

## Assumptions

- A ctid names one row of the target (a plain table), so a batch removes at most its LIMIT.
- The database's comparison of values is a parameter. Where ordering matters it is a total preorder.
- Verification reads the clock once and is atomic; clocks in a run do not go backwards.
- The rename that installs the overlay is atomic. Creating, writing and closing a ledger entry are
  separate steps, and a write can stop anywhere.
- Other writers may act before, between and after a batch's SELECT and its DELETE; the DELETE's own
  predicate is evaluated on the rows as they are then.
- Nonces and envelope ids stand for their SHA-256 file names; signature checks, decryption and the
  regular expressions over identities are flags or parameters.
- A failed batch may have removed its rows all the same: the commit can take effect although its
  confirmation is lost.

## What is not as documented

- `protocol/v1/event.schema.json` calls event numbers strictly increasing. A re-sent PAUSED repeats
  its number: over a whole run numbers are strict if and only if every checkpoint accepted at most one
  PAUSE (`Checkpoint.StrictlyNumberedIffOnePauseEach`, `Checkpoint.TwoPausesRepeatANumber`).
  `Checkpoint.SequenceIdentifiesEvent` is the property idempotency needs.
- `internal/policy/policy.go:43-44` promises that a job may request less drift than the local policy,
  never more. A job with a single zero tolerance passes authorization and skips that check at run
  time; `DriftGate.DriftComposition` says exactly which authorized tolerances keep the promise, int64
  wrap-around included, and `DriftGate.DefaultPolicyIsEscaped` shows the default policy among those
  that can be escaped.
- Nothing bounds a job's lifetime, so a nonce can be forgotten while its job is still valid:
  `Replay.AtMostOnceIffShortLived`.
- A restart does not reproduce memory when the last envelope names no executor role and an earlier
  one did; it silently changes the role, or is refused: `RestartRefinement.RestartAgreesIff`,
  `RestartSucceedsIff`, `RestartCanChangeRole`, `RestartCanBeRefused`.
- `internal/sealedconfig/ledger.go:61-66` calls a re-apply after a crash harmless. It is, over any run
  in between, if and only if no other connection has reached the disk for that source last
  (`RestartRefinement.ReapplyingIsHarmlessIff`); otherwise it replaces a newer configuration
  (`LateRedeliveryOverwrites`).
- `internal/sealedconfig/ledger.go:44-46` promises that the control plane never sees a different
  story, and `internal/agent/configuration.go:75-76` that a refusal means nothing changed. The second
  holds of one delivery and fails of an envelope. Over any run the control plane hears "applied" if
  and only if the delivery that created the entry installed the connection and wrote the entry whole
  (`SealedApplication.EntryAppliedIff`, `AnswersFollowCreator`). So once a connection has reached the
  disk, every later record agrees if and only if that delivery recorded it whole itself, or died
  unrecorded and cannot start again (`NeverDeniedIff`); otherwise the entry is torn
  (`RestartRefinement.BlankEntryHides`) or a later delivery of the same envelope, expired by then,
  puts a refusal on record (`RestartRefinement.ExpiredRedeliveryHides`). Some continuation still
  reports the application if and only if the entry was not cut short and the process lives or can be
  started again (`ApplicationCanBeToldIff`).
- `internal/sealedconfig/sealedconfig.go:87-93` says no separator can be smuggled inside a value. Two
  envelopes for one recipient collide once a field reaches 65536 bytes, and not before:
  `Framing.LongFieldsCollide`, `IdentifiesIffShort`.

## Model

| member | source | states |
|---|---|---|
| `Conditions.NormalizeList` | protocol/v1/job.go:349-361 | the loop yields the values the literals stand for, in order - text and booleans as they are, a number its integer - and refuses the list if and only if some item stands for nothing |
| `Conditions.DecodeIff` | protocol/v1/job.go:326-365 | a literal decodes to an operand if and only if it stands for it, item by item |
| `Conditions.Budget.ValidateCondition` | protocol/v1/job.go:248-288 | the walk over one tree accepts exactly the trees the specification accepts and leaves the shared counter at the specified value |
| `Conditions.Budget.ValidateConditions` | protocol/v1/job.go:279-283 | the same for a list of trees under one counter |
| `Conditions.ValidatedIff` | protocol/v1/job.go:248-322 | a tree is accepted if and only if it has exactly one form at every node, valid predicates, groups of at most 100, depth at most 16 and fits the 500-node budget, and costs exactly its node count |
| `Conditions.SixteenLevels` | protocol/v1/job.go:249-252 | a predicate under k negations is accepted if and only if k is at most 16 |
| `Conditions.HundredMembers` | protocol/v1/job.go:272-278 | a group of k predicates is accepted if and only if k is between 1 and 100 |
| `Conditions.LiteralsBounded` | protocol/v1/job.go:314-317 | a tree binds at most one hundred literals per node |
| `Job.ValidateTrees` | protocol/v1/job.go:231-244 | condition and holds are validated against one budget, and a job without holds is refused |
| `Job.TreesValidIff` | protocol/v1/job.go:231-244 | the trees of a job are accepted if and only if there are holds, each tree is acceptable, and all together fit one budget |
| `Job.ValidJobIff` | protocol/v1/job.go:174-246 | a count or delete is valid if and only if header, window, operands, trees and limits are in the protocol's ranges and a delete carries an approved plan |
| `ConditionCompiler.Builder.BuildPredicate` | adapters/postgres/sql.go:199-234 | text, error or panic, and the arguments appended, are those of the specification for the number already bound |
| `ConditionCompiler.Builder.BuildList` | adapters/postgres/sql.go:216-220 | the loop appends the values in order and returns their consecutive placeholders |
| `ConditionCompiler.Builder.BuildCondition` | adapters/postgres/sql.go:174-197 | the recursive compiler over the shared list does what the specification says, errors included |
| `ConditionCompiler.Builder.BuildConditions` | adapters/postgres/sql.go:162-172 | each clause is parenthesised, in order, each starting where the previous one's arguments end |
| `CompilerCorrectness.PredicateReads` | adapters/postgres/sql.go:199-234 | a rendered predicate is read back as the intended test on the intended placeholders, whatever non-digit follows |
| `CompilerCorrectness.AllReads` | adapters/postgres/sql.go:188-196 | clauses joined by AND are read as exactly that conjunction, a single one as itself |
| `CompilerCorrectness.AnyReads` | adapters/postgres/sql.go:180-196 | clauses joined by OR are read as exactly that disjunction |
| `CompilerCorrectness.ConditionReads` | adapters/postgres/sql.go:174-197 | every well-formed tree compiles, appends exactly its literals, and its text parses under NOT over AND over OR to the planned expression |
| `CompilerCorrectness.ConditionsRead` | adapters/postgres/sql.go:162-172 | the same for lists, each clause an operand whatever follows it |
| `CompilerCorrectness.PredicatePreserved` | adapters/postgres/sql.go:199-234 | each operator means its comparison, null test or membership, under three-valued logic, with the values the literals stand for |
| `CompilerCorrectness.PlanPreserves` | adapters/postgres/sql.go:174-234 | against any argument list that binds the cutoff first and the tree's literals at their places, the expression has the tree's own truth value on every row |
| `Statements.BuildCandidateWhere` | adapters/postgres/sql.go:105-122 | the builder returns the specified clause and arguments, or the specified fault |
| `Statements.BuildHeldWhere` | adapters/postgres/sql.go:124-140 | the same for the hold-blocked clause |
| `Statements.CandidateReads` | adapters/postgres/sql.go:105-122 | the clause binds cutoff, condition literals and hold literals in that order and parses to retention AND condition AND NOT (any hold) |
| `Statements.HeldReads` | adapters/postgres/sql.go:124-140 | the held clause parses to retention AND condition AND (any hold) |
| `Statements.CandidateClauseCorrect` | adapters/postgres/sql.go:105-122 | end to end: the text, with anything bound after its own arguments, is true, false or unknown exactly as the operands mean, and $1 is the cutoff |
| `Statements.HeldClauseCorrect` | adapters/postgres/sql.go:124-140 | the same for the held clause |
| `Statements.GuardedClauseCorrect` | adapters/postgres/sql.go:100-102 | behind one more operand and AND the clause is read as one flat conjunction and means that operand and the whole clause |
| `Statements.DeleteStatementBuilds` | adapters/postgres/sql.go:80-103 | a validated job's statement builds without error or panic, the batch size is the next placeholder, and at most 50002 parameters are bound, below 65535 |
| `Statements.ParameterBoundIsReached` | protocol/v1/job.go:231-251 | five hundred holds of one hundred values validate and bind exactly 50002 parameters |
| `Holds.ClausesSelect` | adapters/postgres/sql.go:105-140 | on every table the two clauses select the candidates and the held rows |
| `Holds.CandidateEscapesEveryHold` | adapters/postgres/sql.go:114-120 | every hold is strictly false on a candidate |
| `Holds.HoldPartition` | adapters/postgres/sql.go:105-160 | candidates and held rows are disjoint parts of the eligible rows; the counts add up if and only if no eligible row leaves the hold disjunction unknown |
| `Policy.KeyNamesTable` | internal/policy/policy.go:110-114 | the joined schema.table key is the same only for the same table |
| `Policy.ValidateTables` | internal/policy/policy.go:104-115 | the loop with its set of seen keys accepts exactly valid rules with distinct keys |
| `Policy.ValidateSafety` | internal/policy/policy.go:95-123 | validation accepts exactly policies whose schemas, rules, ceilings and drift mode are in order and whose rules name different tables |
| `Policy.Collector.Visit` | internal/policy/policy.go:285-300 | the recursive closure appends the tree's columns in visiting order |
| `Policy.CollectColumns` | internal/policy/policy.go:283-306 | condition and holds are both walked |
| `Policy.AllowedIff` | internal/policy/policy.go:233-281 | a valid count or delete is allowed if and only if the rule for its target grants the action, lists every column named, and row and batch ceilings, approval and drift are met |
| `Policy.DeniedIff` | internal/policy/policy.go:233-281 | each denial names the first of these that fails, in the order of the checks |
| `Policy.NoRuleNoGrant` | internal/policy/policy.go:246-253 | a target without a rule, or in a schema that is not allowed, is denied by any policy |
| `Policy.EffectiveLimitsAre` | internal/policy/policy.go:366-391 | timeouts become the smaller positive of job and policy, everything else is as asked |
| `Policy.AuthorizedWithinCeilings` | internal/policy/policy.go:335-391 | an authorized delete's rule grants deletes, its max_rows is within a positive local ceiling, its scope unclamped, its timeouts only tightened, its approval unexpired where required |
| `Policy.RuleIsUnique` | internal/policy/policy.go:218-226 | the rule found for a target is the only one for it |
| `Confinement.PlanColumns` | internal/policy/policy.go:283-306 | the columns the compiled expression reads are exactly those the policy's own walk collected |
| `Confinement.ClauseColumns` | adapters/postgres/sql.go:105-122 | the candidate clause reads the retention column and those, nothing else |
| `Confinement.AuthorizedIsConfined` | internal/policy/policy.go:233-281 | every authorized count or delete compiles, and every column in its text is a retention column of the one rule for its target |
| `DriftGate.NoOverflow` | internal/evidence/evidence.go:129-148 | with a row tolerance, or a difference up to 922337203685477, the wrapping arithmetic decides as exact arithmetic would |
| `DriftGate.DriftComposition` | internal/evidence/evidence.go:129-148 | an authorized delete's gate keeps every possible recount within the local drift limits if and only if its tolerances compose |
| `DriftGate.ScalableDriftComposition` | internal/policy/policy.go:308-327 | for differences that do not overflow, a lone basis-point tolerance also composes exactly when its admitted rows are within the local row limit |
| `DriftGate.UncomposedTolerancesFail` | internal/evidence/evidence.go:141-147 | otherwise there is a concrete count that passes the gate and breaks the local limits |
| `DriftGate.DefaultPolicyIsEscaped` | internal/config/config.go:213-219 | a valid policy with the default drift limits authorizes a valid delete of 1000 rows with a row tolerance of 100 alone, and a recount of 1100 then proceeds |
| `Replay.ReplayLedger.Consume` | internal/jobs/replay.go:51-61 | a nonce is recorded once; a used one is reported; a close error is a failure that still leaves the entry |
| `Replay.ReplayLedger.Prune` | internal/jobs/replay.go:64-81 | the loop removes exactly the entries past retention that the file system lets go, and counts them |
| `Replay.Verified` | internal/jobs/verifier.go:64-99 | a document refused by any earlier check leaves the ledger alone, and no verification removes or changes an entry |
| `Replay.Verify` | internal/jobs/verifier.go:64-99 | the chain of checks gives the specified verdict and ledger |
| `Replay.AcceptedIff` | internal/jobs/verifier.go:64-99 | a document is accepted if and only if it decodes, is valid, signed, for this organization and connector, inside its window with the tolerated skew, its nonce new and its entry storable |
| `Replay.RefusedIff` | internal/jobs/verifier.go:64-99 | each refusal is given if and only if its check is the first to fail |
| `Replay.LedgerGrowsIff` | internal/jobs/verifier.go:87-97 | the ledger gains the nonce exactly when everything before it passed and the entry could be created |
| `Replay.ShortLivedAtMostOnce` | internal/jobs/replay.go:51-81 | over any interleaving of deliveries, prunes and restarts a job with lifetime at most retention less skew is accepted at most once |
| `Replay.AtMostOnceIffShortLived` | internal/agent/agent.go:29-31 | at-most-once acceptance over all ledgers and runs holds if and only if the lifetime is that short |
| `Checkpoint.GateKeepsSafe` | internal/agent/agent.go:404-452 | for every sequence of answers the gate keeps the trace safe, proceeds only on a fresh accepted RUN, and reports CANCEL only after accepting one |
| `Checkpoint.VerdictIff` | internal/agent/agent.go:404-452 | from the answers alone: the gate proceeds, cancels or waits if and only if the first recent enough answer that is not a PAUSE is a RUN, a CANCEL, or none |
| `Checkpoint.AwaitDecides` | internal/agent/agent.go:404-452 | it consumes exactly the answers up to that one, takes its version, and reports one PAUSED per heeded PAUSE and one RESUMED if it had paused |
| `Checkpoint.AwaitWaits` | internal/agent/agent.go:404-452 | without such an answer it consumes them all and is interrupted |
| `Checkpoint.EveryAttemptIsLicensed` | internal/agent/agent.go:404-452 | in a safe trace each DELETE attempt directly follows its own RUN, whose version is at least every version answered before |
| `Checkpoint.NothingAfterCancel` | internal/agent/agent.go:436-437 | after an accepted CANCEL nothing is attempted and nothing commits |
| `Checkpoint.GoneWithinCeiling` | adapters/postgres/adapter.go:392-399 | rows removed, an unconfirmed batch included, never exceed max_rows |
| `Checkpoint.SequenceIdentifiesEvent` | internal/agent/agent.go:438-446 | event numbers never decrease, and equal numbers mean the same PAUSED event, its sending time aside |
| `Checkpoint.EventsConserveRows` | internal/agent/agent.go:369-373 | at every event cumulative_rows is the sum of affected_rows so far and the rows committed so far |
| `Checkpoint.StrictlyNumberedIffOnePauseEach` | protocol/v1/event.schema.json:22-26 | over a whole run event numbers strictly increase if and only if every checkpoint accepted at most one PAUSE |
| `Checkpoint.TwoPausesRepeatANumber` | internal/agent/agent.go:438-446 | the answers PAUSE, PAUSE, RUN at the first checkpoint already repeat a number |
| `BatchedDelete.OldestBatchExists` | adapters/postgres/sql.go:93-102 | ORDER BY with LIMIT always has a legitimate answer |
| `BatchedDelete.BatchesCompose` | adapters/postgres/adapter.go:392-435 | the oldest rows, then the oldest of the rest, are the oldest rows |
| `BatchRun.Session.AwaitControl` | internal/agent/agent.go:404-452 | the verdict is the one the answers determine; answers, sequence, version and trace are left exactly as the gate's specification |
| `BatchRun.Session.Weigh` | internal/agent/agent.go:413-450 | one round of the loop, answer by answer |
| `BatchRun.Session.DeleteOneBatch` | adapters/postgres/adapter.go:439-468 | a batch removes at most its size, and only rows that pass the test at the moment they go, whatever other writers do; undisturbed it removes the oldest matching rows; a failure may have removed them too |
| `BatchRun.Session.Pick` | adapters/postgres/sql.go:93-98 | the SELECT yields the oldest matching rows up to the bound limit |
| `BatchRun.Session.Recheck` | adapters/postgres/sql.go:74-102 | the DELETE takes only picked rows that still match, and undisturbed all of them |
| `BatchRun.Session.Turn` | adapters/postgres/adapter.go:393-435 | one turn of the loop ends the run for a reason the trace and the limits bear out, or makes progress to the next licensed batch |
| `BatchRun.Session.Report` | adapters/postgres/adapter.go:411-433 | after a committed batch the run stops only for a closed gate, a duration ceiling that is set, or an interrupted pause that is set |
| `BatchRun.Session.AttemptBatch` | adapters/postgres/adapter.go:393-410 | one round asks for exactly the smaller of batch size and rows left, keeps the trace safe and, undisturbed, extends the set of oldest rows removed |
| `BatchRun.Session.Observe` | internal/agent/agent.go:369-373 | a committed batch is reported and the next one waits for the gate |
| `BatchRun.Session.AdapterDelete` | adapters/postgres/adapter.go:369-437 | the loop terminates with a safe, fully accounted trace, every removed row justified, the batches counted, and a stop that is borne out: out of time only under a ceiling, drained exactly after an empty batch; undisturbed it removed the oldest candidates |
| `DeleteJob.StatementRealises` | adapters/postgres/sql.go:80-103 | the compiled statement selects by the work's meaning and orders by its retention column for every batch size |
| `DeleteJob.Count` | adapters/postgres/adapter.go:298-357 | the three counts are the candidates, the table, and the held rows |
| `DeleteJob.Execute` | internal/agent/agent.go:354-397 | from ACCEPTED to the end: the trace is safe, truthful about rows and batches, strictly numbered exactly when no checkpoint was paused twice, and cancelled exactly when a CANCEL was accepted; every removed row passed the test when it went; undisturbed and without a duration ceiling it removed exactly min(max_rows, candidates), oldest first, and complete means no candidate is left |
| `DeleteJob.Conclude` | internal/agent/agent.go:383-397 | the report made of the adapter's return: ABORTED appended exactly on an error, completeness from the empty batch or the recount |
| `DeleteJob.Delete` | internal/agent/agent.go:340-397 | with the recount and drift gate in front, and other writers before and after it: the run starts if and only if the table the recount saw passed the gate, and a stale plan removes nothing |
| `Handling.AdmittedStaysWithinRules` | internal/agent/agent.go:237-248 | an admitted document's safe trace stays under the rule's positive row ceiling and within its columns |
| `Handling.Handle` | internal/agent/agent.go:175-249 | a document runs if and only if it is admitted, and gets each refusal exactly in its case; what runs was signed, for this connector, timely and new, granted by a rule for deletes; then, disturbed or not, ceiling, columns, drift of the counted table and justified removals hold together, and undisturbed the bounded-delete outcome too |
| `Config.ApplyDefaults` | internal/config/config.go:194-220 | the in-place loop gives every source its defaults |
| `Config.DefaultsFillGaps` | internal/config/config.go:194-220 | defaults change only what is not set, pick the mode the policy calls for, and change nothing a second time |
| `Config.ApplyManagedOverlay` | internal/config/managed.go:89-108 | in any order the loop merges every entry once, and fails exactly when an entry names an undeclared source |
| `Config.LoadConfig` | internal/config/config.go:157-173 | defaults, overlay, validation, in that order |
| `Config.PrepareCandidate` | internal/sealedconfig/apply.go:30-62 | the candidate is returned exactly when the whole cloned configuration validates with it |
| `Config.PrepareAcceptsIff` | internal/sealedconfig/apply.go:30-62 | against a valid configuration a connection is accepted if and only if its source is declared and host, port, TLS mode, roles, secrets, mode and policy fit |
| `Config.ServedSource` | internal/config/config.go:268-338 | what every source of a loaded or prepared configuration satisfies, connected, pending or enabled for execution |
| `SealedApplication.Connector.Record` | internal/sealedconfig/ledger.go:69-82 | an existing entry is left alone; a fresh one is blank, cut short or whole depending on where creating, writing or closing it failed |
| `SealedApplication.TornIsNoOutcome` | internal/sealedconfig/ledger.go:14-20 | an entry cut short is never read as another outcome |
| `SealedApplication.Connector.Persist` | internal/config/managed.go:117-155 | the installed overlay is the old one or the new one, the new one exactly on success |
| `SealedApplication.Connector.ApplyOpened` | internal/agent/configuration.go:83-132 | validate, persist, activate, under every fault |
| `SealedApplication.Connector.ApplyOneConfiguration` | internal/agent/configuration.go:33-71 | one delivery changes disk, ledger, memory and acknowledgements exactly as specified under every fault |
| `SealedApplication.Connector.Boot` | internal/config/config.go:146-174 | a start serves what Load gives or does not run |
| `SealedApplication.SettledIsInert` | internal/agent/configuration.go:45-60 | a recorded envelope changes neither disk nor memory again, and is answered with its entry replayed whenever the process lives to answer |
| `SealedApplication.RefusalClasses` | internal/sealedconfig/apply.go:72-83 | each refusal code is given if and only if its kind of failure occurred |
| `SealedApplication.EntryNeverChanges` | internal/sealedconfig/ledger.go:67-76 | no run of deliveries, faults and restarts changes an entry |
| `SealedApplication.RefusalChangesNothing` | internal/agent/configuration.go:73-79 | a delivery that is refused, recorded or not, leaves overlay and memory unchanged; the outcome is APPLIED exactly when the connection is installed |
| `SealedApplication.AppliedWasInstalled` | internal/agent/configuration.go:62-70 | APPLIED on record means some delivery of the run put that connection on disk and in memory before recording it |
| `SealedApplication.RunKeepsStory` | internal/agent/configuration.go:50-58 | over every run all acknowledgements of an envelope are its entry or that entry replayed, and APPLIED is sent at most once |
| `SealedApplication.SettledAnswersNeverChange` | internal/sealedconfig/ledger.go:43-47 | over every run, everything said about a recorded envelope is its entry replayed |
| `SealedApplication.EntryAppliedIff` | internal/agent/configuration.go:62-70 | over every run an entry is APPLIED if and only if the delivery that created it installed the connection and wrote the entry whole |
| `SealedApplication.AnswersFollowCreator` | internal/agent/configuration.go:50-58 | every answer about an envelope in every run says applied if and only if its entry's creator did so |
| `SealedApplication.BlankHidesApplication` | internal/sealedconfig/ledger.go:70-80 | after a write cut short, everything said about the envelope in any later run is the torn text, though its connection is on disk |
| `SealedApplication.ApplicationCanBeToldIff` | internal/agent/configuration.go:62-70 | once on disk, some continuation reports the application if and only if the entry was not cut short and the process lives or can be started again |
| `SealedApplication.NeverDeniedIff` | internal/sealedconfig/ledger.go:59-66 | once on disk, no continuation records anything but APPLIED if and only if the delivery recorded it whole itself or died unrecorded for good |
| `SealedApplication.RunKeepsSound` | internal/sealedconfig/apply.go:24-29 | over every run the running configuration validates and keeps ids, modes, policies and secret references, so the policy digest taken at start-up stays right |
| `RestartRefinement.ReconfiguredIs` | internal/sealedconfig/apply.go:36-44 | after any connections everything but the executor role is the last one's |
| `RestartRefinement.RunEffect` | internal/agent/configuration.go:115-128 | between two starts memory folds the installed connections and the overlay keeps the last |
| `RestartRefinement.RestartAgreesIff` | internal/config/config.go:157-172 | starting again gives the running configuration if and only if each source's executor role survives |
| `RestartRefinement.RestartSucceedsIff` | internal/config/config.go:268-338 | starting again succeeds if and only if each source that loses its role is pending or can use the file's role beside the new reader |
| `RestartRefinement.RestartCanBeRefused` | internal/config/managed.go:98-105 | two accepted envelopes after which the connector does not start |
| `RestartRefinement.RestartCanChangeRole` | internal/config/managed.go:98-105 | two accepted envelopes for a source enabled for deletes after which it starts with the file's executor role instead of the one in memory |
| `RestartRefinement.ExpiredRedeliveryHides` | internal/agent/configuration.go:62-70 | an envelope installed but not recorded and redelivered after expiry stays installed and is only ever reported as refused |
| `RestartRefinement.BlankEntryHides` | internal/sealedconfig/ledger.go:77-80 | an installed envelope whose entry is created and not written is only ever reported blank |
| `RestartRefinement.RunKeepsReflected` | internal/agent/configuration.go:115-128 | over every run of deliveries, faults and starts a running process serves each connection on disk |
| `RestartRefinement.OverlayKeepsLast` | internal/config/managed.go:117-155 | over every run the disk holds the last connection persisted for a source |
| `RestartRefinement.ReapplyingIsHarmlessIff` | internal/sealedconfig/ledger.go:59-66 | after any run, redelivering a persisted but unrecorded envelope leaves the disk alone if and only if the last connection persisted for its source is its own, and memory if and only if that one differs at most in the role and the role asked for is in force |
| `RestartRefinement.LateRedeliveryOverwrites` | internal/sealedconfig/ledger.go:59-66 | a run in which a redelivered older envelope replaces a newer applied one |
| `Framing.AdditionalData` | internal/sealedconfig/sealedconfig.go:94-115 | the loop emits the framed fields |
| `Framing.UnframeInverts` | internal/sealedconfig/sealedconfig.go:109-114 | a decoder inverts the framing while every field is shorter than 65536 bytes |
| `Framing.AdditionalDataReads` | internal/sealedconfig/sealedconfig.go:95-104 | the decoder finds domain, version and the six bound fields in the documented order |
| `Framing.AdditionalDataInjective` | internal/sealedconfig/sealedconfig.go:87-115 | equal associated data means equal version and equal bound fields |
| `Framing.ShortDataIdentifiesEnvelope` | internal/sealedconfig/sealedconfig.go:87-115 | associated data of fewer than 65536 bytes in all belongs to one envelope among envelopes of any size |
| `Framing.LongFieldsCollide` | internal/sealedconfig/sealedconfig.go:111-111 | one recipient can be sent two different envelopes, same organization, connector and times, with equal associated data |
| `Framing.IdentifiesIffShort` | internal/sealedconfig/sealedconfig.go:108-114 | for every recipient, associated data identifies envelopes with fields of at most n bytes if and only if n is below 65536 |
| `Decimal.ParseFormat` | protocol/v1/canonical.go:206-217 | reading a formatted integer gives it back over all of int64 |
| `Decimal.ParseInt64Iff` | protocol/v1/canonical.go:211-214 | a text is read as an integer if and only if it spells it and it is in range |
| `Decimal.FormatIntIsShortest` | protocol/v1/canonical.go:215-215 | the written form is a shortest spelling |
| `MemberOrder.LessUtf16` | protocol/v1/canonical.go:255-264 | the loop decides the code-unit order |
| `MemberOrder.EncodeInjective` | protocol/v1/canonical.go:256-257 | different text has different UTF-16 code units |
| `MemberOrder.StrictTotalOrder` | protocol/v1/canonical.go:255-264 | the order is irreflexive, transitive and decides between any two different names |
| `MemberOrder.AgreesBelowSurrogates` | protocol/v1/canonical.go:251-254 | on names below the surrogate range, ASCII included, it is code point order |
| `Signing.ByteOrderIsCodePointOrder` | protocol/v1/canonical.go:251-254 | code point order is the order of UTF-8 bytes, for all text |
| `Signing.MemberOrderIsByteOrder` | protocol/v1/canonical.go:251-254 | so on those names the member order is byte order |
| `MemberOrder.OrdersDiffer` | protocol/v1/canonical.go:251-254 | above that range the two orders part |
| `MemberOrder.SortedIsUnique` | protocol/v1/canonical.go:183-187 | one set of names has one sorted sequence |
| `MemberOrder.SortKeys` | protocol/v1/canonical.go:183-187 | keys collected in any order sort to the same sequence |
| `CanonicalJson.NormalizeIff` | protocol/v1/canonical.go:161-217 | a tree stands for a document if and only if they have the same shape throughout and each number is its integer |
| `CanonicalJson.EscapeReads` | protocol/v1/canonical.go:222-249 | every escaped character is read back as itself and never looks like a closing quote |
| `CanonicalJson.EscapeIsShortest` | protocol/v1/canonical.go:222-249 | the escape is the one shortest text read as the character, so the short forms are used where they exist |
| `CanonicalJson.NamesAppearSorted` | protocol/v1/canonical.go:182-199 | reading an object's text meets every member name once, in code-unit order |
| `CanonicalJson.RenderReads` | protocol/v1/canonical.go:161-204 | the parser gives back every document from its text and leaves what follows |
| `CanonicalJson.CanonicalIsInjective` | protocol/v1/canonical.go:70-86 | two decoded trees have equal canonical text if and only if they denote the same document |
| `CanonicalJson.CanonicalizingTwice` | protocol/v1/canonical.go:70-86 | canonicalizing what a canonical text decodes to changes nothing |
| `CanonicalWriter.Buffer.WriteString` | protocol/v1/canonical.go:222-249 | the loop appends exactly the quoted, escaped text |
| `CanonicalWriter.Buffer.WriteNumber` | protocol/v1/canonical.go:206-217 | floats and out-of-range integers are refused, others rewritten canonically |
| `CanonicalWriter.Buffer.Write` | protocol/v1/canonical.go:161-204 | the recursive writer fails exactly when some number is refused and otherwise appends the document's one text |
| `CanonicalWriter.Buffer.WriteMembers` | protocol/v1/canonical.go:188-199 | members are written in the given order with their separators |
| `CanonicalWriter.CollectKeys` | protocol/v1/canonical.go:183-186 | ranging over the map yields every key once, in no particular order |
| `CanonicalWriter.Canonicalize` | protocol/v1/canonical.go:70-86 | whatever order maps were ranged in, the result is the one canonical text |
| `Signing.Utf8Injective` | protocol/v1/canonical.go:245-245 | different text has different bytes |
| `Signing.PayloadInjective` | protocol/v1/canonical.go:154-159 | a payload determines its one-line domain and its body |
| `Signing.DomainsSeparate` | protocol/v1/canonical.go:29-38 | payloads of the four domains are equal only for the same domain and body |
| `Signing.CanonicalizeWithout` | protocol/v1/canonical.go:117-135 | deleting the named members one by one and writing the rest gives the canonical text without them, or an error when a remaining number is refused |
| `Signing.SigningInput` | internal/jobs/verifier.go:101-109 | the bytes a signature is checked against |
| `Signing.SignedBytesDetermineDocument` | protocol/v1/canonical.go:117-135 | an object can be signed exactly when every member but the signature has a canonical form; two have the same signed bytes if and only if domain and every member but the signature agree |

## Left out

- The full statement templates around the WHERE clause, and the size, discovery, reference, version and timeout statements: fixed text with no logic of its own.
- EstimatedBytes, oldest and newest timestamps, durations and the statistics of FAILED results: reporting only.
- Cryptography, TLS, HTTP, polling, backoff, telemetry and logging: library calls and plumbing; their outcomes are parameters.
- JSON and YAML decoding and regular expressions: the model starts from decoded values, so unknown-member refusal is not covered.
- Checkpoint.SequenceIdentifiesEvent: events carry no occurred_at, which is set anew when a PAUSED is sent again.
- DeleteJob.Count: does not return EstimatedBytes or the boundary timestamps, which are reporting only.
- Handling.Handle: answers only deletes; acknowledgements, results and the other operations leave the table alone.
- Config.ApplyDefaults: covers the loop over sources; the control-plane and telemetry defaults are part of the header flag.
- Config.ApplyManagedOverlay: an overlay entry is never null; the connector writes none, and a hand-written one is skipped by the source.
- Signing.CanonicalizeWithout: starts from a decoded object; decoding the received bytes and refusing trailing content are the JSON decoder's.
- TEST_CONNECTION and DISCOVER: no destructive effect and little local logic; the handler model answers only deletes and reports other operations as such.
- Real time inside the batch loop: the duration ceiling and a cancelled context are arbitrary choices between batches, so nothing is stated about how long a run takes.
- Two connector processes on one state directory, and the heartbeat goroutine reading the source map: steps are taken one at a time.
- Overlay and state files damaged from outside: an unreadable overlay during a delivery is covered, one at start-up is not.
- Initializer, installer, execution enablement, scope, local secrets, doctor, enrollment, packaging and the command line: they would only add easy members.
