/**
  The destructive run's observable protocol (internal/agent/agent.go): what a trace of control
  answers, batch attempts and events may look like, the checkpoint gate that consults the control
  plane between batches, and what every safe trace guarantees.
  */
module Checkpoint {
  import opened Outcomes
  import opened Sequences

  datatype ControlAction = Run | Pause | Cancel

  /** One reply to a control request; anything missing, invalid or unverifiable is unavailable. */
  datatype Answer = Unavailable | Control(version: int, action: ControlAction)

  datatype EventKind = JobAccepted | BatchCommitted | Paused | Resumed | Aborted

  datatype Event = Event(sequence: nat, kind: EventKind, affected: nat, cumulative: nat)

  /**
    What a run does, in order. A failed attempt may still have removed rows, when the commit went
    through and its confirmation did not.
    */
  datatype Action =
    | Answered(answer: Answer)
    | Emitted(event: Event)
    | Attempted(size: nat)
    | Committed(affected: nat)
    | Failed(applied: nat)

  type Trace = seq<Action>

  function Last(t: Trace): Action
    requires t != []
  {
    t[|t| - 1]
  }

  function Before(t: Trace): Trace
    requires t != []
  {
    t[..|t| - 1]
  }

  // ---- Quantities of a trace ----

  /** The highest version any control answer has carried; it starts at zero. */
  function Highest(t: Trace): int {
    if t == [] then 0
    else
      var h := Highest(Before(t));
      if Last(t).Answered? && Last(t).answer.Control? && Last(t).answer.version > h then Last(t).answer.version else h
  }

  function RowsCommitted(t: Trace): nat {
    if t == [] then 0 else RowsCommitted(Before(t)) + if Last(t).Committed? then Last(t).affected else 0
  }

  /** Rows this run may have removed: confirmed ones and those of a failed attempt. */
  function RowsGone(t: Trace): nat {
    if t == [] then 0
    else
      RowsGone(Before(t))
      + if Last(t).Committed? then Last(t).affected else if Last(t).Failed? then Last(t).applied else 0
  }

  function RowsReported(t: Trace): nat {
    if t == [] then 0 else RowsReported(Before(t)) + if Last(t).Emitted? then Last(t).event.affected else 0
  }

  /** Committed batches that removed something. */
  function Batches(t: Trace): nat {
    if t == [] then 0 else Batches(Before(t)) + if Last(t).Committed? && Last(t).affected > 0 then 1 else 0
  }

  /** What the run last did to the table, the outcome of an attempt once it is known. */
  function LatestTry(t: Trace): Option<Action> {
    if t == [] then None
    else if Last(t).Answered? || Last(t).Emitted? then LatestTry(Before(t))
    else Some(Last(t))
  }

  function LatestEvent(t: Trace): Option<Event> {
    if t == [] then None else if Last(t).Emitted? then Some(Last(t).event) else LatestEvent(Before(t))
  }

  /** The trace ends with an answer at least as recent as everything before it. */
  predicate Accepts(t: Trace, action: ControlAction) {
    t != [] && Last(t).Answered? && Last(t).answer.Control? && Last(t).answer.action == action
    && Last(t).answer.version >= Highest(Before(t))
  }

  predicate GrantsRun(t: Trace) {
    Accepts(t, Run)
  }

  predicate OrdersCancel(t: Trace) {
    Accepts(t, Cancel)
  }

  predicate AcceptsPause(t: Trace) {
    Accepts(t, Pause)
  }

  /** A PAUSE has been accepted, and no RUN since. */
  predicate Waiting(t: Trace) {
    t != [] && (AcceptsPause(t) || (!GrantsRun(t) && Waiting(Before(t))))
  }

  /** A RUN has just been granted, and nothing but events has happened since. */
  predicate Open(t: Trace) {
    t != [] && (GrantsRun(t) || (Last(t).Emitted? && Open(Before(t))))
  }

  predicate Halted(t: Trace) {
    t != [] && (OrdersCancel(t) || Halted(Before(t)))
  }

  // ---- Safe traces ----

  /**
    An event continues the log with a new number, or repeats the standing PAUSED. PAUSED answers an
    accepted PAUSE, and RESUMED the RUN that ends the wait.
    */
  predicate EventFollows(t: Trace, e: Event) {
    && e.cumulative == RowsCommitted(t) == RowsReported(t) + e.affected
    && (e.kind.Paused? <==> AcceptsPause(t))
    && (e.kind.Resumed? ==> GrantsRun(t) && Waiting(Before(t)))
    && (if LatestEvent(t).None? then e.sequence == 0 && e.kind.JobAccepted?
        else if e.kind.Paused? && Waiting(Before(t)) then e == LatestEvent(t).value
        else e.sequence == LatestEvent(t).value.sequence + 1)
  }

  /** Every step of the trace is one the protocol allows, under a ceiling on rows. */
  predicate Safe(t: Trace, maxRows: nat) {
    t != [] ==>
    var before := Before(t);
    && Safe(before, maxRows)
    && match Last(t)
       case Answered(_) => !AcceptsPause(before)
       case Emitted(e) => EventFollows(before, e)
       case Attempted(size) => Open(before) && !Halted(before) && RowsGone(before) + size <= maxRows
       case Committed(n) => before != [] && Last(before).Attempted? && n <= Last(before).size
       case Failed(n) => before != [] && Last(before).Attempted? && n <= Last(before).size
  }

  // ---- What safety means over a whole trace ----

  lemma {:induction false} SafePrefix(t: Trace, maxRows: nat, k: nat)
    requires Safe(t, maxRows) && k <= |t|
    ensures Safe(t[..k], maxRows)
    decreases |t|
  {
    if k == |t| {
      assert t[..k] == t;
    } else {
      SafePrefix(Before(t), maxRows, k);
      assert Before(t)[..k] == t[..k];
    }
  }

  lemma {:induction false} HighestBounds(t: Trace, k: nat)
    requires k < |t| && t[k].Answered? && t[k].answer.Control?
    ensures t[k].answer.version <= Highest(t)
    decreases |t|
  {
    if k < |t| - 1 {
      HighestBounds(Before(t), k);
    }
  }

  lemma {:induction false} OpenMeans(t: Trace) returns (j: nat)
    requires Open(t)
    ensures j < |t| && GrantsRun(t[..j + 1])
    ensures forall k :: j < k < |t| ==> t[k].Emitted?
    decreases |t|
  {
    if GrantsRun(t) {
      j := |t| - 1;
      assert t[..j + 1] == t;
    } else {
      j := OpenMeans(Before(t));
      assert Before(t)[..j + 1] == t[..j + 1];
    }
  }

  /** An attempt directly follows a RUN no older than any answer before it. */
  ghost predicate Licensed(t: Trace, i: nat)
    requires i < |t|
  {
    exists j ::
      && 0 <= j < i
      && t[j].Answered? && t[j].answer.Control? && t[j].answer.action.Run?
      && (forall k :: j < k < i ==> t[k].Emitted?)
      && (forall k :: 0 <= k < j && t[k].Answered? && t[k].answer.Control? ==>
            t[k].answer.version <= t[j].answer.version)
  }

  /**
    Each DELETE attempt directly follows its own RUN - no attempt, commit, PAUSE or CANCEL lies in
    between - and that RUN's version is at least every version answered before it.
    */
  lemma EveryAttemptIsLicensed(t: Trace, maxRows: nat, i: nat)
    requires Safe(t, maxRows) && i < |t| && t[i].Attempted?
    ensures Licensed(t, i)
  {
    SafePrefix(t, maxRows, i + 1);
    assert Before(t[..i + 1]) == t[..i];
    var j := OpenMeans(t[..i]);
    assert t[..i][..j + 1] == t[..j + 1];
    RunIsLatest(t, j);
    assert forall k :: j < k < i ==> t[..i][k] == t[k];
  }

  lemma RunIsLatest(t: Trace, j: nat)
    requires j < |t| && GrantsRun(t[..j + 1])
    ensures t[j].Answered? && t[j].answer.Control? && t[j].answer.action.Run?
    ensures forall k :: 0 <= k < j && t[k].Answered? && t[k].answer.Control? ==>
              t[k].answer.version <= t[j].answer.version
  {
    assert Before(t[..j + 1]) == t[..j];
    forall k | 0 <= k < j && t[k].Answered? && t[k].answer.Control?
      ensures t[k].answer.version <= t[j].answer.version
    {
      HighestBounds(t[..j], k);
    }
  }

  lemma {:induction false} HaltedMeans(t: Trace, k: nat)
    requires k < |t| && OrdersCancel(t[..k + 1])
    ensures Halted(t)
    decreases |t|
  {
    if k + 1 == |t| {
      assert t[..k + 1] == t;
    } else {
      assert Before(t)[..k + 1] == t[..k + 1];
      HaltedMeans(Before(t), k);
    }
  }

  /** Once a CANCEL has been accepted nothing is attempted and nothing commits. */
  lemma NothingAfterCancel(t: Trace, maxRows: nat, k: nat, i: nat)
    requires Safe(t, maxRows) && k < i < |t| && OrdersCancel(t[..k + 1])
    ensures !t[i].Attempted? && !t[i].Committed? && !t[i].Failed?
  {
    SafePrefix(t, maxRows, i + 1);
    var p := t[..i + 1];
    assert Before(p) == t[..i] && t[..i][..k + 1] == t[..k + 1];
    HaltedMeans(t[..i], k);
  }

  /** The rows a run can have removed stay under the ceiling, an unconfirmed batch included. */
  lemma {:induction false} GoneWithinCeiling(t: Trace, maxRows: nat)
    requires Safe(t, maxRows)
    ensures RowsCommitted(t) <= RowsGone(t) <= maxRows
    ensures t != [] && Last(t).Attempted? ==> RowsGone(t) + Last(t).size <= maxRows
    decreases |t|
  {
    if t != [] {
      GoneWithinCeiling(Before(t), maxRows);
    }
  }

  // ---- The event log ----

  lemma {:induction false} LatestIsHighest(t: Trace, maxRows: nat, i: nat)
    requires Safe(t, maxRows) && i < |t| && t[i].Emitted?
    ensures LatestEvent(t).Some? && t[i].event.sequence <= LatestEvent(t).value.sequence
    ensures t[i].event.sequence == LatestEvent(t).value.sequence ==>
              t[i].event == LatestEvent(t).value
              && (forall k :: i < k < |t| && t[k].Emitted? ==> t[k].event == t[i].event && t[k].event.kind.Paused?)
    decreases |t|
  {
    if i < |t| - 1 {
      LatestIsHighest(Before(t), maxRows, i);
    }
  }

  /**
    Sequence numbers never decrease, and two events share one only when they are the same PAUSED
    sent again: the number identifies the event.
    */
  lemma SequenceIdentifiesEvent(t: Trace, maxRows: nat, i: nat, k: nat)
    requires Safe(t, maxRows) && i < k < |t| && t[i].Emitted? && t[k].Emitted?
    ensures t[i].event.sequence <= t[k].event.sequence
    ensures t[i].event.sequence == t[k].event.sequence ==> t[i].event == t[k].event && t[i].event.kind.Paused?
  {
    SafePrefix(t, maxRows, k + 1);
    var p := t[..k + 1];
    LatestIsHighest(p, maxRows, i);
    assert Last(p) == t[k] && LatestEvent(p) == Some(t[k].event);
  }

  /** At every event, cumulative_rows is the sum of affected_rows so far and the rows committed so far. */
  lemma EventsConserveRows(t: Trace, maxRows: nat, i: nat)
    requires Safe(t, maxRows) && i < |t| && t[i].Emitted?
    ensures t[i].event.cumulative == RowsReported(t[..i + 1]) == RowsCommitted(t[..i + 1])
  {
    SafePrefix(t, maxRows, i + 1);
    assert Before(t[..i + 1]) == t[..i];
  }

  // ---- The gate ----

  datatype Verdict = Proceed | Cancelled | Interrupted

  datatype Gate = Gate(verdict: Verdict, rest: seq<Answer>, sequence: nat, highest: int, log: Trace)

  function Logged(log: Trace, g: Gate): Gate {
    g.(log := log + g.log)
  }

  /** What one answer does to the gate: a verdict, or another round. */
  datatype Reply = Reply(verdict: Option<Verdict>, sequence: nat, highest: int, paused: bool, log: Trace)

  function Respond(a: Answer, sequence: nat, highest: int, cumulative: nat, paused: bool): Reply {
    if a.Unavailable? || a.version < highest then Reply(None, sequence, highest, paused, [Answered(a)])
    else
      match a.action
      case Run =>
        if paused then
          Reply(Some(Proceed), sequence + 1, a.version, true,
                [Answered(a), Emitted(Event(sequence + 1, Resumed, 0, cumulative))])
        else Reply(Some(Proceed), sequence, a.version, false, [Answered(a)])
      case Cancel => Reply(Some(Cancelled), sequence, a.version, paused, [Answered(a)])
      case Pause =>
        var n := if paused then sequence else sequence + 1;
        Reply(None, n, a.version, true, [Answered(a), Emitted(Event(n, Paused, 0, cumulative))])
  }

  /**
    awaitControl as a function of the answers to come. Running out of answers is the context being
    cancelled while the gate waits to retry.
    */
  function Await(answers: seq<Answer>, sequence: nat, highest: int, cumulative: nat, paused: bool): Gate
    decreases |answers|
  {
    if answers == [] then Gate(Interrupted, [], sequence, highest, [])
    else
      var r := Respond(answers[0], sequence, highest, cumulative, paused);
      match r.verdict
      case Some(v) => Gate(v, answers[1..], r.sequence, r.highest, r.log)
      case None => Logged(r.log, Await(answers[1..], r.sequence, r.highest, cumulative, r.paused))
  }

  /** The run is between batches: everything committed has been reported, and nothing was cancelled. */
  predicate AtCheckpoint(t: Trace, maxRows: nat, sequence: nat, highest: int, cumulative: nat) {
    && Safe(t, maxRows) && !Halted(t) && !AcceptsPause(t)
    && Highest(t) == highest
    && RowsCommitted(t) == RowsReported(t) == RowsGone(t) == cumulative
    && LatestEvent(t).Some? && LatestEvent(t).value.sequence == sequence
  }

  /** Whether the gate has announced that it is waiting, and with which event. */
  predicate PausedAs(t: Trace, sequence: nat, cumulative: nat, paused: bool) {
    && (paused <==> Waiting(t))
    && (paused ==> LatestEvent(t) == Some(Event(sequence, Paused, 0, cumulative)))
  }

  lemma Appended(t: Trace, x: Action)
    ensures Last(t + [x]) == x && Before(t + [x]) == t
  {
  }

  /** Hearing an answer at a checkpoint. */
  lemma Hear(t: Trace, maxRows: nat, sequence: nat, highest: int, cumulative: nat, a: Answer)
    requires AtCheckpoint(t, maxRows, sequence, highest, cumulative)
    ensures var heard := t + [Answered(a)];
            var accepted := a.Control? && a.version >= highest;
            && Last(heard) == Answered(a) && Before(heard) == t
            && Safe(heard, maxRows) && LatestEvent(heard) == LatestEvent(t)
            && RowsCommitted(heard) == RowsReported(heard) == RowsGone(heard) == cumulative
            && (!accepted ==>
                  AtCheckpoint(heard, maxRows, sequence, highest, cumulative) && (Waiting(heard) <==> Waiting(t)))
            && (accepted && a.action.Cancel? ==> OrdersCancel(heard))
            && (accepted && !a.action.Cancel? ==> !Halted(heard) && Highest(heard) == a.version)
            && (accepted && a.action.Pause? ==> AcceptsPause(heard))
            && (accepted && a.action.Run? ==>
                  AtCheckpoint(heard, maxRows, sequence, a.version, cumulative) && GrantsRun(heard))
  {
    Appended(t, Answered(a));
  }

  /** Emitting a checkpoint event right after the answer it reports. */
  lemma Say(t: Trace, heard: Trace, maxRows: nat, highest: int, cumulative: nat, e: Event)
    requires heard != [] && Before(heard) == t && Safe(heard, maxRows) && !Halted(heard) && Highest(heard) == highest
    requires RowsCommitted(heard) == RowsReported(heard) == RowsGone(heard) == cumulative
    requires LatestEvent(heard).Some? && e.affected == 0 && e.cumulative == cumulative
    requires (e.kind.Paused? && AcceptsPause(heard)) || (e.kind.Resumed? && GrantsRun(heard) && Waiting(t))
    requires if e.kind.Paused? && Waiting(t) then e == LatestEvent(heard).value
             else e.sequence == LatestEvent(heard).value.sequence + 1
    ensures var said := heard + [Emitted(e)];
            && AtCheckpoint(said, maxRows, e.sequence, highest, cumulative)
            && LatestEvent(said) == Some(e)
            && (Waiting(said) <==> e.kind.Paused?) && (Open(said) <==> e.kind.Resumed?)
  {
    Appended(heard, Emitted(e));
  }

  /** What a visit to the gate leaves behind, on top of the trace it started from. */
  predicate LeavesSafe(t: Trace, maxRows: nat, cumulative: nat, g: Gate) {
    var after := t + g.log;
    && Safe(after, maxRows) && !AcceptsPause(after)
    && RowsCommitted(after) == RowsReported(after) == RowsGone(after) == cumulative
    && LatestEvent(after).Some? && LatestEvent(after).value.sequence == g.sequence
    && (g.verdict.Cancelled? ==> OrdersCancel(after))
    && (!g.verdict.Cancelled? ==> AtCheckpoint(after, maxRows, g.sequence, g.highest, cumulative))
    && (g.verdict.Proceed? ==> Open(after))
  }

  lemma LeavesSafeBefore(t: Trace, log: Trace, maxRows: nat, cumulative: nat, g: Gate)
    requires LeavesSafe(t + log, maxRows, cumulative, g)
    ensures LeavesSafe(t, maxRows, cumulative, Logged(log, g))
  {
    Regroup(t, log, g.log);
  }

  /** What one answer leaves behind: a checkpoint for the next round, or an earned verdict. */
  predicate ReplyIsSafe(t: Trace, maxRows: nat, cumulative: nat, r: Reply) {
    match r.verdict
    case Some(v) => LeavesSafe(t, maxRows, cumulative, Gate(v, [], r.sequence, r.highest, r.log))
    case None =>
      && AtCheckpoint(t + r.log, maxRows, r.sequence, r.highest, cumulative)
      && PausedAs(t + r.log, r.sequence, cumulative, r.paused)
  }

  lemma RespondKeepsSafe(t: Trace, maxRows: nat, a: Answer, sequence: nat, highest: int, cumulative: nat, paused: bool)
    requires AtCheckpoint(t, maxRows, sequence, highest, cumulative) && PausedAs(t, sequence, cumulative, paused)
    ensures ReplyIsSafe(t, maxRows, cumulative, Respond(a, sequence, highest, cumulative, paused))
  {
    var heard := t + [Answered(a)];
    Hear(t, maxRows, sequence, highest, cumulative, a);
    var r := Respond(a, sequence, highest, cumulative, paused);
    if |r.log| == 2 {
      var e := r.log[1].event;
      Say(t, heard, maxRows, a.version, cumulative, e);
      assert r.log == [Answered(a)] + [Emitted(e)];
      Regroup(t, [Answered(a)], [Emitted(e)]);
    }
  }

  /**
    The gate keeps every trace safe whatever the control plane answers; it proceeds only with the
    trace open and no CANCEL seen, and reports a cancellation only after accepting one.
    */
  lemma {:induction false} GateKeepsSafe(t: Trace, maxRows: nat, answers: seq<Answer>, sequence: nat, highest: int,
                                         cumulative: nat, paused: bool)
    requires AtCheckpoint(t, maxRows, sequence, highest, cumulative) && PausedAs(t, sequence, cumulative, paused)
    ensures LeavesSafe(t, maxRows, cumulative, Await(answers, sequence, highest, cumulative, paused))
    decreases |answers|
  {
    if answers == [] {
      assert t + [] == t;
    } else {
      RespondKeepsSafe(t, maxRows, answers[0], sequence, highest, cumulative, paused);
      var r := Respond(answers[0], sequence, highest, cumulative, paused);
      if r.verdict.None? {
        GateKeepsSafe(t + r.log, maxRows, answers[1..], r.sequence, r.highest, cumulative, r.paused);
        LeavesSafeBefore(t, r.log, maxRows, cumulative,
                         Await(answers[1..], r.sequence, r.highest, cumulative, r.paused));
      }
    }
  }

  /** Nothing is attempted, committed or failed. */
  predicate OnlyTalk(log: Trace) {
    forall i :: 0 <= i < |log| ==> log[i].Answered? || log[i].Emitted?
  }

  lemma {:induction false} TalkKeepsBatches(t: Trace, log: Trace)
    requires OnlyTalk(log)
    ensures Batches(t + log) == Batches(t) && LatestTry(t + log) == LatestTry(t)
    decreases |log|
  {
    if log == [] {
      assert t + log == t;
    } else {
      assert Before(t + log) == t + Before(log) && Last(t + log) == Last(log);
      TalkKeepsBatches(t, Before(log));
    }
  }

  lemma {:induction false} GateOnlyTalks(answers: seq<Answer>, sequence: nat, highest: int, cumulative: nat,
                                         paused: bool)
    ensures OnlyTalk(Await(answers, sequence, highest, cumulative, paused).log)
    decreases |answers|
  {
    if answers != [] {
      var r := Respond(answers[0], sequence, highest, cumulative, paused);
      if r.verdict.None? {
        GateOnlyTalks(answers[1..], r.sequence, r.highest, cumulative, r.paused);
      }
    }
  }

  // ---- What the gate decides, from the answers alone ----

  /** The i-th answer is available and at least as recent as the run so far and every answer before it. */
  predicate Heeded(answers: seq<Answer>, highest: int, i: nat)
    requires i < |answers|
  {
    && answers[i].Control? && answers[i].version >= highest
    && forall k :: 0 <= k < i && answers[k].Control? ==> answers[k].version <= answers[i].version
  }

  /** It ends the wait: a RUN or a CANCEL. */
  predicate Settles(answers: seq<Answer>, highest: int, i: nat)
    requires i < |answers|
  {
    Heeded(answers, highest, i) && !answers[i].action.Pause?
  }

  /** The first answer that does. */
  predicate Decides(answers: seq<Answer>, highest: int, i: nat) {
    && i < |answers| && Settles(answers, highest, i)
    && forall k :: 0 <= k < i ==> !Settles(answers, highest, k)
  }

  predicate Undecided(answers: seq<Answer>, highest: int) {
    forall i :: 0 <= i < |answers| ==> !Settles(answers, highest, i)
  }

  /** How many of the first n answers are heeded PAUSEs. */
  function Pauses(answers: seq<Answer>, highest: int, n: nat): nat
    requires n <= |answers|
  {
    if n == 0 then 0
    else
      Pauses(answers, highest, n - 1)
      + if Heeded(answers, highest, n - 1) && answers[n - 1].action.Pause? then 1 else 0
  }

  /** How many events of one kind a trace reports. */
  function EventsOf(t: Trace, kind: EventKind): nat {
    if t == [] then 0 else EventsOf(Before(t), kind) + if Last(t).Emitted? && Last(t).event.kind == kind then 1 else 0
  }

  function AnswersIn(t: Trace): seq<Answer> {
    if t == [] then [] else AnswersIn(Before(t)) + if Last(t).Answered? then [Last(t).answer] else []
  }

  lemma {:induction false} EventsAppend(a: Trace, b: Trace, kind: EventKind)
    ensures EventsOf(a + b, kind) == EventsOf(a, kind) + EventsOf(b, kind)
    ensures AnswersIn(a + b) == AnswersIn(a) + AnswersIn(b)
    decreases |b|
  {
    if b == [] {
      assert a + b == a;
    } else {
      assert Before(a + b) == a + Before(b) && Last(a + b) == Last(b);
      EventsAppend(a, Before(b), kind);
    }
  }

  /** What one answer contributes to the log. */
  lemma ReplyReports(a: Answer, sequence: nat, highest: int, cumulative: nat, paused: bool)
    ensures var r := Respond(a, sequence, highest, cumulative, paused);
            var heeded := a.Control? && a.version >= highest;
            && AnswersIn(r.log) == [a]
            && EventsOf(r.log, Paused) == (if heeded && a.action.Pause? then 1 else 0)
            && EventsOf(r.log, Resumed) == (if heeded && a.action.Run? && paused then 1 else 0)
            && r.highest == (if heeded then a.version else highest)
            && r.paused == (paused || (heeded && a.action.Pause?))
            && r.verdict == (if heeded && a.action.Run? then Some(Proceed)
                             else if heeded && a.action.Cancel? then Some(Cancelled) else None)
  {
    var r := Respond(a, sequence, highest, cumulative, paused);
    if |r.log| == 2 {
      AnsweredThenSaid(a, r.log[1].event);
      assert r.log == [Answered(a), Emitted(r.log[1].event)];
    } else {
      OnlyAnswered(a);
      assert r.log == [Answered(a)];
    }
  }

  lemma OnlyAnswered(a: Answer)
    ensures AnswersIn([Answered(a)]) == [a]
    ensures EventsOf([Answered(a)], Paused) == 0 && EventsOf([Answered(a)], Resumed) == 0
  {
    var t: Trace := [Answered(a)];
    assert Before(t) == [] && AnswersIn([]) == [] && EventsOf([], Paused) == 0 && EventsOf([], Resumed) == 0;
  }

  lemma AnsweredThenSaid(a: Answer, e: Event)
    ensures var t := [Answered(a), Emitted(e)];
            && AnswersIn(t) == [a]
            && EventsOf(t, Paused) == (if e.kind.Paused? then 1 else 0)
            && EventsOf(t, Resumed) == (if e.kind.Resumed? then 1 else 0)
  {
    OnlyAnswered(a);
    var t := [Answered(a), Emitted(e)];
    assert Before(t) == [Answered(a)] && Last(t) == Emitted(e);
  }

  lemma LogsAppend(a: Trace, b: Trace)
    ensures AnswersIn(a + b) == AnswersIn(a) + AnswersIn(b)
    ensures EventsOf(a + b, Paused) == EventsOf(a, Paused) + EventsOf(b, Paused)
    ensures EventsOf(a + b, Resumed) == EventsOf(a, Resumed) + EventsOf(b, Resumed)
  {
    EventsAppend(a, b, Paused);
    EventsAppend(a, b, Resumed);
  }

  /** Skipping the first answer: the rest is judged against what that answer left as the highest. */
  lemma HeededLater(answers: seq<Answer>, highest: int, next: int, i: nat)
    requires 0 < i < |answers|
    requires next == if answers[0].Control? && answers[0].version >= highest then answers[0].version else highest
    ensures Heeded(answers, highest, i) <==> Heeded(answers[1..], next, i - 1)
  {
    var rest := answers[1..];
    assert forall k :: 0 <= k < |rest| ==> rest[k] == answers[k + 1];
    if Heeded(rest, next, i - 1) {
      forall k | 0 <= k < i && answers[k].Control? ensures answers[k].version <= answers[i].version {
        if k > 0 {
          assert rest[k - 1].Control?;
        }
      }
    }
  }

  lemma {:induction false} PausesLater(answers: seq<Answer>, highest: int, next: int, n: nat)
    requires 0 < n <= |answers|
    requires next == if answers[0].Control? && answers[0].version >= highest then answers[0].version else highest
    ensures Pauses(answers, highest, n) == Pauses(answers, highest, 1) + Pauses(answers[1..], next, n - 1)
    decreases n
  {
    if n > 1 {
      PausesLater(answers, highest, next, n - 1);
      HeededLater(answers, highest, next, n - 1);
    }
  }

  lemma DecidesLater(answers: seq<Answer>, highest: int, next: int, i: nat)
    requires 0 < i < |answers|
    requires next == if answers[0].Control? && answers[0].version >= highest then answers[0].version else highest
    ensures Decides(answers, highest, i) <==> !Settles(answers, highest, 0) && Decides(answers[1..], next, i - 1)
  {
    var rest := answers[1..];
    forall k | 0 < k < |answers| ensures Settles(answers, highest, k) <==> Settles(rest, next, k - 1) {
      HeededLater(answers, highest, next, k);
    }
    if Decides(answers, highest, i) {
      forall k | 0 <= k < i - 1 ensures !Settles(rest, next, k) {
        assert !Settles(answers, highest, k + 1);
      }
    }
  }

  /** What a visit to the gate comes to when the i-th answer is the first RUN or CANCEL it heeds. */
  predicate DecidedAt(answers: seq<Answer>, highest: int, paused: bool, g: Gate, i: nat)
    requires i < |answers|
  {
    && answers[i].Control?
    && g.verdict == (if answers[i].action.Run? then Proceed else Cancelled)
    && g.rest == answers[i + 1..] && g.highest == answers[i].version
    && AnswersIn(g.log) == answers[..i + 1]
    && EventsOf(g.log, Paused) == Pauses(answers, highest, i)
    && EventsOf(g.log, Resumed)
       == (if answers[i].action.Run? && (paused || Pauses(answers, highest, i) > 0) then 1 else 0)
  }

  /**
    The gate proceeds exactly when the first heeded answer that is not a PAUSE is a RUN, reports a
    cancellation exactly when it is a CANCEL, and otherwise waits until the context ends. It
    consumes the answers up to that one and reports one PAUSED per heeded PAUSE.
    */
  lemma {:induction false} AwaitDecides(answers: seq<Answer>, sequence: nat, highest: int, cumulative: nat,
                                        paused: bool, i: nat)
    requires Decides(answers, highest, i)
    ensures DecidedAt(answers, highest, paused, Await(answers, sequence, highest, cumulative, paused), i)
    decreases |answers|
  {
    var r := Respond(answers[0], sequence, highest, cumulative, paused);
    ReplyReports(answers[0], sequence, highest, cumulative, paused);
    if i == 0 {
      assert answers[..1] == [answers[0]] && Pauses(answers, highest, 0) == 0;
    } else {
      assert !Settles(answers, highest, 0);
      DecidesLater(answers, highest, r.highest, i);
      AwaitDecides(answers[1..], r.sequence, r.highest, cumulative, r.paused, i - 1);
      AwaitAfter(answers, sequence, highest, cumulative, paused);
      DecidedLater(answers, highest, paused, r, Await(answers, sequence, highest, cumulative, paused),
                   Await(answers[1..], r.sequence, r.highest, cumulative, r.paused), i);
    }
  }

  /** What the first answer contributes, and the gate's log as that and the log of what follows. */
  predicate Continues(answers: seq<Answer>, highest: int, paused: bool, r: Reply, g: Gate, next: Gate)
    requires answers != []
  {
    var heeded := answers[0].Control? && answers[0].version >= highest;
    && r.highest == (if heeded then answers[0].version else highest)
    && r.paused == (paused || (heeded && answers[0].action.Pause?))
    && !Settles(answers, highest, 0)
    && g.verdict == next.verdict && g.rest == next.rest && g.highest == next.highest
    && AnswersIn(g.log) == [answers[0]] + AnswersIn(next.log)
    && EventsOf(g.log, Paused) == EventsOf(next.log, Paused) + (if heeded && answers[0].action.Pause? then 1 else 0)
    && EventsOf(g.log, Resumed) == EventsOf(next.log, Resumed)
  }

  /** A round without a verdict puts its log in front of what follows. */
  lemma AwaitAfter(answers: seq<Answer>, sequence: nat, highest: int, cumulative: nat, paused: bool)
    requires answers != [] && Respond(answers[0], sequence, highest, cumulative, paused).verdict.None?
    ensures var r := Respond(answers[0], sequence, highest, cumulative, paused);
            Continues(answers, highest, paused, r, Await(answers, sequence, highest, cumulative, paused),
                      Await(answers[1..], r.sequence, r.highest, cumulative, r.paused))
  {
    var r := Respond(answers[0], sequence, highest, cumulative, paused);
    ReplyReports(answers[0], sequence, highest, cumulative, paused);
    LogsAppend(r.log, Await(answers[1..], r.sequence, r.highest, cumulative, r.paused).log);
  }

  lemma DecidedLater(answers: seq<Answer>, highest: int, paused: bool, r: Reply, g: Gate, next: Gate, i: nat)
    requires 0 < i < |answers| && Continues(answers, highest, paused, r, g, next)
    requires DecidedAt(answers[1..], r.highest, r.paused, next, i - 1)
    ensures DecidedAt(answers, highest, paused, g, i)
  {
    var rest := answers[1..];
    PausesLater(answers, highest, r.highest, i);
    assert Pauses(answers, highest, 0) == 0;
    assert [answers[0]] + rest[..i] == answers[..i + 1] && rest[i..] == answers[i + 1..];
  }

  /** What a visit comes to when no answer settles it. */
  predicate LeftWaiting(answers: seq<Answer>, highest: int, g: Gate) {
    && g.verdict.Interrupted? && g.rest == []
    && AnswersIn(g.log) == answers && EventsOf(g.log, Paused) == Pauses(answers, highest, |answers|)
    && EventsOf(g.log, Resumed) == 0
  }

  lemma WaitingLater(answers: seq<Answer>, highest: int, paused: bool, r: Reply, g: Gate, next: Gate)
    requires answers != [] && Continues(answers, highest, paused, r, g, next)
    requires LeftWaiting(answers[1..], r.highest, next)
    ensures LeftWaiting(answers, highest, g)
  {
    PausesLater(answers, highest, r.highest, |answers|);
    assert Pauses(answers, highest, 0) == 0 && [answers[0]] + answers[1..] == answers;
  }

  lemma {:induction false} AwaitWaits(answers: seq<Answer>, sequence: nat, highest: int, cumulative: nat, paused: bool)
    requires Undecided(answers, highest)
    ensures LeftWaiting(answers, highest, Await(answers, sequence, highest, cumulative, paused))
    decreases |answers|
  {
    if answers != [] {
      var r := Respond(answers[0], sequence, highest, cumulative, paused);
      ReplyReports(answers[0], sequence, highest, cumulative, paused);
      assert !Settles(answers, highest, 0);
      UndecidedLater(answers, highest, r.highest);
      AwaitWaits(answers[1..], r.sequence, r.highest, cumulative, r.paused);
      AwaitAfter(answers, sequence, highest, cumulative, paused);
      WaitingLater(answers, highest, paused, r, Await(answers, sequence, highest, cumulative, paused),
                   Await(answers[1..], r.sequence, r.highest, cumulative, r.paused));
    }
  }

  lemma UndecidedLater(answers: seq<Answer>, highest: int, next: int)
    requires answers != [] && Undecided(answers, highest)
    requires next == if answers[0].Control? && answers[0].version >= highest then answers[0].version else highest
    ensures Undecided(answers[1..], next)
  {
    forall k | 0 <= k < |answers[1..]| ensures !Settles(answers[1..], next, k) {
      HeededLater(answers, highest, next, k + 1);
      assert !Settles(answers, highest, k + 1);
    }
  }

  /** Either some answer decides, or none does. */
  lemma {:induction false} FirstToSettle(answers: seq<Answer>, highest: int, n: nat) returns (i: nat)
    requires n < |answers| && Settles(answers, highest, n)
    ensures Decides(answers, highest, i)
    decreases n
  {
    if k :| 0 <= k < n && Settles(answers, highest, k) {
      i := FirstToSettle(answers, highest, k);
    } else {
      i := n;
    }
  }

  lemma InterruptedConsumes(answers: seq<Answer>, sequence: nat, highest: int, cumulative: nat, paused: bool)
    ensures var g := Await(answers, sequence, highest, cumulative, paused); g.verdict.Interrupted? ==> g.rest == []
  {
    VerdictIff(answers, sequence, highest, cumulative, paused);
    if Undecided(answers, highest) {
      AwaitWaits(answers, sequence, highest, cumulative, paused);
    }
  }

  lemma OneDecides(answers: seq<Answer>, highest: int, i: nat, k: nat)
    requires Decides(answers, highest, i) && Decides(answers, highest, k)
    ensures i == k
  {
  }

  /** A verdict as the answers alone determine it. */
  ghost predicate VerdictFits(answers: seq<Answer>, highest: int, verdict: Verdict) {
    && (verdict.Proceed? <==> exists i: nat :: Decides(answers, highest, i) && answers[i].action.Run?)
    && (verdict.Cancelled? <==> exists i: nat :: Decides(answers, highest, i) && answers[i].action.Cancel?)
    && (verdict.Interrupted? <==> Undecided(answers, highest))
  }

  /** The verdict is Proceed, Cancelled or Interrupted exactly as the answers say. */
  lemma VerdictIff(answers: seq<Answer>, sequence: nat, highest: int, cumulative: nat, paused: bool)
    ensures VerdictFits(answers, highest, Await(answers, sequence, highest, cumulative, paused).verdict)
  {
    if Undecided(answers, highest) {
      AwaitWaits(answers, sequence, highest, cumulative, paused);
    } else {
      var n :| 0 <= n < |answers| && Settles(answers, highest, n);
      var i := FirstToSettle(answers, highest, n);
      AwaitDecides(answers, sequence, highest, cumulative, paused, i);
      forall k: nat | Decides(answers, highest, k) ensures k == i {
        OneDecides(answers, highest, i, k);
      }
    }
  }

  // ---- Strictly increasing numbers ----

  /** The schema's wording for event numbers. */
  predicate StrictlyNumbered(t: Trace) {
    t != [] ==>
    && StrictlyNumbered(Before(t))
    && (Last(t).Emitted? && LatestEvent(Before(t)).Some? ==>
          LatestEvent(Before(t)).value.sequence < Last(t).event.sequence)
  }

  /** No checkpoint of the run accepted a second PAUSE before the RUN that ended it. */
  predicate OnePauseEach(t: Trace) {
    t != [] ==> OnePauseEach(Before(t)) && !(AcceptsPause(t) && Waiting(Before(t)))
  }

  /** A PAUSE at the very end has not been reported yet. */
  function Reported(t: Trace): Trace {
    if AcceptsPause(t) then Before(t) else t
  }

  lemma {:induction false} NumbersFollowPauses(t: Trace, maxRows: nat)
    requires Safe(t, maxRows)
    ensures StrictlyNumbered(t) <==> OnePauseEach(Reported(t))
    decreases |t|
  {
    if t != [] {
      NumbersFollowPauses(Before(t), maxRows);
    }
  }

  /**
    Over a whole run, event numbers are strictly increasing if and only if every checkpoint accepted
    at most one PAUSE.
    */
  lemma StrictlyNumberedIffOnePauseEach(t: Trace, maxRows: nat)
    requires Safe(t, maxRows) && !AcceptsPause(t)
    ensures StrictlyNumbered(t) <==> OnePauseEach(t)
  {
    NumbersFollowPauses(t, maxRows);
  }

  /** An open run is not waiting: its gate was opened by a RUN. */
  lemma {:induction false} OpenIsNotWaiting(t: Trace)
    requires Open(t)
    ensures !Waiting(t) && !AcceptsPause(t)
    decreases |t|
  {
    if !GrantsRun(t) {
      OpenIsNotWaiting(Before(t));
    }
  }

  const TWO_PAUSES: seq<Answer> := [Control(1, Pause), Control(1, Pause), Control(1, Run)]

  lemma TwoPausesLog()
    ensures var p := Emitted(Event(1, Paused, 0, 0));
            Await(TWO_PAUSES, 0, 0, 0, false)
            == Gate(Proceed, [], 2, 1, [Answered(Control(1, Pause)), p, Answered(Control(1, Pause)), p,
                                        Answered(Control(1, Run)), Emitted(Event(2, Resumed, 0, 0))])
  {
    var last, two := [Control(1, Run)], [Control(1, Pause), Control(1, Run)];
    assert last[1..] == [] && two[1..] == last && TWO_PAUSES[1..] == two;
    var g := Await(last, 1, 1, 0, true);
    assert g == Gate(Proceed, [], 2, 1, [Answered(Control(1, Run)), Emitted(Event(2, Resumed, 0, 0))]);
    assert Await(two, 1, 1, 0, true) == Logged([Answered(Control(1, Pause)), Emitted(Event(1, Paused, 0, 0))], g);
  }

  /** Two PAUSE answers at the first checkpoint already repeat a number. */
  lemma TwoPausesRepeatANumber(maxRows: nat)
    ensures var t: Trace := [Emitted(Event(0, JobAccepted, 0, 0))];
            var g := Await(TWO_PAUSES, 0, 0, 0, false);
            && g.verdict.Proceed? && Safe(t + g.log, maxRows) && !AcceptsPause(t + g.log)
            && !StrictlyNumbered(t + g.log) && !OnePauseEach(t + g.log)
  {
    var t: Trace := [Emitted(Event(0, JobAccepted, 0, 0))];
    AcceptanceIsCheckpoint(maxRows);
    GateKeepsSafe(t, maxRows, TWO_PAUSES, 0, 0, 0, false);
    var log := Await(TWO_PAUSES, 0, 0, 0, false).log;
    StrictlyNumberedIffOnePauseEach(t + log, maxRows);
    assert (t + log)[2] == (t + log)[4] == Emitted(Event(1, Paused, 0, 0)) by {
      TwoPausesLog();
    }
    RepeatSpoils(t + log, 2, 4);
    TwoPausesLog();
  }

  /** A run begins at a checkpoint, with its ACCEPTED event. */
  lemma AcceptanceIsCheckpoint(maxRows: nat)
    ensures var t: Trace := [Emitted(Event(0, JobAccepted, 0, 0))];
            AtCheckpoint(t, maxRows, 0, 0, 0) && !Waiting(t)
  {
    var t: Trace := [Emitted(Event(0, JobAccepted, 0, 0))];
    assert Before(t) == [];
  }

  lemma {:induction false} RepeatSpoils(t: Trace, i: nat, k: nat)
    requires i < k < |t| && t[i].Emitted? && t[k] == t[i]
    ensures !StrictlyNumbered(t)
    decreases |t|
  {
    if StrictlyNumbered(t) {
      if k < |t| - 1 {
        RepeatSpoils(Before(t), i, k);
      } else {
        LatestAtLeast(Before(t), i);
      }
    }
  }

  lemma {:induction false} LatestAtLeast(t: Trace, i: nat)
    requires StrictlyNumbered(t) && i < |t| && t[i].Emitted?
    ensures LatestEvent(t).Some? && t[i].event.sequence <= LatestEvent(t).value.sequence
    decreases |t|
  {
    if i < |t| - 1 {
      LatestAtLeast(Before(t), i);
    }
  }
}
