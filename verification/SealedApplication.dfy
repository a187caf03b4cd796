/**
  Applying sealed configurations (internal/agent/configuration.go, internal/sealedconfig/ledger.go,
  internal/config/managed.go) under redelivery, I/O failures and crashes at every point. The rename
  that installs the overlay is atomic. A ledger entry is created, then written, then closed, so a
  failure on the way leaves it blank, cut short, or complete though Record reports an error. What
  opening an envelope yields - its connection or the class of its failure - is part of the delivery,
  since it depends on keys and on the clock.
  */
module SealedApplication {
  import opened Outcomes
  import opened Config

  datatype OpenError = KeyUnavailable | Expired | NotYetValid | WrongRecipient | TooLarge | BadVersion | Malformed

  /** An outcome as it is recorded and acknowledged. Torn is what a write that stopped early leaves; it may be blank. */
  datatype Code = Applied | AlreadyApplied | RefusedUnreadable | RefusedExpired | RefusedInvalid | Torn(text: string)

  /** The code as bytes of a ledger entry or an acknowledgement. */
  function Text(code: Code): string {
    match code
    case Applied => "APPLIED"
    case AlreadyApplied => "ALREADY_APPLIED"
    case RefusedUnreadable => "REFUSED_UNREADABLE"
    case RefusedExpired => "REFUSED_EXPIRED"
    case RefusedInvalid => "REFUSED_INVALID"
    case Torn(text) => text
  }

  /** What is read back of an entry of which only the first bytes were written. */
  function Kept(code: Code, written: nat): Code {
    if written < |Text(code)| then Torn(Text(code)[..written]) else code
  }

  /** An entry cut short is never mistaken for another outcome. */
  lemma TornIsNoOutcome(code: Code, written: nat, other: Code)
    requires !code.Torn? && !other.Torn? && written < |Text(code)|
    ensures Text(Kept(code, written)) != Text(other)
  {
    var whole, cut := Text(code), Text(code)[..written];
    if |cut| == |Text(other)| {
      assert cut[0] == whole[0] && cut[1] == whole[1];
      assert |cut| > 8 ==> cut[8] == whole[8];
    }
  }

  datatype Delivery = Delivery(envelope: string, source: string, opening: Result<Connection, OpenError>)

  /** What can go wrong between validating a configuration and activating it. */
  datatype InstallFault = InstallFine | OverlayUnreadable | PersistFails | CrashBeforePersist | CrashBeforeActivate

  /** What can go wrong between activating it and acknowledging the outcome. */
  datatype RecordFault =
    | RecordFine
    | CrashBeforeRecord
    | EntryNotCreated
    | WriteFails(written: nat)
    | CrashInsideRecord(written: nat)
    | CloseFails
    | CrashBeforeAcknowledge

  /** The faults of one delivery, in any combination. Crashes end the process. */
  datatype Faults = Faults(ledgerUnreadable: bool, install: InstallFault, record: RecordFault)

  const NO_FAULT := Faults(false, InstallFine, RecordFine)

  datatype Acknowledgement = Acknowledgement(envelope: string, code: Code)

  type Ledger = map<string, Code>

  /** base is the operator's file; memory is what a running process serves. */
  datatype State = State(base: Config, overlay: Overlay, ledger: Ledger, running: bool, memory: Config,
                         sent: seq<Acknowledgement>)

  function OutcomeFor(e: OpenError): Code {
    match e
    case Expired => RefusedExpired
    case NotYetValid => RefusedExpired
    case WrongRecipient => RefusedUnreadable
    case TooLarge => RefusedUnreadable
    case BadVersion => RefusedUnreadable
    case KeyUnavailable => RefusedUnreadable
    case Malformed => RefusedInvalid
  }

  /** What a redelivery of a settled envelope is told. */
  function Replayed(entry: Code): Code {
    if entry.Applied? then AlreadyApplied else entry
  }

  function Crashed(s: State): State {
    s.(running := false)
  }

  function Sent(s: State, envelope: string, code: Code): State {
    s.(sent := s.sent + [Acknowledgement(envelope, code)])
  }

  // ---- One delivery ----

  /** What preparing the opened connection against the running configuration gives. */
  function Prepared(s: State, d: Delivery): Result<Source, Refused> {
    match d.opening
    case Err(_) => Err(UnknownSource)
    case Ok(c) => Prepare(s.memory, d.source, c)
  }

  /** openAndApply: validate, persist, activate. No outcome means the process died on the way. */
  function OpenAndApply(s: State, d: Delivery, prepared: Result<Source, Refused>, f: Faults): (State, Option<Code>) {
    match (d.opening, prepared)
    case (Err(e), _) => (s, Some(OutcomeFor(e)))
    case (_, Err(_)) => (s, Some(RefusedInvalid))
    case (Ok(c), Ok(candidate)) =>
      if f.install.CrashBeforePersist? then (Crashed(s), None)
      else if f.install.OverlayUnreadable? || f.install.PersistFails? then (s, Some(RefusedInvalid))
      else
        var persisted := s.(overlay := s.overlay[d.source := c]);
        if f.install.CrashBeforeActivate? then (Crashed(persisted), None)
        else
          (persisted.(memory := s.memory.(sources := s.memory.sources[d.source := candidate])), Some(Applied))
  }

  /** Ledger.Record: an entry is created once and then written; an existing one is left alone. */
  function Recorded(s: State, envelope: string, code: Code, f: Faults): State {
    if f.record.CrashBeforeRecord? then Crashed(s)
    else if f.record.EntryNotCreated? || envelope in s.ledger then s
    else
      var written := s.(ledger := s.ledger[envelope := Entry(code, f.record)]);
      if f.record.CrashInsideRecord? then Crashed(written) else written
  }

  /** What a fresh entry holds afterwards. */
  function Entry(code: Code, fault: RecordFault): Code {
    match fault
    case WriteFails(written) => Kept(code, written)
    case CrashInsideRecord(written) => Kept(code, written)
    case _ => code
  }

  predicate RecordSucceeds(s: State, envelope: string, f: Faults) {
    && !f.record.CrashBeforeRecord? && !f.record.EntryNotCreated?
    && (envelope in s.ledger || f.record.RecordFine? || f.record.CrashBeforeAcknowledge?)
  }

  /** Record and acknowledge, in that order. */
  function Settle(s: State, envelope: string, code: Code, f: Faults): State {
    var after := Recorded(s, envelope, code, f);
    if !RecordSucceeds(s, envelope, f) then after
    else if f.record.CrashBeforeAcknowledge? then Crashed(after)
    else Sent(after, envelope, code)
  }

  /** applyOneConfiguration, given what Prepare would answer. */
  function DeliverWith(s: State, d: Delivery, prepared: Result<Source, Refused>, f: Faults): State {
    if !s.running || f.ledgerUnreadable then s
    else if d.envelope in s.ledger then
      if f.record.CrashBeforeAcknowledge? then Crashed(s) else Sent(s, d.envelope, Replayed(s.ledger[d.envelope]))
    else
      var (after, outcome) := OpenAndApply(s, d, prepared, f);
      match outcome
      case None => after
      case Some(code) => Settle(after, d.envelope, code, f)
  }

  function Deliver(s: State, d: Delivery, f: Faults): State {
    DeliverWith(s, d, Prepared(s, d), f)
  }

  /** The delivery puts its connection on disk. */
  predicate PersistsWith(s: State, d: Delivery, prepared: Result<Source, Refused>, f: Faults) {
    && s.running && !f.ledgerUnreadable && d.envelope !in s.ledger
    && d.opening.Ok? && prepared.Ok?
    && (f.install.InstallFine? || f.install.CrashBeforeActivate?)
  }

  predicate Persists(s: State, d: Delivery, f: Faults) {
    PersistsWith(s, d, Prepared(s, d), f)
  }

  /** The delivery puts its connection on disk and in memory. */
  predicate Installs(s: State, d: Delivery, f: Faults) {
    Persists(s, d, f) && f.install.InstallFine?
  }

  /** Starting the process: load, or refuse to start. */
  function RestartWith(s: State, loaded: Option<Config>): State {
    match loaded
    case Some(config) => s.(running := true, memory := config)
    case None => s.(running := false)
  }

  function Restart(s: State): State {
    RestartWith(s, Load(s.base, s.overlay))
  }

  datatype Event = Receive(d: Delivery, f: Faults) | Start

  function Step(s: State, e: Event): State {
    match e
    case Receive(d, f) => Deliver(s, d, f)
    case Start => Restart(s)
  }

  function Run(s: State, events: seq<Event>): State
    decreases |events|
  {
    if events == [] then s else Run(Step(s, events[0]), events[1..])
  }

  // ---- The connector as the code runs it ----

  class Connector {
    const base: Config
    var overlay: Overlay
    /** The complete temporary file of an unfinished persist, if one is left over. */
    var temporary: Option<Overlay>
    var ledger: Ledger
    var running: bool
    var memory: Config
    var sent: seq<Acknowledgement>

    constructor (base: Config, overlay: Overlay, ledger: Ledger)
      ensures this.base == base && this.overlay == overlay && this.ledger == ledger
      ensures !running && sent == []
    {
      this.base, this.overlay, this.ledger := base, overlay, ledger;
      temporary, running, memory, sent := None, false, base, [];
    }

    ghost function View(): State
      reads this
    {
      State(base, overlay, ledger, running, memory, sent)
    }

    method Acknowledge(envelope: string, code: Code)
      modifies this`sent
      ensures View() == Sent(old(View()), envelope, code)
    {
      sent := sent + [Acknowledgement(envelope, code)];
    }

    method Record(envelope: string, code: Code, f: Faults) returns (ok: bool)
      requires running
      modifies this`ledger, this`running
      ensures View() == Recorded(old(View()), envelope, code, f)
      ensures ok == RecordSucceeds(old(View()), envelope, f)
    {
      if f.record.CrashBeforeRecord? {
        running := false;
        return false;
      }
      if f.record.EntryNotCreated? {
        return false;
      }
      if envelope in ledger {
        return true;
      }
      ledger := ledger[envelope := Torn("")];
      var entry := Entry(code, f.record);
      assert ledger[envelope := entry] == old(ledger)[envelope := entry];
      ledger := ledger[envelope := entry];
      if f.record.CrashInsideRecord? {
        running := false;
      }
      return f.record.RecordFine? || f.record.CrashBeforeAcknowledge?;
    }

    /** PersistManagedOverlay: a temporary file, then one rename. */
    method Persist(next: Overlay, f: Faults) returns (ok: bool)
      modifies this`overlay, this`temporary
      ensures ok <==> !f.install.PersistFails?
      ensures overlay == if ok then next else old(overlay)
    {
      temporary := Some(next);
      if f.install.PersistFails? {
        temporary := None;
        return false;
      }
      overlay := temporary.value;
      temporary := None;
      return true;
    }

    method ApplyOpened(d: Delivery, f: Faults) returns (outcome: Option<Code>)
      requires running
      modifies this
      ensures (View(), outcome) == OpenAndApply(old(View()), d, Prepared(old(View()), d), f)
    {
      if d.opening.Err? {
        return Some(OutcomeFor(d.opening.error));
      }
      var c := d.opening.value;
      var candidate := PrepareCandidate(memory, d.source, c);
      if candidate.Err? {
        return Some(RefusedInvalid);
      }
      if f.install.CrashBeforePersist? {
        running := false;
        return None;
      }
      if f.install.OverlayUnreadable? {
        return Some(RefusedInvalid);
      }
      var ok := Persist(overlay[d.source := c], f);
      if !ok {
        return Some(RefusedInvalid);
      }
      if f.install.CrashBeforeActivate? {
        running := false;
        return None;
      }
      memory := memory.(sources := memory.sources[d.source := candidate.value]);
      return Some(Applied);
    }

    method ApplyOneConfiguration(d: Delivery, f: Faults)
      modifies this
      ensures View() == Deliver(old(View()), d, f)
    {
      if !running || f.ledgerUnreadable {
        return;
      }
      if d.envelope in ledger {
        if f.record.CrashBeforeAcknowledge? {
          running := false;
          return;
        }
        Acknowledge(d.envelope, Replayed(ledger[d.envelope]));
        return;
      }
      var outcome := ApplyOpened(d, f);
      if outcome.None? {
        return;
      }
      var ok := Record(d.envelope, outcome.value, f);
      if !ok {
        return;
      }
      if f.record.CrashBeforeAcknowledge? {
        running := false;
        return;
      }
      Acknowledge(d.envelope, outcome.value);
    }

    method Boot()
      modifies this
      ensures View() == Restart(old(View()))
    {
      var loaded := LoadConfig(base, overlay);
      running := loaded.Some?;
      if loaded.Some? {
        memory := loaded.value;
      }
    }
  }

  // ---- Settled envelopes ----

  /** A delivery of an envelope with an entry changes neither disk nor memory; it only answers. */
  lemma SettledIsInert(s: State, d: Delivery, f: Faults)
    requires d.envelope in s.ledger
    ensures var after := Deliver(s, d, f);
            && after.overlay == s.overlay && after.memory == s.memory && after.ledger == s.ledger
            && after.sent == (if s.running && !f.ledgerUnreadable && !f.record.CrashBeforeAcknowledge?
                              then s.sent + [Acknowledgement(d.envelope, Replayed(s.ledger[d.envelope]))] else s.sent)
  {
  }

  lemma StepKeepsEntries(s: State, e: Event)
    ensures forall id :: id in s.ledger ==> id in Step(s, e).ledger && Step(s, e).ledger[id] == s.ledger[id]
  {
    if e.Receive? {
      DeliveryKeepsEntries(s, e.d, Prepared(s, e.d), e.f);
    }
  }

  lemma DeliveryKeepsEntries(s: State, d: Delivery, prepared: Result<Source, Refused>, f: Faults)
    ensures forall id :: id in s.ledger ==>
              id in DeliverWith(s, d, prepared, f).ledger && DeliverWith(s, d, prepared, f).ledger[id] == s.ledger[id]
  {
    if s.running && !f.ledgerUnreadable && d.envelope !in s.ledger {
      OpeningEffect(s, d, prepared, f);
      DeliveryIs(s, d, prepared, f);
      var (after, outcome) := OpenAndApply(s, d, prepared, f);
      if outcome.Some? {
        SettledIs(after, d.envelope, outcome.value, f);
      }
    }
  }

  /** Entries are written once: no run of deliveries, faults and restarts changes one. */
  lemma {:induction false} EntryNeverChanges(s: State, events: seq<Event>, envelope: string)
    requires envelope in s.ledger
    ensures envelope in Run(s, events).ledger && Run(s, events).ledger[envelope] == s.ledger[envelope]
    decreases |events|
  {
    if events != [] {
      StepKeepsEntries(s, events[0]);
      EntryNeverChanges(Step(s, events[0]), events[1..], envelope);
    }
  }

  /** Settling touches the ledger, the acknowledgements and whether the process lives - nothing else. */
  lemma SettleKeepsInstalled(s: State, envelope: string, code: Code, f: Faults)
    ensures var after := Settle(s, envelope, code, f);
            after.base == s.base && after.overlay == s.overlay && after.memory == s.memory
            && (after.running ==> s.running)
  {
  }

  /** And what it does to those. */
  lemma SettledIs(s: State, envelope: string, code: Code, f: Faults)
    requires envelope !in s.ledger
    ensures Settle(s, envelope, code, f).ledger ==
            if f.record.CrashBeforeRecord? || f.record.EntryNotCreated? then s.ledger
            else s.ledger[envelope := Entry(code, f.record)]
  {
  }

  lemma SettledTells(s: State, envelope: string, code: Code, f: Faults)
    requires s.running && envelope !in s.ledger
    ensures var after, fault := Settle(s, envelope, code, f), f.record;
            && (after.running <==>
                !fault.CrashBeforeRecord? && !fault.CrashInsideRecord? && !fault.CrashBeforeAcknowledge?)
            && after.sent == if fault.RecordFine? then s.sent + [Acknowledgement(envelope, code)] else s.sent
  {
  }

  /** How one delivery leaves disk and memory. */
  predicate HasEffect(s: State, d: Delivery, prepared: Result<Source, Refused>, f: Faults, after: State) {
    var persists := PersistsWith(s, d, prepared, f);
    && after.base == s.base && (after.running ==> s.running && (persists ==> f.install.InstallFine?))
    && after.overlay == (if persists then s.overlay[d.source := d.opening.value] else s.overlay)
    && after.memory == (if persists && f.install.InstallFine?
                        then s.memory.(sources := s.memory.sources[d.source := prepared.value]) else s.memory)
  }

  lemma OpeningEffect(s: State, d: Delivery, prepared: Result<Source, Refused>, f: Faults)
    requires s.running && !f.ledgerUnreadable && d.envelope !in s.ledger
    ensures HasEffect(s, d, prepared, f, OpenAndApply(s, d, prepared, f).0)
    ensures OpenAndApply(s, d, prepared, f).0.ledger == s.ledger
  {
  }

  /** A delivery is answered or ignored, or opened and then settled. */
  lemma DeliveryIs(s: State, d: Delivery, prepared: Result<Source, Refused>, f: Faults)
    requires s.running && !f.ledgerUnreadable && d.envelope !in s.ledger
    ensures var (after, outcome) := OpenAndApply(s, d, prepared, f);
            DeliverWith(s, d, prepared, f)
            == if outcome.Some? then Settle(after, d.envelope, outcome.value, f) else after
  {
  }

  lemma DeliveryEffect(s: State, d: Delivery, prepared: Result<Source, Refused>, f: Faults)
    ensures HasEffect(s, d, prepared, f, DeliverWith(s, d, prepared, f))
  {
    if s.running && !f.ledgerUnreadable && d.envelope !in s.ledger {
      OpeningEffect(s, d, prepared, f);
      DeliveryIs(s, d, prepared, f);
      var (after, outcome) := OpenAndApply(s, d, prepared, f);
      if outcome.Some? {
        SettleKeepsInstalled(after, d.envelope, outcome.value, f);
      }
    }
  }

  /** The outcome openAndApply returns for a delivery that is not answered from the ledger. */
  function OutcomeOf(s: State, d: Delivery, f: Faults): Option<Code> {
    OpenAndApply(s, d, Prepared(s, d), f).1
  }

  /**
    A delivery that is refused leaves disk and memory as they were, whether or not the refusal could
    then be recorded. The outcome is APPLIED exactly when the connection is installed, and there is
    none exactly when the process died on the way. All this is per delivery: an envelope can be
    refused although an earlier delivery of it was installed (NeverDeniedIff).
    */
  lemma RefusalChangesNothing(s: State, d: Delivery, f: Faults)
    requires s.running && !f.ledgerUnreadable && d.envelope !in s.ledger
    ensures var outcome, after := OutcomeOf(s, d, f), Deliver(s, d, f);
            && (outcome == Some(Applied) <==> Installs(s, d, f))
            && (outcome.None? ==> !after.running && after.ledger == s.ledger)
            && (outcome.Some? && outcome != Some(Applied) ==>
                  && outcome.value in {RefusedUnreadable, RefusedExpired, RefusedInvalid}
                  && after.overlay == s.overlay && after.memory == s.memory)
  {
    DeliveryEffect(s, d, Prepared(s, d), f);
    OutcomeMeans(s, d, Prepared(s, d), f);
  }

  /** The class of a refusal is the class of what went wrong, and nothing else. */
  lemma RefusalClasses(s: State, d: Delivery, f: Faults)
    ensures var outcome := OutcomeOf(s, d, f);
            && (outcome == Some(RefusedExpired) <==> d.opening == Err(Expired) || d.opening == Err(NotYetValid))
            && (outcome == Some(RefusedUnreadable) <==>
                d.opening.Err? && d.opening.error in {WrongRecipient, TooLarge, BadVersion, KeyUnavailable})
            && (outcome == Some(RefusedInvalid) <==>
                || d.opening == Err(Malformed)
                || (d.opening.Ok? && Prepared(s, d).Err?)
                || (d.opening.Ok? && Prepared(s, d).Ok? && (f.install.OverlayUnreadable? || f.install.PersistFails?)))
            && (outcome.None? <==>
                && d.opening.Ok? && Prepared(s, d).Ok?
                && (f.install.CrashBeforePersist? || f.install.CrashBeforeActivate?))
  {
  }

  lemma OutcomeMeans(s: State, d: Delivery, prepared: Result<Source, Refused>, f: Faults)
    requires s.running && !f.ledgerUnreadable && d.envelope !in s.ledger
    ensures var (after, outcome) := OpenAndApply(s, d, prepared, f);
            && (outcome == Some(Applied) <==> PersistsWith(s, d, prepared, f) && f.install.InstallFine?)
            && (outcome.None? ==> DeliverWith(s, d, prepared, f) == after && !after.running && after.ledger == s.ledger)
            && (outcome.Some? && outcome != Some(Applied) ==>
                  outcome.value in {RefusedUnreadable, RefusedExpired, RefusedInvalid}
                  && !PersistsWith(s, d, prepared, f))
  {
  }

  /** The k-th event is the delivery that applied the envelope: persisted, activated and then recorded. */
  ghost predicate AppliedAt(s: State, e: Event, envelope: string) {
    && e.Receive? && e.d.envelope == envelope && e.d.opening.Ok?
    && envelope !in s.ledger && s.running
    && e.d.source in s.memory.sources
    && var after := Step(s, e);
       && envelope in after.ledger && after.ledger[envelope].Applied?
       && e.d.source in after.overlay && after.overlay[e.d.source] == e.d.opening.value
       && after.memory.sources
          == s.memory.sources[e.d.source := Configured(s.memory.sources[e.d.source], e.d.opening.value)]
  }

  lemma ApplyingStep(s: State, e: Event, envelope: string)
    requires envelope !in s.ledger && envelope in Step(s, e).ledger && Step(s, e).ledger[envelope].Applied?
    ensures AppliedAt(s, e, envelope)
  {
    ApplyingDelivery(s, e.d, Prepared(s, e.d), e.f, envelope);
    assert Prepared(s, e.d) == Ok(Configured(s.memory.sources[e.d.source], e.d.opening.value));
  }

  lemma ApplyingDelivery(s: State, d: Delivery, prepared: Result<Source, Refused>, f: Faults, envelope: string)
    requires var after := DeliverWith(s, d, prepared, f);
             envelope !in s.ledger && envelope in after.ledger && after.ledger[envelope].Applied?
    ensures s.running && d.envelope == envelope && d.opening.Ok? && prepared.Ok?
    ensures var after := DeliverWith(s, d, prepared, f);
            && after.overlay == s.overlay[d.source := d.opening.value]
            && after.memory.sources == s.memory.sources[d.source := prepared.value]
  {
    OutcomeMeans(s, d, prepared, f);
    DeliveryIs(s, d, prepared, f);
    DeliveryEffect(s, d, prepared, f);
    var (mid, outcome) := OpenAndApply(s, d, prepared, f);
    if outcome.Some? {
      SettledIs(mid, d.envelope, outcome.value, f);
    }
  }

  /** APPLIED is on record only if some delivery of the run put its configuration on disk and in memory. */
  lemma {:induction false} AppliedWasInstalled(s: State, events: seq<Event>, envelope: string) returns (k: nat)
    requires envelope !in s.ledger
    requires envelope in Run(s, events).ledger && Run(s, events).ledger[envelope].Applied?
    ensures k < |events| && AppliedAt(Run(s, events[..k]), events[k], envelope)
    decreases |events|
  {
    var next := Step(s, events[0]);
    if envelope in next.ledger {
      EntryNeverChanges(next, events[1..], envelope);
      ApplyingStep(s, events[0], envelope);
      k := 0;
      assert events[..0] == [];
    } else {
      var j := AppliedWasInstalled(next, events[1..], envelope);
      k := j + 1;
      assert events[..k][0] == events[0] && events[..k][1..] == events[1..][..j];
    }
  }

  // ---- Acknowledgements ----

  function TimesSent(sent: seq<Acknowledgement>, a: Acknowledgement): nat {
    multiset(sent)[a]
  }

  /** Everything said about an envelope is its entry or that entry replayed, and APPLIED only once. */
  ghost predicate OneStory(s: State) {
    forall a :: a in s.sent ==>
      && a.envelope in s.ledger
      && (a.code == s.ledger[a.envelope] || a.code == Replayed(s.ledger[a.envelope]))
      && TimesSent(s.sent, Acknowledgement(a.envelope, Applied)) <= 1
  }

  /** A step sends at most one acknowledgement: a fresh entry's own code, or a replay of an old entry. */
  lemma DeliverySends(s: State, d: Delivery, prepared: Result<Source, Refused>, f: Faults)
    ensures var after := DeliverWith(s, d, prepared, f);
            || after.sent == s.sent
            || (d.envelope !in s.ledger && d.envelope in after.ledger
                && after.sent == s.sent + [Acknowledgement(d.envelope, after.ledger[d.envelope])])
            || (d.envelope in s.ledger && after.ledger == s.ledger
                && after.sent == s.sent + [Acknowledgement(d.envelope, Replayed(s.ledger[d.envelope]))])
  {
  }

  lemma StepKeepsStory(s: State, e: Event)
    requires OneStory(s)
    ensures OneStory(Step(s, e))
  {
    StepKeepsEntries(s, e);
    if e.Receive? {
      DeliverySends(s, e.d, Prepared(s, e.d), e.f);
      StoryContinues(s, Step(s, e), e.d.envelope);
    }
  }

  lemma StoryContinues(s: State, after: State, envelope: string)
    requires OneStory(s)
    requires forall id :: id in s.ledger ==> id in after.ledger && after.ledger[id] == s.ledger[id]
    requires || after.sent == s.sent
             || (envelope !in s.ledger && envelope in after.ledger
                 && after.sent == s.sent + [Acknowledgement(envelope, after.ledger[envelope])])
             || (envelope in s.ledger
                 && after.sent == s.sent + [Acknowledgement(envelope, Replayed(s.ledger[envelope]))])
    ensures OneStory(after)
  {
    forall a | a in after.sent
      ensures a.envelope in after.ledger
      ensures a.code == after.ledger[a.envelope] || a.code == Replayed(after.ledger[a.envelope])
      ensures TimesSent(after.sent, Acknowledgement(a.envelope, Applied)) <= 1
    {
      var applied := Acknowledgement(a.envelope, Applied);
      if applied in s.sent {
        assert TimesSent(s.sent, applied) <= 1;
      } else {
        assert multiset(s.sent)[applied] == 0;
      }
    }
  }

  /** Over every run the control plane is told one story per envelope, and APPLIED at most once. */
  lemma {:induction false} RunKeepsStory(s: State, events: seq<Event>)
    requires OneStory(s)
    ensures OneStory(Run(s, events))
    decreases |events|
  {
    if events != [] {
      StepKeepsStory(s, events[0]);
      RunKeepsStory(Step(s, events[0]), events[1..]);
    }
  }

  // ---- What the control plane learns of an application ----

  /** The write of the entry stops before the whole code is in it. */
  predicate Tears(fault: RecordFault, code: Code) {
    || (fault.WriteFails? && fault.written < |Text(code)|)
    || (fault.CrashInsideRecord? && fault.written < |Text(code)|)
  }

  /** What was said about an envelope from the k-th acknowledgement on. */
  function SaidAbout(sent: seq<Acknowledgement>, envelope: string, k: nat): set<Code>
    requires k <= |sent|
  {
    set i | k <= i < |sent| && sent[i].envelope == envelope :: sent[i].code
  }

  lemma StepSaysEntry(s: State, e: Event, envelope: string)
    requires envelope in s.ledger
    ensures s.sent <= Step(s, e).sent
    ensures SaidAbout(Step(s, e).sent, envelope, |s.sent|) <= {Replayed(s.ledger[envelope])}
  {
    if e.Receive? {
      DeliverySends(s, e.d, Prepared(s, e.d), e.f);
    }
  }

  /** Once there is an entry, everything said about its envelope is that entry replayed. */
  lemma {:induction false} SettledAnswersNeverChange(s: State, events: seq<Event>, envelope: string)
    requires envelope in s.ledger
    ensures s.sent <= Run(s, events).sent
    ensures SaidAbout(Run(s, events).sent, envelope, |s.sent|) <= {Replayed(s.ledger[envelope])}
    decreases |events|
  {
    if events != [] {
      var next := Step(s, events[0]);
      StepSaysEntry(s, events[0], envelope);
      StepKeepsEntries(s, events[0]);
      SettledAnswersNeverChange(next, events[1..], envelope);
      var sent := Run(s, events).sent;
      assert next.sent == sent[..|next.sent|];
    }
  }

  // ---- Who writes the entry ----

  /** The delivery that creates an envelope's entry: openAndApply returned, and the file could be created. */
  predicate Creates(s: State, e: Event, envelope: string) {
    && e.Receive? && e.d.envelope == envelope
    && s.running && !e.f.ledgerUnreadable && envelope !in s.ledger
    && OutcomeOf(s, e.d, e.f).Some?
    && !e.f.record.CrashBeforeRecord? && !e.f.record.EntryNotCreated?
  }

  /** The entry's creator installed the connection and wrote the entry whole. */
  predicate AppliedByCreator(s: State, events: seq<Event>, envelope: string)
    decreases |events|
  {
    && events != []
    && var e := events[0];
       if Creates(s, e, envelope) then Installs(s, e.d, e.f) && !Tears(e.f.record, Applied)
       else AppliedByCreator(Step(s, e), events[1..], envelope)
  }

  lemma CreatesIff(s: State, e: Event, envelope: string)
    requires envelope !in s.ledger
    ensures envelope in Step(s, e).ledger <==> Creates(s, e, envelope)
    ensures Creates(s, e, envelope) ==>
              && Step(s, e).ledger[envelope] == Entry(OutcomeOf(s, e.d, e.f).value, e.f.record)
              && !Step(s, e).ledger[envelope].AlreadyApplied?
              && (Step(s, e).ledger[envelope].Applied? <==> Installs(s, e.d, e.f) && !Tears(e.f.record, Applied))
  {
    if e.Receive? && s.running && !e.f.ledgerUnreadable && e.d.envelope !in s.ledger {
      var d, f, prepared := e.d, e.f, Prepared(s, e.d);
      OutcomeMeans(s, d, prepared, f);
      OpeningEffect(s, d, prepared, f);
      DeliveryIs(s, d, prepared, f);
      var (after, outcome) := OpenAndApply(s, d, prepared, f);
      if outcome.Some? {
        SettledIs(after, d.envelope, outcome.value, f);
      }
    }
  }

  /** Over every run, an entry is APPLIED if and only if its creator installed the connection and wrote it whole. */
  lemma {:induction false} EntryAppliedIff(s: State, events: seq<Event>, envelope: string)
    requires envelope !in s.ledger
    ensures envelope in Run(s, events).ledger && Run(s, events).ledger[envelope].Applied?
            <==> AppliedByCreator(s, events, envelope)
    ensures envelope in Run(s, events).ledger ==> !Run(s, events).ledger[envelope].AlreadyApplied?
    decreases |events|
  {
    if events != [] {
      var next := Step(s, events[0]);
      CreatesIff(s, events[0], envelope);
      if envelope in next.ledger {
        EntryNeverChanges(next, events[1..], envelope);
      } else {
        EntryAppliedIff(next, events[1..], envelope);
      }
    }
  }

  /**
    What the control plane hears about an envelope, in any answer of any run, is that it was applied
    if and only if the creator of its entry installed it and wrote the entry whole - whatever other
    deliveries of the same envelope did.
    */
  lemma AnswersFollowCreator(s: State, events: seq<Event>, envelope: string, a: Acknowledgement)
    requires OneStory(s) && envelope !in s.ledger
    requires a in Run(s, events).sent && a.envelope == envelope
    ensures a.code in {Applied, AlreadyApplied} <==> AppliedByCreator(s, events, envelope)
  {
    RunKeepsStory(s, events);
    EntryAppliedIff(s, events, envelope);
  }

  // ---- What becomes of a configuration that reached the disk ----

  /** No entry is made. */
  predicate LeavesNoEntry(f: Faults) {
    f.install.CrashBeforeActivate? || f.record.CrashBeforeRecord? || f.record.EntryNotCreated?
  }

  /** The entry is made and not written whole. */
  predicate CutsShort(f: Faults) {
    !f.install.CrashBeforeActivate? && Tears(f.record, Applied)
  }

  /** The process dies. */
  predicate Dies(f: Faults) {
    || f.install.CrashBeforeActivate?
    || f.record.CrashBeforeRecord? || f.record.CrashInsideRecord? || f.record.CrashBeforeAcknowledge?
  }

  /** What a delivery that reaches the disk leaves, fault by fault. */
  lemma PersistedEntry(s: State, d: Delivery, f: Faults)
    requires Persists(s, d, f)
    ensures var after := Deliver(s, d, f);
            && after.base == s.base && after.overlay == s.overlay[d.source := d.opening.value]
            && (d.envelope in after.ledger <==> !LeavesNoEntry(f))
            && (d.envelope in after.ledger ==> after.ledger[d.envelope] == Entry(Applied, f.record))
            && (after.running <==> !Dies(f))
            && s.sent <= after.sent && (CutsShort(f) || Dies(f) ==> after.sent == s.sent)
  {
    var prepared := Prepared(s, d);
    DeliveryEffect(s, d, prepared, f);
    DeliveryIs(s, d, prepared, f);
    var (after, outcome) := OpenAndApply(s, d, prepared, f);
    PersistedOpens(s, d, prepared, f);
    if outcome.Some? {
      SettledIs(after, d.envelope, Applied, f);
      SettledTells(after, d.envelope, Applied, f);
    }
  }

  lemma PersistedOpens(s: State, d: Delivery, prepared: Result<Source, Refused>, f: Faults)
    requires PersistsWith(s, d, prepared, f)
    ensures var (after, outcome) := OpenAndApply(s, d, prepared, f);
            && outcome == (if f.install.CrashBeforeActivate? then None else Some(Applied))
            && (after.running <==> outcome.Some?) && after.ledger == s.ledger && after.sent == s.sent
  {
  }

  /** A write cut short hides a configuration for good: everything ever said about its envelope is the torn text. */
  lemma BlankHidesApplication(s: State, d: Delivery, f: Faults, events: seq<Event>)
    requires Persists(s, d, f) && CutsShort(f)
    ensures var after := Deliver(s, d, f);
            && after.overlay == s.overlay[d.source := d.opening.value]
            && s.sent <= Run(after, events).sent
            && SaidAbout(Run(after, events).sent, d.envelope, |s.sent|) <= {Torn("APPLIED"[..f.record.written])}
  {
    PersistedEntry(s, d, f);
    SettledAnswersNeverChange(Deliver(s, d, f), events, d.envelope);
  }

  /** A process that died and cannot start again stays as it is. */
  lemma {:induction false} StuckForever(s: State, events: seq<Event>)
    requires !s.running && Load(s.base, s.overlay).None?
    ensures Run(s, events) == s
    decreases |events|
  {
    if events != [] {
      assert Step(s, events[0]) == s;
      StuckForever(s, events[1..]);
    }
  }

  /** Some continuation tells the control plane that the envelope was applied. */
  ghost predicate CanBeTold(after: State, envelope: string, k: nat) {
    exists events ::
      && k <= |Run(after, events).sent|
      && SaidAbout(Run(after, events).sent, envelope, k) * {Applied, AlreadyApplied} != {}
  }

  /** Every continuation that puts the envelope on record puts it there as applied. */
  ghost predicate NeverDenied(after: State, envelope: string) {
    forall events :: envelope in Run(after, events).ledger ==> Run(after, events).ledger[envelope].Applied?
  }

  lemma OneMoreSaid(sent: seq<Acknowledgement>, a: Acknowledgement, k: nat)
    requires k <= |sent|
    ensures a.code in SaidAbout(sent + [a], a.envelope, k)
  {
    assert (sent + [a])[|sent|] == a;
  }

  lemma RunAfter(s: State, e: Event, events: seq<Event>)
    ensures Run(s, [e] + events) == Run(Step(s, e), events)
  {
    assert ([e] + events)[1..] == events;
  }

  /** Preparing an installed connection once more succeeds and changes nothing. */
  lemma PreparedAgain(c: Config, id: string, proposal: Connection)
    requires Prepare(c, id, proposal).Ok?
    ensures var after := c.(sources := c.sources[id := Prepare(c, id, proposal).value]);
            Prepare(after, id, proposal) == Prepare(c, id, proposal)
  {
    var candidate := Prepare(c, id, proposal).value;
    assert c.sources[id := candidate][id := candidate] == c.sources[id := candidate];
  }

  /** So does preparing it after a start that loaded it. */
  lemma PreparedAfterStart(base: Config, overlay: Overlay, id: string)
    requires Load(base, overlay).Some? && id in overlay
    ensures Prepare(Load(base, overlay).value, id, overlay[id]).Ok?
  {
    var loaded := Load(base, overlay).value;
    assert loaded.sources[id] == Configured(WithDefaults(base).sources[id], overlay[id]);
    assert loaded.sources[id := Configured(loaded.sources[id], overlay[id])] == loaded.sources;
  }

  /**
    Once a configuration has reached the disk, some continuation reports it as applied if and only
    if its entry was not cut short and the process lives or can be started again.
    */
  lemma ApplicationCanBeToldIff(s: State, d: Delivery, f: Faults)
    requires Persists(s, d, f)
    ensures var after := Deliver(s, d, f);
            CanBeTold(after, d.envelope, |s.sent|) <==>
            !CutsShort(f) && (!Dies(f) || Load(after.base, after.overlay).Some?)
  {
    var after := Deliver(s, d, f);
    PersistedEntry(s, d, f);
    if CutsShort(f) {
      TornIsNeverTold(after, d.envelope);
    } else if !Dies(f) {
      DeliveryEffect(s, d, Prepared(s, d), f);
      PreparedAgain(s.memory, d.source, d.opening.value);
      RedeliveryTells(after, d, |s.sent|);
    } else if Load(after.base, after.overlay).Some? {
      PreparedAfterStart(after.base, after.overlay, d.source);
      RedeliveryTells(Restart(after), d, |s.sent|);
      StartCanTell(after, d.envelope, |s.sent|);
    } else {
      StuckIsNeverTold(after, d.envelope);
    }
  }

  lemma StartCanTell(s: State, envelope: string, k: nat)
    requires CanBeTold(Restart(s), envelope, k)
    ensures CanBeTold(s, envelope, k)
  {
    var events :| k <= |Run(Restart(s), events).sent|
                  && SaidAbout(Run(Restart(s), events).sent, envelope, k) * {Applied, AlreadyApplied} != {};
    RunAfter(s, Start, events);
  }

  lemma StuckIsNeverTold(s: State, envelope: string)
    requires !s.running && Load(s.base, s.overlay).None?
    ensures !CanBeTold(s, envelope, |s.sent|)
  {
    forall events ensures Run(s, events) == s {
      StuckForever(s, events);
    }
  }

  lemma TornIsNeverTold(s: State, envelope: string)
    requires envelope in s.ledger && s.ledger[envelope].Torn?
    ensures !CanBeTold(s, envelope, |s.sent|)
  {
    forall events
      ensures |s.sent| <= |Run(s, events).sent|
      ensures SaidAbout(Run(s, events).sent, envelope, |s.sent|) * {Applied, AlreadyApplied} == {}
    {
      SettledAnswersNeverChange(s, events, envelope);
    }
  }

  /**
    Once a configuration has reached the disk, no continuation can put it on record as anything but
    applied if and only if the delivery recorded it whole itself, or died unrecorded for good.
    Otherwise the entry is torn, or the envelope's next delivery - expired by then, say - decides
    what is recorded about it.
    */
  lemma NeverDeniedIff(s: State, d: Delivery, f: Faults)
    requires Persists(s, d, f)
    ensures var after := Deliver(s, d, f);
            NeverDenied(after, d.envelope) <==>
            if LeavesNoEntry(f) then Dies(f) && Load(after.base, after.overlay).None? else !CutsShort(f)
  {
    var after := Deliver(s, d, f);
    PersistedEntry(s, d, f);
    if !LeavesNoEntry(f) {
      RecordedIsNeverDeniedIff(after, d.envelope);
    } else if Dies(f) && Load(after.base, after.overlay).None? {
      forall events ensures Run(after, events) == after {
        StuckForever(after, events);
      }
    } else {
      ExpiryCanDeny(after, d);
    }
  }

  lemma RecordedIsNeverDeniedIff(s: State, envelope: string)
    requires envelope in s.ledger
    ensures NeverDenied(s, envelope) <==> s.ledger[envelope].Applied?
  {
    assert Run(s, []) == s;
    forall events ensures envelope in Run(s, events).ledger && Run(s, events).ledger[envelope] == s.ledger[envelope] {
      EntryNeverChanges(s, events, envelope);
    }
  }

  /** The same envelope, delivered after its expiry. */
  function Late(d: Delivery): Delivery {
    d.(opening := Err(Expired))
  }

  lemma ExpiryDenies(s: State, d: Delivery)
    requires s.running && d.envelope !in s.ledger
    ensures Deliver(s, Late(d), NO_FAULT) ==
            s.(ledger := s.ledger[d.envelope := RefusedExpired],
               sent := s.sent + [Acknowledgement(d.envelope, RefusedExpired)])
  {
  }

  lemma ExpiryCanDeny(s: State, d: Delivery)
    requires d.envelope !in s.ledger && (s.running || Load(s.base, s.overlay).Some?)
    ensures !NeverDenied(s, d.envelope)
  {
    var late := Receive(Late(d), NO_FAULT);
    if s.running {
      ExpiryDenies(s, d);
      RunAfter(s, late, []);
      assert Run(s, [late] + []).ledger[d.envelope] == RefusedExpired;
    } else {
      ExpiryDenies(Restart(s), d);
      RunAfter(Restart(s), late, []);
      RunAfter(s, Start, [late] + []);
      assert Run(s, [Start] + ([late] + [])).ledger[d.envelope] == RefusedExpired;
    }
  }

  lemma RedeliveryTells(s: State, d: Delivery, k: nat)
    requires s.running && d.opening.Ok? && Prepared(s, d).Ok? && k <= |s.sent|
    requires d.envelope in s.ledger ==> s.ledger[d.envelope].Applied?
    ensures CanBeTold(s, d.envelope, k)
  {
    var code := if d.envelope in s.ledger then AlreadyApplied else Applied;
    CleanAnswer(s, d, Prepared(s, d).value);
    OneMoreSaid(s.sent, Acknowledgement(d.envelope, code), k);
    var events := [Receive(d, NO_FAULT)];
    assert events[1..] == [] && Run(s, events) == Deliver(s, d, NO_FAULT);
    assert code in SaidAbout(Run(s, events).sent, d.envelope, k) * {Applied, AlreadyApplied};
  }

  lemma CleanAnswer(s: State, d: Delivery, candidate: Source)
    requires s.running && d.opening.Ok?
    requires d.envelope in s.ledger ==> s.ledger[d.envelope].Applied?
    ensures DeliverWith(s, d, Ok(candidate), NO_FAULT).sent
            == s.sent + [Acknowledgement(d.envelope, if d.envelope in s.ledger then AlreadyApplied else Applied)]
  {
  }

  // ---- The running configuration ----

  /** A running process serves a valid configuration with the file's own local parts. */
  ghost predicate Sound(s: State) {
    && s.overlay.Keys <= s.base.sources.Keys
    && (s.running ==> ValidConfig(s.memory) && SameLocalConfig(s.memory, WithDefaults(s.base)))
  }

  lemma PreparedIsSound(c: Config, base: Config, id: string, proposal: Connection)
    requires SameLocalConfig(c, base) && Prepare(c, id, proposal).Ok?
    ensures var after := c.(sources := c.sources[id := Prepare(c, id, proposal).value]);
            id in base.sources && ValidConfig(after) && SameLocalConfig(after, base)
  {
  }

  lemma LoadedIsSound(base: Config, overlay: Overlay)
    requires Load(base, overlay).Some?
    ensures ValidConfig(Load(base, overlay).value) && SameLocalConfig(Load(base, overlay).value, WithDefaults(base))
  {
  }

  lemma StepKeepsSound(s: State, e: Event)
    requires Sound(s)
    ensures Sound(Step(s, e)) && Step(s, e).base == s.base
  {
    match e {
      case Start =>
        if Load(s.base, s.overlay).Some? {
          LoadedIsSound(s.base, s.overlay);
        }
      case Receive(d, f) =>
        DeliveryEffect(s, d, Prepared(s, d), f);
        if s.running && d.opening.Ok? && Prepared(s, d).Ok? {
          PreparedIsSound(s.memory, WithDefaults(s.base), d.source, d.opening.value);
        }
    }
  }

  /**
    After any number of deliveries, faults and restarts the running configuration still validates;
    its source ids, modes, safety policies and secret references are those of the file; and the
    policies the digest covers are the ones a digest taken at start-up covered.
    */
  lemma {:induction false} RunKeepsSound(s: State, events: seq<Event>)
    requires Sound(s)
    ensures Sound(Run(s, events)) && Run(s, events).base == s.base
    ensures Run(s, events).running ==> Policies(Run(s, events).memory) == Policies(WithDefaults(s.base))
    decreases |events|
  {
    if events == [] {
      if s.running {
        SameLocalMeansSamePolicies(s.memory, WithDefaults(s.base));
      }
    } else {
      StepKeepsSound(s, events[0]);
      RunKeepsSound(Step(s, events[0]), events[1..]);
    }
  }
}
