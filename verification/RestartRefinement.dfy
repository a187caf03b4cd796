/**
  Whether a restart reproduces the configuration a connector is running. The overlay keeps only the
  last envelope of each source, and an envelope with no executor role leaves the role in force - in
  memory the one an earlier envelope named, on reload the one in the operator's file
  (internal/sealedconfig/apply.go:36-44, internal/config/managed.go:98-105).
  */
module RestartRefinement {
  import opened Outcomes
  import opened Conditions
  import opened Policy
  import opened Config
  import opened SealedApplication

  // ---- One source ----

  /** A source after a sequence of connections. */
  function Reconfigured(s: Source, cs: seq<Connection>): Source
    decreases |cs|
  {
    if cs == [] then s else Reconfigured(Configured(s, cs[0]), cs[1..])
  }

  /** The executor role in force after them: the last one named, if any was. */
  function RoleInForce(role: string, cs: seq<Connection>): string
    decreases |cs|
  {
    if cs == [] then role else RoleInForce(if cs[0].executorRole != "" then cs[0].executorRole else role, cs[1..])
  }

  function LastOf(cs: seq<Connection>): Connection
    requires cs != []
  {
    cs[|cs| - 1]
  }

  /** Everything but the executor role is the last connection's doing. */
  lemma {:induction false} ReconfiguredIs(s: Source, cs: seq<Connection>)
    requires cs != []
    ensures Reconfigured(s, cs) ==
            Configured(s, LastOf(cs)).(executor := s.executor.(username := RoleInForce(s.executor.username, cs)))
    decreases |cs|
  {
    if |cs| > 1 {
      ReconfiguredIs(Configured(s, cs[0]), cs[1..]);
      assert LastOf(cs[1..]) == LastOf(cs);
    } else {
      assert cs[1..] == [];
    }
  }

  lemma {:induction false} RoleNeverVanishes(role: string, cs: seq<Connection>)
    requires RoleInForce(role, cs) == ""
    ensures role == ""
    decreases |cs|
  {
    if cs != [] {
      RoleNeverVanishes(if cs[0].executorRole != "" then cs[0].executorRole else role, cs[1..]);
    }
  }

  /**
    A reload gives back the running source: nothing was applied, the last envelope named a role, or
    the role in force is the file's own.
    */
  predicate RoleSurvives(base: Source, started: Source, cs: seq<Connection>) {
    || cs == []
    || LastOf(cs).executorRole != ""
    || RoleInForce(started.executor.username, cs) == base.executor.username
  }

  /** The source a reload would produce after those connections. */
  function Reloaded(base: Source, started: Source, cs: seq<Connection>): Source {
    if cs == [] then started else Configured(base, LastOf(cs))
  }

  lemma ReloadAgreesIff(base: Source, started: Source, cs: seq<Connection>)
    requires SameLocalParts(base, started)
    ensures Reloaded(base, started, cs) == Reconfigured(started, cs) <==> RoleSurvives(base, started, cs)
    ensures Reloaded(base, started, cs) ==
            Reconfigured(started, cs).(executor := Reloaded(base, started, cs).executor)
  {
    if cs != [] {
      ReconfiguredIs(started, cs);
      if LastOf(cs).executorRole != "" {
        LastNamedIsInForce(started.executor.username, cs);
      }
    }
  }

  lemma {:induction false} LastNamedIsInForce(role: string, cs: seq<Connection>)
    requires cs != [] && LastOf(cs).executorRole != ""
    ensures RoleInForce(role, cs) == LastOf(cs).executorRole
    decreases |cs|
  {
    if |cs| > 1 {
      assert LastOf(cs[1..]) == LastOf(cs);
      LastNamedIsInForce(if cs[0].executorRole != "" then cs[0].executorRole else role, cs[1..]);
    } else {
      assert cs[1..] == [];
    }
  }

  /** The file's executor role can serve beside the reader role the last envelope set. */
  predicate FileRoleUsable(base: Source, cs: seq<Connection>)
    requires cs != []
  {
    IsIdentifier(base.executor.username) && base.executor.username != LastOf(cs).readerRole
  }

  /** Given a valid running source, the reloaded one is valid exactly in these cases. */
  lemma ReloadValidIff(base: Source, started: Source, cs: seq<Connection>)
    requires SameLocalParts(base, started) && ValidSource(Reconfigured(started, cs))
    requires started.executor.username == "" ==> base.executor.username == ""
    ensures ValidSource(Reloaded(base, started, cs)) <==>
            (RoleSurvives(base, started, cs) || Pending(Reloaded(base, started, cs)) || FileRoleUsable(base, cs))
  {
    var running, reloaded := Reconfigured(started, cs), Reloaded(base, started, cs);
    ReloadAgreesIff(base, started, cs);
    if !RoleSurvives(base, started, cs) {
      ReconfiguredIs(started, cs);
      assert reloaded.executor == base.executor && reloaded.reader.username == LastOf(cs).readerRole;
      if RoleInForce(started.executor.username, cs) == "" {
        RoleNeverVanishes(started.executor.username, cs);
      }
      assert running.executor.username != "" && running.executor.password == reloaded.executor.password;
      ExecutorDecides(running, reloaded);
    }
  }

  /** Two sources that differ only in the executor's user name differ in validity only by that name. */
  lemma ExecutorDecides(running: Source, reloaded: Source)
    requires ValidSource(running) && reloaded == running.(executor := reloaded.executor)
    requires running.executor.username != "" && running.executor.password == reloaded.executor.password
    ensures ValidSource(reloaded) <==>
            Pending(reloaded)
            || (IsIdentifier(reloaded.executor.username) && reloaded.executor.username != reloaded.reader.username)
  {
    assert Pending(reloaded) == Pending(running);
    if !Pending(running) {
      assert ValidCredential(running.executor);
      assert ValidConnected(reloaded) == ValidExecutor(reloaded);
    }
  }

  // ---- A process between two starts ----

  predicate OnlyDeliveries(events: seq<Event>) {
    forall i :: 0 <= i < |events| ==> events[i].Receive?
  }

  /** The connections a process installs on one source. */
  function History(s: State, events: seq<Event>, id: string): seq<Connection>
    requires OnlyDeliveries(events)
    decreases |events|
  {
    if events == [] then []
    else
      var e := events[0];
      (if Installs(s, e.d, e.f) && e.d.source == id then [e.d.opening.value] else [])
      + History(Step(s, e), events[1..], id)
  }

  /** One delivery, seen from one source. */
  lemma StepEffect(s: State, e: Event, id: string)
    requires e.Receive? && Step(s, e).running && id in s.memory.sources
    ensures var after := Step(s, e);
            var hit := Installs(s, e.d, e.f) && e.d.source == id;
            && s.running && after.base == s.base && after.memory.sources.Keys == s.memory.sources.Keys
            && after.memory.validHeader == s.memory.validHeader
            && after.memory.sources[id]
               == (if hit then Configured(s.memory.sources[id], e.d.opening.value) else s.memory.sources[id])
            && (id in after.overlay <==> hit || id in s.overlay)
            && (id in after.overlay ==> after.overlay[id] == if hit then e.d.opening.value else s.overlay[id])
  {
    DeliveryEffect(s, e.d, Prepared(s, e.d), e.f);
  }

  lemma RunningThroughout(s: State, events: seq<Event>)
    requires OnlyDeliveries(events) && events != [] && Run(s, events).running
    ensures Step(s, events[0]).running
    decreases |events|
  {
    var next := Step(s, events[0]);
    if |events| > 1 {
      RunningThroughout(next, events[1..]);
      DeliveryEffect(next, events[1].d, Prepared(next, events[1].d), events[1].f);
    } else {
      assert events[1..] == [];
    }
  }

  /** Memory folds the installed connections, and the overlay keeps the last of them. */
  lemma {:induction false} RunEffect(s: State, events: seq<Event>, id: string)
    requires OnlyDeliveries(events) && Run(s, events).running && id in s.memory.sources
    ensures var after, h := Run(s, events), History(s, events, id);
            && after.base == s.base && after.memory.sources.Keys == s.memory.sources.Keys
            && after.memory.validHeader == s.memory.validHeader
            && after.memory.sources[id] == Reconfigured(s.memory.sources[id], h)
            && (id in after.overlay <==> h != [] || id in s.overlay)
            && (id in after.overlay ==> after.overlay[id] == if h != [] then LastOf(h) else s.overlay[id])
    decreases |events|
  {
    if events != [] {
      RunningThroughout(s, events);
      StepEffect(s, events[0], id);
      RunEffect(Step(s, events[0]), events[1..], id);
      var tail := History(Step(s, events[0]), events[1..], id);
      if Installs(s, events[0].d, events[0].f) && events[0].d.source == id {
        var c := events[0].d.opening.value;
        assert History(s, events, id) == [c] + tail && ([c] + tail)[1..] == tail;
      } else {
        assert History(s, events, id) == tail;
      }
    }
  }

  /** A state a start has just produced. */
  predicate JustStarted(s: State) {
    s.running && Load(s.base, s.overlay) == Some(s.memory)
  }

  /** What a reload would compute for one source, whatever has been installed since the start. */
  lemma ReloadIs(s: State, events: seq<Event>, id: string)
    requires JustStarted(s) && OnlyDeliveries(events) && Run(s, events).running && id in s.memory.sources
    ensures var base, h := WithDefaults(s.base), History(s, events, id);
            && id in base.sources && SameLocalParts(base.sources[id], s.memory.sources[id])
            && (s.memory.sources[id].executor.username == "" ==> base.sources[id].executor.username == "")
            && Merged(base.sources[id], Run(s, events).overlay, id)
               == Reloaded(base.sources[id], s.memory.sources[id], h)
  {
    RunEffect(s, events, id);
  }

  ghost predicate AllSurvive(s: State, events: seq<Event>)
    requires OnlyDeliveries(events)
  {
    forall id :: id in s.memory.sources && id in WithDefaults(s.base).sources ==>
      RoleSurvives(WithDefaults(s.base).sources[id], s.memory.sources[id], History(s, events, id))
  }

  /** Every source that would lose its role on reload is still pending, or can use the file's role. */
  ghost predicate AllReloadable(s: State, events: seq<Event>)
    requires OnlyDeliveries(events)
  {
    forall id :: id in s.memory.sources && id in WithDefaults(s.base).sources ==>
      SourceReloadable(WithDefaults(s.base).sources[id], s.memory.sources[id], History(s, events, id))
  }

  /** The configuration a reload validates. */
  function ReloadedConfig(s: State): Config {
    var base := WithDefaults(s.base);
    base.(sources := map id | id in base.sources :: Merged(base.sources[id], s.overlay, id))
  }

  lemma LoadIs(s: State)
    requires s.overlay.Keys <= s.base.sources.Keys
    ensures Load(s.base, s.overlay) == if ValidConfig(ReloadedConfig(s)) then Some(ReloadedConfig(s)) else None
  {
  }

  lemma StartedIsSound(s: State)
    requires JustStarted(s)
    ensures Sound(s)
  {
    LoadedIsSound(s.base, s.overlay);
  }

  /** The reloaded configuration source by source. */
  lemma ReloadedSources(s: State, events: seq<Event>)
    requires JustStarted(s) && OnlyDeliveries(events) && Run(s, events).running
    ensures var after, base := Run(s, events), WithDefaults(s.base);
            && Sound(after) && after.base == s.base
            && ReloadedConfig(after).validHeader == after.memory.validHeader
            && ReloadedConfig(after).sources.Keys == after.memory.sources.Keys == s.memory.sources.Keys
               == base.sources.Keys
    ensures forall id :: id in s.memory.sources ==>
              && id in WithDefaults(s.base).sources
              && ReloadedConfig(Run(s, events)).sources[id]
                 == Reloaded(WithDefaults(s.base).sources[id], s.memory.sources[id], History(s, events, id))
              && Run(s, events).memory.sources[id] == Reconfigured(s.memory.sources[id], History(s, events, id))
  {
    StartedIsSound(s);
    RunKeepsSound(s, events);
    forall id | id in s.memory.sources
      ensures ReloadedConfig(Run(s, events)).sources[id]
              == Reloaded(WithDefaults(s.base).sources[id], s.memory.sources[id], History(s, events, id))
      ensures Run(s, events).memory.sources[id] == Reconfigured(s.memory.sources[id], History(s, events, id))
    {
      RunEffect(s, events, id);
      ReloadIs(s, events, id);
    }
  }

  /**
    Restart refinement: after any deliveries since a start, starting again gives exactly the
    configuration in memory if and only if every source's role survives.
    */
  lemma RestartAgreesIff(s: State, events: seq<Event>)
    requires JustStarted(s) && OnlyDeliveries(events) && Run(s, events).running
    ensures Load(s.base, Run(s, events).overlay) == Some(Run(s, events).memory) <==> AllSurvive(s, events)
  {
    var after := Run(s, events);
    ReloadedSources(s, events);
    LoadIs(after);
    EqualSourceBySource(ReloadedConfig(after), after.memory);
    forall id | id in s.memory.sources
      ensures id in WithDefaults(s.base).sources
      ensures ReloadedConfig(after).sources[id] == after.memory.sources[id] <==>
              RoleSurvives(WithDefaults(s.base).sources[id], s.memory.sources[id], History(s, events, id))
    {
      SourceAgreesIff(s, events, id);
    }
  }

  lemma SourceAgreesIff(s: State, events: seq<Event>, id: string)
    requires JustStarted(s) && OnlyDeliveries(events) && Run(s, events).running && id in s.memory.sources
    ensures id in WithDefaults(s.base).sources && id in ReloadedConfig(Run(s, events)).sources
            && id in Run(s, events).memory.sources
    ensures ReloadedConfig(Run(s, events)).sources[id] == Run(s, events).memory.sources[id] <==>
            RoleSurvives(WithDefaults(s.base).sources[id], s.memory.sources[id], History(s, events, id))
  {
    ReloadedSources(s, events);
    ReloadIs(s, events, id);
    ReloadAgreesIff(WithDefaults(s.base).sources[id], s.memory.sources[id], History(s, events, id));
  }

  lemma EqualSourceBySource(config: Config, like: Config)
    requires config.validHeader == like.validHeader && config.sources.Keys == like.sources.Keys
    ensures config == like <==> forall id :: id in like.sources ==> config.sources[id] == like.sources[id]
  {
    if forall id :: id in like.sources ==> config.sources[id] == like.sources[id] {
      assert config.sources == like.sources;
    }
  }

  lemma ValidSourceBySource(config: Config, like: Config)
    requires ValidConfig(like) && config.validHeader == like.validHeader && config.sources.Keys == like.sources.Keys
    ensures ValidConfig(config) <==> forall id :: id in like.sources ==> ValidSource(config.sources[id])
  {
    var id :| id in like.sources;
    assert id in config.sources;
  }

  predicate SourceReloadable(base: Source, started: Source, cs: seq<Connection>) {
    RoleSurvives(base, started, cs) || Pending(Reloaded(base, started, cs)) || FileRoleUsable(base, cs)
  }

  lemma ReloadedSourceValid(s: State, events: seq<Event>, id: string)
    requires JustStarted(s) && OnlyDeliveries(events) && Run(s, events).running && id in s.memory.sources
    ensures id in WithDefaults(s.base).sources && id in ReloadedConfig(Run(s, events)).sources
    ensures ValidSource(ReloadedConfig(Run(s, events)).sources[id]) <==>
            SourceReloadable(WithDefaults(s.base).sources[id], s.memory.sources[id], History(s, events, id))
  {
    ReloadedSources(s, events);
    ReloadIs(s, events, id);
    assert ValidSource(Run(s, events).memory.sources[id]);
    ReloadValidIff(WithDefaults(s.base).sources[id], s.memory.sources[id], History(s, events, id));
  }

  /** And starting again is possible at all if and only if every source is reloadable. */
  lemma RestartSucceedsIff(s: State, events: seq<Event>)
    requires JustStarted(s) && OnlyDeliveries(events) && Run(s, events).running
    ensures Load(s.base, Run(s, events).overlay).Some? <==> AllReloadable(s, events)
  {
    var after := Run(s, events);
    ReloadedSources(s, events);
    LoadIs(after);
    ValidSourceBySource(ReloadedConfig(after), after.memory);
    forall id | id in s.memory.sources
      ensures id in WithDefaults(s.base).sources
      ensures ValidSource(ReloadedConfig(after).sources[id]) <==>
              SourceReloadable(WithDefaults(s.base).sources[id], s.memory.sources[id], History(s, events, id))
    {
      ReloadedSourceValid(s, events, id);
    }
  }

  // ---- Two accepted envelopes after which the connector does not start ----

  function ExampleSource(reader: string, executor: string): Source {
    Source(true, Execution, Local, "h", 5432, "d", VerifyFull, "",
           Credential(reader, SecretRef("p", "r")), Credential(executor, SecretRef("p", "e")), EXAMPLE_SAFETY)
  }

  function ExampleConfig(id: string, reader: string, executor: string): Config {
    Config(true, map[id := ExampleSource(reader, executor)])
  }

  function ExampleConnection(reader: string, executor: string): Connection {
    Connection("h", 5432, "d", reader, executor, VerifyFull)
  }

  lemma ExampleIsValid(id: string, reader: string, executor: string)
    requires IsUuid(id) && IsIdentifier(reader) && IsIdentifier(executor)
    ensures ValidConfig(ExampleConfig(id, reader, executor)) <==> reader != executor
    ensures WithDefaults(ExampleConfig(id, reader, executor)) == ExampleConfig(id, reader, executor)
  {
    var c := ExampleConfig(id, reader, executor);
    assert id in c.sources;
    ExampleSafetyIsValid();
    assert ValidSource(c.sources[id]) <==> reader != executor;
  }

  lemma ExampleStarts(id: string)
    requires IsUuid(id)
    ensures var base := ExampleConfig(id, "r", "x");
            Load(base, map[]) == Some(base)
  {
    var base := ExampleConfig(id, "r", "x");
    ExampleIsValid(id, "r", "x");
    var merged := map k | k in base.sources :: Merged(base.sources[k], map[], k);
    assert merged == base.sources;
  }

  lemma ExamplePrepares(id: string, reader: string, executor: string, c: Connection, role: string)
    requires IsUuid(id) && c == ExampleConnection(c.readerRole, c.executorRole)
    requires role == (if c.executorRole != "" then c.executorRole else executor)
    requires IsIdentifier(c.readerRole) && IsIdentifier(role) && c.readerRole != role
    ensures Prepare(ExampleConfig(id, reader, executor), id, c) == Ok(ExampleSource(c.readerRole, role))
  {
    var config := ExampleConfig(id, reader, executor);
    ExampleIsValid(id, c.readerRole, role);
    assert Configured(config.sources[id], c) == ExampleSource(c.readerRole, role);
    assert config.sources[id := ExampleSource(c.readerRole, role)] == ExampleConfig(id, c.readerRole, role).sources;
  }

  lemma CleanDelivery(s: State, d: Delivery, candidate: Source)
    requires s.running && d.envelope !in s.ledger && d.opening.Ok?
    ensures DeliverWith(s, d, Ok(candidate), NO_FAULT) ==
            State(s.base, s.overlay[d.source := d.opening.value], s.ledger[d.envelope := Applied], true,
                  s.memory.(sources := s.memory.sources[d.source := candidate]),
                  s.sent + [Acknowledgement(d.envelope, Applied)])
  {
  }

  lemma ExampleReloads(id: string, reader: string)
    requires IsUuid(id) && IsIdentifier(reader)
    ensures Load(ExampleConfig(id, "r", "x"), map[id := ExampleConnection(reader, "")])
            == if reader == "x" then None else Some(ExampleConfig(id, reader, "x"))
  {
    var base := ExampleConfig(id, "r", "x");
    ExampleIsValid(id, "r", "x");
    ExampleIsValid(id, reader, "x");
    var overlay := map[id := ExampleConnection(reader, "")];
    var merged := map k | k in base.sources :: Merged(base.sources[k], overlay, k);
    assert merged == ExampleConfig(id, reader, "x").sources;
  }

  /**
    The file names executor "x". A first envelope moves the executor to "y"; a second one sets a
    reader and names no executor.
    */
  lemma ExampleForgets(id: string, reader: string)
    requires IsUuid(id) && IsIdentifier(reader) && reader != "y"
    ensures var base := ExampleConfig(id, "r", "x");
            var started := State(base, map[], map[], true, base, []);
            var one := Delivery("1", id, Ok(ExampleConnection("r", "y")));
            var two := Delivery("2", id, Ok(ExampleConnection(reader, "")));
            && JustStarted(started)
            && Deliver(Deliver(started, one, NO_FAULT), two, NO_FAULT)
               == State(base, map[id := two.opening.value], map["1" := Applied, "2" := Applied], true,
                        ExampleConfig(id, reader, "y"), [Acknowledgement("1", Applied), Acknowledgement("2", Applied)])
  {
    var base := ExampleConfig(id, "r", "x");
    ExampleStarts(id);
    var started := State(base, map[], map[], true, base, []);
    var one := Delivery("1", id, Ok(ExampleConnection("r", "y")));
    ExamplePrepares(id, "r", "x", ExampleConnection("r", "y"), "y");
    CleanDelivery(started, one, ExampleSource("r", "y"));
    var mid := Deliver(started, one, NO_FAULT);
    assert base.sources[id := ExampleSource("r", "y")] == ExampleConfig(id, "r", "y").sources;
    assert mid.memory == ExampleConfig(id, "r", "y");
    var c := ExampleConnection(reader, "");
    ExamplePrepares(id, "r", "y", c, "y");
    CleanDelivery(mid, Delivery("2", id, Ok(c)), ExampleSource(reader, "y"));
    assert mid.memory.sources[id := ExampleSource(reader, "y")] == ExampleConfig(id, reader, "y").sources;
    var none: Overlay := map[];
    assert none[id := ExampleConnection("r", "y")][id := c] == map[id := c];
  }

  /** If the second envelope makes "x" the reader, the next start is refused. */
  lemma RestartCanBeRefused(id: string)
    requires IsUuid(id)
    ensures var base := ExampleConfig(id, "r", "x");
            var started := State(base, map[], map[], true, base, []);
            var one := Delivery("1", id, Ok(ExampleConnection("r", "y")));
            var two := Delivery("2", id, Ok(ExampleConnection("x", "")));
            var after := Deliver(Deliver(started, one, NO_FAULT), two, NO_FAULT);
            && JustStarted(started) && after.running
            && after.ledger == map["1" := Applied, "2" := Applied]
            && Load(base, after.overlay).None?
  {
    ExampleForgets(id, "x");
    ExampleReloads(id, "x");
  }

  /** With any other reader it starts, and will delete as the file's role instead of the one in memory. */
  lemma RestartCanChangeRole(id: string)
    requires IsUuid(id)
    ensures var base := ExampleConfig(id, "r", "x");
            var started := State(base, map[], map[], true, base, []);
            var one := Delivery("1", id, Ok(ExampleConnection("r", "y")));
            var two := Delivery("2", id, Ok(ExampleConnection("s", "")));
            var after := Deliver(Deliver(started, one, NO_FAULT), two, NO_FAULT);
            && JustStarted(started) && after.running && Restart(after).running
            && after.memory == ExampleConfig(id, "s", "y")
            && Restart(after).memory == ExampleConfig(id, "s", "x")
  {
    ExampleForgets(id, "s");
    ExampleReloads(id, "s");
  }

  // ---- Re-applying after a crash ----

  /** The last connection a run puts on disk for a source, or the one there before. Starts change nothing. */
  function LastPersisted(s: State, events: seq<Event>, id: string, there: Connection): Connection
    decreases |events|
  {
    if events == [] then there
    else
      var e := events[0];
      LastPersisted(Step(s, e), events[1..], id,
                    if e.Receive? && Persists(s, e.d, e.f) && e.d.source == id then e.d.opening.value else there)
  }

  lemma {:induction false} OverlayKeepsLast(s: State, events: seq<Event>, id: string)
    requires id in s.overlay
    ensures id in Run(s, events).overlay
    ensures Run(s, events).overlay[id] == LastPersisted(s, events, id, s.overlay[id])
    decreases |events|
  {
    if events != [] {
      var e := events[0];
      if e.Receive? {
        DeliveryEffect(s, e.d, Prepared(s, e.d), e.f);
      }
      OverlayKeepsLast(Step(s, e), events[1..], id);
    }
  }

  /** A running process already serves every connection on disk. */
  ghost predicate Reflected(s: State) {
    s.running ==>
    forall id :: id in s.overlay ==>
      id in s.memory.sources && Configured(s.memory.sources[id], s.overlay[id]) == s.memory.sources[id]
  }

  lemma StartReflects(base: Config, overlay: Overlay)
    requires Load(base, overlay).Some?
    ensures var memory := Load(base, overlay).value;
            forall id :: id in overlay ==>
              id in memory.sources && Configured(memory.sources[id], overlay[id]) == memory.sources[id]
  {
    var memory := Load(base, overlay).value;
    forall id | id in overlay
      ensures id in memory.sources && Configured(memory.sources[id], overlay[id]) == memory.sources[id]
    {
      assert memory.sources[id] == Configured(WithDefaults(base).sources[id], overlay[id]);
    }
  }

  lemma StepKeepsReflected(s: State, e: Event)
    requires Reflected(s)
    ensures Reflected(Step(s, e))
  {
    if e.Receive? {
      DeliveryEffect(s, e.d, Prepared(s, e.d), e.f);
    } else if Load(s.base, s.overlay).Some? {
      StartReflects(s.base, s.overlay);
    }
  }

  /** Over every run of deliveries, faults and starts, memory follows the disk. */
  lemma {:induction false} RunKeepsReflected(s: State, events: seq<Event>)
    requires Reflected(s)
    ensures Reflected(Run(s, events))
    decreases |events|
  {
    if events != [] {
      StepKeepsReflected(s, events[0]);
      RunKeepsReflected(Step(s, events[0]), events[1..]);
    }
  }

  /** Two connections that differ at most in the executor role. */
  predicate SameButRole(c: Connection, other: Connection) {
    c.(executorRole := other.executorRole) == other
  }

  /** The role a connection asks for is the one in force. */
  predicate RoleHolds(c: Connection, source: Source) {
    c.executorRole == "" || c.executorRole == source.executor.username
  }

  lemma ConfiguredAgainIff(source: Source, current: Connection, c: Connection)
    requires Configured(source, current) == source
    ensures Configured(source, c) == source <==> (SameButRole(c, current) && RoleHolds(c, source))
    ensures RoleHolds(current, source)
  {
  }

  /** The envelope reached the disk, has no entry, and is redelivered later: it validates and reaches the disk again. */
  ghost predicate Reapplied(s: State, d: Delivery, f: Faults, events: seq<Event>, g: Faults) {
    Persists(s, d, f) && Persists(Run(Deliver(s, d, f), events), d, g)
  }

  /** What a run leaves on disk for the source of an envelope it started by persisting. */
  function Standing(s: State, d: Delivery, f: Faults, events: seq<Event>): Connection
    requires Persists(s, d, f)
  {
    LastPersisted(Deliver(s, d, f), events, d.source, d.opening.value)
  }

  /**
    An envelope persisted but not recorded is applied again when it is redelivered, whatever crashes,
    starts and other deliveries lie in between. That leaves the disk alone if and only if the last
    connection persisted for its source since is still its own; and it leaves memory alone if and
    only if the process dies first, or that connection differs from its own at most in the executor
    role and the role it asks for is in force.
    */
  lemma ReapplyingIsHarmlessIff(s: State, d: Delivery, f: Faults, events: seq<Event>, g: Faults)
    requires Reflected(s) && Reapplied(s, d, f, events, g)
    ensures var t, c := Run(Deliver(s, d, f), events), d.opening.value;
            var standing, again := Standing(s, d, f, events), Deliver(t, d, g);
            && d.source in t.memory.sources
            && (again.overlay == t.overlay <==> standing == c)
            && (again.memory == t.memory <==>
                g.install.CrashBeforeActivate?
                || (SameButRole(c, standing) && RoleHolds(c, t.memory.sources[d.source])))
            && (standing == c ==> again.memory == t.memory)
  {
    var first, t, c := Deliver(s, d, f), Run(Deliver(s, d, f), events), d.opening.value;
    DeliveryEffect(s, d, Prepared(s, d), f);
    OverlayKeepsLast(first, events, d.source);
    StepKeepsReflected(s, Receive(d, f));
    RunKeepsReflected(first, events);
    ReappliedTo(t, d, g);
  }

  /** The same for one state: the redelivery against what is on disk and in memory. */
  lemma ReappliedTo(t: State, d: Delivery, g: Faults)
    requires Reflected(t) && Persists(t, d, g) && d.source in t.overlay
    ensures var c, standing, again := d.opening.value, t.overlay[d.source], Deliver(t, d, g);
            && d.source in t.memory.sources
            && (again.overlay == t.overlay <==> standing == c)
            && (again.memory == t.memory <==>
                g.install.CrashBeforeActivate?
                || (SameButRole(c, standing) && RoleHolds(c, t.memory.sources[d.source])))
            && (standing == c ==> again.memory == t.memory)
  {
    var c, source := d.opening.value, t.memory.sources[d.source];
    DeliveryEffect(t, d, Prepared(t, d), g);
    ConfiguredAgainIff(source, t.overlay[d.source], c);
    assert Prepared(t, d).value == Configured(source, c);
    ReplacedIff(t.overlay, d.source, c);
    ReplacedIff(t.memory.sources, d.source, Configured(source, c));
  }

  lemma ReplacedIff<T>(m: map<string, T>, key: string, value: T)
    requires key in m
    ensures m[key := value] == m <==> m[key] == value
  {
    assert m[key := value][key] == value;
  }

  /**
    It need not be harmless: the process dies between installing envelope "1" and recording it, envelope "2"
    is applied to the same source after the restart, and the redelivered "1" then replaces it.
    */
  lemma LateRedeliveryOverwrites(id: string)
    requires IsUuid(id)
    ensures var base := ExampleConfig(id, "r", "x");
            var one := Delivery("1", id, Ok(ExampleConnection("a", "")));
            var two := Delivery("2", id, Ok(ExampleConnection("b", "")));
            var started := State(base, map[], map[], true, base, []);
            var crashed := Deliver(started, one, Faults(false, InstallFine, CrashBeforeRecord));
            var newer := Deliver(Restart(crashed), two, NO_FAULT);
            var after := Deliver(newer, one, NO_FAULT);
            && newer.running && newer.overlay == map[id := two.opening.value]
            && after.running && after.overlay == map[id := one.opening.value]
            && after.ledger == map["2" := Applied, "1" := Applied]
  {
    var base := ExampleConfig(id, "r", "x");
    var a, b := ExampleConnection("a", ""), ExampleConnection("b", "");
    ExampleCrashes(id);
    ExampleMovesOn(id);
    var newer := State(base, map[id := b], map["2" := Applied], true, ExampleConfig(id, "b", "x"),
                       [Acknowledgement("2", Applied)]);
    ExampleRetries(newer, id, "b", Delivery("1", id, Ok(a)), a);
    assert newer.overlay[id := a] == map[id := a];
  }

  lemma ExampleMovesOn(id: string)
    requires IsUuid(id)
    ensures var base := ExampleConfig(id, "r", "x");
            var two := Delivery("2", id, Ok(ExampleConnection("b", "")));
            Deliver(State(base, map[id := ExampleConnection("a", "")], map[], true, ExampleConfig(id, "a", "x"), []),
                    two, NO_FAULT)
            == State(base, map[id := two.opening.value], map["2" := Applied], true, ExampleConfig(id, "b", "x"),
                     [Acknowledgement("2", Applied)])
  {
    var a, b := ExampleConnection("a", ""), ExampleConnection("b", "");
    var restarted := State(ExampleConfig(id, "r", "x"), map[id := a], map[], true, ExampleConfig(id, "a", "x"), []);
    ExampleRetries(restarted, id, "a", Delivery("2", id, Ok(b)), b);
    assert restarted.overlay[id := b] == map[id := b];
  }

  lemma CrashBeforeRecording(s: State, d: Delivery, candidate: Source)
    requires s.running && d.envelope !in s.ledger && d.opening.Ok?
    ensures DeliverWith(s, d, Ok(candidate), Faults(false, InstallFine, CrashBeforeRecord)) ==
            State(s.base, s.overlay[d.source := d.opening.value], s.ledger, false,
                  s.memory.(sources := s.memory.sources[d.source := candidate]), s.sent)
  {
  }

  lemma ExampleCrashes(id: string)
    requires IsUuid(id)
    ensures var base := ExampleConfig(id, "r", "x");
            var one := Delivery("1", id, Ok(ExampleConnection("a", "")));
            var started := State(base, map[], map[], true, base, []);
            Restart(Deliver(started, one, Faults(false, InstallFine, CrashBeforeRecord)))
            == State(base, map[id := ExampleConnection("a", "")], map[], true, ExampleConfig(id, "a", "x"), [])
  {
    var base := ExampleConfig(id, "r", "x");
    var a := ExampleConnection("a", "");
    ExamplePrepares(id, "r", "x", a, "x");
    CrashBeforeRecording(State(base, map[], map[], true, base, []), Delivery("1", id, Ok(a)), ExampleSource("a", "x"));
    ExampleReloads(id, "a");
  }

  lemma ExampleRetries(s: State, id: string, reader: string, d: Delivery, c: Connection)
    requires IsUuid(id) && s.running && s.memory == ExampleConfig(id, reader, "x")
    requires d == Delivery(d.envelope, id, Ok(c)) && d.envelope !in s.ledger
    requires c == ExampleConnection(c.readerRole, "") && IsIdentifier(c.readerRole) && c.readerRole != "x"
    ensures Deliver(s, d, NO_FAULT) ==
            State(s.base, s.overlay[id := c], s.ledger[d.envelope := Applied], true,
                  ExampleConfig(id, c.readerRole, "x"),
                  s.sent + [Acknowledgement(d.envelope, Applied)])
  {
    ExamplePrepares(id, reader, "x", c, "x");
    CleanDelivery(s, d, ExampleSource(c.readerRole, "x"));
    assert s.memory.sources[id := ExampleSource(c.readerRole, "x")] == ExampleConfig(id, c.readerRole, "x").sources;
  }

  // ---- Installed, and on record as something else ----

  /** A delivery whose entry cannot be created, or cannot be written: installed either way. */
  lemma UnrecordedDelivery(s: State, d: Delivery, candidate: Source, fault: RecordFault)
    requires s.running && d.envelope !in s.ledger && d.opening.Ok?
    requires fault.EntryNotCreated? || fault == WriteFails(0)
    ensures DeliverWith(s, d, Ok(candidate), Faults(false, InstallFine, fault)) ==
            State(s.base, s.overlay[d.source := d.opening.value],
                  if fault.EntryNotCreated? then s.ledger else s.ledger[d.envelope := Torn("")], true,
                  s.memory.(sources := s.memory.sources[d.source := candidate]), s.sent)
  {
  }

  lemma ExampleUnrecorded(id: string, fault: RecordFault)
    requires IsUuid(id) && (fault.EntryNotCreated? || fault == WriteFails(0))
    ensures var base := ExampleConfig(id, "r", "x");
            var one := Delivery("1", id, Ok(ExampleConnection("a", "")));
            Deliver(State(base, map[], map[], true, base, []), one, Faults(false, InstallFine, fault))
            == State(base, map[id := one.opening.value], if fault.EntryNotCreated? then map[] else map["1" := Torn("")],
                     true, ExampleConfig(id, "a", "x"), [])
  {
    var base := ExampleConfig(id, "r", "x");
    var a := ExampleConnection("a", "");
    ExamplePrepares(id, "r", "x", a, "x");
    UnrecordedDelivery(State(base, map[], map[], true, base, []), Delivery("1", id, Ok(a)), ExampleSource("a", "x"),
                       fault);
    assert base.sources[id := ExampleSource("a", "x")] == ExampleConfig(id, "a", "x").sources;
  }

  /**
    Envelope "1" is installed and its entry cannot be created; it is redelivered after its expiry.
    The connection stays on disk and in memory, and whatever follows, the control plane is only ever
    told that the envelope was refused.
    */
  lemma ExpiredRedeliveryHides(id: string, events: seq<Event>)
    requires IsUuid(id)
    ensures var base := ExampleConfig(id, "r", "x");
            var one := Delivery("1", id, Ok(ExampleConnection("a", "")));
            var started := State(base, map[], map[], true, base, []);
            var installed := Deliver(started, one, Faults(false, InstallFine, EntryNotCreated));
            var after := Deliver(installed, Late(one), NO_FAULT);
            && JustStarted(started) && after.running
            && after.overlay == map[id := one.opening.value] && after.memory == ExampleConfig(id, "a", "x")
            && after.ledger == map["1" := RefusedExpired]
            && SaidAbout(Run(after, events).sent, "1", 0) == {RefusedExpired}
  {
    ExampleStarts(id);
    ExampleUnrecorded(id, EntryNotCreated);
    var one := Delivery("1", id, Ok(ExampleConnection("a", "")));
    var installed := State(ExampleConfig(id, "r", "x"), map[id := one.opening.value], map[], true,
                           ExampleConfig(id, "a", "x"), []);
    ExpiryDenies(installed, one);
    SaidOnce(Deliver(installed, Late(one), NO_FAULT), events, "1", RefusedExpired);
  }

  lemma SaidOnce(s: State, events: seq<Event>, envelope: string, code: Code)
    requires envelope in s.ledger && s.ledger[envelope] == code && !code.Applied?
    requires s.sent == [Acknowledgement(envelope, code)]
    ensures SaidAbout(Run(s, events).sent, envelope, 0) == {code}
  {
    SettledAnswersNeverChange(s, events, envelope);
    var sent := Run(s, events).sent;
    assert sent[0] == s.sent[0];
    forall i | 0 < i < |sent| && sent[i].envelope == envelope ensures sent[i].code == code {
      assert sent[i].code in SaidAbout(sent, envelope, 1);
    }
  }

  /** The entry of envelope "1" is created and not written: nothing but a blank is ever said about it. */
  lemma BlankEntryHides(id: string, events: seq<Event>)
    requires IsUuid(id)
    ensures var base := ExampleConfig(id, "r", "x");
            var one := Delivery("1", id, Ok(ExampleConnection("a", "")));
            var after :=
              Deliver(State(base, map[], map[], true, base, []), one, Faults(false, InstallFine, WriteFails(0)));
            && after.running && after.overlay == map[id := one.opening.value]
            && after.memory == ExampleConfig(id, "a", "x")
            && after.ledger == map["1" := Torn("")]
            && SaidAbout(Run(after, events).sent, "1", 0) <= {Torn("")}
  {
    ExampleUnrecorded(id, WriteFails(0));
    var base := ExampleConfig(id, "r", "x");
    var one := Delivery("1", id, Ok(ExampleConnection("a", "")));
    var after := Deliver(State(base, map[], map[], true, base, []), one, Faults(false, InstallFine, WriteFails(0)));
    SettledAnswersNeverChange(after, events, "1");
  }
}
