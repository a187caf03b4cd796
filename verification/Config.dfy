/**
  The connector's configuration (internal/config/config.go, internal/config/managed.go) and the
  candidate a sealed envelope produces (internal/sealedconfig/apply.go). The parts of the file no
  envelope can reach - control plane, directories, telemetry - are one validity flag.
  */
module Config {
  import opened Outcomes
  import opened Conditions
  import opened Policy

  datatype SecretRef = SecretRef(provider: string, ref: string)

  datatype Credential = Credential(username: string, password: SecretRef)

  datatype Mode = UnsetMode | DiscoveryOnly | Execution | OtherMode(name: string)

  datatype ConfiguredBy = UnsetOwner | Local | RetentionOps | OtherOwner(name: string)

  datatype TlsMode = UnsetTls | VerifyFull | VerifyCA | Require | OtherTls(name: string)

  datatype Source = Source(
    postgres: bool,
    mode: Mode,
    configuredBy: ConfiguredBy,
    host: string,
    port: int,
    database: string,
    tlsMode: TlsMode,
    caFile: string,
    reader: Credential,
    executor: Credential,
    safety: Safety)

  type Sources = map<string, Source>

  datatype Config = Config(validHeader: bool, sources: Sources)

  /** All an envelope may set on a source, and all the overlay keeps of it. */
  datatype Connection = Connection(
    host: string,
    port: int,
    database: string,
    readerRole: string,
    executorRole: string,
    tlsMode: TlsMode)

  type Overlay = map<string, Connection>

  // ---- Validation ----

  predicate IsUuid(id: string) {
    |id| == 36 && forall i :: 0 <= i < 36 ==>
      if i == 8 || i == 13 || i == 18 || i == 23 then id[i] == '-' else '0' <= id[i] <= '9' || 'a' <= id[i] <= 'f'
  }

  predicate Pending(s: Source) {
    s.configuredBy.RetentionOps? && (s.host == "" || s.database == "")
  }

  predicate ValidCredential(c: Credential) {
    IsIdentifier(c.username) && c.password.provider != "" && c.password.ref != ""
  }

  predicate ValidPending(s: Source) {
    && !GrantsDelete(s.safety)
    && !s.mode.Execution?
    && s.reader.password.provider != "" && s.reader.password.ref != ""
    && (s.safety.allowedSchemas == [] || ValidSafety(s.safety))
  }

  predicate NamesExecutor(s: Source) {
    s.executor.username != "" || s.executor.password.provider != "" || s.executor.password.ref != ""
  }

  predicate ValidExecutor(s: Source) {
    if NamesExecutor(s) then ValidCredential(s.executor) && s.executor.username != s.reader.username
    else !GrantsDelete(s.safety)
  }

  predicate ValidConnected(s: Source) {
    && s.host != "" && s.database != ""
    && 1 <= s.port <= 65535
    && (match s.mode
        case DiscoveryOnly => !GrantsDelete(s.safety)
        case Execution => GrantsDelete(s.safety)
        case _ => false)
    && (s.tlsMode.VerifyFull? || s.tlsMode.VerifyCA? || s.tlsMode.Require?)
    && ValidCredential(s.reader)
    && ValidExecutor(s)
    && ((s.safety.allowedSchemas == [] && s.configuredBy.RetentionOps? && !GrantsDelete(s.safety))
        || ValidSafety(s.safety))
  }

  predicate ValidSource(s: Source) {
    && s.postgres && !s.configuredBy.OtherOwner?
    && if Pending(s) then ValidPending(s) else ValidConnected(s)
  }

  predicate ValidConfig(c: Config) {
    && c.validHeader
    && c.sources != map[]
    && forall id :: id in c.sources ==> IsUuid(id) && ValidSource(c.sources[id])
  }

  // ---- Defaults, overlay, load ----

  function SourceDefaults(s: Source): Source {
    s.(port := if s.port == 0 then 5432 else s.port,
       tlsMode := if s.tlsMode.UnsetTls? then VerifyFull else s.tlsMode,
       mode := if !s.mode.UnsetMode? then s.mode else if GrantsDelete(s.safety) then Execution else DiscoveryOnly,
       safety := if s.safety.drift.mode.Unset?
                 then s.safety.(drift := DriftPolicy(Bounded, 1000, 100, 50))
                 else s.safety)
  }

  function WithDefaults(c: Config): Config {
    c.(sources := map id | id in c.sources :: SourceDefaults(c.sources[id]))
  }

  /** A source with a connection's settings; an empty executor role leaves the role it had. */
  function Configured(s: Source, c: Connection): Source {
    s.(host := c.host, port := c.port, database := c.database, tlsMode := c.tlsMode,
       reader := s.reader.(username := c.readerRole),
       executor := if c.executorRole != "" then s.executor.(username := c.executorRole) else s.executor)
  }

  function Merged(s: Source, overlay: Overlay, id: string): Source {
    if id in overlay then Configured(s, overlay[id]) else s
  }

  /** ApplyManagedOverlay in place, or the error an overlay naming an undeclared source gets. */
  method ApplyManagedOverlay(base: Sources, overlay: Overlay) returns (r: Option<Sources>)
    ensures r.Some? <==> overlay.Keys <= base.Keys
    ensures r.Some? ==> r.value == map id | id in base :: Merged(base[id], overlay, id)
  {
    var sources := base;
    var todo := overlay.Keys;
    while todo != {}
      invariant todo <= overlay.Keys && overlay.Keys - todo <= base.Keys
      invariant sources.Keys == base.Keys
      invariant forall id :: id in base ==>
                  sources[id] == if id in todo then base[id] else Merged(base[id], overlay, id)
      decreases |todo|
    {
      var id :| id in todo;
      if id !in sources {
        return None;
      }
      sources := sources[id := Configured(sources[id], overlay[id])];
      todo := todo - {id};
    }
    return Some(sources);
  }

  /** Load: defaults, then the overlay, then validation; base is the operator's parsed file. */
  function Load(base: Config, overlay: Overlay): Option<Config> {
    var defaulted := WithDefaults(base);
    if !(overlay.Keys <= defaulted.sources.Keys) then None
    else
      var merged :=
        defaulted.(sources := map id | id in defaulted.sources :: Merged(defaulted.sources[id], overlay, id));
      if ValidConfig(merged) then Some(merged) else None
  }

  /** The loop of applyDefaults, in place. */
  method ApplyDefaults(c: Config) returns (r: Config)
    ensures r == WithDefaults(c)
  {
    var sources := c.sources;
    var todo := c.sources.Keys;
    while todo != {}
      invariant todo <= c.sources.Keys == sources.Keys
      invariant forall id :: id in c.sources ==>
                  sources[id] == if id in todo then c.sources[id] else SourceDefaults(c.sources[id])
      decreases |todo|
    {
      var id :| id in todo;
      sources := sources[id := SourceDefaults(sources[id])];
      todo := todo - {id};
    }
    assert sources == WithDefaults(c).sources;
    return c.(sources := sources);
  }

  method LoadConfig(base: Config, overlay: Overlay) returns (r: Option<Config>)
    ensures r == Load(base, overlay)
  {
    var config := ApplyDefaults(base);
    var merged := ApplyManagedOverlay(config.sources, overlay);
    if merged.None? {
      return None;
    }
    config := config.(sources := merged.value);
    return if ValidConfig(config) then Some(config) else None;
  }

  // ---- The candidate of a sealed envelope ----

  datatype Refused = UnknownSource | InvalidConfiguration

  /** Prepare: the source as it would become, once the whole resulting configuration is valid. */
  function Prepare(c: Config, id: string, proposal: Connection): Result<Source, Refused> {
    if id !in c.sources then Err(UnknownSource)
    else
      var candidate := Configured(c.sources[id], proposal);
      if ValidConfig(c.(sources := c.sources[id := candidate])) then Ok(candidate) else Err(InvalidConfiguration)
  }

  /** Prepare as it runs: the sources are cloned one by one, and the clone is judged. */
  method PrepareCandidate(c: Config, id: string, proposal: Connection) returns (r: Result<Source, Refused>)
    ensures r == Prepare(c, id, proposal)
  {
    if id !in c.sources {
      return Err(UnknownSource);
    }
    var candidate := Configured(c.sources[id], proposal);
    var cloned: Sources := map[];
    var todo := c.sources.Keys;
    while todo != {}
      invariant todo <= c.sources.Keys && cloned.Keys == c.sources.Keys - todo
      invariant forall k :: k in cloned ==> cloned[k] == c.sources[k]
      decreases |todo|
    {
      var k :| k in todo;
      cloned := cloned[k := c.sources[k]];
      todo := todo - {k};
    }
    assert cloned == c.sources;
    var proposed := c.(sources := cloned[id := candidate]);
    return if ValidConfig(proposed) then Ok(candidate) else Err(InvalidConfiguration);
  }

  // ---- What acceptance means ----

  predicate HasSecret(c: Credential) {
    c.password.provider != "" && c.password.ref != ""
  }

  /** The mode says execution exactly when the policy grants deletes, and is one of the two there are. */
  predicate ModeFits(s: Source) {
    s.mode == if GrantsDelete(s.safety) then Execution else DiscoveryOnly
  }

  /** A policy that can be served; only a source the console configures may still lack its schemas. */
  predicate PolicyFits(s: Source) {
    ValidSafety(s.safety)
    || (s.safety.allowedSchemas == [] && s.configuredBy.RetentionOps? && !GrantsDelete(s.safety))
  }

  /** What a connection has to be for a source to accept it. */
  predicate Fits(s: Source, c: Connection) {
    if s.configuredBy.RetentionOps? && (c.host == "" || c.database == "") then
      !GrantsDelete(s.safety) && !s.mode.Execution? && PolicyFits(s)
    else
      && c.host != "" && c.database != "" && 1 <= c.port <= 65535
      && c.tlsMode in {VerifyFull, VerifyCA, Require}
      && IsIdentifier(c.readerRole)
      && ModeFits(s) && PolicyFits(s)
      && var role := if c.executorRole != "" then c.executorRole else s.executor.username;
         if role == "" && s.executor.password == SecretRef("", "") then !GrantsDelete(s.safety)
         else IsIdentifier(role) && HasSecret(s.executor) && role != c.readerRole
  }

  lemma FitsIff(s: Source, c: Connection)
    requires s.postgres && !s.configuredBy.OtherOwner? && HasSecret(s.reader)
    ensures ValidSource(Configured(s, c)) <==> Fits(s, c)
  {
  }

  lemma ValidHasLocalParts(s: Source)
    requires ValidSource(s)
    ensures s.postgres && !s.configuredBy.OtherOwner? && HasSecret(s.reader)
  {
  }

  /** Against a valid configuration a connection is accepted if and only if its source is declared and it fits there. */
  lemma PrepareAcceptsIff(config: Config, id: string, c: Connection)
    requires ValidConfig(config)
    ensures Prepare(config, id, c).Ok? <==> id in config.sources && Fits(config.sources[id], c)
    ensures Prepare(config, id, c).Ok? ==> Prepare(config, id, c).value == Configured(config.sources[id], c)
    ensures Prepare(config, id, c) == Err(UnknownSource) <==> id !in config.sources
  {
    if id in config.sources {
      var s := config.sources[id];
      ValidHasLocalParts(s);
      FitsIff(s, c);
      ReplacementDecides(config, id, Configured(s, c));
    }
  }

  /** Replacing one source of a valid configuration leaves it valid exactly when the new one is. */
  lemma ReplacementDecides(config: Config, id: string, s: Source)
    requires ValidConfig(config) && id in config.sources
    ensures ValidConfig(config.(sources := config.sources[id := s])) <==> ValidSource(s)
  {
    var proposed := config.(sources := config.sources[id := s]);
    assert id in proposed.sources && proposed.sources[id] == s;
    assert forall k :: k in proposed.sources && k != id ==> proposed.sources[k] == config.sources[k];
  }

  /** What every source of a configuration that is loaded or prepared satisfies. */
  lemma ServedSource(config: Config, id: string)
    requires ValidConfig(config) && id in config.sources
    ensures var s := config.sources[id];
            && HasSecret(s.reader) && PolicyFits(s)
            && (Pending(s) ==> !GrantsDelete(s.safety) && !s.mode.Execution?)
            && (!Pending(s) ==>
                  && s.host != "" && s.database != "" && 1 <= s.port <= 65535
                  && s.tlsMode in {VerifyFull, VerifyCA, Require}
                  && IsIdentifier(s.reader.username) && ModeFits(s))
            && (s.mode.Execution? ==>
                  && !Pending(s) && ValidSafety(s.safety) && GrantsDelete(s.safety)
                  && IsIdentifier(s.executor.username) && HasSecret(s.executor)
                  && s.executor.username != s.reader.username)
  {
    assert ValidSource(config.sources[id]);
  }

  /** Defaults fill what is not set and leave everything else; a second time they change nothing. */
  lemma DefaultsFillGaps(s: Source)
    ensures var d := SourceDefaults(s);
            && SourceDefaults(d) == d
            && d == s.(port := d.port, tlsMode := d.tlsMode, mode := d.mode,
                       safety := s.safety.(drift := d.safety.drift))
            && d.port == (if s.port == 0 then 5432 else s.port)
            && d.tlsMode == (if s.tlsMode.UnsetTls? then VerifyFull else s.tlsMode)
            && (if s.mode.UnsetMode? then ModeFits(d) else d.mode == s.mode)
            && d.safety.drift
               == (if s.safety.drift.mode.Unset? then DriftPolicy(Bounded, 1000, 100, 50) else s.safety.drift)
  {
  }

  /** What no envelope may change about a source. */
  predicate SameLocalParts(a: Source, b: Source) {
    && a.postgres == b.postgres && a.mode == b.mode && a.configuredBy == b.configuredBy && a.caFile == b.caFile
    && a.safety == b.safety
    && a.reader.password == b.reader.password && a.executor.password == b.executor.password
  }

  /** Same sources, same local parts of each. */
  predicate SameLocalConfig(a: Config, b: Config) {
    && a.validHeader == b.validHeader && a.sources.Keys == b.sources.Keys
    && forall id :: id in a.sources ==> SameLocalParts(a.sources[id], b.sources[id])
  }

  /** What PolicyDigest canonicalizes and hashes. */
  function Policies(c: Config): map<string, Safety> {
    map id | id in c.sources :: c.sources[id].safety
  }

  lemma SameLocalMeansSamePolicies(a: Config, b: Config)
    requires SameLocalConfig(a, b)
    ensures Policies(a) == Policies(b)
  {
    assert forall id :: id in a.sources ==> a.sources[id].safety == b.sources[id].safety;
  }
}
