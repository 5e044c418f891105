/** What `agent init` writes and what `RuntimeConfig.from_mapping` accepts. */
module InitValidity {
  import opened Prelude
  import opened Text
  import opened Configuration
  import opened ProfileInit
  import opened ProfileValidity

  // ------------------------------------------------- what init does not check

  predicate StoreArgsOk(s: StoreArgs) {
    s.backend == "memory" || ((s.backend == "file" || s.backend == "sqlite") && !IsBlank(s.path))
  }

  predicate SettingsOk(m: Preset) {
    && !IsBlank(m.name)
    && m.timeoutSeconds > 0.0
    && (m.provider == "openai_chat_completions" && m.responseFormat.Some? ==> ListedFormat(m.responseFormat.value))
  }

  predicate ModelArgsOk(m: ModelArgs) {
    var settings := ResolvedSettings(m.preset, m.settings);
    settings.Some? && SettingsOk(settings.value)
  }

  /** A domain of a multi-domain profile needs a name and a version, and a key of its own. */
  ghost predicate DomainsOk(configs: seq<DomainValues>) {
    && (forall i :: 0 <= i < |configs| ==> ParseDomain(configs[i]).Some? && Identified(ParseDomain(configs[i]).value))
    && (forall i, j :: 0 <= i < j < |configs| ==>
          DomainKey(ParseDomain(configs[i]).value) != DomainKey(ParseDomain(configs[j]).value))
  }

  function Configs(args: InitArgs): (r: seq<DomainValues>)
    ensures |r| == 1 + |args.withDomains|
  {
    [args.primary.config] +
    seq(|args.withDomains|, i requires 0 <= i < |args.withDomains| => args.withDomains[i].config)
  }

  /** What must hold of the arguments besides init's own checks. */
  ghost predicate WellFormed(args: InitArgs) {
    && ModelArgsOk(args.model)
    && StoreArgsOk(args.store) && StoreArgsOk(args.queue) && StoreArgsOk(args.locks) && StoreArgsOk(args.workers)
    && (args.retentionSeconds.Some? ==> args.retentionSeconds.value > 0.0)
    && InitDomainsOk(args)
    && SecretsParse(args.primary.secrets)
    && (forall i :: 0 <= i < |args.withDomains| ==> SecretsParse(args.withDomains[i].secrets))
  }

  // --------------------------------------------------------------- the pieces

  lemma StoreAccepted(s: StoreArgs)
    ensures ParseStore(StorePayload(s)).Some? <==> StoreArgsOk(s)
  {
  }

  lemma ModelAccepted(m: Preset, endpoint: Option<string>, hasKey: bool, keySecret: string,
                      headers: map<string, string>)
    requires ModelPayload(m, endpoint, hasKey, keySecret, headers).Some?
    requires hasKey ==> !IsBlank(keySecret)
    ensures var parsed := ParseModel(ModelPayload(m, endpoint, hasKey, keySecret, headers).value);
            && (parsed.Some? <==> SettingsOk(m))
            && (parsed.Some? ==> parsed.value.apiKeySecret == if hasKey then Some(keySecret) else None)
  {
    var v := ModelPayload(m, endpoint, hasKey, keySecret, headers).value;
    assert v.provider == Present(m.provider) && v.name == Present(m.name);
    assert v.timeoutSeconds == Present(m.timeoutSeconds);
    assert v.apiKeySecret == if hasKey then Present(keySecret) else Absent;
    assert ParseProvider(v.provider) == ProviderNamed(m.provider);
    assert ProviderNamed(m.provider).Some?;
  }

  lemma KeySecretParses(name: string, source: (string, string))
    requires KeySecret(name, source).Some? && (source.0 == "env" || source.0 == "file")
    ensures SecretsParse(KeySecret(name, source).value) && KeySecret(name, source).value.Keys == {name}
    ensures !IsBlank(name)
  {
    var body := SecretValues(Present(source.0), Present(source.1), Present(true));
    assert ParseSource(body.source).Some?;
    assert ParseSecret(name, Present(body)).Some?;
  }

  lemma JoinedSecretsParse(have: SecretTable, more: SecretTable)
    requires have.Keys !! more.Keys
    ensures SecretsParse(have + more) <==> SecretsParse(have) && SecretsParse(more)
  {
    var joined := have + more;
    assert forall n :: n in have ==> n in joined && joined[n] == have[n];
    assert forall n :: n in more ==> n in joined && joined[n] == more[n];
  }

  lemma {:induction false} AllSecretsParse(have: SecretTable, domains: seq<ResolvedDomain>)
    requires AddAllSecrets(have, domains).Some?
    ensures have.Keys <= AddAllSecrets(have, domains).value.Keys
    ensures SecretsParse(AddAllSecrets(have, domains).value) <==>
            SecretsParse(have) && forall i :: 0 <= i < |domains| ==> SecretsParse(domains[i].secrets)
    decreases |domains|
  {
    if domains != [] {
      var first, rest := domains[0], domains[1..];
      JoinedSecretsParse(have, first.secrets);
      AllSecretsParse(have + first.secrets, rest);
      assert forall i :: 1 <= i < |domains| ==> domains[i] == rest[i - 1];
      assert forall i :: 0 <= i < |rest| ==> rest[i] == domains[i + 1];
    }
  }

  lemma DomainListAccepted(args: InitArgs)
    requires args.withDomains != []
    ensures var items := [Present(args.primary.config)] + Items(args.withDomains);
            DomainsOk(Configs(args)) <==>
            && ItemsParse(items)
            && (forall i :: 0 <= i < |items| ==> Identified(ParsedItems(items)[i]))
            && DistinctKeys(ParsedItems(items))
  {
    var items, configs := [Present(args.primary.config)] + Items(args.withDomains), Configs(args);
    assert |items| == |configs| && forall i :: 0 <= i < |items| ==> items[i] == Present(configs[i]);
    assert forall i :: 0 <= i < |items| ==> ParseItem(items[i]) == ParseDomain(configs[i]);
    if ItemsParse(items) {
      assert forall i :: 0 <= i < |items| ==> ParsedItems(items)[i] == ParseDomain(configs[i]).value;
    }
  }

  // -------------------------------------------------------------- the theorem

  /** The parts init always writes. */
  predicate InitShape(v: RuntimeValues) {
    && v.environment.Present? && v.model.Present? && v.store.Present? && v.distributedQueue.Present?
    && v.distributedLocks.Present? && v.distributedWorkers.Present? && v.domain.Present?
    && v.packagePaths.Absent? && (v.retentionSeconds.Absent? || v.retentionSeconds.Present?)
    && v.limits == Present(NO_LIMITS_VALUES.(maxIterations := Present(20), maxRecoverySteps := Present(8)))
  }

  lemma InfrastructureAccepted(v: RuntimeValues)
    requires InitShape(v)
    ensures ParseInfrastructure(v).Some? <==>
            && ParseStore(v.store.value).Some? && ParseStore(v.distributedQueue.value).Some?
            && ParseStore(v.distributedLocks.value).Some? && ParseStore(v.distributedWorkers.value).Some?
    ensures ParseInfrastructure(v).Some? ==>
              var i := ParseInfrastructure(v).value;
              && i.retentionSeconds == Optional(v.retentionSeconds).value
              && ValidStore(i.store) && ValidStore(i.queue) && ValidStore(i.locks) && ValidStore(i.workers)
              && ValidLimits(i.limits)
  {
    assert ParseLimits(v.limits.value) == Some(LimitsConfig(20, 8, None, None));
  }

  /** When domains, secrets and model parse, what is left to decide. */
  lemma ParseRuntimeDecided(v: RuntimeValues, domains: seq<DomainConfig>, domain: DomainConfig,
                            secrets: map<string, SecretRef>, model: ModelConfig)
    requires InitShape(v)
    requires ParseDomains(v.domains) == Some(domains)
    requires PrimaryDomain(domains, v.domain.value) == Some(domain)
    requires ParseSecrets(v.secrets) == Some(secrets)
    requires ParseModel(v.model.value) == Some(model)
    requires model.apiKeySecret.Some? ==> model.apiKeySecret.value in secrets
    ensures ParseRuntime(v).Some? <==>
            && ParseInfrastructure(v).Some?
            && (v.retentionSeconds.Present? ==> v.retentionSeconds.value > 0.0)
            && (forall i :: 0 <= i < |domains| ==> ValidDomain(domains[i]) && Identified(domains[i]))
            && (domains != [] ==> DistinctKeys(domains))
  {
    InfrastructureAccepted(v);
    if ParseInfrastructure(v).Some? {
      var c := Assembled(v.environment.value, secrets, model, ParseInfrastructure(v).value, domain, domains, []);
      ReadFromParses(v, c);
      InitConfigValidIff(c);
    }
  }

  lemma InitConfigValidIff(c: RuntimeConfig)
    requires forall name :: name in c.secrets ==> c.secrets[name].name == name && ValidSecret(c.secrets[name])
    requires ValidModel(c.model) && (c.model.apiKeySecret.Some? ==> c.model.apiKeySecret.value in c.secrets)
    requires ValidStore(c.store) && ValidStore(c.distributedQueue)
    requires ValidStore(c.distributedLocks) && ValidStore(c.distributedWorkers)
    requires ValidLimits(c.limits) && c.packagePaths == []
    requires if c.domains != [] then c.domain == c.domains[0] else ValidDomain(c.domain)
    ensures ValidRuntime(c) <==>
            && (c.retentionSeconds.Some? ==> c.retentionSeconds.value > 0.0)
            && (forall i :: 0 <= i < |c.domains| ==> ValidDomain(c.domains[i]) && Identified(c.domains[i]))
            && (c.domains != [] ==> DistinctKeys(c.domains))
  {
    assert DistinctKeys([c.domain]) && DistinctKeys([]);
    assert UniqueNonEmpty([]);
  }

  /** A document whose domains, secrets or model do not parse is refused. */
  lemma ParseRuntimeRefuses(v: RuntimeValues)
    requires v.domain.Present? && v.model.Present?
    requires ParseDomains(v.domains).None? || ParseSecrets(v.secrets).None? || ParseModel(v.model.value).None?
          || PrimaryDomain(ParseDomains(v.domains).value, v.domain.value).None?
    ensures ParseRuntime(v).None?
  {
  }

  /** The model and the secrets init writes: when they parse, and that the key is declared. */
  lemma ModelAndSecretsAccepted(args: InitArgs)
    requires RuntimePayload(args).Some?
    ensures var v := RuntimePayload(args).value;
            var settings := ResolvedSettings(args.model.preset, args.model.settings);
            && v.model.Present? && settings.Some?
            && (ParseModel(v.model.value).Some? <==> SettingsOk(settings.value))
            && (ParseSecrets(v.secrets).Some? <==>
                  SecretsParse(args.primary.secrets)
                  && forall i :: 0 <= i < |args.withDomains| ==> SecretsParse(args.withDomains[i].secrets))
            && (ParseModel(v.model.value).Some? && ParseSecrets(v.secrets).Some? ==>
                  var key := ParseModel(v.model.value).value.apiKeySecret;
                  key.Some? ==> key.value in ParseSecrets(v.secrets).value)
  {
    var settings := ResolvedSettings(args.model.preset, args.model.settings).value;
    var source := SecretSourceOf(args.model.apiKeyEnv, args.model.apiKeyFile).value;
    var base := BaseSecrets(args).value;
    var all := AddAllSecrets(base, args.withDomains).value;
    AllSecretsParse(base, args.withDomains);
    if source.Some? {
      KeySecretParses(args.model.apiKeySecret, source.value);
      var key := KeySecret(args.model.apiKeySecret, source.value).value;
      JoinedSecretsParse(key, args.primary.secrets);
      assert args.model.apiKeySecret in base;
    } else {
      assert map[] + args.primary.secrets == args.primary.secrets;
    }
    ModelAccepted(settings, args.model.endpoint, source.Some?, args.model.apiKeySecret, args.model.headers);
    assert all == map[] ==> SecretsParse(all);
  }

  /** What init writes where nothing can go wrong. */
  lemma SectionOf(args: InitArgs)
    requires RuntimePayload(args).Some?
    ensures var v := RuntimePayload(args).value;
            && InitShape(v) && v.retentionSeconds == Given(args.retentionSeconds)
            && v.store.value == StorePayload(args.store) && v.distributedQueue.value == StorePayload(args.queue)
            && v.distributedLocks.value == StorePayload(args.locks)
            && v.distributedWorkers.value == StorePayload(args.workers)
            && SectionDomains(args, v)
  {
  }

  predicate SectionDomains(args: InitArgs, v: RuntimeValues) {
    && v.domain == Present(args.primary.config)
    && v.domains == if args.withDomains == [] then Absent
                    else Present([Present(args.primary.config)] + Items(args.withDomains))
  }

  lemma InfrastructureAcceptedIff(args: InitArgs)
    requires RuntimePayload(args).Some?
    ensures ParseInfrastructure(RuntimePayload(args).value).Some? <==>
            StoreArgsOk(args.store) && StoreArgsOk(args.queue) && StoreArgsOk(args.locks) && StoreArgsOk(args.workers)
  {
    SectionOf(args);
    StoreAccepted(args.store);
    StoreAccepted(args.queue);
    StoreAccepted(args.locks);
    StoreAccepted(args.workers);
    InfrastructureAccepted(RuntimePayload(args).value);
  }

  ghost predicate InitDomainsOk(args: InitArgs) {
    if args.withDomains == [] then ParseDomain(args.primary.config).Some? else DomainsOk(Configs(args))
  }

  lemma DomainsAcceptedIff(args: InitArgs, v: RuntimeValues)
    requires SectionDomains(args, v)
    ensures var domains := ParseDomains(v.domains);
            InitDomainsOk(args) <==>
            && domains.Some?
            && PrimaryDomain(domains.value, v.domain.value).Some?
            && (forall i :: 0 <= i < |domains.value| ==>
                  ValidDomain(domains.value[i]) && Identified(domains.value[i]))
            && (domains.value != [] ==> DistinctKeys(domains.value))
  {
    if args.withDomains != [] {
      DomainListAccepted(args);
    }
  }

  /**
   Whatever arguments init accepts, `from_mapping` accepts the runtime section it
   writes if and only if the arguments are well formed where init does not look.
   */
  lemma InitOutputAcceptedIff(args: InitArgs)
    requires RuntimePayload(args).Some?
    ensures ParseRuntime(RuntimePayload(args).value).Some? <==> WellFormed(args)
  {
    SectionOf(args);
    ModelAndSecretsAccepted(args);
    InfrastructureAcceptedIff(args);
    DomainsAcceptedIff(args, RuntimePayload(args).value);
    AcceptedIffParts(RuntimePayload(args).value);
  }

  /** A section of init's shape is accepted if and only if each of its parts is. */
  lemma AcceptedIffParts(v: RuntimeValues)
    requires InitShape(v)
    requires ParseModel(v.model.value).Some? && ParseSecrets(v.secrets).Some? ==>
               var key := ParseModel(v.model.value).value.apiKeySecret;
               key.Some? ==> key.value in ParseSecrets(v.secrets).value
    ensures var domains := ParseDomains(v.domains);
            ParseRuntime(v).Some? <==>
            && ParseModel(v.model.value).Some? && ParseSecrets(v.secrets).Some? && ParseInfrastructure(v).Some?
            && (v.retentionSeconds.Present? ==> v.retentionSeconds.value > 0.0)
            && domains.Some?
            && PrimaryDomain(domains.value, v.domain.value).Some?
            && (forall i :: 0 <= i < |domains.value| ==>
                  ValidDomain(domains.value[i]) && Identified(domains.value[i]))
            && (domains.value != [] ==> DistinctKeys(domains.value))
  {
    var domains := ParseDomains(v.domains);
    if domains.None? || ParseSecrets(v.secrets).None? || ParseModel(v.model.value).None?
       || PrimaryDomain(domains.value, v.domain.value).None? {
      ParseRuntimeRefuses(v);
    } else {
      ParseRuntimeDecided(v, domains.value, PrimaryDomain(domains.value, v.domain.value).value,
                          ParseSecrets(v.secrets).value, ParseModel(v.model.value).value);
    }
  }

  /** The whole document init writes is a valid profile if and only if, besides, it is named and so is its domain. */
  lemma InitProfileAcceptedIff(args: InitArgs)
    requires InitProfile(args).Some?
    ensures ParseProfile(InitProfile(args).value).Some? <==>
            && WellFormed(args)
            && !IsBlank(args.profileName)
            && PrimaryIdentified(args)
  {
    var p, r := InitProfile(args).value, RuntimePayload(args).value;
    InitOutputAcceptedIff(args);
    MirroredProfileIff(p, r);
    InitLabels(args);
    if WellFormed(args) {
      SectionOf(args);
      InitPrimary(args, r);
    }
  }

  lemma InitLabels(args: InitArgs)
    ensures LabelsOk(InitHeader(args)) <==> !IsBlank(args.profileName)
  {
    assert '0' in "0.1.0";
  }

  predicate PrimaryIdentified(args: InitArgs) {
    ParseDomain(args.primary.config).Some? && Identified(ParseDomain(args.primary.config).value)
  }

  lemma InitPrimary(args: InitArgs, r: RuntimeValues)
    requires SectionDomains(args, r) && ParseRuntime(r).Some?
    ensures HasIdentity(ParseRuntime(r).value.domain) <==> PrimaryIdentified(args)
  {
    var c := ParseRuntime(r).value;
    ParsedIsReadFrom(r, c);
    if args.withDomains != [] {
      assert r.domains.value[0] == Present(args.primary.config);
      assert c.domains[0] == ParseItem(r.domains.value[0]).value;
    }
    assert ParseDomain(args.primary.config) == Some(c.domain);
    IdentityOfRead(c.domain);
  }

  /** The API-key secret of an accepted document is always declared. */
  lemma InitDeclaresApiKey(args: InitArgs)
    requires RuntimePayload(args).Some?
    requires args.model.apiKeyEnv.Some? || args.model.apiKeyFile.Some?
    ensures var v := RuntimePayload(args).value;
            && v.model.Present? && v.model.value.apiKeySecret == Present(args.model.apiKeySecret)
            && v.secrets.Present? && args.model.apiKeySecret in v.secrets.value
  {
    var source := SecretSourceOf(args.model.apiKeyEnv, args.model.apiKeyFile).value;
    KeySecretParses(args.model.apiKeySecret, source.value);
    AllSecretsGrow(BaseSecrets(args).value, args.withDomains);
    assert args.model.apiKeySecret in BaseSecrets(args).value;
  }

  lemma {:induction false} AllSecretsGrow(have: SecretTable, domains: seq<ResolvedDomain>)
    requires AddAllSecrets(have, domains).Some?
    ensures have.Keys <= AddAllSecrets(have, domains).value.Keys
    decreases |domains|
  {
    if domains != [] {
      AllSecretsGrow(have + domains[0].secrets, domains[1..]);
    }
  }

  /** A resolved domain as the installed contributions produce them. */
  predicate WellFormedDomain(d: ResolvedDomain) {
    && d.config.name == Present(d.name) && '@' !in d.name
    && ParseDomain(d.config).Some? && d.config.version.Present?
    && SecretsParse(d.secrets)
  }

  lemma DistinctNamesDistinctKeys(a: DomainConfig, b: DomainConfig)
    requires Identified(a) && Identified(b) && a.name != b.name && '@' !in a.name.value && '@' !in b.name.value
    ensures DomainKey(a) != DomainKey(b)
  {
    if DomainKey(a) == DomainKey(b) {
      KeyDeterminesName(a.name.value, a.version.value, b.name.value, b.version.value);
    }
  }

  /** With '@'-free domains, init's own name check is all it takes to keep the keys distinct. */
  lemma WellFormedDomainsSuffice(args: InitArgs)
    requires RuntimePayload(args).Some?
    requires WellFormedDomain(args.primary)
    requires forall i :: 0 <= i < |args.withDomains| ==> WellFormedDomain(args.withDomains[i])
    ensures DomainsOk(Configs(args))
  {
    var configs := Configs(args);
    var all := [args.primary] + args.withDomains;
    assert |all| == |configs| && forall i :: 0 <= i < |all| ==> configs[i] == all[i].config && WellFormedDomain(all[i]);
    forall i, j | 0 <= i < j < |configs|
      ensures DomainKey(ParseDomain(configs[i]).value) != DomainKey(ParseDomain(configs[j]).value)
    {
      assert all[i].name != all[j].name;
      var a, b := ParseDomain(configs[i]).value, ParseDomain(configs[j]).value;
      DistinctNamesDistinctKeys(a, b);
    }
  }

  /** Every accepted argument set with well-formed values gives a valid configuration, for every provider. */
  lemma InitOutputIsValid(args: InitArgs)
    requires RuntimePayload(args).Some?
    requires SettingsOk(ResolvedSettings(args.model.preset, args.model.settings).value)
    requires StoreArgsOk(args.store) && StoreArgsOk(args.queue) && StoreArgsOk(args.locks) && StoreArgsOk(args.workers)
    requires args.retentionSeconds.Some? ==> args.retentionSeconds.value > 0.0
    requires WellFormedDomain(args.primary)
    requires forall i :: 0 <= i < |args.withDomains| ==> WellFormedDomain(args.withDomains[i])
    ensures ParseRuntime(RuntimePayload(args).value).Some?
    ensures InitProfile(args).Some?
    ensures !IsBlank(args.profileName) ==> ParseProfile(InitProfile(args).value).Some?
  {
    WellFormedDomainsSuffice(args);
    InitOutputAcceptedIff(args);
    InitProfileAcceptedIff(args);
  }

  // --------------------------------------------------------- concrete arguments

  const IN_MEMORY := StoreArgs("memory", "")

  /** A scripted model, everything in memory, and the local domain. */
  function PlainArgs(timeout: real, withDomains: seq<ResolvedDomain>): (args: InitArgs)
  {
    InitArgs("p", "", "dev", PlainModel(timeout), IN_MEMORY, IN_MEMORY, IN_MEMORY, IN_MEMORY, None,
             Local(), withDomains)
  }

  function PlainModel(timeout: real): (m: ModelArgs)
  {
    ModelArgs(None, Preset("scripted", "scripted", None, timeout), None, None, None, "model_api_key", map[])
  }

  function Local(): (d: ResolvedDomain)
  {
    ResolvedDomain("local", DomainValues(Present("local"), Present("0.1.0"), Absent, Absent), map[])
  }

  lemma PlainParts(timeout: real, withDomains: seq<ResolvedDomain>)
    ensures ModelOf(PlainArgs(timeout, withDomains)).Some?
    ensures BaseSecrets(PlainArgs(timeout, withDomains)) == Some(map[])
  {
    var none: SecretTable := map[];
    assert none + none == none;
  }

  /** Init accepts these arguments with any timeout at all. */
  lemma PlainAccepted(timeout: real)
    ensures InitProfile(PlainArgs(timeout, [])).Some?
  {
    PlainParts(timeout, []);
  }

  /** A timeout of 0 passes init, and the profile it writes is refused. */
  lemma ZeroTimeoutIsRefusedLater()
    ensures InitProfile(PlainArgs(0.0, [])).Some?
    ensures ParseProfile(InitProfile(PlainArgs(0.0, [])).value).None?
  {
    PlainAccepted(0.0);
    assert !ModelArgsOk(PlainModel(0.0));
    InitProfileAcceptedIff(PlainArgs(0.0, []));
  }

  lemma LocalIsWellFormed()
    ensures WellFormedDomain(Local())
  {
    assert 'l' in "local" && '0' in "0.1.0";
  }

  /** With a positive timeout and well-formed domains the profile is valid. */
  lemma PlainIsValid(timeout: real, withDomains: seq<ResolvedDomain>)
    requires timeout > 0.0 && RuntimePayload(PlainArgs(timeout, withDomains)).Some?
    requires forall i :: 0 <= i < |withDomains| ==> WellFormedDomain(withDomains[i])
    ensures InitProfile(PlainArgs(timeout, withDomains)).Some?
    ensures ParseProfile(InitProfile(PlainArgs(timeout, withDomains)).value).Some?
  {
    LocalIsWellFormed();
    assert 's' in "scripted" && 'p' in "p";
    InitOutputIsValid(PlainArgs(timeout, withDomains));
  }
}
