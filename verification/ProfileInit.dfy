/**
 `agent init`: from resolved arguments to the profile document.  None stands for
 a raised `ValueError`.  Domains come resolved (name, config, secrets), headers
 come parsed; looking contributions up and splitting KEY=VALUE are not modelled.
 */
module ProfileInit {
  import opened Prelude
  import opened Text
  import opened Configuration

  const DEFAULT_MAX_ITERATIONS := 20
  const DEFAULT_MAX_RECOVERY_STEPS := 8

  datatype Preset = Preset(provider: string, name: string, responseFormat: Option<string>, timeoutSeconds: real)

  datatype ModelArgs = ModelArgs(
    preset: Option<string>, settings: Preset, endpoint: Option<string>,
    apiKeyEnv: Option<string>, apiKeyFile: Option<string>, apiKeySecret: string,
    headers: map<string, string>)

  datatype StoreArgs = StoreArgs(backend: string, path: string)

  /** What `_domain_settings` returns for one backend. */
  datatype ResolvedDomain = ResolvedDomain(name: string, config: DomainValues, secrets: SecretTable)

  datatype InitArgs = InitArgs(
    profileName: string, description: string, environment: Opaque, model: ModelArgs,
    store: StoreArgs, queue: StoreArgs, locks: StoreArgs, workers: StoreArgs,
    retentionSeconds: Option<real>, primary: ResolvedDomain, withDomains: seq<ResolvedDomain>)

  // -------------------------------------------------------------------- model

  function PresetNamed(name: string): (r: Option<Preset>)
  {
    if name == "360zhinao" then
      Some(Preset("openai_chat_completions", "glm-5.3-flash", Some("prompt_json"), 180.0))
    else if name == "deepseek" then
      Some(Preset("openai_chat_completions", "deepseek-chat", Some("json_object"), 120.0))
    else if name == "moonshot" then
      Some(Preset("openai_chat_completions", "moonshot-v1-8k", Some("json_object"), 120.0))
    else None
  }

  /** `_resolved_model_settings` */
  function ResolvedSettings(preset: Option<string>, given: Preset): (r: Option<Preset>)
  {
    if preset.None? then Some(given)
    else
      var p :- PresetNamed(preset.value);
      if given.provider != "scripted" && given.provider != p.provider then None
      else if given.name != "scripted" && given.name != p.name then None
      else if given.responseFormat.Some? && given.responseFormat != p.responseFormat then None
      else Some(Preset(
        p.provider,
        if given.name == "scripted" then p.name else given.name,
        if given.responseFormat.None? then p.responseFormat else given.responseFormat,
        if given.timeoutSeconds != 120.0 then given.timeoutSeconds else p.timeoutSeconds))
  }

  /** `_single_secret_source`: Some(None) when neither is given, None when both are. */
  function SecretSourceOf(env: Option<string>, file: Option<string>): (r: Option<Option<(string, string)>>)
  {
    if env.Some? && file.Some? then None
    else if env.Some? then Some(Some(("env", env.value)))
    else if file.Some? then Some(Some(("file", file.value)))
    else Some(None)
  }

  function Given<T>(o: Option<T>): (e: Entry<T>)
  {
    if o.Some? then Present(o.value) else Absent
  }

  /** `_profile_model_config` */
  function ModelPayload(m: Preset, endpoint: Option<string>, hasKey: bool, keySecret: string,
                        headers: map<string, string>): (r: Option<ModelValues>)
  {
    var base := NO_MODEL_VALUES.(provider := Present(m.provider), name := Present(m.name),
                                 timeoutSeconds := Present(m.timeoutSeconds));
    var keyed := if hasKey then base.(apiKeySecret := Present(keySecret)) else base;
    var full := if headers != map[] then keyed.(headers := Present(headers)) else keyed;
    if m.provider == "scripted" then
      if endpoint.Some? || hasKey || m.responseFormat.Some? || headers != map[] then None else Some(base)
    else if m.provider == "json_http" then
      if endpoint.None? || IsBlank(endpoint.value) || m.responseFormat.Some? then None
      else Some(full.(endpoint := Given(endpoint)))
    else if m.provider == "openai_chat_completions" || m.provider == "openai_responses" then
      if m.name == "scripted" || !hasKey then None
      else if endpoint.Some? && IsBlank(endpoint.value) then None
      else if m.responseFormat.Some? && m.provider != "openai_chat_completions" then None
      else Some(full.(endpoint := Given(endpoint), responseFormat := Given(m.responseFormat)))
    else None
  }

  function StorePayload(s: StoreArgs): (r: StoreValues)
  {
    NO_STORE_VALUES.(backend := Present(s.backend),
                     path := if s.backend != "memory" then Present(s.path) else Absent)
  }

  // ------------------------------------------------------------------ secrets

  /** `_add_secret` on an empty table. */
  function KeySecret(name: string, source: (string, string)): (r: Option<SecretTable>)
  {
    if IsBlank(name) || IsBlank(source.1) then None
    else Some(map[name := Present(SecretValues(Present(source.0), Present(source.1), Present(true)))])
  }

  /** Adding a table of secrets raises on the first name already taken. */
  function AddSecrets<K, V>(have: map<K, V>, more: map<K, V>): (r: Option<map<K, V>>)
  {
    if have.Keys !! more.Keys then Some(have + more) else None
  }

  function AddAllSecrets(have: SecretTable, domains: seq<ResolvedDomain>): (r: Option<SecretTable>)
    decreases |domains|
  {
    if domains == [] then Some(have)
    else
      var first :- AddSecrets(have, domains[0].secrets);
      AddAllSecrets(first, domains[1..])
  }

  // ------------------------------------------------------------------ domains

  /** `_secondary_domains` raises on a name equal to the primary or repeated. */
  ghost predicate DistinctNames(primary: string, domains: seq<ResolvedDomain>) {
    && (forall i :: 0 <= i < |domains| ==> domains[i].name != primary)
    && (forall i, j :: 0 <= i < j < |domains| ==> domains[i].name != domains[j].name)
  }

  function Items(domains: seq<ResolvedDomain>): (r: DomainItems)
    ensures |r| == |domains|
    ensures forall i :: 0 <= i < |r| ==> r[i] == Present(domains[i].config)
  {
    seq(|domains|, i requires 0 <= i < |domains| => Present(domains[i].config))
  }

  // ------------------------------------------------------------------ runtime

  /** The runtime section, when nothing raises. */
  function RuntimeSection(args: InitArgs, model: ModelValues, secrets: SecretTable): (r: RuntimeValues)
  {
    RuntimeValues(
      environment := Present(map["environment" := args.environment]),
      secrets := if secrets != map[] then Present(secrets) else Absent,
      model := Present(model),
      store := Present(StorePayload(args.store)),
      distributedQueue := Present(StorePayload(args.queue)),
      distributedLocks := Present(StorePayload(args.locks)),
      distributedWorkers := Present(StorePayload(args.workers)),
      retentionSeconds := Given(args.retentionSeconds),
      limits := Present(NO_LIMITS_VALUES.(maxIterations := Present(DEFAULT_MAX_ITERATIONS),
                                          maxRecoverySteps := Present(DEFAULT_MAX_RECOVERY_STEPS))),
      domain := Present(args.primary.config),
      domains := if args.withDomains != [] then Present([Present(args.primary.config)] + Items(args.withDomains))
                 else Absent,
      packagePaths := Absent)
  }

  function ModelOf(args: InitArgs): (r: Option<ModelValues>)
  {
    var settings :- ResolvedSettings(args.model.preset, args.model.settings);
    var source :- SecretSourceOf(args.model.apiKeyEnv, args.model.apiKeyFile);
    ModelPayload(settings, args.model.endpoint, source.Some?, args.model.apiKeySecret, args.model.headers)
  }

  /** The secrets of the model and the primary domain. */
  function BaseSecrets(args: InitArgs): (r: Option<SecretTable>)
  {
    var source :- SecretSourceOf(args.model.apiKeyEnv, args.model.apiKeyFile);
    var keySecret :- if source.Some? then KeySecret(args.model.apiKeySecret, source.value) else Some(map[]);
    AddSecrets(keySecret, args.primary.secrets)
  }

  /** `_runtime_payload` */
  ghost function RuntimePayload(args: InitArgs): (r: Option<RuntimeValues>)
  {
    if !DistinctNames(args.primary.name, args.withDomains) then None
    else
      var model :- ModelOf(args);
      var base :- BaseSecrets(args);
      var secrets :- AddAllSecrets(base, args.withDomains);
      Some(RuntimeSection(args, model, secrets))
  }

  /** `_secondary_domains`: collect one by one, refusing the primary's name and repetitions. */
  method SecondaryDomains(primary: string, resolved: seq<ResolvedDomain>)
    returns (results: Option<seq<ResolvedDomain>>)
    ensures results == if DistinctNames(primary, resolved) then Some(resolved) else None
  {
    var collected: seq<ResolvedDomain> := [];
    var i := 0;
    while i < |resolved|
      invariant 0 <= i <= |resolved|
      invariant collected == resolved[..i]
      invariant DistinctNames(primary, resolved[..i])
    {
      if resolved[i].name == primary {
        return None;
      }
      var k := 0;
      while k < |collected|
        invariant 0 <= k <= |collected|
        invariant forall n :: 0 <= n < k ==> collected[n].name != resolved[i].name
      {
        if collected[k].name == resolved[i].name {
          return None;
        }
        k := k + 1;
      }
      collected := collected + [resolved[i]];
      i := i + 1;
    }
    assert resolved[..|resolved|] == resolved;
    return Some(collected);
  }

  /** The loop over `secrets.items()`: add each, refusing a name already taken. */
  method AddEach<K(==), V>(have: map<K, V>, more: map<K, V>) returns (r: Option<map<K, V>>)
    ensures r == AddSecrets(have, more)
  {
    var table := have;
    var left := more.Keys;
    while left != {}
      invariant left <= more.Keys
      invariant table.Keys == have.Keys + (more.Keys - left)
      invariant forall n :: n in more.Keys - left ==> n !in have && table[n] == more[n]
      invariant forall n :: n in have ==> table[n] == have[n]
      decreases |left|
    {
      var name :| name in left;
      if name in table {
        assert name in have.Keys && name in more.Keys;
        return None;
      }
      table := table[name := more[name]];
      left := left - {name};
    }
    assert table == have + more;
    return Some(table);
  }

  method BuildRuntime(args: InitArgs) returns (r: Option<RuntimeValues>)
    ensures r == RuntimePayload(args)
  {
    var settings := ResolvedSettings(args.model.preset, args.model.settings);
    if settings.None? {
      return None;
    }
    var source := SecretSourceOf(args.model.apiKeyEnv, args.model.apiKeyFile);
    if source.None? {
      return None;
    }
    var secondary := SecondaryDomains(args.primary.name, args.withDomains);
    if secondary.None? {
      return None;
    }
    var model := ModelPayload(settings.value, args.model.endpoint, source.value.Some?, args.model.apiKeySecret,
                              args.model.headers);
    if model.None? {
      return None;
    }
    var secrets: Option<SecretTable> := Some(map[]);
    if source.value.Some? {
      secrets := KeySecret(args.model.apiKeySecret, source.value.value);
      if secrets.None? {
        return None;
      }
    }
    secrets := AddEach(secrets.value, args.primary.secrets);
    if secrets.None? {
      return None;
    }
    ghost var base := secrets.value;
    var domainList: DomainItems := [Present(args.primary.config)];
    var i := 0;
    while i < |args.withDomains|
      invariant 0 <= i <= |args.withDomains|
      invariant secrets.Some?
      invariant AddAllSecrets(base, args.withDomains) == AddAllSecrets(secrets.value, args.withDomains[i..])
      invariant domainList == [Present(args.primary.config)] + Items(args.withDomains)[..i]
    {
      domainList := domainList + [Present(args.withDomains[i].config)];
      assert args.withDomains[i..][1..] == args.withDomains[i + 1..];
      secrets := AddEach(secrets.value, args.withDomains[i].secrets);
      i := i + 1;
      if secrets.None? {
        return None;
      }
    }
    assert Items(args.withDomains)[..i] == Items(args.withDomains);
    var runtime := RuntimeSection(args.(withDomains := []), model.value, secrets.value);
    if args.withDomains != [] {
      runtime := runtime.(domains := Present(domainList));
    }
    return Some(runtime);
  }

  // ------------------------------------------------------------------ profile

  /** What a profile says of itself. */
  datatype ProfileHeader = ProfileHeader(
    name: Entry<string>, version: Entry<string>, description: Entry<string>,
    tenantId: Entry<string>, ownerId: Entry<string>)

  /** The profile document: its top-level keys, the primary domain, the mirrored list, the runtime. */
  datatype ProfileValues = ProfileValues(
    header: ProfileHeader, keys: set<string>, domain: Entry<DomainValues>, domains: Entry<DomainItems>,
    runtime: Entry<RuntimeValues>)

  const PROFILE_KEYS: set<string> := {"name", "version", "description", "domain", "runtime"}

  function InitHeader(args: InitArgs): (h: ProfileHeader)
  {
    ProfileHeader(Present(args.profileName), Present("0.1.0"), Present(args.description), Absent, Absent)
  }

  /** `_profile_config_payload` */
  function ProfilePayload(header: ProfileHeader, domain: DomainValues, runtime: RuntimeValues): (p: ProfileValues)
  {
    if runtime.domains.Present? && runtime.domains.value != [] then
      ProfileValues(header, PROFILE_KEYS + {"domains"}, Present(domain), runtime.domains, Present(runtime))
    else
      ProfileValues(header, PROFILE_KEYS, Present(domain), Absent, Present(runtime))
  }

  ghost function InitProfile(args: InitArgs): (p: Option<ProfileValues>)
  {
    var runtime :- RuntimePayload(args);
    Some(ProfilePayload(InitHeader(args), args.primary.config, runtime))
  }
}
