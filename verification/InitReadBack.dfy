/**
 What `agent init` accepts, what it writes, and what that is read as, field by
 field from the arguments.
 */
module InitReadBack {
  import opened Prelude
  import opened Text
  import opened Configuration
  import opened ProfileInit
  import opened ProfileValidity
  import opened DocumentRules

  predicate HasKey(m: ModelArgs) {
    m.apiKeyEnv.Some? || m.apiKeyFile.Some?
  }

  // ----------------------------------------------------------------- settings

  /** Arguments do not contradict a preset. */
  predicate FitsPreset(m: ModelArgs, name: string, responseFormat: string) {
    && (m.settings.provider == "scripted" || m.settings.provider == "openai_chat_completions")
    && (m.settings.name == "scripted" || m.settings.name == name)
    && (m.settings.responseFormat == None || m.settings.responseFormat == Some(responseFormat))
  }

  predicate SettingsAccepted(m: ModelArgs) {
    match m.preset
    case None => true
    case Some(preset) =>
      || (preset == "360zhinao" && FitsPreset(m, "glm-5.3-flash", "prompt_json"))
      || (preset == "deepseek" && FitsPreset(m, "deepseek-chat", "json_object"))
      || (preset == "moonshot" && FitsPreset(m, "moonshot-v1-8k", "json_object"))
  }

  /** The settings in force: the arguments, or the preset's, with a timeout of one's own. */
  function InForce(m: ModelArgs): (s: Preset)
    requires SettingsAccepted(m)
  {
    var timeout := m.settings.timeoutSeconds;
    match m.preset
    case None => m.settings
    case Some(preset) =>
      if preset == "360zhinao" then
        Preset("openai_chat_completions", "glm-5.3-flash", Some("prompt_json"),
               if timeout == 120.0 then 180.0 else timeout)
      else if preset == "deepseek" then
        Preset("openai_chat_completions", "deepseek-chat", Some("json_object"), timeout)
      else
        Preset("openai_chat_completions", "moonshot-v1-8k", Some("json_object"), timeout)
  }

  lemma SettingsIff(m: ModelArgs)
    ensures ResolvedSettings(m.preset, m.settings).Some? <==> SettingsAccepted(m)
    ensures SettingsAccepted(m) ==> ResolvedSettings(m.preset, m.settings) == Some(InForce(m))
  {
    assert |"deepseek"| == |"moonshot"| && "deepseek"[0] != "moonshot"[0] && |"360zhinao"| == 9;
  }

  // -------------------------------------------------------------------- model

  /** What `_profile_model_config` asks of a provider. */
  predicate ProviderAccepted(s: Preset, m: ModelArgs) {
    match s.provider
    case "scripted" => m.endpoint.None? && !HasKey(m) && s.responseFormat.None? && m.headers == map[]
    case "json_http" => m.endpoint.Some? && !IsBlank(m.endpoint.value) && s.responseFormat.None?
    case "openai_responses" =>
      s.name != "scripted" && HasKey(m) && (m.endpoint.Some? ==> !IsBlank(m.endpoint.value)) && s.responseFormat.None?
    case "openai_chat_completions" =>
      s.name != "scripted" && HasKey(m) && (m.endpoint.Some? ==> !IsBlank(m.endpoint.value))
    case _ => false
  }

  ghost predicate WritesModel(v: ModelValues, s: Preset, m: ModelArgs) {
    && v.provider == Present(s.provider)
    && v.name == Present(s.name)
    && v.timeoutSeconds == Present(s.timeoutSeconds)
    && v.endpoint == (if m.endpoint.Some? then Present(m.endpoint.value) else Absent)
    && v.apiKeySecret == (if HasKey(m) then Present(m.apiKeySecret) else Absent)
    && v.headers == (if m.headers != map[] then Present(m.headers) else Absent)
    && v.responseFormat == (if s.responseFormat.Some? then Present(s.responseFormat.value) else Absent)
    && v.extraBody == Absent
  }

  lemma ModelPayloadIff(s: Preset, m: ModelArgs)
    ensures ModelPayload(s, m.endpoint, HasKey(m), m.apiKeySecret, m.headers).Some? <==> ProviderAccepted(s, m)
    ensures ProviderAccepted(s, m) ==>
              WritesModel(ModelPayload(s, m.endpoint, HasKey(m), m.apiKeySecret, m.headers).value, s, m)
  {
    assert |"scripted"| == 8 && |"json_http"| == 9 && |"openai_responses"| == 16 && |"openai_chat_completions"| == 23;
  }

  // ------------------------------------------------------------------ secrets

  /** The reference to the API key: where the option said it is. */
  function KeyBody(m: ModelArgs): (body: Entry<SecretValues>)
    requires HasKey(m)
  {
    if m.apiKeyEnv.Some? then Present(SecretValues(Present("env"), Present(m.apiKeyEnv.value), Present(true)))
    else Present(SecretValues(Present("file"), Present(m.apiKeyFile.value), Present(true)))
  }

  predicate KeyAccepted(m: ModelArgs) {
    && !(m.apiKeyEnv.Some? && m.apiKeyFile.Some?)
    && (m.apiKeyEnv.Some? ==> !IsBlank(m.apiKeySecret) && !IsBlank(m.apiKeyEnv.value))
    && (m.apiKeyFile.Some? ==> !IsBlank(m.apiKeySecret) && !IsBlank(m.apiKeyFile.value))
  }

  lemma BaseSecretsIff(args: InitArgs)
    ensures BaseSecrets(args).Some? <==>
            KeyAccepted(args.model) && (HasKey(args.model) ==> args.model.apiKeySecret !in args.primary.secrets)
    ensures BaseSecrets(args).Some? ==>
              && (HasKey(args.model) ==>
                    args.model.apiKeySecret in BaseSecrets(args).value
                    && BaseSecrets(args).value[args.model.apiKeySecret] == KeyBody(args.model))
              && (forall n :: n in args.primary.secrets ==>
                    n in BaseSecrets(args).value && BaseSecrets(args).value[n] == args.primary.secrets[n])
              && (forall n :: n in BaseSecrets(args).value ==>
                    n in args.primary.secrets || (HasKey(args.model) && n == args.model.apiKeySecret))
  {
  }

  /** No secret of one table is declared by another. */
  ghost predicate Disjoint(have: SecretTable, domains: seq<ResolvedDomain>) {
    && (forall i, n :: 0 <= i < |domains| && n in domains[i].secrets ==> n !in have)
    && (forall i, j, n :: 0 <= i < j < |domains| && n in domains[i].secrets ==> n !in domains[j].secrets)
  }

  lemma DisjointStep(have: SecretTable, domains: seq<ResolvedDomain>)
    requires domains != []
    ensures Disjoint(have, domains) <==>
            have.Keys !! domains[0].secrets.Keys && Disjoint(have + domains[0].secrets, domains[1..])
  {
    var first, rest := domains[0], domains[1..];
    assert forall i :: 1 <= i < |domains| ==> domains[i] == rest[i - 1];
    assert forall i :: 0 <= i < |rest| ==> rest[i] == domains[i + 1];
    assert forall n :: n in have + first.secrets <==> n in have || n in first.secrets;
    if have.Keys !! first.secrets.Keys && Disjoint(have + first.secrets, rest) {
      DisjointFromRest(have, domains);
    }
  }

  lemma DisjointFromRest(have: SecretTable, domains: seq<ResolvedDomain>)
    requires domains != [] && have.Keys !! domains[0].secrets.Keys
    requires Disjoint(have + domains[0].secrets, domains[1..])
    ensures Disjoint(have, domains)
  {
    var first, rest := domains[0], domains[1..];
    forall i, n | 0 <= i < |domains| && n in domains[i].secrets
      ensures n !in have && (i > 0 ==> n !in first.secrets)
    {
      if i == 0 {
        assert n in first.secrets.Keys && n !in have.Keys;
      } else {
        assert domains[i] == rest[i - 1];
        assert n !in have + first.secrets;
      }
    }
    forall i, j, n | 0 <= i < j < |domains| && n in domains[i].secrets
      ensures n !in domains[j].secrets
    {
      if i > 0 {
        assert domains[i] == rest[i - 1] && domains[j] == rest[j - 1];
      }
    }
  }

  ghost predicate HoldsAll(all: SecretTable, have: SecretTable, domains: seq<ResolvedDomain>) {
    && (forall n :: n in have ==> n in all && all[n] == have[n])
    && (forall i, n :: 0 <= i < |domains| && n in domains[i].secrets ==>
          n in all && all[n] == domains[i].secrets[n])
    && (forall n :: n in all ==> n in have || exists i :: 0 <= i < |domains| && n in domains[i].secrets)
  }

  lemma {:induction false} AllSecretsIff(have: SecretTable, domains: seq<ResolvedDomain>)
    ensures AddAllSecrets(have, domains).Some? <==> Disjoint(have, domains)
    ensures AddAllSecrets(have, domains).Some? ==> HoldsAll(AddAllSecrets(have, domains).value, have, domains)
    decreases |domains|
  {
    if domains != [] {
      DisjointStep(have, domains);
      if have.Keys !! domains[0].secrets.Keys {
        AllSecretsIff(have + domains[0].secrets, domains[1..]);
        if AddAllSecrets(have, domains).Some? {
          HoldsOneMore(AddAllSecrets(have, domains).value, have, domains);
        }
      }
    }
  }

  lemma HoldsOneMore(all: SecretTable, have: SecretTable, domains: seq<ResolvedDomain>)
    requires domains != [] && have.Keys !! domains[0].secrets.Keys
    requires HoldsAll(all, have + domains[0].secrets, domains[1..])
    ensures HoldsAll(all, have, domains)
  {
    var first, rest := domains[0], domains[1..];
    assert forall i :: 0 <= i < |rest| ==> rest[i] == domains[i + 1];
    forall i, n | 0 <= i < |domains| && n in domains[i].secrets
      ensures n in all && all[n] == domains[i].secrets[n]
    {
      if i > 0 {
        assert n in rest[i - 1].secrets;
      } else {
        assert n in first.secrets.Keys && n in have + first.secrets;
      }
    }
    forall n | n in all && n !in have
      ensures exists i :: 0 <= i < |domains| && n in domains[i].secrets
    {
      if n in first.secrets {
        assert n in domains[0].secrets;
      } else {
        var i :| 0 <= i < |rest| && n in rest[i].secrets;
        assert n in domains[i + 1].secrets;
      }
    }
  }

  // ------------------------------------------------------------------ the whole

  /** The table of secrets init collects: the key's, the primary domain's, and each further domain's. */
  ghost predicate WritesSecrets(table: SecretTable, args: InitArgs) {
    && (HasKey(args.model) ==>
          args.model.apiKeySecret in table && table[args.model.apiKeySecret] == KeyBody(args.model))
    && (forall n :: n in args.primary.secrets ==> n in table && table[n] == args.primary.secrets[n])
    && (forall i, n :: 0 <= i < |args.withDomains| && n in args.withDomains[i].secrets ==>
          n in table && table[n] == args.withDomains[i].secrets[n])
    && (forall n :: n in table ==>
          || (HasKey(args.model) && n == args.model.apiKeySecret)
          || n in args.primary.secrets
          || exists i :: 0 <= i < |args.withDomains| && n in args.withDomains[i].secrets)
  }

  ghost predicate SecretsAccepted(args: InitArgs) {
    && KeyAccepted(args.model)
    && (HasKey(args.model) ==>
          && args.model.apiKeySecret !in args.primary.secrets
          && forall i :: 0 <= i < |args.withDomains| ==> args.model.apiKeySecret !in args.withDomains[i].secrets)
    && Disjoint(args.primary.secrets, args.withDomains)
  }

  lemma SecretsIff(args: InitArgs)
    ensures BaseSecrets(args).Some? && AddAllSecrets(BaseSecrets(args).value, args.withDomains).Some? <==>
            SecretsAccepted(args)
    ensures SecretsAccepted(args) ==>
              WritesSecrets(AddAllSecrets(BaseSecrets(args).value, args.withDomains).value, args)
  {
    BaseSecretsIff(args);
    if BaseSecrets(args).Some? {
      AllSecretsIff(BaseSecrets(args).value, args.withDomains);
      FurtherSecretsIff(args);
      if SecretsAccepted(args) {
        CollectedSecrets(args);
      }
    }
  }

  lemma FurtherSecretsIff(args: InitArgs)
    requires BaseSecrets(args).Some?
    ensures Disjoint(BaseSecrets(args).value, args.withDomains) <==> SecretsAccepted(args)
  {
    BaseSecretsIff(args);
  }

  lemma CollectedSecrets(args: InitArgs)
    requires BaseSecrets(args).Some? && AddAllSecrets(BaseSecrets(args).value, args.withDomains).Some?
    ensures WritesSecrets(AddAllSecrets(BaseSecrets(args).value, args.withDomains).value, args)
  {
    BaseSecretsIff(args);
    AllSecretsIff(BaseSecrets(args).value, args.withDomains);
    CollectedFrom(AddAllSecrets(BaseSecrets(args).value, args.withDomains).value, BaseSecrets(args).value, args);
  }

  lemma CollectedFrom(all: SecretTable, base: SecretTable, args: InitArgs)
    requires HoldsAll(all, base, args.withDomains)
    requires HasKey(args.model) ==>
               args.model.apiKeySecret in base && base[args.model.apiKeySecret] == KeyBody(args.model)
    requires forall n :: n in args.primary.secrets ==> n in base && base[n] == args.primary.secrets[n]
    requires forall n :: n in base ==>
               n in args.primary.secrets || (HasKey(args.model) && n == args.model.apiKeySecret)
    ensures WritesSecrets(all, args)
  {
  }

  lemma ModelIff(args: InitArgs)
    requires KeyAccepted(args.model)
    ensures ModelOf(args).Some? <==>
            SettingsAccepted(args.model) && ProviderAccepted(InForce(args.model), args.model)
    ensures ModelOf(args).Some? ==> WritesModel(ModelOf(args).value, InForce(args.model), args.model)
  {
    SettingsIff(args.model);
    if SettingsAccepted(args.model) {
      ModelPayloadIff(InForce(args.model), args.model);
    }
  }

  /** Which arguments init accepts; all others raise. */
  lemma InitAcceptsIff(args: InitArgs)
    ensures RuntimePayload(args).Some? <==>
            && SettingsAccepted(args.model)
            && ProviderAccepted(InForce(args.model), args.model)
            && SecretsAccepted(args)
            && (forall i :: 0 <= i < |args.withDomains| ==> args.withDomains[i].name != args.primary.name)
            && (forall i, j :: 0 <= i < j < |args.withDomains| ==>
                  args.withDomains[i].name != args.withDomains[j].name)
  {
    SecretsIff(args);
    BaseSecretsIff(args);
    SettingsIff(args.model);
    if KeyAccepted(args.model) {
      ModelIff(args);
    }
  }

  ghost predicate WritesStore(v: Entry<StoreValues>, s: StoreArgs) {
    && v.Present?
    && v.value.backend == Present(s.backend)
    && v.value.path == (if s.backend == "memory" then Absent else Present(s.path))
    && v.value.urlEnv == Absent && v.value.tenantId == Absent
  }

  /** What is written, key by key. */
  ghost predicate Writes(v: RuntimeValues, args: InitArgs) {
    && v.environment == Present(map["environment" := args.environment])
    && WritesSecrets(Or(v.secrets, map[]), args) && Typed(v.secrets)
    && v.model.Present? && SettingsAccepted(args.model) && WritesModel(v.model.value, InForce(args.model), args.model)
    && WritesStore(v.store, args.store) && WritesStore(v.distributedQueue, args.queue)
    && WritesStore(v.distributedLocks, args.locks) && WritesStore(v.distributedWorkers, args.workers)
    && v.retentionSeconds == (if args.retentionSeconds.Some? then Present(args.retentionSeconds.value) else Absent)
    && v.limits == Present(LimitsValues(Present(20), Present(8), Absent, Absent))
    && v.domain == Present(args.primary.config)
    && (args.withDomains == [] ==> v.domains == Absent)
    && (args.withDomains != [] ==>
          && v.domains.Present? && |v.domains.value| == 1 + |args.withDomains|
          && v.domains.value[0] == Present(args.primary.config)
          && forall i :: 0 <= i < |args.withDomains| ==>
               v.domains.value[i + 1] == Present(args.withDomains[i].config))
    && v.packagePaths == Absent
  }

  lemma InitWrites(args: InitArgs)
    requires RuntimePayload(args).Some?
    ensures Writes(RuntimePayload(args).value, args)
  {
    InitAcceptsIff(args);
    SecretsIff(args);
    ModelIff(args);
  }

  // ------------------------------------------------------------ what it is read as

  ghost predicate ReadsStoreArgs(c: StoreConfig, s: StoreArgs) {
    && (s.backend == "memory" ==> c == StoreConfig(Memory, None, None, None))
    && (s.backend == "file" ==> c == StoreConfig(File, Some(s.path), None, None))
    && (s.backend == "sqlite" ==> c == StoreConfig(Sqlite, Some(s.path), None, None))
    && s.backend in {"memory", "file", "sqlite"}
  }

  /** The model, from the arguments. */
  ghost predicate ReadsModelArgs(c: ModelConfig, m: ModelArgs)
    requires SettingsAccepted(m)
  {
    var s := InForce(m);
    && (c.provider == Scripted <==> s.provider == "scripted")
    && (c.provider == JsonHttp <==> s.provider == "json_http")
    && (c.provider == OpenAiResponses <==> s.provider == "openai_responses")
    && (c.provider == OpenAiChatCompletions <==> s.provider == "openai_chat_completions")
    && c.name == s.name
    && c.endpoint == m.endpoint
    && c.apiKeySecret == (if m.apiKeyEnv.Some? || m.apiKeyFile.Some? then Some(m.apiKeySecret) else None)
    && c.timeoutSeconds == s.timeoutSeconds
    && c.headers == m.headers
    && c.responseFormat == s.responseFormat
    && c.extraBody == map[]
  }

  /** A contributed secret, as it is declared. */
  ghost predicate ReadsSecretBody(s: SecretRef, name: string, body: Entry<SecretValues>) {
    && body.Present? && body.value.key.Present?
    && s.name == name && s.key == body.value.key.value
    && s.source == (if body.value.source == Present("file") then SecretFile else Env)
    && s.required == (if body.value.required.Present? then body.value.required.value else true)
  }

  ghost predicate ReadsSecretArgs(secrets: map<string, SecretRef>, args: InitArgs) {
    && (args.model.apiKeyEnv.Some? ==>
          args.model.apiKeySecret in secrets
          && secrets[args.model.apiKeySecret]
             == SecretRef(args.model.apiKeySecret, Env, args.model.apiKeyEnv.value, true))
    && (args.model.apiKeyFile.Some? ==>
          args.model.apiKeySecret in secrets
          && secrets[args.model.apiKeySecret]
             == SecretRef(args.model.apiKeySecret, SecretFile, args.model.apiKeyFile.value, true))
    && (forall n :: n in args.primary.secrets ==>
          n in secrets && ReadsSecretBody(secrets[n], n, args.primary.secrets[n]))
    && (forall i, n :: 0 <= i < |args.withDomains| && n in args.withDomains[i].secrets ==>
          n in secrets && ReadsSecretBody(secrets[n], n, args.withDomains[i].secrets[n]))
    && (forall n :: n in secrets ==>
          || (n == args.model.apiKeySecret && (args.model.apiKeyEnv.Some? || args.model.apiKeyFile.Some?))
          || n in args.primary.secrets
          || exists i :: 0 <= i < |args.withDomains| && n in args.withDomains[i].secrets)
  }

  lemma StoreArgsReadAs(c: StoreConfig, v: Entry<StoreValues>, s: StoreArgs)
    requires WritesStore(v, s) && ReadsStore(c, Or(v, NO_STORE_VALUES)) && StoreOk(v.value)
    ensures ReadsStoreArgs(c, s)
  {
    assert BackendOf(v.value) == s.backend;
    assert |"memory"| == 6 && |"file"| == 4 && |"sqlite"| == 6 && "memory"[0] != "sqlite"[0];
  }

  lemma SecretArgsReadAs(secrets: map<string, SecretRef>, table: SecretTable, args: InitArgs)
    requires ReadsSecrets(secrets, table) && WritesSecrets(table, args) && KeyAccepted(args.model)
    ensures ReadsSecretArgs(secrets, args)
  {
    assert |"env"| != |"file"|;
    assert forall n :: n in secrets <==> n in table;
  }

  lemma ModelArgsReadAs(c: ModelConfig, v: ModelValues, m: ModelArgs)
    requires SettingsAccepted(m) && WritesModel(v, InForce(m), m) && ReadsModel(c, v)
    ensures ReadsModelArgs(c, m)
  {
  }

  /** The configuration a set of arguments leads to, field by field. */
  ghost predicate ConfigFromArgs(c: RuntimeConfig, args: InitArgs)
    requires SettingsAccepted(args.model)
  {
    && c.environment == map["environment" := args.environment]
    && ReadsModelArgs(c.model, args.model)
    && ReadsSecretArgs(c.secrets, args)
    && ReadsStoreArgs(c.store, args.store) && ReadsStoreArgs(c.distributedQueue, args.queue)
    && ReadsStoreArgs(c.distributedLocks, args.locks)
    && ReadsStoreArgs(c.distributedWorkers, args.workers)
    && c.retentionSeconds == args.retentionSeconds
    && c.limits == LimitsConfig(20, 8, None, None)
    && c.domain == DomainAs(args.primary.config)
    && |c.domains| == (if args.withDomains == [] then 0 else 1 + |args.withDomains|)
    && (args.withDomains != [] ==> c.domains[0] == DomainAs(args.primary.config))
    && (forall i :: 0 <= i < |args.withDomains| ==> c.domains[i + 1] == DomainAs(args.withDomains[i].config))
    && c.packagePaths == []
  }

  lemma ReadsArgs(c: RuntimeConfig, v: RuntimeValues, args: InitArgs)
    requires Writes(v, args) && ReadAs(c, v) && KeyAccepted(args.model)
    requires StoreOk(v.store.value) && StoreOk(v.distributedQueue.value)
    requires StoreOk(v.distributedLocks.value) && StoreOk(v.distributedWorkers.value)
    ensures ConfigFromArgs(c, args)
  {
    ModelArgsReadAs(c.model, v.model.value, args.model);
    SecretArgsReadAs(c.secrets, Or(v.secrets, map[]), args);
    StoreArgsReadAs(c.store, v.store, args.store);
    StoreArgsReadAs(c.distributedQueue, v.distributedQueue, args.queue);
    StoreArgsReadAs(c.distributedLocks, v.distributedLocks, args.locks);
    StoreArgsReadAs(c.distributedWorkers, v.distributedWorkers, args.workers);
  }

  /** What `from_mapping` reads out of what init writes. */
  lemma InitConfigIs(args: InitArgs)
    requires RuntimePayload(args).Some? && ParseRuntime(RuntimePayload(args).value).Some?
    ensures SettingsAccepted(args.model)
    ensures ConfigFromArgs(ParseRuntime(RuntimePayload(args).value).value, args)
  {
    var v := RuntimePayload(args).value;
    InitWrites(args);
    InitAcceptsIff(args);
    RuntimeReadAs(v);
    RuntimeAcceptedIff(v);
    ReadsArgs(ParseRuntime(v).value, v, args);
  }

  /** The document around the section: name, version and the mirrored list. */
  lemma InitProfileIs(args: InitArgs)
    requires InitProfile(args).Some?
    ensures var p := InitProfile(args).value;
            && p.header.name == Present(args.profileName) && p.header.version == Present("0.1.0")
            && p.header.description == Present(args.description)
            && p.header.tenantId == Absent && p.header.ownerId == Absent
            && p.domain == Present(args.primary.config)
            && p.runtime.Present? && p.domains == p.runtime.value.domains
            && p.keys == (if args.withDomains == [] then {"name", "version", "description", "domain", "runtime"}
                          else {"name", "version", "description", "domain", "domains", "runtime"})
  {
  }
}
