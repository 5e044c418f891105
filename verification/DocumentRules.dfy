/**
 Which documents are accepted and what they are read as, on the document itself:
 no rule here goes through the parsed configuration.
 */
module DocumentRules {
  import opened Prelude
  import opened Text
  import opened Configuration
  import opened ProfileInit
  import opened ProfileValidity

  /** A field without null: absent, or of its type. */
  predicate Typed<T>(e: Entry<T>) {
    e.Absent? || e.Present?
  }

  /** A field that may be null: anything but a wrong type. */
  predicate Nullable<T>(e: Entry<T>) {
    !e.Malformed?
  }

  function Or<T>(e: Entry<T>, default: T): (r: T)
  {
    if e.Present? then e.value else default
  }

  function Maybe<T>(e: Entry<T>): (r: Option<T>)
  {
    if e.Present? then Some(e.value) else None
  }

  predicate GivenNonBlank(e: Entry<string>) {
    e.Present? && !IsBlank(e.value)
  }

  predicate NotBlankIfGiven(e: Entry<string>) {
    Nullable(e) && (e.Present? ==> !IsBlank(e.value))
  }

  // ------------------------------------------------------------------ secrets

  predicate SecretOk(name: string, body: Entry<SecretValues>) {
    && !IsBlank(name)
    && body.Present?
    && GivenNonBlank(body.value.key)
    && (body.value.source == Absent || body.value.source == Present("env") || body.value.source == Present("file"))
    && Typed(body.value.required)
  }

  /** When a secret is read, and as what: from the environment, and required, unless it says otherwise. */
  lemma SecretReadIff(name: string, body: Entry<SecretValues>)
    ensures ParseSecret(name, body).Some? <==> SecretOk(name, body)
    ensures SecretOk(name, body) ==>
              ParseSecret(name, body).value
              == SecretRef(name, if body.value.source == Present("file") then SecretFile else Env,
                           body.value.key.value, Or(body.value.required, true))
  {
    assert |"env"| != |"file"|;
  }

  // ------------------------------------------------------------------- stores

  function BackendOf(v: StoreValues): (name: string)
  {
    Or(v.backend, "memory")
  }

  predicate StoreOk(v: StoreValues) {
    && Typed(v.backend) && Nullable(v.path) && Nullable(v.urlEnv) && Nullable(v.tenantId)
    && match BackendOf(v)
       case "memory" => !v.path.Present? && !v.tenantId.Present?
       case "file" => GivenNonBlank(v.path) && !v.tenantId.Present?
       case "sqlite" => GivenNonBlank(v.path) && !v.tenantId.Present?
       case "postgres" => !v.path.Present? && GivenNonBlank(v.urlEnv) && NotBlankIfGiven(v.tenantId)
       case _ => false
  }

  lemma StoreReadIff(v: StoreValues)
    ensures ParseStore(v).Some? <==> StoreOk(v)
    ensures StoreOk(v) ==>
              var c := ParseStore(v).value;
              && (c.backend == Memory <==> BackendOf(v) == "memory")
              && (c.backend == File <==> BackendOf(v) == "file")
              && (c.backend == Sqlite <==> BackendOf(v) == "sqlite")
              && (c.backend == Postgres <==> BackendOf(v) == "postgres")
              && c.path == Maybe(v.path) && c.urlEnv == Maybe(v.urlEnv) && c.tenantId == Maybe(v.tenantId)
  {
    assert |"memory"| == 6 && |"file"| == 4 && |"sqlite"| == 6 && |"postgres"| == 8;
    assert "memory"[0] == 'm' && "sqlite"[0] == 's';
  }

  // ------------------------------------------------------------------- limits

  predicate LimitsOk(v: LimitsValues) {
    && Typed(v.maxIterations) && Or(v.maxIterations, 20) > 0
    && Typed(v.maxRecoverySteps) && Or(v.maxRecoverySteps, 8) > 0
    && Nullable(v.maxTotalCostMicros) && Or(v.maxTotalCostMicros, 0) >= 0
    && Nullable(v.maxTotalTokens) && Or(v.maxTotalTokens, 0) >= 0
  }

  lemma LimitsReadIff(v: LimitsValues)
    ensures ParseLimits(v).Some? <==> LimitsOk(v)
    ensures LimitsOk(v) ==>
              ParseLimits(v).value
              == LimitsConfig(Or(v.maxIterations, 20), Or(v.maxRecoverySteps, 8),
                              Maybe(v.maxTotalCostMicros), Maybe(v.maxTotalTokens))
  {
  }

  // ------------------------------------------------------------------ domains

  predicate DomainOk(v: DomainValues) {
    && NotBlankIfGiven(v.name) && NotBlankIfGiven(v.version) && NotBlankIfGiven(v.backend)
    && Typed(v.settings)
  }

  function DomainAs(v: DomainValues): (c: DomainConfig)
  {
    DomainConfig(Maybe(v.name), Maybe(v.version), Maybe(v.backend), Or(v.settings, map[]))
  }

  lemma DomainReadIff(v: DomainValues)
    ensures ParseDomain(v).Some? <==> DomainOk(v)
    ensures DomainOk(v) ==> ParseDomain(v).value == DomainAs(v)
  {
  }

  predicate ListedDomainOk(item: Entry<DomainValues>) {
    && item.Present? && DomainOk(item.value)
    && item.value.name.Present? && item.value.version.Present?
  }

  function NameAtVersion(item: Entry<DomainValues>): (key: string)
    requires ListedDomainOk(item)
  {
    item.value.name.value + "@" + item.value.version.value
  }

  /** What a list of domains has to be: named, versioned, and no two alike. */
  ghost predicate DomainListOk(items: DomainItems) {
    && (forall i :: 0 <= i < |items| ==> ListedDomainOk(items[i]))
    && (forall i, j :: 0 <= i < j < |items| ==> NameAtVersion(items[i]) != NameAtVersion(items[j]))
  }

  lemma DomainListReadIff(items: DomainItems)
    ensures DomainListOk(items) <==>
            && ItemsParse(items)
            && (forall i :: 0 <= i < |items| ==> Identified(ParsedItems(items)[i]))
            && DistinctKeys(ParsedItems(items))
    ensures DomainListOk(items) ==>
              forall i :: 0 <= i < |items| ==> ParsedItems(items)[i] == DomainAs(items[i].value)
  {
    forall i | 0 <= i < |items|
      ensures ParseItem(items[i]).Some? <==> items[i].Present? && DomainOk(items[i].value)
      ensures ParseItem(items[i]).Some? ==> ParseItem(items[i]).value == DomainAs(items[i].value)
    {
      if items[i].Present? {
        DomainReadIff(items[i].value);
      }
    }
    if ItemsParse(items) {
      assert forall i :: 0 <= i < |items| ==> (Identified(ParsedItems(items)[i]) <==> ListedDomainOk(items[i]));
      assert forall i :: 0 <= i < |items| && ListedDomainOk(items[i]) ==>
               DomainKey(ParsedItems(items)[i]) == NameAtVersion(items[i]);
    }
  }

  // -------------------------------------------------------------------- model

  function ProviderOf(v: ModelValues): (name: string)
  {
    Or(v.provider, "scripted")
  }

  predicate ModelOk(v: ModelValues) {
    && Typed(v.provider) && Typed(v.name) && Typed(v.timeoutSeconds) && Typed(v.headers) && Typed(v.extraBody)
    && Nullable(v.endpoint) && Nullable(v.apiKeySecret) && Nullable(v.responseFormat)
    && !IsBlank(Or(v.name, "scripted"))
    && Or(v.timeoutSeconds, 30.0) > 0.0
    && match ProviderOf(v)
       case "scripted" =>
         && !v.endpoint.Present? && Or(v.extraBody, map[]) == map[]
         && !v.apiKeySecret.Present? && !v.responseFormat.Present?
       case "json_http" =>
         GivenNonBlank(v.endpoint) && NotBlankIfGiven(v.apiKeySecret) && !v.responseFormat.Present?
       case "openai_responses" =>
         NotBlankIfGiven(v.endpoint) && GivenNonBlank(v.apiKeySecret) && !v.responseFormat.Present?
       case "openai_chat_completions" =>
         && NotBlankIfGiven(v.endpoint) && GivenNonBlank(v.apiKeySecret)
         && (v.responseFormat.Present? ==>
               v.responseFormat.value in {"json_schema", "json_object", "prompt_json"})
       case _ => false
  }

  ghost predicate ReadsModel(c: ModelConfig, v: ModelValues) {
    && (c.provider == Scripted <==> ProviderOf(v) == "scripted")
    && (c.provider == JsonHttp <==> ProviderOf(v) == "json_http")
    && (c.provider == OpenAiResponses <==> ProviderOf(v) == "openai_responses")
    && (c.provider == OpenAiChatCompletions <==> ProviderOf(v) == "openai_chat_completions")
    && c.name == Or(v.name, "scripted")
    && c.endpoint == Maybe(v.endpoint)
    && c.apiKeySecret == Maybe(v.apiKeySecret)
    && c.timeoutSeconds == Or(v.timeoutSeconds, 30.0)
    && c.headers == Or(v.headers, map[])
    && c.responseFormat == Maybe(v.responseFormat)
    && c.extraBody == Or(v.extraBody, map[])
  }

  lemma ModelReadIff(v: ModelValues)
    ensures ParseModel(v).Some? <==> ModelOk(v)
    ensures ModelOk(v) ==> ReadsModel(ParseModel(v).value, v)
  {
    assert |"scripted"| == 8 && |"json_http"| == 9 && |"openai_responses"| == 16 && |"openai_chat_completions"| == 23;
  }

  // ------------------------------------------------------------------ runtime

  predicate SecretTableOk(e: Entry<SecretTable>) {
    Nullable(e) && (e.Present? ==> forall name :: name in e.value ==> SecretOk(name, e.value[name]))
  }

  function DeclaredIn(e: Entry<SecretTable>): (table: SecretTable)
  {
    Or(e, map[])
  }

  lemma SecretsReadIff(e: Entry<SecretTable>)
    ensures ParseSecrets(e).Some? <==> SecretTableOk(e)
    ensures SecretTableOk(e) ==>
              && ParseSecrets(e).value.Keys == DeclaredIn(e).Keys
              && forall name :: name in DeclaredIn(e) ==>
                   Some(ParseSecrets(e).value[name]) == ParseSecret(name, DeclaredIn(e)[name])
  {
    if e.Present? {
      forall name | name in e.value
        ensures ParseSecret(name, e.value[name]).Some? <==> SecretOk(name, e.value[name])
      {
        SecretReadIff(name, e.value[name]);
      }
    }
  }

  predicate StoreEntryOk(e: Entry<StoreValues>) {
    Typed(e) && (e.Present? ==> StoreOk(e.value))
  }

  /** `retention_seconds` positive, budgets and stores in order. */
  predicate InfrastructureOk(v: RuntimeValues) {
    && StoreEntryOk(v.store) && StoreEntryOk(v.distributedQueue)
    && StoreEntryOk(v.distributedLocks) && StoreEntryOk(v.distributedWorkers)
    && Nullable(v.retentionSeconds)
    && Typed(v.limits) && LimitsOk(Or(v.limits, NO_LIMITS_VALUES))
  }

  lemma StoreEntryReadIff(e: Entry<StoreValues>)
    ensures ParseStoreEntry(e).Some? <==> StoreEntryOk(e)
    ensures e.Absent? ==> ParseStoreEntry(e) == Some(StoreConfig(Memory, None, None, None))
    ensures e.Present? && StoreOk(e.value) ==> ParseStoreEntry(e) == ParseStore(e.value)
  {
    StoreReadIff(Or(e, NO_STORE_VALUES));
    assert BackendOf(NO_STORE_VALUES) == "memory";
  }

  lemma InfrastructureReadIff(v: RuntimeValues)
    ensures ParseInfrastructure(v).Some? <==> InfrastructureOk(v)
    ensures InfrastructureOk(v) ==>
              ParseInfrastructure(v).value
              == Infrastructure(ParseStoreEntry(v.store).value, ParseStoreEntry(v.distributedQueue).value,
                                ParseStoreEntry(v.distributedLocks).value,
                                ParseStoreEntry(v.distributedWorkers).value,
                                Maybe(v.retentionSeconds), ParseLimits(Or(v.limits, NO_LIMITS_VALUES)).value)
  {
    StoreEntryReadIff(v.store);
    StoreEntryReadIff(v.distributedQueue);
    StoreEntryReadIff(v.distributedLocks);
    StoreEntryReadIff(v.distributedWorkers);
    LimitsReadIff(Or(v.limits, NO_LIMITS_VALUES));
  }

  predicate PathsOk(paths: seq<string>) {
    && (forall i :: 0 <= i < |paths| ==> !IsBlank(paths[i]))
    && (forall i, j :: 0 <= i < j < |paths| ==> paths[i] != paths[j])
  }

  /** Each part of the document by itself. */
  ghost predicate PartsOk(v: RuntimeValues) {
    && SecretTableOk(v.secrets)
    && Typed(v.model) && ModelOk(Or(v.model, NO_MODEL_VALUES))
    && InfrastructureOk(v)
    && Typed(v.environment)
    && Typed(v.packagePaths)
    && Typed(v.domain)
    && Nullable(v.domains)
  }

  /** What `validate` asks of the whole. */
  ghost predicate WholeOk(v: RuntimeValues) {
    && (v.retentionSeconds.Present? ==> v.retentionSeconds.value > 0.0)
    && PathsOk(Or(v.packagePaths, []))
    && DomainListOk(Or(v.domains, []))
    && (Or(v.domains, []) == [] ==> DomainOk(Or(v.domain, NO_DOMAIN_VALUES)))
    && (v.model.Present? && v.model.value.apiKeySecret.Present? ==>
          v.model.value.apiKeySecret.value in DeclaredIn(v.secrets))
  }

  lemma DomainsReadIff(v: RuntimeValues)
    requires Nullable(v.domains)
    ensures ParseDomains(v.domains).Some? <==> ItemsParse(Or(v.domains, []))
    ensures ItemsParse(Or(v.domains, [])) ==> ParseDomains(v.domains) == Some(ParsedItems(Or(v.domains, [])))
  {
  }

  /** The parts of the document the rest of `from_mapping` works on. */
  ghost predicate AllRead(v: RuntimeValues) {
    && PartsOk(v) && ItemsParse(Or(v.domains, []))
    && (Or(v.domains, []) == [] ==> DomainOk(Or(v.domain, NO_DOMAIN_VALUES)))
  }

  /** What assembling the parts needs, and what it makes of them. */
  lemma AssembledIff(domains: Option<seq<DomainConfig>>, values: Option<DomainValues>,
                     secrets: Option<map<string, SecretRef>>, model: Option<ModelConfig>,
                     infra: Option<Infrastructure>, environment: Option<map<string, Opaque>>,
                     paths: Option<seq<string>>)
    ensures ConfigFrom(domains, values, secrets, model, infra, environment, paths).Some? <==>
            && domains.Some? && values.Some? && secrets.Some? && model.Some? && infra.Some?
            && environment.Some? && paths.Some?
            && (domains.value == [] ==> ParseDomain(values.value).Some?)
    ensures ConfigFrom(domains, values, secrets, model, infra, environment, paths).Some? ==>
              var c := ConfigFrom(domains, values, secrets, model, infra, environment, paths).value;
              && environment == Some(c.environment) && secrets == Some(c.secrets) && model == Some(c.model)
              && infra == Some(Infrastructure(c.store, c.distributedQueue, c.distributedLocks, c.distributedWorkers,
                                              c.retentionSeconds, c.limits))
              && domains == Some(c.domains) && paths == Some(c.packagePaths)
              && Some(c.domain) == (if c.domains != [] then Some(c.domains[0]) else ParseDomain(values.value))
  {
  }

  /** How the parts of an assembled configuration were read. */
  ghost predicate ReadsParts(c: RuntimeConfig, v: RuntimeValues) {
    && c.environment == Or(v.environment, map[])
    && Some(c.secrets) == ParseSecrets(v.secrets)
    && Some(c.model) == ParseModel(Or(v.model, NO_MODEL_VALUES))
    && Some(Infrastructure(c.store, c.distributedQueue, c.distributedLocks, c.distributedWorkers,
                           c.retentionSeconds, c.limits)) == ParseInfrastructure(v)
    && ItemsParse(Or(v.domains, [])) && c.domains == ParsedItems(Or(v.domains, []))
    && c.domain == (if c.domains != [] then c.domains[0] else DomainAs(Or(v.domain, NO_DOMAIN_VALUES)))
    && c.packagePaths == Or(v.packagePaths, [])
  }

  lemma ModelEntryReadIff(e: Entry<ModelValues>)
    ensures ReadModel(e).Some? <==> Typed(e) && ModelOk(Or(e, NO_MODEL_VALUES))
    ensures ReadModel(e).Some? ==> ReadModel(e) == ParseModel(Or(e, NO_MODEL_VALUES))
  {
    ModelReadIff(Or(e, NO_MODEL_VALUES));
  }

  lemma DomainEntryReadIff(v: RuntimeValues)
    ensures ParseDomains(v.domains).Some? <==> Nullable(v.domains) && ItemsParse(Or(v.domains, []))
    ensures ParseDomains(v.domains).Some? ==> ParseDomains(v.domains).value == ParsedItems(Or(v.domains, []))
    ensures WithDefault(v.domain, NO_DOMAIN_VALUES).Some? <==> Typed(v.domain)
    ensures Typed(v.domain) ==>
              var values := WithDefault(v.domain, NO_DOMAIN_VALUES).value;
              && values == Or(v.domain, NO_DOMAIN_VALUES)
              && (ParseDomain(values).Some? <==> DomainOk(values))
              && (DomainOk(values) ==> ParseDomain(values).value == DomainAs(values))
  {
    if Nullable(v.domains) {
      DomainsReadIff(v);
    }
    DomainReadIff(Or(v.domain, NO_DOMAIN_VALUES));
  }

  lemma UncheckedReadIff(v: RuntimeValues)
    ensures Unchecked(v).Some? <==> AllRead(v)
  {
    SecretsReadIff(v.secrets);
    ModelEntryReadIff(v.model);
    InfrastructureReadIff(v);
    DomainEntryReadIff(v);
    AssembleDocument(v);
  }

  lemma AssembleDocument(v: RuntimeValues)
    ensures Unchecked(v).Some? <==>
            && ParseDomains(v.domains).Some? && WithDefault(v.domain, NO_DOMAIN_VALUES).Some?
            && ParseSecrets(v.secrets).Some? && ReadModel(v.model).Some? && ParseInfrastructure(v).Some?
            && WithDefault(v.environment, map[]).Some? && WithDefault(v.packagePaths, []).Some?
            && (ParseDomains(v.domains).value == [] ==>
                  ParseDomain(WithDefault(v.domain, NO_DOMAIN_VALUES).value).Some?)
  {
    AssembledIff(ParseDomains(v.domains), WithDefault(v.domain, NO_DOMAIN_VALUES), ParseSecrets(v.secrets),
                 ReadModel(v.model), ParseInfrastructure(v), WithDefault(v.environment, map[]),
                 WithDefault(v.packagePaths, []));
  }

  lemma UncheckedReadsParts(v: RuntimeValues)
    requires Unchecked(v).Some?
    ensures ReadsParts(Unchecked(v).value, v)
  {
    ModelEntryReadIff(v.model);
    DomainEntryReadIff(v);
    AssembledIff(ParseDomains(v.domains), WithDefault(v.domain, NO_DOMAIN_VALUES), ParseSecrets(v.secrets),
                 ReadModel(v.model), ParseInfrastructure(v), WithDefault(v.environment, map[]),
                 WithDefault(v.packagePaths, []));
  }

  // ----------------------------------------------------------------- the whole

  /** What `validate` finds in order whatever the document, once its parts are read. */
  ghost predicate PartsValid(c: RuntimeConfig) {
    && (forall name :: name in c.secrets ==> c.secrets[name].name == name && ValidSecret(c.secrets[name]))
    && ValidModel(c.model) && ValidLimits(c.limits) && ValidDomain(c.domain)
    && ValidStore(c.store) && ValidStore(c.distributedQueue)
    && ValidStore(c.distributedLocks) && ValidStore(c.distributedWorkers)
    && (forall i :: 0 <= i < |c.domains| ==> ValidDomain(c.domains[i]))
    && (c.domains != [] ==> c.domain == c.domains[0])
  }

  lemma InfrastructureValid(v: RuntimeValues)
    requires ParseInfrastructure(v).Some?
    ensures var i := ParseInfrastructure(v).value;
            && ValidStore(i.store) && ValidStore(i.queue) && ValidStore(i.locks) && ValidStore(i.workers)
            && ValidLimits(i.limits) && i.retentionSeconds == Maybe(v.retentionSeconds)
  {
    InfrastructureReadIff(v);
  }

  lemma ReadPartsValid(v: RuntimeValues)
    requires Unchecked(v).Some?
    ensures PartsValid(Unchecked(v).value)
    ensures Unchecked(v).value.retentionSeconds == Maybe(v.retentionSeconds)
  {
    UncheckedReadsParts(v);
    InfrastructureValid(v);
    AssembleDocument(v);
    DomainEntryReadIff(v);
  }

  lemma ReadModelAs(v: RuntimeValues)
    requires Unchecked(v).Some?
    ensures ReadsModel(Unchecked(v).value.model, Or(v.model, NO_MODEL_VALUES))
    ensures Unchecked(v).value.secrets.Keys == DeclaredIn(v.secrets).Keys
  {
    UncheckedReadsParts(v);
    ModelReadIff(Or(v.model, NO_MODEL_VALUES));
    SecretsReadIff(v.secrets);
  }

  /** A document is accepted if and only if each part is in order and they fit together. */
  lemma RuntimeAcceptedIff(v: RuntimeValues)
    ensures ParseRuntime(v).Some? <==> PartsOk(v) && WholeOk(v)
  {
    UncheckedReadIff(v);
    DomainListReadIff(Or(v.domains, []));
    if Unchecked(v).Some? {
      CheckedIff(v);
    }
  }

  lemma CheckedIff(v: RuntimeValues)
    requires Unchecked(v).Some? && AllRead(v)
    ensures ParseRuntime(v).Some? <==> WholeOk(v)
  {
    var c := Unchecked(v).value;
    UncheckedReadsParts(v);
    ReadPartsValid(v);
    ReadModelAs(v);
    ValidIff(c);
    WholeDecides(v, c);
  }

  /** What is left to check when every part has been read. */
  lemma ValidIff(c: RuntimeConfig)
    requires PartsValid(c)
    ensures ValidRuntime(c) <==>
            && (c.model.apiKeySecret.Some? ==> c.model.apiKeySecret.value in c.secrets)
            && (c.retentionSeconds.Some? ==> c.retentionSeconds.value > 0.0)
            && (forall i :: 0 <= i < |c.domains| ==> Identified(c.domains[i]))
            && DistinctKeys(c.domains)
            && PathsOk(c.packagePaths)
  {
    assert DistinctKeys([c.domain]) && DistinctKeys([]);
  }

  /** The checks of the whole, on the document and on what was read. */
  lemma WholeDecides(v: RuntimeValues, c: RuntimeConfig)
    requires AllRead(v) && ReadsParts(c, v) && ReadsModel(c.model, Or(v.model, NO_MODEL_VALUES))
    requires c.secrets.Keys == DeclaredIn(v.secrets).Keys && c.retentionSeconds == Maybe(v.retentionSeconds)
    ensures WholeOk(v) <==>
            && (c.model.apiKeySecret.Some? ==> c.model.apiKeySecret.value in c.secrets)
            && (c.retentionSeconds.Some? ==> c.retentionSeconds.value > 0.0)
            && (forall i :: 0 <= i < |c.domains| ==> Identified(c.domains[i]))
            && DistinctKeys(c.domains)
            && PathsOk(c.packagePaths)
  {
    DomainListReadIff(Or(v.domains, []));
  }

  // ------------------------------------------------------------ what it is read as

  ghost predicate ReadsStore(c: StoreConfig, v: StoreValues) {
    && (c.backend == Memory <==> BackendOf(v) == "memory")
    && (c.backend == File <==> BackendOf(v) == "file")
    && (c.backend == Sqlite <==> BackendOf(v) == "sqlite")
    && (c.backend == Postgres <==> BackendOf(v) == "postgres")
    && c.path == Maybe(v.path) && c.urlEnv == Maybe(v.urlEnv) && c.tenantId == Maybe(v.tenantId)
  }

  ghost predicate ReadsSecrets(secrets: map<string, SecretRef>, table: SecretTable) {
    && secrets.Keys == table.Keys
    && forall name :: name in table ==>
         && table[name].Present? && table[name].value.key.Present?
         && secrets[name] == SecretRef(name, if table[name].value.source == Present("file") then SecretFile else Env,
                                       table[name].value.key.value, Or(table[name].value.required, true))
  }

  ghost predicate ReadsDomains(domains: seq<DomainConfig>, items: DomainItems) {
    && |domains| == |items|
    && forall i :: 0 <= i < |items| ==> items[i].Present? && domains[i] == DomainAs(items[i].value)
  }

  /** Every field of the configuration, from its key or from its default. */
  ghost predicate ReadAs(c: RuntimeConfig, v: RuntimeValues) {
    && c.environment == Or(v.environment, map[])
    && ReadsSecrets(c.secrets, DeclaredIn(v.secrets))
    && ReadsModel(c.model, Or(v.model, NO_MODEL_VALUES))
    && ReadsStore(c.store, Or(v.store, NO_STORE_VALUES))
    && ReadsStore(c.distributedQueue, Or(v.distributedQueue, NO_STORE_VALUES))
    && ReadsStore(c.distributedLocks, Or(v.distributedLocks, NO_STORE_VALUES))
    && ReadsStore(c.distributedWorkers, Or(v.distributedWorkers, NO_STORE_VALUES))
    && c.retentionSeconds == Maybe(v.retentionSeconds)
    && c.limits == LimitsConfig(Or(Or(v.limits, NO_LIMITS_VALUES).maxIterations, 20),
                                Or(Or(v.limits, NO_LIMITS_VALUES).maxRecoverySteps, 8),
                                Maybe(Or(v.limits, NO_LIMITS_VALUES).maxTotalCostMicros),
                                Maybe(Or(v.limits, NO_LIMITS_VALUES).maxTotalTokens))
    && ReadsDomains(c.domains, Or(v.domains, []))
    && c.domain == (if c.domains != [] then c.domains[0] else DomainAs(Or(v.domain, NO_DOMAIN_VALUES)))
    && c.packagePaths == Or(v.packagePaths, [])
  }

  lemma StoreEntryReadAs(e: Entry<StoreValues>)
    requires ParseStoreEntry(e).Some?
    ensures ReadsStore(ParseStoreEntry(e).value, Or(e, NO_STORE_VALUES))
  {
    StoreEntryReadIff(e);
    StoreReadIff(Or(e, NO_STORE_VALUES));
  }

  lemma SecretsReadAs(e: Entry<SecretTable>)
    requires ParseSecrets(e).Some?
    ensures ReadsSecrets(ParseSecrets(e).value, DeclaredIn(e))
  {
    SecretsReadIff(e);
    forall name | name in DeclaredIn(e)
      ensures DeclaredIn(e)[name].Present? && DeclaredIn(e)[name].value.key.Present?
      ensures ParseSecrets(e).value[name]
           == SecretRef(name, if DeclaredIn(e)[name].value.source == Present("file") then SecretFile else Env,
                        DeclaredIn(e)[name].value.key.value, Or(DeclaredIn(e)[name].value.required, true))
    {
      SecretReadIff(name, DeclaredIn(e)[name]);
    }
  }

  lemma ItemsReadAs(items: DomainItems)
    requires ItemsParse(items)
    ensures ReadsDomains(ParsedItems(items), items)
  {
    forall i | 0 <= i < |items|
      ensures items[i].Present? && ParsedItems(items)[i] == DomainAs(items[i].value)
    {
      assert ParseItem(items[i]).Some?;
      DomainReadIff(items[i].value);
    }
  }

  lemma InfrastructureReadAs(c: RuntimeConfig, v: RuntimeValues)
    requires ParseInfrastructure(v)
          == Some(Infrastructure(c.store, c.distributedQueue, c.distributedLocks, c.distributedWorkers,
                                 c.retentionSeconds, c.limits))
    ensures ReadsStore(c.store, Or(v.store, NO_STORE_VALUES))
    ensures ReadsStore(c.distributedQueue, Or(v.distributedQueue, NO_STORE_VALUES))
    ensures ReadsStore(c.distributedLocks, Or(v.distributedLocks, NO_STORE_VALUES))
    ensures ReadsStore(c.distributedWorkers, Or(v.distributedWorkers, NO_STORE_VALUES))
    ensures c.retentionSeconds == Maybe(v.retentionSeconds)
    ensures Some(c.limits) == ParseLimits(Or(v.limits, NO_LIMITS_VALUES))
  {
    InfrastructureReadIff(v);
    StoreEntryReadIff(v.store);
    StoreEntryReadIff(v.distributedQueue);
    StoreEntryReadIff(v.distributedLocks);
    StoreEntryReadIff(v.distributedWorkers);
    StoreEntryReadAs(v.store);
    StoreEntryReadAs(v.distributedQueue);
    StoreEntryReadAs(v.distributedLocks);
    StoreEntryReadAs(v.distributedWorkers);
    LimitsReadIff(Or(v.limits, NO_LIMITS_VALUES));
  }

  lemma RuntimeReadAs(v: RuntimeValues)
    requires ParseRuntime(v).Some?
    ensures ReadAs(ParseRuntime(v).value, v)
  {
    var c := ParseRuntime(v).value;
    assert Unchecked(v) == Some(c);
    UncheckedReadsParts(v);
    SecretsReadAs(v.secrets);
    ModelReadIff(Or(v.model, NO_MODEL_VALUES));
    InfrastructureReadAs(c, v);
    LimitsReadIff(Or(v.limits, NO_LIMITS_VALUES));
    ItemsReadAs(Or(v.domains, []));
  }

  // ------------------------------------------------------------------- profile

  /** A profile document is accepted when it is named, and its domains and its section are in order and agree. */
  ghost predicate ProfileOk(p: ProfileValues) {
    && GivenNonBlank(p.header.name) && GivenNonBlank(p.header.version)
    && Typed(p.header.description) && Nullable(p.header.tenantId) && Nullable(p.header.ownerId)
    && Typed(p.domain) && Nullable(p.domains)
    && Typed(p.runtime) && PartsOk(Or(p.runtime, NO_RUNTIME_VALUES)) && WholeOk(Or(p.runtime, NO_RUNTIME_VALUES))
    && DomainListOk(OwnItems(p))
    && (RuntimeItems(Or(p.runtime, NO_RUNTIME_VALUES)) != [] ==>
          SameNames(RuntimeItems(Or(p.runtime, NO_RUNTIME_VALUES)), OwnItems(p)))
  }

  /** The domains a profile names: its list, or else its primary domain. */
  function OwnItems(p: ProfileValues): (items: DomainItems)
  {
    if Or(p.domains, []) != [] then p.domains.value else [Present(Or(p.domain, NO_DOMAIN_VALUES))]
  }

  /** The domains a runtime section names: its list, or else its domain if that has a name or a version. */
  function RuntimeItems(v: RuntimeValues): (items: DomainItems)
  {
    var domain := Or(v.domain, NO_DOMAIN_VALUES);
    if Or(v.domains, []) != [] then v.domains.value
    else if domain.name.Present? || domain.version.Present? then [Present(domain)]
    else []
  }

  ghost predicate SameNames(a: DomainItems, b: DomainItems) {
    && |a| == |b|
    && forall i :: 0 <= i < |a| ==>
         && a[i].Present? && b[i].Present?
         && Maybe(a[i].value.name) == Maybe(b[i].value.name)
         && Maybe(a[i].value.version) == Maybe(b[i].value.version)
  }

  lemma LabelsOkIff(h: ProfileHeader)
    ensures ParseHeader(h).Some? <==>
            h.name.Present? && h.version.Present? && Typed(h.description) && Nullable(h.tenantId) && Nullable(h.ownerId)
    ensures ParseHeader(h).Some? ==>
              ParseHeader(h).value
              == Labels(h.name.value, h.version.value, Or(h.description, ""), Maybe(h.tenantId), Maybe(h.ownerId))
  {
  }

  /** When the parts of a profile are all read. */
  ghost predicate ProfileRead(p: ProfileValues) {
    && ParseHeader(p.header).Some?
    && Typed(p.domain) && Nullable(p.domains)
    && ItemsParse(OwnItems(p))
    && Typed(p.runtime) && ParseRuntime(Or(p.runtime, NO_RUNTIME_VALUES)).Some?
  }

  lemma OwnItemsParseIff(p: ProfileValues)
    requires Typed(p.domain) && Nullable(p.domains)
    ensures ItemsParse(OwnItems(p)) <==>
            && ParseDomains(p.domains).Some?
            && PrimaryDomain(ParseDomains(p.domains).value, WithDefault(p.domain, NO_DOMAIN_VALUES).value).Some?
    ensures ItemsParse(OwnItems(p)) ==>
              var domains := ParseDomains(p.domains).value;
              ParsedItems(OwnItems(p))
              == if domains != [] then domains
                 else [ParseDomain(WithDefault(p.domain, NO_DOMAIN_VALUES).value).value]
  {
    var primary := Present(Or(p.domain, NO_DOMAIN_VALUES));
    assert WithDefault(p.domain, NO_DOMAIN_VALUES).value == primary.value;
    assert ParseItem(primary) == ParseDomain(primary.value);
    if Or(p.domains, []) == [] {
      assert ParseDomains(p.domains) == Some([]);
      assert OwnItems(p) == [primary];
      if ItemsParse([primary]) {
        assert ParseItem([primary][0]).Some?;
        assert ParsedItems([primary]) == [ParseDomain(primary.value).value];
      }
    }
  }

  lemma ProfileReadIff(p: ProfileValues)
    ensures UncheckedProfile(p).Some? <==> ProfileRead(p)
    ensures UncheckedProfile(p).Some? ==>
              var c := UncheckedProfile(p).value;
              && OwnDomains(c) == ParsedItems(OwnItems(p)) && c.domain == OwnDomains(c)[0]
              && Some(c.runtime) == ParseRuntime(Or(p.runtime, NO_RUNTIME_VALUES))
              && c.name == p.header.name.value && c.version == p.header.version.value
  {
    LabelsOkIff(p.header);
    assert Typed(p.runtime) ==> ReadRuntime(p.runtime) == ParseRuntime(Or(p.runtime, NO_RUNTIME_VALUES));
    if Typed(p.domain) && Nullable(p.domains) {
      OwnItemsParseIff(p);
    }
    if UncheckedProfile(p).Some? {
      PartsOf(ParseHeader(p.header), WithDefault(p.domain, NO_DOMAIN_VALUES), ParseDomains(p.domains),
              ReadRuntime(p.runtime));
    }
  }

  lemma RuntimeItemsRead(v: RuntimeValues)
    requires ParseRuntime(v).Some?
    ensures var named, items := ConfiguredDomains(ParseRuntime(v).value), RuntimeItems(v);
            && |named| == |items|
            && forall i :: 0 <= i < |items| ==> items[i].Present? && named[i] == DomainAs(items[i].value)
  {
    RuntimeReadAs(v);
  }

  lemma OwnItemsRead(p: ProfileValues)
    requires ItemsParse(OwnItems(p))
    ensures ReadsDomains(ParsedItems(OwnItems(p)), OwnItems(p))
  {
    ItemsReadAs(OwnItems(p));
  }

  lemma SameNamesIff(a: DomainItems, b: DomainItems, x: seq<DomainConfig>, y: seq<DomainConfig>)
    requires ReadsDomains(x, a) && ReadsDomains(y, b)
    ensures SameNames(a, b) <==> SameIdentities(x, y)
  {
  }

  lemma OwnDomainsValidIff(p: ProfileValues, own: seq<DomainConfig>)
    requires ItemsParse(OwnItems(p)) && own == ParsedItems(OwnItems(p))
    ensures DomainListOk(OwnItems(p)) <==>
            (forall i :: 0 <= i < |own| ==> HasIdentity(own[i])) && DistinctKeys(own)
  {
    DomainListReadIff(OwnItems(p));
    forall i | 0 <= i < |own|
      ensures HasIdentity(own[i]) <==> Identified(own[i])
    {
      IdentityOfRead(own[i]);
    }
  }

  /** The same for a whole profile. */
  lemma ProfileAcceptedIff(p: ProfileValues)
    ensures ParseProfile(p).Some? <==> ProfileOk(p)
  {
    ProfileReadIff(p);
    LabelsOkIff(p.header);
    RuntimeAcceptedIff(Or(p.runtime, NO_RUNTIME_VALUES));
    DomainListReadIff(OwnItems(p));
    if UncheckedProfile(p).Some? {
      ProfileValidIff(p);
    }
  }

  lemma ProfileValidIff(p: ProfileValues)
    requires UncheckedProfile(p).Some? && ProfileRead(p)
    ensures ValidProfile(UncheckedProfile(p).value) <==>
            && !IsBlank(p.header.name.value) && !IsBlank(p.header.version.value)
            && DomainListOk(OwnItems(p))
            && (RuntimeItems(Or(p.runtime, NO_RUNTIME_VALUES)) != [] ==>
                  SameNames(RuntimeItems(Or(p.runtime, NO_RUNTIME_VALUES)), OwnItems(p)))
  {
    var c, v := UncheckedProfile(p).value, Or(p.runtime, NO_RUNTIME_VALUES);
    ProfileReadIff(p);
    RuntimeItemsRead(v);
    OwnItemsRead(p);
    OwnDomainsValidIff(p, OwnDomains(c));
    SameNamesIff(RuntimeItems(v), OwnItems(p), ConfiguredDomains(c.runtime), OwnDomains(c));
  }
}
