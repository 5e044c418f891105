/**
 The runtime configuration: how a JSON document is read (`from_mapping`) and when
 it is valid (`validate`).  None stands for every `ValueError`; messages are not
 modelled.

 A document is what the schema looks at: each key is absent, null, of the wrong
 JSON type (and then truthy or not), or present.  Unknown keys are ignored by
 the source and do not appear.
 */
module Configuration {
  import opened Prelude
  import opened Text

  datatype Entry<+T> = Absent | Null | Malformed(truthy: bool) | Present(value: T)

  /** A JSON value nothing looks into. */
  type Opaque = string

  /** A field of type `T | None` defaulting to None. */
  function Optional<T>(e: Entry<T>): (r: Option<Option<T>>)
  {
    match e
    case Absent => Some(None)
    case Null => Some(None)
    case Malformed(_) => None
    case Present(v) => Some(Some(v))
  }

  /** A field of type `T` with a default. */
  function WithDefault<T>(e: Entry<T>, default: T): (r: Option<T>)
  {
    match e
    case Absent => Some(default)
    case Null => None
    case Malformed(_) => None
    case Present(v) => Some(v)
  }

  /** `parse_optional_non_empty_string` accepts it. */
  predicate NonEmptyIfGiven(s: Option<string>) {
    s.Some? ==> !IsBlank(s.value)
  }

  // ------------------------------------------------------------------ secrets

  datatype SecretSource = Env | SecretFile

  datatype SecretValues = SecretValues(source: Entry<string>, key: Entry<string>, required: Entry<bool>)

  datatype SecretRef = SecretRef(name: string, source: SecretSource, key: string, required: bool)

  function ParseSource(e: Entry<string>): (r: Option<SecretSource>)
  {
    match e
    case Absent => Some(Env)
    case Present(s) => if s == "env" then Some(Env) else if s == "file" then Some(SecretFile) else None
    case _ => None
  }

  predicate ValidSecret(s: SecretRef) {
    !IsBlank(s.name) && !IsBlank(s.key)
  }

  function ParseSecret(name: string, body: Entry<SecretValues>): (r: Option<SecretRef>)
    ensures r.Some? ==> r.value.name == name && ValidSecret(r.value)
  {
    if !body.Present? || !body.value.key.Present? then None
    else
      var source :- ParseSource(body.value.source);
      var required :- WithDefault(body.value.required, true);
      var secret := SecretRef(name, source, body.value.key.value, required);
      if ValidSecret(secret) then Some(secret) else None
  }

  type SecretTable = map<string, Entry<SecretValues>>

  predicate SecretsParse(table: SecretTable) {
    forall name :: name in table ==> ParseSecret(name, table[name]).Some?
  }

  /** The secrets of a document, by name; the source keeps them sorted by name. */
  function ParseSecrets(e: Entry<SecretTable>): (r: Option<map<string, SecretRef>>)
    ensures r.Some? ==> forall name :: name in r.value ==> r.value[name].name == name && ValidSecret(r.value[name])
  {
    var table :- Optional(e);
    if table.None? then Some(map[])
    else if SecretsParse(table.value) then
      Some(map name | name in table.value :: ParseSecret(name, table.value[name]).value)
    else None
  }

  // ------------------------------------------------------------------- stores

  datatype StoreBackend = Memory | File | Sqlite | Postgres

  datatype StoreValues = StoreValues(
    backend: Entry<string>, path: Entry<string>, urlEnv: Entry<string>, tenantId: Entry<string>)

  datatype StoreConfig = StoreConfig(
    backend: StoreBackend, path: Option<string>, urlEnv: Option<string>, tenantId: Option<string>)

  const NO_STORE_VALUES := StoreValues(Absent, Absent, Absent, Absent)

  function BackendNamed(name: string): (r: Option<StoreBackend>)
  {
    if name == "memory" then Some(Memory)
    else if name == "file" then Some(File)
    else if name == "sqlite" then Some(Sqlite)
    else if name == "postgres" then Some(Postgres)
    else None
  }

  function ParseBackend(e: Entry<string>): (r: Option<StoreBackend>)
  {
    var name :- WithDefault(e, "memory");
    BackendNamed(name)
  }

  predicate ValidStore(c: StoreConfig) {
    && (c.backend.File? || c.backend.Sqlite? ==> c.path.Some? && !IsBlank(c.path.value))
    && (c.backend.Memory? || c.backend.Postgres? ==> c.path.None?)
    && (c.backend.Postgres? ==> c.urlEnv.Some? && !IsBlank(c.urlEnv.value) && NonEmptyIfGiven(c.tenantId))
    && (!c.backend.Postgres? ==> c.tenantId.None?)
  }

  function ParseStore(v: StoreValues): (r: Option<StoreConfig>)
    ensures r.Some? ==> ValidStore(r.value)
  {
    var backend :- ParseBackend(v.backend);
    var path :- Optional(v.path);
    var urlEnv :- Optional(v.urlEnv);
    var tenantId :- Optional(v.tenantId);
    var config := StoreConfig(backend, path, urlEnv, tenantId);
    if ValidStore(config) then Some(config) else None
  }

  // ------------------------------------------------------------------- limits

  datatype LimitsValues = LimitsValues(
    maxIterations: Entry<int>, maxRecoverySteps: Entry<int>,
    maxTotalCostMicros: Entry<int>, maxTotalTokens: Entry<int>)

  datatype LimitsConfig = LimitsConfig(
    maxIterations: int, maxRecoverySteps: int, maxTotalCostMicros: Option<int>, maxTotalTokens: Option<int>)

  const NO_LIMITS_VALUES := LimitsValues(Absent, Absent, Absent, Absent)

  predicate ValidLimits(c: LimitsConfig) {
    && c.maxIterations > 0 && c.maxRecoverySteps > 0
    && (c.maxTotalCostMicros.Some? ==> c.maxTotalCostMicros.value >= 0)
    && (c.maxTotalTokens.Some? ==> c.maxTotalTokens.value >= 0)
  }

  function ParseLimits(v: LimitsValues): (r: Option<LimitsConfig>)
    ensures r.Some? ==> ValidLimits(r.value)
  {
    var iterations :- WithDefault(v.maxIterations, 20);
    var recovery :- WithDefault(v.maxRecoverySteps, 8);
    var cost :- Optional(v.maxTotalCostMicros);
    var tokens :- Optional(v.maxTotalTokens);
    var config := LimitsConfig(iterations, recovery, cost, tokens);
    if ValidLimits(config) then Some(config) else None
  }

  // ------------------------------------------------------------------ domains

  datatype DomainValues = DomainValues(
    name: Entry<string>, version: Entry<string>, backend: Entry<string>, settings: Entry<map<string, Opaque>>)

  datatype DomainConfig = DomainConfig(
    name: Option<string>, version: Option<string>, backend: Option<string>, settings: map<string, Opaque>)

  const NO_DOMAIN_VALUES := DomainValues(Absent, Absent, Absent, Absent)

  predicate ValidDomain(c: DomainConfig) {
    NonEmptyIfGiven(c.name) && NonEmptyIfGiven(c.version) && NonEmptyIfGiven(c.backend)
  }

  function ParseDomain(v: DomainValues): (r: Option<DomainConfig>)
    ensures r.Some? ==> ValidDomain(r.value)
    ensures r.Some? && v.name.Present? ==> r.value.name == Some(v.name.value)
    ensures r.Some? ==> (r.value.version.Some? <==> v.version.Present?)
  {
    var name :- Optional(v.name);
    var version :- Optional(v.version);
    var backend :- Optional(v.backend);
    var settings :- WithDefault(v.settings, map[]);
    var config := DomainConfig(name, version, backend, settings);
    if ValidDomain(config) then Some(config) else None
  }

  type DomainItems = seq<Entry<DomainValues>>

  function ParseItem(item: Entry<DomainValues>): (r: Option<DomainConfig>)
    ensures r.Some? ==> ValidDomain(r.value)
  {
    if item.Present? then ParseDomain(item.value) else None
  }

  predicate ItemsParse(items: DomainItems) {
    forall i :: 0 <= i < |items| ==> ParseItem(items[i]).Some?
  }

  function ParsedItems(items: DomainItems): (r: seq<DomainConfig>)
    requires ItemsParse(items)
    ensures |r| == |items|
    ensures forall i :: 0 <= i < |r| ==> r[i] == ParseItem(items[i]).value && ValidDomain(r[i])
  {
    seq(|items|, i requires 0 <= i < |items| => ParseItem(items[i]).value)
  }

  function ParseDomains(e: Entry<DomainItems>): (r: Option<seq<DomainConfig>>)
  {
    var items :- Optional(e);
    if items.None? then Some([])
    else if ItemsParse(items.value) then Some(ParsedItems(items.value))
    else None
  }

  function OrEmpty(s: Option<string>): (r: string)
  {
    if s.Some? then s.value else ""
  }

  /** The `name@version` key by which duplicates are found. */
  function DomainKey(d: DomainConfig): (r: string)
  {
    OrEmpty(d.name) + "@" + OrEmpty(d.version)
  }

  ghost predicate DistinctKeys(domains: seq<DomainConfig>) {
    forall i, j :: 0 <= i < j < |domains| ==> DomainKey(domains[i]) != DomainKey(domains[j])
  }

  function KeyAppears(domains: seq<DomainConfig>, key: string): (r: bool)
    ensures r <==> exists i :: 0 <= i < |domains| && DomainKey(domains[i]) == key
  {
    if domains == [] then false
    else
      assert forall i :: 1 <= i < |domains| ==> domains[i] == domains[1..][i - 1];
      DomainKey(domains[0]) == key || KeyAppears(domains[1..], key)
  }

  /** `_duplicate_domain_configs` finds nothing. */
  function NoDuplicateKeys(domains: seq<DomainConfig>): (r: bool)
    ensures r <==> DistinctKeys(domains)
  {
    if domains == [] then true
    else
      var rest := domains[1..];
      assert forall i :: 1 <= i < |domains| ==> domains[i] == rest[i - 1];
      assert DistinctKeys(domains) <==> DistinctKeys(rest) && !KeyAppears(rest, DomainKey(domains[0])) by {
        if DistinctKeys(rest) && !KeyAppears(rest, DomainKey(domains[0])) {
          forall i, j | 0 <= i < j < |domains|
            ensures DomainKey(domains[i]) != DomainKey(domains[j])
          {
            assert domains[j] == rest[j - 1];
            if i > 0 {
              assert domains[i] == rest[i - 1];
            }
          }
        }
        assert forall i, j :: 0 <= i < j < |rest| ==> rest[i] == domains[i + 1] && rest[j] == domains[j + 1];
      }
      !KeyAppears(rest, DomainKey(domains[0])) && NoDuplicateKeys(rest)
  }

  /** With '@'-free names the key determines the name, so distinct names have distinct keys. */
  lemma KeyDeterminesName(name1: string, version1: string, name2: string, version2: string)
    requires '@' !in name1 && '@' !in name2
    requires name1 + "@" + version1 == name2 + "@" + version2
    ensures name1 == name2 && version1 == version2
  {
    var key := name1 + "@" + version1;
    assert key[|name1|] == '@' && key[|name2|] == '@';
    assert forall i :: 0 <= i < |name1| ==> key[i] == name1[i] && name1[i] in name1;
    assert forall i :: 0 <= i < |name2| ==> key[i] == name2[i] && name2[i] in name2;
    assert name1 == key[..|name1|] && name2 == key[..|name2|];
    assert version1 == key[|name1| + 1..] && version2 == key[|name2| + 1..];
  }

  // -------------------------------------------------------------------- model

  datatype ModelProvider = Scripted | JsonHttp | OpenAiChatCompletions | OpenAiResponses

  datatype ModelValues = ModelValues(
    provider: Entry<string>, name: Entry<string>, endpoint: Entry<string>, apiKeySecret: Entry<string>,
    timeoutSeconds: Entry<real>, headers: Entry<map<string, string>>, responseFormat: Entry<string>,
    extraBody: Entry<map<string, Opaque>>)

  datatype ModelConfig = ModelConfig(
    provider: ModelProvider, name: string, endpoint: Option<string>, apiKeySecret: Option<string>,
    timeoutSeconds: real, headers: map<string, string>, responseFormat: Option<string>,
    extraBody: map<string, Opaque>)

  const NO_MODEL_VALUES := ModelValues(Absent, Absent, Absent, Absent, Absent, Absent, Absent, Absent)

  function ProviderNamed(name: string): (r: Option<ModelProvider>)
  {
    if name == "scripted" then Some(Scripted)
    else if name == "json_http" then Some(JsonHttp)
    else if name == "openai_chat_completions" then Some(OpenAiChatCompletions)
    else if name == "openai_responses" then Some(OpenAiResponses)
    else None
  }

  function ParseProvider(e: Entry<string>): (r: Option<ModelProvider>)
  {
    var name :- WithDefault(e, "scripted");
    ProviderNamed(name)
  }

  predicate ListedFormat(format: string) {
    format in {"json_schema", "json_object", "prompt_json"}
  }

  predicate ValidModel(c: ModelConfig) {
    && !IsBlank(c.name)
    && c.timeoutSeconds > 0.0
    && match c.provider
       case Scripted =>
         c.endpoint.None? && c.extraBody == map[] && c.apiKeySecret.None? && c.responseFormat.None?
       case JsonHttp =>
         && c.endpoint.Some? && !IsBlank(c.endpoint.value)
         && NonEmptyIfGiven(c.apiKeySecret)
         && c.responseFormat.None?
       case OpenAiResponses =>
         && NonEmptyIfGiven(c.endpoint)
         && c.apiKeySecret.Some? && !IsBlank(c.apiKeySecret.value)
         && c.responseFormat.None?
       case OpenAiChatCompletions =>
         && NonEmptyIfGiven(c.endpoint)
         && c.apiKeySecret.Some? && !IsBlank(c.apiKeySecret.value)
         && (c.responseFormat.Some? ==> ListedFormat(c.responseFormat.value))
  }

  function ParseModel(v: ModelValues): (r: Option<ModelConfig>)
    ensures r.Some? ==> ValidModel(r.value)
  {
    var provider :- ParseProvider(v.provider);
    var name :- WithDefault(v.name, "scripted");
    var endpoint :- Optional(v.endpoint);
    var apiKeySecret :- Optional(v.apiKeySecret);
    var timeout :- WithDefault(v.timeoutSeconds, 30.0);
    var headers :- WithDefault(v.headers, map[]);
    var responseFormat :- Optional(v.responseFormat);
    var extraBody :- WithDefault(v.extraBody, map[]);
    var config := ModelConfig(provider, name, endpoint, apiKeySecret, timeout, headers, responseFormat, extraBody);
    if ValidModel(config) then Some(config) else None
  }

  // ------------------------------------------------------------------ runtime

  datatype RuntimeValues = RuntimeValues(
    environment: Entry<map<string, Opaque>>,
    secrets: Entry<SecretTable>,
    model: Entry<ModelValues>,
    store: Entry<StoreValues>,
    distributedQueue: Entry<StoreValues>,
    distributedLocks: Entry<StoreValues>,
    distributedWorkers: Entry<StoreValues>,
    retentionSeconds: Entry<real>,
    limits: Entry<LimitsValues>,
    domain: Entry<DomainValues>,
    domains: Entry<DomainItems>,
    packagePaths: Entry<seq<string>>)

  datatype RuntimeConfig = RuntimeConfig(
    environment: map<string, Opaque>,
    secrets: map<string, SecretRef>,
    model: ModelConfig,
    store: StoreConfig,
    distributedQueue: StoreConfig,
    distributedLocks: StoreConfig,
    distributedWorkers: StoreConfig,
    retentionSeconds: Option<real>,
    limits: LimitsConfig,
    domain: DomainConfig,
    domains: seq<DomainConfig>,
    packagePaths: seq<string>)

  function ConfiguredDomains(c: RuntimeConfig): (r: seq<DomainConfig>)
  {
    if c.domains != [] then c.domains
    else if c.domain.name.None? && c.domain.version.None? then []
    else [c.domain]
  }

  /** `parse_unique_non_empty_string_sequence` accepts it. */
  predicate UniqueNonEmpty(paths: seq<string>) {
    && (forall i :: 0 <= i < |paths| ==> !IsBlank(paths[i]))
    && (forall i, j :: 0 <= i < j < |paths| ==> paths[i] != paths[j])
  }

  predicate Identified(d: DomainConfig) {
    d.name.Some? && d.version.Some?
  }

  predicate ValidRuntime(c: RuntimeConfig) {
    && (forall name :: name in c.secrets ==> c.secrets[name].name == name && ValidSecret(c.secrets[name]))
    && ValidModel(c.model)
    && (c.model.apiKeySecret.Some? ==> c.model.apiKeySecret.value in c.secrets)
    && ValidStore(c.store)
    && ValidStore(c.distributedQueue)
    && ValidStore(c.distributedLocks)
    && ValidStore(c.distributedWorkers)
    && (c.retentionSeconds.Some? ==> c.retentionSeconds.value > 0.0)
    && ValidLimits(c.limits)
    && ValidDomain(c.domain)
    && (forall i :: 0 <= i < |c.domains| ==> ValidDomain(c.domains[i]) && Identified(c.domains[i]))
    && (c.domains != [] ==> c.domain == c.domains[0])
    && NoDuplicateKeys(ConfiguredDomains(c))
    && UniqueNonEmpty(c.packagePaths)
  }

  /** `domains[0] if domains else DomainConfig.from_mapping(payload.domain)` */
  function PrimaryDomain(domains: seq<DomainConfig>, domain: DomainValues): (r: Option<DomainConfig>)
  {
    if domains != [] then Some(domains[0]) else ParseDomain(domain)
  }

  /** The parts of a document that have nothing to do with domains, secrets or the model. */
  datatype Infrastructure = Infrastructure(
    store: StoreConfig, queue: StoreConfig, locks: StoreConfig, workers: StoreConfig,
    retentionSeconds: Option<real>, limits: LimitsConfig)

  function ParseStoreEntry(e: Entry<StoreValues>): (r: Option<StoreConfig>)
    ensures r.Some? ==> ValidStore(r.value)
  {
    var values :- WithDefault(e, NO_STORE_VALUES);
    ParseStore(values)
  }

  function ParseInfrastructure(v: RuntimeValues): (r: Option<Infrastructure>)
  {
    var store :- ParseStoreEntry(v.store);
    var queue :- ParseStoreEntry(v.distributedQueue);
    var locks :- ParseStoreEntry(v.distributedLocks);
    var workers :- ParseStoreEntry(v.distributedWorkers);
    var retention :- Optional(v.retentionSeconds);
    var limitsValues :- WithDefault(v.limits, NO_LIMITS_VALUES);
    var limits :- ParseLimits(limitsValues);
    Some(Infrastructure(store, queue, locks, workers, retention, limits))
  }

  function Assembled(environment: map<string, Opaque>, secrets: map<string, SecretRef>, model: ModelConfig,
                     infra: Infrastructure, domain: DomainConfig, domains: seq<DomainConfig>,
                     packagePaths: seq<string>): (c: RuntimeConfig)
  {
    RuntimeConfig(environment, secrets, model, infra.store, infra.queue, infra.locks, infra.workers,
                  infra.retentionSeconds, infra.limits, domain, domains, packagePaths)
  }

  /** `config.validate()` */
  function Checked(c: RuntimeConfig): (r: Option<RuntimeConfig>)
    ensures r.Some? ==> r.value == c && ValidRuntime(c)
  {
    if ValidRuntime(c) then Some(c) else None
  }

  function ReadModel(e: Entry<ModelValues>): (r: Option<ModelConfig>)
    ensures r.Some? ==> ValidModel(r.value)
  {
    var values :- WithDefault(e, NO_MODEL_VALUES);
    ParseModel(values)
  }

  function ConfigFrom(domainList: Option<seq<DomainConfig>>, domainValues: Option<DomainValues>,
                      secretTable: Option<map<string, SecretRef>>, modelConfig: Option<ModelConfig>,
                      infrastructure: Option<Infrastructure>, environment: Option<map<string, Opaque>>,
                      packagePaths: Option<seq<string>>): (r: Option<RuntimeConfig>)
  {
    var domains :- domainList;
    var values :- domainValues;
    var domain :- PrimaryDomain(domains, values);
    var secrets :- secretTable;
    var model :- modelConfig;
    var infra :- infrastructure;
    var env :- environment;
    var paths :- packagePaths;
    Some(Assembled(env, secrets, model, infra, domain, domains, paths))
  }

  /** Every part of the document read, before `validate` looks at the whole. */
  function Unchecked(v: RuntimeValues): (r: Option<RuntimeConfig>)
  {
    ConfigFrom(ParseDomains(v.domains), WithDefault(v.domain, NO_DOMAIN_VALUES), ParseSecrets(v.secrets),
               ReadModel(v.model), ParseInfrastructure(v), WithDefault(v.environment, map[]),
               WithDefault(v.packagePaths, []))
  }

  /** `RuntimeConfig.from_mapping` */
  function ParseRuntime(v: RuntimeValues): (r: Option<RuntimeConfig>)
    ensures r.Some? ==> ValidRuntime(r.value)
  {
    var c :- Unchecked(v);
    Checked(c)
  }

  /** What a configuration owes to which part of its document. */
  ghost predicate ReadFrom(c: RuntimeConfig, v: RuntimeValues) {
    && ParseDomains(v.domains) == Some(c.domains)
    && (v.domain.Present? || v.domain.Absent?)
    && PrimaryDomain(c.domains, WithDefault(v.domain, NO_DOMAIN_VALUES).value) == Some(c.domain)
    && ParseSecrets(v.secrets) == Some(c.secrets)
    && ReadElsewhere(c, v)
  }

  ghost predicate ReadElsewhere(c: RuntimeConfig, v: RuntimeValues) {
    && (v.model.Present? || v.model.Absent?)
    && ParseModel(WithDefault(v.model, NO_MODEL_VALUES).value) == Some(c.model)
    && ParseInfrastructure(v)
       == Some(Infrastructure(c.store, c.distributedQueue, c.distributedLocks, c.distributedWorkers,
                              c.retentionSeconds, c.limits))
    && WithDefault(v.environment, map[]) == Some(c.environment)
    && WithDefault(v.packagePaths, []) == Some(c.packagePaths)
  }

  lemma UncheckedIsReadFrom(v: RuntimeValues)
    requires Unchecked(v).Some?
    ensures ReadFrom(Unchecked(v).value, v)
  {
  }

  lemma ReadFromIsUnchecked(v: RuntimeValues, c: RuntimeConfig)
    requires ReadFrom(c, v)
    ensures Unchecked(v) == Some(c)
  {
  }

  lemma ParsedIsReadFrom(v: RuntimeValues, c: RuntimeConfig)
    requires ParseRuntime(v) == Some(c)
    ensures ReadFrom(c, v) && ValidRuntime(c)
  {
    UncheckedIsReadFrom(v);
  }

  lemma ReadFromParses(v: RuntimeValues, c: RuntimeConfig)
    requires ReadFrom(c, v)
    ensures ParseRuntime(v) == Checked(c)
  {
    ReadFromIsUnchecked(v, c);
  }

  lemma UnreadablePartRefused(v: RuntimeValues)
    requires ParseDomains(v.domains).None? || ParseSecrets(v.secrets).None?
    ensures ParseRuntime(v).None?
  {
  }

  lemma DuplicateKeysRefused(v: RuntimeValues)
    requires ParseDomains(v.domains).Some? && ParseDomains(v.domains).value != []
    requires !DistinctKeys(ParseDomains(v.domains).value)
    ensures ParseRuntime(v).None?
  {
    if ParseRuntime(v).Some? {
      var c := ParseRuntime(v).value;
      ParsedIsReadFrom(v, c);
    }
  }
}
