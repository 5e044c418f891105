/**
 Writing a configuration back as a document.  Reading such a document gives the
 configuration back if and only if it is valid, so `from_mapping` accepts
 exactly what `validate` does and reaches every valid configuration.
 */
module ConfigurationDocuments {
  import opened Prelude
  import opened Configuration

  function Written<T>(o: Option<T>): (e: Entry<T>)
  {
    if o.Some? then Present(o.value) else Absent
  }

  function SourceName(s: SecretSource): (name: string)
  {
    match s
    case Env => "env"
    case SecretFile => "file"
  }

  function BackendName(b: StoreBackend): (name: string)
  {
    match b
    case Memory => "memory"
    case File => "file"
    case Sqlite => "sqlite"
    case Postgres => "postgres"
  }

  function ProviderName(p: ModelProvider): (name: string)
  {
    match p
    case Scripted => "scripted"
    case JsonHttp => "json_http"
    case OpenAiChatCompletions => "openai_chat_completions"
    case OpenAiResponses => "openai_responses"
  }

  lemma NamesComeBack(b: StoreBackend, p: ModelProvider)
    ensures BackendNamed(BackendName(b)) == Some(b)
    ensures ProviderNamed(ProviderName(p)) == Some(p)
  {
    assert |"openai_responses"| != |"openai_chat_completions"|;
  }

  function SecretDocument(s: SecretRef): (v: SecretValues)
  {
    SecretValues(Present(SourceName(s.source)), Present(s.key), Present(s.required))
  }

  lemma SecretRoundTrip(s: SecretRef)
    ensures ParseSecret(s.name, Present(SecretDocument(s))) == if ValidSecret(s) then Some(s) else None
  {
    assert |"env"| != |"file"|;
    assert ParseSource(Present(SourceName(s.source))) == Some(s.source);
  }

  function StoreDocument(c: StoreConfig): (v: StoreValues)
  {
    StoreValues(Present(BackendName(c.backend)), Written(c.path), Written(c.urlEnv), Written(c.tenantId))
  }

  lemma StoreRoundTrip(c: StoreConfig)
    ensures ParseStore(StoreDocument(c)) == if ValidStore(c) then Some(c) else None
  {
    NamesComeBack(c.backend, Scripted);
  }

  function LimitsDocument(c: LimitsConfig): (v: LimitsValues)
  {
    LimitsValues(Present(c.maxIterations), Present(c.maxRecoverySteps),
                 Written(c.maxTotalCostMicros), Written(c.maxTotalTokens))
  }

  lemma LimitsRoundTrip(c: LimitsConfig)
    ensures ParseLimits(LimitsDocument(c)) == if ValidLimits(c) then Some(c) else None
  {
  }

  function DomainDocument(c: DomainConfig): (v: DomainValues)
  {
    DomainValues(Written(c.name), Written(c.version), Written(c.backend), Present(c.settings))
  }

  lemma DomainRoundTrip(c: DomainConfig)
    ensures ParseDomain(DomainDocument(c)) == if ValidDomain(c) then Some(c) else None
  {
  }

  function ModelDocument(c: ModelConfig): (v: ModelValues)
  {
    ModelValues(Present(ProviderName(c.provider)), Present(c.name), Written(c.endpoint), Written(c.apiKeySecret),
                Present(c.timeoutSeconds), Present(c.headers), Written(c.responseFormat), Present(c.extraBody))
  }

  lemma ModelRoundTrip(c: ModelConfig)
    ensures ParseModel(ModelDocument(c)) == if ValidModel(c) then Some(c) else None
  {
    NamesComeBack(Memory, c.provider);
  }

  function SecretsDocument(secrets: map<string, SecretRef>): (table: SecretTable)
  {
    map name | name in secrets :: Present(SecretDocument(secrets[name]))
  }

  lemma SecretsRoundTrip(secrets: map<string, SecretRef>)
    requires forall name :: name in secrets ==> secrets[name].name == name && ValidSecret(secrets[name])
    ensures ParseSecrets(Present(SecretsDocument(secrets))) == Some(secrets)
  {
    var table := SecretsDocument(secrets);
    forall name | name in table
      ensures ParseSecret(name, table[name]) == Some(secrets[name])
    {
      SecretRoundTrip(secrets[name]);
    }
    assert SecretsParse(table);
    assert ParseSecrets(Present(table)).value.Keys == secrets.Keys;
    assert ParseSecrets(Present(table)).value == secrets;
  }

  function DomainsDocument(domains: seq<DomainConfig>): (items: DomainItems)
    ensures |items| == |domains|
    ensures forall i :: 0 <= i < |items| ==> items[i] == Present(DomainDocument(domains[i]))
  {
    seq(|domains|, i requires 0 <= i < |domains| => Present(DomainDocument(domains[i])))
  }

  lemma DomainsRoundTrip(domains: seq<DomainConfig>)
    requires forall i :: 0 <= i < |domains| ==> ValidDomain(domains[i])
    ensures ParseDomains(Present(DomainsDocument(domains))) == Some(domains)
  {
    var items := DomainsDocument(domains);
    forall i | 0 <= i < |items|
      ensures ParseItem(items[i]) == Some(domains[i])
    {
      DomainRoundTrip(domains[i]);
    }
    assert ParsedItems(items) == domains;
  }

  function RuntimeDocument(c: RuntimeConfig): (v: RuntimeValues)
  {
    RuntimeValues(
      environment := Present(c.environment),
      secrets := Present(SecretsDocument(c.secrets)),
      model := Present(ModelDocument(c.model)),
      store := Present(StoreDocument(c.store)),
      distributedQueue := Present(StoreDocument(c.distributedQueue)),
      distributedLocks := Present(StoreDocument(c.distributedLocks)),
      distributedWorkers := Present(StoreDocument(c.distributedWorkers)),
      retentionSeconds := Written(c.retentionSeconds),
      limits := Present(LimitsDocument(c.limits)),
      domain := Present(DomainDocument(c.domain)),
      domains := Present(DomainsDocument(c.domains)),
      packagePaths := Present(c.packagePaths))
  }

  lemma InfrastructureRoundTrip(c: RuntimeConfig)
    requires ValidStore(c.store) && ValidStore(c.distributedQueue)
    requires ValidStore(c.distributedLocks) && ValidStore(c.distributedWorkers) && ValidLimits(c.limits)
    ensures ParseInfrastructure(RuntimeDocument(c))
         == Some(Infrastructure(c.store, c.distributedQueue, c.distributedLocks, c.distributedWorkers,
                                c.retentionSeconds, c.limits))
  {
    StoreRoundTrip(c.store);
    StoreRoundTrip(c.distributedQueue);
    StoreRoundTrip(c.distributedLocks);
    StoreRoundTrip(c.distributedWorkers);
    LimitsRoundTrip(c.limits);
  }

  /** A configuration comes back from its document if and only if it is valid. */
  lemma RuntimeRoundTripIff(c: RuntimeConfig)
    ensures ParseRuntime(RuntimeDocument(c)) == Some(c) <==> ValidRuntime(c)
  {
    if ValidRuntime(c) {
      SecretsRoundTrip(c.secrets);
      ModelRoundTrip(c.model);
      DomainsRoundTrip(c.domains);
      DomainRoundTrip(c.domain);
      InfrastructureRoundTrip(c);
      ReadFromParses(RuntimeDocument(c), c);
    }
  }
}
