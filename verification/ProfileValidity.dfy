/**
 A profile document as a whole (`ProfileConfig.from_mapping` and `validate`):
 its own domains, its runtime section, and the check that the two agree.
 */
module ProfileValidity {
  import opened Prelude
  import opened Text
  import opened Configuration
  import opened ProfileInit

  const NO_RUNTIME_VALUES := RuntimeValues(Absent, Absent, Absent, Absent, Absent, Absent, Absent, Absent,
                                           Absent, Absent, Absent, Absent)

  datatype ProfileConfig = ProfileConfig(
    name: string, version: string, description: string,
    domain: DomainConfig, runtime: RuntimeConfig, domains: seq<DomainConfig>,
    tenantId: Option<string>, ownerId: Option<string>)

  /** `ProfileConfig.configured_domains` */
  function OwnDomains(c: ProfileConfig): (r: seq<DomainConfig>)
    ensures r != []
  {
    if c.domains != [] then c.domains else [c.domain]
  }

  predicate HasIdentity(d: DomainConfig) {
    !IsBlank(OrEmpty(d.name)) && !IsBlank(OrEmpty(d.version))
  }

  /** `_domain_identities` of both give the same tuple. */
  ghost predicate SameIdentities(a: seq<DomainConfig>, b: seq<DomainConfig>) {
    && |a| == |b|
    && forall i :: 0 <= i < |a| ==> a[i].name == b[i].name && a[i].version == b[i].version
  }

  ghost predicate ValidProfile(c: ProfileConfig) {
    && !IsBlank(c.name) && !IsBlank(c.version)
    && HasIdentity(c.domain)
    && (forall i :: 0 <= i < |OwnDomains(c)| ==> HasIdentity(OwnDomains(c)[i]))
    && DistinctKeys(OwnDomains(c))
    && ValidRuntime(c.runtime)
    && (ConfiguredDomains(c.runtime) != [] ==> SameIdentities(ConfiguredDomains(c.runtime), OwnDomains(c)))
  }

  function Required<T>(e: Entry<T>): (r: Option<T>)
  {
    if e.Present? then Some(e.value) else None
  }

  datatype Labels = Labels(
    name: string, version: string, description: string, tenantId: Option<string>, ownerId: Option<string>)

  function ParseHeader(h: ProfileHeader): (r: Option<Labels>)
  {
    var name :- Required(h.name);
    var version :- Required(h.version);
    var description :- WithDefault(h.description, "");
    var tenantId :- Optional(h.tenantId);
    var ownerId :- Optional(h.ownerId);
    Some(Labels(name, version, description, tenantId, ownerId))
  }

  function ReadRuntime(e: Entry<RuntimeValues>): (r: Option<RuntimeConfig>)
    ensures r.Some? ==> ValidRuntime(r.value)
  {
    var values :- WithDefault(e, NO_RUNTIME_VALUES);
    ParseRuntime(values)
  }

  function ProfileFrom(header: Option<Labels>, domainValues: Option<DomainValues>, list: Option<seq<DomainConfig>>,
                       runtimeConfig: Option<RuntimeConfig>): (r: Option<ProfileConfig>)
  {
    var labels :- header;
    var values :- domainValues;
    var domains :- list;
    var domain :- PrimaryDomain(domains, values);
    var runtime :- runtimeConfig;
    Some(ProfileConfig(labels.name, labels.version, labels.description, domain, runtime, domains,
                       labels.tenantId, labels.ownerId))
  }

  /** Every part of the document read, before `validate` looks at the whole. */
  function UncheckedProfile(p: ProfileValues): (r: Option<ProfileConfig>)
  {
    ProfileFrom(ParseHeader(p.header), WithDefault(p.domain, NO_DOMAIN_VALUES), ParseDomains(p.domains),
                ReadRuntime(p.runtime))
  }

  /** `ProfileConfig.from_mapping` */
  ghost function ParseProfile(p: ProfileValues): (r: Option<ProfileConfig>)
  {
    var c :- UncheckedProfile(p);
    if ValidProfile(c) then Some(c) else None
  }

  lemma PartsOf(header: Option<Labels>, domainValues: Option<DomainValues>, list: Option<seq<DomainConfig>>,
                runtime: Option<RuntimeConfig>)
    requires ProfileFrom(header, domainValues, list, runtime).Some?
    ensures var c := ProfileFrom(header, domainValues, list, runtime).value;
            && list == Some(c.domains)
            && domainValues.Some? && PrimaryDomain(c.domains, domainValues.value) == Some(c.domain)
            && runtime == Some(c.runtime)
            && header.Some? && header.value.name == c.name && header.value.version == c.version
  {
  }

  predicate LabelsOk(header: ProfileHeader) {
    && ParseHeader(header).Some?
    && !IsBlank(ParseHeader(header).value.name) && !IsBlank(ParseHeader(header).value.version)
  }

  /** When the runtime section repeats the profile's own domains, it decides almost everything. */
  lemma MirroredProfileIff(p: ProfileValues, r: RuntimeValues)
    requires p.runtime == Present(r)
    requires p.domain == r.domain && ParseDomains(p.domains) == ParseDomains(r.domains)
    ensures ParseProfile(p).Some? <==>
            LabelsOk(p.header) && ParseRuntime(r).Some? && HasIdentity(ParseRuntime(r).value.domain)
  {
    var header, values, list := ParseHeader(p.header), WithDefault(p.domain, NO_DOMAIN_VALUES), ParseDomains(p.domains);
    var runtime := ReadRuntime(p.runtime);
    assert runtime == ParseRuntime(r);
    if header.Some? && runtime.Some? {
      ParsedIsReadFrom(r, runtime.value);
      MirroredIsValidIff(ProfileFrom(header, values, list, runtime).value);
    }
  }

  lemma MirroredIsValidIff(c: ProfileConfig)
    requires ValidRuntime(c.runtime)
    requires c.domain == c.runtime.domain && c.domains == c.runtime.domains
    ensures ValidProfile(c) <==> !IsBlank(c.name) && !IsBlank(c.version) && HasIdentity(c.domain)
  {
    if HasIdentity(c.domain) {
      assert ConfiguredDomains(c.runtime) == OwnDomains(c);
      forall i | 0 <= i < |OwnDomains(c)|
        ensures HasIdentity(OwnDomains(c)[i])
      {
        IdentityOfRead(OwnDomains(c)[i]);
      }
    }
  }

  /** For a domain read from a document, having an identity is having a name and a version. */
  lemma IdentityOfRead(d: DomainConfig)
    requires ValidDomain(d)
    ensures HasIdentity(d) <==> Identified(d)
  {
  }

  /** Without a runtime section there is no configured domain to compare with. */
  lemma NoRuntimeSection()
    ensures ParseRuntime(NO_RUNTIME_VALUES).Some?
    ensures ConfiguredDomains(ParseRuntime(NO_RUNTIME_VALUES).value) == []
  {
    var v := NO_RUNTIME_VALUES;
    assert !IsBlank("scripted") by {
      assert 's' in "scripted" && !IsSpace('s');
    }
    assert ParseDomains(v.domains) == Some([]);
    assert ParseDomain(NO_DOMAIN_VALUES).Some?;
    assert ParseSecrets(v.secrets) == Some(map[]);
    assert ParseModel(NO_MODEL_VALUES).Some?;
    assert ParseInfrastructure(v).Some?;
    var c := Unchecked(v).value;
    assert ConfiguredDomains(c) == [];
    assert ValidRuntime(c);
  }
}
