/** When merging a domain into a valid profile gives a valid profile. */
module MergeValidity {
  import opened Prelude
  import opened Configuration
  import opened ProfileInit
  import opened ProfileDomains
  import opened ProfileValidity
  import opened MergeProperties

  /** The lists a merge works on, before it appends. */
  function TopSeeds(p: ProfileValues): (items: DomainItems)
  {
    Seeded(p.domains, p.domain)
  }

  function RuntimeSeeds(p: ProfileValues): (items: DomainItems)
    requires p.runtime.Present?
  {
    Seeded(p.runtime.value.domains, p.runtime.value.domain)
  }

  /** Both lists start with something, or both start empty. */
  predicate SeedsTogether(p: ProfileValues)
    requires p.runtime.Present?
  {
    TopSeeds(p) == [] <==> RuntimeSeeds(p) == []
  }

  /** All a caller has to check before merging into a valid profile. */
  ghost predicate MergeSafe(p: ProfileValues, d: ResolvedDomain) {
    && NewDomainOk(d)
    && KeyIsNew(TopSeeds(p), d)
    && (p.runtime.Present? ==>
          && SeedsTogether(p)
          && NewSecretsOk(p.keys + {"domains"}, SecretsOf(p.runtime.value), d.secrets))
  }

  // ----------------------------------------------- what a valid profile brings

  lemma ProfileParts(p: ProfileValues)
    requires ParseProfile(p).Some?
    ensures var c := ParseProfile(p).value;
            && ValidProfile(c)
            && UncheckedProfile(p) == Some(c)
            && ParseDomains(p.domains) == Some(c.domains)
            && (p.domain.Present? || p.domain.Absent?)
            && PrimaryDomain(c.domains, WithDefault(p.domain, NO_DOMAIN_VALUES).value) == Some(c.domain)
            && (p.runtime.Present? || p.runtime.Absent?)
            && ReadRuntime(p.runtime) == Some(c.runtime)
  {
    PartsOf(ParseHeader(p.header), WithDefault(p.domain, NO_DOMAIN_VALUES), ParseDomains(p.domains),
            ReadRuntime(p.runtime));
  }

  /** Replacing the domains and the runtime section of a readable profile. */
  lemma ReplacedParts(header: Option<Labels>, domainValues: Option<DomainValues>, list: Option<seq<DomainConfig>>,
                      runtime: Option<RuntimeConfig>, list': Option<seq<DomainConfig>>,
                      runtime': Option<RuntimeConfig>)
    requires ProfileFrom(header, domainValues, list, runtime).Some?
    requires list'.Some? ==> list'.value != []
    ensures var c := ProfileFrom(header, domainValues, list, runtime).value;
            ProfileFrom(header, domainValues, list', runtime') ==
            if list'.Some? && runtime'.Some? then
              Some(c.(domains := list'.value, domain := list'.value[0], runtime := runtime'.value))
            else None
  {
  }

  /** A named primary is the list when there is none. */
  lemma PrimaryIsTheSeed(p: ProfileValues, domain: DomainConfig)
    requires !p.domains.Present? && (p.domain.Present? || p.domain.Absent?)
    requires ParseDomain(WithDefault(p.domain, NO_DOMAIN_VALUES).value) == Some(domain) && HasIdentity(domain)
    ensures TopSeeds(p) == [p.domain] && ParseItem(p.domain) == Some(domain) && Identified(domain)
  {
    assert p.domain.Present? && p.domain.value.name.Present?;
    assert domain.name == Some(p.domain.value.name.value);
  }

  lemma OwnDomainsRead(c: ProfileConfig)
    requires ValidProfile(c) && forall i :: 0 <= i < |c.domains| ==> ValidDomain(c.domains[i])
    ensures DistinctKeys(c.domains) && forall i :: 0 <= i < |c.domains| ==> Identified(c.domains[i])
  {
    forall i | 0 <= i < |c.domains|
      ensures Identified(c.domains[i])
    {
      assert c.domains[i] == OwnDomains(c)[i];
      IdentityOfRead(c.domains[i]);
    }
  }

  lemma TopSeedsParse(p: ProfileValues)
    requires ParseProfile(p).Some?
    ensures ItemsParse(TopSeeds(p)) && DistinctKeys(ParsedItems(TopSeeds(p)))
    ensures forall i :: 0 <= i < |TopSeeds(p)| ==> Identified(ParsedItems(TopSeeds(p))[i])
    ensures TopSeeds(p) != [] ==> ParsedItems(TopSeeds(p)) == OwnDomains(ParseProfile(p).value)
    ensures TopSeeds(p) == [] <==> p.domains == Present([])
  {
    ProfileParts(p);
    var c := ParseProfile(p).value;
    if p.domains.Present? {
      assert c.domains == ParsedItems(TopSeeds(p));
      OwnDomainsRead(c);
    } else {
      assert c.domains == [];
      PrimaryIsTheSeed(p, c.domain);
      assert ParsedItems([p.domain]) == [c.domain];
    }
  }

  lemma RuntimeSeedsParse(p: ProfileValues)
    requires ParseProfile(p).Some? && p.runtime.Present?
    ensures ItemsParse(RuntimeSeeds(p))
    ensures RuntimeSeeds(p) != [] ==>
              ParsedItems(RuntimeSeeds(p)) == ConfiguredDomains(ParseProfile(p).value.runtime)
  {
    ProfileParts(p);
    var r, c := p.runtime.value, ParseProfile(p).value.runtime;
    ParsedIsReadFrom(r, c);
    SeededDomains(r, c);
    if !r.domains.Present? && RuntimeSeeds(p) != [] {
      SeededPrimary(r, c);
      assert c.domain.name.Some?;
    }
  }

  /** In a valid profile the two seeded lists name the same domains unless only one of them is empty. */
  lemma SeedsAgreeIff(p: ProfileValues)
    requires ParseProfile(p).Some? && p.runtime.Present?
    requires ItemsParse(TopSeeds(p)) && ItemsParse(RuntimeSeeds(p))
    ensures SameIdentities(ParsedItems(RuntimeSeeds(p)), ParsedItems(TopSeeds(p))) <==> SeedsTogether(p)
  {
    ProfileParts(p);
    TopSeedsParse(p);
    RuntimeSeedsParse(p);
  }

  // -------------------------------------------------------------- the theorem

  lemma SameIdentitiesAppend(a: seq<DomainConfig>, b: seq<DomainConfig>, x: DomainConfig)
    ensures SameIdentities(a + [x], b + [x]) <==> SameIdentities(a, b)
  {
    var a', b' := a + [x], b + [x];
    assert forall i :: 0 <= i < |a| ==> a'[i] == a[i];
    assert forall i :: 0 <= i < |b| ==> b'[i] == b[i];
  }

  /** One more domain at the top of a valid profile, with a runtime section that is valid again. */
  lemma GrownProfileValidIff(c: ProfileConfig, before: seq<DomainConfig>, x: DomainConfig, runtime: RuntimeConfig)
    requires ValidProfile(c) && ValidRuntime(runtime)
    requires DistinctKeys(before) && ValidDomain(x)
    requires forall i :: 0 <= i < |before| ==> ValidDomain(before[i]) && Identified(before[i])
    ensures var all := before + [x];
            ValidProfile(c.(domains := all, domain := all[0], runtime := runtime)) <==>
            && Identified(x)
            && (forall i :: 0 <= i < |before| ==> DomainKey(before[i]) != DomainKey(x))
            && (ConfiguredDomains(runtime) != [] ==> SameIdentities(ConfiguredDomains(runtime), all))
  {
    var all := before + [x];
    DistinctKeysAppend(before, x);
    AllIdentified(before, x);
    assert forall i :: 0 <= i < |all| ==> ValidDomain(all[i]);
    forall i | 0 <= i < |all|
      ensures HasIdentity(all[i]) <==> Identified(all[i])
    {
      IdentityOfRead(all[i]);
    }
  }

  /** The top-level list after a merge, and how it is read. */
  lemma MergedDomains(p: ProfileValues, d: ResolvedDomain)
    requires Merged(p, d).1 && ItemsParse(TopSeeds(p))
    ensures var q := Merged(p, d).0;
            && q.header == p.header && q.domain == p.domain
            && ParseDomains(q.domains) ==
               if ParseDomain(d.config).Some? then
                 Some(ParsedItems(TopSeeds(p)) + [ParseDomain(d.config).value])
               else None
  {
    assert Copies(Present(d.config), 1) == [Present(d.config)];
    MergedListParses(TopSeeds(p), d);
  }

  /** How the document after a merge is read. */
  lemma MergedProfileParsed(p: ProfileValues, d: ResolvedDomain)
    requires ParseProfile(p).Some? && Merged(p, d).1
    requires ItemsParse(TopSeeds(p))
    ensures var q, c := Merged(p, d).0, ParseProfile(p).value;
            var runtime := ReadRuntime(q.runtime);
            ParseProfile(q).Some? <==>
            && ParseDomain(d.config).Some? && runtime.Some?
            && var all := ParsedItems(TopSeeds(p)) + [ParseDomain(d.config).value];
               ValidProfile(c.(domains := all, domain := all[0], runtime := runtime.value))
  {
    ProfileParts(p);
    MergedDomains(p, d);
    var q := Merged(p, d).0;
    ReplacedParts(ParseHeader(p.header), WithDefault(p.domain, NO_DOMAIN_VALUES), ParseDomains(p.domains),
                  ReadRuntime(p.runtime), ParseDomains(q.domains), ReadRuntime(q.runtime));
  }

  lemma RuntimeAfterMerge(p: ProfileValues, d: ResolvedDomain)
    requires ParseProfile(p).Some? && p.runtime.Present? && Merged(p, d).1
    requires ItemsParse(RuntimeSeeds(p))
    requires ParseRuntime(Merged(p, d).0.runtime.value).Some?
    ensures ParseDomain(d.config).Some?
    ensures ConfiguredDomains(ParseRuntime(Merged(p, d).0.runtime.value).value)
         == ParsedItems(RuntimeSeeds(p)) + [ParseDomain(d.config).value]
  {
    ProfileParts(p);
    MergedRuntimeIs(p, d);
    MergedRuntimeParses(p.runtime.value, MergedRuntime(p, d), d);
    MergedListParses(RuntimeSeeds(p), d);
  }

  /** The keys of lists that name the same domains are the same. */
  lemma SameKeys(a: DomainItems, b: DomainItems, d: ResolvedDomain)
    requires ItemsParse(a) && ItemsParse(b) && NewDomainOk(d)
    requires SameIdentities(ParsedItems(a), ParsedItems(b))
    ensures KeyIsNew(a, d) <==> KeyIsNew(b, d)
  {
    KeysOfItems(a, d);
    KeysOfItems(b, d);
    assert forall i :: 0 <= i < |a| ==> DomainKey(ParsedItems(a)[i]) == DomainKey(ParsedItems(b)[i]);
  }

  lemma PrimaryMoves(p: ProfileValues)
    requires ParseProfile(p).Some? && p.runtime.Present?
    ensures PrimaryCanMove(p.runtime.value)
  {
    ProfileParts(p);
    var r, c := p.runtime.value, ParseProfile(p).value;
    ParsedIsReadFrom(r, c.runtime);
  }

  /** A merge into a valid profile gives a valid profile if and only if it was safe. */
  lemma MergeKeepsValidityIff(p: ProfileValues, d: ResolvedDomain)
    requires ParseProfile(p).Some? && Merged(p, d).1
    ensures ParseProfile(Merged(p, d).0).Some? <==> MergeSafe(p, d)
  {
    TopSeedsParse(p);
    MergedProfileParsed(p, d);
    if p.runtime.Present? {
      MergeWithRuntimeIff(p, d);
    } else {
      MergeWithoutRuntimeIff(p, d);
    }
  }

  lemma MergeWithoutRuntimeIff(p: ProfileValues, d: ResolvedDomain)
    requires ParseProfile(p).Some? && Merged(p, d).1 && !p.runtime.Present?
    requires ItemsParse(TopSeeds(p))
    ensures ParseProfile(Merged(p, d).0).Some? <==> NewDomainOk(d) && KeyIsNew(TopSeeds(p), d)
  {
    ProfileParts(p);
    TopSeedsParse(p);
    MergedProfileParsed(p, d);
    NoRuntimeSection();
    if ParseDomain(d.config).Some? {
      KeysOfItems(TopSeeds(p), d);
      GrownProfileValidIff(ParseProfile(p).value, ParsedItems(TopSeeds(p)), ParseDomain(d.config).value,
                           ParseRuntime(NO_RUNTIME_VALUES).value);
    }
  }

  lemma MergeWithRuntimeIff(p: ProfileValues, d: ResolvedDomain)
    requires ParseProfile(p).Some? && Merged(p, d).1 && p.runtime.Present?
    requires ItemsParse(TopSeeds(p))
    ensures ParseProfile(Merged(p, d).0).Some? <==> MergeSafe(p, d)
  {
    ProfileParts(p);
    TopSeedsParse(p);
    RuntimeSeedsParse(p);
    SeedsAgreeIff(p);
    MergedProfileParsed(p, d);
    MergeKeepsRuntimeIff(p, d);
    PrimaryMoves(p);
    var runtime := ParseRuntime(Merged(p, d).0.runtime.value);
    if NewDomainOk(d) {
      var top, inner, x := ParsedItems(TopSeeds(p)), ParsedItems(RuntimeSeeds(p)), ParseDomain(d.config).value;
      KeysOfItems(TopSeeds(p), d);
      if SeedsTogether(p) {
        SameKeys(RuntimeSeeds(p), TopSeeds(p), d);
      }
      if runtime.Some? {
        RuntimeAfterMerge(p, d);
        SameIdentitiesAppend(inner, top, x);
        GrownProfileValidIff(ParseProfile(p).value, top, x, runtime.value);
      }
    }
  }

  // ------------------------------------------------------------ the exceptions

  /** The primary domain of the profile after a merge: what it was, unless the list there was is empty. */
  lemma PrimaryStaysUnlessListEmpty(p: ProfileValues, d: ResolvedDomain)
    requires ParseProfile(p).Some? && Merged(p, d).1 && ParseProfile(Merged(p, d).0).Some?
    ensures ParseDomain(d.config).Some?
    ensures ParseProfile(Merged(p, d).0).value.domain
         == if p.domains == Present([]) then ParseDomain(d.config).value else ParseProfile(p).value.domain
  {
    ProfileParts(p);
    TopSeedsParse(p);
    ProfileParts(Merged(p, d).0);
    MergedDomains(p, d);
  }

  /** A profile with one domain, perhaps an empty list beside it, and a runtime section that names none. */
  function Bare(header: ProfileHeader, primary: DomainValues, list: Entry<DomainItems>): (p: ProfileValues)
  {
    ProfileValues(header, {"name", "version", "domain", "runtime"}, Present(primary), list,
                  Present(NO_RUNTIME_VALUES.(domains := list)))
  }

  predicate PrimaryOk(primary: DomainValues) {
    ParseDomain(primary).Some? && Identified(ParseDomain(primary).value)
  }

  lemma NoDomainNamed(list: Entry<DomainItems>)
    requires list == Absent || list == Present([])
    ensures var runtime := ReadRuntime(Present(NO_RUNTIME_VALUES.(domains := list)));
            runtime.Some? && ConfiguredDomains(runtime.value) == []
  {
    NoRuntimeSection();
    var c := ParseRuntime(NO_RUNTIME_VALUES).value;
    ParsedIsReadFrom(NO_RUNTIME_VALUES, c);
    assert ParseDomains(list) == Some([]);
    ReadFromParses(NO_RUNTIME_VALUES.(domains := list), c);
  }

  lemma SoleDomainIsValid(p: ProfileValues, primary: DomainValues, runtime: RuntimeConfig)
    requires LabelsOk(p.header) && PrimaryOk(primary)
    requires p.domain == Present(primary) && (p.domains == Absent || p.domains == Present([]))
    requires ReadRuntime(p.runtime) == Some(runtime) && ConfiguredDomains(runtime) == []
    ensures ParseProfile(p).Some? && ParseProfile(p).value.domain == ParseDomain(primary).value
  {
    assert ParseDomains(p.domains) == Some([]);
    var c := ProfileFrom(ParseHeader(p.header), Some(primary), Some([]), Some(runtime)).value;
    assert UncheckedProfile(p) == Some(c);
    assert OwnDomains(c) == [ParseDomain(primary).value];
    IdentityOfRead(c.domain);
  }

  lemma BareIsValid(header: ProfileHeader, primary: DomainValues, list: Entry<DomainItems>)
    requires LabelsOk(header) && PrimaryOk(primary)
    requires list == Absent || list == Present([])
    ensures ParseProfile(Bare(header, primary, list)).Some?
    ensures ParseProfile(Bare(header, primary, list)).value.domain == ParseDomain(primary).value
  {
    NoDomainNamed(list);
    var p := Bare(header, primary, list);
    SoleDomainIsValid(p, primary, ReadRuntime(p.runtime).value);
  }

  lemma BareSeeds(header: ProfileHeader, primary: DomainValues, d: ResolvedDomain)
    requires PrimaryOk(primary) && primary.name != Present(d.name)
    ensures var p := Bare(header, primary, Absent);
            !SeedsTogether(p) && Merged(p, d).1
  {
    var p := Bare(header, primary, Absent);
    assert primary.name.Present?;
    assert TopSeeds(p) == [Present(primary)] && RuntimeSeeds(p) == [];
    assert !HasName(Present(primary), d.name);
  }

  /**
   Valid, but with a runtime section that names no domain: every merge seeds the
   top list only, so the two lists no longer match and the profile is refused.
   */
  lemma MergeSpoilsBareRuntime(header: ProfileHeader, primary: DomainValues, d: ResolvedDomain)
    requires LabelsOk(header) && PrimaryOk(primary) && primary.name != Present(d.name)
    ensures var p := Bare(header, primary, Absent);
            ParseProfile(p).Some? && Merged(p, d).1 && ParseProfile(Merged(p, d).0).None?
  {
    BareIsValid(header, primary, Absent);
    BareSeeds(header, primary, d);
    MergeKeepsValidityIff(Bare(header, primary, Absent), d);
  }

  /** Valid before and after, but an empty list beside the primary domain makes the new one primary. */
  lemma EmptyListLosesPrimary(header: ProfileHeader, primary: DomainValues, d: ResolvedDomain)
    requires LabelsOk(header) && PrimaryOk(primary) && NewDomainOk(d)
    requires NewSecretsOk({"name", "version", "domain", "runtime", "domains"}, map[], d.secrets)
    ensures var p := Bare(header, primary, Present([])); var q := Merged(p, d).0;
            && ParseProfile(p).Some? && Merged(p, d).1 && ParseProfile(q).Some?
            && ParseProfile(p).value.domain == ParseDomain(primary).value
            && ParseProfile(q).value.domain == ParseDomain(d.config).value
            && OwnDomains(ParseProfile(q).value) == [ParseDomain(d.config).value]
  {
    var p := Bare(header, primary, Present([]));
    BareIsValid(header, primary, Present([]));
    assert p.keys + {"domains"} == {"name", "version", "domain", "runtime", "domains"};
    MergeKeepsValidityIff(p, d);
    PrimaryStaysUnlessListEmpty(p, d);
    ProfileParts(Merged(p, d).0);
    MergedDomains(p, d);
  }

  /** The smallest such profile: `local` at version 1, no runtime settings, and a domain `x`. */
  lemma SmallestSpoiledProfile(header: ProfileHeader)
    requires LabelsOk(header)
    ensures var local := DomainValues(Present("local"), Present("1"), Absent, Absent);
            var x := ResolvedDomain("x", local.(name := Present("x")), map[]);
            var p := Bare(header, local, Absent);
            ParseProfile(p).Some? && Merged(p, x).1 && ParseProfile(Merged(p, x).0).None?
  {
    var local := DomainValues(Present("local"), Present("1"), Absent, Absent);
    assert 'l' in "local" && '1' in "1" && |"local"| != |"x"|;
    assert PrimaryOk(local);
    MergeSpoilsBareRuntime(header, local, ResolvedDomain("x", local.(name := Present("x")), map[]));
  }

  /** A profile with one domain and no runtime section. */
  function Sectionless(header: ProfileHeader, primary: DomainValues): (p: ProfileValues)
  {
    ProfileValues(header, {"name", "version", "domain"}, Present(primary), Absent, Absent)
  }

  lemma SectionlessSeeds(header: ProfileHeader, primary: DomainValues, d: ResolvedDomain)
    requires PrimaryOk(primary) && primary.name != Present(d.name)
    ensures var p := Sectionless(header, primary);
            Merged(p, d).1 && TopSeeds(p) == [Present(primary)]
  {
    assert primary.name.Present?;
    assert !HasName(Present(primary), d.name);
  }

  /** Valid before and after, but without a runtime section a merge drops every secret it brings. */
  lemma MergeDropsSecrets(header: ProfileHeader, primary: DomainValues, d: ResolvedDomain)
    requires LabelsOk(header) && PrimaryOk(primary) && NewDomainOk(d) && primary.name != Present(d.name)
    requires DomainKey(ParseDomain(primary).value) != DomainKey(ParseDomain(d.config).value)
    ensures var p := Sectionless(header, primary); var q := Merged(p, d).0;
            && ParseProfile(p).Some? && Merged(p, d).1 && ParseProfile(q).Some?
            && DeclaredSecrets(q) == map[]
  {
    var p := Sectionless(header, primary);
    NoRuntimeSection();
    SoleDomainIsValid(p, primary, ReadRuntime(p.runtime).value);
    SectionlessSeeds(header, primary, d);
    TopSeedsParse(p);
    MergeKeepsValidityIff(p, d);
  }

  /** The smallest such input: `local` and no runtime section, and a domain `x` with a secret `token`. */
  lemma SmallestDroppedSecret(header: ProfileHeader)
    requires LabelsOk(header)
    ensures var local := DomainValues(Present("local"), Present("1"), Absent, Absent);
            var body := SecretValues(Present("env"), Present("TOKEN"), Present(true));
            var x := ResolvedDomain("x", local.(name := Present("x")), map["token" := Present(body)]);
            var p := Sectionless(header, local);
            && ParseProfile(p).Some? && Merged(p, x).1 && ParseProfile(Merged(p, x).0).Some?
            && SecretsParse(x.secrets) && "token" in x.secrets
            && "token" !in DeclaredSecrets(Merged(p, x).0)
  {
    var local := DomainValues(Present("local"), Present("1"), Absent, Absent);
    var body := SecretValues(Present("env"), Present("TOKEN"), Present(true));
    var x := ResolvedDomain("x", local.(name := Present("x")), map["token" := Present(body)]);
    SmallestDomains();
    SecretParses(body);
    MergeDropsSecrets(header, local, x);
  }

  lemma SmallestDomains()
    ensures var local := DomainValues(Present("local"), Present("1"), Absent, Absent);
            var x := local.(name := Present("x"));
            && PrimaryOk(local) && PrimaryOk(x)
            && DomainKey(ParseDomain(local).value) != DomainKey(ParseDomain(x).value)
  {
    assert 'l' in "local" && 'x' in "x" && '1' in "1";
    assert |"local" + "@" + "1"| != |"x" + "@" + "1"|;
  }

  lemma SecretParses(body: SecretValues)
    requires body == SecretValues(Present("env"), Present("TOKEN"), Present(true))
    ensures ParseSecret("token", Present(body)).Some?
  {
    assert 't' in "token" && 'T' in "TOKEN";
  }
}
