/** What a merge keeps, and when the runtime section is still a valid configuration. */
module MergeProperties {
  import opened Prelude
  import opened Configuration
  import opened ProfileInit
  import opened ProfileDomains

  // ------------------------------------------------------ what a merge changes

  /** The new entry is the only one of its name, and everything before it is as it was. */
  ghost predicate AppendedOnce(before: DomainItems, after: DomainItems, d: ResolvedDomain) {
    && |after| == |before| + 1
    && before <= after
    && after[|before|] == Present(d.config)
    && forall i :: 0 <= i < |after| ==> (HasName(after[i], d.name) <==> i == |before|)
  }

  /**
   A successful merge appends the domain exactly once to both lists, keeps every
   earlier entry in place (a named primary of a single-domain profile comes
   first), and overwrites no secret.
   */
  lemma MergeAppendsOnce(p: ProfileValues, d: ResolvedDomain)
    requires d.config.name == Present(d.name) && Merged(p, d).1
    ensures var q := Merged(p, d).0;
            && q.domain == p.domain
            && q.domains.Present? && AppendedOnce(Seeded(p.domains, p.domain), q.domains.value, d)
            && (p.runtime.Present? <==> q.runtime.Present?)
            && (p.runtime.Present? ==>
                  var before, after := p.runtime.value, q.runtime.value;
                  && after.domain == before.domain && after.domains.Present?
                  && AppendedOnce(Seeded(before.domains, before.domain), after.domains.value, d)
                  && after.secrets.Present?
                  && forall n :: n in SecretsOf(before) ==>
                       n in after.secrets.value && after.secrets.value[n] == SecretsOf(before)[n])
  {
    AppendedSeed(Seeded(p.domains, p.domain), d);
    if p.runtime.Present? {
      AppendedSeed(Seeded(p.runtime.value.domains, p.runtime.value.domain), d);
    }
  }

  lemma AppendedSeed(before: DomainItems, d: ResolvedDomain)
    requires d.config.name == Present(d.name) && !Mentions(before, d.name)
    ensures AppendedOnce(before, before + Copies(Present(d.config), 1), d)
  {
    var after := before + Copies(Present(d.config), 1);
    assert forall i :: 0 <= i < |before| ==> after[i] == before[i] && !HasName(before[i], d.name);
  }

  /** Merging a name again is refused and changes nothing at all. */
  lemma MergeAgainIsRefused(p: ProfileValues, d: ResolvedDomain, again: ResolvedDomain)
    requires d.config.name == Present(d.name) && Merged(p, d).1 && again.name == d.name
    ensures Merged(Merged(p, d).0, again) == (Merged(p, d).0, false)
  {
    var q := Merged(p, d).0;
    MergeAppendsOnce(p, d);
    var n := |Seeded(p.domains, p.domain)|;
    assert HasName(q.domains.value[n], d.name);
    assert Mentions(Seeded(q.domains, q.domain), again.name);
    assert q.keys + {"domains"} == q.keys;
    assert Normalized(q) == q;
  }

  /** The list a merge starts from: the one there is, or the named primary domain, or nothing. */
  lemma SeedsAre(list: Entry<DomainItems>, primary: Entry<DomainValues>)
    ensures list.Present? ==> Seeded(list, primary) == list.value
    ensures !list.Present? && !primary.Present? ==> Seeded(list, primary) == []
    ensures !list.Present? && primary.Present? ==>
              match primary.value.name
              case Present(name) => Seeded(list, primary) == if name == "" then [] else [primary]
              case Malformed(truthy) => Seeded(list, primary) == if truthy then [primary] else []
              case _ => Seeded(list, primary) == []
  {
  }

  ghost predicate Holds(items: DomainItems, name: string) {
    exists i :: 0 <= i < |items| && items[i].Present? && items[i].value.name == Present(name)
  }

  /** A merge is refused if and only if one of the two lists has an object with that name. */
  lemma MergeRefusedIff(p: ProfileValues, d: ResolvedDomain)
    ensures !Merged(p, d).1 <==>
            || Holds(Seeded(p.domains, p.domain), d.name)
            || (p.runtime.Present? && Holds(Seeded(p.runtime.value.domains, p.runtime.value.domain), d.name))
  {
    MentionsIs(Seeded(p.domains, p.domain), d.name);
    if p.runtime.Present? {
      MentionsIs(Seeded(p.runtime.value.domains, p.runtime.value.domain), d.name);
    }
  }

  lemma MentionsIs(items: DomainItems, name: string)
    ensures Mentions(items, name) <==> Holds(items, name)
  {
    if Mentions(items, name) {
      var i :| 0 <= i < |items| && HasName(items[i], name);
      assert items[i].Present?;
    }
    if Holds(items, name) {
      var i :| 0 <= i < |items| && items[i].Present? && items[i].value.name == Present(name);
      assert HasName(items[i], name);
    }
  }

  /** The secrets of a runtime section after a merge: what it had, and each new one whose name is free. */
  lemma SecretsAfterMerge(p: ProfileValues, d: ResolvedDomain)
    requires Merged(p, d).1 && p.runtime.Present?
    ensures var have := if p.runtime.value.secrets.Present? then p.runtime.value.secrets.value else map[];
            var now := Merged(p, d).0.runtime.value.secrets;
            && now.Present?
            && (forall n :: n in now.value <==>
                  n in have || (n in d.secrets && n !in p.keys && n != "domains"))
            && (forall n :: n in now.value ==> now.value[n] == if n in have then have[n] else d.secrets[n])
  {
  }

  /** The secrets a document declares: those of its runtime section. */
  function DeclaredSecrets(p: ProfileValues): (table: SecretTable)
  {
    if p.runtime.Present? then SecretsOf(p.runtime.value) else map[]
  }

  /**
   After a merge every secret of the new domain is declared exactly when there is
   none, or there is a runtime section to take them and each was declared before
   or is not named like a top-level key.
   */
  lemma SecretsDeclaredIff(p: ProfileValues, d: ResolvedDomain)
    requires Merged(p, d).1
    ensures (forall n :: n in d.secrets ==> n in DeclaredSecrets(Merged(p, d).0)) <==>
            || d.secrets == map[]
            || (p.runtime.Present?
                && forall n :: n in d.secrets ==> n in DeclaredSecrets(p) || n !in p.keys + {"domains"})
  {
    if !p.runtime.Present? && d.secrets != map[] {
      var n :| n in d.secrets;
      assert n !in DeclaredSecrets(Merged(p, d).0);
    }
  }

  // ------------------------------------------------------------------ validity

  /** A single-domain profile whose named primary has no version cannot become a list. */
  predicate PrimaryCanMove(r: RuntimeValues) {
    r.domains.Present? || !r.domain.Present? || !Truthy(r.domain.value.name) || r.domain.value.version.Present?
  }

  predicate NewDomainOk(d: ResolvedDomain) {
    ParseDomain(d.config).Some? && Identified(ParseDomain(d.config).value)
  }

  ghost predicate KeyIsNew(items: DomainItems, d: ResolvedDomain)
    requires NewDomainOk(d)
  {
    forall i :: 0 <= i < |items| && ParseItem(items[i]).Some? ==>
      DomainKey(ParseItem(items[i]).value) != DomainKey(ParseDomain(d.config).value)
  }

  predicate NewSecretsOk(keys: set<string>, have: SecretTable, more: SecretTable) {
    forall n :: n in more && n !in keys && n !in have ==> ParseSecret(n, more[n]).Some?
  }

  /** What a merge must bring along for the runtime section to stay valid. */
  ghost predicate RuntimeMergeSafe(p: ProfileValues, d: ResolvedDomain)
    requires p.runtime.Present?
  {
    var r := p.runtime.value;
    && NewDomainOk(d)
    && PrimaryCanMove(r)
    && KeyIsNew(Seeded(r.domains, r.domain), d)
    && NewSecretsOk(p.keys + {"domains"}, SecretsOf(r), d.secrets)
  }

  lemma MergedSecretsParse(keys: set<string>, have: SecretTable, more: SecretTable)
    requires SecretsParse(have)
    ensures SecretsParse(WithSecrets(keys, have, more)) <==> NewSecretsOk(keys, have, more)
  {
    var all := WithSecrets(keys, have, more);
    assert forall n :: n in more && n !in keys && n !in have ==> n in all && all[n] == more[n];
  }

  /** What is known of the list a valid runtime section brings along. */
  lemma SeededDomains(r: RuntimeValues, c: RuntimeConfig)
    requires ReadFrom(c, r) && ValidRuntime(c)
    ensures var items := Seeded(r.domains, r.domain);
            && ItemsParse(items)
            && DistinctKeys(ParsedItems(items))
            && ((forall i :: 0 <= i < |items| ==> Identified(ParsedItems(items)[i])) <==> PrimaryCanMove(r))
            && (items != [] ==> ParsedItems(items)[0] == c.domain)
  {
    var items := Seeded(r.domains, r.domain);
    if r.domains.Present? {
      assert ItemsParse(items) && c.domains == ParsedItems(items);
      assert items != [] ==> ConfiguredDomains(c) == c.domains;
    } else if items != [] {
      SeededPrimary(r, c);
    }
  }

  lemma SeededPrimary(r: RuntimeValues, c: RuntimeConfig)
    requires ReadFrom(c, r) && !r.domains.Present?
    requires r.domain.Present? && Truthy(r.domain.value.name)
    ensures ItemsParse([r.domain]) && ParsedItems([r.domain]) == [c.domain]
    ensures Identified(c.domain) <==> r.domain.value.version.Present?
  {
    assert c.domains == [];
    assert ParseItem(r.domain) == Some(c.domain);
    assert r.domain.value.name.Present?;
  }

  /** The runtime section after a successful merge. */
  function MergedRuntime(p: ProfileValues, d: ResolvedDomain): (r: RuntimeValues)
    requires p.runtime.Present?
  {
    var r := p.runtime.value;
    r.(domains := Present(Seeded(r.domains, r.domain) + [Present(d.config)]),
       secrets := Present(WithSecrets(p.keys + {"domains"}, SecretsOf(r), d.secrets)))
  }

  lemma MergedRuntimeIs(p: ProfileValues, d: ResolvedDomain)
    requires p.runtime.Present? && Merged(p, d).1
    ensures Merged(p, d).0.runtime == Present(MergedRuntime(p, d))
  {
    assert Copies(Present(d.config), 1) == [Present(d.config)];
  }

  lemma MergedListParses(items: DomainItems, d: ResolvedDomain)
    requires ItemsParse(items)
    ensures var all := items + [Present(d.config)];
            && (ItemsParse(all) <==> ParseDomain(d.config).Some?)
            && (ItemsParse(all) ==> ParsedItems(all) == ParsedItems(items) + [ParseDomain(d.config).value])
  {
    var all := items + [Present(d.config)];
    assert forall i :: 0 <= i < |items| ==> all[i] == items[i];
    assert all[|items|] == Present(d.config);
  }

  lemma DistinctKeysAppend(domains: seq<DomainConfig>, x: DomainConfig)
    requires DistinctKeys(domains)
    ensures DistinctKeys(domains + [x]) <==> forall i :: 0 <= i < |domains| ==> DomainKey(domains[i]) != DomainKey(x)
  {
    var all := domains + [x];
    assert forall i :: 0 <= i < |domains| ==> all[i] == domains[i];
    assert all[|domains|] == x;
    if DistinctKeys(all) {
      assert forall i :: 0 <= i < |domains| ==> DomainKey(all[i]) != DomainKey(all[|domains|]);
    }
  }

  /** Replacing domains and secrets of a valid configuration. */
  lemma ReplacedConfigValidIff(c: RuntimeConfig, domains: seq<DomainConfig>, secrets: map<string, SecretRef>)
    requires ValidRuntime(c) && domains != []
    requires forall i :: 0 <= i < |domains| ==> ValidDomain(domains[i])
    requires forall n :: n in c.secrets ==> n in secrets
    requires forall n :: n in secrets ==> secrets[n].name == n && ValidSecret(secrets[n])
    ensures ValidRuntime(c.(domains := domains, domain := domains[0], secrets := secrets)) <==>
            (forall i :: 0 <= i < |domains| ==> Identified(domains[i])) && DistinctKeys(domains)
  {
  }

  lemma ReadElsewhereAlike(r: RuntimeValues, c: RuntimeConfig, r': RuntimeValues, c': RuntimeConfig)
    requires ReadElsewhere(c, r)
    requires r' == r.(domains := r'.domains, secrets := r'.secrets)
    requires c' == c.(domains := c'.domains, domain := c'.domain, secrets := c'.secrets)
    ensures ReadElsewhere(c', r')
  {
  }

  /** Only domains and secrets of the document matter for what changed. */
  lemma ParseReplaced(r: RuntimeValues, c: RuntimeConfig, r': RuntimeValues)
    requires ReadFrom(c, r)
    requires r'.domains.Present? && r'.domains.value != [] && r'.secrets.Present?
    requires r' == r.(domains := r'.domains, secrets := r'.secrets)
    ensures ParseRuntime(r') ==
            if ItemsParse(r'.domains.value) && SecretsParse(r'.secrets.value) then
              var domains := ParsedItems(r'.domains.value);
              Checked(c.(domains := domains, domain := domains[0], secrets := ParseSecrets(r'.secrets).value))
            else None
  {
    if ItemsParse(r'.domains.value) && SecretsParse(r'.secrets.value) {
      var domains := ParsedItems(r'.domains.value);
      var c' := c.(domains := domains, domain := domains[0], secrets := ParseSecrets(r'.secrets).value);
      ReadElsewhereAlike(r, c, r', c');
      ReadFromParses(r', c');
    } else {
      UnreadablePartRefused(r');
    }
  }

  /** The runtime section stays a valid configuration if and only if the merge was safe for it. */
  lemma MergeKeepsRuntimeIff(p: ProfileValues, d: ResolvedDomain)
    requires p.runtime.Present? && ParseRuntime(p.runtime.value).Some?
    requires Merged(p, d).1
    ensures ParseRuntime(Merged(p, d).0.runtime.value).Some? <==> RuntimeMergeSafe(p, d)
  {
    var r, r' := p.runtime.value, MergedRuntime(p, d);
    var keys, items := p.keys + {"domains"}, Seeded(r.domains, r.domain);
    MergedRuntimeIs(p, d);
    MergedRuntimeParses(r, r', d);
    MergedListParses(items, d);
    MergedSecretsParse(keys, SecretsOf(r), d.secrets);
    if ItemsParse(r'.domains.value) && SecretsParse(r'.secrets.value) {
      GrownConfigValidIff(ParseRuntime(r).value, ParsedItems(items), ParseDomain(d.config).value,
                          ParseSecrets(r'.secrets).value);
      KeysOfItems(items, d);
    }
  }

  /** How the grown section of a valid document is read. */
  lemma MergedRuntimeParses(r: RuntimeValues, r': RuntimeValues, d: ResolvedDomain)
    requires ParseRuntime(r).Some?
    requires r'.domains == Present(Seeded(r.domains, r.domain) + [Present(d.config)]) && r'.secrets.Present?
    requires r' == r.(domains := r'.domains, secrets := r'.secrets)
    ensures ParseRuntime(r') ==
            if ItemsParse(r'.domains.value) && SecretsParse(r'.secrets.value) then
              var domains := ParsedItems(r'.domains.value);
              Checked(ParseRuntime(r).value.(domains := domains, domain := domains[0],
                                             secrets := ParseSecrets(r'.secrets).value))
            else None
    ensures var items := Seeded(r.domains, r.domain);
            && ItemsParse(items)
            && DistinctKeys(ParsedItems(items))
            && ((forall i :: 0 <= i < |items| ==> Identified(ParsedItems(items)[i])) <==> PrimaryCanMove(r))
    ensures SecretsParse(SecretsOf(r)) && ParseRuntime(r).value.secrets.Keys == SecretsOf(r).Keys
  {
    var c := ParseRuntime(r).value;
    ParsedIsReadFrom(r, c);
    SeededDomains(r, c);
    OldSecretsParse(r.secrets);
    ParseReplaced(r, c, r');
  }

  /** One more domain in a valid configuration. */
  lemma GrownConfigValidIff(c: RuntimeConfig, before: seq<DomainConfig>, x: DomainConfig,
                            secrets: map<string, SecretRef>)
    requires ValidRuntime(c) && DistinctKeys(before)
    requires ValidDomain(x) && forall i :: 0 <= i < |before| ==> ValidDomain(before[i])
    requires forall n :: n in c.secrets ==> n in secrets
    requires forall n :: n in secrets ==> secrets[n].name == n && ValidSecret(secrets[n])
    ensures var all := before + [x];
            Checked(c.(domains := all, domain := all[0], secrets := secrets)).Some? <==>
            && (forall i :: 0 <= i < |before| ==> Identified(before[i]))
            && Identified(x)
            && (forall i :: 0 <= i < |before| ==> DomainKey(before[i]) != DomainKey(x))
  {
    DistinctKeysAppend(before, x);
    ReplacedConfigValidIff(c, before + [x], secrets);
    AllIdentified(before, x);
  }

  lemma AllIdentified(before: seq<DomainConfig>, x: DomainConfig)
    ensures (forall i :: 0 <= i < |before + [x]| ==> Identified((before + [x])[i])) <==>
            (forall i :: 0 <= i < |before| ==> Identified(before[i])) && Identified(x)
  {
    var all := before + [x];
    assert forall i :: 0 <= i < |before| ==> all[i] == before[i];
    assert all[|before|] == x;
  }

  lemma KeysOfItems(items: DomainItems, d: ResolvedDomain)
    requires ItemsParse(items) && ParseDomain(d.config).Some?
    ensures NewDomainOk(d) ==>
              (KeyIsNew(items, d) <==> forall i :: 0 <= i < |items| ==>
                 DomainKey(ParsedItems(items)[i]) != DomainKey(ParseDomain(d.config).value))
  {
    assert forall i :: 0 <= i < |items| ==> ParsedItems(items)[i] == ParseItem(items[i]).value;
    assert forall i :: 0 <= i < |items| ==> ParseItem(items[i]).Some?;
  }

  lemma OldSecretsParse(e: Entry<SecretTable>)
    requires ParseSecrets(e).Some?
    ensures SecretsParse(if e.Present? then e.value else map[])
    ensures ParseSecrets(e).value.Keys == (if e.Present? then e.value else map[]).Keys
  {
  }

  /** With both lists one object the domain goes in twice, and the result is always refused. */
  lemma AliasedMergeIsRefused(p: ProfileValues, d: ResolvedDomain)
    requires p.runtime.Present? && MergedTimes(p, d, 2).1
    ensures ParseRuntime(MergedTimes(p, d, 2).0.runtime.value).None?
  {
    var r := p.runtime.value;
    var before := Seeded(r.domains, r.domain);
    assert Copies(Present(d.config), 2) == [Present(d.config), Present(d.config)];
    RepeatedEntryRefused(MergedTimes(p, d, 2).0.runtime.value, before, d.config);
  }

  lemma RepeatedEntryRefused(r: RuntimeValues, before: DomainItems, x: DomainValues)
    requires r.domains == Present(before + [Present(x), Present(x)])
    ensures ParseRuntime(r).None?
  {
    var items, n := r.domains.value, |before|;
    if ItemsParse(items) {
      var domains := ParsedItems(items);
      assert items[n] == items[n + 1] == Present(x);
      assert DomainKey(domains[n]) == DomainKey(domains[n + 1]);
      DuplicateKeysRefused(r);
    } else {
      UnreadablePartRefused(r);
    }
  }

  // ------------------------------------------------- init, then add-domain runs

  /** Merging domains one command at a time; None as soon as one is refused. */
  ghost function MergeAll(p: ProfileValues, domains: seq<ResolvedDomain>): (r: Option<ProfileValues>)
    decreases |domains|
  {
    if domains == [] then Some(p)
    else
      var merged := Merged(p, domains[0]);
      if merged.1 then MergeAll(merged.0, domains[1..]) else None
  }

  /** `agent profile add-domain`: read the file back, merge, and write it unless the merge is refused. */
  method AddDomain(p: ProfileMap, d: ResolvedDomain) returns (q: ProfileMap?)
    requires p.Valid()
    ensures (q != null) == Merged(old(p.Value()), d).1
    ensures q != null ==> q.Valid() && q.Value() == Merged(old(p.Value()), d).0
  {
    q := Reload(p);
    var added := MergeDomain(q, d);
    if !added {
      q := null;
    }
  }

  /** The command run once per domain. */
  method AddDomains(p: ProfileMap, domains: seq<ResolvedDomain>) returns (q: ProfileMap?)
    requires p.Valid()
    ensures (q == null) == MergeAll(old(p.Value()), domains).None?
    ensures q != null ==> q.Valid() && q.Value() == MergeAll(old(p.Value()), domains).value
  {
    var current: ProfileMap := p;
    ghost var start, value := p.Value(), p.Value();
    var i := 0;
    assert domains[0..] == domains;
    while i < |domains|
      invariant 0 <= i <= |domains|
      invariant current.Valid() && current.Value() == value
      invariant MergeAll(start, domains) == MergeAll(value, domains[i..])
    {
      MergeAllStep(value, domains, i);
      var next := AddDomain(current, domains[i]);
      value := Merged(value, domains[i]).0;
      if next == null {
        return null;
      }
      current := next;
      i := i + 1;
    }
    return current;
  }

  lemma MergeAllStep(p: ProfileValues, domains: seq<ResolvedDomain>, i: nat)
    requires i < |domains|
    ensures var merged := Merged(p, domains[i]);
            MergeAll(p, domains[i..]) == if merged.1 then MergeAll(merged.0, domains[i + 1..]) else None
  {
    assert domains[i..][1..] == domains[i + 1..];
  }

  /** Init and one merge without the round trip through the file: always refused by validation. */
  method MergeWithoutReload(args: InitArgs, d: ResolvedDomain) returns (p: ProfileMap?, added: bool)
    requires args.withDomains != []
    ensures p != null ==> p.Valid() && p.Value().runtime.Present?
    ensures p != null && added ==> ParseRuntime(p.Value().runtime.value).None?
  {
    added := false;
    p := BuildProfile(args);
    if p != null {
      ghost var before := p.Value();
      added := MergeDomain(p, d);
      if added {
        AliasedMergeIsRefused(before, d);
      }
    }
  }
}
