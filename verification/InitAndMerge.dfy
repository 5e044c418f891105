/**
 "Compose multiple domains either at init time or after": init with secondary
 domains X1..Xn against init followed by add-domain X1, ..., add-domain Xn.
 */
module InitAndMerge {
  import opened Prelude
  import opened Configuration
  import opened ProfileInit
  import opened ProfileDomains
  import opened ProfileValidity
  import opened InitValidity
  import opened MergeProperties

  /** The top-level keys of a multi-domain profile. */
  const ALL_KEYS: set<string> := PROFILE_KEYS + {"domains"}

  function Alone(args: InitArgs): (r: InitArgs)
  {
    args.(withDomains := [])
  }

  /** A contribution's name is the name in the config it returns. */
  predicate Named(d: ResolvedDomain) {
    d.config.name == Present(d.name)
  }

  function DomainList(primary: ResolvedDomain, done: seq<ResolvedDomain>): (r: DomainItems)
    ensures |r| == 1 + |done|
  {
    [Present(primary.config)] + Items(done)
  }

  /** Secrets after merging a list of domains. */
  function KeptSecrets<K(!new), V>(keys: set<K>, have: map<K, V>, more: seq<map<K, V>>): (r: map<K, V>)
    decreases |more|
  {
    if more == [] then have else KeptSecrets(keys, WithSecrets(keys, have, more[0]), more[1..])
  }

  function Tables(domains: seq<ResolvedDomain>): (r: seq<SecretTable>)
    ensures |r| == |domains|
    ensures forall i :: 0 <= i < |r| ==> r[i] == domains[i].secrets
  {
    seq(|domains|, i requires 0 <= i < |domains| => domains[i].secrets)
  }

  /** The profile after some merges. */
  function Grown(header: ProfileHeader, primary: ResolvedDomain, base: RuntimeValues, done: seq<ResolvedDomain>,
                 table: SecretTable): (p: ProfileValues)
  {
    var list := Present(DomainList(primary, done));
    ProfileValues(header, ALL_KEYS, Present(primary.config), list,
                  Present(base.(domains := list, secrets := Present(table))))
  }

  lemma MentionedNames(primary: ResolvedDomain, done: seq<ResolvedDomain>, name: string)
    requires Named(primary) && forall i :: 0 <= i < |done| ==> Named(done[i])
    ensures Mentions(DomainList(primary, done), name) <==>
            primary.name == name || exists i :: 0 <= i < |done| && done[i].name == name
  {
    var items := DomainList(primary, done);
    NameOf(primary, name);
    forall i | 0 <= i < |done|
      ensures items[i + 1] == Present(done[i].config) && (HasName(items[i + 1], name) <==> done[i].name == name)
    {
      NameOf(done[i], name);
    }
    assert items[0] == Present(primary.config);
    if Mentions(items, name) {
      var k :| 0 <= k < |items| && HasName(items[k], name);
      assert k == 0 || HasName(items[(k - 1) + 1], name);
    }
  }

  lemma NameOf(d: ResolvedDomain, name: string)
    requires Named(d)
    ensures HasName(Present(d.config), name) <==> d.name == name
  {
  }

  /** One merge into a profile that already has its lists. */
  lemma GrownStep(header: ProfileHeader, primary: ResolvedDomain, base: RuntimeValues, done: seq<ResolvedDomain>,
                  table: SecretTable, d: ResolvedDomain)
    requires Named(primary) && forall i :: 0 <= i < |done| ==> Named(done[i])
    ensures Merged(Grown(header, primary, base, done, table), d).1 <==>
            d.name != primary.name && forall i :: 0 <= i < |done| ==> done[i].name != d.name
    ensures Merged(Grown(header, primary, base, done, table), d).1 ==>
              Merged(Grown(header, primary, base, done, table), d).0
              == Grown(header, primary, base, done + [d], WithSecrets(ALL_KEYS, table, d.secrets))
  {
    MentionedNames(primary, done, d.name);
    assert ALL_KEYS + {"domains"} == ALL_KEYS;
    assert Copies(Present(d.config), 1) == [Present(d.config)];
    assert DomainList(primary, done) + [Present(d.config)] == DomainList(primary, done + [d]);
  }

  /** The first merge into a single-domain profile moves the primary into both lists. */
  lemma FirstStep(header: ProfileHeader, primary: ResolvedDomain, base: RuntimeValues, d: ResolvedDomain)
    requires Named(primary) && primary.name != ""
    requires base.domain == Present(primary.config) && base.domains.Absent?
    ensures var p := ProfilePayload(header, primary.config, base);
            && (Merged(p, d).1 <==> d.name != primary.name)
            && (Merged(p, d).1 ==>
                  Merged(p, d).0
                  == Grown(header, primary, base, [d], WithSecrets(ALL_KEYS, SecretsOf(base), d.secrets)))
  {
    var p := ProfilePayload(header, primary.config, base);
    assert Items([]) == [];
    assert Seeded(p.domains, p.domain) == DomainList(primary, []);
    MentionedNames(primary, [], d.name);
    assert Copies(Present(d.config), 1) == [Present(d.config)];
    assert DomainList(primary, []) + [Present(d.config)] == DomainList(primary, [d]);
  }

  ghost predicate NewNames(primary: ResolvedDomain, done: seq<ResolvedDomain>, rest: seq<ResolvedDomain>) {
    && DistinctNames(primary.name, rest)
    && forall i, j :: 0 <= i < |done| && 0 <= j < |rest| ==> done[i].name != rest[j].name
  }

  lemma NewNamesStep(primary: ResolvedDomain, done: seq<ResolvedDomain>, rest: seq<ResolvedDomain>)
    requires rest != []
    ensures NewNames(primary, done, rest) <==>
            && rest[0].name != primary.name && (forall i :: 0 <= i < |done| ==> done[i].name != rest[0].name)
            && NewNames(primary, done + [rest[0]], rest[1..])
  {
    var more, tail := done + [rest[0]], rest[1..];
    assert forall j :: 1 <= j < |rest| ==> rest[j] == tail[j - 1];
    assert forall j :: 0 <= j < |tail| ==> tail[j] == rest[j + 1];
    assert forall i :: 0 <= i < |done| ==> more[i] == done[i];
    assert more[|done|] == rest[0];
    if NewNames(primary, more, tail) && rest[0].name != primary.name
       && (forall i :: 0 <= i < |done| ==> done[i].name != rest[0].name) {
      forall i, j | 0 <= i < j < |rest|
        ensures rest[i].name != rest[j].name
      {
        if i == 0 {
          assert more[|done|].name != tail[j - 1].name;
        } else {
          assert tail[i - 1].name != tail[j - 1].name;
        }
      }
      forall i, j | 0 <= i < |done| && 0 <= j < |rest|
        ensures done[i].name != rest[j].name
      {
        if j > 0 {
          assert more[i].name != tail[j - 1].name;
        }
      }
    }
  }

  lemma {:induction false} GrownAll(header: ProfileHeader, primary: ResolvedDomain, base: RuntimeValues,
                                    done: seq<ResolvedDomain>, table: SecretTable, rest: seq<ResolvedDomain>)
    requires Named(primary)
    requires forall i :: 0 <= i < |done| ==> Named(done[i])
    requires forall i :: 0 <= i < |rest| ==> Named(rest[i])
    ensures var r := MergeAll(Grown(header, primary, base, done, table), rest);
            && (r.Some? <==> NewNames(primary, done, rest))
            && (r.Some? ==>
                  r.value
                  == Grown(header, primary, base, done + rest, KeptSecrets(ALL_KEYS, table, Tables(rest))))
    decreases |rest|
  {
    if rest == [] {
      assert done + rest == done;
    } else {
      var d, tail := rest[0], rest[1..];
      GrownStep(header, primary, base, done, table, d);
      NewNamesStep(primary, done, rest);
      assert Tables(rest)[0] == d.secrets && Tables(rest)[1..] == Tables(tail);
      if Merged(Grown(header, primary, base, done, table), d).1 {
        GrownAll(header, primary, base, done + [d], WithSecrets(ALL_KEYS, table, d.secrets), tail);
        assert done + [d] + tail == done + rest;
      }
    }
  }

  /** Init alone, then one merge per domain: when it succeeds, and what it leaves. */
  lemma MergesAfterInit(args: InitArgs)
    requires InitProfile(Alone(args)).Some?
    requires Named(args.primary) && args.primary.name != ""
    requires forall i :: 0 <= i < |args.withDomains| ==> Named(args.withDomains[i])
    ensures var base := InitProfile(Alone(args)).value;
            var r := MergeAll(base, args.withDomains);
            && base.runtime.Present?
            && (r.Some? <==> DistinctNames(args.primary.name, args.withDomains))
            && (r.Some? && args.withDomains != [] ==>
                  r.value == Grown(InitHeader(args), args.primary, base.runtime.value, args.withDomains,
                                   KeptSecrets(ALL_KEYS, SecretsOf(base.runtime.value), Tables(args.withDomains))))
  {
    var base := InitProfile(Alone(args)).value.runtime.value;
    var rest := args.withDomains;
    if rest != [] {
      var d, tail := rest[0], rest[1..];
      FirstStep(InitHeader(args), args.primary, base, d);
      NewNamesStep(args.primary, [], rest);
      assert Tables(rest)[0] == d.secrets && Tables(rest)[1..] == Tables(tail);
      assert [] + [d] == [d] && [d] + tail == rest;
      if d.name != args.primary.name {
        GrownAll(InitHeader(args), args.primary, base, [d], WithSecrets(ALL_KEYS, SecretsOf(base), d.secrets), tail);
      }
    }
  }

  // ------------------------------------------------------------------ secrets

  predicate NoClash<K, V>(keys: set<K>, more: seq<map<K, V>>) {
    forall i :: 0 <= i < |more| ==> more[i].Keys !! keys
  }

  function AddTables<K, V>(have: map<K, V>, more: seq<map<K, V>>): (r: Option<map<K, V>>)
    decreases |more|
  {
    if more == [] then Some(have)
    else
      var first :- AddSecrets(have, more[0]);
      AddTables(first, more[1..])
  }

  lemma {:induction false} AddTablesIs(have: SecretTable, domains: seq<ResolvedDomain>)
    ensures AddAllSecrets(have, domains) == AddTables(have, Tables(domains))
    decreases |domains|
  {
    if domains != [] {
      assert Tables(domains)[1..] == Tables(domains[1..]);
      var first := AddSecrets(have, domains[0].secrets);
      if first.Some? {
        AddTablesIs(first.value, domains[1..]);
      }
    }
  }

  /** Init's table holds everything; the merges' holds what does not clash with a top-level key. */
  lemma {:induction false} TablesCompared<K(!new), V>(keys: set<K>, have: map<K, V>, kept: map<K, V>,
                                                      more: seq<map<K, V>>)
    requires AddTables(have, more).Some?
    requires kept.Keys <= have.Keys && forall n :: n in kept ==> kept[n] == have[n]
    requires forall n :: n in have && n !in kept ==> n in keys
    ensures var all, less := AddTables(have, more).value, KeptSecrets(keys, kept, more);
            && have.Keys <= all.Keys
            && (kept == have && NoClash(keys, more) ==> less == all)
            && (forall n :: n in less ==> n in all)
            && (forall n :: n in have && n !in kept ==> n !in less)
            && (!NoClash(keys, more) ==> exists n :: n in all && n !in less)
    decreases |more|
  {
    if more != [] {
      var have', kept' := have + more[0], WithSecrets(keys, kept, more[0]);
      assert have.Keys !! more[0].Keys;
      TablesCompared(keys, have', kept', more[1..]);
      if more[0].Keys !! keys {
        if kept == have {
          assert kept' == have';
        }
        assert NoClash(keys, more) <==> NoClash(keys, more[1..]) by {
          assert forall i :: 1 <= i < |more| ==> more[i] == more[1..][i - 1];
          assert forall i :: 0 <= i < |more[1..]| ==> more[1..][i] == more[i + 1];
        }
      } else {
        var n :| n in more[0].Keys && n in keys;
        assert n in have' && n !in kept';
      }
    }
  }

  // -------------------------------------------------------------- the theorems

  /**
   Init with secondary domains succeeds exactly when the merges after a plain
   init do and the secret names are distinct (merges keep the first silently).
   */
  lemma InitAcceptsIffMergesDo(args: InitArgs)
    requires Named(args.primary) && args.primary.name != ""
    requires forall i :: 0 <= i < |args.withDomains| ==> Named(args.withDomains[i])
    ensures InitProfile(args).Some? <==>
            && InitProfile(Alone(args)).Some?
            && MergeAll(InitProfile(Alone(args)).value, args.withDomains).Some?
            && AddAllSecrets(BaseSecrets(args).value, args.withDomains).Some?
  {
    assert ModelOf(Alone(args)) == ModelOf(args) && BaseSecrets(Alone(args)) == BaseSecrets(args);
    if InitProfile(Alone(args)).Some? {
      MergesAfterInit(args);
    }
  }

  /** The two ways agree on everything but the secrets section. */
  lemma SameApartFromSecrets(args: InitArgs)
    requires InitProfile(args).Some?
    requires Named(args.primary) && args.primary.name != ""
    requires forall i :: 0 <= i < |args.withDomains| ==> Named(args.withDomains[i])
    ensures InitProfile(Alone(args)).Some? && MergeAll(InitProfile(Alone(args)).value, args.withDomains).Some?
    ensures InitProfile(args).value.runtime.Present?
    ensures MergeAll(InitProfile(Alone(args)).value, args.withDomains).value.runtime.Present?
    ensures var p := InitProfile(args).value;
            var q := MergeAll(InitProfile(Alone(args)).value, args.withDomains).value;
            && p.header == q.header && p.keys == q.keys && p.domain == q.domain && p.domains == q.domains
            && p.runtime.Present? && q.runtime.Present?
            && p.runtime.value == q.runtime.value.(secrets := p.runtime.value.secrets)
            && AddTables(BaseSecrets(args).value, Tables(args.withDomains)).Some?
            && SecretsOf(p.runtime.value) == AddTables(BaseSecrets(args).value, Tables(args.withDomains)).value
            && SecretsOf(q.runtime.value)
               == KeptSecrets(ALL_KEYS, BaseSecrets(args).value, Tables(args.withDomains))
            && (p.runtime.value.secrets.Present? || p.runtime.value.secrets.Absent?)
            && (q.runtime.value.secrets.Present? || q.runtime.value.secrets.Absent?)
  {
    assert ModelOf(Alone(args)) == ModelOf(args) && BaseSecrets(Alone(args)) == BaseSecrets(args);
    AddTablesIs(BaseSecrets(args).value, args.withDomains);
    MergesAfterInit(args);
    assert Tables([]) == [];
    if args.withDomains == [] {
      assert args == Alone(args);
    }
  }

  lemma SameTableParsesAlike(a: Entry<SecretTable>, b: Entry<SecretTable>)
    requires (a.Present? || a.Absent?) && (b.Present? || b.Absent?)
    requires (if a.Present? then a.value else map[]) == (if b.Present? then b.value else map[])
    ensures ParseSecrets(a) == ParseSecrets(b)
  {
    var none: SecretTable := map[];
    assert SecretsParse(none);
    assert ParseSecrets(Present(none)).value.Keys == {};
  }

  lemma ParsesAlike(v: RuntimeValues, w: RuntimeValues)
    requires v == w.(secrets := v.secrets) && ParseSecrets(v.secrets) == ParseSecrets(w.secrets)
    requires ParseRuntime(v).Some?
    ensures ParseRuntime(w) == ParseRuntime(v)
  {
    var c := ParseRuntime(v).value;
    ParsedIsReadFrom(v, c);
    assert ParseInfrastructure(v) == ParseInfrastructure(w);
    ReadFromParses(w, c);
  }

  lemma SecretsDecide(v: RuntimeValues, w: RuntimeValues)
    requires v == w.(secrets := v.secrets)
    requires (v.secrets.Present? || v.secrets.Absent?) && (w.secrets.Present? || w.secrets.Absent?)
    requires SecretsOf(v) == SecretsOf(w)
    ensures ParseRuntime(v) == ParseRuntime(w)
  {
    SameTableParsesAlike(v.secrets, w.secrets);
    if ParseRuntime(v).Some? {
      ParsesAlike(v, w);
    } else if ParseRuntime(w).Some? {
      ParsesAlike(w, v);
    }
  }

  lemma ParsedSecretNames(v: RuntimeValues)
    requires ParseRuntime(v).Some? && (v.secrets.Present? || v.secrets.Absent?)
    ensures ParseRuntime(v).value.secrets.Keys == SecretsOf(v).Keys
  {
    ParsedIsReadFrom(v, ParseRuntime(v).value);
    OldSecretsParse(v.secrets);
  }

  /**
   Init with X1..Xn and init followed by the merges give profiles that parse to
   the same runtime configuration, for every n, if and only if no secondary
   domain has a secret named like a top-level profile key.
   */
  lemma InitWithDomainsIsInitThenMerges(args: InitArgs)
    requires InitProfile(args).Some?
    requires Named(args.primary) && args.primary.name != ""
    requires forall i :: 0 <= i < |args.withDomains| ==> Named(args.withDomains[i])
    ensures InitProfile(Alone(args)).Some? && MergeAll(InitProfile(Alone(args)).value, args.withDomains).Some?
    ensures InitProfile(args).value.runtime.Present?
    ensures MergeAll(InitProfile(Alone(args)).value, args.withDomains).value.runtime.Present?
    ensures var p := InitProfile(args).value.runtime.value;
            var q := MergeAll(InitProfile(Alone(args)).value, args.withDomains).value.runtime.value;
            && (NoClash(ALL_KEYS, Tables(args.withDomains)) ==> ParseRuntime(p) == ParseRuntime(q))
            && (ParseRuntime(p).Some? ==>
                  (ParseRuntime(p) == ParseRuntime(q) <==> NoClash(ALL_KEYS, Tables(args.withDomains))))
  {
    SameApartFromSecrets(args);
    var p := InitProfile(args).value.runtime.value;
    var q := MergeAll(InitProfile(Alone(args)).value, args.withDomains).value.runtime.value;
    var base, tables := BaseSecrets(args).value, Tables(args.withDomains);
    TablesCompared(ALL_KEYS, base, base, tables);
    if NoClash(ALL_KEYS, tables) {
      SecretsDecide(p, q);
    } else if ParseRuntime(p).Some? && ParseRuntime(q).Some? {
      ParsedSecretNames(p);
      ParsedSecretNames(q);
      var n :| n in SecretsOf(p) && n !in SecretsOf(q);
      assert n in ParseRuntime(p).value.secrets && n !in ParseRuntime(q).value.secrets;
    }
  }

  /** The same for the whole profile: both ways give one `ProfileConfig`, or are refused together. */
  lemma SameProfileIff(args: InitArgs)
    requires InitProfile(args).Some?
    requires Named(args.primary) && args.primary.name != ""
    requires forall i :: 0 <= i < |args.withDomains| ==> Named(args.withDomains[i])
    ensures InitProfile(Alone(args)).Some? && MergeAll(InitProfile(Alone(args)).value, args.withDomains).Some?
    ensures var p := ParseProfile(InitProfile(args).value);
            var q := ParseProfile(MergeAll(InitProfile(Alone(args)).value, args.withDomains).value);
            && (NoClash(ALL_KEYS, Tables(args.withDomains)) ==> p == q)
            && (p.Some? ==> (p == q <==> NoClash(ALL_KEYS, Tables(args.withDomains))))
  {
    SameApartFromSecrets(args);
    InitWithDomainsIsInitThenMerges(args);
    var p := InitProfile(args).value;
    var q := MergeAll(InitProfile(Alone(args)).value, args.withDomains).value;
    RuntimeDecides(p, q);
  }

  lemma RuntimeDecides(p: ProfileValues, q: ProfileValues)
    requires p.runtime.Present? && q.runtime.Present?
    requires p.header == q.header && p.domain == q.domain && p.domains == q.domains
    ensures ParseRuntime(p.runtime.value) == ParseRuntime(q.runtime.value) ==> ParseProfile(p) == ParseProfile(q)
    ensures ParseProfile(p).Some? && ParseProfile(p) == ParseProfile(q) ==>
              ParseRuntime(p.runtime.value).Some? && ParseRuntime(p.runtime.value) == ParseRuntime(q.runtime.value)
  {
    var header, values, list := ParseHeader(p.header), WithDefault(p.domain, NO_DOMAIN_VALUES), ParseDomains(p.domains);
    assert ReadRuntime(p.runtime) == ParseRuntime(p.runtime.value);
    assert ReadRuntime(q.runtime) == ParseRuntime(q.runtime.value);
    if ParseProfile(p).Some? && ParseProfile(q).Some? {
      PartsOf(header, values, list, ReadRuntime(p.runtime));
      PartsOf(header, values, list, ReadRuntime(q.runtime));
    }
  }

  // ------------------------------------------------------- a concrete exception

  /** A domain `x` with a secret called `name`, like a top-level profile key. */
  function Clashing(): (d: ResolvedDomain)
  {
    ResolvedDomain("x", DomainValues(Present("x"), Present("1"), Absent, Absent),
                   map["name" := Present(SecretValues(Present("env"), Present("KEY"), Present(true)))])
  }

  lemma ClashingIsWellFormed()
    ensures WellFormedDomain(Clashing()) && Named(Clashing()) && Named(Local())
    ensures !NoClash(ALL_KEYS, Tables([Clashing()]))
  {
    assert 'x' in "x" && '1' in "1" && 'n' in "name" && 'K' in "KEY";
    assert Tables([Clashing()])[0] == Clashing().secrets;
    assert "name" in Clashing().secrets.Keys && "name" in ALL_KEYS;
  }

  lemma ClashingAccepted()
    ensures RuntimePayload(PlainArgs(1.0, [Clashing()])).Some?
  {
    PlainParts(1.0, [Clashing()]);
    assert |"local"| != |"x"|;
    assert DistinctNames("local", [Clashing()]);
    assert [Clashing()][1..] == [];
    assert AddSecrets(map[], Clashing().secrets).Some?;
  }

  /** Init with `x` and init followed by add-domain `x` are valid and differ: the merge drops the secret. */
  lemma ClashingSecretMakesADifference()
    ensures var args := PlainArgs(1.0, [Clashing()]);
            && InitProfile(args).Some? && InitProfile(Alone(args)).Some?
            && MergeAll(InitProfile(Alone(args)).value, args.withDomains).Some?
            && ParseProfile(InitProfile(args).value).Some?
            && ParseProfile(InitProfile(args).value)
               != ParseProfile(MergeAll(InitProfile(Alone(args)).value, args.withDomains).value)
  {
    var args := PlainArgs(1.0, [Clashing()]);
    ClashingIsWellFormed();
    ClashingAccepted();
    PlainIsValid(1.0, [Clashing()]);
    SameProfileIff(args);
  }
}
