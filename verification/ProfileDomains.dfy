/**
 `agent profile add-domain`: merging one domain into a profile document in place.
 The two domain lists are objects reachable from the profile and from its
 runtime section; they may be one object, as init builds them in memory, or two,
 as they are after the document has been written and read back.
 */
module ProfileDomains {
  import opened Prelude
  import opened Configuration
  import opened ProfileInit

  // ---------------------------------------------------------- on plain values

  /** `existing.get("name") == domain_name` for a list entry that is an object. */
  predicate HasName(item: Entry<DomainValues>, name: string) {
    item.Present? && item.value.name == Present(name)
  }

  ghost predicate Mentions(items: DomainItems, name: string) {
    exists i :: 0 <= i < |items| && HasName(items[i], name)
  }

  predicate Truthy(e: Entry<string>) {
    match e
    case Present(s) => s != ""
    case Malformed(truthy) => truthy
    case _ => false
  }

  /** The list to work on: the one there is, or a new one holding the named primary domain. */
  function Seeded(list: Entry<DomainItems>, primary: Entry<DomainValues>): (r: DomainItems)
  {
    if list.Present? then list.value
    else if primary.Present? && Truthy(primary.value.name) then [primary]
    else []
  }

  function SecretsOf(r: RuntimeValues): (table: SecretTable)
  {
    if r.secrets.Present? then r.secrets.value else map[]
  }

  /** New secrets go in unless the name is taken, by a secret or by a top-level profile key. */
  function WithSecrets<K(!new), V>(keys: set<K>, have: map<K, V>, more: map<K, V>): (r: map<K, V>)
    ensures forall n :: n in have ==> n in r && r[n] == have[n]
    ensures forall n :: n in r <==> n in have || (n in more && n !in keys)
  {
    have + (map n | n in more && n !in keys && n !in have :: more[n])
  }

  function Copies<T>(x: T, n: nat): (r: seq<T>)
    ensures |r| == n && forall i :: 0 <= i < n ==> r[i] == x
  {
    seq(n, _ => x)
  }

  /** The profile with both lists in place. */
  function Normalized(p: ProfileValues): (p': ProfileValues)
  {
    p.(keys := p.keys + {"domains"},
       domains := Present(Seeded(p.domains, p.domain)),
       runtime := if !p.runtime.Present? then p.runtime
                  else
                    var r := p.runtime.value;
                    Present(r.(domains := Present(Seeded(r.domains, r.domain)))))
  }

  ghost predicate AlreadyThere(p: ProfileValues, name: string) {
    || Mentions(Seeded(p.domains, p.domain), name)
    || (p.runtime.Present? && Mentions(Seeded(p.runtime.value.domains, p.runtime.value.domain), name))
  }

  /** A merge that appends the domain `times` times to each list. */
  ghost function MergedTimes(p: ProfileValues, d: ResolvedDomain, times: nat): (r: (ProfileValues, bool))
  {
    var n := Normalized(p);
    if AlreadyThere(p, d.name) then (n, false)
    else
      var entry := Copies(Present(d.config), times);
      var top := n.(domains := Present(n.domains.value + entry));
      if !n.runtime.Present? then (top, true)
      else
        var runtime := n.runtime.value;
        var secrets := WithSecrets(n.keys, SecretsOf(runtime), d.secrets);
        (top.(runtime := Present(runtime.(domains := Present(runtime.domains.value + entry),
                                          secrets := Present(secrets)))), true)
  }

  /** The merge of a document whose lists are distinct objects. */
  ghost function Merged(p: ProfileValues, d: ResolvedDomain): (r: (ProfileValues, bool))
  {
    MergedTimes(p, d, 1)
  }

  // -------------------------------------------------------------- on the heap

  class DomainList {
    var items: DomainItems

    constructor (items: DomainItems)
      ensures this.items == items
    {
      this.items := items;
    }
  }

  /** The value under a `domains` key: a list object, or what stands there instead. */
  datatype Slot = NoList(was: Entry<DomainItems>) | AList(list: DomainList)

  function ListsIn(slot: Slot): (r: set<DomainList>)
  {
    if slot.AList? then {slot.list} else {}
  }

  ghost function SlotValue(slot: Slot): (r: Entry<DomainItems>)
    reads ListsIn(slot)
  {
    match slot
    case NoList(was) => was
    case AList(list) => Present(list.items)
  }

  predicate WellFormedSlot(slot: Slot) {
    slot.NoList? ==> !slot.was.Present?
  }

  class RuntimeMap {
    var fields: RuntimeValues  // everything but `domains`
    var domains: Slot

    constructor (fields: RuntimeValues, domains: Slot)
      ensures this.fields == fields && this.domains == domains
    {
      this.fields, this.domains := fields, domains;
    }

    ghost function Value(): (r: RuntimeValues)
      reads this, ListsIn(domains)
    {
      fields.(domains := SlotValue(domains))
    }
  }

  class ProfileMap {
    const header: ProfileHeader
    var keys: set<string>
    var domain: Entry<DomainValues>
    var domains: Slot
    var runtime: RuntimeMap?
    const noRuntime: Entry<RuntimeValues>  // what stands under `runtime` when it is no object

    constructor (header: ProfileHeader, keys: set<string>, domain: Entry<DomainValues>, domains: Slot,
                 runtime: RuntimeMap?, noRuntime: Entry<RuntimeValues>)
      ensures this.header == header && this.keys == keys && this.domain == domain && this.domains == domains
      ensures this.runtime == runtime && this.noRuntime == noRuntime
    {
      this.header, this.keys, this.domain, this.domains := header, keys, domain, domains;
      this.runtime, this.noRuntime := runtime, noRuntime;
    }

    /** Every list object of the document. */
    function Lists(): (r: set<DomainList>)
      reads this, runtime
    {
      ListsIn(domains) + (if runtime == null then {} else ListsIn(runtime.domains))
    }

    predicate Valid()
      reads this, runtime
    {
      && WellFormedSlot(domains)
      && (runtime != null ==> WellFormedSlot(runtime.domains))
      && !noRuntime.Present?
    }

    /** Both `domains` keys hold the same list object. */
    predicate Aliased()
      reads this, runtime
    {
      domains.AList? && runtime != null && runtime.domains == domains
    }

    ghost function Value(): (r: ProfileValues)
      reads this, runtime, Lists()
    {
      ProfileValues(header, keys, domain, SlotValue(domains),
                    if runtime == null then noRuntime else Present(runtime.Value()))
    }
  }

  function Occurrences<T(==)>(lists: seq<T>, x: T): (n: nat)
  {
    if lists == [] then 0
    else Occurrences(lists[..|lists| - 1], x) + (if lists[|lists| - 1] == x then 1 else 0)
  }

  /** `for domain_list in domain_lists: domain_list.append(domain_config)` */
  method AppendToEach(lists: seq<DomainList>, entry: Entry<DomainValues>)
    modifies lists
    ensures forall l :: l in lists ==> l.items == old(l.items) + Copies(entry, Occurrences(lists, l))
  {
    var i := 0;
    assert forall l :: l in lists ==> l.items == l.items + Copies(entry, 0);
    while i < |lists|
      invariant 0 <= i <= |lists|
      invariant forall l :: l in lists ==> l.items == old(l.items) + Copies(entry, Occurrences(lists[..i], l))
    {
      assert lists[..i + 1][..|lists[..i + 1]| - 1] == lists[..i];
      assert forall n: nat :: Copies(entry, n) + [entry] == Copies(entry, n + 1);
      lists[i].items := lists[i].items + [entry];
      i := i + 1;
    }
    assert lists[..|lists|] == lists;
  }

  /** The double loop that looks the name up in every list. */
  method FindName(lists: seq<DomainList>, name: string) returns (found: bool)
    ensures found <==> exists k :: 0 <= k < |lists| && Mentions(lists[k].items, name)
  {
    var k := 0;
    while k < |lists|
      invariant 0 <= k <= |lists|
      invariant forall n :: 0 <= n < k ==> !Mentions(lists[n].items, name)
    {
      var i := 0;
      while i < |lists[k].items|
        invariant 0 <= i <= |lists[k].items|
        invariant forall n :: 0 <= n < i ==> !HasName(lists[k].items[n], name)
      {
        if HasName(lists[k].items[i], name) {
          assert Mentions(lists[k].items, name);
          return true;
        }
        i := i + 1;
      }
      k := k + 1;
    }
    return false;
  }

  /** `isinstance(value, list)`, or a new seeded list in its place. */
  method TakeList(slot: Slot, primary: Entry<DomainValues>) returns (list: DomainList)
    requires WellFormedSlot(slot)
    ensures slot.AList? ==> list == slot.list
    ensures slot.NoList? ==> fresh(list) && list.items == Seeded(slot.was, primary)
  {
    match slot
    case AList(l) =>
      list := l;
    case NoList(_) =>
      var seeded: DomainItems := [];
      if primary.Present? && Truthy(primary.value.name) {
        seeded := [primary];
      }
      list := new DomainList(seeded);
  }

  /** The loop over `secrets.items()`. */
  method MergeSecrets<K(==,!new), V>(keys: set<K>, have: map<K, V>, more: map<K, V>) returns (table: map<K, V>)
    ensures table == WithSecrets(keys, have, more)
  {
    table := have;
    var left := more.Keys;
    while left != {}
      invariant left <= more.Keys
      invariant forall n :: n in table <==> n in have || (n in more && n !in keys && n !in left)
      invariant forall n :: n in table ==> table[n] == if n in have then have[n] else more[n]
      decreases |left|
    {
      var name :| name in left;
      if name !in keys && name !in table {
        table := table[name := more[name]];
      }
      left := left - {name};
    }
  }

  /** The list of the profile and, with a runtime section, the list of that section, each created if missing. */
  method TakeLists(payload: ProfileMap) returns (lists: seq<DomainList>)
    requires payload.Valid()
    modifies payload, payload.runtime
    ensures payload.Valid() && payload.runtime == old(payload.runtime)
    ensures payload.Value() == Normalized(old(payload.Value()))
    ensures payload.Aliased() <==> old(payload.Aliased())
    ensures payload.domains.AList? && (payload.runtime != null ==> payload.runtime.domains.AList?)
    ensures lists == if payload.runtime == null then [payload.domains.list]
                     else [payload.domains.list, payload.runtime.domains.list]
    ensures forall l :: l in lists ==> l in old(payload.Lists()) || fresh(l)
  {
    var top := TakeList(payload.domains, payload.domain);
    payload.keys := payload.keys + {"domains"};
    payload.domains := AList(top);
    lists := [top];
    if payload.runtime != null {
      var list := TakeList(payload.runtime.domains, payload.runtime.fields.domain);
      payload.runtime.domains := AList(list);
      lists := [top, list];
    }
  }

  /** `_merge_domain`, on whatever objects the document is made of. */
  method MergeDomain(payload: ProfileMap, d: ResolvedDomain) returns (added: bool)
    requires payload.Valid()
    modifies payload, payload.runtime, payload.Lists()
    ensures payload.Valid() && payload.runtime == old(payload.runtime)
    ensures payload.Aliased() <==> old(payload.Aliased())
    ensures (payload.Value(), added)
         == MergedTimes(old(payload.Value()), d, if old(payload.Aliased()) then 2 else 1)
  {
    var lists := TakeLists(payload);
    assert lists[0] == payload.domains.list;
    assert payload.runtime != null ==> |lists| == 2 && lists[1] == payload.runtime.domains.list;
    var found := FindName(lists, d.name);
    assert found <==> AlreadyThere(old(payload.Value()), d.name);
    if found {
      return false;
    }
    CountLists(lists[0], lists[|lists| - 1]);
    AppendToEach(lists, Present(d.config));
    if payload.runtime != null {
      var table := MergeSecrets(payload.keys, SecretsOf(payload.runtime.fields), d.secrets);
      payload.runtime.fields := payload.runtime.fields.(secrets := Present(table));
    }
    return true;
  }

  lemma CountLists<T>(a: T, b: T)
    ensures Occurrences([a], a) == 1
    ensures Occurrences([a, b], a) == if a == b then 2 else 1
    ensures Occurrences([a, b], b) == if a == b then 2 else 1
  {
    assert [a][..0] == [] && [a, b][..1] == [a];
    assert Occurrences([a], b) == if a == b then 1 else 0;
  }

  /** Writing the document and reading it back: equal value, no shared list. */
  method Reload(p: ProfileMap) returns (q: ProfileMap)
    requires p.Valid()
    ensures q.Valid() && q.Value() == p.Value() && !q.Aliased()
    ensures fresh(q) && fresh(q.Lists()) && (q.runtime != null ==> fresh(q.runtime))
  {
    var domains := CopySlot(p.domains);
    var runtime: RuntimeMap? := null;
    if p.runtime != null {
      var runtimeDomains := CopySlot(p.runtime.domains);
      runtime := new RuntimeMap(p.runtime.fields, runtimeDomains);
    }
    q := new ProfileMap(p.header, p.keys, p.domain, domains, runtime, p.noRuntime);
  }

  method CopySlot(slot: Slot) returns (copy: Slot)
    ensures fresh(ListsIn(copy)) && SlotValue(copy) == SlotValue(slot)
    ensures WellFormedSlot(slot) ==> WellFormedSlot(copy)
  {
    match slot
    case NoList(was) =>
      copy := NoList(was);
    case AList(list) =>
      var l := new DomainList(list.items);
      copy := AList(l);
  }

  /** What init builds in memory: with secondary domains, one list under both keys. */
  method BuildProfile(args: InitArgs) returns (p: ProfileMap?)
    ensures (p == null) == InitProfile(args).None?
    ensures p != null ==>
      && fresh(p) && fresh(p.Lists()) && p.runtime != null && fresh(p.runtime)
      && p.Valid() && p.Value() == InitProfile(args).value
      && (p.Aliased() <==> args.withDomains != [])
  {
    var runtime := BuildRuntime(args);
    if runtime.None? {
      return null;
    }
    var slot := NoList(Absent);
    if runtime.value.domains.Present? {
      var list := new DomainList(runtime.value.domains.value);
      slot := AList(list);
    }
    var runtimeMap := new RuntimeMap(runtime.value, slot);
    if slot.AList? {
      p := new ProfileMap(InitHeader(args), PROFILE_KEYS + {"domains"}, Present(args.primary.config), slot,
                          runtimeMap, Absent);
    } else {
      p := new ProfileMap(InitHeader(args), PROFILE_KEYS, Present(args.primary.config), NoList(Absent),
                          runtimeMap, Absent);
    }
  }
}
