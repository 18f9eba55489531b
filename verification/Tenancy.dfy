/** Routing of request hosts to tenants: a table rebuilt from the store, whatever order it lists domains in. */
module Tenancy {
  import opened GoStrings
  import opened Wrappers
  import opened DomainNames
  import opened DomainModel
  import opened DomainService
  import opened DomainRuns
  import opened DomainRaces
  import opened HostPorts
  import Sorting

  datatype DomainBinding = DomainBinding(domain: string, tenantID: int, organizationID: int, userID: int, status: DomainStatus)

  datatype TenantContext = TenantContext(host: string, tenantID: int, organizationID: int, userID: int,
                                         customDomain: string, platformHost: bool)

  datatype ResolveError = UnknownTenantHost | InactiveDomainHost
  datatype Resolution = Resolved(context: TenantContext) | Rejected(error: ResolveError)

  datatype TenantResolver = TenantResolver(platformHosts: set<string>, domainBindings: map<string, DomainBinding>)
  {
    function Resolve(host: string): Resolution {
      var h := NormalizeHost(host);
      if h in platformHosts then Resolved(TenantContext(h, 0, 0, 0, "", true))
      else if h !in domainBindings then Rejected(UnknownTenantHost)
      else
        var b := domainBindings[h];
        if b.status != StatusActive then Rejected(InactiveDomainHost)
        else Resolved(TenantContext(h, b.tenantID, b.organizationID, b.userID, h, false))
    }
  }

  function BindingOf(d: CustomDomain): DomainBinding {
    DomainBinding(d.domain, d.tenantID, d.organizationID, d.userID, d.status)
  }

  /** Later bindings overwrite earlier ones of the same host. */
  function BindingTable(ds: seq<CustomDomain>): map<string, DomainBinding> {
    if ds == [] then map[]
    else
      var last := ds[|ds| - 1];
      BindingTable(ds[..|ds| - 1])[NormalizeHost(last.domain) := BindingOf(last)]
  }

  function PlatformSet(hosts: seq<string>): set<string> {
    if hosts == [] then {} else PlatformSet(hosts[..|hosts| - 1]) + {NormalizeHost(hosts[|hosts| - 1])}
  }

  lemma ExistsInSnoc(init: seq<string>, last: string, p: string -> bool)
    ensures (exists i :: 0 <= i < |init + [last]| && p((init + [last])[i])) <==> (exists i :: 0 <= i < |init| && p(init[i])) || p(last)
  {
    var all := init + [last];
    assert all[|init|] == last;
    if i :| 0 <= i < |init| && p(init[i]) { assert all[i] == init[i]; }
  }

  lemma {:induction false} PlatformSetIff(hosts: seq<string>, h: string)
    ensures h in PlatformSet(hosts) <==> exists i :: 0 <= i < |hosts| && HostMatches(hosts[i], h)
  {
    if hosts != [] {
      var init, last := hosts[..|hosts| - 1], hosts[|hosts| - 1];
      PlatformSetIff(init, h);
      assert HostMatches(last, h) <==> h == NormalizeHost(last);
      hide HostMatches, NormalizeHost;
      assert hosts == init + [last];
      ExistsInSnoc(init, last, host => HostMatches(host, h));
    }
  }

  method NewTenantResolver(hosts: seq<string>, bindings: seq<CustomDomain>) returns (r: TenantResolver)
    ensures r.platformHosts == PlatformSet(hosts)
    ensures r.domainBindings == BindingTable(bindings)
  {
    var platform := NewPlatformSet(hosts);
    var table := NewBindingTable(bindings);
    r := TenantResolver(platform, table);
  }

  method NewPlatformSet(hosts: seq<string>) returns (platform: set<string>)
    ensures platform == PlatformSet(hosts)
  {
    platform := {};
    for n := 0 to |hosts|
      invariant platform == PlatformSet(hosts[..n])
    {
      assert hosts[..n + 1][..n] == hosts[..n];
      platform := platform + {NormalizeHost(hosts[n])};
    }
    assert hosts[..|hosts|] == hosts;
  }

  method NewBindingTable(bindings: seq<CustomDomain>) returns (table: map<string, DomainBinding>)
    ensures table == BindingTable(bindings)
  {
    table := map[];
    for n := 0 to |bindings|
      invariant table == BindingTable(bindings[..n])
    {
      assert bindings[..n + 1][..n] == bindings[..n];
      table := table[NormalizeHost(bindings[n].domain) := BindingOf(bindings[n])];
    }
    assert bindings[..|bindings|] == bindings;
  }

  /** The resolver is built from one listing of the store, in whatever order that listing comes. */
  method NewTenantResolverFromStore(hosts: seq<string>, store: DomainStore) returns (r: TenantResolver,
                                    ghost listed: seq<CustomDomain>)
    requires store.Valid()
    ensures Enumerates(listed, store.domainsByID)
    ensures r.platformHosts == PlatformSet(hosts)
    ensures r.domainBindings == BindingTable(listed)
  {
    var ds := store.ListCustomDomains();
    r := NewTenantResolver(hosts, ds);
    listed := ds;
  }

  /** What routing promises, read off the store directly: a platform host first, otherwise the owner of
      the one record with that name when it is active. */
  ghost function RouteByStore(hosts: seq<string>, st: DomainState, host: string): Resolution {
    var h := NormalizeHost(host);
    if exists i :: 0 <= i < |hosts| && HostMatches(hosts[i], h) then Resolved(TenantContext(h, 0, 0, 0, "", true))
    else if h in st.byName then
      var d := RecordAt(st, st.byName[h]);
      if !d.IsActive() then Rejected(InactiveDomainHost)
      else Resolved(TenantContext(h, d.tenantID, if d.ownerType == Org then d.ownerID else 0,
                                  if d.ownerType == User then d.ownerID else 0, d.domain, false))
    else Rejected(UnknownTenantHost)
  }

  ghost predicate NamesCanonical(m: map<int, CustomDomain>) {
    && KeysMatch(m)
    && (forall id :: id in m ==> IsCanonicalName(m[id].domain))
    && (forall a, b :: a in m && b in m && m[a].domain == m[b].domain ==> a == b)
  }

  function HostOf(d: CustomDomain): string { NormalizeHost(d.domain) }

  /** `table` binds `h` exactly when a record of `ds` has that host, and then to one of those records. */
  ghost predicate RangesOver(table: map<string, DomainBinding>, ds: seq<CustomDomain>, h: string) {
    && (forall k :: 0 <= k < |ds| && HostOf(ds[k]) == h ==> h in table)
    && (h in table ==> exists k :: 0 <= k < |ds| && HostOf(ds[k]) == h && table[h] == BindingOf(ds[k]))
  }

  lemma TableSnoc(ds: seq<CustomDomain>)
    requires ds != []
    ensures var init, last := ds[..|ds| - 1], ds[|ds| - 1];
            ds == init + [last] && BindingTable(ds) == BindingTable(init)[HostOf(last) := BindingOf(last)]
  {
  }

  lemma {:induction false} TableRange(ds: seq<CustomDomain>, h: string)
    ensures RangesOver(BindingTable(ds), ds, h)
  {
    if ds != [] {
      var init, last := ds[..|ds| - 1], ds[|ds| - 1];
      TableRange(init, h);
      TableSnoc(ds);
      hide BindingTable, RangesOver;
      RangeStep(BindingTable(init), init, last, h);
    }
  }

  lemma RangeStep(table: map<string, DomainBinding>, init: seq<CustomDomain>, last: CustomDomain, h: string)
    requires RangesOver(table, init, h)
    ensures RangesOver(table[HostOf(last) := BindingOf(last)], init + [last], h)
  {
    hide HostOf, BindingOf;
    var all := init + [last];
    assert all[|init|] == last && forall k :: 0 <= k < |init| ==> all[k] == init[k];
    if h != HostOf(last) && h in table {
      var k :| 0 <= k < |init| && HostOf(init[k]) == h && table[h] == BindingOf(init[k]);
      assert all[k] == init[k];
    }
  }

  /** Records that route alike also bind alike. */
  ghost predicate Unambiguous(m: map<int, CustomDomain>) {
    forall i, j :: i in m && j in m && HostOf(m[i]) == HostOf(m[j]) ==> BindingOf(m[i]) == BindingOf(m[j])
  }

  ghost predicate OneTable(m: map<int, CustomDomain>) {
    forall a, b :: Enumerates(a, m) && Enumerates(b, m) ==> BindingTable(a) == BindingTable(b)
  }

  lemma SameTable(a: seq<CustomDomain>, b: seq<CustomDomain>, m: map<int, CustomDomain>)
    requires Enumerates(a, m) && Enumerates(b, m) && KeysMatch(m) && Unambiguous(m)
    ensures BindingTable(a) == BindingTable(b)
  {
    hide HostOf, BindingOf, BindingTable;
    EnumerationsPermute(a, b, m);
    Sorting.PermutationIsDistinct(a, b);
    forall h ensures h in BindingTable(a) <==> h in BindingTable(b) {
      TableRange(a, h);
      TableRange(b, h);
      if h in BindingTable(a) {
        var k :| 0 <= k < |a| && HostOf(a[k]) == h;
        assert a[k] in b;
      }
      if h in BindingTable(b) {
        var k :| 0 <= k < |b| && HostOf(b[k]) == h;
        assert b[k] in a;
      }
    }
    forall h | h in BindingTable(a) ensures BindingTable(a)[h] == BindingTable(b)[h] {
      TableRange(a, h);
      TableRange(b, h);
      var i :| 0 <= i < |a| && HostOf(a[i]) == h && BindingTable(a)[h] == BindingOf(a[i]);
      var j :| 0 <= j < |b| && HostOf(b[j]) == h && BindingTable(b)[h] == BindingOf(b[j]);
      assert m[a[i].id] == a[i] && m[b[j].id] == b[j];
    }
  }

  lemma {:induction false} SomeListing(m: map<int, CustomDomain>) returns (ds: seq<CustomDomain>)
    requires KeysMatch(m)
    ensures Enumerates(ds, m)
    decreases |m|
  {
    if m.Keys == {} {
      ds := [];
    } else {
      assert (forall id :: id !in m.Keys) ==> m.Keys == {};
      var id :| id in m.Keys;
      ds := SomeListing(m - {id});
      ds := ListOneMore(ds, m, id);
    }
  }

  lemma ListOneMore(rest: seq<CustomDomain>, m: map<int, CustomDomain>, id: int) returns (ds: seq<CustomDomain>)
    requires KeysMatch(m) && id in m && Enumerates(rest, m - {id})
    ensures ds == rest + [m[id]] && Enumerates(ds, m)
  {
    ds := rest + [m[id]];
    forall k | k in m ensures m[k] in ds {
      if k != id { assert (m - {id})[k] in rest; }
    }
  }

  /** Two records that route alike but bind differently: whichever is listed last wins. */
  lemma TwoTables(m: map<int, CustomDomain>, i: int, j: int)
    requires KeysMatch(m) && i in m && j in m && HostOf(m[i]) == HostOf(m[j]) && BindingOf(m[i]) != BindingOf(m[j])
    ensures !OneTable(m)
  {
    hide HostOf, NormalizeHost, BindingOf;
    assert m - {i, j} == m - {j} - {i} == m - {i} - {j};
    var rest := SomeListing(m - {i, j});
    var a := ListOneMore(rest, m - {j}, i);
    var b := ListOneMore(rest, m - {i}, j);
    var ab := ListOneMore(a, m, j);
    var ba := ListOneMore(b, m, i);
    LastWins(a, m[j]);
    LastWins(b, m[i]);
    assert BindingTable(ab) != BindingTable(ba);
  }

  lemma LastWins(init: seq<CustomDomain>, last: CustomDomain)
    ensures HostOf(last) in BindingTable(init + [last]) && BindingTable(init + [last])[HostOf(last)] == BindingOf(last)
  {
    assert (init + [last])[..|init|] == init;
  }

  /** A store has one routing table, whatever order its records are listed in, exactly when no two
      records of one host bind it differently. */
  lemma TableIgnoresOrderIff(m: map<int, CustomDomain>)
    requires KeysMatch(m)
    ensures OneTable(m) <==> Unambiguous(m)
  {
    hide HostOf, BindingOf, BindingTable;
    if Unambiguous(m) {
      forall a, b | Enumerates(a, m) && Enumerates(b, m) ensures BindingTable(a) == BindingTable(b) { SameTable(a, b, m); }
    }
    forall i, j | i in m && j in m && HostOf(m[i]) == HostOf(m[j]) && BindingOf(m[i]) != BindingOf(m[j]) ensures !OneTable(m) {
      TwoTables(m, i, j);
    }
  }

  lemma CanonicalIsUnambiguous(m: map<int, CustomDomain>)
    requires NamesCanonical(m)
    ensures Unambiguous(m) && forall id :: id in m ==> HostOf(m[id]) == m[id].domain
  {
    hide NormalizeHost, BindingOf;
    forall id | id in m ensures HostOf(m[id]) == m[id].domain { CanonicalNameIsFixed(m[id].domain); }
  }

  /** After any run of atomic calls the table does not depend on the listing order. */
  lemma RunHasOneTable(config: ServiceConfig, calls: seq<Timed>)
    ensures OneTable(Run(config, calls).byID)
  {
    RunIsReachable(config, calls);
    ReachableNamesCanonical(config, Run(config, calls));
    CanonicalIsUnambiguous(Run(config, calls).byID);
    TableIgnoresOrderIff(Run(config, calls).byID);
  }

  lemma TwoRecordsUnambiguousIff(m: map<int, CustomDomain>, d: CustomDomain, e: CustomDomain)
    requires m.Keys == {1, 2} && SameButStamps(m[1], d) && SameButStamps(m[2], e) && d.domain == e.domain
    ensures Unambiguous(m) <==> BindingOf(d) == BindingOf(e)
  {
    assert HostOf(m[1]) == HostOf(m[2]) by { hide NormalizeHost; }
    assert BindingOf(m[1]) == BindingOf(d) && BindingOf(m[2]) == BindingOf(e);
    hide HostOf, BindingOf, SameButStamps;
  }

  /** After two claims raced for a name it does, unless both records bind the host alike: routing then hangs
      on map iteration order. */
  lemma RaceMakesRoutingAmbiguous(config: ServiceConfig, a: Claim, b: Claim, name: string, now: Time, wall: Time)
    requires NameRefusal(config, name) == None
    ensures OneTable(Exec(config, Race(a, b, name, now, wall)).store.byID)
            <==> BindingOf(ClaimedRecord(a, name, now)) == BindingOf(ClaimedRecord(b, name, now))
  {
    var st := Exec(config, Race(a, b, name, now, wall)).store;
    assert ClaimedRecord(a, name, now).domain == ClaimedRecord(b, name, now).domain by { hide NormalizeDomainName; }
    hide NameRefusal, Exec, Race, ClaimedRecord, OneTable, Unambiguous, BindingOf, SameButStamps, UniqueNames;
    RaceRegistersTwice(config, a, b, name, now, wall);
    ExecIsSafe(config, Race(a, b, name, now, wall), 0);
    TableIgnoresOrderIff(st.byID);
    TwoRecordsUnambiguousIff(st.byID, ClaimedRecord(a, name, now), ClaimedRecord(b, name, now));
  }

  lemma ReachableNamesCanonical(config: ServiceConfig, st: DomainState)
    requires Reachable(config, st)
    ensures NamesCanonical(st.byID)
  {
    forall a, b | a in st.byID && b in st.byID && st.byID[a].domain == st.byID[b].domain
      ensures a == b
    {
      assert st.byName[st.byID[a].domain] == a && st.byName[st.byID[b].domain] == b;
    }
  }

  /** After any run of the service, a resolver built from any listing routes every host as the store says. */
  lemma ResolverAgreesWithStore(config: ServiceConfig, calls: seq<Timed>, hosts: seq<string>, listed: seq<CustomDomain>,
                                r: TenantResolver, host: string)
    requires Enumerates(listed, Run(config, calls).byID)
    requires r.platformHosts == PlatformSet(hosts)
    requires r.domainBindings == BindingTable(listed)
    ensures r.Resolve(host) == RouteByStore(hosts, Run(config, calls), host)
  {
    var st := Run(config, calls);
    RunIsReachable(config, calls);
    ReachableNamesCanonical(config, st);
    CanonicalIsUnambiguous(st.byID);
    PlatformSetIff(hosts, NormalizeHost(host));
    hide Run, NormalizeHost, BindingTable, HostOf, PlatformSet, HostMatches, LifecycleOK, NameOK;
    RouteOf(st, listed, r.domainBindings, NormalizeHost(host));
    hide Reachable;
    RoutesAlike(hosts, st, r, host);
  }

  /** A resolver whose table follows the name index resolves as the store says. */
  lemma RoutesAlike(hosts: seq<string>, st: DomainState, r: TenantResolver, host: string)
    requires var h := NormalizeHost(host);
             && (h in r.platformHosts <==> exists i :: 0 <= i < |hosts| && HostMatches(hosts[i], h))
             && (h in r.domainBindings <==> h in st.byName)
             && (h in r.domainBindings ==>
                   && st.byName[h] in st.byID && st.byID[st.byName[h]].domain == h
                   && r.domainBindings[h] == BindingOf(st.byID[st.byName[h]])
                   && OwnerOK(st.byID[st.byName[h]]) && LifecycleOK(st.byID[st.byName[h]]))
    ensures r.Resolve(host) == RouteByStore(hosts, st, host)
  {
    hide NormalizeHost, HostMatches;
  }

  /** A listed table and the name index agree on every host. */
  lemma RouteOf(st: DomainState, listed: seq<CustomDomain>, table: map<string, DomainBinding>, h: string)
    requires IndexExact(st) && RecordsOK(st) && Enumerates(listed, st.byID) && table == BindingTable(listed)
    requires forall id :: id in st.byID ==> HostOf(st.byID[id]) == st.byID[id].domain
    ensures h in table <==> h in st.byName
    ensures h in table ==> var d := st.byID[st.byName[h]]; table[h] == BindingOf(d) && OwnerOK(d) && LifecycleOK(d)
  {
    hide HostOf, NormalizeHost, BindingOf, BindingTable;
    TableRange(listed, h);
    if h in table {
      var k :| 0 <= k < |listed| && HostOf(listed[k]) == h && table[h] == BindingOf(listed[k]);
      assert st.byID[listed[k].id] == listed[k];
    }
    if h in st.byName {
      var id := st.byName[h];
      assert id in st.byID && st.byID[id].domain == h;
      assert st.byID[id] in listed && HostOf(st.byID[id]) == h;
    }
  }

  /** A numeric port makes no difference to where a registered name routes. */
  lemma PortDoesNotRoute(r: TenantResolver, d: string, port: string)
    requires IsCanonicalName(d) && IsDigits(port)
    ensures r.Resolve(d + ":" + port) == r.Resolve(d)
  {
    hide NormalizeHost, IsCanonicalName, Plain, IsDigits;
    CanonicalNameIsFixed(d);
    CanonicalIsPlain(d);
    PortIsStripped(d, port);
  }

  lemma CanonicalIsPlain(d: string)
    requires IsCanonicalName(d)
    ensures Plain(d)
  {
    var labels :| RejoinsTo(labels, d);
    var joined := Join(labels, '.');
    JoinChars(labels);
    if d != joined { assert forall i :: 2 <= i < |d| ==> d[i] == joined[i - 2] && d[i] in joined; }
  }

  /** A resolver answers for the platform, for an active bound domain with that domain's tenant and owner, or with
      the error that fits. */
  lemma ResolveAnswers(r: TenantResolver, host: string)
    ensures var h := NormalizeHost(host);
            && (h in r.platformHosts ==> r.Resolve(host) == Resolved(TenantContext(h, 0, 0, 0, "", true)))
            && (h !in r.platformHosts && h !in r.domainBindings ==> r.Resolve(host) == Rejected(UnknownTenantHost))
            && (h !in r.platformHosts && h in r.domainBindings && r.domainBindings[h].status != StatusActive ==>
                  r.Resolve(host) == Rejected(InactiveDomainHost))
            && (h !in r.platformHosts && h in r.domainBindings && r.domainBindings[h].status == StatusActive ==>
                  var (b, answer) := (r.domainBindings[h], r.Resolve(host));
                  && answer.Resolved? && answer.context.host == answer.context.customDomain == h
                  && answer.context.tenantID == b.tenantID && answer.context.organizationID == b.organizationID
                  && answer.context.userID == b.userID && !answer.context.platformHost)
  {
    hide NormalizeHost;
  }

  lemma EnumerationsPermute(a: seq<CustomDomain>, b: seq<CustomDomain>, m: map<int, CustomDomain>)
    requires Enumerates(a, m) && Enumerates(b, m) && KeysMatch(m)
    ensures multiset(a) == multiset(b)
  {
    forall d ensures d in a <==> d in b {
      if d in a { assert d == m[d.id]; }
      if d in b { assert d == m[d.id]; }
    }
    Sorting.SameMembers(a, b);
  }

  /** After any run, `ListDomains` has one possible answer, for any map order and any correct sort:
      the records in strictly increasing order of name. */
  lemma ListingIsUnique(config: ServiceConfig, calls: seq<Timed>, a: seq<CustomDomain>, b: seq<CustomDomain>)
    requires var m := Run(config, calls).byID; Enumerates(a, m) && Enumerates(b, m)
    requires Sorting.SortedBy(NameLess, a) && Sorting.SortedBy(NameLess, b)
    ensures a == b && Sorting.StrictlySortedBy(NameLess, a)
  {
    var st := Run(config, calls);
    RunIsReachable(config, calls);
    ReachableNamesCanonical(config, st);
    EnumerationsPermute(a, b, st.byID);
    NameOrderIsStrict(a, st.byID);
    NameOrderIsStrict(b, st.byID);
    forall x, y | NameLess(x, y) ensures !NameLess(y, x) {
      LessIrreflexive(x.domain);
      if NameLess(y, x) { LessTransitive(x.domain, y.domain, x.domain); }
    }
    Sorting.SortedIsUnique(NameLess, a, b);
  }

  lemma NameOrderIsStrict(ds: seq<CustomDomain>, m: map<int, CustomDomain>)
    requires Enumerates(ds, m) && NamesCanonical(m) && Sorting.SortedBy(NameLess, ds)
    ensures Sorting.StrictlySortedBy(NameLess, ds)
  {
    forall i, j | 0 <= i < j < |ds|
      ensures NameLess(ds[i], ds[j])
    {
      assert m[ds[i].id] == ds[i] && m[ds[j].id] == ds[j];
      LessTotal(ds[i].domain, ds[j].domain);
    }
  }
}
