/** When two documents say the same, field by field and on the documents as they are; and that Diff, verification and
    the round trips decide exactly that. */
module Agreement {
  import opened Text
  import opened Clean
  import opened Configuration
  import opened Diff
  import Protocol

  // Lists that are compared group by group.

  function HasKeyOf<T>(key: T -> Key, k: Key): T -> bool {
    x => key(x) == k
  }

  /** The entries with the given key, in their order. */
  function Under<T>(s: seq<T>, key: T -> Key, k: Key): seq<T> {
    Keep(s, HasKeyOf(key, k))
  }

  ghost predicate Paired<T>(s: seq<T>, t: seq<T>, same: (T, T) -> bool) {
    |s| == |t| && forall i :: 0 <= i < |s| ==> same(s[i], t[i])
  }

  /** Under every key the same entries in the same order. */
  ghost predicate SameUnder<T>(a: seq<T>, b: seq<T>, key: T -> Key, same: (T, T) -> bool) {
    forall k: Key :: Paired(Under(a, key, k), Under(b, key, k), same)
  }

  ghost predicate SameList<T>(a: Option<seq<T>>, b: Option<seq<T>>, key: T -> Key, same: (T, T) -> bool) {
    if a.None? || b.None? then a.None? && b.None? else SameUnder(a.value, b.value, key, same)
  }

  lemma {:induction false} InsertUnder<T>(x: T, s: seq<T>, key: T -> Key, k: Key)
    ensures Under(Insert(x, s, key), key, k) == (if key(x) == k then [x] else []) + Under(s, key, k)
  {
    if s != [] && KeyLess(key(s[0]), key(x)) {
      InsertUnder(x, s[1..], key, k);
      KeyLessIrreflexive(key(x));
      assert Insert(x, s, key)[1..] == Insert(x, s[1..], key);
    } else {
      assert Insert(x, s, key) == [x] + s;
      assert ([x] + s)[1..] == s;
    }
  }

  /** Sorting keeps the entries of each key in their order. */
  lemma {:induction false} SortUnder<T>(s: seq<T>, key: T -> Key, k: Key)
    ensures Under(Sort(s, key), key, k) == Under(s, key, k)
  {
    if s != [] {
      SortUnder(s[1..], key, k);
      InsertUnder(s[0], Sort(s[1..], key), key, k);
    }
  }

  lemma UnderMember<T>(s: seq<T>, key: T -> Key, i: nat)
    requires i < |s|
    ensures Under(s, key, key(s[i])) != []
  {
    KeepMembers(s, HasKeyOf(key, key(s[i])));
    assert s[i] in s;
    assert s[i] in Under(s, key, key(s[i]));
  }

  /** The first entries of two sorted lists with the same groups have the same key. */
  lemma SameHeadKey<T>(s: seq<T>, t: seq<T>, key: T -> Key)
    requires Sorted(s, key) && Sorted(t, key) && s != [] && t != []
    requires forall k: Key :: Under(s, key, k) == Under(t, key, k)
    ensures key(s[0]) == key(t[0])
  {
    UnderMember(s, key, 0);
    UnderMember(t, key, 0);
    var i := FindUnder(t, key, key(s[0]));
    var j := FindUnder(s, key, key(t[0]));
    KeyLessTotal(key(s[0]), key(t[0]));
  }

  lemma FindUnder<T>(s: seq<T>, key: T -> Key, k: Key) returns (i: nat)
    requires Under(s, key, k) != []
    ensures i < |s| && key(s[i]) == k
  {
    var x := Under(s, key, k)[0];
    KeepMember(s, HasKeyOf(key, k), x);
    i :| 0 <= i < |s| && s[i] == x;
  }

  /** Two sorted lists with the same groups are the same list. */
  lemma {:induction false} GroupsDetermine<T>(s: seq<T>, t: seq<T>, key: T -> Key)
    requires Sorted(s, key) && Sorted(t, key) && forall k: Key :: Under(s, key, k) == Under(t, key, k)
    ensures s == t
  {
    if s == [] {
      if t != [] {
        UnderMember(t, key, 0);
      }
    } else if t == [] {
      UnderMember(s, key, 0);
    } else {
      SameHeadKey(s, t, key);
      var k0 := key(s[0]);
      assert Under(s, key, k0)[0] == s[0] && Under(t, key, k0)[0] == t[0];
      forall k: Key
        ensures Under(s[1..], key, k) == Under(t[1..], key, k)
      {
        assert Under(s, key, k) == (if k0 == k then [s[0]] else []) + Under(s[1..], key, k);
        assert Under(t, key, k) == (if k0 == k then [t[0]] else []) + Under(t[1..], key, k);
        assert k0 == k ==> Under(s[1..], key, k) == Under(s, key, k)[1..] && Under(t[1..], key, k) == Under(t, key, k)[1..];
        assert k0 != k ==> Under(s[1..], key, k) == Under(s, key, k) && Under(t[1..], key, k) == Under(t, key, k);
      }
      GroupsDetermine(s[1..], t[1..], key);
      assert s == [s[0]] + s[1..] && t == [t[0]] + t[1..];
    }
  }

  lemma {:induction false} MapUnder<T>(f: T -> T, s: seq<T>, key: T -> Key, raw: T -> Key, k: Key)
    requires forall x :: key(f(x)) == raw(x)
    ensures Under(Map(f, s), key, k) == Map(f, Under(s, raw, k))
  {
    if s != [] {
      MapUnder(f, s[1..], key, raw, k);
      assert Map(f, s)[1..] == Map(f, s[1..]);
      assert raw(s[0]) == key(f(s[0]));
      var rest := Under(s[1..], raw, k);
      assert Under(s, raw, k) == (if raw(s[0]) == k then [s[0]] else []) + rest;
      MapAppend(f, if raw(s[0]) == k then [s[0]] else [], rest);
    }
  }

  /** Putting two lists in form and in order gives the same list exactly if they agree group by group. */
  lemma SortedFormsExact<T>(a: seq<T>, b: seq<T>, f: T -> T, key: T -> Key, raw: T -> Key, same: (T, T) -> bool)
    requires forall x :: key(f(x)) == raw(x)
    requires forall x, y :: f(x) == f(y) <==> same(x, y)
    ensures Sort(Map(f, a), key) == Sort(Map(f, b), key) <==> SameUnder(a, b, raw, same)
  {
    hide Sort, Under, Paired, Map;
    var s, t := Sort(Map(f, a), key), Sort(Map(f, b), key);
    forall k: Key
      ensures Under(s, key, k) == Under(t, key, k) <==> Paired(Under(a, raw, k), Under(b, raw, k), same)
    {
      GroupExact(a, b, f, key, raw, same, k);
    }
    SortSorts(Map(f, a), key);
    SortSorts(Map(f, b), key);
    if SameUnder(a, b, raw, same) {
      GroupsDetermine(s, t, key);
    }
  }

  lemma GroupExact<T>(a: seq<T>, b: seq<T>, f: T -> T, key: T -> Key, raw: T -> Key, same: (T, T) -> bool, k: Key)
    requires forall x :: key(f(x)) == raw(x)
    requires forall x, y :: f(x) == f(y) <==> same(x, y)
    ensures Under(Sort(Map(f, a), key), key, k) == Under(Sort(Map(f, b), key), key, k)
       <==> Paired(Under(a, raw, k), Under(b, raw, k), same)
  {
    hide Sort, Under, Paired, Map;
    SortUnder(Map(f, a), key, k);
    SortUnder(Map(f, b), key, k);
    MapUnder(f, a, key, raw, k);
    MapUnder(f, b, key, raw, k);
    MappedPairs(f, Under(a, raw, k), Under(b, raw, k), same);
  }

  lemma MappedPairs<T>(f: T -> T, a: seq<T>, b: seq<T>, same: (T, T) -> bool)
    requires forall x, y :: f(x) == f(y) <==> same(x, y)
    ensures Map(f, a) == Map(f, b) <==> Paired(a, b, same)
  {
    if Map(f, a) == Map(f, b) {
      assert |a| == |Map(f, a)| == |Map(f, b)| == |b|;
      forall i | 0 <= i < |a|
        ensures same(a[i], b[i])
      {
        assert Map(f, a)[i] == Map(f, b)[i];
      }
    }
  }

  // Field by field.

  ghost predicate SameDns(a: Dns, b: Dns) {
    && CleanOrdered(a.upstreamDns) == CleanOrdered(b.upstreamDns)
    && CleanSet(a.bootstrapDns) == CleanSet(b.bootstrapDns)
    && CleanOrdered(a.fallbackDns) == CleanOrdered(b.fallbackDns)
    && CleanSet(a.privateReverseDns) == CleanSet(b.privateReverseDns)
    && CleanSet(a.rateLimitAllowlist) == CleanSet(b.rateLimitAllowlist)
    && Trim(a.blockingMode) == Trim(b.blockingMode) && Trim(a.ednsCustomIp) == Trim(b.ednsCustomIp)
    && Trim(a.upstreamMode) == Trim(b.upstreamMode)
    && a.protectionEnabled == b.protectionEnabled && a.rateLimit == b.rateLimit && a.rateLimitIpv4 == b.rateLimitIpv4
    && a.rateLimitIpv6 == b.rateLimitIpv6 && a.blockingIpv4 == b.blockingIpv4 && a.blockingIpv6 == b.blockingIpv6
    && a.blockedResponseTtl == b.blockedResponseTtl && a.ednsClientSubnet == b.ednsClientSubnet
    && a.ednsUseCustom == b.ednsUseCustom && a.disableIpv6 == b.disableIpv6 && a.dnssecEnabled == b.dnssecEnabled
    && a.cacheSize == b.cacheSize && a.cacheEnabled == b.cacheEnabled && a.cacheTtlMin == b.cacheTtlMin
    && a.cacheTtlMax == b.cacheTtlMax && a.cacheOptimistic == b.cacheOptimistic
    && a.usePrivateReverse == b.usePrivateReverse && a.resolveClients == b.resolveClients
    && a.upstreamTimeout == b.upstreamTimeout
  }

  ghost predicate SameFiltering(a: Filtering, b: Filtering) {
    && a.enabled == b.enabled && a.updateInterval == b.updateInterval
    && CleanSet(a.filterUrls) == CleanSet(b.filterUrls) && CleanSet(a.whitelistUrls) == CleanSet(b.whitelistUrls)
    && CleanOrdered(a.userRules) == CleanOrdered(b.userRules)
  }

  predicate SameSchedule(a: Schedule, b: Schedule) {
    Trim(a.timeZone) == Trim(b.timeZone) && a.days == b.days
  }

  function NameOf(client: PersistentClient): Key {
    [Lower(Trim(client.name))]
  }

  predicate SameClient(a: PersistentClient, b: PersistentClient) {
    && Trim(a.name) == Trim(b.name) && CleanSet(a.ids) == CleanSet(b.ids)
    && CleanSet(a.blockedServices) == CleanSet(b.blockedServices)
    && SameSchedule(a.blockedServicesSchedule, b.blockedServicesSchedule)
    && CleanOrdered(a.upstreams) == CleanOrdered(b.upstreams) && CleanSet(a.tags) == CleanSet(b.tags)
    && a.useGlobalSettings == b.useGlobalSettings && a.filteringEnabled == b.filteringEnabled
    && a.parentalEnabled == b.parentalEnabled && a.safeBrowsingEnabled == b.safeBrowsingEnabled
    && a.safeSearch == b.safeSearch && a.useGlobalBlockedServices == b.useGlobalBlockedServices
    && a.upstreamsCacheEnabled == b.upstreamsCacheEnabled && a.upstreamsCacheSize == b.upstreamsCacheSize
    && a.ignoreQueryLog == b.ignoreQueryLog && a.ignoreStatistics == b.ignoreStatistics
  }

  function PairOf(rewrite: Rewrite): Key {
    [Lower(Trim(rewrite.domain)), Lower(Trim(rewrite.answer))]
  }

  predicate SameRewrite(a: Rewrite, b: Rewrite) {
    Trim(a.domain) == Trim(b.domain) && Trim(a.answer) == Trim(b.answer) && a.enabled == b.enabled
  }

  ghost predicate SameServices(a: Services, b: Services) {
    && CleanSet(a.blockedServiceIds) == CleanSet(b.blockedServiceIds) && SameSchedule(a.blockedSchedule, b.blockedSchedule)
    && a.safeBrowsing == b.safeBrowsing && a.parentalControl == b.parentalControl && a.safeSearch == b.safeSearch
  }

  ghost predicate SamePolicies(a: Shared, b: Shared) {
    && CleanSet(a.queryLog.ignored) == CleanSet(b.queryLog.ignored)
    && a.queryLog.enabled == b.queryLog.enabled && a.queryLog.intervalMillis == b.queryLog.intervalMillis
    && a.queryLog.anonymizeClientIp == b.queryLog.anonymizeClientIp && a.queryLog.ignoredEnabled == b.queryLog.ignoredEnabled
    && CleanSet(a.statistics.ignored) == CleanSet(b.statistics.ignored)
    && a.statistics.enabled == b.statistics.enabled && a.statistics.intervalMillis == b.statistics.intervalMillis
    && a.statistics.ignoredEnabled == b.statistics.ignoredEnabled
  }

  /** Shared settings say the same. */
  ghost predicate SameShared(a: Shared, b: Shared) {
    && SameDns(a.dns, b.dns) && SameFiltering(a.filtering, b.filtering)
    && SameList(a.clients, b.clients, NameOf, SameClient)
    && a.rewritesEnabled == b.rewritesEnabled && SameList(a.rewrites, b.rewrites, PairOf, SameRewrite)
    && SameServices(a.services, b.services) && SamePolicies(a, b)
  }

  function AddressOf(lease: StaticLease): Key {
    [Lower(Trim(lease.mac))]
  }

  predicate SameLease(a: StaticLease, b: StaticLease) {
    Lower(Trim(a.mac)) == Lower(Trim(b.mac)) && Trim(a.ip) == Trim(b.ip) && Trim(a.hostname) == Trim(b.hostname)
  }

  ghost predicate SameDhcp(a: DhcpConfig, b: DhcpConfig) {
    && a.enabled == b.enabled && Trim(a.interfaceName) == Trim(b.interfaceName) && a.ipv4 == b.ipv4 && a.ipv6 == b.ipv6
    && SameList(a.staticLeases, b.staticLeases, AddressOf, SameLease)
  }

  /** The same listener: addresses and port. */
  ghost predicate SameListener(a: NodeSpecific, b: NodeSpecific) {
    CleanSet(a.bindHosts) == CleanSet(b.bindHosts) && a.dnsPort == b.dnsPort
  }

  /** Node-specific settings say the same. */
  ghost predicate SameNode(a: NodeSpecific, b: NodeSpecific) {
    && SameListener(a, b)
    && (if a.dhcp.None? || b.dhcp.None? then a.dhcp.None? && b.dhcp.None? else SameDhcp(a.dhcp.value, b.dhcp.value))
  }

  /** The areas a document counts as unsupported: a schema-1 record has one more, once. */
  function AreasOf(schemaVersion: int, areas: Option<seq<Unsupported>>): Option<seq<Unsupported>> {
    if schemaVersion == LEGACY_SCHEMA_VERSION && forall u :: u in Configuration.Areas(areas) ==> u.section != LEGACY_MIGRATION_SECTION
    then Some(Configuration.Areas(areas) + [Unsupported(LEGACY_MIGRATION_SECTION, LEGACY_MIGRATION_REASON)])
    else areas
  }

  function AreaKey(u: Unsupported): Key {
    [u.section, u.reason]
  }

  predicate SameArea(a: Unsupported, b: Unsupported) {
    a == b
  }

  ghost predicate SameAreas(a: Document, b: Document) {
    SameList(AreasOf(a.schemaVersion, a.unsupported), AreasOf(b.schemaVersion, b.unsupported), AreaKey, SameArea)
  }

  ghost predicate SameDocument(a: Document, b: Document) {
    SameShared(a.shared, b.shared) && SameNode(a.nodeSpecific, b.nodeSpecific) && SameAreas(a, b)
  }

  // Canonical form decides it.

  lemma DnsExact(a: Dns, b: Dns)
    ensures CanonicalDns(a) == CanonicalDns(b) <==> SameDns(a, b)
  {
    hide CleanOrdered, CleanSet, Trim;
  }

  lemma FilteringExact(a: Filtering, b: Filtering)
    ensures CanonicalFiltering(a) == CanonicalFiltering(b) <==> SameFiltering(a, b)
  {
    hide CleanOrdered, CleanSet;
  }

  lemma ClientExact(a: PersistentClient, b: PersistentClient)
    ensures CanonicalClient(a) == CanonicalClient(b) <==> SameClient(a, b)
    ensures ClientKey(CanonicalClient(a)) == NameOf(a)
  {
    hide CleanOrdered, CleanSet, Trim, Lower;
  }

  lemma ClientsExact(a: Option<seq<PersistentClient>>, b: Option<seq<PersistentClient>>)
    ensures CanonicalList(a, CanonicalClient, ClientKey) == CanonicalList(b, CanonicalClient, ClientKey) <==> SameList(a, b, NameOf, SameClient)
  {
    hide CanonicalClient, ClientKey, NameOf, SameClient, Sort, Map, SameUnder;
    forall x, y
      ensures (CanonicalClient(x) == CanonicalClient(y) <==> SameClient(x, y)) && ClientKey(CanonicalClient(x)) == NameOf(x)
    {
      ClientExact(x, y);
    }
    if a.Some? && b.Some? {
      SortedFormsExact(a.value, b.value, CanonicalClient, ClientKey, NameOf, SameClient);
    }
  }

  lemma RewritesExact(a: Option<seq<Rewrite>>, b: Option<seq<Rewrite>>)
    ensures CanonicalList(a, CanonicalRewrite, RewriteOrder) == CanonicalList(b, CanonicalRewrite, RewriteOrder)
       <==> SameList(a, b, PairOf, SameRewrite)
  {
    hide Trim, Lower, Sort, Map, SameUnder;
    if a.Some? && b.Some? {
      SortedFormsExact(a.value, b.value, CanonicalRewrite, RewriteOrder, PairOf, SameRewrite);
    }
  }

  lemma LeasesExact(a: Option<seq<StaticLease>>, b: Option<seq<StaticLease>>)
    ensures CanonicalList(a, CanonicalLease, LeaseKey) == CanonicalList(b, CanonicalLease, LeaseKey)
       <==> SameList(a, b, AddressOf, SameLease)
  {
    hide Trim, Lower, Sort, Map, SameUnder;
    if a.Some? && b.Some? {
      SortedFormsExact(a.value, b.value, CanonicalLease, LeaseKey, AddressOf, SameLease);
    }
  }

  lemma ServicesExact(a: Services, b: Services)
    ensures CanonicalServices(a) == CanonicalServices(b) <==> SameServices(a, b)
  {
    hide CleanSet, Trim;
  }

  lemma SharedExact(a: Shared, b: Shared)
    ensures CanonicalShared(a) == CanonicalShared(b) <==> SameShared(a, b)
  {
    hide CanonicalDns, CanonicalFiltering, CanonicalServices, CanonicalList, SameDns, SameFiltering, SameServices, SameList, CleanSet;
    DnsExact(a.dns, b.dns);
    FilteringExact(a.filtering, b.filtering);
    ClientsExact(a.clients, b.clients);
    RewritesExact(a.rewrites, b.rewrites);
    ServicesExact(a.services, b.services);
  }

  lemma NodeExact(a: NodeSpecific, b: NodeSpecific)
    ensures CanonicalNode(a) == CanonicalNode(b) <==> SameNode(a, b)
  {
    hide CanonicalList, SameList, CleanSet, Trim;
    if a.dhcp.Some? && b.dhcp.Some? {
      LeasesExact(a.dhcp.value.staticLeases, b.dhcp.value.staticLeases);
    }
  }

  lemma AreasExact(a: Document, b: Document)
    ensures CanonicalUnsupported(a.schemaVersion, a.unsupported) == CanonicalUnsupported(b.schemaVersion, b.unsupported) <==> SameAreas(a, b)
  {
    hide Sort, Map, SameUnder;
    var x, y := AreasOf(a.schemaVersion, a.unsupported), AreasOf(b.schemaVersion, b.unsupported);
    assert CanonicalUnsupported(a.schemaVersion, a.unsupported) == CanonicalList(x, Identity, UnsupportedKey);
    assert CanonicalUnsupported(b.schemaVersion, b.unsupported) == CanonicalList(y, Identity, UnsupportedKey);
    if x.Some? && y.Some? {
      SortedFormsExact(x.value, y.value, Identity, UnsupportedKey, AreaKey, SameArea);
    }
  }

  // Diff, verification and the round trips.

  /** For documents of which one has a schema version of 0 or more, Diff is empty exactly if they say the same. */
  lemma DiffDecides(left: Document, right: Document)
    requires left.schemaVersion >= 0 || right.schemaVersion >= 0
    ensures Diff.Diff(left, right) == [] <==> SameDocument(left, right)
  {
    hide Diff.Diff, CanonicalShared, CanonicalNode, CanonicalUnsupported, CanonicalObserved, SameShared, SameNode, SameAreas;
    DiffExact(left, right);
    SharedExact(left.shared, right.shared);
    NodeExact(left.nodeSpecific, right.nodeSpecific);
    AreasExact(left, right);
  }

  /** No managed difference exactly if shared and node-specific settings say the same. */
  lemma ManagedDecides(desired: Document, observed: Document)
    requires desired.schemaVersion >= 0 || observed.schemaVersion >= 0
    ensures ManagedDifferences(desired, observed) == [] <==>
            SameShared(desired.shared, observed.shared) && SameNode(desired.nodeSpecific, observed.nodeSpecific)
  {
    hide ManagedDifferences, CanonicalShared, CanonicalNode, CanonicalUnsupported, CanonicalObserved, SameShared, SameNode;
    ManagedExact(desired, observed);
    SharedExact(desired.shared, observed.shared);
    NodeExact(desired.nodeSpecific, observed.nodeSpecific);
  }

  ghost predicate SameOverrides(a: DesiredDocument, b: DesiredDocument) {
    && a.nodeOverrides.Keys == b.nodeOverrides.Keys
    && forall id :: id in a.nodeOverrides ==> SameNode(a.nodeOverrides[id], b.nodeOverrides[id])
  }

  /** Cluster intents say the same: shared settings, unsupported areas, and the same override for the same nodes. */
  ghost predicate SameIntent(a: DesiredDocument, b: DesiredDocument) {
    && SameShared(a.shared, b.shared) && SameOverrides(a, b)
    && SameList(AreasOf(a.schemaVersion, a.unsupported), AreasOf(b.schemaVersion, b.unsupported), AreaKey, SameArea)
  }

  lemma OverridesDecided(a: DesiredDocument, b: DesiredDocument)
    ensures CanonicaliseDesired(a).nodeOverrides == CanonicaliseDesired(b).nodeOverrides <==> SameOverrides(a, b)
  {
    hide CanonicalNode, SameNode, CanonicalShared, CanonicalUnsupported;
    var l, r := CanonicaliseDesired(a).nodeOverrides, CanonicaliseDesired(b).nodeOverrides;
    assert l.Keys == a.nodeOverrides.Keys && r.Keys == b.nodeOverrides.Keys;
    forall id | id in a.nodeOverrides && id in b.nodeOverrides
      ensures l[id] == r[id] <==> SameNode(a.nodeOverrides[id], b.nodeOverrides[id])
    {
      NodeExact(a.nodeOverrides[id], b.nodeOverrides[id]);
    }
    if SameOverrides(a, b) {
      assert l == r;
    }
  }

  /** DiffDesired is empty exactly if two cluster intents say the same. */
  lemma DiffDesiredDecides(left: DesiredDocument, right: DesiredDocument)
    ensures DiffDesired(left, right) == [] <==> SameIntent(left, right)
  {
    hide DiffDesired, CanonicalShared, CanonicalUnsupported, SameShared, SameList, AreasOf, SameOverrides;
    DiffDesiredExact(left, right);
    SharedExact(left.shared, right.shared);
    OverridesDecided(left, right);
    IntentAreas(left);
    IntentAreas(right);
    AreasExact(OnlyShared(left).(schemaVersion := left.schemaVersion), OnlyShared(right).(schemaVersion := right.schemaVersion));
  }

  lemma IntentAreas(document: DesiredDocument)
    ensures CanonicaliseDesired(document).unsupported == CanonicalUnsupported(document.schemaVersion, document.unsupported)
    ensures CanonicaliseDesired(document).shared == CanonicalShared(document.shared)
  {
    hide CanonicalShared;
  }

  lemma EffectiveForm(document: DesiredDocument, nodeId: string)
    ensures Effective(document, nodeId).Some? <==> nodeId in document.nodeOverrides
    ensures Effective(document, nodeId).Some? ==>
              && CanonicalShared(Effective(document, nodeId).value.shared) == CanonicalShared(document.shared)
              && CanonicalNode(Effective(document, nodeId).value.nodeSpecific) == CanonicalNode(document.nodeOverrides[nodeId])
  {
    hide CanonicalShared, CanonicalNode, CanonicalUnsupported;
    if nodeId in document.nodeOverrides {
      CanonicalSharedIdempotent(document.shared);
      CanonicalNodeIdempotent(document.nodeOverrides[nodeId]);
    }
  }

  /** The projection to a node exists exactly if the intent has an override for it, and says what the intent says. */
  lemma EffectiveSays(document: DesiredDocument, nodeId: string)
    ensures Effective(document, nodeId).Some? <==> nodeId in document.nodeOverrides
    ensures Effective(document, nodeId).Some? ==>
              && SameShared(Effective(document, nodeId).value.shared, document.shared)
              && SameNode(Effective(document, nodeId).value.nodeSpecific, document.nodeOverrides[nodeId])
  {
    hide Effective, CanonicalShared, CanonicalNode, SameShared, SameNode;
    EffectiveForm(document, nodeId);
    if nodeId in document.nodeOverrides {
      SharedExact(Effective(document, nodeId).value.shared, document.shared);
      NodeExact(Effective(document, nodeId).value.nodeSpecific, document.nodeOverrides[nodeId]);
    }
  }

  lemma ProjectionSays(observed: Document)
    ensures CanonicalShared(ProjectDocument(observed).shared) == CanonicalShared(observed.shared)
    ensures CanonicalNode(ProjectDocument(observed).nodeSpecific) == CanonicalNode(observed.nodeSpecific)
    ensures ProjectDocument(observed).schemaVersion == SCHEMA_VERSION
  {
    hide CanonicalShared, CanonicalNode, CanonicalUnsupported;
    CanonicalSharedIdempotent(observed.shared);
    CanonicalNodeIdempotent(observed.nodeSpecific);
  }

  /** A read-back is clean exactly if the intent has an override for the node, and the observed settings are the
      intended ones. */
  lemma ReadBackDecides(document: DesiredDocument, nodeId: string, observed: Document)
    ensures Protocol.ReadBackClean(document, nodeId, observed) <==>
              && nodeId in document.nodeOverrides && SameShared(document.shared, observed.shared)
              && SameNode(document.nodeOverrides[nodeId], observed.nodeSpecific)
  {
    hide ManagedDifferences, Effective, ProjectDocument, CanonicalShared, CanonicalNode, CanonicalUnsupported, SameShared, SameNode;
    EffectiveForm(document, nodeId);
    if nodeId in document.nodeOverrides {
      ProjectionSays(observed);
      ManagedExact(Effective(document, nodeId).value, ProjectDocument(observed));
      SharedExact(document.shared, observed.shared);
      NodeExact(document.nodeOverrides[nodeId], observed.nodeSpecific);
    }
  }

  /** Of the three groups of comparisons the node-specific one is left. */
  lemma NodePart(l: Document, r: Document)
    ensures var full := l.schemaVersion >= SCHEMA_VERSION || r.schemaVersion >= SCHEMA_VERSION;
            WithScope(DiffCanonical(l, r), {NodeManaged}) == Compare(NodeFields(l.nodeSpecific, full), NodeFields(r.nodeSpecific, full))
  {
    hide Compare, SharedFields, NodeFields, AreaFields, WithScope;
    var full := l.schemaVersion >= SCHEMA_VERSION || r.schemaVersion >= SCHEMA_VERSION;
    SharedFieldsLabels(l.shared, r.shared, full);
    OtherFieldsLabels(l, r, full);
    var a := Compare(SharedFields(l.shared, full), SharedFields(r.shared, full));
    var b := Compare(NodeFields(l.nodeSpecific, full), NodeFields(r.nodeSpecific, full));
    var c := Compare(AreaFields(l.unsupported), AreaFields(r.unsupported));
    CompareScope(SharedFields(l.shared, full), SharedFields(r.shared, full), SharedManaged);
    CompareScope(NodeFields(l.nodeSpecific, full), NodeFields(r.nodeSpecific, full), NodeManaged);
    CompareScope(AreaFields(l.unsupported), AreaFields(r.unsupported), UnsupportedField);
    WithScopeAll(a, SharedManaged, {NodeManaged});
    WithScopeAll(b, NodeManaged, {NodeManaged});
    WithScopeAll(c, UnsupportedField, {NodeManaged});
    WithScopeConcat(a + b, c, {NodeManaged});
    WithScopeConcat(a, b, {NodeManaged});
  }

  /** Of the node-specific comparisons, bind hosts and port are the section that has no writer. */
  lemma ListenerPart(l: NodeSpecific, r: NodeSpecific, full: bool)
    ensures InSection(Compare(NodeFields(l, full), NodeFields(r, full)), "DNS") == []
       <==> l.bindHosts == r.bindHosts && l.dnsPort == r.dnsPort
  {
    var a, b := NodeFields(l, full), NodeFields(r, full);
    assert full ==> a[2..] == [Field("DHCP", "Configuration and static leases", NodeManaged, Dhcp(l.dhcp))];
    assert a[1..][1..] == a[2..] && b[1..][1..] == b[2..];
    assert full ==> Compare(a[2..][1..], b[2..][1..]) == [];
    var rest := Compare(a[2..], b[2..]);
    assert InSection(rest, "DNS") == [];
  }

  /** Nothing immutable differs exactly if the listener is the same, whatever the schema versions. */
  lemma ListenerDecides(desired: Document, observed: Document)
    ensures ImmutableNodeDifferences(desired, observed) == [] <==> SameListener(desired.nodeSpecific, observed.nodeSpecific)
  {
    hide DiffCanonical, Compare, InSection, NodeFields, CleanSet, CanonicalShared, CanonicalUnsupported, CanonicalObserved, WithScope;
    var l, r := Canonicalise(desired), Canonicalise(observed);
    NodePart(l, r);
    ListenerPart(l.nodeSpecific, r.nodeSpecific, l.schemaVersion >= SCHEMA_VERSION || r.schemaVersion >= SCHEMA_VERSION);
  }

  /** The check before a deployment: the planned node's listener is the observed one. */
  lemma ListenerReadDecides(document: DesiredDocument, nodeId: string, observed: Document)
    requires nodeId in document.nodeOverrides
    ensures Effective(document, nodeId).Some?
    ensures ImmutableNodeDifferences(Effective(document, nodeId).value, ProjectDocument(observed)) == []
       <==> SameListener(document.nodeOverrides[nodeId], observed.nodeSpecific)
  {
    hide ImmutableNodeDifferences, Effective, ProjectDocument, CanonicalShared, SameShared, CleanSet, CanonicalDhcp, SameDhcp;
    EffectiveForm(document, nodeId);
    ProjectionSays(observed);
    ListenerDecides(Effective(document, nodeId).value, ProjectDocument(observed));
  }

  // What a draft takes from an observation.

  /** An import takes everything from the observed node, and every other node keeps its override. */
  lemma ImportTakes(current: Option<DesiredDocument>, nodeId: string, observed: Document)
    ensures var desired, before := ImportInto(current, nodeId, observed), if current.None? then map[] else current.value.nodeOverrides;
            && SameShared(desired.shared, observed.shared)
            && desired.nodeOverrides.Keys == before.Keys + {nodeId}
            && SameNode(desired.nodeOverrides[nodeId], observed.nodeSpecific)
            && (forall id :: id in before && id != nodeId ==> desired.nodeOverrides[id] == before[id])
            && SameList(desired.unsupported, observed.unsupported, AreaKey, SameArea) && desired.schemaVersion == SCHEMA_VERSION
  {
    hide CanonicalShared, CanonicalNode, CanonicalUnsupported, SameShared, SameNode, SameList, AreasOf;
    var desired := ImportInto(current, nodeId, observed);
    CanonicalSharedIdempotent(observed.shared);
    SharedExact(desired.shared, observed.shared);
    CanonicalNodeIdempotent(observed.nodeSpecific);
    NodeExact(desired.nodeOverrides[nodeId], observed.nodeSpecific);
    CanonicalUnsupportedIdempotent(SCHEMA_VERSION, observed.unsupported);
    var a := OnlyNode(observed.nodeSpecific).(schemaVersion := SCHEMA_VERSION, unsupported := observed.unsupported);
    AreasExact(a.(unsupported := desired.unsupported), a);
    CurrentAreas(desired.unsupported);
    CurrentAreas(observed.unsupported);
  }

  lemma CurrentAreas(areas: Option<seq<Unsupported>>)
    ensures AreasOf(SCHEMA_VERSION, areas) == areas
  {
  }

  /** Adopting drift takes shared settings and the node's own from the observation; every other node keeps its
      override, and nothing else changes. */
  lemma AdoptTakes(draft: DesiredDocument, nodeId: string, observed: Document)
    ensures var desired := AdoptInto(draft, nodeId, observed);
            && SameShared(desired.shared, observed.shared)
            && desired.nodeOverrides.Keys == draft.nodeOverrides.Keys + {nodeId}
            && SameNode(desired.nodeOverrides[nodeId], observed.nodeSpecific)
            && (forall id :: id in draft.nodeOverrides && id != nodeId ==> desired.nodeOverrides[id] == draft.nodeOverrides[id])
            && desired.unsupported == draft.unsupported && desired.schemaVersion == draft.schemaVersion
  {
    hide CanonicalShared, CanonicalNode, SameShared, SameNode;
    SharedExact(observed.shared, observed.shared);
    NodeExact(observed.nodeSpecific, observed.nodeSpecific);
  }

  /** The canonical form of a document says what the document says. */
  lemma CanonicalSays(document: Document)
    ensures SameDocument(Canonicalise(document), document)
  {
    hide CanonicalShared, CanonicalNode, CanonicalUnsupported, CanonicalObserved, SameShared, SameNode, SameAreas;
    var canonical := Canonicalise(document);
    CanonicalSharedIdempotent(document.shared);
    SharedExact(canonical.shared, document.shared);
    CanonicalNodeIdempotent(document.nodeSpecific);
    NodeExact(canonical.nodeSpecific, document.nodeSpecific);
    CanonicalUnsupportedIdempotent(document.schemaVersion, document.unsupported);
    AreasExact(canonical, document);
  }

  /** Records of schema 0 and 1 count as schema 2. */
  function SchemaOf(schemaVersion: int): int {
    if schemaVersion == 0 || schemaVersion == 1 then 2 else schemaVersion
  }

  /** What is merely observed: TLS names as a set, and no list of leases as an empty one. */
  ghost predicate SameObserved(a: ObservedOnly, b: ObservedOnly) {
    && a.productVersion == b.productVersion && CleanSet(a.tlsDnsNames) == CleanSet(b.tlsDnsNames)
    && (if a.dhcpLeases.None? then [] else a.dhcpLeases.value) == (if b.dhcpLeases.None? then [] else b.dhcpLeases.value)
  }

  /** Two documents have the same hash exactly if they say the same, observed parts and schema included. */
  lemma HashDecides(a: Document, b: Document)
    ensures HashOf(a) == HashOf(b) <==>
            SameDocument(a, b) && SameObserved(a.observedOnly, b.observedOnly) && SchemaOf(a.schemaVersion) == SchemaOf(b.schemaVersion)
  {
    hide CanonicalShared, CanonicalNode, CanonicalUnsupported, SameShared, SameNode, SameAreas, CleanSet;
    SharedExact(a.shared, b.shared);
    NodeExact(a.nodeSpecific, b.nodeSpecific);
    AreasExact(a, b);
  }

  /** The projection carries over the schema and the unsupported areas of the intent, and nothing observed. */
  lemma EffectiveCarries(document: DesiredDocument, nodeId: string)
    requires Effective(document, nodeId).Some?
    ensures var effective := Effective(document, nodeId).value;
            && effective.schemaVersion == SchemaOf(document.schemaVersion)
            && effective.observedOnly == ObservedOnly("", [], Some([]))
            && SameList(effective.unsupported, AreasOf(document.schemaVersion, document.unsupported), AreaKey, SameArea)
  {
    hide CanonicalShared, CanonicalNode, CanonicalUnsupported, SameList, AreasOf;
    var effective := Effective(document, nodeId).value;
    IntentAreas(document);
    CanonicalUnsupportedIdempotent(document.schemaVersion, document.unsupported);
    CanonicalUnsupportedIdempotent(SchemaOf(document.schemaVersion), effective.unsupported);
    assert effective.unsupported == CanonicalUnsupported(document.schemaVersion, document.unsupported);
    var raw := Document(document.schemaVersion, document.shared, ZERO_NODE, ZERO_OBSERVED, document.unsupported);
    AreasExact(effective, raw);
    LaterAreas(effective.schemaVersion, effective.unsupported);
  }

  lemma LaterAreas(schemaVersion: int, areas: Option<seq<Unsupported>>)
    requires schemaVersion != LEGACY_SCHEMA_VERSION
    ensures AreasOf(schemaVersion, areas) == areas
  {
  }
}
