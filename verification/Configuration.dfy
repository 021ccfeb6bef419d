/** Cluster intent, per-node observations, and their canonical form. Lists that Go may leave nil
    and that no cleaning step normalises are Options: None is nil, Some([]) is empty, and the two
    have different JSON. */
module Configuration {
  import opened Text
  import opened Clean

  const SCHEMA_VERSION := 2
  const LEGACY_SCHEMA_VERSION := 1
  const LEGACY_MIGRATION_SECTION := "legacy_schema1"
  const LEGACY_MIGRATION_REASON :=
    "Imported from a v1.0.x schema-1 record; import and publish a fresh schema-2 revision before deployment"

  datatype Document = Document(
    schemaVersion: int, shared: Shared, nodeSpecific: NodeSpecific, observedOnly: ObservedOnly,
    unsupported: Option<seq<Unsupported>>)

  datatype DesiredDocument = DesiredDocument(
    schemaVersion: int, shared: Shared, nodeOverrides: map<string, NodeSpecific>,
    unsupported: Option<seq<Unsupported>>)

  datatype Shared = Shared(
    dns: Dns, filtering: Filtering, clients: Option<seq<PersistentClient>>, rewritesEnabled: bool,
    rewrites: Option<seq<Rewrite>>, services: Services, queryLog: QueryLogPolicy, statistics: StatisticsPolicy)

  datatype Dns = Dns(
    upstreamDns: seq<string>, bootstrapDns: seq<string>, fallbackDns: seq<string>, privateReverseDns: seq<string>,
    protectionEnabled: bool, rateLimit: int, rateLimitIpv4: int, rateLimitIpv6: int,
    rateLimitAllowlist: seq<string>, blockingMode: string, blockingIpv4: string, blockingIpv6: string,
    blockedResponseTtl: int, ednsClientSubnet: bool, ednsUseCustom: bool, ednsCustomIp: string,
    disableIpv6: bool, dnssecEnabled: bool, cacheSize: int, cacheEnabled: bool, cacheTtlMin: int,
    cacheTtlMax: int, cacheOptimistic: bool, upstreamMode: string, usePrivateReverse: bool,
    resolveClients: bool, upstreamTimeout: int)

  datatype Filtering = Filtering(
    enabled: bool, updateInterval: int, filterUrls: seq<string>, whitelistUrls: seq<string>,
    userRules: seq<string>)

  datatype SafeSearch = SafeSearch(
    enabled: bool, bing: bool, duckDuckGo: bool, ecosia: bool, google: bool, pixabay: bool, yandex: bool,
    youTube: bool)

  datatype PersistentClient = PersistentClient(
    name: string, ids: seq<string>, useGlobalSettings: bool, filteringEnabled: bool, parentalEnabled: bool,
    safeBrowsingEnabled: bool, safeSearch: SafeSearch, useGlobalBlockedServices: bool,
    blockedServices: seq<string>, blockedServicesSchedule: Schedule, upstreams: seq<string>,
    upstreamsCacheEnabled: bool, upstreamsCacheSize: int, tags: seq<string>, ignoreQueryLog: bool,
    ignoreStatistics: bool)

  datatype Rewrite = Rewrite(domain: string, answer: string, enabled: bool)
  datatype DayRange = DayRange(start: int, end: int)
  datatype Schedule = Schedule(timeZone: string, days: map<string, DayRange>)

  datatype Services = Services(
    blockedServiceIds: seq<string>, blockedSchedule: Schedule, safeBrowsing: bool, parentalControl: bool,
    safeSearch: SafeSearch)

  datatype QueryLogPolicy = QueryLogPolicy(
    enabled: bool, intervalMillis: int, anonymizeClientIp: bool, ignored: seq<string>, ignoredEnabled: bool)
  datatype StatisticsPolicy = StatisticsPolicy(
    enabled: bool, intervalMillis: int, ignored: seq<string>, ignoredEnabled: bool)

  datatype NodeSpecific = NodeSpecific(bindHosts: seq<string>, dnsPort: int, dhcp: Option<DhcpConfig>)
  {
    predicate RunsDhcp() {
      dhcp.Some? && dhcp.value.enabled
    }
  }

  datatype DhcpConfig = DhcpConfig(
    enabled: bool, interfaceName: string, ipv4: DhcpIpv4, ipv6: DhcpIpv6,
    staticLeases: Option<seq<StaticLease>>)
  datatype DhcpIpv4 = DhcpIpv4(
    gateway: string, subnetMask: string, rangeStart: string, rangeEnd: string, leaseDuration: int)
  datatype DhcpIpv6 = DhcpIpv6(rangeStart: string, leaseDuration: int)
  datatype StaticLease = StaticLease(mac: string, ip: string, hostname: string)

  /** Of the observed-only block, the parts canonical form rewrites. */
  datatype ObservedOnly = ObservedOnly(productVersion: string, tlsDnsNames: seq<string>, dhcpLeases: Option<seq<string>>)

  datatype Unsupported = Unsupported(section: string, reason: string)

  const ZERO_OBSERVED := ObservedOnly("", [], None)
  const ZERO_NODE := NodeSpecific([], 0, None)
  const ZERO_SCHEDULE := Schedule("", map[])
  const ZERO_SAFE_SEARCH := SafeSearch(false, false, false, false, false, false, false, false)
  const ZERO_SHARED := Shared(
    Dns([], [], [], [], false, 0, 0, 0, [], "", "", "", 0, false, false, "", false, false, 0, false, 0, 0, false,
        "", false, false, 0),
    Filtering(false, 0, [], [], []), None, false, None,
    Services([], ZERO_SCHEDULE, false, false, ZERO_SAFE_SEARCH),
    QueryLogPolicy(false, 0, false, [], false), StatisticsPolicy(false, 0, [], false))

  // Canonical form, part by part.

  function CanonicalDns(dns: Dns): Dns {
    dns.(upstreamDns := CleanOrdered(dns.upstreamDns),
         bootstrapDns := CleanSet(dns.bootstrapDns),
         fallbackDns := CleanOrdered(dns.fallbackDns),
         privateReverseDns := CleanSet(dns.privateReverseDns),
         rateLimitAllowlist := CleanSet(dns.rateLimitAllowlist),
         blockingMode := Trim(dns.blockingMode),
         ednsCustomIp := Trim(dns.ednsCustomIp),
         upstreamMode := Trim(dns.upstreamMode))
  }

  function CanonicalFiltering(filtering: Filtering): Filtering {
    filtering.(filterUrls := CleanSet(filtering.filterUrls),
               whitelistUrls := CleanSet(filtering.whitelistUrls),
               userRules := CleanOrdered(filtering.userRules))
  }

  function CanonicalSchedule(schedule: Schedule): Schedule {
    schedule.(timeZone := Trim(schedule.timeZone))
  }

  function CanonicalClient(client: PersistentClient): PersistentClient {
    client.(name := Trim(client.name),
            ids := CleanSet(client.ids),
            blockedServices := CleanSet(client.blockedServices),
            blockedServicesSchedule := CanonicalSchedule(client.blockedServicesSchedule),
            upstreams := CleanOrdered(client.upstreams),
            tags := CleanSet(client.tags))
  }

  function ClientKey(client: PersistentClient): Key {
    [Lower(client.name)]
  }

  function CanonicalRewrite(rewrite: Rewrite): Rewrite {
    rewrite.(domain := Trim(rewrite.domain), answer := Trim(rewrite.answer))
  }

  function RewriteOrder(rewrite: Rewrite): Key {
    [Lower(rewrite.domain), Lower(rewrite.answer)]
  }

  function CanonicalServices(services: Services): Services {
    services.(blockedServiceIds := CleanSet(services.blockedServiceIds),
              blockedSchedule := CanonicalSchedule(services.blockedSchedule))
  }

  function CanonicalLease(lease: StaticLease): StaticLease {
    StaticLease(Lower(Trim(lease.mac)), Trim(lease.ip), Trim(lease.hostname))
  }

  function LeaseKey(lease: StaticLease): Key {
    [lease.mac]
  }

  function UnsupportedKey(u: Unsupported): Key {
    [u.section, u.reason]
  }

  /** Rewriting every element and sorting: how clients, rewrites and leases are put in order. */
  function CanonicalList<T>(list: Option<seq<T>>, canonical: T -> T, key: T -> Key): Option<seq<T>> {
    if list.None? then None else Some(Sort(Map(canonical, list.value), key))
  }

  function CanonicalShared(shared: Shared): Shared {
    Shared(
      CanonicalDns(shared.dns),
      CanonicalFiltering(shared.filtering),
      CanonicalList(shared.clients, CanonicalClient, ClientKey),
      shared.rewritesEnabled,
      CanonicalList(shared.rewrites, CanonicalRewrite, RewriteOrder),
      CanonicalServices(shared.services),
      shared.queryLog.(ignored := CleanSet(shared.queryLog.ignored)),
      shared.statistics.(ignored := CleanSet(shared.statistics.ignored)))
  }

  function CanonicalDhcp(config: DhcpConfig): DhcpConfig {
    config.(interfaceName := Trim(config.interfaceName),
            staticLeases := CanonicalList(config.staticLeases, CanonicalLease, LeaseKey))
  }

  function CanonicalNode(node: NodeSpecific): NodeSpecific {
    NodeSpecific(
      CleanSet(node.bindHosts),
      node.dnsPort,
      if node.dhcp.None? then None else Some(CanonicalDhcp(node.dhcp.value)))
  }

  function Areas(unsupported: Option<seq<Unsupported>>): seq<Unsupported> {
    if unsupported.None? then [] else unsupported.value
  }

  predicate IsLegacyConverted(unsupported: Option<seq<Unsupported>>) {
    exists u :: u in Areas(unsupported) && u.section == LEGACY_MIGRATION_SECTION
  }

  function Identity(u: Unsupported): Unsupported {
    u
  }

  /** Schema-1 records are marked once, so that they cannot be deployed; then the areas are sorted. */
  function CanonicalUnsupported(schemaVersion: int, unsupported: Option<seq<Unsupported>>): Option<seq<Unsupported>> {
    var marked :=
      if schemaVersion == LEGACY_SCHEMA_VERSION && !IsLegacyConverted(unsupported)
      then Some(Areas(unsupported) + [Unsupported(LEGACY_MIGRATION_SECTION, LEGACY_MIGRATION_REASON)])
      else unsupported;
    CanonicalList(marked, Identity, UnsupportedKey)
  }

  function CanonicalSchema(schemaVersion: int): int {
    if schemaVersion == 0 || schemaVersion == LEGACY_SCHEMA_VERSION then SCHEMA_VERSION else schemaVersion
  }

  function CanonicalObserved(observed: ObservedOnly): ObservedOnly {
    observed.(tlsDnsNames := CleanSet(observed.tlsDnsNames),
              dhcpLeases := Some(if observed.dhcpLeases.None? then [] else observed.dhcpLeases.value))
  }

  function Canonicalise(document: Document): Document {
    Document(
      CanonicalSchema(document.schemaVersion),
      CanonicalShared(document.shared),
      CanonicalNode(document.nodeSpecific),
      CanonicalObserved(document.observedOnly),
      CanonicalUnsupported(document.schemaVersion, document.unsupported))
  }

  function CanonicaliseDesired(document: DesiredDocument): DesiredDocument {
    var schemaVersion := if document.schemaVersion == 0 then SCHEMA_VERSION else document.schemaVersion;
    var observed := Canonicalise(Document(schemaVersion, document.shared, ZERO_NODE, ZERO_OBSERVED, document.unsupported));
    DesiredDocument(
      observed.schemaVersion,
      observed.shared,
      map id | id in document.nodeOverrides :: CanonicalNode(document.nodeOverrides[id]),
      observed.unsupported)
  }

  // Intent and observation.

  function DesiredFromObservation(nodeId: string, document: Document): DesiredDocument {
    CanonicaliseDesired(DesiredDocument(
      SCHEMA_VERSION, document.shared, map[nodeId := document.nodeSpecific], document.unsupported))
  }

  function ProjectDocument(document: Document): Document {
    Canonicalise(document).(schemaVersion := SCHEMA_VERSION)
  }

  /** Cluster intent projected to one node; None when the node has no override. */
  function Effective(document: DesiredDocument, nodeId: string): Option<Document> {
    var canonical := CanonicaliseDesired(document);
    if nodeId !in canonical.nodeOverrides then None
    else Some(Canonicalise(Document(
      canonical.schemaVersion, canonical.shared, canonical.nodeOverrides[nodeId], ZERO_OBSERVED,
      canonical.unsupported)))
  }

  /** SHA-256 of the canonical JSON, read as an injective function of the canonical document. */
  datatype Hash = Unhashed | Digest(of: Document)

  function HashOf(document: Document): Hash {
    Digest(Canonicalise(document))
  }

  // Idempotence.

  lemma {:induction false} MapFixes<T>(f: T -> T, s: seq<T>)
    requires forall x :: x in s ==> f(x) == x
    ensures Map(f, s) == s
  {
  }

  lemma CanonicalListIdempotent<T>(list: Option<seq<T>>, f: T -> T, key: T -> Key)
    requires list.Some? ==> forall x :: x in list.value ==> f(f(x)) == f(x)
    ensures CanonicalList(CanonicalList(list, f, key), f, key) == CanonicalList(list, f, key)
  {
    if list.Some? {
      var mapped := Map(f, list.value);
      SortSorts(mapped, key);
      forall x | x in Sort(mapped, key)
        ensures f(x) == x
      {
        assert x in multiset(Sort(mapped, key));
        var i :| 0 <= i < |mapped| && mapped[i] == x;
        assert x == f(list.value[i]);
      }
      MapFixes(f, Sort(mapped, key));
      SortFixesSorted(Sort(mapped, key), key);
    }
  }

  lemma CanonicalDnsIdempotent(dns: Dns)
    ensures CanonicalDns(CanonicalDns(dns)) == CanonicalDns(dns)
  {
    CleanOrderedIdempotent(dns.upstreamDns);
    CleanSetIdempotent(dns.bootstrapDns);
    CleanOrderedIdempotent(dns.fallbackDns);
    CleanSetIdempotent(dns.privateReverseDns);
    CleanSetIdempotent(dns.rateLimitAllowlist);
    TrimTrims(dns.blockingMode);
    TrimTrims(dns.ednsCustomIp);
    TrimTrims(dns.upstreamMode);
  }

  lemma CanonicalFilteringIdempotent(filtering: Filtering)
    ensures CanonicalFiltering(CanonicalFiltering(filtering)) == CanonicalFiltering(filtering)
  {
    CleanSetIdempotent(filtering.filterUrls);
    CleanSetIdempotent(filtering.whitelistUrls);
    CleanOrderedIdempotent(filtering.userRules);
  }

  lemma CanonicalClientIdempotent(client: PersistentClient)
    ensures CanonicalClient(CanonicalClient(client)) == CanonicalClient(client)
  {
    TrimTrims(client.name);
    CleanSetIdempotent(client.ids);
    CleanSetIdempotent(client.blockedServices);
    TrimTrims(client.blockedServicesSchedule.timeZone);
    CleanOrderedIdempotent(client.upstreams);
    CleanSetIdempotent(client.tags);
  }

  lemma CanonicalRewriteIdempotent(rewrite: Rewrite)
    ensures CanonicalRewrite(CanonicalRewrite(rewrite)) == CanonicalRewrite(rewrite)
  {
    TrimTrims(rewrite.domain);
    TrimTrims(rewrite.answer);
  }

  lemma CanonicalLeaseIdempotent(lease: StaticLease)
    ensures CanonicalLease(CanonicalLease(lease)) == CanonicalLease(lease)
  {
    TrimTrims(lease.mac);
    LowerTrimmed(Trim(lease.mac));
    TrimTrims(Lower(Trim(lease.mac)));
    LowerFacts(Trim(lease.mac));
    TrimTrims(lease.ip);
    TrimTrims(lease.hostname);
  }

  lemma CanonicalServicesIdempotent(services: Services)
    ensures CanonicalServices(CanonicalServices(services)) == CanonicalServices(services)
  {
    CleanSetIdempotent(services.blockedServiceIds);
    TrimTrims(services.blockedSchedule.timeZone);
  }

  lemma CanonicalClientsIdempotent(clients: Option<seq<PersistentClient>>)
    ensures var c := CanonicalList(clients, CanonicalClient, ClientKey);
            CanonicalList(c, CanonicalClient, ClientKey) == c
  {
    forall c: PersistentClient
      ensures CanonicalClient(CanonicalClient(c)) == CanonicalClient(c)
    {
      CanonicalClientIdempotent(c);
    }
    CanonicalListIdempotent(clients, CanonicalClient, ClientKey);
  }

  lemma CanonicalRewritesIdempotent(rewrites: Option<seq<Rewrite>>)
    ensures var c := CanonicalList(rewrites, CanonicalRewrite, RewriteOrder);
            CanonicalList(c, CanonicalRewrite, RewriteOrder) == c
  {
    forall r: Rewrite
      ensures CanonicalRewrite(CanonicalRewrite(r)) == CanonicalRewrite(r)
    {
      CanonicalRewriteIdempotent(r);
    }
    CanonicalListIdempotent(rewrites, CanonicalRewrite, RewriteOrder);
  }

  lemma CanonicalSharedIdempotent(shared: Shared)
    ensures CanonicalShared(CanonicalShared(shared)) == CanonicalShared(shared)
  {
    CanonicalDnsIdempotent(shared.dns);
    CanonicalFilteringIdempotent(shared.filtering);
    CanonicalClientsIdempotent(shared.clients);
    CanonicalRewritesIdempotent(shared.rewrites);
    CanonicalServicesIdempotent(shared.services);
    CleanSetIdempotent(shared.queryLog.ignored);
    CleanSetIdempotent(shared.statistics.ignored);
  }

  lemma CanonicalNodeIdempotent(node: NodeSpecific)
    ensures CanonicalNode(CanonicalNode(node)) == CanonicalNode(node)
  {
    CleanSetIdempotent(node.bindHosts);
    if node.dhcp.Some? {
      TrimTrims(node.dhcp.value.interfaceName);
      forall l: StaticLease
        ensures CanonicalLease(CanonicalLease(l)) == CanonicalLease(l)
      {
        CanonicalLeaseIdempotent(l);
      }
      CanonicalListIdempotent(node.dhcp.value.staticLeases, CanonicalLease, LeaseKey);
    }
  }

  lemma CanonicalUnsupportedIdempotent(schemaVersion: int, unsupported: Option<seq<Unsupported>>)
    ensures var c := CanonicalUnsupported(schemaVersion, unsupported);
            CanonicalUnsupported(CanonicalSchema(schemaVersion), c) == c
  {
    var marked :=
      if schemaVersion == LEGACY_SCHEMA_VERSION && !IsLegacyConverted(unsupported)
      then Some(Areas(unsupported) + [Unsupported(LEGACY_MIGRATION_SECTION, LEGACY_MIGRATION_REASON)])
      else unsupported;
    CanonicalListIdempotent(marked, Identity, UnsupportedKey);
  }

  /** Canonical form is a normal form. */
  lemma CanonicaliseIdempotent(document: Document)
    ensures Canonicalise(Canonicalise(document)) == Canonicalise(document)
  {
    CanonicalSharedIdempotent(document.shared);
    CanonicalNodeIdempotent(document.nodeSpecific);
    CleanSetIdempotent(document.observedOnly.tlsDnsNames);
    CanonicalUnsupportedIdempotent(document.schemaVersion, document.unsupported);
  }

  lemma CanonicaliseDesiredIdempotent(document: DesiredDocument)
    ensures CanonicaliseDesired(CanonicaliseDesired(document)) == CanonicaliseDesired(document)
  {
    CanonicalSharedIdempotent(document.shared);
    CanonicalUnsupportedIdempotent(document.schemaVersion, document.unsupported);
    var once := CanonicaliseDesired(document);
    var twice := CanonicaliseDesired(once);
    forall id | id in document.nodeOverrides
      ensures twice.nodeOverrides[id] == once.nodeOverrides[id]
    {
      CanonicalNodeIdempotent(document.nodeOverrides[id]);
    }
    assert twice.nodeOverrides == once.nodeOverrides;
  }
}
