/** Semantic comparison of canonical documents, and the round trips through a draft.
    A comparison of two JSON texts is read as a comparison of the values they encode. */
module Diff {
  import opened Text
  import opened Clean
  import opened Configuration

  datatype Ownership = SharedManaged | NodeManaged | UnsupportedField

  /** What one comparison looks at; several Go fields may share one comparison. */
  datatype Value =
    | Texts(texts: seq<string>)
    | Flag(flag: bool)
    | Number(number: int)
    | Word(text: string)
    | Edns(useCustom: bool, customIp: string)
    | Cache(enabled: bool, size: int, ttlMin: int, ttlMax: int, optimistic: bool)
    | Flags(first: bool, second: bool)
    | Clients(clients: Option<seq<PersistentClient>>)
    | Rewrites(rewritesEnabled: bool, rewrites: Option<seq<Rewrite>>)
    | Blocked(ids: seq<string>, schedule: Schedule)
    | Search(safeSearch: SafeSearch)
    | QueryLog(queryLog: QueryLogPolicy)
    | Statistics(statistics: StatisticsPolicy)
    | Dhcp(dhcp: Option<DhcpConfig>)
    | Areas(areas: Option<seq<Unsupported>>)
    | Override(node: Option<NodeSpecific>)

  datatype Field = Field(section: string, name: string, scope: Ownership, value: Value)

  datatype Difference = Difference(
    section: string, field: string, scope: Ownership, left: Value, right: Value, summary: string)
  {
    function Swap(): Difference {
      this.(left := right, right := left)
    }
  }

  function LegacyDnsFields(dns: Dns): seq<Field> {
    [Field("DNS", "Upstream DNS", SharedManaged, Texts(dns.upstreamDns)),
     Field("DNS", "Bootstrap DNS", SharedManaged, Texts(dns.bootstrapDns)),
     Field("DNS", "Fallback DNS", SharedManaged, Texts(dns.fallbackDns)),
     Field("DNS", "Private reverse DNS", SharedManaged, Texts(dns.privateReverseDns))]
  }

  function DnsFields(dns: Dns): seq<Field> {
    [Field("DNS", "Protection enabled", SharedManaged, Flag(dns.protectionEnabled)),
     Field("DNS", "Rate limit", SharedManaged, Number(dns.rateLimit)),
     Field("DNS", "Rate-limit IPv4 subnet", SharedManaged, Number(dns.rateLimitIpv4)),
     Field("DNS", "Rate-limit IPv6 subnet", SharedManaged, Number(dns.rateLimitIpv6)),
     Field("DNS", "Rate-limit allowlist", SharedManaged, Texts(dns.rateLimitAllowlist)),
     Field("DNS", "Blocking mode", SharedManaged, Word(dns.blockingMode)),
     Field("DNS", "Blocking IPv4", SharedManaged, Word(dns.blockingIpv4)),
     Field("DNS", "Blocking IPv6", SharedManaged, Word(dns.blockingIpv6)),
     Field("DNS", "Blocked response TTL", SharedManaged, Number(dns.blockedResponseTtl)),
     Field("DNS", "EDNS client subnet", SharedManaged, Flag(dns.ednsClientSubnet)),
     Field("DNS", "EDNS custom address", SharedManaged, Edns(dns.ednsUseCustom, dns.ednsCustomIp)),
     Field("DNS", "Disable IPv6", SharedManaged, Flag(dns.disableIpv6)),
     Field("DNS", "DNSSEC", SharedManaged, Flag(dns.dnssecEnabled)),
     Field("DNS", "Cache", SharedManaged,
           Cache(dns.cacheEnabled, dns.cacheSize, dns.cacheTtlMin, dns.cacheTtlMax, dns.cacheOptimistic)),
     Field("DNS", "Upstream mode", SharedManaged, Word(dns.upstreamMode)),
     Field("DNS", "Upstream timeout", SharedManaged, Number(dns.upstreamTimeout)),
     Field("DNS", "Private reverse and client resolution", SharedManaged,
           Flags(dns.usePrivateReverse, dns.resolveClients))]
  }

  function LegacyFilteringFields(filtering: Filtering): seq<Field> {
    [Field("Filtering", "Enabled", SharedManaged, Flag(filtering.enabled)),
     Field("Filtering", "Update interval", SharedManaged, Number(filtering.updateInterval)),
     Field("Filtering", "Filter subscriptions", SharedManaged, Texts(filtering.filterUrls))]
  }

  function PolicyFields(shared: Shared): seq<Field> {
    [Field("Filtering", "Allowlist subscriptions", SharedManaged, Texts(shared.filtering.whitelistUrls)),
     Field("Clients", "Persistent clients", SharedManaged, Clients(shared.clients)),
     Field("Rewrites", "DNS rewrites", SharedManaged, Rewrites(shared.rewritesEnabled, shared.rewrites)),
     Field("Services", "Blocked services", SharedManaged,
           Blocked(shared.services.blockedServiceIds, shared.services.blockedSchedule)),
     Field("Services", "Safe browsing", SharedManaged, Flag(shared.services.safeBrowsing)),
     Field("Services", "Parental control", SharedManaged, Flag(shared.services.parentalControl)),
     Field("Services", "Safe search", SharedManaged, Search(shared.services.safeSearch)),
     Field("Query log", "Policy", SharedManaged, QueryLog(shared.queryLog)),
     Field("Statistics", "Policy", SharedManaged, Statistics(shared.statistics))]
  }

  function RuleFields(filtering: Filtering): seq<Field> {
    [Field("Filtering", "Custom rules", SharedManaged, Texts(filtering.userRules))]
  }

  /** Every shared comparison in the order it is made; `full` when either side is schema 2 or later. */
  function SharedFields(shared: Shared, full: bool): seq<Field> {
    LegacyDnsFields(shared.dns)
    + (if full then DnsFields(shared.dns) else [])
    + LegacyFilteringFields(shared.filtering)
    + (if full then PolicyFields(shared) else [])
    + RuleFields(shared.filtering)
  }

  function NodeFields(node: NodeSpecific, full: bool): seq<Field> {
    [Field("DNS", "Bind hosts", NodeManaged, Texts(node.bindHosts)),
     Field("DNS", "DNS port", NodeManaged, Number(node.dnsPort))]
    + (if full then [Field("DHCP", "Configuration and static leases", NodeManaged, Dhcp(node.dhcp))] else [])
  }

  function AreaFields(areas: Option<seq<Unsupported>>): seq<Field> {
    [Field("Compatibility", "Unsupported areas", UnsupportedField, Areas(areas))]
  }

  /** One Difference for each pair of unequal values, in order. */
  function Compare(left: seq<Field>, right: seq<Field>): seq<Difference>
    requires |left| == |right|
  {
    if left == [] then []
    else
      var a, b := left[0], right[0];
      (if a.value == b.value then []
       else [Difference(a.section, a.name, a.scope, a.value, b.value, a.name + " differs")])
      + Compare(left[1..], right[1..])
  }

  /** The comparison of two documents already in canonical form. */
  function DiffCanonical(l: Document, r: Document): seq<Difference> {
    var full := l.schemaVersion >= SCHEMA_VERSION || r.schemaVersion >= SCHEMA_VERSION;
    Compare(SharedFields(l.shared, full), SharedFields(r.shared, full))
    + Compare(NodeFields(l.nodeSpecific, full), NodeFields(r.nodeSpecific, full))
    + Compare(AreaFields(l.unsupported), AreaFields(r.unsupported))
  }

  function Diff(left: Document, right: Document): seq<Difference> {
    DiffCanonical(Canonicalise(left), Canonicalise(right))
  }

  function WithScope(differences: seq<Difference>, scopes: set<Ownership>): seq<Difference> {
    if differences == [] then []
    else (if differences[0].scope in scopes then [differences[0]] else []) + WithScope(differences[1..], scopes)
  }

  /** What verification and drift detection look at. */
  function ManagedDifferences(desired: Document, observed: Document): seq<Difference> {
    WithScope(Diff(desired, observed), {SharedManaged, NodeManaged})
  }

  function NodeSpecificDifferences(desired: Document, observed: Document): seq<Difference> {
    WithScope(Diff(desired, observed), {NodeManaged})
  }

  function InSection(differences: seq<Difference>, section: string): seq<Difference> {
    if differences == [] then []
    else (if differences[0].section == section then [differences[0]] else []) + InSection(differences[1..], section)
  }

  /** Listener identity, which has no writer. */
  function ImmutableNodeDifferences(desired: Document, observed: Document): seq<Difference> {
    InSection(NodeSpecificDifferences(desired, observed), "DNS")
  }

  /** The append loop behind every scope filter. */
  method WithScopeLoop(differences: seq<Difference>, scopes: set<Ownership>) returns (result: seq<Difference>)
    ensures result == WithScope(differences, scopes)
  {
    result := [];
    for i := 0 to |differences|
      invariant result + WithScope(differences[i..], scopes) == WithScope(differences, scopes)
    {
      assert differences[i..][1..] == differences[i + 1..];
      if differences[i].scope in scopes {
        result := result + [differences[i]];
      }
    }
  }

  // Exactness of the comparison.

  ghost predicate SameLabels(left: seq<Field>, right: seq<Field>) {
    |left| == |right| && forall i :: 0 <= i < |left| ==> left[i].(value := right[i].value) == right[i]
  }

  lemma {:induction false} CompareExact(left: seq<Field>, right: seq<Field>)
    requires SameLabels(left, right)
    ensures Compare(left, right) == [] <==> left == right
  {
    if left != [] {
      CompareExact(left[1..], right[1..]);
      assert left == [left[0]] + left[1..] && right == [right[0]] + right[1..];
    }
  }

  lemma {:induction false} CompareSwaps(left: seq<Field>, right: seq<Field>)
    requires SameLabels(left, right)
    ensures Compare(right, left) == Map((d: Difference) => d.Swap(), Compare(left, right))
  {
    if left != [] {
      CompareSwaps(left[1..], right[1..]);
    }
  }

  lemma {:induction false} CompareScope(left: seq<Field>, right: seq<Field>, scope: Ownership)
    requires |left| == |right|
    requires AllScoped(left, scope)
    ensures forall d :: d in Compare(left, right) ==> d.scope == scope
  {
    if left != [] {
      CompareScope(left[1..], right[1..], scope);
    }
  }

  ghost predicate AllScoped(fields: seq<Field>, scope: Ownership) {
    forall i :: 0 <= i < |fields| ==> fields[i].scope == scope
  }

  lemma LabelsConcat(a: seq<Field>, b: seq<Field>, c: seq<Field>, d: seq<Field>, scope: Ownership)
    requires SameLabels(a, c) && SameLabels(b, d) && AllScoped(a, scope) && AllScoped(b, scope)
    ensures SameLabels(a + b, c + d) && AllScoped(a + b, scope)
  {
  }

  lemma SmallGroupsLabels(l: Shared, r: Shared)
    ensures SameLabels(LegacyDnsFields(l.dns), LegacyDnsFields(r.dns))
    ensures AllScoped(LegacyDnsFields(l.dns), SharedManaged)
    ensures SameLabels(LegacyFilteringFields(l.filtering), LegacyFilteringFields(r.filtering))
    ensures AllScoped(LegacyFilteringFields(l.filtering), SharedManaged)
    ensures SameLabels(RuleFields(l.filtering), RuleFields(r.filtering))
    ensures AllScoped(RuleFields(l.filtering), SharedManaged)
  {
  }

  lemma LargeGroupsLabels(l: Shared, r: Shared)
    ensures SameLabels(DnsFields(l.dns), DnsFields(r.dns)) && AllScoped(DnsFields(l.dns), SharedManaged)
    ensures SameLabels(PolicyFields(l), PolicyFields(r)) && AllScoped(PolicyFields(l), SharedManaged)
  {
  }

  lemma SharedFieldsLabels(l: Shared, r: Shared, full: bool)
    ensures SameLabels(SharedFields(l, full), SharedFields(r, full))
    ensures AllScoped(SharedFields(l, full), SharedManaged)
  {
    hide LegacyDnsFields, DnsFields, LegacyFilteringFields, PolicyFields, RuleFields;
    SmallGroupsLabels(l, r);
    LargeGroupsLabels(l, r);
    var a, b := LegacyDnsFields(l.dns), LegacyDnsFields(r.dns);
    var c, d := if full then DnsFields(l.dns) else [], if full then DnsFields(r.dns) else [];
    var e, f := LegacyFilteringFields(l.filtering), LegacyFilteringFields(r.filtering);
    var g, h := if full then PolicyFields(l) else [], if full then PolicyFields(r) else [];
    var i, j := RuleFields(l.filtering), RuleFields(r.filtering);
    LabelsConcat(a, c, b, d, SharedManaged);
    LabelsConcat(a + c, e, b + d, f, SharedManaged);
    LabelsConcat(a + c + e, g, b + d + f, h, SharedManaged);
    LabelsConcat(a + c + e + g, i, b + d + f + h, j, SharedManaged);
  }

  lemma OtherFieldsLabels(l: Document, r: Document, full: bool)
    ensures SameLabels(NodeFields(l.nodeSpecific, full), NodeFields(r.nodeSpecific, full))
    ensures AllScoped(NodeFields(l.nodeSpecific, full), NodeManaged)
    ensures SameLabels(AreaFields(l.unsupported), AreaFields(r.unsupported))
    ensures AllScoped(AreaFields(l.unsupported), UnsupportedField)
  {
  }

  lemma {:induction false} ConcatInjective<T>(a: seq<T>, b: seq<T>, c: seq<T>, d: seq<T>)
    requires |a| == |c| && a + b == c + d
    ensures a == c && b == d
  {
    assert a == (a + b)[..|a|] && b == (a + b)[|a|..];
    assert c == (c + d)[..|c|] && d == (c + d)[|c|..];
  }

  /** The full list of comparisons covers every shared field. */
  lemma SharedFieldsInjective(l: Shared, r: Shared)
    requires SharedFields(l, true) == SharedFields(r, true)
    ensures l == r
  {
    var a, b := LegacyDnsFields(l.dns), LegacyDnsFields(r.dns);
    var c, d := DnsFields(l.dns), DnsFields(r.dns);
    var e, f := LegacyFilteringFields(l.filtering), LegacyFilteringFields(r.filtering);
    var g, h := PolicyFields(l), PolicyFields(r);
    var i, j := RuleFields(l.filtering), RuleFields(r.filtering);
    ConcatInjective(a + c + e + g, i, b + d + f + h, j);
    ConcatInjective(a + c + e, g, b + d + f, h);
    ConcatInjective(a + c, e, b + d, f);
    ConcatInjective(a, c, b, d);
    DnsFieldsInjective(l.dns, r.dns);
    PolicyFieldsInjective(l, r);
    assert e[0] == f[0] && e[1] == f[1] && e[2] == f[2] && i[0] == j[0];
  }

  lemma DnsFieldsInjective(l: Dns, r: Dns)
    requires LegacyDnsFields(l) == LegacyDnsFields(r) && DnsFields(l) == DnsFields(r)
    ensures l == r
  {
    var a, b := LegacyDnsFields(l), LegacyDnsFields(r);
    assert a[0] == b[0] && a[1] == b[1] && a[2] == b[2] && a[3] == b[3];
    var c, d := DnsFields(l), DnsFields(r);
    assert c[0] == d[0] && c[1] == d[1] && c[2] == d[2] && c[3] == d[3] && c[4] == d[4] && c[5] == d[5];
    assert c[6] == d[6] && c[7] == d[7] && c[8] == d[8] && c[9] == d[9] && c[10] == d[10] && c[11] == d[11];
    assert c[12] == d[12] && c[13] == d[13] && c[14] == d[14] && c[15] == d[15] && c[16] == d[16];
  }

  lemma PolicyFieldsInjective(l: Shared, r: Shared)
    requires PolicyFields(l) == PolicyFields(r)
    ensures l.filtering.whitelistUrls == r.filtering.whitelistUrls && l.clients == r.clients
    ensures l.rewritesEnabled == r.rewritesEnabled && l.rewrites == r.rewrites
    ensures l.services == r.services && l.queryLog == r.queryLog && l.statistics == r.statistics
  {
    var a, b := PolicyFields(l), PolicyFields(r);
    assert a[0] == b[0] && a[1] == b[1] && a[2] == b[2] && a[3] == b[3] && a[4] == b[4];
    assert a[5] == b[5] && a[6] == b[6] && a[7] == b[7] && a[8] == b[8];
  }

  lemma SharedDiffExact(l: Shared, r: Shared)
    ensures Compare(SharedFields(l, true), SharedFields(r, true)) == [] <==> l == r
  {
    SharedFieldsLabels(l, r, true);
    CompareExact(SharedFields(l, true), SharedFields(r, true));
    if SharedFields(l, true) == SharedFields(r, true) {
      SharedFieldsInjective(l, r);
    }
  }

  lemma NodeDiffExact(l: NodeSpecific, r: NodeSpecific)
    ensures Compare(NodeFields(l, true), NodeFields(r, true)) == [] <==> l == r
  {
    var a, b := NodeFields(l, true), NodeFields(r, true);
    assert SameLabels(a, b);
    CompareExact(a, b);
    if a == b {
      assert a[0] == b[0] && a[1] == b[1] && a[2] == b[2];
    }
  }

  lemma AreaDiffExact(l: Option<seq<Unsupported>>, r: Option<seq<Unsupported>>)
    ensures Compare(AreaFields(l), AreaFields(r)) == [] <==> l == r
  {
    CompareExact(AreaFields(l), AreaFields(r));
    assert AreaFields(l)[0].value.areas == l && AreaFields(r)[0].value.areas == r;
  }

  /** The canonical forms agree on everything but what is merely observed. */
  ghost predicate Agree(left: Document, right: Document) {
    var l, r := Canonicalise(left), Canonicalise(right);
    l.shared == r.shared && l.nodeSpecific == r.nodeSpecific && l.unsupported == r.unsupported
  }

  /** Diff misses nothing and invents nothing as soon as one side has a schema version of 0 or more. */
  lemma DiffExact(left: Document, right: Document)
    requires left.schemaVersion >= 0 || right.schemaVersion >= 0
    ensures Diff(left, right) == [] <==> Agree(left, right)
  {
    hide Compare, SharedFields, NodeFields, AreaFields;
    var l, r := Canonicalise(left), Canonicalise(right);
    SharedDiffExact(l.shared, r.shared);
    NodeDiffExact(l.nodeSpecific, r.nodeSpecific);
    AreaDiffExact(l.unsupported, r.unsupported);
  }

  /** With two negative schema versions the schema-2 fields are skipped, and Diff is blind to them. */
  lemma DiffBlindBelowZero(left: int, right: int)
    requires left < 0 && right < 0
    ensures exists a: Document, b: Document ::
              a.schemaVersion == left && b.schemaVersion == right && Diff(a, b) == [] && !Agree(a, b)
  {
    var a := Document(left, ZERO_SHARED, ZERO_NODE, ZERO_OBSERVED, None);
    var b := a.(schemaVersion := right, shared := ZERO_SHARED.(rewritesEnabled := true));
    var l, r := Canonicalise(a), Canonicalise(b);
    assert !l.shared.rewritesEnabled && r.shared.rewritesEnabled;
    assert SharedFields(l.shared, false) == SharedFields(r.shared, false);
    CompareExact(SharedFields(l.shared, false), SharedFields(r.shared, false));
    CompareExact(NodeFields(l.nodeSpecific, false), NodeFields(r.nodeSpecific, false));
    AreaDiffExact(l.unsupported, r.unsupported);
    assert Diff(a, b) == [] && !Agree(a, b);
  }

  /** The exact range of schema versions for which an empty Diff means agreement. */
  lemma DiffExactness(left: int, right: int)
    ensures left >= 0 || right >= 0
         <==> forall a: Document, b: Document :: a.schemaVersion == left && b.schemaVersion == right ==>
                (Diff(a, b) == [] <==> Agree(a, b))
  {
    if left >= 0 || right >= 0 {
      forall a: Document, b: Document | a.schemaVersion == left && b.schemaVersion == right
        ensures Diff(a, b) == [] <==> Agree(a, b)
      {
        hide Diff, Agree;
        DiffExact(a, b);
      }
    } else {
      DiffBlindBelowZero(left, right);
    }
  }

  lemma DiffCanonicalSwaps(l: Document, r: Document)
    ensures DiffCanonical(r, l) == Map((d: Difference) => d.Swap(), DiffCanonical(l, r))
  {
    hide Compare, SharedFields, NodeFields, AreaFields;
    OtherFieldsLabels(l, r, l.schemaVersion >= SCHEMA_VERSION || r.schemaVersion >= SCHEMA_VERSION);
    var full := l.schemaVersion >= SCHEMA_VERSION || r.schemaVersion >= SCHEMA_VERSION;
    var swap := (d: Difference) => d.Swap();
    SharedFieldsLabels(l.shared, r.shared, full);
    CompareSwaps(SharedFields(l.shared, full), SharedFields(r.shared, full));
    CompareSwaps(NodeFields(l.nodeSpecific, full), NodeFields(r.nodeSpecific, full));
    CompareSwaps(AreaFields(l.unsupported), AreaFields(r.unsupported));
    var a := Compare(SharedFields(l.shared, full), SharedFields(r.shared, full));
    var b := Compare(NodeFields(l.nodeSpecific, full), NodeFields(r.nodeSpecific, full));
    var c := Compare(AreaFields(l.unsupported), AreaFields(r.unsupported));
    MapAppend(swap, a + b, c);
    MapAppend(swap, a, b);
  }

  /** Swapping the documents swaps the two sides of every difference and nothing else. */
  lemma DiffSwaps(left: Document, right: Document)
    ensures Diff(right, left) == Map((d: Difference) => d.Swap(), Diff(left, right))
  {
    DiffCanonicalSwaps(Canonicalise(left), Canonicalise(right));
  }

  lemma {:induction false} WithScopeConcat(a: seq<Difference>, b: seq<Difference>, scopes: set<Ownership>)
    ensures WithScope(a + b, scopes) == WithScope(a, scopes) + WithScope(b, scopes)
  {
    if a == [] {
      assert a + b == b;
    } else {
      assert (a + b)[1..] == a[1..] + b;
      WithScopeConcat(a[1..], b, scopes);
    }
  }

  lemma {:induction false} WithScopeAll(a: seq<Difference>, scope: Ownership, scopes: set<Ownership>)
    requires forall d :: d in a ==> d.scope == scope
    ensures WithScope(a, scopes) == if scope in scopes then a else []
  {
    if a != [] {
      WithScopeAll(a[1..], scope, scopes);
      assert a == [a[0]] + a[1..];
    }
  }

  /** Which of the three groups of comparisons survive a scope filter. */
  lemma DiffByScope(l: Document, r: Document, scopes: set<Ownership>)
    requires l.schemaVersion >= SCHEMA_VERSION || r.schemaVersion >= SCHEMA_VERSION
    ensures WithScope(DiffCanonical(l, r), scopes) == [] <==>
              && (SharedManaged in scopes ==> l.shared == r.shared)
              && (NodeManaged in scopes ==> l.nodeSpecific == r.nodeSpecific)
              && (UnsupportedField in scopes ==> l.unsupported == r.unsupported)
  {
    hide Compare, SharedFields, NodeFields, AreaFields, WithScope;
    SharedFieldsLabels(l.shared, r.shared, true);
    OtherFieldsLabels(l, r, true);
    var a := Compare(SharedFields(l.shared, true), SharedFields(r.shared, true));
    var b := Compare(NodeFields(l.nodeSpecific, true), NodeFields(r.nodeSpecific, true));
    var c := Compare(AreaFields(l.unsupported), AreaFields(r.unsupported));
    SharedDiffExact(l.shared, r.shared);
    NodeDiffExact(l.nodeSpecific, r.nodeSpecific);
    AreaDiffExact(l.unsupported, r.unsupported);
    CompareScope(SharedFields(l.shared, true), SharedFields(r.shared, true), SharedManaged);
    CompareScope(NodeFields(l.nodeSpecific, true), NodeFields(r.nodeSpecific, true), NodeManaged);
    CompareScope(AreaFields(l.unsupported), AreaFields(r.unsupported), UnsupportedField);
    WithScopeAll(a, SharedManaged, scopes);
    WithScopeAll(b, NodeManaged, scopes);
    WithScopeAll(c, UnsupportedField, scopes);
    WithScopeConcat(a + b, c, scopes);
    WithScopeConcat(a, b, scopes);
  }

  lemma ManagedCanonicalExact(l: Document, r: Document)
    requires l.schemaVersion >= SCHEMA_VERSION || r.schemaVersion >= SCHEMA_VERSION
    ensures WithScope(DiffCanonical(l, r), {SharedManaged, NodeManaged}) == []
       <==> l.shared == r.shared && l.nodeSpecific == r.nodeSpecific
  {
    hide DiffCanonical;
    DiffByScope(l, r, {SharedManaged, NodeManaged});
  }

  /** No managed difference means the canonical shared and node-specific parts are the same. */
  lemma ManagedExact(desired: Document, observed: Document)
    requires desired.schemaVersion >= 0 || observed.schemaVersion >= 0
    ensures var d, o := Canonicalise(desired), Canonicalise(observed);
            ManagedDifferences(desired, observed) == [] <==> d.shared == o.shared && d.nodeSpecific == o.nodeSpecific
  {
    hide DiffCanonical;
    ManagedCanonicalExact(Canonicalise(desired), Canonicalise(observed));
  }

  // Comparing cluster intent.

  ghost function Listing(ids: set<string>): (r: seq<string>)
    ensures forall x :: x in r <==> x in ids
  {
    if ids == {} then []
    else
      var x :| x in ids;
      [x] + Listing(ids - {x})
  }

  function IdKey(id: string): Key {
    [id]
  }

  /** The node ids of both sides in string order. */
  ghost function OrderedIds(left: DesiredDocument, right: DesiredDocument): seq<string> {
    Sort(Listing(left.nodeOverrides.Keys + right.nodeOverrides.Keys), IdKey)
  }

  function OverrideOf(document: DesiredDocument, id: string): Option<NodeSpecific> {
    if id in document.nodeOverrides then Some(document.nodeOverrides[id]) else None
  }

  function OnlyNode(node: NodeSpecific): Document {
    Document(0, ZERO_SHARED, node, ZERO_OBSERVED, None)
  }

  function Suffix(differences: seq<Difference>, id: string): seq<Difference> {
    if differences == [] then []
    else [differences[0].(summary := differences[0].summary + " for " + id)] + Suffix(differences[1..], id)
  }

  function NodeDiff(left: Option<NodeSpecific>, right: Option<NodeSpecific>, id: string): seq<Difference> {
    if left.None? || right.None? then
      [Difference("DNS", "Node override", NodeManaged, Override(left), Override(right), "node override differs for " + id)]
    else
      Suffix(NodeSpecificDifferences(OnlyNode(left.value), OnlyNode(right.value)), id)
  }

  function NodeDiffs(left: DesiredDocument, right: DesiredDocument, ids: seq<string>): seq<Difference> {
    if ids == [] then []
    else NodeDiff(OverrideOf(left, ids[0]), OverrideOf(right, ids[0]), ids[0]) + NodeDiffs(left, right, ids[1..])
  }

  function OnlyShared(document: DesiredDocument): Document {
    Document(0, document.shared, ZERO_NODE, ZERO_OBSERVED, document.unsupported)
  }

  ghost function DiffDesired(left: DesiredDocument, right: DesiredDocument): seq<Difference> {
    var l, r := CanonicaliseDesired(left), CanonicaliseDesired(right);
    Diff(OnlyShared(l), OnlyShared(r)) + NodeDiffs(l, r, OrderedIds(l, r))
  }

  lemma NodeDiffEmpty(left: Option<NodeSpecific>, right: Option<NodeSpecific>, id: string)
    requires left.Some? && right.Some? ==>
               CanonicalNode(left.value) == left.value && CanonicalNode(right.value) == right.value
    ensures NodeDiff(left, right, id) == [] <==> left.Some? && left == right
  {
    hide DiffCanonical;
    if left.Some? && right.Some? {
      DiffByScope(Canonicalise(OnlyNode(left.value)), Canonicalise(OnlyNode(right.value)), {NodeManaged});
    }
  }

  lemma {:induction false} NodeDiffsEmpty(left: DesiredDocument, right: DesiredDocument, ids: seq<string>)
    requires forall id :: id in left.nodeOverrides ==> CanonicalNode(left.nodeOverrides[id]) == left.nodeOverrides[id]
    requires forall id :: id in right.nodeOverrides ==> CanonicalNode(right.nodeOverrides[id]) == right.nodeOverrides[id]
    ensures NodeDiffs(left, right, ids) == []
       <==> forall id :: id in ids ==> OverrideOf(left, id).Some? && OverrideOf(left, id) == OverrideOf(right, id)
  {
    if ids != [] {
      assert ids == [ids[0]] + ids[1..];
      NodeDiffEmpty(OverrideOf(left, ids[0]), OverrideOf(right, ids[0]), ids[0]);
      NodeDiffsEmpty(left, right, ids[1..]);
    }
  }

  lemma CanonicalOverridesFixed(document: DesiredDocument)
    ensures var c := CanonicaliseDesired(document);
            forall id :: id in c.nodeOverrides ==> CanonicalNode(c.nodeOverrides[id]) == c.nodeOverrides[id]
  {
    forall id | id in document.nodeOverrides
      ensures CanonicalNode(CanonicalNode(document.nodeOverrides[id])) == CanonicalNode(document.nodeOverrides[id])
    {
      CanonicalNodeIdempotent(document.nodeOverrides[id]);
    }
  }

  lemma SharedIntentExact(left: DesiredDocument, right: DesiredDocument)
    ensures var l, r := CanonicaliseDesired(left), CanonicaliseDesired(right);
            Diff(OnlyShared(l), OnlyShared(r)) == [] <==> l.shared == r.shared && l.unsupported == r.unsupported
  {
    hide Diff;
    DiffExact(OnlyShared(CanonicaliseDesired(left)), OnlyShared(CanonicaliseDesired(right)));
    CanonicalSharedIdempotent(left.shared);
    CanonicalSharedIdempotent(right.shared);
    CanonicalUnsupportedIdempotent(left.schemaVersion, left.unsupported);
    CanonicalUnsupportedIdempotent(right.schemaVersion, right.unsupported);
  }

  lemma OverridesExact(l: DesiredDocument, r: DesiredDocument)
    requires forall id :: id in l.nodeOverrides ==> CanonicalNode(l.nodeOverrides[id]) == l.nodeOverrides[id]
    requires forall id :: id in r.nodeOverrides ==> CanonicalNode(r.nodeOverrides[id]) == r.nodeOverrides[id]
    ensures NodeDiffs(l, r, OrderedIds(l, r)) == [] <==> l.nodeOverrides == r.nodeOverrides
  {
    hide NodeDiffs, CanonicalNode, Sort, Listing;
    var ids := OrderedIds(l, r);
    NodeDiffsEmpty(l, r, ids);
    SortSorts(Listing(l.nodeOverrides.Keys + r.nodeOverrides.Keys), IdKey);
    assert forall id :: id in ids <==> id in l.nodeOverrides || id in r.nodeOverrides;
    if forall id :: id in ids ==> OverrideOf(l, id).Some? && OverrideOf(l, id) == OverrideOf(r, id) {
      assert l.nodeOverrides == r.nodeOverrides;
    }
  }

  /** DiffDesired is empty exactly when the canonical intents agree on everything but the schema version. */
  lemma DiffDesiredExact(left: DesiredDocument, right: DesiredDocument)
    ensures var l, r := CanonicaliseDesired(left), CanonicaliseDesired(right);
            DiffDesired(left, right) == [] <==>
              l.shared == r.shared && l.unsupported == r.unsupported && l.nodeOverrides == r.nodeOverrides
  {
    hide Diff, NodeDiffs;
    SharedIntentExact(left, right);
    CanonicalOverridesFixed(left);
    CanonicalOverridesFixed(right);
    OverridesExact(CanonicaliseDesired(left), CanonicaliseDesired(right));
  }

  // Round trips: an observation put into the draft comes back as the same intent.

  /** inventory.Import: the observed node's settings become the draft; other nodes keep their overrides. */
  function ImportInto(current: Option<DesiredDocument>, nodeId: string, observed: Document): DesiredDocument {
    var desired := DesiredFromObservation(nodeId, observed);
    if current.None? then desired
    else desired.(nodeOverrides := (desired.nodeOverrides + current.value.nodeOverrides)[nodeId := observed.nodeSpecific])
  }

  /** The merge loop of inventory.Import, over the node ids of the current draft in any order. */
  method ImportMergeLoop(current: DesiredDocument, nodeId: string, observed: Document, ids: seq<string>)
    returns (desired: DesiredDocument)
    requires forall id :: id in ids <==> id in current.nodeOverrides
    ensures desired == ImportInto(Some(current), nodeId, observed)
  {
    hide DesiredFromObservation;
    desired := DesiredFromObservation(nodeId, observed);
    ghost var start := desired.nodeOverrides;
    for i := 0 to |ids|
      invariant desired == DesiredFromObservation(nodeId, observed).(nodeOverrides := desired.nodeOverrides)
      invariant desired.nodeOverrides == start + map id | id in ids[..i] :: current.nodeOverrides[id]
    {
      desired := desired.(nodeOverrides := desired.nodeOverrides[ids[i] := current.nodeOverrides[ids[i]]]);
      assert forall id :: id in ids[..i + 1] <==> id in ids[..i] || id == ids[i];
    }
    assert ids[..|ids|] == ids;
    assert (map id | id in ids :: current.nodeOverrides[id]) == current.nodeOverrides;
    desired := desired.(nodeOverrides := desired.nodeOverrides[nodeId := observed.nodeSpecific]);
  }

  /** Service.AdoptDrift: shared settings and the node's own settings are taken from the drift observation. */
  function AdoptInto(draft: DesiredDocument, nodeId: string, observed: Document): DesiredDocument {
    draft.(shared := observed.shared, nodeOverrides := draft.nodeOverrides[nodeId := observed.nodeSpecific])
  }

  /** Any draft that took its shared part and this node's override from an observation projects back to it. */
  lemma TakenBack(draft: DesiredDocument, nodeId: string, observed: Document)
    requires nodeId in draft.nodeOverrides
    requires CanonicalShared(draft.shared) == CanonicalShared(observed.shared)
    requires CanonicalNode(draft.nodeOverrides[nodeId]) == CanonicalNode(observed.nodeSpecific)
    ensures Effective(draft, nodeId).Some?
    ensures ManagedDifferences(Effective(draft, nodeId).value, ProjectDocument(observed)) == []
  {
    CanonicalSharedIdempotent(observed.shared);
    CanonicalNodeIdempotent(observed.nodeSpecific);
    hide ManagedDifferences;
    ManagedExact(Effective(draft, nodeId).value, ProjectDocument(observed));
  }

  lemma ImportRoundTrip(current: Option<DesiredDocument>, nodeId: string, observed: Document)
    ensures Effective(ImportInto(current, nodeId, observed), nodeId).Some?
    ensures ManagedDifferences(
              Effective(ImportInto(current, nodeId, observed), nodeId).value, ProjectDocument(observed)) == []
  {
    CanonicalSharedIdempotent(observed.shared);
    CanonicalNodeIdempotent(observed.nodeSpecific);
    TakenBack(ImportInto(current, nodeId, observed), nodeId, observed);
  }

  lemma AdoptRoundTrip(draft: DesiredDocument, nodeId: string, observed: Document)
    ensures Effective(AdoptInto(draft, nodeId, observed), nodeId).Some?
    ensures ManagedDifferences(
              Effective(AdoptInto(draft, nodeId, observed), nodeId).value, ProjectDocument(observed)) == []
  {
    TakenBack(AdoptInto(draft, nodeId, observed), nodeId, observed);
  }

  /** Projection follows the override: the effective document runs DHCP exactly when the override does. */
  lemma EffectiveDhcp(document: DesiredDocument, nodeId: string)
    requires nodeId in document.nodeOverrides
    ensures Effective(document, nodeId).Some?
    ensures Effective(document, nodeId).value.nodeSpecific.RunsDhcp() <==> document.nodeOverrides[nodeId].RunsDhcp()
  {
  }

  /** A read-back without managed differences runs DHCP exactly when the intent does. */
  lemma VerifiedDhcp(effective: Document, observed: Document)
    requires ManagedDifferences(effective, ProjectDocument(observed)) == []
    ensures effective.nodeSpecific.RunsDhcp() <==> observed.nodeSpecific.RunsDhcp()
  {
    hide ManagedDifferences;
    ManagedExact(effective, ProjectDocument(observed));
    assert CanonicalNode(effective.nodeSpecific).RunsDhcp() <==> effective.nodeSpecific.RunsDhcp();
    assert CanonicalNode(ProjectDocument(observed).nodeSpecific).RunsDhcp() <==> observed.nodeSpecific.RunsDhcp();
  }
}
