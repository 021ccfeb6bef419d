/** What Diff reports: each difference under the name of its field, with what the left and the right document say. */
module Reports {
  import opened Text
  import opened Clean
  import opened Configuration
  import opened Diff

  /** The difference is among the reported ones exactly if the two values differ. */
  ghost predicate Told(reported: seq<Difference>, section: string, name: string, scope: Ownership, left: Value, right: Value) {
    left != right <==> Difference(section, name, scope, left, right, name + " differs") in reported
  }

  lemma {:induction false} CompareTells(left: seq<Field>, right: seq<Field>)
    requires SameLabels(left, right)
    ensures forall d :: d in Compare(left, right) ==> d.left != d.right
    ensures forall i :: 0 <= i < |left| ==>
              Told(Compare(left, right), left[i].section, left[i].name, left[i].scope, left[i].value, right[i].value)
  {
    if left != [] {
      CompareTells(left[1..], right[1..]);
      forall i | 0 <= i < |left|
        ensures Told(Compare(left, right), left[i].section, left[i].name, left[i].scope, left[i].value, right[i].value)
      {
        if i > 0 {
          assert left[i] == left[1..][i - 1] && right[i] == right[1..][i - 1];
        }
      }
    }
  }

  /** Every comparison of the two lists is told. */
  ghost predicate Tells(reported: seq<Difference>, l: seq<Field>, r: seq<Field>) {
    && |l| == |r|
    && forall i :: 0 <= i < |l| ==> Told(reported, l[i].section, l[i].name, l[i].scope, l[i].value, r[i].value)
  }

  lemma TellsSplit(reported: seq<Difference>, a: seq<Field>, b: seq<Field>, c: seq<Field>, d: seq<Field>)
    requires |a| == |c| && Tells(reported, a + b, c + d)
    ensures Tells(reported, a, c) && Tells(reported, b, d)
  {
    hide Told;
    forall i | 0 <= i < |a|
      ensures Told(reported, a[i].section, a[i].name, a[i].scope, a[i].value, c[i].value)
    {
      assert a[i] == (a + b)[i] && c[i] == (c + d)[i];
    }
    forall i | 0 <= i < |b|
      ensures Told(reported, b[i].section, b[i].name, b[i].scope, b[i].value, d[i].value)
    {
      assert b[i] == (a + b)[|a| + i] && d[i] == (c + d)[|a| + i];
    }
  }

  lemma TellsLonger(part: seq<Difference>, whole: seq<Difference>, l: seq<Field>, r: seq<Field>)
    requires Tells(part, l, r) && (forall d :: d in part ==> d in whole) && forall d :: d in whole ==> d.left != d.right
    ensures Tells(whole, l, r)
  {
  }

  /** The whole comparison tells everything its three groups look at. */
  lemma DiffTells(l: Document, r: Document)
    requires l.schemaVersion >= SCHEMA_VERSION || r.schemaVersion >= SCHEMA_VERSION
    ensures Tells(DiffCanonical(l, r), SharedFields(l.shared, true), SharedFields(r.shared, true))
    ensures Tells(DiffCanonical(l, r), NodeFields(l.nodeSpecific, true), NodeFields(r.nodeSpecific, true))
    ensures Tells(DiffCanonical(l, r), AreaFields(l.unsupported), AreaFields(r.unsupported))
    ensures forall d :: d in DiffCanonical(l, r) ==> d.left != d.right
  {
    hide Compare, SharedFields, NodeFields, AreaFields, Told;
    SharedFieldsLabels(l.shared, r.shared, true);
    OtherFieldsLabels(l, r, true);
    var a, b := SharedFields(l.shared, true), SharedFields(r.shared, true);
    var c, d := NodeFields(l.nodeSpecific, true), NodeFields(r.nodeSpecific, true);
    var e, f := AreaFields(l.unsupported), AreaFields(r.unsupported);
    CompareTells(a, b);
    CompareTells(c, d);
    CompareTells(e, f);
    TellsLonger(Compare(a, b), DiffCanonical(l, r), a, b);
    TellsLonger(Compare(c, d), DiffCanonical(l, r), c, d);
    TellsLonger(Compare(e, f), DiffCanonical(l, r), e, f);
  }

  lemma SharedTells(l: Document, r: Document)
    requires l.schemaVersion >= SCHEMA_VERSION || r.schemaVersion >= SCHEMA_VERSION
    ensures Tells(DiffCanonical(l, r), LegacyDnsFields(l.shared.dns), LegacyDnsFields(r.shared.dns))
    ensures Tells(DiffCanonical(l, r), DnsFields(l.shared.dns), DnsFields(r.shared.dns))
    ensures Tells(DiffCanonical(l, r), LegacyFilteringFields(l.shared.filtering), LegacyFilteringFields(r.shared.filtering))
    ensures Tells(DiffCanonical(l, r), PolicyFields(l.shared), PolicyFields(r.shared))
    ensures Tells(DiffCanonical(l, r), RuleFields(l.shared.filtering), RuleFields(r.shared.filtering))
  {
    hide LegacyDnsFields, DnsFields, LegacyFilteringFields, PolicyFields, RuleFields, DiffCanonical, Tells, NodeFields, AreaFields;
    DiffTells(l, r);
    SmallGroupsLabels(l.shared, r.shared);
    LargeGroupsLabels(l.shared, r.shared);
    var a, b := LegacyDnsFields(l.shared.dns), LegacyDnsFields(r.shared.dns);
    var c, d := DnsFields(l.shared.dns), DnsFields(r.shared.dns);
    var e, f := LegacyFilteringFields(l.shared.filtering), LegacyFilteringFields(r.shared.filtering);
    var g, h := PolicyFields(l.shared), PolicyFields(r.shared);
    var i, j := RuleFields(l.shared.filtering), RuleFields(r.shared.filtering);
    var ds := DiffCanonical(l, r);
    TellsSplit(ds, a + c + e + g, i, b + d + f + h, j);
    TellsSplit(ds, a + c + e, g, b + d + f, h);
    TellsSplit(ds, a + c, e, b + d, f);
    TellsSplit(ds, a, c, b, d);
  }

  /** A shared setting told under its name. */
  ghost predicate SharedTold(left: Document, right: Document, section: string, name: string, l: Value, r: Value) {
    Told(Diff.Diff(left, right), section, name, SharedManaged, l, r)
  }

  /** The differing lists of servers, each under its name. */
  lemma ServersTold(left: Document, right: Document)
    requires left.schemaVersion >= 0 || right.schemaVersion >= 0
    ensures var l, r := left.shared.dns, right.shared.dns;
            && SharedTold(left, right, "DNS", "Upstream DNS", Texts(CleanOrdered(l.upstreamDns)), Texts(CleanOrdered(r.upstreamDns)))
            && SharedTold(left, right, "DNS", "Bootstrap DNS", Texts(CleanSet(l.bootstrapDns)), Texts(CleanSet(r.bootstrapDns)))
            && SharedTold(left, right, "DNS", "Fallback DNS", Texts(CleanOrdered(l.fallbackDns)), Texts(CleanOrdered(r.fallbackDns)))
            && SharedTold(left, right, "DNS", "Private reverse DNS",
                 Texts(CleanSet(l.privateReverseDns)), Texts(CleanSet(r.privateReverseDns)))
  {
    hide DiffCanonical, Told, CleanOrdered, CleanSet, Trim, CanonicalFiltering, CanonicalList, CanonicalServices, CanonicalNode,
         CanonicalUnsupported, CanonicalObserved, DnsFields, LegacyFilteringFields, PolicyFields, RuleFields;
    var a, b := Canonicalise(left), Canonicalise(right);
    SharedTells(a, b);
    var l, r := LegacyDnsFields(a.shared.dns), LegacyDnsFields(b.shared.dns);
    assert l[0] == l[0] && l[1] == l[1] && l[2] == l[2] && l[3] == l[3];
  }

  /** Protection and rate limits, each under its name. */
  lemma LimitsTold(left: Document, right: Document)
    requires left.schemaVersion >= 0 || right.schemaVersion >= 0
    ensures var l, r := left.shared.dns, right.shared.dns;
            && SharedTold(left, right, "DNS", "Protection enabled", Flag(l.protectionEnabled), Flag(r.protectionEnabled))
            && SharedTold(left, right, "DNS", "Rate limit", Number(l.rateLimit), Number(r.rateLimit))
            && SharedTold(left, right, "DNS", "Rate-limit IPv4 subnet", Number(l.rateLimitIpv4), Number(r.rateLimitIpv4))
            && SharedTold(left, right, "DNS", "Rate-limit IPv6 subnet", Number(l.rateLimitIpv6), Number(r.rateLimitIpv6))
            && SharedTold(left, right, "DNS", "Rate-limit allowlist",
                 Texts(CleanSet(l.rateLimitAllowlist)), Texts(CleanSet(r.rateLimitAllowlist)))
  {
    hide DiffCanonical, Told, CleanOrdered, CleanSet, Trim, CanonicalFiltering, CanonicalList, CanonicalServices, CanonicalNode,
         CanonicalUnsupported, CanonicalObserved, LegacyDnsFields, LegacyFilteringFields, PolicyFields, RuleFields;
    var a, b := Canonicalise(left), Canonicalise(right);
    SharedTells(a, b);
    var l := DnsFields(a.shared.dns);
    assert l[0] == l[0] && l[1] == l[1] && l[2] == l[2] && l[3] == l[3] && l[4] == l[4];
  }

  /** Blocking, each setting under its name. */
  lemma BlockingTold(left: Document, right: Document)
    requires left.schemaVersion >= 0 || right.schemaVersion >= 0
    ensures var l, r := left.shared.dns, right.shared.dns;
            && SharedTold(left, right, "DNS", "Blocking mode", Word(Trim(l.blockingMode)), Word(Trim(r.blockingMode)))
            && SharedTold(left, right, "DNS", "Blocking IPv4", Word(l.blockingIpv4), Word(r.blockingIpv4))
            && SharedTold(left, right, "DNS", "Blocking IPv6", Word(l.blockingIpv6), Word(r.blockingIpv6))
            && SharedTold(left, right, "DNS", "Blocked response TTL", Number(l.blockedResponseTtl), Number(r.blockedResponseTtl))
  {
    hide DiffCanonical, Told, CleanOrdered, CleanSet, Trim, CanonicalFiltering, CanonicalList, CanonicalServices, CanonicalNode,
         CanonicalUnsupported, CanonicalObserved, LegacyDnsFields, LegacyFilteringFields, PolicyFields, RuleFields;
    var a, b := Canonicalise(left), Canonicalise(right);
    SharedTells(a, b);
    var l := DnsFields(a.shared.dns);
    assert l[5] == l[5] && l[6] == l[6] && l[7] == l[7] && l[8] == l[8];
  }

  /** EDNS, IPv6 and DNSSEC, each under its name. */
  lemma ExtensionsTold(left: Document, right: Document)
    requires left.schemaVersion >= 0 || right.schemaVersion >= 0
    ensures var l, r := left.shared.dns, right.shared.dns;
            && SharedTold(left, right, "DNS", "EDNS client subnet", Flag(l.ednsClientSubnet), Flag(r.ednsClientSubnet))
            && SharedTold(left, right, "DNS", "EDNS custom address",
                 Edns(l.ednsUseCustom, Trim(l.ednsCustomIp)), Edns(r.ednsUseCustom, Trim(r.ednsCustomIp)))
            && SharedTold(left, right, "DNS", "Disable IPv6", Flag(l.disableIpv6), Flag(r.disableIpv6))
            && SharedTold(left, right, "DNS", "DNSSEC", Flag(l.dnssecEnabled), Flag(r.dnssecEnabled))
  {
    hide DiffCanonical, Told, CleanOrdered, CleanSet, Trim, CanonicalFiltering, CanonicalList, CanonicalServices, CanonicalNode,
         CanonicalUnsupported, CanonicalObserved, LegacyDnsFields, LegacyFilteringFields, PolicyFields, RuleFields;
    var a, b := Canonicalise(left), Canonicalise(right);
    SharedTells(a, b);
    var l := DnsFields(a.shared.dns);
    assert l[9] == l[9] && l[10] == l[10] && l[11] == l[11] && l[12] == l[12];
  }

  /** Cache and upstream handling, each under its name. */
  lemma ResolutionTold(left: Document, right: Document)
    requires left.schemaVersion >= 0 || right.schemaVersion >= 0
    ensures var l, r := left.shared.dns, right.shared.dns;
            && SharedTold(left, right, "DNS", "Cache",
                 Cache(l.cacheEnabled, l.cacheSize, l.cacheTtlMin, l.cacheTtlMax, l.cacheOptimistic),
                 Cache(r.cacheEnabled, r.cacheSize, r.cacheTtlMin, r.cacheTtlMax, r.cacheOptimistic))
            && SharedTold(left, right, "DNS", "Upstream mode", Word(Trim(l.upstreamMode)), Word(Trim(r.upstreamMode)))
            && SharedTold(left, right, "DNS", "Upstream timeout", Number(l.upstreamTimeout), Number(r.upstreamTimeout))
            && SharedTold(left, right, "DNS", "Private reverse and client resolution",
                 Flags(l.usePrivateReverse, l.resolveClients), Flags(r.usePrivateReverse, r.resolveClients))
  {
    hide DiffCanonical, Told, CleanOrdered, CleanSet, Trim, CanonicalFiltering, CanonicalList, CanonicalServices, CanonicalNode,
         CanonicalUnsupported, CanonicalObserved, LegacyDnsFields, LegacyFilteringFields, PolicyFields, RuleFields;
    var a, b := Canonicalise(left), Canonicalise(right);
    SharedTells(a, b);
    var l := DnsFields(a.shared.dns);
    assert l[13] == l[13] && l[14] == l[14] && l[15] == l[15] && l[16] == l[16];
  }

  /** Filtering, services and policies, each under its name. */
  lemma PoliciesTold(left: Document, right: Document)
    requires left.schemaVersion >= 0 || right.schemaVersion >= 0
    ensures var l, r := left.shared, right.shared;
            && SharedTold(left, right, "Filtering", "Allowlist subscriptions",
                 Texts(CleanSet(l.filtering.whitelistUrls)), Texts(CleanSet(r.filtering.whitelistUrls)))
            && SharedTold(left, right, "Clients", "Persistent clients",
                 Clients(CanonicalList(l.clients, CanonicalClient, ClientKey)),
                 Clients(CanonicalList(r.clients, CanonicalClient, ClientKey)))
            && SharedTold(left, right, "Rewrites", "DNS rewrites",
                 Rewrites(l.rewritesEnabled, CanonicalList(l.rewrites, CanonicalRewrite, RewriteOrder)),
                 Rewrites(r.rewritesEnabled, CanonicalList(r.rewrites, CanonicalRewrite, RewriteOrder)))
            && SharedTold(left, right, "Services", "Blocked services",
                 Blocked(CleanSet(l.services.blockedServiceIds), CanonicalSchedule(l.services.blockedSchedule)),
                 Blocked(CleanSet(r.services.blockedServiceIds), CanonicalSchedule(r.services.blockedSchedule)))
            && SharedTold(left, right, "Services", "Safe browsing", Flag(l.services.safeBrowsing), Flag(r.services.safeBrowsing))
            && SharedTold(left, right, "Services", "Parental control",
                 Flag(l.services.parentalControl), Flag(r.services.parentalControl))
            && SharedTold(left, right, "Services", "Safe search", Search(l.services.safeSearch), Search(r.services.safeSearch))
            && SharedTold(left, right, "Query log", "Policy",
                 QueryLog(l.queryLog.(ignored := CleanSet(l.queryLog.ignored))),
                 QueryLog(r.queryLog.(ignored := CleanSet(r.queryLog.ignored))))
            && SharedTold(left, right, "Statistics", "Policy",
                 Statistics(l.statistics.(ignored := CleanSet(l.statistics.ignored))),
                 Statistics(r.statistics.(ignored := CleanSet(r.statistics.ignored))))
  {
    hide DiffCanonical, Told, CleanOrdered, CleanSet, Trim, CanonicalDns, CanonicalList, CanonicalSchedule, CanonicalNode,
         CanonicalUnsupported, CanonicalObserved, LegacyDnsFields, DnsFields, LegacyFilteringFields, RuleFields;
    var a, b := Canonicalise(left), Canonicalise(right);
    SharedTells(a, b);
    var l := PolicyFields(a.shared);
    assert l[0] == l[0] && l[1] == l[1] && l[2] == l[2] && l[3] == l[3] && l[4] == l[4] && l[5] == l[5] && l[6] == l[6];
    assert l[7] == l[7] && l[8] == l[8];
  }

  lemma FilteringTold(left: Document, right: Document)
    requires left.schemaVersion >= 0 || right.schemaVersion >= 0
    ensures var l, r := left.shared.filtering, right.shared.filtering;
            && SharedTold(left, right, "Filtering", "Enabled", Flag(l.enabled), Flag(r.enabled))
            && SharedTold(left, right, "Filtering", "Update interval", Number(l.updateInterval), Number(r.updateInterval))
            && SharedTold(left, right, "Filtering", "Filter subscriptions",
                 Texts(CleanSet(l.filterUrls)), Texts(CleanSet(r.filterUrls)))
            && SharedTold(left, right, "Filtering", "Custom rules",
                 Texts(CleanOrdered(l.userRules)), Texts(CleanOrdered(r.userRules)))
  {
    hide DiffCanonical, Told, CleanOrdered, CleanSet, Trim, CanonicalDns, CanonicalList, CanonicalServices, CanonicalNode,
         CanonicalUnsupported, CanonicalObserved, LegacyDnsFields, DnsFields, PolicyFields;
    var a, b := Canonicalise(left), Canonicalise(right);
    SharedTells(a, b);
    var l, k := LegacyFilteringFields(a.shared.filtering), RuleFields(a.shared.filtering);
    assert l[0] == l[0] && l[1] == l[1] && l[2] == l[2] && k[0] == k[0];
  }

  /** Node-specific settings and unsupported areas, each under its name. */
  lemma NodeTold(left: Document, right: Document)
    requires left.schemaVersion >= 0 || right.schemaVersion >= 0
    ensures var reported, l, r := Diff.Diff(left, right), left.nodeSpecific, right.nodeSpecific;
            && Told(reported, "DNS", "Bind hosts", NodeManaged, Texts(CleanSet(l.bindHosts)), Texts(CleanSet(r.bindHosts)))
            && Told(reported, "DNS", "DNS port", NodeManaged, Number(l.dnsPort), Number(r.dnsPort))
            && Told(reported, "DHCP", "Configuration and static leases", NodeManaged,
                 Dhcp(CanonicalNode(l).dhcp), Dhcp(CanonicalNode(r).dhcp))
            && Told(reported, "Compatibility", "Unsupported areas", UnsupportedField,
                 Value.Areas(CanonicalUnsupported(left.schemaVersion, left.unsupported)),
                 Value.Areas(CanonicalUnsupported(right.schemaVersion, right.unsupported)))
  {
    hide DiffCanonical, Told, CleanSet, CanonicalShared, CanonicalUnsupported, CanonicalObserved, SharedFields, CanonicalDhcp;
    var a, b := Canonicalise(left), Canonicalise(right);
    DiffTells(a, b);
    var l, k := NodeFields(a.nodeSpecific, true), AreaFields(a.unsupported);
    assert l[0] == l[0] && l[1] == l[1] && l[2] == l[2] && k[0] == k[0];
  }
}
