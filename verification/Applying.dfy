/** The order in which a configuration is applied: filter lists, rewrites, and the DHCP server last. */
module Applying {
  import opened Text
  import opened Clean
  import opened Configuration
  import opened Reconcile
  import opened Rewrites
  import opened Leases

  function DesiredRewrites(shared: Shared): seq<Rewrite> {
    match shared.rewrites
    case None => []
    case Some(rewrites) => rewrites
  }

  /** Keys are unique on the node, so that matching by folded key is unambiguous. */
  ghost predicate Unambiguous(state: NodeState) {
    UniqueUrls(state.filters) && UniqueUrls(state.whitelist) && UniqueKeys(state.rewrites) && UniqueMacs(state.leases)
  }

  /** What validation asks of rewrites and leases; filter URLs are unique by canonical form. */
  ghost predicate Validated(desired: Document) {
    && UniqueKeys(DesiredRewrites(desired.shared))
    && (desired.nodeSpecific.dhcp.Some? ==> UniqueMacs(DesiredLeases(desired.nodeSpecific.dhcp.value)))
  }

  /** The state one pass leaves when nothing is rejected. */
  function SettledState(state: NodeState, desired: Document, toggles: bool): NodeState {
    var shared := state.(
      filters := SettledFilters(state.filters, desired.shared.filtering.filterUrls),
      whitelist := SettledFilters(state.whitelist, desired.shared.filtering.whitelistUrls),
      rewrites := SettledRewrites(state.rewrites, DesiredRewrites(desired.shared), toggles),
      rewritesEnabled := if toggles then desired.shared.rewritesEnabled else state.rewritesEnabled);
    match desired.nodeSpecific.dhcp
    case None => shared
    case Some(dhcp) =>
      shared.(dhcp := DhcpStatus(dhcp.enabled, dhcp.interfaceName, dhcp.ipv4, dhcp.ipv6),
              leases := SettledLeases(state.leases, DesiredLeases(dhcp)))
  }

  /** Filter lists and rewrites are what the loops aim for. */
  ghost predicate SharedConverged(state: NodeState, desired: Document, toggles: bool) {
    && Unambiguous(state)
    && SettledFilters(state.filters, desired.shared.filtering.filterUrls) == state.filters
    && SettledFilters(state.whitelist, desired.shared.filtering.whitelistUrls) == state.whitelist
    && Settled(state.rewrites, DesiredRewrites(desired.shared), toggles)
    && (toggles ==> state.rewritesEnabled == desired.shared.rewritesEnabled)
  }

  /** And so is the DHCP server, if anything is wanted of it. */
  ghost predicate Converged(state: NodeState, desired: Document, toggles: bool) {
    && SharedConverged(state, desired, toggles)
    && (desired.nodeSpecific.dhcp.Some? ==>
          && DhcpConfigurationMatches(state.dhcp, desired.nodeSpecific.dhcp.value)
          && SettledLeases(state.leases, DesiredLeases(desired.nodeSpecific.dhcp.value)) == state.leases)
  }

  lemma CanonicalUrls(document: Document)
    ensures UniqueFolded(Canonicalise(document).shared.filtering.filterUrls)
    ensures UniqueFolded(Canonicalise(document).shared.filtering.whitelistUrls)
  {
    CleanSetFacts(document.shared.filtering.filterUrls);
    CleanSetFacts(document.shared.filtering.whitelistUrls);
  }

  /** The parts of ApplyConfiguration modelled here. From an unambiguous node it converges, to the settled state, when
      nothing is rejected; whatever is rejected, the DHCP settings are the old or exactly the wanted ones; a node that has converged already is sent nothing but the rewriting switch; and the DHCP server is
      touched only if something is wanted of it and everything else has converged. */
  method ApplyConfiguration(node: Node, document: Document, toggles: bool) returns (ok: bool)
    modifies node
    ensures old(node.rejections) == [] ==> ok
    ensures var wanted := Canonicalise(document).nodeSpecific.dhcp;
            node.state.dhcp == old(node.state.dhcp) || (wanted.Some? && DhcpConfigurationMatches(node.state.dhcp, wanted.value))
    ensures var desired := Canonicalise(document);
            desired.schemaVersion >= SCHEMA_VERSION && Validated(desired) ==>
              && (ok && Unambiguous(old(node.state)) ==>
                    node.state == SettledState(old(node.state), desired, toggles) && Converged(node.state, desired, toggles))
              && (Converged(old(node.state), desired, toggles) ==>
                    && node.sent == old(node.sent) + (if toggles then [SetRewriting(desired.shared.rewritesEnabled)] else [])
                    && (ok ==> node.state == old(node.state)))
              && (Unambiguous(old(node.state))
                  && (node.state.dhcp != old(node.state.dhcp) || node.state.leases != old(node.state.leases)) ==>
                    desired.nodeSpecific.dhcp.Some?
                    && SharedConverged(node.state.(leases := old(node.state.leases)), desired, toggles))
  {
    hide SettledFilters, SettledRewrites, SettledLeases, UniqueUrls, UniqueKeys, UniqueMacs, UniqueFolded, Canonicalise;
    ghost var was := node.state;
    var desired := Canonicalise(document);
    CanonicalUrls(document);
    var filtering, rewrites := desired.shared.filtering, DesiredRewrites(desired.shared);
    FiltersStayIf(was, filtering);
    var current := node.state;
    ok := ReconcileFilterUrls(node, current, filtering.filterUrls, false);
    if !ok || desired.schemaVersion < SCHEMA_VERSION {
      return;
    }
    ok := ReconcileFilterUrls(node, current, filtering.whitelistUrls, true);
    if !ok {
      return;
    }
    ok := ReconcileRewrites(node, desired.shared.rewritesEnabled, rewrites, toggles);
    if !ok {
      return;
    }
    if UniqueKeys(was.rewrites) && UniqueKeys(rewrites) {
      RewritesStay(was.rewrites, rewrites, toggles);
    }
    if desired.nodeSpecific.dhcp.Some? {
      var leases := DesiredLeases(desired.nodeSpecific.dhcp.value);
      ok := ReconcileDhcp(node, desired.nodeSpecific.dhcp.value);
      if UniqueMacs(was.leases) && UniqueMacs(leases) {
        LeasesStay(was.leases, leases);
      }
    }
  }

  lemma FiltersStayIf(state: NodeState, filtering: Filtering)
    requires UniqueFolded(filtering.filterUrls) && UniqueFolded(filtering.whitelistUrls)
    ensures UniqueUrls(state.filters) ==>
              var settled := SettledFilters(state.filters, filtering.filterUrls);
              UniqueUrls(settled) && SettledFilters(settled, filtering.filterUrls) == settled
    ensures UniqueUrls(state.whitelist) ==>
              var settled := SettledFilters(state.whitelist, filtering.whitelistUrls);
              UniqueUrls(settled) && SettledFilters(settled, filtering.whitelistUrls) == settled
  {
    hide SettledFilters, UniqueUrls, UniqueFolded;
    if UniqueUrls(state.filters) {
      FiltersStay(state.filters, filtering.filterUrls);
    }
    if UniqueUrls(state.whitelist) {
      FiltersStay(state.whitelist, filtering.whitelistUrls);
    }
  }
}
