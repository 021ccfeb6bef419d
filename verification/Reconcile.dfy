/** Bringing one node to its effective configuration: the add, update and delete loops over filter lists,
    rewrites and static leases. A node is its state and the changes sent to it; it may reject any change. */
module Reconcile {
  import opened Text
  import opened Configuration

  datatype Filter = Filter(url: string, name: string, enabled: bool)

  const MANAGED_NAME := "Managed by Atlas DNS Controller"

  /** The running DHCP settings a node reports. */
  datatype DhcpStatus = DhcpStatus(enabled: bool, interfaceName: string, v4: DhcpIpv4, v6: DhcpIpv6)

  datatype NodeState = NodeState(
    filters: seq<Filter>, whitelist: seq<Filter>, rewrites: seq<Rewrite>, rewritesEnabled: bool,
    dhcp: DhcpStatus, leases: seq<StaticLease>)

  datatype Change =
    | SetUrl(whitelisted: bool, url: string, on: bool)
    | AddUrl(whitelisted: bool, url: string)
    | SetRewriting(on: bool)
    | AddRewrite(rewrite: Rewrite)
    | UpdateRewrite(target: Rewrite, update: Rewrite)
    | DeleteRewrite(target: Rewrite)
    | SetDhcp(config: DhcpStatus)
    | AddLease(lease: StaticLease)
    | RemoveLease(lease: StaticLease)

  function FilterList(state: NodeState, whitelist: bool): seq<Filter> {
    if whitelist then state.whitelist else state.filters
  }

  function WithFilterList(state: NodeState, whitelist: bool, items: seq<Filter>): NodeState {
    if whitelist then state.(whitelist := items) else state.(filters := items)
  }

  function SetEnabled(items: seq<Filter>, url: string, on: bool): seq<Filter> {
    seq(|items|, n requires 0 <= n < |items| => if items[n].url == url then items[n].(enabled := on) else items[n])
  }

  predicate SameRewrite(a: Rewrite, b: Rewrite) {
    a.domain == b.domain && a.answer == b.answer
  }

  function ReplaceRewrite(items: seq<Rewrite>, target: Rewrite, update: Rewrite): seq<Rewrite> {
    Map((r: Rewrite) => if SameRewrite(r, target) then update else r, items)
  }

  function DropRewrite(items: seq<Rewrite>, target: Rewrite): seq<Rewrite> {
    Keep(items, (r: Rewrite) => !SameRewrite(r, target))
  }

  function DropLease(items: seq<StaticLease>, lease: StaticLease): seq<StaticLease> {
    Keep(items, (l: StaticLease) => l != lease)
  }

  /** What an accepted change does. */
  function Apply(state: NodeState, change: Change): NodeState {
    match change
    case SetUrl(w, url, on) => WithFilterList(state, w, SetEnabled(FilterList(state, w), url, on))
    case AddUrl(w, url) => WithFilterList(state, w, FilterList(state, w) + [Filter(url, MANAGED_NAME, true)])
    case SetRewriting(on) => state.(rewritesEnabled := on)
    case AddRewrite(r) => state.(rewrites := state.rewrites + [r])
    case UpdateRewrite(target, update) => state.(rewrites := ReplaceRewrite(state.rewrites, target, update))
    case DeleteRewrite(target) => state.(rewrites := DropRewrite(state.rewrites, target))
    case SetDhcp(config) => state.(dhcp := config)
    case AddLease(lease) => state.(leases := state.leases + [lease])
    case RemoveLease(lease) => state.(leases := DropLease(state.leases, lease))
  }

  class Node {
    var state: NodeState
    var sent: seq<Change>
    var rejections: seq<bool>

    constructor (state: NodeState, rejections: seq<bool>)
      ensures this.state == state && sent == [] && this.rejections == rejections
    {
      this.state, this.sent, this.rejections := state, [], rejections;
    }

    method Send(change: Change) returns (ok: bool)
      modifies this
      ensures sent == old(sent) + [change]
      ensures state == if ok then Apply(old(state), change) else old(state)
      ensures old(rejections) == [] ==> ok && rejections == []
    {
      ok := rejections == [] || !rejections[0];
      rejections := if rejections == [] then [] else rejections[1..];
      sent := sent + [change];
      if ok {
        state := Apply(state, change);
      }
    }
  }

  // Filter lists.

  predicate Listed(items: seq<Filter>, url: string) {
    exists n :: 0 <= n < |items| && Lower(items[n].url) == Lower(url)
  }

  predicate Wanted(urls: seq<string>, url: string) {
    exists n :: 0 <= n < |urls| && Lower(urls[n]) == Lower(url)
  }

  ghost predicate UniqueUrls(items: seq<Filter>) {
    forall m, n :: 0 <= m < n < |items| ==> Lower(items[m].url) != Lower(items[n].url)
  }

  ghost predicate UniqueFolded(urls: seq<string>) {
    forall m, n :: 0 <= m < n < |urls| ==> Lower(urls[m]) != Lower(urls[n])
  }

  /** The wanted URLs the list does not have, as new entries. */
  function Added(items: seq<Filter>, desired: seq<string>): seq<Filter> {
    if desired == [] then []
    else
      var last := desired[|desired| - 1];
      Added(items, desired[..|desired| - 1])
      + if Listed(items, last) then [] else [Filter(last, MANAGED_NAME, true)]
  }

  /** The list the loops end with: every entry keeps its text and is enabled exactly when wanted, and what was
      missing is appended. */
  function SettledFilters(items: seq<Filter>, desired: seq<string>): seq<Filter> {
    seq(|items|, n requires 0 <= n < |items| => items[n].(enabled := Wanted(desired, items[n].url))) + Added(items, desired)
  }

  /** Half way: the first i wanted URLs are dealt with, and the first j entries are switched off if unwanted. */
  ghost function Halfway(items: seq<Filter>, desired: seq<string>, i: nat, j: nat): seq<Filter>
    requires i <= |desired|
  {
    seq(|items|, n requires 0 <= n < |items| =>
      items[n].(enabled := if n < j then Wanted(desired, items[n].url)
                           else items[n].enabled || Wanted(desired[..i], items[n].url)))
    + Added(items, desired[..i])
  }

  lemma WantedNext(desired: seq<string>, i: nat, url: string)
    requires i < |desired|
    ensures Wanted(desired[..i + 1], url) <==> Wanted(desired[..i], url) || Lower(desired[i]) == Lower(url)
  {
    assert desired[..i + 1] == desired[..i] + [desired[i]];
    if Wanted(desired[..i], url) {
      var n :| 0 <= n < i && Lower(desired[..i][n]) == Lower(url);
      assert desired[..i + 1][n] == desired[n];
    }
    if Lower(desired[i]) == Lower(url) {
      assert desired[..i + 1][i] == desired[i];
    }
  }

  lemma {:induction false} AddedFacts(items: seq<Filter>, desired: seq<string>)
    ensures forall n :: 0 <= n < |Added(items, desired)| ==>
              var f := Added(items, desired)[n];
              !Listed(items, f.url) && f.enabled && f.url in desired
    ensures forall url :: url in desired ==> Listed(items, url) || exists n :: 0 <= n < |Added(items, desired)| && Added(items, desired)[n].url == url
  {
    if desired != [] {
      AddedFacts(items, desired[..|desired| - 1]);
      assert desired == desired[..|desired| - 1] + [desired[|desired| - 1]];
      var before, added := Added(items, desired[..|desired| - 1]), Added(items, desired);
      forall url | url in desired && !Listed(items, url)
        ensures exists n :: 0 <= n < |added| && added[n].url == url
      {
        if url in desired[..|desired| - 1] {
          var n :| 0 <= n < |before| && before[n].url == url;
          assert added[n] == before[n];
        } else {
          assert added[|before|].url == url;
        }
      }
    }
  }

  lemma AddedNext(items: seq<Filter>, desired: seq<string>, i: nat)
    requires i < |desired|
    ensures Added(items, desired[..i + 1]) ==
            Added(items, desired[..i]) + if Listed(items, desired[i]) then [] else [Filter(desired[i], MANAGED_NAME, true)]
  {
    assert desired[..i + 1][..i] == desired[..i];
  }

  /** Switching entry k on or off changes that entry only. */
  lemma SetOne(items: seq<Filter>, added: seq<Filter>, list: seq<Filter>, k: nat, on: bool)
    requires UniqueUrls(items) && k < |items| && |list| == |items| + |added|
    requires forall n :: 0 <= n < |items| ==> list[n].url == items[n].url
    requires forall n :: 0 <= n < |added| ==> list[|items| + n] == added[n] && !Listed(items, added[n].url)
    ensures SetEnabled(list, items[k].url, on) == list[k := list[k].(enabled := on)]
  {
    forall n | 0 <= n < |list| && n != k
      ensures list[n].url != items[k].url
    {
      if n < |items| {
        assert Lower(items[n].url) != Lower(items[k].url);
      } else {
        assert list[n] == added[n - |items|];
      }
    }
  }

  lemma HalfwayShape(items: seq<Filter>, desired: seq<string>, i: nat, j: nat)
    requires i <= |desired|
    ensures var list, added := Halfway(items, desired, i, j), Added(items, desired[..i]);
            && |list| == |items| + |added|
            && (forall n :: 0 <= n < |items| ==> list[n].url == items[n].url)
            && (forall n :: 0 <= n < |added| ==> list[|items| + n] == added[n] && !Listed(items, added[n].url))
  {
    hide Lower, Wanted;
    AddedFacts(items, desired[..i]);
  }

  lemma EnableNext(items: seq<Filter>, desired: seq<string>, i: nat, k: nat)
    requires UniqueUrls(items) && i < |desired| && k < |items| && Lower(items[k].url) == Lower(desired[i])
    ensures |Halfway(items, desired, i, 0)| > k
    ensures var now := Halfway(items, desired, i, 0);
            Halfway(items, desired, i + 1, 0) == now[k := now[k].(enabled := true)]
  {
    hide Lower, Added, Wanted;
    var now, next := Halfway(items, desired, i, 0), Halfway(items, desired, i + 1, 0);
    assert Listed(items, desired[i]);
    AddedNext(items, desired, i);
    assert Added(items, desired[..i + 1]) == Added(items, desired[..i]);
    forall n | 0 <= n < |items|
      ensures next[n] == if n == k then now[n].(enabled := true) else now[n]
    {
      WantedNext(desired, i, items[n].url);
      assert n != k ==> Lower(items[n].url) != Lower(items[k].url);
    }
    assert next == now[k := now[k].(enabled := true)];
  }

  /** One wanted URL whose entry is k, already enabled or just switched on. */
  lemma EnableStep(items: seq<Filter>, desired: seq<string>, i: nat, k: nat)
    requires UniqueUrls(items) && i < |desired| && k < |items| && Lower(items[k].url) == Lower(desired[i])
    ensures items[k].enabled ==> Halfway(items, desired, i + 1, 0) == Halfway(items, desired, i, 0)
    ensures SetEnabled(Halfway(items, desired, i, 0), items[k].url, true) == Halfway(items, desired, i + 1, 0)
  {
    hide Lower, Added, SetEnabled, Wanted, UniqueUrls, Listed;
    var now := Halfway(items, desired, i, 0);
    HalfwayShape(items, desired, i, 0);
    EnableNext(items, desired, i, k);
    assert items[k].enabled ==> now[k].enabled;
    hide Halfway;
    SetOne(items, Added(items, desired[..i]), now, k, true);
    assert now[k].enabled ==> now[k := now[k].(enabled := true)] == now;
  }

  /** One wanted URL without an entry. */
  lemma AddStep(items: seq<Filter>, desired: seq<string>, i: nat)
    requires i < |desired| && !Listed(items, desired[i])
    ensures Halfway(items, desired, i, 0) + [Filter(desired[i], MANAGED_NAME, true)] == Halfway(items, desired, i + 1, 0)
  {
    AddedNext(items, desired, i);
    var now, next := Halfway(items, desired, i, 0), Halfway(items, desired, i + 1, 0);
    forall n | 0 <= n < |items|
      ensures next[n] == now[n]
    {
      WantedNext(desired, i, items[n].url);
    }
  }

  /** One entry of the second loop: switched off when it is enabled and unwanted, passed over otherwise. */
  lemma DisableStep(items: seq<Filter>, desired: seq<string>, j: nat)
    requires UniqueUrls(items) && j < |items|
    ensures items[j].enabled && !Wanted(desired, items[j].url) ==>
              SetEnabled(Halfway(items, desired, |desired|, j), items[j].url, false) == Halfway(items, desired, |desired|, j + 1)
    ensures !items[j].enabled || Wanted(desired, items[j].url) ==>
              Halfway(items, desired, |desired|, j) == Halfway(items, desired, |desired|, j + 1)
  {
    assert desired[..|desired|] == desired;
    AddedFacts(items, desired);
    var now, next := Halfway(items, desired, |desired|, j), Halfway(items, desired, |desired|, j + 1);
    SetOne(items, Added(items, desired), now, j, false);
    assert next == now[j := now[j].(enabled := Wanted(desired, items[j].url))];
  }

  lemma HalfwayEnds(items: seq<Filter>, desired: seq<string>)
    ensures Halfway(items, desired, 0, 0) == items
    ensures Halfway(items, desired, |desired|, |items|) == SettledFilters(items, desired)
  {
    assert desired[..|desired|] == desired && desired[..0] == [];
    assert Halfway(items, desired, 0, 0) == items;
  }

  /** Settled already: nothing is missing, and every entry is as wanted. */
  lemma SettledAlready(items: seq<Filter>, desired: seq<string>)
    requires SettledFilters(items, desired) == items
    ensures forall n :: 0 <= n < |items| ==> (items[n].enabled <==> Wanted(desired, items[n].url))
    ensures forall url :: url in desired ==> Listed(items, url)
  {
    assert Added(items, desired) == [];
    AddedFacts(items, desired);
    forall n | 0 <= n < |items|
      ensures items[n].enabled <==> Wanted(desired, items[n].url)
    {
      assert SettledFilters(items, desired)[n] == items[n].(enabled := Wanted(desired, items[n].url));
    }
  }

  method FindUrl(items: seq<Filter>, url: string) returns (k: nat)
    ensures k <= |items|
    ensures k < |items| ==> Lower(items[k].url) == Lower(url)
    ensures k == |items| ==> !Listed(items, url)
  {
    k := 0;
    while k < |items| && Lower(items[k].url) != Lower(url)
      invariant k <= |items|
      invariant forall n :: 0 <= n < k ==> Lower(items[n].url) != Lower(url)
    {
      k := k + 1;
    }
  }

  /** Adds and enables what is wanted. */
  method EnableWanted(node: Node, items: seq<Filter>, desired: seq<string>, whitelist: bool) returns (ok: bool)
    modifies node
    ensures node.state == WithFilterList(old(node.state), whitelist, FilterList(node.state, whitelist))
    ensures old(node.sent) <= node.sent
    ensures ok && UniqueUrls(items) && FilterList(old(node.state), whitelist) == items ==>
              FilterList(node.state, whitelist) == Halfway(items, desired, |desired|, 0)
    ensures old(node.rejections) == [] ==> ok && node.rejections == []
    ensures SettledFilters(items, desired) == items ==> ok && node.sent == old(node.sent)
  {
    hide SettledFilters, Halfway, UniqueUrls;
    HalfwayEnds(items, desired);
    ok := true;
    for i := 0 to |desired|
      invariant ok && node.state == WithFilterList(old(node.state), whitelist, FilterList(node.state, whitelist))
      invariant old(node.sent) <= node.sent
      invariant UniqueUrls(items) && FilterList(old(node.state), whitelist) == items ==>
                  FilterList(node.state, whitelist) == Halfway(items, desired, i, 0)
      invariant old(node.rejections) == [] ==> node.rejections == []
      invariant SettledFilters(items, desired) == items ==> node.sent == old(node.sent)
    {
      ok := EnableOne(node, items, desired, i, whitelist);
      if !ok {
        return;
      }
    }
  }

  /** One wanted URL: its entry is switched on, or an entry is added. */
  method EnableOne(node: Node, items: seq<Filter>, desired: seq<string>, i: nat, whitelist: bool) returns (ok: bool)
    requires i < |desired|
    modifies node
    ensures node.state == WithFilterList(old(node.state), whitelist, FilterList(node.state, whitelist))
    ensures old(node.sent) <= node.sent
    ensures ok && UniqueUrls(items) && FilterList(old(node.state), whitelist) == Halfway(items, desired, i, 0) ==>
              FilterList(node.state, whitelist) == Halfway(items, desired, i + 1, 0)
    ensures old(node.rejections) == [] ==> ok && node.rejections == []
    ensures SettledFilters(items, desired) == items ==> ok && node.sent == old(node.sent)
  {
    hide Halfway, SetEnabled, SettledFilters, UniqueUrls, Lower, Wanted;
    if SettledFilters(items, desired) == items {
      SettledAlready(items, desired);
    }
    var k := FindUrl(items, desired[i]);
    ok := true;
    if k < |items| {
      if UniqueUrls(items) {
        EnableStep(items, desired, i, k);
      }
      if !items[k].enabled {
        assert Wanted(desired, items[k].url) by {
          WantedAt(desired, i, items[k].url);
        }
        ok := node.Send(SetUrl(whitelist, items[k].url, true));
      }
    } else {
      AddStep(items, desired, i);
      ok := node.Send(AddUrl(whitelist, desired[i]));
    }
  }

  lemma WantedAt(desired: seq<string>, i: nat, url: string)
    requires i < |desired| && Lower(desired[i]) == Lower(url)
    ensures Wanted(desired, url)
  {
    hide Lower;
  }

  /** Disables what is enabled and not wanted. */
  method DisableUnwanted(node: Node, items: seq<Filter>, desired: seq<string>, whitelist: bool) returns (ok: bool)
    modifies node
    ensures node.state == WithFilterList(old(node.state), whitelist, FilterList(node.state, whitelist))
    ensures old(node.sent) <= node.sent
    ensures ok && UniqueUrls(items) && FilterList(old(node.state), whitelist) == Halfway(items, desired, |desired|, 0) ==>
              FilterList(node.state, whitelist) == SettledFilters(items, desired)
    ensures old(node.rejections) == [] ==> ok && node.rejections == []
    ensures SettledFilters(items, desired) == items ==> ok && node.sent == old(node.sent)
  {
    hide SettledFilters, Halfway, SetEnabled;
    HalfwayEnds(items, desired);
    if SettledFilters(items, desired) == items {
      SettledAlready(items, desired);
    }
    var targets := set url | url in desired :: Lower(url);
    ok := true;
    for j := 0 to |items|
      invariant ok && node.state == WithFilterList(old(node.state), whitelist, FilterList(node.state, whitelist))
      invariant old(node.sent) <= node.sent
      invariant UniqueUrls(items) && FilterList(old(node.state), whitelist) == Halfway(items, desired, |desired|, 0) ==>
                  FilterList(node.state, whitelist) == Halfway(items, desired, |desired|, j)
      invariant old(node.rejections) == [] ==> node.rejections == []
      invariant SettledFilters(items, desired) == items ==> node.sent == old(node.sent)
    {
      if UniqueUrls(items) {
        DisableStep(items, desired, j);
      }
      assert Lower(items[j].url) in targets <==> Wanted(desired, items[j].url);
      if items[j].enabled && Lower(items[j].url) !in targets {
        ok := node.Send(SetUrl(whitelist, items[j].url, false));
        if !ok {
          return;
        }
      }
    }
  }

  /** One filter list. The listing may be older than the node's state as long as this list is the same. */
  method ReconcileFilterUrls(node: Node, current: NodeState, desired: seq<string>, whitelist: bool) returns (ok: bool)
    modifies node
    ensures node.state == WithFilterList(old(node.state), whitelist, FilterList(node.state, whitelist))
    ensures old(node.sent) <= node.sent
    ensures var items := FilterList(current, whitelist);
            && (ok && UniqueUrls(items) && FilterList(old(node.state), whitelist) == items ==>
                  FilterList(node.state, whitelist) == SettledFilters(items, desired))
            && (SettledFilters(items, desired) == items ==> ok && node.sent == old(node.sent))
    ensures old(node.rejections) == [] ==> ok && node.rejections == []
  {
    hide SettledFilters, Halfway;
    var items := FilterList(current, whitelist);
    ok := EnableWanted(node, items, desired, whitelist);
    if ok {
      ok := DisableUnwanted(node, items, desired, whitelist);
    }
  }

  /** The enabled entries of the settled list are the wanted URLs, up to case. */
  lemma FiltersConverge(items: seq<Filter>, desired: seq<string>, key: string)
    ensures (exists n :: 0 <= n < |SettledFilters(items, desired)| && SettledFilters(items, desired)[n].enabled
                      && Lower(SettledFilters(items, desired)[n].url) == key)
       <==> exists url :: url in desired && Lower(url) == key
  {
    var settled, added := SettledFilters(items, desired), Added(items, desired);
    AddedFacts(items, desired);
    if n :| 0 <= n < |settled| && settled[n].enabled && Lower(settled[n].url) == key {
      if n < |items| {
        var m :| 0 <= m < |desired| && Lower(desired[m]) == Lower(items[n].url);
        assert desired[m] in desired;
      } else {
        assert settled[n] == added[n - |items|];
      }
    }
    if url :| url in desired && Lower(url) == key {
      if Listed(items, url) {
        var n :| 0 <= n < |items| && Lower(items[n].url) == Lower(url);
        var m :| 0 <= m < |desired| && desired[m] == url;
        assert settled[n].enabled;
      } else {
        var n :| 0 <= n < |added| && added[n].url == url;
        assert settled[|items| + n] == added[n];
      }
    }
  }

  lemma {:induction false} AddedUnique(items: seq<Filter>, desired: seq<string>)
    requires UniqueFolded(desired)
    ensures UniqueUrls(Added(items, desired))
  {
    if desired != [] {
      var before, last := desired[..|desired| - 1], desired[|desired| - 1];
      AddedUnique(items, before);
      AddedFacts(items, before);
      forall n | 0 <= n < |Added(items, before)|
        ensures Lower(Added(items, before)[n].url) != Lower(last)
      {
        var m :| 0 <= m < |before| && before[m] == Added(items, before)[n].url;
        assert Lower(desired[m]) != Lower(desired[|desired| - 1]);
      }
    }
  }

  lemma {:induction false} NothingToAdd(items: seq<Filter>, desired: seq<string>)
    requires forall url :: url in desired ==> Listed(items, url)
    ensures Added(items, desired) == []
  {
    if desired != [] {
      NothingToAdd(items, desired[..|desired| - 1]);
    }
  }

  lemma SettledUnique(items: seq<Filter>, desired: seq<string>)
    requires UniqueUrls(items) && UniqueFolded(desired)
    ensures UniqueUrls(SettledFilters(items, desired))
  {
    hide Lower, Added, Wanted;
    var settled, added := SettledFilters(items, desired), Added(items, desired);
    AddedFacts(items, desired);
    AddedUnique(items, desired);
    forall m, n | 0 <= m < n < |settled|
      ensures Lower(settled[m].url) != Lower(settled[n].url)
    {
      if n >= |items| {
        assert settled[n] == added[n - |items|];
        if m >= |items| {
          assert settled[m] == added[m - |items|];
        } else {
          assert settled[m].url == items[m].url;
        }
      }
    }
  }

  lemma SettledLists(items: seq<Filter>, desired: seq<string>, url: string)
    requires url in desired
    ensures Listed(SettledFilters(items, desired), url)
  {
    hide Lower, Added, Wanted;
    var settled, added := SettledFilters(items, desired), Added(items, desired);
    AddedFacts(items, desired);
    if Listed(items, url) {
      var n :| 0 <= n < |items| && Lower(items[n].url) == Lower(url);
      assert settled[n].url == items[n].url;
    } else {
      var n :| 0 <= n < |added| && added[n].url == url;
      assert settled[|items| + n].url == url;
    }
  }

  lemma SettledSwitches(items: seq<Filter>, desired: seq<string>, n: nat)
    requires n < |SettledFilters(items, desired)|
    ensures var f := SettledFilters(items, desired)[n]; f.enabled == Wanted(desired, f.url)
  {
    hide Lower, Added;
    if n >= |items| {
      AddedFacts(items, desired);
      var f := Added(items, desired)[n - |items|];
      var m :| 0 <= m < |desired| && desired[m] == f.url;
      assert Lower(desired[m]) == Lower(f.url);
    }
  }

  /** A list without missing entries, each switched as wanted, settles to itself. */
  lemma FixedWhenSwitched(items: seq<Filter>, desired: seq<string>)
    requires forall url :: url in desired ==> Listed(items, url)
    requires forall n :: 0 <= n < |items| ==> items[n].enabled == Wanted(desired, items[n].url)
    ensures SettledFilters(items, desired) == items
  {
    hide Lower, Wanted, Listed;
    NothingToAdd(items, desired);
  }

  /** The settled list has unique URLs again and settles to itself, so a second pass sends nothing. */
  lemma FiltersStay(items: seq<Filter>, desired: seq<string>)
    requires UniqueUrls(items) && UniqueFolded(desired)
    ensures var settled := SettledFilters(items, desired);
            UniqueUrls(settled) && SettledFilters(settled, desired) == settled
  {
    hide SettledFilters, Wanted, Listed, UniqueUrls, UniqueFolded;
    var settled := SettledFilters(items, desired);
    SettledUnique(items, desired);
    forall url | url in desired
      ensures Listed(settled, url)
    {
      SettledLists(items, desired, url);
    }
    forall n | 0 <= n < |settled|
      ensures settled[n].enabled == Wanted(desired, settled[n].url)
    {
      SettledSwitches(items, desired, n);
    }
    FixedWhenSwitched(settled, desired);
  }
}
