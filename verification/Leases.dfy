/** Reconciling the DHCP server of a node: its settings and its static leases. */
module Leases {
  import opened Text
  import opened Configuration
  import opened Reconcile

  predicate DhcpConfigurationMatches(current: DhcpStatus, desired: DhcpConfig) {
    && current.enabled == desired.enabled
    && current.interfaceName == desired.interfaceName
    && current.v4 == desired.ipv4
    && current.v6 == desired.ipv6
  }

  function Mac(lease: StaticLease): string {
    Lower(lease.mac)
  }

  /** The same lease up to the case of its MAC address. */
  predicate Matches(a: StaticLease, b: StaticLease) {
    Mac(a) == Mac(b) && a.ip == b.ip && a.hostname == b.hostname
  }

  ghost predicate UniqueMacs(leases: seq<StaticLease>) {
    forall m, n :: 0 <= m < n < |leases| ==> Mac(leases[m]) != Mac(leases[n])
  }

  predicate MatchedIn(leases: seq<StaticLease>, lease: StaticLease) {
    exists n :: 0 <= n < |leases| && Matches(leases[n], lease)
  }

  predicate MacIn(leases: seq<StaticLease>, mac: string) {
    exists n :: 0 <= n < |leases| && Mac(leases[n]) == mac
  }

  function WantedAsIs(desired: seq<StaticLease>): StaticLease -> bool {
    (l: StaticLease) => MatchedIn(desired, l)
  }

  function MissingFrom(current: seq<StaticLease>): StaticLease -> bool {
    (l: StaticLease) => !MatchedIn(current, l)
  }

  /** The leases the loops end with: current ones that are wanted as they are, then the others that are wanted. */
  function SettledLeases(current: seq<StaticLease>, desired: seq<StaticLease>): seq<StaticLease> {
    Keep(current, WantedAsIs(desired)) + Keep(desired, MissingFrom(current))
  }

  /** Outdated: a wanted lease has the same MAC address and differs otherwise. */
  predicate Outdated(desired: seq<StaticLease>, lease: StaticLease) {
    MacIn(desired, Mac(lease)) && !MatchedIn(desired, lease)
  }

  function Stays(desired: seq<StaticLease>, removed: set<string>): StaticLease -> bool {
    (l: StaticLease) => !Outdated(desired, l) && Mac(l) !in removed
  }

  /** After the first i wanted leases, with the leases of the removed addresses gone. */
  ghost function Midway(current: seq<StaticLease>, desired: seq<StaticLease>, i: nat, removed: set<string>): seq<StaticLease>
    requires i <= |desired|
  {
    Keep(current, Stays(desired[..i], removed))
    + Keep(desired[..i], MissingFrom(current))
  }

  lemma MacNext(desired: seq<StaticLease>, i: nat, mac: string)
    requires i < |desired|
    ensures MacIn(desired[..i + 1], mac) <==> MacIn(desired[..i], mac) || Mac(desired[i]) == mac
  {
    var now, next := desired[..i], desired[..i + 1];
    if MacIn(now, mac) {
      var n :| 0 <= n < i && Mac(now[n]) == mac;
      assert Mac(next[n]) == mac;
    }
    if Mac(desired[i]) == mac {
      assert Mac(next[i]) == mac;
    }
  }

  lemma MatchedNext(desired: seq<StaticLease>, i: nat, lease: StaticLease)
    requires i < |desired|
    ensures MatchedIn(desired[..i + 1], lease) <==> MatchedIn(desired[..i], lease) || Matches(desired[i], lease)
  {
    var now, next := desired[..i], desired[..i + 1];
    if MatchedIn(now, lease) {
      var n :| 0 <= n < i && Matches(now[n], lease);
      assert Matches(next[n], lease);
    }
    if Matches(desired[i], lease) {
      assert Matches(next[i], lease);
    }
  }

  /** The next wanted lease makes a lease outdated exactly when it has its address and differs. */
  lemma OutdatedNext(desired: seq<StaticLease>, i: nat, lease: StaticLease)
    requires UniqueMacs(desired) && i < |desired|
    ensures Outdated(desired[..i + 1], lease) <==>
            Outdated(desired[..i], lease) || (Mac(desired[i]) == Mac(lease) && !Matches(desired[i], lease))
  {
    MacNext(desired, i, Mac(lease));
    MatchedNext(desired, i, lease);
    assert Mac(desired[i]) == Mac(lease) ==> !MacIn(desired[..i], Mac(lease));
  }

  lemma AppendedNext(current: seq<StaticLease>, desired: seq<StaticLease>, i: nat)
    requires i < |desired|
    ensures Keep(desired[..i + 1], MissingFrom(current)) ==
            Keep(desired[..i], MissingFrom(current))
            + if MatchedIn(current, desired[i]) then [] else [desired[i]]
  {
    assert desired[..i + 1] == desired[..i] + [desired[i]];
    KeepAppend(desired[..i], [desired[i]], MissingFrom(current));
  }

  /** Dropping a current lease that no wanted lease so far equals drops it from the current part. */
  lemma DropCurrent(current: seq<StaticLease>, desired: seq<StaticLease>, i: nat, lease: StaticLease, p: StaticLease -> bool, r: StaticLease -> bool)
    requires i <= |desired| && !MacIn(desired[..i], Mac(lease))
    requires forall l :: l in current ==> (r(l) <==> p(l) && l != lease)
    ensures var appended := Keep(desired[..i], MissingFrom(current));
            DropLease(Keep(current, p) + appended, lease) == Keep(current, r) + appended
  {
    var q := (l: StaticLease) => l != lease;
    var appended := Keep(desired[..i], MissingFrom(current));
    KeepAppend(Keep(current, p), appended, q);
    KeepKept(current, p, q, r);
    KeepMembers(desired[..i], MissingFrom(current));
    forall l | l in appended
      ensures l != lease
    {
      var n :| 0 <= n < i && desired[..i][n] == l;
      assert Mac(desired[..i][n]) == Mac(l);
    }
    KeepAll(appended, q);
  }

  /** One wanted lease: replaced when its address has another lease, kept when it is there, added when missing. */
  lemma ReplaceStep(current: seq<StaticLease>, desired: seq<StaticLease>, i: nat, previous: StaticLease)
    requires UniqueMacs(current) && UniqueMacs(desired) && i < |desired| && previous in current
    requires Mac(previous) == Mac(desired[i]) && !Matches(previous, desired[i])
    ensures DropLease(Midway(current, desired, i, {}), previous) + [desired[i]] == Midway(current, desired, i + 1, {})
  {
    var p := Stays(desired[..i], {});
    var r := Stays(desired[..i + 1], {});
    forall l | l in current
      ensures r(l) <==> p(l) && l != previous
    {
      OutdatedNext(desired, i, l);
    }
    assert !MacIn(desired[..i], Mac(previous));
    DropCurrent(current, desired, i, previous, p, r);
    AppendedNext(current, desired, i);
    assert !MatchedIn(current, desired[i]);
  }

  lemma KeepStep(current: seq<StaticLease>, desired: seq<StaticLease>, i: nat)
    requires UniqueMacs(current) && UniqueMacs(desired) && i < |desired|
    requires MatchedIn(current, desired[i]) || !MacIn(current, Mac(desired[i]))
    ensures Midway(current, desired, i, {}) + (if MatchedIn(current, desired[i]) then [] else [desired[i]])
            == Midway(current, desired, i + 1, {})
  {
    var p := Stays(desired[..i], {});
    var r := Stays(desired[..i + 1], {});
    forall l | l in current
      ensures r(l) <==> p(l)
    {
      OutdatedNext(desired, i, l);
      if Mac(desired[i]) == Mac(l) {
        var m :| 0 <= m < |current| && current[m] == l;
        assert MacIn(current, Mac(desired[i]));
        var n :| 0 <= n < |current| && Matches(current[n], desired[i]);
        assert n == m;
      }
    }
    KeepSame(current, p, r);
    AppendedNext(current, desired, i);
  }

  /** Removing the lease of an unwanted address. */
  lemma RemoveStep(current: seq<StaticLease>, desired: seq<StaticLease>, removed: set<string>, lease: StaticLease)
    requires UniqueMacs(current) && lease in current && !MacIn(desired, Mac(lease))
    ensures DropLease(Midway(current, desired, |desired|, removed), lease) ==
            Midway(current, desired, |desired|, removed + {Mac(lease)})
  {
    assert desired[..|desired|] == desired;
    var p := Stays(desired, removed);
    var r := Stays(desired, removed + {Mac(lease)});
    DropCurrent(current, desired, |desired|, lease, p, r);
  }

  /** With every unwanted address removed, what is left is the settled list. */
  lemma MidwayEnds(current: seq<StaticLease>, desired: seq<StaticLease>, removed: set<string>)
    ensures Midway(current, desired, 0, {}) == current
    ensures (forall l :: l in current ==> (Mac(l) in removed <==> !MacIn(desired, Mac(l)))) ==>
              Midway(current, desired, |desired|, removed) == SettledLeases(current, desired)
  {
    assert desired[..|desired|] == desired && desired[..0] == [];
    KeepAll(current, Stays(desired[..0], {}));
    if forall l :: l in current ==> (Mac(l) in removed <==> !MacIn(desired, Mac(l))) {
      KeepSame(current, Stays(desired, removed),
               WantedAsIs(desired));
    }
  }

  /** Settled already: what is there is wanted, and what is wanted is there. */
  lemma LeasesSettled(current: seq<StaticLease>, desired: seq<StaticLease>)
    requires SettledLeases(current, desired) == current
    ensures forall l :: l in current ==> MatchedIn(desired, l)
    ensures forall l :: l in desired ==> MatchedIn(current, l)
  {
    KeepMembers(current, WantedAsIs(desired));
    KeepMembers(desired, MissingFrom(current));
    forall l | l in current
      ensures MatchedIn(current, l)
    {
      var n :| 0 <= n < |current| && current[n] == l;
      assert Matches(current[n], l);
    }
    forall l | l in desired
      ensures MatchedIn(current, l)
    {
      assert !MatchedIn(current, l) ==> l in SettledLeases(current, desired);
    }
  }

  /** The index holds a lease of the list under every address it lists. */
  ghost predicate Indexes(byMac: map<string, StaticLease>, current: seq<StaticLease>) {
    forall mac :: mac in byMac ==> byMac[mac] in current && Mac(byMac[mac]) == mac
  }

  method IndexByMac(current: seq<StaticLease>) returns (byMac: map<string, StaticLease>)
    ensures Indexes(byMac, current)
    ensures forall l :: l in current ==> Mac(l) in byMac
  {
    byMac := map[];
    for n := 0 to |current|
      invariant Indexes(byMac, current)
      invariant forall m :: 0 <= m < n ==> Mac(current[m]) in byMac
    {
      byMac := byMac[Mac(current[n]) := current[n]];
    }
  }

  /** Addresses are unique on both sides, and the node still has the leases that were read. */
  ghost predicate Tidy(state: NodeState, current: seq<StaticLease>, desired: seq<StaticLease>) {
    UniqueMacs(current) && UniqueMacs(desired) && state.leases == current
  }

  /** The index still lists exactly the current leases that the first i wanted ones leave alone. */
  ghost predicate Tracks(byMac: map<string, StaticLease>, current: seq<StaticLease>, desired: seq<StaticLease>, i: nat)
    requires i <= |desired|
  {
    Indexes(byMac, current) && forall l :: l in current ==> (Mac(l) in byMac <==> !Outdated(desired[..i], l))
  }

  lemma TracksNext(byMac: map<string, StaticLease>, current: seq<StaticLease>, desired: seq<StaticLease>, i: nat)
    requires UniqueMacs(current) && UniqueMacs(desired) && i < |desired| && Tracks(byMac, current, desired, i)
    ensures var mac := Mac(desired[i]);
            && (mac in byMac <==> MacIn(current, mac))
            && (if mac in byMac && !Matches(byMac[mac], desired[i]) then Tracks(byMac - {mac}, current, desired, i + 1)
                else Tracks(byMac, current, desired, i + 1) && (mac in byMac <==> MatchedIn(current, desired[i])))
  {
    var mac := Mac(desired[i]);
    assert !MacIn(desired[..i], mac);
    forall l | l in current
      ensures Mac(l) == mac ==> mac in byMac && byMac[mac] == l
      ensures Outdated(desired[..i + 1], l) <==>
              Outdated(desired[..i], l) || (Mac(l) == mac && !Matches(byMac[mac], desired[i]))
    {
      OutdatedNext(desired, i, l);
    }
    if MacIn(current, mac) {
      var n :| 0 <= n < |current| && Mac(current[n]) == mac;
      assert current[n] in current;
    }
    if MatchedIn(current, desired[i]) {
      var n :| 0 <= n < |current| && Matches(current[n], desired[i]);
      assert current[n] in current;
    }
    if mac in byMac && Matches(byMac[mac], desired[i]) {
      var n :| 0 <= n < |current| && current[n] == byMac[mac];
      assert Matches(current[n], desired[i]);
    }
  }

  /** Adds and replaces what is wanted; what remains in the index was left alone. */
  method PlaceWanted(node: Node, current: seq<StaticLease>, desired: seq<StaticLease>, index: map<string, StaticLease>)
    returns (ok: bool, byMac: map<string, StaticLease>)
    requires Indexes(index, current) && forall l :: l in current ==> Mac(l) in index
    modifies node
    ensures node.state == old(node.state).(leases := node.state.leases)
    ensures ok && Tidy(old(node.state), current, desired) ==>
              node.state.leases == Midway(current, desired, |desired|, {}) && Tracks(byMac, current, desired, |desired|)
    ensures old(node.rejections) == [] ==> ok && node.rejections == []
    ensures Tidy(old(node.state), current, desired) && SettledLeases(current, desired) == current ==>
              ok && node.sent == old(node.sent)
  {
    hide SettledLeases, Midway, DropLease;
    MidwayEnds(current, desired, {});
    if SettledLeases(current, desired) == current {
      LeasesSettled(current, desired);
    }
    ok, byMac := true, index;
    for i := 0 to |desired|
      invariant ok && node.state == old(node.state).(leases := node.state.leases)
      invariant Tidy(old(node.state), current, desired) ==>
                  node.state.leases == Midway(current, desired, i, {}) && Tracks(byMac, current, desired, i)
      invariant old(node.rejections) == [] ==> node.rejections == []
      invariant Tidy(old(node.state), current, desired) && SettledLeases(current, desired) == current ==>
                  node.sent == old(node.sent)
    {
      ok, byMac := PlaceLease(node, current, desired, i, byMac);
      if !ok {
        return;
      }
    }
  }

  method PlaceLease(node: Node, ghost current: seq<StaticLease>, desired: seq<StaticLease>, i: nat, index: map<string, StaticLease>)
    returns (ok: bool, byMac: map<string, StaticLease>)
    requires i < |desired|
    modifies node
    ensures node.state == old(node.state).(leases := node.state.leases)
    ensures (&& ok && UniqueMacs(current) && UniqueMacs(desired) && Tracks(index, current, desired, i)
             && old(node.state.leases) == Midway(current, desired, i, {}))
            ==> node.state.leases == Midway(current, desired, i + 1, {}) && Tracks(byMac, current, desired, i + 1)
    ensures old(node.rejections) == [] ==> ok && node.rejections == []
    ensures (&& UniqueMacs(current) && UniqueMacs(desired) && Tracks(index, current, desired, i)
             && MatchedIn(current, desired[i]))
            ==> ok && node.sent == old(node.sent)
  {
    hide Midway, DropLease, Tracks, Outdated, UniqueMacs;
    var lease, mac := desired[i], Mac(desired[i]);
    byMac := index;
    if UniqueMacs(current) && UniqueMacs(desired) && Tracks(index, current, desired, i) {
      PlaceFacts(index, current, desired, i);
    }
    if mac in byMac && (byMac[mac].ip != lease.ip || byMac[mac].hostname != lease.hostname) {
      ok := node.Send(RemoveLease(byMac[mac]));
      if !ok {
        return;
      }
      byMac := byMac - {mac};
    }
    ok := true;
    if mac !in byMac {
      ok := node.Send(AddLease(lease));
    }
  }

  /** What each case of placing a lease does to the list. */
  lemma PlaceFacts(index: map<string, StaticLease>, current: seq<StaticLease>, desired: seq<StaticLease>, i: nat)
    requires UniqueMacs(current) && UniqueMacs(desired) && i < |desired| && Tracks(index, current, desired, i)
    ensures var mac, lease, now, next := Mac(desired[i]), desired[i], Midway(current, desired, i, {}), Midway(current, desired, i + 1, {});
            && (mac in index ==> Mac(index[mac]) == mac)
            && (MatchedIn(current, lease) ==> mac in index && Matches(index[mac], lease))
            && (if mac !in index then now + [lease] == next && Tracks(index, current, desired, i + 1)
                else if Matches(index[mac], lease) then now == next && Tracks(index, current, desired, i + 1)
                else DropLease(now, index[mac]) + [lease] == next && Tracks(index - {mac}, current, desired, i + 1))
  {
    hide Midway, DropLease, Outdated;
    var mac := Mac(desired[i]);
    TracksNext(index, current, desired, i);
    if mac in index && !Matches(index[mac], desired[i]) {
      ReplaceStep(current, desired, i, index[mac]);
    } else {
      KeepStep(current, desired, i);
    }
  }

  /** Removes the leases of addresses nobody wants, in any order. */
  method RemoveUnwanted(node: Node, ghost current: seq<StaticLease>, desired: seq<StaticLease>, byMac: map<string, StaticLease>)
    returns (ok: bool)
    modifies node
    ensures node.state == old(node.state).(leases := node.state.leases)
    ensures (&& ok && UniqueMacs(current) && Tracks(byMac, current, desired, |desired|)
             && old(node.state.leases) == Midway(current, desired, |desired|, {}))
            ==> node.state.leases == SettledLeases(current, desired)
    ensures old(node.rejections) == [] ==> ok && node.rejections == []
    ensures (forall mac :: mac in byMac ==> MacIn(desired, mac)) ==> ok && node.sent == old(node.sent)
  {
    hide SettledLeases, Midway, DropLease;
    var targets := set l | l in desired :: Mac(l);
    var left := byMac.Keys;
    ghost var removed: set<string> := {};
    ok := true;
    while left != {}
      invariant ok && left <= byMac.Keys && node.state == old(node.state).(leases := node.state.leases)
      invariant forall mac :: mac in removed <==> mac in byMac.Keys - left && mac !in targets
      invariant (&& UniqueMacs(current) && Tracks(byMac, current, desired, |desired|)
                 && old(node.state.leases) == Midway(current, desired, |desired|, {}))
                ==> node.state.leases == Midway(current, desired, |desired|, removed)
      invariant old(node.rejections) == [] ==> node.rejections == []
      invariant (forall mac :: mac in byMac ==> MacIn(desired, mac)) ==> node.sent == old(node.sent)
    {
      var mac :| mac in left;
      left := left - {mac};
      assert mac in targets <==> MacIn(desired, mac);
      if mac !in targets {
        if UniqueMacs(current) && Tracks(byMac, current, desired, |desired|) {
          RemoveStep(current, desired, removed, byMac[mac]);
        }
        ok := node.Send(RemoveLease(byMac[mac]));
        if !ok {
          return;
        }
        removed := removed + {mac};
      }
    }
    if UniqueMacs(current) && Tracks(byMac, current, desired, |desired|) {
      assert desired[..|desired|] == desired;
      forall l | l in current
        ensures Mac(l) in removed <==> !MacIn(desired, Mac(l))
      {
        assert Mac(l) in targets <==> MacIn(desired, Mac(l));
      }
      MidwayEnds(current, desired, removed);
    }
  }

  function DesiredLeases(desired: DhcpConfig): seq<StaticLease> {
    match desired.staticLeases
    case None => []
    case Some(leases) => leases
  }

  method ReconcileDhcp(node: Node, desired: DhcpConfig) returns (ok: bool)
    modifies node
    ensures node.state == old(node.state).(dhcp := node.state.dhcp, leases := node.state.leases)
    ensures ok ==> DhcpConfigurationMatches(node.state.dhcp, desired)
    ensures node.state.dhcp == old(node.state.dhcp) || DhcpConfigurationMatches(node.state.dhcp, desired)
    ensures ok && UniqueMacs(old(node.state.leases)) && UniqueMacs(DesiredLeases(desired)) ==>
              node.state.leases == SettledLeases(old(node.state.leases), DesiredLeases(desired))
    ensures old(node.rejections) == [] ==> ok && node.rejections == []
    ensures (&& DhcpConfigurationMatches(old(node.state.dhcp), desired)
             && UniqueMacs(old(node.state.leases)) && UniqueMacs(DesiredLeases(desired))
             && SettledLeases(old(node.state.leases), DesiredLeases(desired)) == old(node.state.leases))
            ==> ok && node.sent == old(node.sent)
  {
    hide SettledLeases, Midway, UniqueMacs, Outdated;
    var current, wanted := node.state, DesiredLeases(desired);
    if !DhcpConfigurationMatches(current.dhcp, desired) {
      ok := node.Send(SetDhcp(DhcpStatus(desired.enabled, desired.interfaceName, desired.ipv4, desired.ipv6)));
      if !ok {
        return;
      }
    }
    var byMac := IndexByMac(current.leases);
    ok, byMac := PlaceWanted(node, current.leases, wanted, byMac);
    if !ok {
      return;
    }
    if SettledLeases(current.leases, wanted) == current.leases {
      LeasesSettled(current.leases, wanted);
      StillWanted(byMac, current.leases, wanted);
    }
    ok := RemoveUnwanted(node, current.leases, wanted, byMac);
  }

  lemma StillWanted(byMac: map<string, StaticLease>, current: seq<StaticLease>, desired: seq<StaticLease>)
    requires forall l :: l in current ==> MatchedIn(desired, l)
    ensures Tracks(byMac, current, desired, |desired|) ==> forall mac :: mac in byMac ==> MacIn(desired, mac)
  {
    forall mac | mac in byMac && Indexes(byMac, current)
      ensures MacIn(desired, mac)
    {
      var n :| 0 <= n < |desired| && Matches(desired[n], byMac[mac]);
      assert Mac(desired[n]) == mac;
    }
  }

  /** Up to the case of MAC addresses, the settled leases are the wanted ones. */
  lemma LeasesConverge(current: seq<StaticLease>, desired: seq<StaticLease>, lease: StaticLease)
    ensures MatchedIn(SettledLeases(current, desired), lease) <==> MatchedIn(desired, lease)
  {
    var settled := SettledLeases(current, desired);
    KeepMembers(current, WantedAsIs(desired));
    KeepMembers(desired, MissingFrom(current));
    if MatchedIn(settled, lease) {
      var n :| 0 <= n < |settled| && Matches(settled[n], lease);
      assert settled[n] in settled;
      if settled[n] in Keep(current, WantedAsIs(desired)) {
        var m :| 0 <= m < |desired| && Matches(desired[m], settled[n]);
        assert Matches(desired[m], lease);
      } else {
        var m :| 0 <= m < |desired| && desired[m] == settled[n];
        assert Matches(desired[m], lease);
      }
    }
    if MatchedIn(desired, lease) {
      var m :| 0 <= m < |desired| && Matches(desired[m], lease);
      if MatchedIn(current, desired[m]) {
        var n :| 0 <= n < |current| && Matches(current[n], desired[m]);
        assert Matches(desired[m], current[n]);
        assert current[n] in settled;
        var k :| 0 <= k < |settled| && settled[k] == current[n];
        assert Matches(settled[k], lease);
      } else {
        assert desired[m] in settled;
        var k :| 0 <= k < |settled| && settled[k] == desired[m];
        assert Matches(settled[k], lease);
      }
    }
  }

  /** The settled leases have unique addresses again and settle to themselves, so a second pass sends nothing. */
  lemma LeasesStay(current: seq<StaticLease>, desired: seq<StaticLease>)
    requires UniqueMacs(current) && UniqueMacs(desired)
    ensures var settled := SettledLeases(current, desired);
            UniqueMacs(settled) && SettledLeases(settled, desired) == settled
  {
    hide SettledLeases, UniqueMacs;
    SettledUnique(current, desired);
    SettledMatches(current, desired);
    FixedWhenMatched(SettledLeases(current, desired), desired);
  }

  lemma SettledMatches(current: seq<StaticLease>, desired: seq<StaticLease>)
    ensures forall l :: l in SettledLeases(current, desired) ==> MatchedIn(desired, l)
    ensures forall l :: l in desired ==> MatchedIn(SettledLeases(current, desired), l)
  {
    hide SettledLeases;
    var settled := SettledLeases(current, desired);
    forall l | l in settled
      ensures MatchedIn(desired, l)
    {
      var n :| 0 <= n < |settled| && settled[n] == l;
      assert Matches(settled[n], l);
      LeasesConverge(current, desired, l);
    }
    forall l | l in desired
      ensures MatchedIn(settled, l)
    {
      var n :| 0 <= n < |desired| && desired[n] == l;
      assert Matches(desired[n], l);
      LeasesConverge(current, desired, l);
    }
  }

  lemma FixedWhenMatched(leases: seq<StaticLease>, desired: seq<StaticLease>)
    requires forall l :: l in leases ==> MatchedIn(desired, l)
    requires forall l :: l in desired ==> MatchedIn(leases, l)
    ensures SettledLeases(leases, desired) == leases
  {
    KeepAll(leases, WantedAsIs(desired));
    KeepNone(desired, MissingFrom(leases));
  }

  lemma SettledUnique(current: seq<StaticLease>, desired: seq<StaticLease>)
    requires UniqueMacs(current) && UniqueMacs(desired)
    ensures UniqueMacs(SettledLeases(current, desired))
  {
    var kept, added := Keep(current, WantedAsIs(desired)), Keep(desired, MissingFrom(current));
    assert DistinctBy(current, Mac) && DistinctBy(desired, Mac);
    KeepDistinctBy(current, Mac, WantedAsIs(desired));
    KeepDistinctBy(desired, Mac, MissingFrom(current));
    KeepMembers(current, WantedAsIs(desired));
    KeepMembers(desired, MissingFrom(current));
    forall m, n | 0 <= m < |kept| && 0 <= n < |added|
      ensures Mac(kept[m]) != Mac(added[n])
    {
      assert kept[m] in current && added[n] in desired;
      var i :| 0 <= i < |desired| && Matches(desired[i], kept[m]);
      var j :| 0 <= j < |desired| && desired[j] == added[n];
      var k :| 0 <= k < |current| && current[k] == kept[m];
      assert !Matches(current[k], added[n]);
    }
  }
}