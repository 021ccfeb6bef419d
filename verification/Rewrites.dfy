/** Reconciling the DNS rewrites of a node. */
module Rewrites {
  import opened Text
  import opened Configuration
  import opened Reconcile

  function RewriteKey(r: Rewrite): string {
    Lower(r.domain) + "\U{0000}" + Lower(r.answer)
  }

  ghost predicate UniqueKeys(items: seq<Rewrite>) {
    forall m, n :: 0 <= m < n < |items| ==> RewriteKey(items[m]) != RewriteKey(items[n])
  }

  predicate HasKey(items: seq<Rewrite>, key: string) {
    exists n :: 0 <= n < |items| && RewriteKey(items[n]) == key
  }

  /** The wanted rewrite of a key. */
  function Find(desired: seq<Rewrite>, key: string): Option<Rewrite> {
    if desired == [] then None
    else if RewriteKey(desired[|desired| - 1]) == key then Some(desired[|desired| - 1])
    else Find(desired[..|desired| - 1], key)
  }

  /** A node that can switch rewrites gets the wanted rewrite when the switch differs; otherwise nothing changes. */
  function Updated(desired: seq<Rewrite>, toggles: bool): Rewrite -> Rewrite {
    (r: Rewrite) =>
      var d := Find(desired, RewriteKey(r));
      if toggles && d.Some? && d.value.enabled != r.enabled then d.value else r
  }

  /** A node that cannot switch rewrites has every rewrite on. */
  function Payload(toggles: bool): Rewrite -> Rewrite {
    (r: Rewrite) => if toggles then r else r.(enabled := true)
  }

  function Lacking(current: seq<Rewrite>): Rewrite -> bool {
    (r: Rewrite) => !HasKey(current, RewriteKey(r))
  }

  function KeyWanted(desired: seq<Rewrite>): Rewrite -> bool {
    (r: Rewrite) => HasKey(desired, RewriteKey(r))
  }

  function KeyStays(removed: set<string>): Rewrite -> bool {
    (r: Rewrite) => RewriteKey(r) !in removed
  }

  /** The rewrites the loops end with: wanted current ones, updated, then the missing ones. */
  function SettledRewrites(current: seq<Rewrite>, desired: seq<Rewrite>, toggles: bool): seq<Rewrite> {
    Keep(Map(Updated(desired, toggles), current), KeyWanted(desired))
    + Map(Payload(toggles), Keep(desired, Lacking(current)))
  }

  ghost function Appended(current: seq<Rewrite>, desired: seq<Rewrite>, toggles: bool): seq<Rewrite> {
    Map(Payload(toggles), Keep(desired, Lacking(current)))
  }

  /** After the first i wanted rewrites, with those of the removed keys gone. */
  ghost function Partway(current: seq<Rewrite>, desired: seq<Rewrite>, toggles: bool, i: nat, removed: set<string>): seq<Rewrite>
    requires i <= |desired|
  {
    Keep(Map(Updated(desired[..i], toggles), current), KeyStays(removed)) + Appended(current, desired[..i], toggles)
  }

  lemma {:induction false} FindFacts(desired: seq<Rewrite>, key: string)
    ensures Find(desired, key).Some? <==> HasKey(desired, key)
    ensures Find(desired, key).Some? ==> Find(desired, key).value in desired && RewriteKey(Find(desired, key).value) == key
  {
    hide RewriteKey;
    if desired != [] {
      var before, last := desired[..|desired| - 1], desired[|desired| - 1];
      FindFacts(before, key);
      if HasKey(before, key) {
        var n :| 0 <= n < |before| && RewriteKey(before[n]) == key;
        assert RewriteKey(desired[n]) == key;
      }
      if HasKey(desired, key) && RewriteKey(last) != key {
        var n :| 0 <= n < |desired| && RewriteKey(desired[n]) == key;
        assert RewriteKey(before[n]) == key;
      }
    }
  }

  lemma FindUnique(desired: seq<Rewrite>, d: Rewrite)
    requires UniqueKeys(desired) && d in desired
    ensures Find(desired, RewriteKey(d)) == Some(d)
  {
    hide RewriteKey, Find;
    FindFacts(desired, RewriteKey(d));
    var n :| 0 <= n < |desired| && desired[n] == d;
    assert RewriteKey(desired[n]) == RewriteKey(d);
    var found := Find(desired, RewriteKey(d)).value;
    var m :| 0 <= m < |desired| && desired[m] == found;
    assert m == n;
  }

  lemma UpdatedKey(desired: seq<Rewrite>, toggles: bool, r: Rewrite)
    ensures RewriteKey(Updated(desired, toggles)(r)) == RewriteKey(r)
    ensures !HasKey(desired, RewriteKey(r)) ==> Updated(desired, toggles)(r) == r
  {
    FindFacts(desired, RewriteKey(r));
  }

  lemma FindNext(desired: seq<Rewrite>, i: nat, key: string)
    requires i < |desired|
    ensures Find(desired[..i + 1], key) == if RewriteKey(desired[i]) == key then Some(desired[i]) else Find(desired[..i], key)
  {
    assert desired[..i + 1][..i] == desired[..i];
  }

  lemma AppendedNext(current: seq<Rewrite>, desired: seq<Rewrite>, toggles: bool, i: nat)
    requires i < |desired|
    ensures Appended(current, desired[..i + 1], toggles) ==
            Appended(current, desired[..i], toggles)
            + if HasKey(current, RewriteKey(desired[i])) then [] else [Payload(toggles)(desired[i])]
  {
    assert desired[..i + 1] == desired[..i] + [desired[i]];
    KeepAppend(desired[..i], [desired[i]], Lacking(current));
    var last := Keep([desired[i]], Lacking(current));
    MapAppend(Payload(toggles), Keep(desired[..i], Lacking(current)), last);
  }

  /** Appended rewrites have keys that are wanted and that the node did not have. */
  lemma AppendedFacts(current: seq<Rewrite>, desired: seq<Rewrite>, toggles: bool)
    ensures forall r :: r in Appended(current, desired, toggles) ==>
              HasKey(desired, RewriteKey(r)) && !HasKey(current, RewriteKey(r))
  {
    var kept := Keep(desired, Lacking(current));
    KeepMembers(desired, Lacking(current));
    forall r | r in Appended(current, desired, toggles)
      ensures HasKey(desired, RewriteKey(r)) && !HasKey(current, RewriteKey(r))
    {
      var n :| 0 <= n < |kept| && r == Payload(toggles)(kept[n]);
      assert kept[n] in kept;
      var m :| 0 <= m < |desired| && desired[m] == kept[n];
      assert RewriteKey(desired[m]) == RewriteKey(r);
    }
  }

  lemma KeepEverything(s: seq<Rewrite>)
    ensures Keep(s, KeyStays({})) == s
  {
    KeepAll(s, KeyStays({}));
  }

  /** A wanted rewrite the node lacks. */
  lemma AddStep(current: seq<Rewrite>, desired: seq<Rewrite>, toggles: bool, i: nat)
    requires i < |desired| && !HasKey(current, RewriteKey(desired[i]))
    ensures Partway(current, desired, toggles, i, {}) + [Payload(toggles)(desired[i])] == Partway(current, desired, toggles, i + 1, {})
  {
    AppendedNext(current, desired, toggles, i);
    var now, next := Map(Updated(desired[..i], toggles), current), Map(Updated(desired[..i + 1], toggles), current);
    forall n | 0 <= n < |current|
      ensures next[n] == now[n]
    {
      FindNext(desired, i, RewriteKey(current[n]));
    }
    assert now == next;
  }

  /** A wanted rewrite the node has as entry k: updated in place if the node's switch differs. */
  lemma UpdateStep(current: seq<Rewrite>, desired: seq<Rewrite>, toggles: bool, i: nat, k: nat)
    requires UniqueKeys(current) && UniqueKeys(desired) && i < |desired| && k < |current|
    requires RewriteKey(current[k]) == RewriteKey(desired[i])
    ensures Partway(current, desired, toggles, i + 1, {}) ==
            if toggles && current[k].enabled != desired[i].enabled
            then ReplaceRewrite(Partway(current, desired, toggles, i, {}), current[k], desired[i])
            else Partway(current, desired, toggles, i, {})
  {
    hide RewriteKey, Find, ReplaceRewrite, Keep;
    var now, next := Map(Updated(desired[..i], toggles), current), Map(Updated(desired[..i + 1], toggles), current);
    var appended := Appended(current, desired[..i], toggles);
    AppendedNext(current, desired, toggles, i);
    assert HasKey(current, RewriteKey(desired[i]));
    KeepEverything(now);
    KeepEverything(next);
    assert !HasKey(desired[..i], RewriteKey(desired[i]));
    UpdatedKey(desired[..i], toggles, current[k]);
    FindNext(desired, i, RewriteKey(current[k]));
    assert now[k] == current[k];
    forall n | 0 <= n < |current| && n != k
      ensures next[n] == now[n] && RewriteKey(now[n]) != RewriteKey(current[k])
    {
      FindNext(desired, i, RewriteKey(current[n]));
      UpdatedKey(desired[..i], toggles, current[n]);
    }
    if toggles && current[k].enabled != desired[i].enabled {
      assert next == now[k := desired[i]];
      ReplaceOne(now, appended, k, current[k], desired[i]) by {
        AppendedFacts(current, desired[..i], toggles);
        assert forall r :: r in appended ==> RewriteKey(r) != RewriteKey(current[k]);
      }
    } else {
      assert next == now;
    }
  }

  lemma SameKey(a: Rewrite, b: Rewrite)
    ensures SameRewrite(a, b) ==> RewriteKey(a) == RewriteKey(b)
  {
  }

  lemma ReplaceOne(now: seq<Rewrite>, appended: seq<Rewrite>, k: nat, target: Rewrite, update: Rewrite)
    requires k < |now| && now[k] == target
    requires forall n :: 0 <= n < |now| && n != k ==> RewriteKey(now[n]) != RewriteKey(target)
    requires forall r :: r in appended ==> RewriteKey(r) != RewriteKey(target)
    ensures ReplaceRewrite(now + appended, target, update) == now[k := update] + appended
  {
    hide RewriteKey;
    var list := now + appended;
    forall n | 0 <= n < |list|
      ensures ReplaceRewrite(list, target, update)[n] == (now[k := update] + appended)[n]
    {
      SameKey(list[n], target);
      if n >= |now| {
        assert list[n] == appended[n - |now|];
        assert list[n] in appended;
      }
    }
  }

  /** Removing entry j, whose key nobody wants. */
  lemma DeleteStep(current: seq<Rewrite>, desired: seq<Rewrite>, toggles: bool, j: nat, removed: set<string>)
    requires UniqueKeys(current) && j < |current| && !HasKey(desired, RewriteKey(current[j]))
    ensures DropRewrite(Partway(current, desired, toggles, |desired|, removed), current[j]) ==
            Partway(current, desired, toggles, |desired|, removed + {RewriteKey(current[j])})
  {
    assert desired[..|desired|] == desired;
    var target := current[j];
    var q := (r: Rewrite) => !SameRewrite(r, target);
    var list, appended := Map(Updated(desired, toggles), current), Appended(current, desired, toggles);
    KeepAppend(Keep(list, KeyStays(removed)), appended, q);
    forall r | r in list
      ensures KeyStays(removed + {RewriteKey(target)})(r) <==> KeyStays(removed)(r) && q(r)
    {
      var n :| 0 <= n < |current| && r == Updated(desired, toggles)(current[n]);
      UpdatedKey(desired, toggles, current[n]);
      assert RewriteKey(r) == RewriteKey(target) ==> n == j;
    }
    KeepKept(list, KeyStays(removed), q, KeyStays(removed + {RewriteKey(target)}));
    AppendedFacts(current, desired, toggles);
    KeepAll(appended, q);
  }

  /** Before the first wanted rewrite nothing has changed. */
  lemma PartwayStarts(current: seq<Rewrite>, desired: seq<Rewrite>, toggles: bool)
    ensures Partway(current, desired, toggles, 0, {}) == current
  {
    hide RewriteKey;
    assert desired[..0] == [];
    KeepEverything(Map(Updated(desired[..0], toggles), current));
  }

  /** After the last one, with exactly the unwanted keys removed, the list is settled. */
  lemma PartwayEnds(current: seq<Rewrite>, desired: seq<Rewrite>, toggles: bool, removed: set<string>)
    requires forall r :: r in current ==> (RewriteKey(r) in removed <==> !HasKey(desired, RewriteKey(r)))
    ensures Partway(current, desired, toggles, |desired|, removed) == SettledRewrites(current, desired, toggles)
  {
    hide RewriteKey, HasKey, Updated, Keep;
    assert desired[..|desired|] == desired;
    var list := Map(Updated(desired, toggles), current);
    forall r | r in list
      ensures KeyStays(removed)(r) <==> KeyWanted(desired)(r)
    {
      var n :| 0 <= n < |current| && r == Updated(desired, toggles)(current[n]);
      UpdatedKey(desired, toggles, current[n]);
      assert current[n] in current;
    }
    KeepSame(list, KeyStays(removed), KeyWanted(desired));
  }

  // The loops.

  /** The index holds an entry of the list under every key it lists. */
  ghost predicate Indexes(existing: map<string, Rewrite>, current: seq<Rewrite>) {
    && (forall key :: key in existing ==> existing[key] in current && RewriteKey(existing[key]) == key)
    && (forall r :: r in current ==> RewriteKey(r) in existing)
  }

  method IndexByKey(current: seq<Rewrite>) returns (existing: map<string, Rewrite>)
    ensures Indexes(existing, current)
  {
    hide RewriteKey;
    existing := map[];
    for n := 0 to |current|
      invariant forall key :: key in existing ==> existing[key] in current && RewriteKey(existing[key]) == key
      invariant forall m :: 0 <= m < n ==> RewriteKey(current[m]) in existing
    {
      existing := existing[RewriteKey(current[n]) := current[n]];
    }
  }

  ghost predicate Settled(current: seq<Rewrite>, desired: seq<Rewrite>, toggles: bool) {
    UniqueKeys(current) && UniqueKeys(desired) && SettledRewrites(current, desired, toggles) == current
  }

  /** Settled already: the same keys on both sides, and the same switches if the node has them. */
  lemma AlreadySettled(current: seq<Rewrite>, desired: seq<Rewrite>, toggles: bool)
    requires Settled(current, desired, toggles)
    ensures forall r :: r in current ==> HasKey(desired, RewriteKey(r))
    ensures forall d :: d in desired ==> HasKey(current, RewriteKey(d))
    ensures toggles ==> forall r, d :: r in current && d in desired && RewriteKey(r) == RewriteKey(d) ==> r.enabled == d.enabled
  {
    hide RewriteKey, Find, HasKey, SettledRewrites, UniqueKeys;
    forall r | r in current
      ensures HasKey(desired, RewriteKey(r))
    {
      OfCurrent(current, desired, toggles, r);
    }
    forall d | d in desired
      ensures HasKey(current, RewriteKey(d))
    {
      LackingAppended(current, desired, toggles, d);
    }
    if toggles {
      forall r, d | r in current && d in desired && RewriteKey(r) == RewriteKey(d)
        ensures r.enabled == d.enabled
      {
        OfCurrent(current, desired, toggles, r);
        FindUnique(desired, d);
      }
    }
  }

  /** An entry both current and settled is wanted and needs no update. */
  lemma OfCurrent(current: seq<Rewrite>, desired: seq<Rewrite>, toggles: bool, r: Rewrite)
    requires UniqueKeys(current) && r in current && r in SettledRewrites(current, desired, toggles)
    ensures HasKey(desired, RewriteKey(r)) && Updated(desired, toggles)(r) == r
  {
    hide RewriteKey, Find;
    var list, appended := Map(Updated(desired, toggles), current), Appended(current, desired, toggles);
    KeepMembers(list, KeyWanted(desired));
    AppendedFacts(current, desired, toggles);
    var m :| 0 <= m < |current| && current[m] == r;
    assert RewriteKey(current[m]) == RewriteKey(r);
    assert r in list;
    var n :| 0 <= n < |current| && r == Updated(desired, toggles)(current[n]);
    UpdatedKey(desired, toggles, current[n]);
    assert m == n;
  }

  /** A wanted rewrite the node lacks shows up in the settled list under its key. */
  lemma LackingAppended(current: seq<Rewrite>, desired: seq<Rewrite>, toggles: bool, d: Rewrite)
    requires d in desired
    ensures var settled := SettledRewrites(current, desired, toggles);
            HasKey(current, RewriteKey(d)) || (Payload(toggles)(d) in settled && HasKey(settled, RewriteKey(d)))
  {
    var settled := SettledRewrites(current, desired, toggles);
    KeepMembers(desired, Lacking(current));
    var kept := Keep(desired, Lacking(current));
    if !HasKey(current, RewriteKey(d)) {
      var n :| 0 <= n < |kept| && kept[n] == d;
      assert Map(Payload(toggles), kept)[n] == Payload(toggles)(d);
      assert Payload(toggles)(d) in settled;
      var m :| 0 <= m < |settled| && settled[m] == Payload(toggles)(d);
      assert RewriteKey(settled[m]) == RewriteKey(d);
    }
  }

  /** Adds and updates what is wanted. */
  method PlaceWanted(node: Node, current: seq<Rewrite>, desired: seq<Rewrite>, toggles: bool) returns (ok: bool)
    modifies node
    ensures node.state == old(node.state).(rewrites := node.state.rewrites)
    ensures ok && UniqueKeys(current) && UniqueKeys(desired) && old(node.state.rewrites) == current ==>
              node.state.rewrites == Partway(current, desired, toggles, |desired|, {})
    ensures old(node.rejections) == [] ==> ok && node.rejections == []
    ensures Settled(current, desired, toggles) ==> ok && node.sent == old(node.sent)
  {
    hide SettledRewrites, Partway, RewriteKey, ReplaceRewrite, UniqueKeys, Settled;
    PartwayStarts(current, desired, toggles);
    var existing := IndexByKey(current);
    ok := true;
    for i := 0 to |desired|
      invariant ok && node.state == old(node.state).(rewrites := node.state.rewrites)
      invariant UniqueKeys(current) && UniqueKeys(desired) && old(node.state.rewrites) == current ==>
                  node.state.rewrites == Partway(current, desired, toggles, i, {})
      invariant old(node.rejections) == [] ==> node.rejections == []
      invariant Settled(current, desired, toggles) ==> node.sent == old(node.sent)
    {
      ok := PlaceRewrite(node, current, existing, desired, i, toggles);
      if !ok {
        return;
      }
    }
  }

  method PlaceRewrite(node: Node, ghost current: seq<Rewrite>, existing: map<string, Rewrite>, desired: seq<Rewrite>, i: nat, toggles: bool)
    returns (ok: bool)
    requires i < |desired| && Indexes(existing, current)
    modifies node
    ensures node.state == old(node.state).(rewrites := node.state.rewrites)
    ensures (&& ok && UniqueKeys(current) && UniqueKeys(desired)
             && old(node.state.rewrites) == Partway(current, desired, toggles, i, {}))
            ==> node.state.rewrites == Partway(current, desired, toggles, i + 1, {})
    ensures old(node.rejections) == [] ==> ok && node.rejections == []
    ensures Settled(current, desired, toggles) ==> ok && node.sent == old(node.sent)
  {
    hide SettledRewrites, Partway, RewriteKey, ReplaceRewrite, UniqueKeys, Settled;
    var item, key := desired[i], RewriteKey(desired[i]);
    Indexed(existing, current, key);
    if Settled(current, desired, toggles) {
      AlreadySettled(current, desired, toggles);
    }
    ok := true;
    if key !in existing {
      AddStep(current, desired, toggles, i);
      ok := node.Send(AddRewrite(if toggles then item else item.(enabled := true)));
    } else {
      ghost var k :| 0 <= k < |current| && current[k] == existing[key];
      if UniqueKeys(current) && UniqueKeys(desired) {
        UpdateStep(current, desired, toggles, i, k);
      }
      if toggles && existing[key].enabled != item.enabled {
        ok := node.Send(UpdateRewrite(existing[key], item));
      }
    }
  }

  lemma Indexed(existing: map<string, Rewrite>, current: seq<Rewrite>, key: string)
    requires Indexes(existing, current)
    ensures key in existing <==> HasKey(current, key)
  {
    hide RewriteKey;
    if key in existing {
      var n :| 0 <= n < |current| && current[n] == existing[key];
      assert RewriteKey(current[n]) == key;
    }
    if HasKey(current, key) {
      var n :| 0 <= n < |current| && RewriteKey(current[n]) == key;
      assert current[n] in current;
    }
  }

  /** Deletes what nobody wants. */
  method DeleteUnwanted(node: Node, current: seq<Rewrite>, desired: seq<Rewrite>, toggles: bool) returns (ok: bool)
    modifies node
    ensures node.state == old(node.state).(rewrites := node.state.rewrites)
    ensures ok && UniqueKeys(current) && old(node.state.rewrites) == Partway(current, desired, toggles, |desired|, {}) ==>
              node.state.rewrites == SettledRewrites(current, desired, toggles)
    ensures old(node.rejections) == [] ==> ok && node.rejections == []
    ensures (forall r :: r in current ==> HasKey(desired, RewriteKey(r))) ==> ok && node.sent == old(node.sent)
  {
    hide SettledRewrites, Partway, RewriteKey, DropRewrite, UniqueKeys;
    var targets := set d | d in desired :: RewriteKey(d);
    TargetKeys(desired, targets);
    ghost var removed: set<string> := {};
    ok := true;
    for j := 0 to |current|
      invariant ok && node.state == old(node.state).(rewrites := node.state.rewrites)
      invariant forall n :: 0 <= n < j && RewriteKey(current[n]) !in targets ==> RewriteKey(current[n]) in removed
      invariant removed !! targets
      invariant UniqueKeys(current) && old(node.state.rewrites) == Partway(current, desired, toggles, |desired|, {}) ==>
                  node.state.rewrites == Partway(current, desired, toggles, |desired|, removed)
      invariant old(node.rejections) == [] ==> node.rejections == []
      invariant (forall r :: r in current ==> HasKey(desired, RewriteKey(r))) ==> node.sent == old(node.sent)
    {
      if RewriteKey(current[j]) !in targets {
        if UniqueKeys(current) {
          DeleteStep(current, desired, toggles, j, removed);
        }
        ok := node.Send(DeleteRewrite(current[j]));
        if !ok {
          return;
        }
        removed := removed + {RewriteKey(current[j])};
      }
    }
    PartwayEnds(current, desired, toggles, removed);
  }

  lemma TargetKeys(desired: seq<Rewrite>, targets: set<string>)
    requires targets == set d | d in desired :: RewriteKey(d)
    ensures forall key :: key in targets <==> HasKey(desired, key)
  {
    hide RewriteKey;
    forall key
      ensures key in targets <==> HasKey(desired, key)
    {
      if HasKey(desired, key) {
        var n :| 0 <= n < |desired| && RewriteKey(desired[n]) == key;
        assert desired[n] in desired;
      }
    }
  }

  /** The node's rewrites. The switch for rewriting as a whole is sent whenever the node has one. */
  method ReconcileRewrites(node: Node, enabled: bool, desired: seq<Rewrite>, toggles: bool) returns (ok: bool)
    modifies node
    ensures node.state == old(node.state).(rewrites := node.state.rewrites, rewritesEnabled := node.state.rewritesEnabled)
    ensures if ok && toggles then node.state.rewritesEnabled == enabled
            else !toggles ==> node.state.rewritesEnabled == old(node.state.rewritesEnabled)
    ensures ok && UniqueKeys(old(node.state.rewrites)) && UniqueKeys(desired) ==>
              node.state.rewrites == SettledRewrites(old(node.state.rewrites), desired, toggles)
    ensures old(node.rejections) == [] ==> ok && node.rejections == []
    ensures Settled(old(node.state.rewrites), desired, toggles) ==>
              node.sent == old(node.sent) + if toggles then [SetRewriting(enabled)] else []
  {
    hide SettledRewrites, Partway, RewriteKey, UniqueKeys, Settled;
    var current := node.state.rewrites;
    if toggles {
      ok := node.Send(SetRewriting(enabled));
      if !ok {
        return;
      }
    }
    ok := PlaceWanted(node, current, desired, toggles);
    if !ok {
      return;
    }
    if Settled(current, desired, toggles) {
      AlreadySettled(current, desired, toggles);
    }
    ok := DeleteUnwanted(node, current, desired, toggles);
  }

  // What the settled list means.

  ghost predicate HasSwitched(items: seq<Rewrite>, key: string, on: bool) {
    exists r :: r in items && RewriteKey(r) == key && r.enabled == on
  }

  /** On a node that can switch rewrites, the settled keys and their switches are the wanted ones. */
  lemma RewritesConverge(current: seq<Rewrite>, desired: seq<Rewrite>, key: string, on: bool)
    requires UniqueKeys(desired)
    ensures HasSwitched(SettledRewrites(current, desired, true), key, on) <==> HasSwitched(desired, key, on)
  {
    hide RewriteKey, Find, SettledRewrites, UniqueKeys;
    var settled := SettledRewrites(current, desired, true);
    if HasSwitched(settled, key, on) {
      var r :| r in settled && RewriteKey(r) == key && r.enabled == on;
      SettledUpdated(current, desired, true, r);
      FindFacts(desired, key);
    }
    if HasSwitched(desired, key, on) {
      var d :| d in desired && RewriteKey(d) == key && d.enabled == on;
      SettledHas(current, desired, true, d);
      var n :| 0 <= n < |settled| && RewriteKey(settled[n]) == key;
      SettledUpdated(current, desired, true, settled[n]);
      FindUnique(desired, d);
    }
  }

  /** Keys agree exactly when domain and answer agree up to case, as long as no domain contains the separator. */
  lemma KeyFolds(a: Rewrite, b: Rewrite)
    requires '\U{0000}' !in a.domain && '\U{0000}' !in b.domain
    ensures RewriteKey(a) == RewriteKey(b) <==> Lower(a.domain) == Lower(b.domain) && Lower(a.answer) == Lower(b.answer)
  {
    LowerFacts(a.domain);
    LowerFacts(b.domain);
    var x, y := Lower(a.domain), Lower(b.domain);
    if RewriteKey(a) == RewriteKey(b) {
      var key := RewriteKey(a);
      assert key[|x|] == '\U{0000}' && key[|y|] == '\U{0000}';
      assert |x| == |y|;
      assert x == key[..|x|] && y == key[..|y|];
      assert Lower(a.answer) == key[|x| + 1..] && Lower(b.answer) == key[|y| + 1..];
    }
  }

  lemma SettledUnique(current: seq<Rewrite>, desired: seq<Rewrite>, toggles: bool)
    requires UniqueKeys(current) && UniqueKeys(desired)
    ensures UniqueKeys(SettledRewrites(current, desired, toggles))
  {
    hide RewriteKey, Find;
    var list := Map(Updated(desired, toggles), current);
    forall n | 0 <= n < |current|
      ensures RewriteKey(list[n]) == RewriteKey(current[n])
    {
      UpdatedKey(desired, toggles, current[n]);
    }
    assert DistinctBy(list, RewriteKey) && DistinctBy(desired, RewriteKey);
    KeepDistinctBy(list, RewriteKey, KeyWanted(desired));
    KeepDistinctBy(desired, RewriteKey, Lacking(current));
    var kept, added := Keep(list, KeyWanted(desired)), Keep(desired, Lacking(current));
    var appended := Appended(current, desired, toggles);
    forall n | 0 <= n < |added|
      ensures RewriteKey(appended[n]) == RewriteKey(added[n])
    {
      PayloadKey(toggles, added[n]);
    }
    AppendedFacts(current, desired, toggles);
    KeepMembers(list, KeyWanted(desired));
    forall m, n | 0 <= m < |kept| && 0 <= n < |appended|
      ensures RewriteKey(kept[m]) != RewriteKey(appended[n])
    {
      assert kept[m] in list;
      var k :| 0 <= k < |list| && list[k] == kept[m];
      assert RewriteKey(current[k]) == RewriteKey(kept[m]);
      assert appended[n] in appended;
    }
  }

  lemma PayloadKey(toggles: bool, r: Rewrite)
    ensures RewriteKey(Payload(toggles)(r)) == RewriteKey(r)
  {
  }

  /** Entries of the settled list need no further update. */
  lemma SettledUpdated(current: seq<Rewrite>, desired: seq<Rewrite>, toggles: bool, r: Rewrite)
    requires UniqueKeys(desired) && r in SettledRewrites(current, desired, toggles)
    ensures Updated(desired, toggles)(r) == r && HasKey(desired, RewriteKey(r))
  {
    hide RewriteKey, Find;
    var list := Map(Updated(desired, toggles), current);
    KeepMembers(list, KeyWanted(desired));
    AppendedFacts(current, desired, toggles);
    FindFacts(desired, RewriteKey(r));
    if toggles {
      KeepMembers(desired, Lacking(current));
      if r in list {
        var n :| 0 <= n < |current| && r == Updated(desired, toggles)(current[n]);
        UpdatedKey(desired, toggles, current[n]);
      } else {
        assert r in desired;
        FindUnique(desired, r);
      }
    }
  }

  /** The settled list has unique keys again and settles to itself, so a second pass changes no rewrite. */
  lemma RewritesStay(current: seq<Rewrite>, desired: seq<Rewrite>, toggles: bool)
    requires UniqueKeys(current) && UniqueKeys(desired)
    ensures Settled(SettledRewrites(current, desired, toggles), desired, toggles)
  {
    hide RewriteKey, Find, SettledRewrites, HasKey, UniqueKeys;
    var settled := SettledRewrites(current, desired, toggles);
    SettledUnique(current, desired, toggles);
    forall r | r in settled
      ensures Updated(desired, toggles)(r) == r && HasKey(desired, RewriteKey(r))
    {
      SettledUpdated(current, desired, toggles, r);
    }
    forall d | d in desired
      ensures HasKey(settled, RewriteKey(d))
    {
      SettledHas(current, desired, toggles, d);
    }
    FixedWhenMatched(settled, desired, toggles);
  }

  lemma SettledHas(current: seq<Rewrite>, desired: seq<Rewrite>, toggles: bool, d: Rewrite)
    requires d in desired
    ensures HasKey(SettledRewrites(current, desired, toggles), RewriteKey(d))
  {
    hide RewriteKey, Find;
    var settled, list := SettledRewrites(current, desired, toggles), Map(Updated(desired, toggles), current);
    LackingAppended(current, desired, toggles, d);
    if HasKey(current, RewriteKey(d)) {
      var n :| 0 <= n < |current| && RewriteKey(current[n]) == RewriteKey(d);
      UpdatedKey(desired, toggles, current[n]);
      KeepMembers(list, KeyWanted(desired));
      var m :| 0 <= m < |desired| && desired[m] == d;
      assert RewriteKey(desired[m]) == RewriteKey(d);
      assert list[n] in settled;
      var k :| 0 <= k < |settled| && settled[k] == list[n];
      assert RewriteKey(settled[k]) == RewriteKey(d);
    }
  }

  lemma FixedWhenMatched(items: seq<Rewrite>, desired: seq<Rewrite>, toggles: bool)
    requires forall r :: r in items ==> Updated(desired, toggles)(r) == r && HasKey(desired, RewriteKey(r))
    requires forall d :: d in desired ==> HasKey(items, RewriteKey(d))
    ensures SettledRewrites(items, desired, toggles) == items
  {
    hide RewriteKey, Find, Updated;
    var list := Map(Updated(desired, toggles), items);
    assert list == items;
    KeepAll(items, KeyWanted(desired));
    KeepNone(desired, Lacking(items));
  }
}
