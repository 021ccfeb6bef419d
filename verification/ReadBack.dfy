/** Reading a node back after a pass: what the reader reports of filter lists, rewrites and leases, and exactly when
    the report agrees with the wanted configuration. */
module ReadBack {
  import opened Text
  import opened Clean
  import opened Configuration
  import opened Diff
  import opened Reconcile
  import opened Rewrites
  import opened Leases
  import opened Applying
  import Protocol

  // Text that matches up to case.

  lemma FoldTrimmed(s: string, t: string)
    requires Lower(s) == Lower(t) && Trimmed(t)
    ensures Trimmed(s) && Trim(s) == s && |s| == |t|
  {
    hide IsSpace, Lower, Trim;
    LowerFacts(s);
    LowerFacts(t);
    if s != [] {
      SameSpace(s[0], t[0]);
      SameSpace(s[|s| - 1], t[|t| - 1]);
    }
    TrimTrims(s);
  }

  lemma SameSpace(c: char, d: char)
    requires LowerChar(c) == LowerChar(d)
    ensures IsSpace(c) <==> IsSpace(d)
  {
    hide IsSpace;
    SpaceFolds(c);
    SpaceFolds(d);
  }

  lemma SpaceFolds(c: char)
    ensures IsSpace(LowerChar(c)) <==> IsSpace(c)
  {
  }

  lemma {:induction false} TrimLeftLength(s: string)
    ensures |TrimLeft(s)| <= |s|
    ensures |TrimLeft(s)| == |s| ==> TrimLeft(s) == s
  {
    if s != [] {
      TrimLeftLength(s[1..]);
    }
  }

  /** Trimming shortens whatever it changes. */
  lemma TrimLength(s: string)
    ensures |Trim(s)| <= |s|
    ensures |Trim(s)| == |s| ==> Trim(s) == s
  {
    TrimLeftLength(s);
    TrimRightFacts(TrimLeft(s));
  }

  // Filter lists.

  function UrlOf(f: Filter): string {
    f.url
  }

  function IsOn(f: Filter): bool {
    f.enabled
  }

  /** The reader collects the URLs of enabled filters as they are. */
  function EnabledUrls(items: seq<Filter>): seq<string> {
    Map(UrlOf, Keep(items, IsOn))
  }

  /** No listed filter has the folded key of a wanted URL with other text. */
  ghost predicate SameText(items: seq<Filter>, desired: seq<string>) {
    forall n, url :: 0 <= n < |items| && url in desired && Lower(items[n].url) == Lower(url) ==> items[n].url == url
  }

  lemma EnabledMembers(items: seq<Filter>, x: string)
    ensures x in EnabledUrls(items) <==> exists n :: 0 <= n < |items| && items[n].enabled && items[n].url == x
  {
    var kept := Keep(items, IsOn);
    KeepMembers(items, IsOn);
    if x in EnabledUrls(items) {
      var k :| 0 <= k < |kept| && EnabledUrls(items)[k] == x;
      assert kept[k] in kept;
      var n :| 0 <= n < |items| && items[n] == kept[k];
    }
    if n :| 0 <= n < |items| && items[n].enabled && items[n].url == x {
      assert items[n] in kept;
      var k :| 0 <= k < |kept| && kept[k] == items[n];
      assert EnabledUrls(items)[k] == x;
    }
  }

  /** What is enabled after a pass: listed URLs that are wanted, with the text they had, and missing ones as wanted. */
  lemma SettledMembers(items: seq<Filter>, desired: seq<string>, x: string)
    ensures x in EnabledUrls(SettledFilters(items, desired)) <==>
            || (exists n :: 0 <= n < |items| && items[n].url == x && Wanted(desired, x))
            || (x in desired && !Listed(items, x))
  {
    hide Lower, Wanted, Listed;
    var settled, added := SettledFilters(items, desired), Added(items, desired);
    EnabledMembers(settled, x);
    AddedFacts(items, desired);
    if n :| 0 <= n < |settled| && settled[n].enabled && settled[n].url == x {
      if n < |items| {
        assert items[n].url == x;
      } else {
        assert settled[n] == added[n - |items|];
      }
    }
    if n :| 0 <= n < |items| && items[n].url == x && Wanted(desired, x) {
      assert settled[n].enabled && settled[n].url == x;
    }
    if x in desired && !Listed(items, x) {
      var n :| 0 <= n < |added| && added[n].url == x;
      assert settled[|items| + n] == added[n];
    }
  }

  /** What is enabled after a pass has the folded key of a wanted URL, and is trimmed as that is. */
  lemma SettledTrimmed(items: seq<Filter>, desired: seq<string>, x: string)
    requires Clean.Clean(desired) && x in EnabledUrls(SettledFilters(items, desired))
    ensures Trim(x) == x && x != "" && exists m :: 0 <= m < |desired| && Lower(desired[m]) == Lower(x)
  {
    hide Lower, Trim, Trimmed, Listed;
    SettledMembers(items, desired, x);
    if x in desired {
      var m :| 0 <= m < |desired| && desired[m] == x;
      assert Lower(desired[m]) == Lower(x);
    }
    var m :| 0 <= m < |desired| && Lower(desired[m]) == Lower(x);
    FoldTrimmed(x, desired[m]);
  }

  lemma SettledNoTwins(items: seq<Filter>, desired: seq<string>)
    requires UniqueUrls(items) && Clean.Clean(desired)
    ensures NoCaseTwins(EnabledUrls(SettledFilters(items, desired)))
  {
    hide Lower, Trim, Trimmed, SettledFilters;
    var settled := SettledFilters(items, desired);
    Reconcile.SettledUnique(items, desired);
    forall v, w | v in EnabledUrls(settled) && w in EnabledUrls(settled) && Lower(Trim(v)) == Lower(Trim(w))
      ensures Trim(v) == Trim(w)
    {
      SettledTrimmed(items, desired, v);
      SettledTrimmed(items, desired, w);
      EnabledMembers(settled, v);
      EnabledMembers(settled, w);
      var m :| 0 <= m < |settled| && settled[m].url == v;
      var n :| 0 <= n < |settled| && settled[n].url == w;
      assert m == n;
    }
  }

  /** After a pass the canonical report of a filter list is the wanted list if and only if no listed filter had the
      folded key of a wanted URL with other text. */
  lemma FiltersReadBack(items: seq<Filter>, desired: seq<string>)
    requires UniqueUrls(items) && CleanSet(desired) == desired
    ensures CleanSet(EnabledUrls(SettledFilters(items, desired))) == desired <==> SameText(items, desired)
  {
    hide SameText, SettledFilters, EnabledUrls, CleanSet, NoCaseTwins, Clean.Clean, UniqueUrls;
    FixedIsClean(desired);
    SettledNoTwins(items, desired);
    if SameText(items, desired) {
      SameReport(items, desired);
    }
    if CleanSet(EnabledUrls(SettledFilters(items, desired))) == desired {
      TextsReported(items, desired);
    }
  }

  lemma FixedIsClean(desired: seq<string>)
    requires CleanSet(desired) == desired
    ensures Clean.Clean(desired)
  {
    hide CleanSet, Clean.Clean, FoldedSet;
    CleanSetFacts(desired);
  }

  lemma TextsReported(items: seq<Filter>, desired: seq<string>)
    requires Clean.Clean(desired) && NoCaseTwins(EnabledUrls(SettledFilters(items, desired)))
    requires CleanSet(EnabledUrls(SettledFilters(items, desired))) == desired
    ensures SameText(items, desired)
  {
    hide Lower, SettledFilters, EnabledUrls, CleanSet, NoCaseTwins, Clean.Clean;
    forall n, url | 0 <= n < |items| && url in desired && Lower(items[n].url) == Lower(url)
      ensures items[n].url == url
    {
      TextReported(items, desired, n, url);
    }
  }

  lemma SameReport(items: seq<Filter>, desired: seq<string>)
    requires SameText(items, desired) && NoCaseTwins(EnabledUrls(SettledFilters(items, desired)))
    ensures CleanSet(EnabledUrls(SettledFilters(items, desired))) == CleanSet(desired)
  {
    hide Lower, SettledFilters, EnabledUrls, CleanSet, SameText, NoCaseTwins;
    var urls := EnabledUrls(SettledFilters(items, desired));
    forall x
      ensures x in urls <==> x in desired
    {
      SameMembers(items, desired, x);
    }
    CleanSetOrderIrrelevant(urls, desired);
  }

  lemma SameMembers(items: seq<Filter>, desired: seq<string>, x: string)
    requires SameText(items, desired)
    ensures x in EnabledUrls(SettledFilters(items, desired)) <==> x in desired
  {
    hide Lower, SettledFilters, EnabledUrls;
    SettledMembers(items, desired, x);
    if n :| 0 <= n < |items| && items[n].url == x && Wanted(desired, x) {
      var m :| 0 <= m < |desired| && Lower(desired[m]) == Lower(x);
      assert desired[m] in desired;
    }
    if x in desired && Listed(items, x) {
      var n :| 0 <= n < |items| && Lower(items[n].url) == Lower(x);
      assert items[n].url == x;
      var m :| 0 <= m < |desired| && desired[m] == x;
      assert Lower(desired[m]) == Lower(x);
    }
  }

  /** A listed filter with the key of a wanted URL is reported with its own text. */
  lemma TextReported(items: seq<Filter>, desired: seq<string>, n: nat, url: string)
    requires Clean.Clean(desired) && NoCaseTwins(EnabledUrls(SettledFilters(items, desired)))
    requires CleanSet(EnabledUrls(SettledFilters(items, desired))) == desired
    requires n < |items| && url in desired && Lower(items[n].url) == Lower(url)
    ensures items[n].url == url
  {
    hide Lower, Trim, Trimmed, SettledFilters, EnabledUrls, CleanSet, NoCaseTwins;
    var x, urls := items[n].url, EnabledUrls(SettledFilters(items, desired));
    var m :| 0 <= m < |desired| && desired[m] == url;
    assert Wanted(desired, x);
    SettledMembers(items, desired, x);
    SettledTrimmed(items, desired, x);
    CleanSetElements(urls, x);
    assert x in desired;
    var k :| 0 <= k < |desired| && desired[k] == x;
    assert k == m;
  }

  // Rewrites.

  /** The reader reports a rewrite as it is, and as on when the node does not say. */
  function ReportedRewrites(items: seq<Rewrite>, toggles: bool): seq<Rewrite> {
    Map(Payload(toggles), items)
  }

  /** No current rewrite has the key of a wanted one with other text, unless its switch differs and is written; and
      a node without the toggle is wanted to have every rewrite on. */
  ghost predicate RewritesVerifiable(current: seq<Rewrite>, desired: seq<Rewrite>, toggles: bool) {
    && (forall r, d :: r in current && d in desired && RewriteKey(r) == RewriteKey(d) ==>
          SameRewrite(r, d) || (toggles && r.enabled != d.enabled))
    && (!toggles ==> forall d :: d in desired ==> d.enabled)
  }

  /** x is what the report says under the key of the wanted rewrite d. */
  ghost predicate Reports(current: seq<Rewrite>, desired: seq<Rewrite>, toggles: bool, d: Rewrite, x: Rewrite) {
    && RewriteKey(x) == RewriteKey(d)
    && (forall r :: r in current && RewriteKey(r) == RewriteKey(d) ==> x == Payload(toggles)(Updated(desired, toggles)(r)))
    && (!HasKey(current, RewriteKey(d)) ==> x == Payload(toggles)(d))
  }

  ghost function Report(current: seq<Rewrite>, desired: seq<Rewrite>, toggles: bool): seq<Rewrite> {
    ReportedRewrites(SettledRewrites(current, desired, toggles), toggles)
  }

  lemma KeptMember(current: seq<Rewrite>, desired: seq<Rewrite>, toggles: bool, n: nat)
    requires n < |current| && HasKey(desired, RewriteKey(current[n]))
    ensures Updated(desired, toggles)(current[n]) in SettledRewrites(current, desired, toggles)
  {
    hide RewriteKey, Find, HasKey;
    var list := Map(Updated(desired, toggles), current);
    UpdatedKey(desired, toggles, current[n]);
    KeepMembers(list, KeyWanted(desired));
    assert list[n] in list && KeyWanted(desired)(list[n]);
  }

  lemma ReportedMember(settled: seq<Rewrite>, toggles: bool, y: Rewrite)
    requires y in settled
    ensures Payload(toggles)(y) in ReportedRewrites(settled, toggles)
  {
    var k :| 0 <= k < |settled| && settled[k] == y;
    assert ReportedRewrites(settled, toggles)[k] == Payload(toggles)(y);
  }

  lemma ReportMember(current: seq<Rewrite>, desired: seq<Rewrite>, toggles: bool, d: Rewrite) returns (x: Rewrite)
    requires UniqueKeys(current) && d in desired
    ensures x in Report(current, desired, toggles) && Reports(current, desired, toggles, d, x)
  {
    hide RewriteKey, Find, SettledRewrites, ReportedRewrites, Updated, UniqueKeys;
    var settled := SettledRewrites(current, desired, toggles);
    PayloadKey(toggles, d);
    if HasKey(current, RewriteKey(d)) {
      var n :| 0 <= n < |current| && RewriteKey(current[n]) == RewriteKey(d);
      var m :| 0 <= m < |desired| && desired[m] == d;
      assert RewriteKey(desired[m]) == RewriteKey(d);
      KeptMember(current, desired, toggles, n);
      var y := Updated(desired, toggles)(current[n]);
      UpdatedKey(desired, toggles, current[n]);
      PayloadKey(toggles, y);
      ReportedMember(settled, toggles, y);
      x := Payload(toggles)(y);
      forall r | r in current && RewriteKey(r) == RewriteKey(d)
        ensures r == current[n]
      {
        SameKeySame(current, r, current[n]);
      }
    } else {
      LackingAppended(current, desired, toggles, d);
      ReportedMember(settled, toggles, Payload(toggles)(d));
      x := Payload(toggles)(d);
      NoneUnder(current, RewriteKey(d));
    }
  }

  lemma NoneUnder(items: seq<Rewrite>, key: string)
    requires !HasKey(items, key)
    ensures forall r :: r in items ==> RewriteKey(r) != key
  {
    hide RewriteKey;
  }

  /** Every reported rewrite has the key of a wanted one, and no two have the same. */
  lemma ReportKeys(current: seq<Rewrite>, desired: seq<Rewrite>, toggles: bool)
    requires UniqueKeys(current) && UniqueKeys(desired)
    ensures UniqueKeys(Report(current, desired, toggles))
    ensures forall x :: x in Report(current, desired, toggles) ==> HasKey(desired, RewriteKey(x))
  {
    hide RewriteKey, Find, SettledRewrites, Updated;
    var settled, report := SettledRewrites(current, desired, toggles), Report(current, desired, toggles);
    Rewrites.SettledUnique(current, desired, toggles);
    forall n | 0 <= n < |report|
      ensures RewriteKey(report[n]) == RewriteKey(settled[n]) && HasKey(desired, RewriteKey(report[n]))
    {
      PayloadKey(toggles, settled[n]);
      SettledUpdated(current, desired, toggles, settled[n]);
    }
  }

  lemma SameKeySame(items: seq<Rewrite>, x: Rewrite, y: Rewrite)
    requires UniqueKeys(items) && x in items && y in items && RewriteKey(x) == RewriteKey(y)
    ensures x == y
  {
    hide RewriteKey;
    var m :| 0 <= m < |items| && items[m] == x;
    var n :| 0 <= n < |items| && items[n] == y;
    assert m == n;
  }

  /** Under the condition, the report of a wanted rewrite is that rewrite; and the condition is what that takes. */
  lemma ReportWanted(current: seq<Rewrite>, desired: seq<Rewrite>, toggles: bool, d: Rewrite, x: Rewrite)
    requires UniqueKeys(desired) && d in desired && Reports(current, desired, toggles, d, x)
    ensures RewritesVerifiable(current, desired, toggles) ==> x == d
    ensures x == d ==> (forall r :: r in current && RewriteKey(r) == RewriteKey(d) ==>
                          SameRewrite(r, d) || (toggles && r.enabled != d.enabled)) && (!toggles ==> d.enabled)
  {
    hide RewriteKey, Find;
    FindUnique(desired, d);
    if HasKey(current, RewriteKey(d)) {
      var n :| 0 <= n < |current| && RewriteKey(current[n]) == RewriteKey(d);
      assert current[n] in current;
    }
  }

  /** The wanted list is in canonical order and each rewrite in canonical form. */
  ghost predicate CanonicalRewrites(desired: seq<Rewrite>) {
    Sort(Map(CanonicalRewrite, desired), RewriteOrder) == desired
  }

  lemma CanonicalRewriteFixed(desired: seq<Rewrite>)
    requires CanonicalRewrites(desired)
    ensures Sorted(desired, RewriteOrder)
    ensures forall d :: d in desired ==> CanonicalRewrite(d) == d
  {
    hide Trim;
    var mapped := Map(CanonicalRewrite, desired);
    SortSorts(mapped, RewriteOrder);
    forall d | d in desired
      ensures CanonicalRewrite(d) == d
    {
      assert d in mapped;
      var n :| 0 <= n < |mapped| && mapped[n] == d;
      TrimTrims(desired[n].domain);
      TrimTrims(desired[n].answer);
    }
  }

  lemma OrderDistinct(items: seq<Rewrite>)
    requires UniqueKeys(items)
    ensures DistinctBy(items, RewriteOrder)
  {
    forall i, j | 0 <= i < j < |items|
      ensures RewriteOrder(items[i]) != RewriteOrder(items[j])
    {
      assert RewriteKey(items[i]) != RewriteKey(items[j]);
      assert RewriteOrder(items[i])[0] == Lower(items[i].domain) && RewriteOrder(items[j])[0] == Lower(items[j].domain);
      assert RewriteOrder(items[i])[1] == Lower(items[i].answer) && RewriteOrder(items[j])[1] == Lower(items[j].answer);
    }
  }

  lemma RewritesSuffice(current: seq<Rewrite>, desired: seq<Rewrite>, toggles: bool)
    requires UniqueKeys(current) && UniqueKeys(desired) && CanonicalRewrites(desired)
    requires RewritesVerifiable(current, desired, toggles)
    ensures Sort(Map(CanonicalRewrite, Report(current, desired, toggles)), RewriteOrder) == desired
  {
    hide RewriteKey, Report, Reports, RewritesVerifiable, Trim;
    var report := Report(current, desired, toggles);
    ReportKeys(current, desired, toggles);
    CanonicalRewriteFixed(desired);
    forall d | d in desired
      ensures d in report
    {
      var x := ReportMember(current, desired, toggles, d);
      ReportWanted(current, desired, toggles, d, x);
    }
    forall x | x in report
      ensures x in desired
    {
      var n :| 0 <= n < |desired| && RewriteKey(desired[n]) == RewriteKey(x);
      assert desired[n] in report;
      SameKeySame(report, x, desired[n]);
    }
    assert Map(CanonicalRewrite, report) == report;
    OrderDistinct(report);
    OrderDistinct(desired);
    SortedElements(report, desired, RewriteOrder);
  }

  /** Trimming shortens the key of a rewrite it changes. */
  lemma KeyShrinks(r: Rewrite)
    ensures |RewriteKey(r)| == |r.domain| + 1 + |r.answer|
    ensures CanonicalRewrite(r) == r || |RewriteKey(CanonicalRewrite(r))| < |RewriteKey(r)|
  {
    hide Lower, Trim;
    LowerFacts(r.domain);
    LowerFacts(r.answer);
    LowerFacts(Trim(r.domain));
    LowerFacts(Trim(r.answer));
    TrimLength(r.domain);
    TrimLength(r.answer);
  }

  /** A report whose canonical form is the wanted list was canonical already: a rewrite that trimming changes would
      need one with a longer key that trimming changes too. */
  lemma {:induction false} NothingTrimmed(report: seq<Rewrite>, desired: seq<Rewrite>, x: Rewrite, bound: nat)
    requires UniqueKeys(report) && x in report && |RewriteKey(x)| <= bound
    requires forall y :: y in report ==> HasKey(desired, RewriteKey(y)) && |RewriteKey(y)| <= bound
    requires forall d :: d in desired ==> exists y :: y in report && CanonicalRewrite(y) == d
    ensures CanonicalRewrite(x) == x
    decreases bound - |RewriteKey(x)|
  {
    hide RewriteKey, CanonicalRewrite;
    if CanonicalRewrite(x) != x {
      var n :| 0 <= n < |desired| && RewriteKey(desired[n]) == RewriteKey(x);
      assert desired[n] in desired;
      var y :| y in report && CanonicalRewrite(y) == desired[n];
      KeyShrinks(y);
      if CanonicalRewrite(y) == y {
        SameKeySame(report, x, y);
      } else {
        NothingTrimmed(report, desired, y, bound);
      }
    }
  }

  lemma {:induction false} KeyBound(items: seq<Rewrite>) returns (bound: nat)
    ensures forall r :: r in items ==> |RewriteKey(r)| <= bound
  {
    hide RewriteKey;
    bound := 0;
    if items != [] {
      bound := KeyBound(items[1..]);
      if |RewriteKey(items[0])| > bound {
        bound := |RewriteKey(items[0])|;
      }
    }
  }

  /** The members of a canonical list are the canonical forms of the members. */
  lemma CanonicalMembers(items: seq<Rewrite>, desired: seq<Rewrite>)
    requires Sort(Map(CanonicalRewrite, items), RewriteOrder) == desired
    ensures forall x :: x in items ==> CanonicalRewrite(x) in desired
    ensures forall d :: d in desired ==> exists x :: x in items && CanonicalRewrite(x) == d
  {
    hide CanonicalRewrite, RewriteOrder, Sort;
    var mapped := Map(CanonicalRewrite, items);
    SortSorts(mapped, RewriteOrder);
    forall x | x in items
      ensures CanonicalRewrite(x) in desired
    {
      var n :| 0 <= n < |items| && items[n] == x;
      assert mapped[n] == CanonicalRewrite(x);
    }
    forall d | d in desired
      ensures exists x :: x in items && CanonicalRewrite(x) == d
    {
      var n :| 0 <= n < |mapped| && mapped[n] == d;
      assert items[n] in items;
    }
  }

  lemma RewritesNeed(current: seq<Rewrite>, desired: seq<Rewrite>, toggles: bool)
    requires UniqueKeys(current) && UniqueKeys(desired)
    requires Sort(Map(CanonicalRewrite, Report(current, desired, toggles)), RewriteOrder) == desired
    ensures RewritesVerifiable(current, desired, toggles)
  {
    hide RewriteKey, Report, Reports, CanonicalRewrite, RewriteOrder, Sort, Map, UniqueKeys, HasKey;
    var report := Report(current, desired, toggles);
    ReportKeys(current, desired, toggles);
    CanonicalMembers(report, desired);
    var bound := KeyBound(report);
    forall d | d in desired
      ensures (forall r :: r in current && RewriteKey(r) == RewriteKey(d) ==>
                 SameRewrite(r, d) || (toggles && r.enabled != d.enabled)) && (!toggles ==> d.enabled)
    {
      var x := ReportMember(current, desired, toggles, d);
      ReportsKey(current, desired, toggles, d, x);
      NothingTrimmed(report, desired, x, bound);
      SameKeySame(desired, x, d);
      ReportWanted(current, desired, toggles, d, x);
    }
  }

  lemma ReportsKey(current: seq<Rewrite>, desired: seq<Rewrite>, toggles: bool, d: Rewrite, x: Rewrite)
    requires Reports(current, desired, toggles, d, x)
    ensures RewriteKey(x) == RewriteKey(d)
  {
    hide RewriteKey, Updated;
  }

  /** After a pass the canonical report of the rewrites is the wanted list if and only if the condition held before. */
  lemma RewritesReadBack(current: seq<Rewrite>, desired: seq<Rewrite>, toggles: bool)
    requires UniqueKeys(current) && UniqueKeys(desired) && CanonicalRewrites(desired)
    ensures Sort(Map(CanonicalRewrite, Report(current, desired, toggles)), RewriteOrder) == desired
       <==> RewritesVerifiable(current, desired, toggles)
  {
    hide Report, RewritesVerifiable, Sort, Map, UniqueKeys, CanonicalRewrites;
    if RewritesVerifiable(current, desired, toggles) {
      RewritesSuffice(current, desired, toggles);
    }
    if Sort(Map(CanonicalRewrite, Report(current, desired, toggles)), RewriteOrder) == desired {
      RewritesNeed(current, desired, toggles);
    }
  }

  // Leases.

  ghost predicate CanonicalLeases(desired: seq<StaticLease>) {
    Sort(Map(CanonicalLease, desired), LeaseKey) == desired
  }

  lemma CanonicalLeaseFixed(desired: seq<StaticLease>)
    requires CanonicalLeases(desired)
    ensures Sorted(desired, LeaseKey)
    ensures forall d :: d in desired ==> CanonicalLease(d) == d
  {
    hide Trim, Lower;
    var mapped := Map(CanonicalLease, desired);
    SortSorts(mapped, LeaseKey);
    forall d | d in desired
      ensures CanonicalLease(d) == d
    {
      assert d in mapped;
      var n :| 0 <= n < |mapped| && mapped[n] == d;
      CanonicalLeaseIdempotent(desired[n]);
    }
  }

  /** A lease that matches a canonical one has it as its canonical form. */
  lemma MatchCanonical(l: StaticLease, d: StaticLease)
    requires Matches(d, l) && CanonicalLease(d) == d
    ensures CanonicalLease(l) == d
  {
    hide Trim, Lower, Trimmed;
    TrimTrims(d.mac);
    LowerTrimmed(Trim(d.mac));
    LowerFacts(Trim(d.mac));
    FoldTrimmed(l.mac, d.mac);
  }

  /** After a pass the canonical report of the leases is the wanted list, whatever the node had. */
  lemma LeasesReadBack(current: seq<StaticLease>, desired: seq<StaticLease>)
    requires UniqueMacs(current) && UniqueMacs(desired) && CanonicalLeases(desired)
    ensures Sort(Map(CanonicalLease, SettledLeases(current, desired)), LeaseKey) == desired
  {
    hide Trim, Lower, SettledLeases, CanonicalLease, Sort, CanonicalLeases;
    var settled := SettledLeases(current, desired);
    var mapped := Map(CanonicalLease, settled);
    Leases.SettledUnique(current, desired);
    SettledMatches(current, desired);
    CanonicalLeaseFixed(desired);
    forall n | 0 <= n < |settled|
      ensures mapped[n] in desired && LeaseKey(mapped[n]) == [Mac(settled[n])]
    {
      LeaseReported(desired, settled[n]);
    }
    forall d | d in desired
      ensures d in mapped
    {
      var n :| 0 <= n < |settled| && Matches(settled[n], d);
      MatchCanonical(settled[n], d);
      assert mapped[n] == d;
    }
    assert DistinctBy(mapped, LeaseKey);
    LeasesDistinct(desired);
    SortedElements(mapped, desired, LeaseKey);
  }

  lemma LeaseReported(desired: seq<StaticLease>, l: StaticLease)
    requires MatchedIn(desired, l) && forall d :: d in desired ==> CanonicalLease(d) == d
    ensures CanonicalLease(l) in desired && LeaseKey(CanonicalLease(l)) == [Mac(l)]
  {
    hide Trim, Lower, CanonicalLease;
    var n :| 0 <= n < |desired| && Matches(desired[n], l);
    MatchCanonical(l, desired[n]);
    assert desired[n] in desired;
    LowerMac(desired[n]);
  }

  lemma LowerMac(d: StaticLease)
    requires CanonicalLease(d) == d
    ensures Mac(d) == d.mac
  {
    hide Trim, Lower;
    LowerFacts(Trim(d.mac));
  }

  lemma LeasesDistinct(desired: seq<StaticLease>)
    requires UniqueMacs(desired) && forall d :: d in desired ==> CanonicalLease(d) == d
    ensures DistinctBy(desired, LeaseKey)
  {
    hide CanonicalLease, Lower;
    forall i, j | 0 <= i < j < |desired|
      ensures LeaseKey(desired[i]) != LeaseKey(desired[j])
    {
      LowerMac(desired[i]);
      LowerMac(desired[j]);
      assert LeaseKey(desired[i])[0] == desired[i].mac && LeaseKey(desired[j])[0] == desired[j].mac;
    }
  }

  // The whole read-back.

  /** What the reader makes of a node; `rest` supplies everything this model does not keep. */
  function Observed(state: NodeState, rest: Document, toggles: bool, dhcpSupported: bool): Document {
    rest.(
      shared := rest.shared.(
        filtering := rest.shared.filtering.(
          filterUrls := EnabledUrls(state.filters), whitelistUrls := EnabledUrls(state.whitelist)),
        rewritesEnabled := state.rewritesEnabled,
        rewrites := Some(ReportedRewrites(state.rewrites, toggles))),
      nodeSpecific := rest.nodeSpecific.(dhcp := if dhcpSupported then Some(ObservedDhcp(state)) else None))
  }

  function ObservedDhcp(state: NodeState): DhcpConfig {
    DhcpConfig(state.dhcp.enabled, state.dhcp.interfaceName, state.dhcp.v4, state.dhcp.v6, Some(state.leases))
  }

  /** Reading fails on a node without the rewriting switch: there the switch is not optional. */
  function ReadNode(state: NodeState, rest: Document, toggles: bool, dhcpSupported: bool): Option<Document> {
    if toggles then Some(Observed(state, rest, toggles, dhcpSupported)) else None
  }

  /** The condition before the call: texts agree where keys do, no list is nil, the switch is there, and the node
      has a DHCP server exactly if one is configured. */
  ghost predicate Verifiable(before: NodeState, desired: Document, toggles: bool, dhcpSupported: bool) {
    && toggles
    && SameText(before.filters, desired.shared.filtering.filterUrls)
    && SameText(before.whitelist, desired.shared.filtering.whitelistUrls)
    && desired.shared.rewrites.Some? && RewritesVerifiable(before.rewrites, desired.shared.rewrites.value, toggles)
    && (dhcpSupported <==> desired.nodeSpecific.dhcp.Some?)
    && (desired.nodeSpecific.dhcp.Some? ==> desired.nodeSpecific.dhcp.value.staticLeases.Some?)
  }

  /** Everything else that is read back is as wanted. */
  ghost predicate RestAgrees(desired: Document, rest: Document) {
    RestShared(desired.shared, rest.shared)
    && CleanSet(rest.nodeSpecific.bindHosts) == desired.nodeSpecific.bindHosts
    && rest.nodeSpecific.dnsPort == desired.nodeSpecific.dnsPort
  }

  ghost predicate RestShared(desired: Shared, rest: Shared) {
    var c := CanonicalShared(rest);
    c.(filtering := c.filtering.(filterUrls := desired.filtering.filterUrls, whitelistUrls := desired.filtering.whitelistUrls),
       rewritesEnabled := desired.rewritesEnabled, rewrites := desired.rewrites) == desired
  }

  lemma SharedParts(desired: Shared, rest: Shared, state: NodeState, toggles: bool)
    ensures var observed := rest.(
              filtering := rest.filtering.(
                filterUrls := EnabledUrls(state.filters), whitelistUrls := EnabledUrls(state.whitelist)),
              rewritesEnabled := state.rewritesEnabled, rewrites := Some(ReportedRewrites(state.rewrites, toggles)));
            CanonicalShared(observed) == desired <==>
              && RestShared(desired, rest)
              && CleanSet(EnabledUrls(state.filters)) == desired.filtering.filterUrls
              && CleanSet(EnabledUrls(state.whitelist)) == desired.filtering.whitelistUrls
              && state.rewritesEnabled == desired.rewritesEnabled
              && Some(Sort(Map(CanonicalRewrite, ReportedRewrites(state.rewrites, toggles)), RewriteOrder)) == desired.rewrites
  {
    hide CleanSet, CleanOrdered, EnabledUrls, ReportedRewrites, Sort, Map, Trim, CanonicalDns, CanonicalServices, CanonicalClient;
  }

  /** Verification compares canonical shared and node-specific parts. */
  lemma CleanExactly(document: Document, observed: Document)
    requires Canonicalise(document).schemaVersion >= SCHEMA_VERSION
    ensures var desired := Canonicalise(document);
            ManagedDifferences(desired, ProjectDocument(observed)) == [] <==>
              CanonicalShared(observed.shared) == desired.shared && CanonicalNode(observed.nodeSpecific) == desired.nodeSpecific
  {
    hide ManagedDifferences, CanonicalShared, CanonicalNode, CanonicalUnsupported, CanonicalObserved;
    ManagedExact(Canonicalise(document), ProjectDocument(observed));
    CanonicaliseIdempotent(document);
    CanonicalSharedIdempotent(observed.shared);
    CanonicalNodeIdempotent(observed.nodeSpecific);
  }

  /** The lists of a canonical document are fixed by canonical form. */
  lemma CanonicalLists(document: Document)
    ensures var desired := Canonicalise(document);
            && CleanSet(desired.shared.filtering.filterUrls) == desired.shared.filtering.filterUrls
            && CleanSet(desired.shared.filtering.whitelistUrls) == desired.shared.filtering.whitelistUrls
            && (desired.shared.rewrites.Some? ==> CanonicalRewrites(desired.shared.rewrites.value))
            && (desired.nodeSpecific.dhcp.Some? ==>
                  && Trim(desired.nodeSpecific.dhcp.value.interfaceName) == desired.nodeSpecific.dhcp.value.interfaceName
                  && (desired.nodeSpecific.dhcp.value.staticLeases.Some? ==>
                        CanonicalLeases(desired.nodeSpecific.dhcp.value.staticLeases.value)))
  {
    hide CleanSet, CleanOrdered, Sort, Map, Trim, CanonicalDns, CanonicalServices, CanonicalClient, CanonicalLease, CanonicalRewrite;
    CleanSetIdempotent(document.shared.filtering.filterUrls);
    CleanSetIdempotent(document.shared.filtering.whitelistUrls);
    CanonicalRewritesIdempotent(document.shared.rewrites);
    CanonicalNodeIdempotent(document.nodeSpecific);
  }

  /** The shared half, after a pass. */
  lemma SharedVerified(before: NodeState, document: Document, rest: Document)
    requires Unambiguous(before) && Validated(Canonicalise(document))
    ensures var desired := Canonicalise(document);
            var after := SettledState(before, desired, true);
            CanonicalShared(Observed(after, rest, true, desired.nodeSpecific.dhcp.Some?).shared) == desired.shared <==>
              && RestShared(desired.shared, rest.shared)
              && SameText(before.filters, desired.shared.filtering.filterUrls)
              && SameText(before.whitelist, desired.shared.filtering.whitelistUrls)
              && desired.shared.rewrites.Some? && RewritesVerifiable(before.rewrites, desired.shared.rewrites.value, true)
  {
    hide CanonicalShared, Canonicalise, SettledFilters, SettledRewrites, SettledLeases, SameText, RewritesVerifiable, RestShared,
         EnabledUrls, CleanSet, Sort, Map, CanonicalRewrites, UniqueUrls, UniqueKeys, UniqueMacs, ReportedRewrites;
    var desired := Canonicalise(document);
    SharedParts(desired.shared, rest.shared, SettledState(before, desired, true), true);
    CanonicalLists(document);
    FiltersReadBack(before.filters, desired.shared.filtering.filterUrls);
    FiltersReadBack(before.whitelist, desired.shared.filtering.whitelistUrls);
    if desired.shared.rewrites.Some? {
      RewritesReadBack(before.rewrites, desired.shared.rewrites.value, true);
    }
  }

  /** The node-specific half, after a pass. */
  lemma NodeVerified(before: NodeState, document: Document, rest: Document, dhcpSupported: bool)
    requires Unambiguous(before) && Validated(Canonicalise(document))
    ensures var desired := Canonicalise(document);
            var after := SettledState(before, desired, true);
            CanonicalNode(Observed(after, rest, true, dhcpSupported).nodeSpecific) == desired.nodeSpecific <==>
              && CleanSet(rest.nodeSpecific.bindHosts) == desired.nodeSpecific.bindHosts
              && rest.nodeSpecific.dnsPort == desired.nodeSpecific.dnsPort
              && (dhcpSupported <==> desired.nodeSpecific.dhcp.Some?)
              && (desired.nodeSpecific.dhcp.Some? ==> desired.nodeSpecific.dhcp.value.staticLeases.Some?)
  {
    hide Canonicalise, SettledFilters, SettledRewrites, SettledLeases, EnabledUrls, CleanSet, Sort, Map, CanonicalLeases, CanonicalLease,
         UniqueUrls, UniqueKeys, UniqueMacs, ReportedRewrites, Trim;
    var desired := Canonicalise(document);
    CanonicalLists(document);
    if desired.nodeSpecific.dhcp.Some? && desired.nodeSpecific.dhcp.value.staticLeases.Some? {
      LeasesReadBack(before.leases, desired.nodeSpecific.dhcp.value.staticLeases.value);
    }
  }

  /** After a pass in which nothing is rejected, a read-back succeeds without managed differences if and only if the
      condition held before the call and everything else is read back as wanted. */
  lemma VerifiedExactly(before: NodeState, document: Document, rest: Document, toggles: bool, dhcpSupported: bool)
    requires Unambiguous(before) && Validated(Canonicalise(document)) && Canonicalise(document).schemaVersion >= SCHEMA_VERSION
    ensures var desired := Canonicalise(document);
            var observed := ReadNode(SettledState(before, desired, toggles), rest, toggles, dhcpSupported);
            observed.Some? && ManagedDifferences(desired, ProjectDocument(observed.value)) == [] <==>
              Verifiable(before, desired, toggles, dhcpSupported) && RestAgrees(desired, rest)
  {
    hide CanonicalShared, CanonicalNode, Canonicalise, ManagedDifferences, ProjectDocument, SettledState, Unambiguous, Validated,
         SameText, RewritesVerifiable, RestShared, CleanSet, EnabledUrls, ReportedRewrites, ObservedDhcp;
    if toggles {
      var after := SettledState(before, Canonicalise(document), true);
      CleanExactly(document, Observed(after, rest, true, dhcpSupported));
      SharedVerified(before, document, rest);
      NodeVerified(before, document, rest, dhcpSupported);
    }
  }

  /** The same for the intent a deployment rolls out: what the executor's verification will find. */
  lemma IntentVerifiedExactly(intent: DesiredDocument, nodeId: string, before: NodeState, rest: Document, dhcpSupported: bool)
    requires Effective(intent, nodeId).Some? && Effective(intent, nodeId).value.schemaVersion >= SCHEMA_VERSION
    requires Unambiguous(before) && Validated(Effective(intent, nodeId).value)
    ensures var effective := Effective(intent, nodeId).value;
            var observed := Observed(SettledState(before, effective, true), rest, true, dhcpSupported);
            Protocol.ReadBackClean(intent, nodeId, observed) <==>
              Verifiable(before, effective, true, dhcpSupported) && RestAgrees(effective, rest)
  {
    hide Effective, ManagedDifferences, ProjectDocument, SettledState, Unambiguous, Validated, Verifiable, RestAgrees, Observed;
    EffectiveCanonical(intent, nodeId);
    VerifiedExactly(before, Effective(intent, nodeId).value, rest, true, dhcpSupported);
  }

  lemma EffectiveCanonical(intent: DesiredDocument, nodeId: string)
    requires Effective(intent, nodeId).Some?
    ensures Canonicalise(Effective(intent, nodeId).value) == Effective(intent, nodeId).value
  {
    hide Canonicalise;
    var canonical := CanonicaliseDesired(intent);
    CanonicaliseIdempotent(Document(canonical.schemaVersion, canonical.shared, canonical.nodeOverrides[nodeId], ZERO_OBSERVED, canonical.unsupported));
  }

  /** Apply, then verify: with nothing rejected, verification succeeds exactly under the condition on the state before. */
  method ApplyThenVerify(node: Node, document: Document, rest: Document, toggles: bool, dhcpSupported: bool)
    returns (ok: bool, verified: bool)
    modifies node
    ensures old(node.rejections) == [] ==> ok
    ensures var desired := Canonicalise(document);
            ok && Unambiguous(old(node.state)) && Validated(desired) && desired.schemaVersion >= SCHEMA_VERSION ==>
              (verified <==> Verifiable(old(node.state), desired, toggles, dhcpSupported) && RestAgrees(desired, rest))
  {
    hide Canonicalise, ManagedDifferences, ProjectDocument, SettledState, Unambiguous, Validated, Verifiable, RestAgrees, ReadNode,
         Converged, SharedConverged;
    verified := false;
    ghost var before := node.state;
    ok := ApplyConfiguration(node, document, toggles);
    if ok {
      var observed := ReadNode(node.state, rest, toggles, dhcpSupported);
      verified := observed.Some? && ManagedDifferences(Canonicalise(document), ProjectDocument(observed.value)) == [];
      if Unambiguous(before) && Validated(Canonicalise(document)) && Canonicalise(document).schemaVersion >= SCHEMA_VERSION {
        VerifiedExactly(before, document, rest, toggles, dhcpSupported);
      }
    }
  }

  // A node that never verifies.

  const NO_DHCP := DhcpStatus(false, "", DhcpIpv4("", "", "", "", 0), DhcpIpv6("", 0))

  /** It lists the wanted URL in other case. */
  const TWIN_NODE := NodeState([Filter("HTTP://A", "a list", true)], [], [], true, NO_DHCP, [])

  const TWIN_WANTED := Document(
    SCHEMA_VERSION,
    ZERO_SHARED.(filtering := Filtering(false, 0, ["http://a"], [], []), rewritesEnabled := true, rewrites := Some([])),
    ZERO_NODE, ZERO_OBSERVED, None)

  lemma TwinFolds()
    ensures Lower("HTTP://A") == Lower("http://a") && "HTTP://A" != "http://a"
  {
    LowerFacts("HTTP://A");
    LowerFacts("http://a");
    assert forall i :: 0 <= i < 8 ==> LowerChar("HTTP://A"[i]) == LowerChar("http://a"[i]);
    assert "HTTP://A"[0] != "http://a"[0];
  }

  lemma TwinWantedCanonical()
    ensures var desired := Canonicalise(TWIN_WANTED);
            && desired.schemaVersion == SCHEMA_VERSION && desired.nodeSpecific.dhcp.None?
            && desired.shared.filtering.filterUrls == ["http://a"] && desired.shared.filtering.whitelistUrls == []
            && desired.shared.rewritesEnabled && desired.shared.rewrites == Some([])
  {
    hide Lower, Trim;
    TrimTrims("http://a");
    assert Trimmed("http://a");
    assert ["http://a"][1..] == [];
    assert Kept(["http://a"], {}) == ["http://a"];
  }

  /** The failing input: the node is sent nothing more, for it has converged, and no read-back of it is ever clean,
      whatever else it reports. */
  lemma CaseTwinNeverVerifies(rest: Document, dhcpSupported: bool)
    ensures var desired := Canonicalise(TWIN_WANTED);
            && Converged(TWIN_NODE, desired, true)
            && ManagedDifferences(desired, ProjectDocument(Observed(TWIN_NODE, rest, true, dhcpSupported))) != []
  {
    hide Lower, Canonicalise, ManagedDifferences, ProjectDocument, SettledRewrites, SettledLeases, Observed, RestAgrees;
    var desired := Canonicalise(TWIN_WANTED);
    TwinFolds();
    TwinWantedCanonical();
    TwinSettled();
    assert SettledRewrites([], [], true) == [] by {
      FixedWhenEmpty();
    }
    assert SettledState(TWIN_NODE, desired, true) == TWIN_NODE;
    VerifiedExactly(TWIN_NODE, TWIN_WANTED, rest, true, dhcpSupported);
    assert !SameText(TWIN_NODE.filters, ["http://a"]) by {
      assert TWIN_NODE.filters[0].url == "HTTP://A" && "http://a" in ["http://a"];
    }
  }

  lemma FixedWhenEmpty()
    ensures SettledRewrites([], [], true) == []
  {
  }

  lemma TwinSettled()
    ensures SettledFilters(TWIN_NODE.filters, ["http://a"]) == TWIN_NODE.filters && SettledFilters([], []) == []
  {
    hide Lower;
    TwinFolds();
    assert Lower(TWIN_NODE.filters[0].url) == Lower("http://a");
    assert Listed(TWIN_NODE.filters, "http://a");
    assert ["http://a"][..0] == [];
    assert Added(TWIN_NODE.filters, ["http://a"]) == [];
    assert Lower(["http://a"][0]) == Lower("HTTP://A");
    assert Wanted(["http://a"], "HTTP://A");
  }
}
