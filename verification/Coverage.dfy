/** What ingestion guarantees over many polls. */
module Coverage {
  import opened Text
  import opened QueryLog

  const EMPTY := Tables({}, map[])

  /** The tables after the first k polls. */
  ghost function After(polls: seq<Poll>, k: nat): Tables
    requires k <= |polls|
  {
    if k == 0 then EMPTY else PollNode(After(polls, k - 1), polls[k - 1])
  }

  // The watermark.

  lemma WatermarkStep(t: Tables, poll: Poll, n: Id)
    ensures Watermark(t, n).Some? ==>
              Watermark(PollNode(t, poll), n).Some? && Watermark(t, n).value <= Watermark(PollNode(t, poll), n).value
  {
    hide Fetch, Newest, GapOf;
  }

  /** A node's watermark never decreases, whatever the polls meet. */
  lemma {:induction false} WatermarkNeverFalls(polls: seq<Poll>, j: nat, k: nat, n: Id)
    requires j <= k <= |polls| && Watermark(After(polls, j), n).Some?
    ensures Watermark(After(polls, k), n).Some?
    ensures Watermark(After(polls, j), n).value <= Watermark(After(polls, k), n).value
  {
    hide PollNode;
    if j < k {
      WatermarkNeverFalls(polls, j, k - 1, n);
      WatermarkStep(After(polls, k - 1), polls[k - 1], n);
    }
  }

  /** A kept poll of the node, among the first k, fetched this record. */
  ghost predicate FetchedBefore(polls: seq<Poll>, k: nat, n: Id, e: Record)
    requires k <= |polls|
  {
    exists j :: 0 <= j < k && FetchedIn(After(polls, j), polls[j], n, e)
  }

  ghost predicate FetchedIn(t: Tables, poll: Poll, n: Id, e: Record) {
    poll.Kept() && poll.nodeId == n && OutcomeOf(t, poll).Fetched? && e in OutcomeOf(t, poll).progress.events
  }

  /** The watermark w is the largest timestamp among the records of which `fetched` holds. */
  ghost predicate IsLargest(w: Option<int>, fetched: Record -> bool) {
    && (forall e :: fetched(e) ==> w.Some? && e.timestamp <= w.value)
    && (w.Some? ==> exists e :: fetched(e) && e.timestamp == w.value)
  }

  lemma WatermarkMoves(t: Tables, poll: Poll, n: Id, before: Record -> bool, now: Record -> bool)
    requires IsLargest(Watermark(t, n), before)
    requires forall e :: now(e) <==> before(e) || FetchedIn(t, poll, n, e)
    ensures IsLargest(Watermark(PollNode(t, poll), n), now)
  {
    hide Fetch, Newest, GapOf, Numbered, Oldest;
    if poll.Kept() && poll.nodeId == n && OutcomeOf(t, poll).Fetched? && OutcomeOf(t, poll).progress.events != [] {
      var events := OutcomeOf(t, poll).progress.events;
      var newest := Newest(events);
      var top :| top in events && top.timestamp == newest;
      assert now(top);
    }
    if Watermark(t, n).Some? {
      var top :| before(top) && top.timestamp == Watermark(t, n).value;
      assert now(top);
    }
  }

  /** The records that the first k polls fetched of the node. */
  ghost function AllFetched(polls: seq<Poll>, k: nat, n: Id): Record -> bool
    requires k <= |polls|
  {
    (e: Record) => FetchedBefore(polls, k, n, e)
  }

  /** A node's watermark is the largest timestamp any kept poll of it fetched: every fetched record is at or below it,
      some fetched record has it, and there is none exactly while nothing was fetched. */
  lemma {:induction false} WatermarkExact(polls: seq<Poll>, k: nat, n: Id)
    requires k <= |polls|
    ensures IsLargest(Watermark(After(polls, k), n), AllFetched(polls, k, n))
  {
    if k > 0 {
      hide PollNode, FetchedIn, IsLargest, FetchedBefore;
      WatermarkExact(polls, k - 1, n);
      forall e
        ensures AllFetched(polls, k, n)(e) <==>
                AllFetched(polls, k - 1, n)(e) || FetchedIn(After(polls, k - 1), polls[k - 1], n, e)
      {
        FetchedNext(polls, k, n, e);
      }
      WatermarkMoves(After(polls, k - 1), polls[k - 1], n, AllFetched(polls, k - 1, n), AllFetched(polls, k, n));
    }
  }

  lemma FetchedNext(polls: seq<Poll>, k: nat, n: Id, e: Record)
    requires 0 < k <= |polls|
    ensures FetchedBefore(polls, k, n, e) <==>
            FetchedBefore(polls, k - 1, n, e) || FetchedIn(After(polls, k - 1), polls[k - 1], n, e)
  {
    hide FetchedIn, After;
    if FetchedIn(After(polls, k - 1), polls[k - 1], n, e) {
      assert FetchedBefore(polls, k, n, e);
    }
  }

  // Occurrence numbers.

  /** The numbers given to the copies of a record are 1, 2, ... up to how many there are. */
  lemma {:induction false} NumberedExactly(n: Id, events: seq<Record>, e: Record, m: nat)
    ensures Row(n, e, m) in Numbered(n, events) <==> 1 <= m <= multiset(events)[e]
  {
    if events != [] {
      var before, last := events[..|events| - 1], events[|events| - 1];
      assert events == before + [last];
      assert events[..|events|] == events;
      assert multiset(events) == multiset(before) + multiset{last};
      NumberedExactly(n, before, e, m);
      forall k | 0 <= k < |before|
        ensures Numbered(n, events)[k] == Numbered(n, before)[k]
      {
        assert events[..k + 1] == before[..k + 1];
      }
      assert Numbered(n, events) == Numbered(n, before) + [Row(n, last, multiset(events)[last])];
    }
  }

  /** How many copies of a record a poll of node n recorded. */
  ghost function Copies(t: Tables, poll: Poll, n: Id, e: Record): nat {
    if poll.Kept() && poll.nodeId == n && OutcomeOf(t, poll).Fetched? then multiset(OutcomeOf(t, poll).progress.events)[e] else 0
  }

  /** The most copies any one of the first k polls recorded. */
  ghost function MostCopies(polls: seq<Poll>, k: nat, n: Id, e: Record): nat
    requires k <= |polls|
  {
    if k == 0 then 0
    else
      var before, now := MostCopies(polls, k - 1, n, e), Copies(After(polls, k - 1), polls[k - 1], n, e);
      if now > before then now else before
  }

  /** The stored occurrence numbers of a record are exactly 1 to the most copies one poll recorded. */
  lemma {:induction false} OccurrencesExact(polls: seq<Poll>, k: nat, n: Id, e: Record, m: nat)
    requires k <= |polls|
    ensures Row(n, e, m) in After(polls, k).rows <==> 1 <= m <= MostCopies(polls, k, n, e)
  {
    if k > 0 {
      hide Fetch, Numbered, GapOf, NextWatermark, OutcomeOf;
      OccurrencesExact(polls, k - 1, n, e, m);
      var t, poll := After(polls, k - 1), polls[k - 1];
      if OutcomeOf(t, poll).Fetched? {
        var events := OutcomeOf(t, poll).progress.events;
        NumberedExactly(n, events, e, m);
        OwnRows(poll.nodeId, events);
      }
    }
  }

  lemma OwnRows(n: Id, events: seq<Record>)
    ensures forall r :: r in Numbered(n, events) ==> r.nodeId == n
  {
  }

  lemma {:induction false} RowsStay(polls: seq<Poll>, j: nat, k: nat)
    requires j <= k <= |polls|
    ensures After(polls, j).rows <= After(polls, k).rows
  {
    hide Fetch, Numbered, GapOf, NextWatermark, OutcomeOf;
    if j < k {
      RowsStay(polls, j, k - 1);
    }
  }

  /** Recording again what an earlier poll fetched inserts nothing. */
  lemma ReplayInsertsNothing(polls: seq<Poll>, j: nat, k: nat, checkpoint: Checkpoint)
    requires j < k <= |polls| && polls[j].Kept() && OutcomeOf(After(polls, j), polls[j]).Fetched?
    ensures var n, events := polls[j].nodeId, OutcomeOf(After(polls, j), polls[j]).progress.events;
            RecordPoll(After(polls, k), n, Numbered(n, events), checkpoint).rows == After(polls, k).rows
  {
    hide Numbered, PollNode, OutcomeOf;
    RowsStay(polls, j + 1, k);
    assert After(polls, j + 1) == PollNode(After(polls, j), polls[j]);
    StoredAll(After(polls, j), polls[j]);
  }

  lemma StoredAll(t: Tables, poll: Poll)
    requires poll.Kept() && OutcomeOf(t, poll).Fetched?
    ensures forall r :: r in Numbered(poll.nodeId, OutcomeOf(t, poll).progress.events) ==> r in PollNode(t, poll).rows
  {
    hide Fetch, Numbered, OutcomeOf, GapOf, NextWatermark;
  }

  // Coverage.

  ghost predicate NonIncreasing(log: seq<Record>) {
    forall i, j :: 0 <= i < j < |log| ==> log[j].timestamp <= log[i].timestamp
  }

  /** No page boundary separates records of the same timestamp. */
  ghost predicate Unsplit(log: seq<Record>) {
    forall k: nat :: 0 < k && PAGE_SIZE * k < |log| ==> BoundaryFalls(log, k)
  }

  ghost predicate BoundaryFalls(log: seq<Record>, k: nat)
    requires 0 < k && PAGE_SIZE * k < |log|
  {
    log[PAGE_SIZE * k].timestamp < log[PAGE_SIZE * k - 1].timestamp
  }

  ghost predicate Pageable(log: seq<Record>) {
    NonIncreasing(log) && Unsplit(log)
  }

  /** The part of a log that is older than a cursor. */
  function Remaining(log: seq<Record>, cursor: Cursor): seq<Record> {
    if cursor.None? || log == [] || log[0].timestamp < cursor.value then log else Remaining(log[1..], cursor)
  }

  /** The contiguous page a node with this log answers. */
  function PageOf(log: seq<Record>, cursor: Cursor): Reply {
    var rest := Remaining(log, cursor);
    var events := if |rest| <= PAGE_SIZE then rest else rest[..PAGE_SIZE];
    Page(events, 0, if events == [] then None else Some(events[|events| - 1].timestamp))
  }

  ghost predicate Faithful(source: Source, log: seq<Record>) {
    forall page, cursor :: source(page, cursor) == PageOf(log, cursor)
  }

  lemma {:induction false} RemainingAfter(log: seq<Record>, t: int, k: nat)
    requires k <= |log| && (forall i :: 0 <= i < k ==> log[i].timestamp >= t) && (k < |log| ==> log[k].timestamp < t)
    ensures Remaining(log, Some(t)) == log[k..]
  {
    if k > 0 {
      RemainingAfter(log[1..], t, k - 1);
    }
  }

  /** Progress after some full pages of the log. */
  ghost predicate InStep(p: Progress, log: seq<Record>, page: nat) {
    && PAGE_SIZE * page <= |log|
    && p == Progress(log[..PAGE_SIZE * page], if page == 0 then None else Some(log[PAGE_SIZE * page - 1].timestamp),
                     None, false, false, false)
  }

  /** The log is ordered, and the boundary before this page separates nothing. */
  ghost predicate Clear(log: seq<Record>, page: nat) {
    NonIncreasing(log) && (page > 0 && PAGE_SIZE * page < |log| ==> BoundaryFalls(log, page))
  }

  lemma RemainingInStep(log: seq<Record>, p: Progress, page: nat)
    requires Clear(log, page) && InStep(p, log, page)
    ensures Remaining(log, p.cursor) == log[PAGE_SIZE * page..]
  {
    if page > 0 {
      RemainingAfter(log, log[PAGE_SIZE * page - 1].timestamp, PAGE_SIZE * page);
    }
  }

  /** What paging through a log ends with: all of it, or a prefix that reaches past the overlap, or a truncation. */
  ghost predicate Reaches(outcome: Outcome, log: seq<Record>, watermark: Option<int>, overlap: int) {
    && outcome.Fetched?
    && var q := outcome.progress;
       && q.events <= log && !q.cursorStalled
       && (q.exhausted ==> q.events == log)
       && (q.crossedOverlap ==> watermark.Some? && q.events != [] && Oldest(q.events) < watermark.value - overlap)
  }

  /** The page a faithful node answers when paging is in step. */
  lemma PageInStep(source: Source, log: seq<Record>, page: nat, p: Progress)
    requires Faithful(source, log) && Clear(log, page) && InStep(p, log, page)
    ensures var here, next := PAGE_SIZE * page, PAGE_SIZE * page + PAGE_SIZE;
            source(page, p.cursor) ==
            if |log| <= here then Page([], 0, None)
            else if |log| < next then Page(log[here..], 0, Some(log[|log| - 1].timestamp))
            else Page(log[here..next], 0, Some(log[next - 1].timestamp))
  {
    hide Remaining;
    RemainingInStep(log, p, page);
    assert source(page, p.cursor) == PageOf(log, p.cursor);
    var here, next := PAGE_SIZE * page, PAGE_SIZE * page + PAGE_SIZE;
    assert |log| >= next ==> log[here..][..PAGE_SIZE] == log[here..next];
  }

  /** Cursors descend, so paging never stalls. */
  lemma NoStall(log: seq<Record>, page: nat, p: Progress, i: nat)
    requires Clear(log, page) && InStep(p, log, page) && PAGE_SIZE * page <= i < |log|
    ensures p.cursor != Some(log[i].timestamp)
  {
  }

  /** A short page ends the log. */
  lemma ShortPage(source: Source, log: seq<Record>, watermark: Option<int>, overlap: int, page: nat, p: Progress)
    requires Faithful(source, log) && Clear(log, page) && InStep(p, log, page) && page < MAX_PAGES
    requires |log| - PAGE_SIZE * page < PAGE_SIZE
    ensures Fetch(source, watermark, overlap, page, p) == Fetched(p.(events := log, exhausted := true))
  {
    hide Faithful, Clear, Oldest;
    var here := PAGE_SIZE * page;
    PageInStep(source, log, page, p);
    if here < |log| {
      NoStall(log, page, p, |log| - 1);
    }
    assert p.events + log[here..] == log;
  }

  lemma FetchNext(source: Source, watermark: Option<int>, overlap: int, page: nat, p: Progress, events: seq<Record>, oldest: int)
    requires page < MAX_PAGES && source(page, p.cursor) == Page(events, 0, Some(oldest))
    requires p.cursor != Some(oldest) && |events| == PAGE_SIZE
    ensures var r := p.(events := p.events + events, cursor := Some(oldest));
            Fetch(source, watermark, overlap, page, p) ==
            if watermark.Some? && Oldest(r.events) < watermark.value - overlap then Fetched(r.(crossedOverlap := true))
            else Fetch(source, watermark, overlap, page + 1, r)
  {
    hide Oldest;
  }

  lemma FetchEnds(source: Source, watermark: Option<int>, overlap: int, p: Progress)
    ensures Fetch(source, watermark, overlap, MAX_PAGES, p) == Fetched(p)
  {
  }

  /** A full page moves on in step, unless it reaches past the overlap. */
  lemma FullPage(source: Source, log: seq<Record>, watermark: Option<int>, overlap: int, page: nat, p: Progress, r: Progress)
    requires Faithful(source, log) && Clear(log, page) && InStep(p, log, page) && page < MAX_PAGES
    requires |log| - PAGE_SIZE * page >= PAGE_SIZE && InStep(r, log, page + 1)
    ensures Fetch(source, watermark, overlap, page, p) ==
            if watermark.Some? && Oldest(r.events) < watermark.value - overlap then Fetched(r.(crossedOverlap := true))
            else Fetch(source, watermark, overlap, page + 1, r)
  {
    hide Faithful, Clear, Oldest, Fetch;
    var here := PAGE_SIZE * page;
    var events := log[here..here + PAGE_SIZE];
    PageInStep(source, log, page, p);
    NoStall(log, page, p, here + PAGE_SIZE - 1);
    assert r.events == p.events + events;
    FetchNext(source, watermark, overlap, page, p, events, log[here + PAGE_SIZE - 1].timestamp);
  }

  lemma {:induction false} FetchReaches(source: Source, log: seq<Record>, watermark: Option<int>, overlap: int, page: nat, p: Progress)
    requires Faithful(source, log) && Pageable(log) && InStep(p, log, page) && page <= MAX_PAGES
    ensures Reaches(Fetch(source, watermark, overlap, page, p), log, watermark, overlap)
    decreases MAX_PAGES - page
  {
    hide Faithful, NonIncreasing, Oldest, Fetch;
    assert Clear(log, page);
    if page == MAX_PAGES {
      FetchEnds(source, watermark, overlap, p);
    } else {
      var next := PAGE_SIZE * page + PAGE_SIZE;
      if |log| < next {
        ShortPage(source, log, watermark, overlap, page, p);
      } else {
        var r := Progress(log[..next], Some(log[next - 1].timestamp), None, false, false, false);
        FullPage(source, log, watermark, overlap, page, p, r);
        FetchReaches(source, log, watermark, overlap, page + 1, r);
      }
    }
  }

  /** A poll without a gap fetched every copy of every record that is not older than the overlap. */
  lemma GapFreeFetch(t: Tables, poll: Poll, log: seq<Record>, e: Record)
    requires poll.ready && poll.Kept() && Faithful(poll.source, log) && Pageable(log)
    requires PollNode(t, poll).checkpoints[poll.nodeId].gap == None
    ensures OutcomeOf(t, poll).Fetched?
    ensures var watermark := Watermark(t, poll.nodeId);
            multiset(OutcomeOf(t, poll).progress.events)[e] == multiset(log)[e]
            || (watermark.Some? && e.timestamp < watermark.value - poll.overlap)
  {
    hide Fetch, Newest, Numbered, Unsplit;
    FetchReaches(poll.source, log, Watermark(t, poll.nodeId), poll.overlap, 0, START);
    var q := OutcomeOf(t, poll).progress;
    if q.crossedOverlap {
      CrossedCopies(log, q.events, e);
    }
  }

  /** Copies beyond a fetched prefix are no newer than its oldest record. */
  lemma CrossedCopies(log: seq<Record>, events: seq<Record>, e: Record)
    requires NonIncreasing(log) && events <= log && events != []
    ensures multiset(events)[e] == multiset(log)[e] || e.timestamp <= Oldest(events)
  {
    hide Oldest;
    var rest := log[|events|..];
    assert log == events + rest;
    if e in rest {
      var i :| 0 <= i < |rest| && rest[i] == e;
      var o :| o in events && o.timestamp == Oldest(events);
      var j :| 0 <= j < |events| && events[j] == o;
      assert log[j] == o && log[|events| + i] == e;
    } else {
      assert multiset(rest)[e] == 0;
    }
  }

  /** The conditions under which nothing may be missed, for the first k polls and node n. */
  ghost predicate Undisturbed(polls: seq<Poll>, logs: seq<seq<Record>>, n: Id) {
    && |logs| == |polls|
    && forall i :: 0 <= i < |polls| && polls[i].nodeId == n ==> PollConditions(polls, logs, n, i)
  }

  /** The node is reachable, pages are contiguous and the log stands still during the poll, timestamps do not
      increase and no page boundary separates equal ones, copies of records that appear since the last poll are no
      older than the overlap, and no gap is reported. */
  ghost predicate PollConditions(polls: seq<Poll>, logs: seq<seq<Record>>, n: Id, i: nat)
    requires i < |polls| == |logs|
  {
    && polls[i].ready && polls[i].Kept() && Faithful(polls[i].source, logs[i]) && Pageable(logs[i])
    && (forall e: Record, m: nat :: 1 <= m <= multiset(logs[i])[e] ==>
          SeenBefore(polls, logs, n, i, e, m)
          || Watermark(After(polls, i), n).None?
          || e.timestamp >= Watermark(After(polls, i), n).value - polls[i].overlap)
    && PollNode(After(polls, i), polls[i]).checkpoints[polls[i].nodeId].gap == None
  }

  ghost predicate SeenBefore(polls: seq<Poll>, logs: seq<seq<Record>>, n: Id, i: nat, e: Record, m: nat)
    requires i <= |polls| == |logs|
  {
    exists j :: 0 <= j < i && polls[j].nodeId == n && m <= multiset(logs[j])[e]
  }

  /** Every copy of every record the node held at any poll so far is stored. */
  lemma {:induction false} EveryRecordStored(polls: seq<Poll>, logs: seq<seq<Record>>, n: Id, k: nat, j: nat, e: Record, m: nat)
    requires Undisturbed(polls, logs, n) && j < k <= |polls| && polls[j].nodeId == n && 1 <= m <= multiset(logs[j])[e]
    ensures Row(n, e, m) in After(polls, k).rows
    decreases k, j
  {
    hide Fetch, Faithful, Pageable, PollNode;
    if j < k - 1 {
      EveryRecordStored(polls, logs, n, k - 1, j, e, m);
      RowsStay(polls, k - 1, k);
    } else {
      assert PollConditions(polls, logs, n, j);
      GapFreeFetch(After(polls, j), polls[j], logs[j], e);
      if multiset(OutcomeOf(After(polls, j), polls[j]).progress.events)[e] == multiset(logs[j])[e] {
        StoredCopy(After(polls, j), polls[j], e, m);
      } else {
        assert SeenBefore(polls, logs, n, j, e, m);
        var i :| 0 <= i < j && polls[i].nodeId == n && m <= multiset(logs[i])[e];
        EveryRecordStored(polls, logs, n, j, i, e, m);
        RowsStay(polls, j, k);
      }
    }
  }

  lemma StoredCopy(t: Tables, poll: Poll, e: Record, m: nat)
    requires poll.Kept() && OutcomeOf(t, poll).Fetched? && 1 <= m <= multiset(OutcomeOf(t, poll).progress.events)[e]
    ensures Row(poll.nodeId, e, m) in PollNode(t, poll).rows
  {
    hide Fetch, Numbered, OutcomeOf, GapOf, NextWatermark;
    NumberedExactly(poll.nodeId, OutcomeOf(t, poll).progress.events, e, m);
  }

  /** The conditions can be met: a first poll of any ordered log shorter than a page meets them. */
  lemma FirstPollCovers(n: Id, log: seq<Record>, overlap: int)
    requires NonIncreasing(log) && |log| < PAGE_SIZE
    ensures Undisturbed([FirstPoll(n, log, overlap)], [log], n)
  {
    hide Remaining, Numbered;
    var polls, logs := [FirstPoll(n, log, overlap)], [log];
    var source := polls[0].source;
    assert After(polls, 0) == EMPTY;
    assert InStep(START, log, 0);
    ShortPage(source, log, None, overlap, 0, START);
    assert PollConditions(polls, logs, n, 0);
  }

  // A page boundary between equal timestamps.

  const LOST := Record(0, "lost")

  /** One record more than a page, all of the same timestamp. */
  const SPLIT_LOG: seq<Record> := seq(PAGE_SIZE, i => Record(0, "kept")) + [LOST]

  ghost function FirstPoll(n: Id, log: seq<Record>, overlap: int): Poll {
    Poll(n, true, (page, cursor) => PageOf(log, cursor), overlap, true, true)
  }

  /** Without the condition on page boundaries a record is lost and no gap is reported: the second page starts below
      the timestamp the first one ended with. */
  lemma SplitLosesRecord(n: Id, overlap: int)
    ensures NonIncreasing(SPLIT_LOG) && LOST in SPLIT_LOG
    ensures var poll := FirstPoll(n, SPLIT_LOG, overlap);
            && PollNode(EMPTY, poll).checkpoints[n].succeeded && PollNode(EMPTY, poll).checkpoints[n].gap == None
            && forall m :: Row(n, LOST, m) !in PollNode(EMPTY, poll).rows
  {
    hide Fetch, Numbered, Oldest, Newest, OutcomeOf;
    var events := SPLIT_LOG[..PAGE_SIZE];
    SplitFetch(n, overlap);
    assert LOST !in events;
    forall m: nat
      ensures Row(n, LOST, m) !in Numbered(n, events)
    {
      NumberedExactly(n, events, LOST, m);
    }
  }

  lemma SplitFetch(n: Id, overlap: int)
    ensures OutcomeOf(EMPTY, FirstPoll(n, SPLIT_LOG, overlap)) ==
            Fetched(Progress(SPLIT_LOG[..PAGE_SIZE], Some(0), None, true, false, false))
  {
    hide Fetch, Oldest;
    var poll := FirstPoll(n, SPLIT_LOG, overlap);
    var events := SPLIT_LOG[..PAGE_SIZE];
    var p := START.(events := START.events + events, cursor := Some(0));
    assert p.events == events;
    assert poll.source(0, None) == Page(events, 0, Some(0));
    FetchNext(poll.source, None, overlap, 0, START, events, 0);
    RemainingAfter(SPLIT_LOG, 0, |SPLIT_LOG|);
    assert poll.source(1, Some(0)) == Page([], 0, None);
    FetchShort(poll.source, overlap, 1, p);
  }

  lemma FetchShort(source: Source, overlap: int, page: nat, p: Progress)
    requires page < MAX_PAGES && p.cursor.Some? && source(page, p.cursor) == Page([], 0, None)
    ensures Fetch(source, None, overlap, page, p) == Fetched(p.(exhausted := true))
  {
    assert p.events + [] == p.events;
  }

  // The exact condition on page boundaries.

  lemma {:induction false} RemainingBelow(log: seq<Record>, t: int)
    requires NonIncreasing(log)
    ensures forall e :: e in Remaining(log, Some(t)) ==> e.timestamp < t
  {
    if log != [] && log[0].timestamp >= t {
      RemainingBelow(log[1..], t);
    }
  }

  /** What later pages bring is older than the cursor. */
  ghost predicate AddsBelow(p: Progress, q: Progress, t: int) {
    p.events <= q.events && forall e :: e in q.events[|p.events|..] ==> e.timestamp < t
  }

  lemma {:induction false} FetchBelow(source: Source, log: seq<Record>, overlap: int, page: nat, p: Progress, t: int)
    requires Faithful(source, log) && NonIncreasing(log) && p.cursor.Some? && p.cursor.value <= t
    ensures Fetch(source, None, overlap, page, p).Fetched? ==> AddsBelow(p, Fetch(source, None, overlap, page, p).progress, t)
    decreases MAX_PAGES - page
  {
    hide Remaining, Oldest;
    if page < MAX_PAGES {
      assert source(page, p.cursor) == PageOf(log, p.cursor);
      RemainingBelow(log, p.cursor.value);
      var reply := PageOf(log, p.cursor);
      var r := p.(events := p.events + reply.events, cursor := reply.oldest);
      if |reply.events| == PAGE_SIZE {
        assert reply.events[PAGE_SIZE - 1] in reply.events;
        FetchBelow(source, log, overlap, page + 1, r, t);
      }
      assert r.events[|p.events|..] == reply.events;
      FetchBelowStep(source, log, overlap, page, p, r, t);
    }
  }

  lemma FetchBelowStep(source: Source, log: seq<Record>, overlap: int, page: nat, p: Progress, r: Progress, t: int)
    requires page < MAX_PAGES && p.cursor.Some? && source(page, p.cursor) == PageOf(log, p.cursor)
    requires var reply := PageOf(log, p.cursor);
             r == p.(events := p.events + reply.events, cursor := reply.oldest)
             && forall e :: e in reply.events ==> e.timestamp < p.cursor.value <= t
    requires |PageOf(log, p.cursor).events| == PAGE_SIZE && Fetch(source, None, overlap, page + 1, r).Fetched? ==>
               AddsBelow(r, Fetch(source, None, overlap, page + 1, r).progress, t)
    ensures Fetch(source, None, overlap, page, p).Fetched? ==> AddsBelow(p, Fetch(source, None, overlap, page, p).progress, t)
  {
    hide Remaining, Oldest;
    var outcome := Fetch(source, None, overlap, page, p);
    var events := PageOf(log, p.cursor).events;
    if outcome.Fetched? {
      var q := outcome.progress;
      if |events| == PAGE_SIZE {
        assert events[PAGE_SIZE - 1] in events;
        FetchNext(source, None, overlap, page, p, events, events[PAGE_SIZE - 1].timestamp);
        assert q.events[|p.events|..] == events + q.events[|r.events|..];
      } else {
        assert q.events[|p.events|..] == events;
      }
    }
  }

  /** k is the first page boundary between equal timestamps. */
  ghost predicate FirstSplit(log: seq<Record>, k: nat) {
    && 0 < k && PAGE_SIZE * k < |log| && !BoundaryFalls(log, k)
    && forall j: nat :: 0 < j < k ==> BoundaryFalls(log, j)
  }

  lemma {:induction false} FindSplit(log: seq<Record>, k: nat) returns (first: nat)
    requires 0 < k && PAGE_SIZE * k < |log| && !BoundaryFalls(log, k)
    ensures FirstSplit(log, first)
  {
    if j: nat :| 0 < j < k && !BoundaryFalls(log, j) {
      first := FindSplit(log, j);
    } else {
      first := k;
    }
  }

  /** Paging that meets a split runs out of pages, or goes on below it. */
  ghost predicate PassesSplit(outcome: Outcome, log: seq<Record>, k: nat)
    requires 0 < k && PAGE_SIZE * k < |log|
  {
    outcome.Fetched? ==>
      var q := outcome.progress;
      || (!q.exhausted && !q.crossedOverlap && !q.cursorStalled)
      || (log[..PAGE_SIZE * k] <= q.events
          && forall e :: e in q.events[PAGE_SIZE * k..] ==> e.timestamp < log[PAGE_SIZE * k - 1].timestamp)
  }

  lemma {:induction false} FetchPassesSplit(source: Source, log: seq<Record>, overlap: int, page: nat, p: Progress, k: nat)
    requires Faithful(source, log) && NonIncreasing(log) && FirstSplit(log, k) && InStep(p, log, page) && page <= k && page <= MAX_PAGES
    ensures PassesSplit(Fetch(source, None, overlap, page, p), log, k)
    decreases MAX_PAGES - page
  {
    hide Faithful, NonIncreasing, Fetch, Oldest;
    if page == MAX_PAGES {
      FetchEnds(source, None, overlap, p);
    } else if page == k {
      FetchBelow(source, log, overlap, page, p, p.cursor.value);
    } else {
      var next := PAGE_SIZE * page + PAGE_SIZE;
      var r := Progress(log[..next], Some(log[next - 1].timestamp), None, false, false, false);
      assert Clear(log, page);
      FullPage(source, log, None, overlap, page, p, r);
      FetchPassesSplit(source, log, overlap, page + 1, r, k);
    }
  }

  /** The record after a split has a copy that a poll passing the split does not fetch. */
  lemma SplitMisses(log: seq<Record>, k: nat, events: seq<Record>)
    requires NonIncreasing(log) && FirstSplit(log, k) && log[..PAGE_SIZE * k] <= events
    requires forall e :: e in events[PAGE_SIZE * k..] ==> e.timestamp < log[PAGE_SIZE * k - 1].timestamp
    ensures multiset(events)[log[PAGE_SIZE * k]] < multiset(log)[log[PAGE_SIZE * k]]
  {
    var here := PAGE_SIZE * k;
    var e := log[here];
    assert events == log[..here] + events[here..];
    assert log == log[..here] + [e] + log[here + 1..];
    assert e !in events[here..];
    assert multiset(events[here..])[e] == 0;
  }

  /** A first poll of an ordered log that reports no gap stores every copy of every record if and only if no page
      boundary separates equal timestamps. */
  lemma FirstPollExact(n: Id, log: seq<Record>, overlap: int)
    requires NonIncreasing(log) && PollNode(EMPTY, FirstPoll(n, log, overlap)).checkpoints[n].gap == None
    ensures (forall e: Record, m: nat :: 1 <= m <= multiset(log)[e] ==>
               Row(n, e, m) in PollNode(EMPTY, FirstPoll(n, log, overlap)).rows)
       <==> Unsplit(log)
  {
    hide NonIncreasing, PollNode, BoundaryFalls;
    var poll := FirstPoll(n, log, overlap);
    FirstFaithful(n, log, overlap);
    if Unsplit(log) {
      forall e: Record, m: nat | 1 <= m <= multiset(log)[e]
        ensures Row(n, e, m) in PollNode(EMPTY, poll).rows
      {
        GapFreeFetch(EMPTY, poll, log, e);
        StoredCopy(EMPTY, poll, e, m);
      }
    } else {
      var k: nat :| 0 < k && PAGE_SIZE * k < |log| && !BoundaryFalls(log, k);
      var first := FindSplit(log, k);
      SplitLoses(n, log, overlap, first);
    }
  }

  lemma FirstFaithful(n: Id, log: seq<Record>, overlap: int)
    ensures Faithful(FirstPoll(n, log, overlap).source, log)
  {
    hide PageOf;
  }

  lemma SplitLoses(n: Id, log: seq<Record>, overlap: int, k: nat)
    requires NonIncreasing(log) && FirstSplit(log, k)
    requires PollNode(EMPTY, FirstPoll(n, log, overlap)).checkpoints[n].gap == None
    ensures var e := log[PAGE_SIZE * k];
            multiset(log)[e] >= 1 && Row(n, e, multiset(log)[e]) !in PollNode(EMPTY, FirstPoll(n, log, overlap)).rows
  {
    hide NonIncreasing, Fetch, Numbered, Newest, Oldest, Faithful;
    var poll, e := FirstPoll(n, log, overlap), log[PAGE_SIZE * k];
    FirstFaithful(n, log, overlap);
    FetchPassesSplit(poll.source, log, overlap, 0, START, k);
    assert e in multiset(log);
    var outcome := OutcomeOf(EMPTY, poll);
    if outcome.Fetched? {
      SplitMisses(log, k, outcome.progress.events);
      NumberedExactly(n, outcome.progress.events, e, multiset(log)[e]);
    }
  }
}
