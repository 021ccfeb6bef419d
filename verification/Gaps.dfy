/** Exactly when a poll reports no gap, for every source: well-behaved or not. */
module Gaps {
  import opened Text
  import opened QueryLog
  import opened Coverage

  ghost function CursorAt(pages: seq<Reply>, k: nat): Cursor
    requires k <= |pages| && forall j :: 0 <= j < k ==> pages[j].Page?
  {
    if k == 0 then None else pages[k - 1].oldest
  }

  /** The pages the source answers, each asked for with the cursor of the one before. */
  ghost predicate Chain(source: Source, pages: seq<Reply>) {
    && (forall k :: 0 <= k < |pages| ==> pages[k].Page?)
    && (forall k: nat :: k < |pages| ==> Answers(source, pages, k))
  }

  ghost predicate Answers(source: Source, pages: seq<Reply>, k: nat)
    requires k < |pages| && forall j :: 0 <= j < |pages| ==> pages[j].Page?
  {
    source(k, CursorAt(pages, k)) == pages[k]
  }

  /** The records of the first k pages. */
  ghost function Records(pages: seq<Reply>, k: nat): seq<Record>
    requires k <= |pages| && forall j :: 0 <= j < |pages| ==> pages[j].Page?
  {
    if k == 0 then [] else Records(pages, k - 1) + pages[k - 1].events
  }

  /** Some record of the first k pages is older than the overlap. */
  ghost predicate PastOverlap(pages: seq<Reply>, k: nat, watermark: Option<int>, overlap: int)
    requires k <= |pages| && forall j :: 0 <= j < |pages| ==> pages[j].Page?
  {
    watermark.Some? && exists e :: e in Records(pages, k) && e.timestamp < watermark.value - overlap
  }

  /** A page without malformed records that moved the cursor. */
  ghost predicate Sound(pages: seq<Reply>, k: nat)
    requires k < |pages| && forall j :: 0 <= j < |pages| ==> pages[j].Page?
  {
    pages[k].invalid == 0 && (k > 0 ==> pages[k].oldest != pages[k - 1].oldest)
  }

  /** A full page with a cursor to go on from. */
  ghost predicate Full(page: Reply)
    requires page.Page?
  {
    |page.events| >= PAGE_SIZE && page.oldest.Some?
  }

  ghost predicate AllSound(pages: seq<Reply>)
    requires forall j :: 0 <= j < |pages| ==> pages[j].Page?
  {
    forall k: nat :: k < |pages| ==> Sound(pages, k)
  }

  /** The first n pages are full and do not pass the overlap. */
  ghost predicate Within(pages: seq<Reply>, n: nat, watermark: Option<int>, overlap: int)
    requires n <= |pages| && forall j :: 0 <= j < |pages| ==> pages[j].Page?
  {
    forall k: nat :: k < n ==> PageWithin(pages, k, watermark, overlap)
  }

  ghost predicate PageWithin(pages: seq<Reply>, k: nat, watermark: Option<int>, overlap: int)
    requires k < |pages| && forall j :: 0 <= j < |pages| ==> pages[j].Page?
  {
    Full(pages[k]) && !PastOverlap(pages, k + 1, watermark, overlap)
  }

  /** Paging came to a proper end: sound pages, all but the last full and within the overlap, the last short or past it. */
  ghost predicate Complete(source: Source, pages: seq<Reply>, watermark: Option<int>, overlap: int) {
    && 1 <= |pages| <= MAX_PAGES && Chain(source, pages)
    && AllSound(pages) && Within(pages, |pages| - 1, watermark, overlap)
    && (|pages[|pages| - 1].events| < PAGE_SIZE
        || (Full(pages[|pages| - 1]) && PastOverlap(pages, |pages|, watermark, overlap)))
  }

  /** Where the loop stands after the first k pages, when all went well. */
  ghost function Standing(pages: seq<Reply>, k: nat): Progress
    requires k <= |pages| && forall j :: 0 <= j < |pages| ==> pages[j].Page?
  {
    Progress(Records(pages, k), CursorAt(pages, k), None, false, false, false)
  }

  /** Where it stands at a proper end. */
  ghost function Ended(pages: seq<Reply>): Progress
    requires |pages| > 0 && forall j :: 0 <= j < |pages| ==> pages[j].Page?
  {
    if |pages[|pages| - 1].events| < PAGE_SIZE
    then Standing(pages, |pages| - 1).(events := Records(pages, |pages|), exhausted := true)
    else Standing(pages, |pages|).(crossedOverlap := true)
  }

  lemma PastIsOldest(pages: seq<Reply>, k: nat, watermark: Option<int>, overlap: int)
    requires k <= |pages| && forall j :: 0 <= j < |pages| ==> pages[j].Page?
    ensures PastOverlap(pages, k, watermark, overlap) <==>
            watermark.Some? && Records(pages, k) != [] && Oldest(Records(pages, k)) < watermark.value - overlap
  {
    hide Oldest;
  }

  /** One round of the loop on a page that is sound so far. */
  lemma Round(source: Source, watermark: Option<int>, overlap: int, page: nat, p: Progress, events: seq<Record>, oldest: Cursor)
    requires page < MAX_PAGES && source(page, p.cursor) == Page(events, 0, oldest)
    requires p.cursor.Some? ==> oldest != p.cursor
    ensures var r := p.(events := p.events + events, cursor := oldest);
            Fetch(source, watermark, overlap, page, p) ==
            if |events| < PAGE_SIZE then Fetched(p.(events := r.events, exhausted := true))
            else if oldest.None? then Fetched(p.(events := r.events, gap := Some(CursorMissing), cursorStalled := true))
            else if watermark.Some? && r.events != [] && Oldest(r.events) < watermark.value - overlap
            then Fetched(r.(crossedOverlap := true))
            else Fetch(source, watermark, overlap, page + 1, r)
  {
    hide Oldest;
  }

  /** One round of the loop on page k of a complete list. */
  lemma RoundOf(source: Source, pages: seq<Reply>, watermark: Option<int>, overlap: int, k: nat)
    requires Complete(source, pages, watermark, overlap) && k < |pages|
    ensures Fetch(source, watermark, overlap, k, Standing(pages, k)) ==
            if k < |pages| - 1 then Fetch(source, watermark, overlap, k + 1, Standing(pages, k + 1)) else Fetched(Ended(pages))
  {
    hide Oldest, PastOverlap, Fetch;
    assert Answers(source, pages, k) && Sound(pages, k);
    PastIsOldest(pages, k + 1, watermark, overlap);
    Round(source, watermark, overlap, k, Standing(pages, k), pages[k].events, pages[k].oldest);
    assert Records(pages, k + 1) == Records(pages, k) + pages[k].events;
    if k < |pages| - 1 {
      assert PageWithin(pages, k, watermark, overlap);
    } else {
      assert k == |pages| - 1;
      assert |pages[k].events| < PAGE_SIZE || (Full(pages[k]) && PastOverlap(pages, k + 1, watermark, overlap));
    }
  }

  /** A complete list of pages is what the loop reads. */
  lemma {:induction false} CompleteIsFetched(source: Source, pages: seq<Reply>, watermark: Option<int>, overlap: int, k: nat)
    requires Complete(source, pages, watermark, overlap) && k < |pages|
    ensures Fetch(source, watermark, overlap, k, Standing(pages, k)) == Fetched(Ended(pages))
    decreases |pages| - k
  {
    hide Fetch, Ended, Standing, Within, AllSound, Answers;
    RoundOf(source, pages, watermark, overlap, k);
    if k < |pages| - 1 {
      CompleteIsFetched(source, pages, watermark, overlap, k + 1);
    }
  }

  /** No gap so far, and neither stalled nor out of pages. */
  ghost predicate Proper(outcome: Outcome) {
    && outcome.Fetched? && outcome.progress.gap.None? && !outcome.progress.cursorStalled
    && (outcome.progress.exhausted || outcome.progress.crossedOverlap)
  }

  /** A gap once noted is never cleared. */
  lemma {:induction false} GapStays(source: Source, watermark: Option<int>, overlap: int, page: nat, p: Progress)
    requires p.gap.Some?
    ensures !Proper(Fetch(source, watermark, overlap, page, p))
    decreases MAX_PAGES - page
  {
    hide Oldest;
    if page < MAX_PAGES {
      var reply := source(page, p.cursor);
      if reply.Page? {
        var r := p.(events := p.events + reply.events, gap := if reply.invalid > 0 then Some(MalformedRecord) else p.gap,
                    cursor := reply.oldest);
        GapStays(source, watermark, overlap, page + 1, r);
      }
    }
  }

  /** What has been read so far: a chain of sound, full pages within the overlap. */
  ghost predicate SoFar(source: Source, pages: seq<Reply>, watermark: Option<int>, overlap: int) {
    && |pages| <= MAX_PAGES && Chain(source, pages)
    && AllSound(pages) && Within(pages, |pages|, watermark, overlap)
  }

  lemma RecordsPrefix(pages: seq<Reply>, page: Reply, k: nat)
    requires k <= |pages| && page.Page? && forall j :: 0 <= j < |pages| ==> pages[j].Page?
    ensures Records(pages + [page], k) == Records(pages, k) && CursorAt(pages + [page], k) == CursorAt(pages, k)
  {
    if k > 0 {
      RecordsPrefix(pages, page, k - 1);
    }
  }

  /** One more page keeps what was said of the pages before it. */
  lemma OneMore(source: Source, pages: seq<Reply>, page: Reply, watermark: Option<int>, overlap: int)
    requires SoFar(source, pages, watermark, overlap) && page.Page? && |pages| < MAX_PAGES
    requires source(|pages|, CursorAt(pages, |pages|)) == page && page.invalid == 0
    requires |pages| > 0 ==> page.oldest != pages[|pages| - 1].oldest
    ensures var more := pages + [page];
            Chain(source, more) && AllSound(more) && Within(more, |pages|, watermark, overlap)
  {
    var more := pages + [page];
    forall k: nat | k < |more|
      ensures Answers(source, more, k) && Sound(more, k)
    {
      RecordsPrefix(pages, page, k);
      if k < |pages| {
        assert more[k] == pages[k];
        assert Answers(source, pages, k) && Sound(pages, k);
      }
    }
    forall k: nat | k < |pages|
      ensures PageWithin(more, k, watermark, overlap)
    {
      RecordsPrefix(pages, page, k + 1);
      assert PageWithin(pages, k, watermark, overlap);
    }
  }

  /** In a proper outcome the next page ends the list properly, or the loop goes on from it. */
  lemma NextPage(source: Source, pages: seq<Reply>, watermark: Option<int>, overlap: int) returns (all: seq<Reply>)
    requires SoFar(source, pages, watermark, overlap)
    requires Proper(Fetch(source, watermark, overlap, |pages|, Standing(pages, |pages|)))
    ensures |pages| < MAX_PAGES && |all| == |pages| + 1
    ensures || Complete(source, all, watermark, overlap)
            || (&& SoFar(source, all, watermark, overlap)
                && Proper(Fetch(source, watermark, overlap, |all|, Standing(all, |all|))))
  {
    hide Oldest, PastOverlap, AllSound, Within, Answers, Fetch;
    var p := Standing(pages, |pages|);
    NotProperAtEnd(source, watermark, overlap, p);
    var page := source(|pages|, p.cursor);
    SoundPage(source, pages, watermark, overlap);
    OneMore(source, pages, page, watermark, overlap);
    all := pages + [page];
    RecordsPrefix(pages, page, |pages|);
    assert Records(all, |all|) == Records(pages, |pages|) + page.events && CursorAt(all, |all|) == page.oldest;
    PastIsOldest(all, |all|, watermark, overlap);
    Round(source, watermark, overlap, |pages|, p, page.events, page.oldest);
    assert all[|pages|] == page && |all| - 1 == |pages|;
    if |page.events| >= PAGE_SIZE {
      assert page.oldest.Some?;
      FullPageOf(page);
      if !PastOverlap(all, |all|, watermark, overlap) {
        WithinMore(all, |pages|, watermark, overlap);
        assert Standing(all, |all|) == p.(events := p.events + page.events, cursor := page.oldest);
        assert SoFar(source, all, watermark, overlap);
      }
    }
  }

  /** A proper outcome comes from a complete list of pages. */
  lemma {:induction false} ProperIsComplete(source: Source, pages: seq<Reply>, watermark: Option<int>, overlap: int) returns (all: seq<Reply>)
    requires SoFar(source, pages, watermark, overlap)
    requires Proper(Fetch(source, watermark, overlap, |pages|, Standing(pages, |pages|)))
    ensures Complete(source, all, watermark, overlap)
    decreases MAX_PAGES - |pages|
  {
    hide Complete, Proper, Fetch, Standing;
    all := NextPage(source, pages, watermark, overlap);
    if !Complete(source, all, watermark, overlap) {
      all := ProperIsComplete(source, all, watermark, overlap);
    }
  }

  lemma WithinMore(pages: seq<Reply>, n: nat, watermark: Option<int>, overlap: int)
    requires n < |pages| && (forall j :: 0 <= j < |pages| ==> pages[j].Page?) && Within(pages, n, watermark, overlap)
    requires Full(pages[n]) && !PastOverlap(pages, n + 1, watermark, overlap)
    ensures Within(pages, n + 1, watermark, overlap)
  {
    assert PageWithin(pages, n, watermark, overlap);
  }

  lemma FullPageOf(page: Reply)
    requires page.Page? && |page.events| >= PAGE_SIZE && page.oldest.Some?
    ensures Full(page)
  {
  }

  lemma NotProperAtEnd(source: Source, watermark: Option<int>, overlap: int, p: Progress)
    ensures !p.exhausted && !p.crossedOverlap ==> !Proper(Fetch(source, watermark, overlap, MAX_PAGES, p))
  {
  }

  /** In a proper outcome the next page can be read, has no malformed record, and moves the cursor. */
  lemma SoundPage(source: Source, pages: seq<Reply>, watermark: Option<int>, overlap: int)
    requires SoFar(source, pages, watermark, overlap) && |pages| < MAX_PAGES
    requires Proper(Fetch(source, watermark, overlap, |pages|, Standing(pages, |pages|)))
    ensures var page := source(|pages|, CursorAt(pages, |pages|));
            page.Page? && page.invalid == 0 && (|pages| > 0 ==> page.oldest != pages[|pages| - 1].oldest)
  {
    hide Oldest, PastOverlap;
    var p := Standing(pages, |pages|);
    var page := source(|pages|, p.cursor);
    if |pages| > 0 {
      assert PageWithin(pages, |pages| - 1, watermark, overlap);
    }
    if page.Page? && page.invalid > 0 {
      var r := p.(events := p.events + page.events, gap := Some(MalformedRecord), cursor := page.oldest);
      GapStays(source, watermark, overlap, |pages| + 1, r);
    }
  }

  // The report.

  /** What was read reaches the watermark, and the log does not begin after it. */
  ghost predicate InTouch(pages: seq<Reply>, watermark: Option<int>, overlap: int)
    requires |pages| > 0 && forall j :: 0 <= j < |pages| ==> pages[j].Page?
  {
    watermark.Some? ==>
      && (exists e :: e in Records(pages, |pages|) && e.timestamp >= watermark.value)
      && (|pages[|pages| - 1].events| < PAGE_SIZE ==>
            exists e :: e in Records(pages, |pages|) && e.timestamp <= watermark.value + overlap)
  }

  ghost predicate ReadInTouch(source: Source, pages: seq<Reply>, watermark: Option<int>, overlap: int) {
    Complete(source, pages, watermark, overlap) && InTouch(pages, watermark, overlap)
  }

  ghost predicate GapFree(t: Tables, poll: Poll) {
    && poll.nodeId in PollNode(t, poll).checkpoints
    && PollNode(t, poll).checkpoints[poll.nodeId].succeeded && PollNode(t, poll).checkpoints[poll.nodeId].gap.None?
  }

  lemma TouchIsExtremes(pages: seq<Reply>, watermark: Option<int>, overlap: int)
    requires |pages| > 0 && forall j :: 0 <= j < |pages| ==> pages[j].Page?
    ensures InTouch(pages, watermark, overlap) <==>
            (watermark.Some? ==>
              && Records(pages, |pages|) != [] && Newest(Records(pages, |pages|)) >= watermark.value
              && (|pages[|pages| - 1].events| < PAGE_SIZE ==> Oldest(Records(pages, |pages|)) <= watermark.value + overlap))
  {
    hide Oldest, Newest;
  }

  lemma EndedReport(pages: seq<Reply>, watermark: Option<int>, overlap: int)
    requires |pages| > 0 && forall j :: 0 <= j < |pages| ==> pages[j].Page?
    ensures GapOf(Ended(pages), watermark, overlap).None? <==> InTouch(pages, watermark, overlap)
    ensures Proper(Fetched(Ended(pages))) && Ended(pages).events == Records(pages, |pages|)
  {
    hide Oldest, Newest;
    TouchIsExtremes(pages, watermark, overlap);
  }

  /** A kept poll of a ready node succeeds without a gap if and only if paging comes to a proper end and what was read
      is in touch with the watermark: no malformed record, no stalled or missing cursor, no truncation, no clock
      regression, no retention gap. */
  lemma GapFreeExactly(t: Tables, poll: Poll)
    requires poll.ready && poll.Kept()
    ensures GapFree(t, poll) <==>
            exists pages :: ReadInTouch(poll.source, pages, Watermark(t, poll.nodeId), poll.overlap)
  {
    hide Fetch, Complete, InTouch, Numbered, NextWatermark, ReadInTouch;
    var watermark := Watermark(t, poll.nodeId);
    var outcome := Fetch(poll.source, watermark, poll.overlap, 0, START);
    assert Standing([], 0) == START;
    if GapFree(t, poll) {
      StallIsGap(poll.source, watermark, poll.overlap, 0, START);
      NoGapIsProper(outcome, watermark, poll.overlap);
      var pages := ProperIsComplete(poll.source, [], watermark, poll.overlap);
      ReadShape(poll.source, pages, watermark, poll.overlap);
      CompleteIsFetched(poll.source, pages, watermark, poll.overlap, 0);
      assert Standing(pages, 0) == START;
      EndedReport(pages, watermark, poll.overlap);
      assert ReadInTouch(poll.source, pages, watermark, poll.overlap);
    }
    if pages :| ReadInTouch(poll.source, pages, watermark, poll.overlap) {
      ReadShape(poll.source, pages, watermark, poll.overlap);
      CompleteIsFetched(poll.source, pages, watermark, poll.overlap, 0);
      assert Standing(pages, 0) == START;
      EndedReport(pages, watermark, poll.overlap);
    }
  }

  lemma ReadShape(source: Source, pages: seq<Reply>, watermark: Option<int>, overlap: int)
    requires Complete(source, pages, watermark, overlap) || ReadInTouch(source, pages, watermark, overlap)
    ensures |pages| > 0 && forall j :: 0 <= j < |pages| ==> pages[j].Page?
    ensures Complete(source, pages, watermark, overlap)
    ensures ReadInTouch(source, pages, watermark, overlap) <==> InTouch(pages, watermark, overlap)
  {
  }

  lemma NoGapIsProper(outcome: Outcome, watermark: Option<int>, overlap: int)
    requires outcome.Fetched? && GapOf(outcome.progress, watermark, overlap).None?
    requires outcome.progress.cursorStalled ==> outcome.progress.gap.Some?
    ensures Proper(outcome)
  {
    hide Oldest, Newest;
  }

  /** A stalled cursor is always noted as a gap. */
  lemma {:induction false} StallIsGap(source: Source, watermark: Option<int>, overlap: int, page: nat, p: Progress)
    requires p.cursorStalled ==> p.gap.Some?
    ensures var outcome := Fetch(source, watermark, overlap, page, p);
            outcome.Fetched? && outcome.progress.cursorStalled ==> outcome.progress.gap.Some?
    decreases MAX_PAGES - page
  {
    hide Oldest;
    if page < MAX_PAGES {
      var reply := source(page, p.cursor);
      if reply.Page? {
        var r := p.(events := p.events + reply.events, gap := if reply.invalid > 0 then Some(MalformedRecord) else p.gap,
                    cursor := reply.oldest);
        StallIsGap(source, watermark, overlap, page + 1, r);
      }
    }
  }

  // Why a gap is reported after a proper end.

  lemma EndedReason(pages: seq<Reply>, watermark: Option<int>, overlap: int)
    requires |pages| > 0 && forall j :: 0 <= j < |pages| ==> pages[j].Page?
    ensures var gap, all := GapOf(Ended(pages), watermark, overlap), Records(pages, |pages|);
            && (gap == Some(SourceEmptyAfterCheckpoint) <==> watermark.Some? && all == [])
            && (gap == Some(ClockRegressionOrReset) <==>
                  watermark.Some? && all != [] && forall e :: e in all ==> e.timestamp < watermark.value)
            && (gap == Some(NodeRetentionGap) <==>
                  && watermark.Some? && |pages[|pages| - 1].events| < PAGE_SIZE
                  && (exists e :: e in all && e.timestamp >= watermark.value)
                  && forall e :: e in all ==> e.timestamp > watermark.value + overlap)
  {
    hide Oldest, Newest;
  }

  /** After a proper end the reason is that nothing was read, that everything read is older than the watermark, or that
      a log read to its end begins after the overlap: each exactly in its case. */
  lemma ReasonExact(t: Tables, poll: Poll, pages: seq<Reply>)
    requires poll.ready && poll.Kept() && Complete(poll.source, pages, Watermark(t, poll.nodeId), poll.overlap)
    ensures poll.nodeId in PollNode(t, poll).checkpoints
    ensures var w, gap := Watermark(t, poll.nodeId), PollNode(t, poll).checkpoints[poll.nodeId].gap;
            var all := Records(pages, |pages|);
            && (gap == Some(SourceEmptyAfterCheckpoint) <==> w.Some? && all == [])
            && (gap == Some(ClockRegressionOrReset) <==> w.Some? && all != [] && forall e :: e in all ==> e.timestamp < w.value)
            && (gap == Some(NodeRetentionGap) <==>
                  && w.Some? && |pages[|pages| - 1].events| < PAGE_SIZE && (exists e :: e in all && e.timestamp >= w.value)
                  && forall e :: e in all ==> e.timestamp > w.value + poll.overlap)
  {
    hide Fetch, Complete, Numbered, NextWatermark, ReadInTouch, GapOf;
    var watermark := Watermark(t, poll.nodeId);
    ReadShape(poll.source, pages, watermark, poll.overlap);
    CompleteIsFetched(poll.source, pages, watermark, poll.overlap, 0);
    assert Standing(pages, 0) == START;
    EndedReason(pages, watermark, poll.overlap);
  }

  // When a poll fails.

  /** Page k is full, malformed records included, moved the cursor, and did not pass the overlap. */
  ghost predicate GoesOn(pages: seq<Reply>, k: nat, watermark: Option<int>, overlap: int)
    requires k < |pages| && forall j :: 0 <= j < |pages| ==> pages[j].Page?
  {
    && (k > 0 ==> pages[k].oldest != pages[k - 1].oldest) && |pages[k].events| + pages[k].invalid >= PAGE_SIZE
    && pages[k].oldest.Some? && !PastOverlap(pages, k + 1, watermark, overlap)
  }

  /** After these pages the loop asks for another one. */
  ghost predicate Underway(source: Source, pages: seq<Reply>, watermark: Option<int>, overlap: int) {
    Chain(source, pages) && forall k: nat :: k < |pages| ==> GoesOn(pages, k, watermark, overlap)
  }

  /** The page after these cannot be read. */
  ghost predicate BreaksAfter(source: Source, pages: seq<Reply>, watermark: Option<int>, overlap: int) {
    && Underway(source, pages, watermark, overlap) && |pages| < MAX_PAGES
    && source(|pages|, CursorAt(pages, |pages|)) == ReadError
  }

  /** Where the loop stands after k pages, whatever gap it has noted. */
  ghost predicate StandsAt(p: Progress, pages: seq<Reply>, k: nat)
    requires k <= |pages| && forall j :: 0 <= j < |pages| ==> pages[j].Page?
  {
    p.events == Records(pages, k) && p.cursor == CursorAt(pages, k)
  }

  /** One round of the loop on a page after which it goes on. */
  lemma GoOn(source: Source, pages: seq<Reply>, watermark: Option<int>, overlap: int, k: nat, p: Progress) returns (r: Progress)
    requires Chain(source, pages) && k < |pages| && k < MAX_PAGES
    requires StandsAt(p, pages, k) && GoesOn(pages, k, watermark, overlap)
    ensures StandsAt(r, pages, k + 1)
    ensures Fetch(source, watermark, overlap, k, p) == Fetch(source, watermark, overlap, k + 1, r)
  {
    hide Oldest;
    assert Answers(source, pages, k);
    PastIsOldest(pages, k + 1, watermark, overlap);
    r := p.(events := p.events + pages[k].events, gap := if pages[k].invalid > 0 then Some(MalformedRecord) else p.gap,
            cursor := pages[k].oldest);
  }

  lemma {:induction false} BreaksIsBroken(source: Source, pages: seq<Reply>, watermark: Option<int>, overlap: int, k: nat, p: Progress)
    requires BreaksAfter(source, pages, watermark, overlap) && k <= |pages| && StandsAt(p, pages, k)
    ensures Fetch(source, watermark, overlap, k, p).Broken?
    decreases |pages| - k
  {
    hide Oldest, PastOverlap, GoesOn, Answers;
    if k < |pages| {
      var r := GoOn(source, pages, watermark, overlap, k, p);
      BreaksIsBroken(source, pages, watermark, overlap, k + 1, r);
    }
  }

  lemma GoesOnMore(source: Source, pages: seq<Reply>, page: Reply, watermark: Option<int>, overlap: int)
    requires Underway(source, pages, watermark, overlap) && page.Page?
    requires source(|pages|, CursorAt(pages, |pages|)) == page
    ensures var more := pages + [page];
            Chain(source, more) && forall k: nat :: k < |pages| ==> GoesOn(more, k, watermark, overlap)
  {
    hide PastOverlap;
    var more := pages + [page];
    forall k: nat | k < |more|
      ensures Answers(source, more, k)
    {
      RecordsPrefix(pages, page, k);
      if k < |pages| {
        assert more[k] == pages[k] && Answers(source, pages, k);
      }
    }
    forall k: nat | k < |pages|
      ensures GoesOn(more, k, watermark, overlap)
    {
      assert GoesOn(pages, k, watermark, overlap);
      PastPrefix(pages, page, k + 1, watermark, overlap);
    }
  }

  lemma PastPrefix(pages: seq<Reply>, page: Reply, k: nat, watermark: Option<int>, overlap: int)
    requires k <= |pages| && page.Page? && forall j :: 0 <= j < |pages| ==> pages[j].Page?
    ensures PastOverlap(pages + [page], k, watermark, overlap) <==> PastOverlap(pages, k, watermark, overlap)
  {
    RecordsPrefix(pages, page, k);
  }

  /** In a broken outcome the next page cannot be read, or the loop goes on from it. */
  lemma NextBroken(source: Source, pages: seq<Reply>, watermark: Option<int>, overlap: int, p: Progress)
    returns (all: seq<Reply>, r: Progress)
    requires Underway(source, pages, watermark, overlap) && StandsAt(p, pages, |pages|)
    requires Fetch(source, watermark, overlap, |pages|, p).Broken?
    ensures || BreaksAfter(source, all, watermark, overlap)
            || (&& |pages| < MAX_PAGES && |all| == |pages| + 1 && Underway(source, all, watermark, overlap)
                && StandsAt(r, all, |all|) && Fetch(source, watermark, overlap, |all|, r).Broken?)
  {
    hide Oldest, PastOverlap, Answers, GoesOn, Records;
    all, r := pages, p;
    var page := source(|pages|, p.cursor);
    if page.Page? {
      all := pages + [page];
      GoesOnMore(source, pages, page, watermark, overlap);
      BrokenGoesOn(source, pages, page, watermark, overlap, p);
      r := GoOn(source, all, watermark, overlap, |pages|, p);
    }
  }

  lemma BrokenGoesOn(source: Source, pages: seq<Reply>, page: Reply, watermark: Option<int>, overlap: int, p: Progress)
    requires Underway(source, pages, watermark, overlap) && StandsAt(p, pages, |pages|) && page.Page?
    requires source(|pages|, p.cursor) == page && Fetch(source, watermark, overlap, |pages|, p).Broken?
    ensures |pages| < MAX_PAGES && StandsAt(p, pages + [page], |pages|)
    ensures GoesOn(pages + [page], |pages|, watermark, overlap)
  {
    hide Oldest, PastOverlap, Answers;
    var more := pages + [page];
    RecordsPrefix(pages, page, |pages|);
    PastIsOldest(more, |more|, watermark, overlap);
    if |pages| > 0 {
      assert GoesOn(pages, |pages| - 1, watermark, overlap);
    }
  }

  /** A broken read was asked for after pages that went on. */
  lemma {:induction false} BrokenBreaks(source: Source, pages: seq<Reply>, watermark: Option<int>, overlap: int, p: Progress)
    returns (all: seq<Reply>)
    requires Underway(source, pages, watermark, overlap) && StandsAt(p, pages, |pages|)
    requires Fetch(source, watermark, overlap, |pages|, p).Broken?
    ensures BreaksAfter(source, all, watermark, overlap)
    decreases MAX_PAGES - |pages|
  {
    hide Fetch, BreaksAfter, StandsAt, GoesOn;
    var r;
    all, r := NextBroken(source, pages, watermark, overlap, p);
    if !BreaksAfter(source, all, watermark, overlap) {
      all := BrokenBreaks(source, all, watermark, overlap, r);
    }
  }

  /** A kept poll of a ready node fails if and only if some page it asks for cannot be read; it then keeps the watermark
      and every row. */
  lemma FailsExactly(t: Tables, poll: Poll)
    requires poll.ready && poll.Kept()
    ensures poll.nodeId in PollNode(t, poll).checkpoints
    ensures var checkpoint := PollNode(t, poll).checkpoints[poll.nodeId];
            && (!checkpoint.succeeded <==>
                  exists pages :: BreaksAfter(poll.source, pages, Watermark(t, poll.nodeId), poll.overlap))
            && (!checkpoint.succeeded ==>
                  checkpoint.watermark == Watermark(t, poll.nodeId) && PollNode(t, poll).rows == t.rows)
  {
    hide Fetch, BreaksAfter, Numbered, NextWatermark, GapOf;
    var watermark := Watermark(t, poll.nodeId);
    var outcome := Fetch(poll.source, watermark, poll.overlap, 0, START);
    if outcome.Broken? {
      var pages := BrokenBreaks(poll.source, [], watermark, poll.overlap, START);
    }
    if pages :| BreaksAfter(poll.source, pages, watermark, poll.overlap) {
      BreaksShape(poll.source, pages, watermark, poll.overlap);
      BreaksIsBroken(poll.source, pages, watermark, poll.overlap, 0, START);
    }
  }

  lemma BreaksShape(source: Source, pages: seq<Reply>, watermark: Option<int>, overlap: int)
    requires BreaksAfter(source, pages, watermark, overlap)
    ensures forall j :: 0 <= j < |pages| ==> pages[j].Page?
    ensures StandsAt(START, pages, 0)
  {
  }
}
