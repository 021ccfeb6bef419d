/** The poller as a program: the paging loop with its running occurrence counts, newest and oldest timestamps and
    gap flags, and the transaction that records a poll. */
module Pollers {
  import opened Text
  import opened QueryLog

  class QueryStore {
    var rows: set<Row>
    var checkpoints: map<Id, Checkpoint>

    function Value(): Tables
      reads this
    {
      Tables(rows, checkpoints)
    }

    constructor ()
      ensures Value() == Tables({}, map[])
    {
      rows, checkpoints := {}, map[];
    }

    /** Inserts the rows that are absent, counts them, and overwrites the checkpoint. */
    method RecordQueryLogPoll(nodeId: Id, events: seq<Row>, checkpoint: Checkpoint) returns (inserted: nat)
      modifies this
      ensures Value() == RecordPoll(old(Value()), nodeId, events, checkpoint)
      ensures inserted == |rows| - |old(rows)|
    {
      inserted := 0;
      for i := 0 to |events|
        invariant rows == old(rows) + set k | 0 <= k < i :: events[k]
        invariant inserted == |rows| - |old(rows)| && checkpoints == old(checkpoints)
      {
        if events[i] !in rows {
          rows := rows + {events[i]};
          inserted := inserted + 1;
        }
      }
      assert (set k | 0 <= k < |events| :: events[k]) == set r | r in events;
      checkpoints := checkpoints[nodeId := checkpoint];
    }
  }

  /** What the poller carries from record to record. */
  datatype Running = Running(
    rows: seq<Row>, occurrences: map<Record, nat>, newest: Option<int>, oldest: Option<int>)

  ghost predicate Counts(occurrences: map<Record, nat>, events: seq<Record>) {
    forall e :: multiset(events)[e] == if e in occurrences then occurrences[e] else 0
  }

  /** The running values are those of the records seen so far. */
  ghost predicate Sums(r: Running, nodeId: Id, events: seq<Record>) {
    && r.rows == Numbered(nodeId, events)
    && Counts(r.occurrences, events)
    && r.newest == (if events == [] then None else Some(Newest(events)))
    && r.oldest == (if events == [] then None else Some(Oldest(events)))
  }

  lemma NumberedNext(nodeId: Id, events: seq<Record>, e: Record, count: nat)
    requires count == multiset(events)[e] + 1
    ensures Numbered(nodeId, events + [e]) == Numbered(nodeId, events) + [Row(nodeId, e, count)]
  {
    var all := events + [e];
    assert all[..|all|] == all;
    forall k | 0 <= k < |events|
      ensures Numbered(nodeId, all)[k] == Numbered(nodeId, events)[k]
    {
      assert all[..k + 1] == events[..k + 1];
    }
  }

  lemma ExtremesNext(events: seq<Record>, e: Record)
    requires events != []
    ensures Newest(events + [e]) == if e.timestamp > Newest(events) then e.timestamp else Newest(events)
    ensures Oldest(events + [e]) == if e.timestamp < Oldest(events) then e.timestamp else Oldest(events)
  {
    assert (events + [e])[..|events|] == events;
  }

  /** One more record. */
  function Take(nodeId: Id, r: Running, e: Record): Running {
    var count := (if e in r.occurrences then r.occurrences[e] else 0) + 1;
    Running(
      r.rows + [Row(nodeId, e, count)],
      r.occurrences[e := count],
      if r.newest.None? || e.timestamp > r.newest.value then Some(e.timestamp) else r.newest,
      if r.oldest.None? || e.timestamp < r.oldest.value then Some(e.timestamp) else r.oldest)
  }

  lemma TakeSums(nodeId: Id, r: Running, e: Record, events: seq<Record>)
    requires Sums(r, nodeId, events)
    ensures Sums(Take(nodeId, r, e), nodeId, events + [e])
  {
    hide Numbered, Newest, Oldest;
    NumberedNext(nodeId, events, e, multiset(events)[e] + 1);
    CountsNext(r.occurrences, events, e);
    if events == [] {
      assert events + [e] == [e];
      ExtremesOne(e);
    } else {
      ExtremesNext(events, e);
    }
  }

  lemma CountsNext(occurrences: map<Record, nat>, events: seq<Record>, e: Record)
    requires Counts(occurrences, events)
    ensures Counts(occurrences[e := multiset(events)[e] + 1], events + [e])
  {
    assert multiset(events + [e]) == multiset(events) + multiset{e};
  }

  lemma ExtremesOne(e: Record)
    ensures Newest([e]) == e.timestamp && Oldest([e]) == e.timestamp
  {
  }

  /** Takes the records of one page in. */
  method TakePage(nodeId: Id, page: seq<Record>, before: Running, ghost seen: seq<Record>) returns (r: Running)
    requires Sums(before, nodeId, seen)
    ensures Sums(r, nodeId, seen + page)
  {
    hide Sums, Take;
    r := before;
    assert seen + page[..0] == seen;
    for i := 0 to |page|
      invariant Sums(r, nodeId, seen + page[..i])
    {
      TakeSums(nodeId, r, page[i], seen + page[..i]);
      r := Take(nodeId, r, page[i]);
      assert seen + page[..i + 1] == seen + page[..i] + [page[i]];
    }
    assert page[..|page|] == page;
  }

  lemma NothingSummed(nodeId: Id)
    ensures Sums(Running([], map[], None, None), nodeId, [])
  {
  }

  lemma OldestSummed(r: Running, nodeId: Id, events: seq<Record>)
    requires Sums(r, nodeId, events)
    ensures r.oldest == if events == [] then None else Some(Oldest(events))
  {
  }

  /** The paging loop. */
  method ReadPages(poll: Poll, watermark: Option<int>) returns (outcome: Outcome, r: Running)
    ensures outcome == Fetch(poll.source, watermark, poll.overlap, 0, START)
    ensures outcome.Fetched? ==> Sums(r, poll.nodeId, outcome.progress.events)
  {
    hide Sums, Newest, Oldest;
    var p := START;
    r := Running([], map[], None, None);
    NothingSummed(poll.nodeId);
    for page := 0 to MAX_PAGES
      invariant Sums(r, poll.nodeId, p.events)
      invariant Fetch(poll.source, watermark, poll.overlap, page, p) == Fetch(poll.source, watermark, poll.overlap, 0, START)
    {
      var reply := poll.source(page, p.cursor);
      if reply.ReadError? {
        return Broken(p.gap), r;
      }
      if p.cursor.Some? && reply.oldest == p.cursor {
        return Fetched(p.(gap := Some(CursorStalled), cursorStalled := true)), r;
      }
      if reply.invalid > 0 {
        p := p.(gap := Some(MalformedRecord));
      }
      r := TakePage(poll.nodeId, reply.events, r, p.events);
      p := p.(events := p.events + reply.events);
      if |reply.events| + reply.invalid < PAGE_SIZE {
        return Fetched(p.(exhausted := true)), r;
      }
      if reply.oldest.None? {
        return Fetched(p.(gap := Some(CursorMissing), cursorStalled := true)), r;
      }
      p := p.(cursor := reply.oldest);
      OldestSummed(r, poll.nodeId, p.events);
      if watermark.Some? && r.oldest.Some? && r.oldest.value < watermark.value - poll.overlap {
        return Fetched(p.(crossedOverlap := true)), r;
      }
    }
    outcome := Fetched(p);
  }

  /** The recording transaction; when it fails nothing is written. */
  method Commit(store: QueryStore, nodeId: Id, rows: seq<Row>, checkpoint: Checkpoint, succeeds: bool) returns (inserted: nat)
    modifies store
    ensures store.Value() == if succeeds then RecordPoll(old(store.Value()), nodeId, rows, checkpoint) else old(store.Value())
    ensures inserted == |store.rows| - |old(store.rows)|
  {
    inserted := 0;
    if succeeds {
      inserted := store.RecordQueryLogPoll(nodeId, rows, checkpoint);
    }
  }

  /** One poll of a node, from checkpoint to recorded attempt. */
  method PollNode(store: QueryStore, poll: Poll) returns (inserted: nat)
    modifies store
    ensures store.Value() == QueryLog.PollNode(old(store.Value()), poll)
    ensures inserted == |store.rows| - |old(store.rows)|
  {
    hide Fetch, Numbered;
    inserted := 0;
    if !poll.loads {
      return;
    }
    var watermark := if poll.nodeId in store.checkpoints then store.checkpoints[poll.nodeId].watermark else None;
    if !poll.ready {
      inserted := Commit(store, poll.nodeId, [], Checkpoint(watermark, false, None), poll.records);
      return;
    }
    var outcome, r := ReadPages(poll, watermark);
    if outcome.Broken? {
      inserted := Commit(store, poll.nodeId, [], Checkpoint(watermark, false, outcome.gap), poll.records);
      return;
    }
    var p, gap := outcome.progress, outcome.progress.gap;
    if !p.exhausted && !p.crossedOverlap && !p.cursorStalled {
      gap := Some(SourceWindowTruncated);
    }
    if watermark.Some? {
      if r.newest.None? {
        gap := Some(SourceEmptyAfterCheckpoint);
      } else if r.newest.value < watermark.value {
        gap := Some(ClockRegressionOrReset);
      } else if p.exhausted && r.oldest.value > watermark.value + poll.overlap {
        gap := Some(NodeRetentionGap);
      }
    }
    var next := watermark;
    if r.newest.Some? && (watermark.None? || r.newest.value > watermark.value) {
      next := r.newest;
    }
    inserted := Commit(store, poll.nodeId, r.rows, Checkpoint(next, true, gap), poll.records);
  }
}
