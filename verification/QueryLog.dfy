/** Incremental query-log ingestion: paging back through a node's log to an overlap with the last watermark,
    numbering equal records, and inserting what is not stored yet. */
module QueryLog {
  import opened Text

  type Id = string

  const PAGE_SIZE := 500
  const MAX_PAGES := 20

  /** A record as far as its fingerprint covers it; equal records have equal fingerprints and the other way round. */
  datatype Record = Record(timestamp: int, content: string)

  /** The cursor is the timestamp text of the oldest record of a page; None is the empty cursor. */
  type Cursor = Option<int>

  datatype Reply =
    | ReadError
    | Page(events: seq<Record>, invalid: nat, oldest: Cursor)

  /** What the node answers to the page request of a given number and cursor. */
  type Source = (nat, Cursor) -> Reply

  datatype Gap =
    | CursorStalled | MalformedRecord | CursorMissing | SourceWindowTruncated
    | SourceEmptyAfterCheckpoint | ClockRegressionOrReset | NodeRetentionGap

  datatype Progress = Progress(
    events: seq<Record>, cursor: Cursor, gap: Option<Gap>, exhausted: bool, crossedOverlap: bool, cursorStalled: bool)

  const START := Progress([], None, None, false, false, false)

  function Newest(events: seq<Record>): (r: int)
    requires events != []
    ensures forall e :: e in events ==> e.timestamp <= r
    ensures exists e :: e in events && e.timestamp == r
  {
    var last := events[|events| - 1];
    if |events| == 1 then last.timestamp
    else
      var before := Newest(events[..|events| - 1]);
      assert events == events[..|events| - 1] + [last];
      if last.timestamp > before then last.timestamp else before
  }

  function Oldest(events: seq<Record>): (r: int)
    requires events != []
    ensures forall e :: e in events ==> r <= e.timestamp
    ensures exists e :: e in events && e.timestamp == r
  {
    var last := events[|events| - 1];
    if |events| == 1 then last.timestamp
    else
      var before := Oldest(events[..|events| - 1]);
      assert events == events[..|events| - 1] + [last];
      if last.timestamp < before then last.timestamp else before
  }

  /** How paging ends: a failed read, with the gap noted so far, or what was fetched. */
  datatype Outcome = Broken(gap: Option<Gap>) | Fetched(progress: Progress)

  /** The paging loop from a given page on. */
  function Fetch(source: Source, watermark: Option<int>, overlap: int, page: nat, p: Progress): Outcome
    decreases MAX_PAGES - page
  {
    if page >= MAX_PAGES then Fetched(p)
    else
      match source(page, p.cursor)
      case ReadError => Broken(p.gap)
      case Page(events, invalid, oldest) =>
        if p.cursor.Some? && oldest == p.cursor then Fetched(p.(gap := Some(CursorStalled), cursorStalled := true))
        else
          var q := p.(events := p.events + events, gap := if invalid > 0 then Some(MalformedRecord) else p.gap);
          if |events| + invalid < PAGE_SIZE then Fetched(q.(exhausted := true))
          else if oldest.None? then Fetched(q.(gap := Some(CursorMissing), cursorStalled := true))
          else
            var r := q.(cursor := oldest);
            if watermark.Some? && r.events != [] && Oldest(r.events) < watermark.value - overlap
            then Fetched(r.(crossedOverlap := true))
            else Fetch(source, watermark, overlap, page + 1, r)
  }

  /** The gap a finished poll reports. */
  function GapOf(p: Progress, watermark: Option<int>, overlap: int): Option<Gap> {
    var truncated := if !p.exhausted && !p.crossedOverlap && !p.cursorStalled then Some(SourceWindowTruncated) else p.gap;
    if watermark.None? then truncated
    else if p.events == [] then Some(SourceEmptyAfterCheckpoint)
    else if Newest(p.events) < watermark.value then Some(ClockRegressionOrReset)
    else if p.exhausted && Oldest(p.events) > watermark.value + overlap then Some(NodeRetentionGap)
    else truncated
  }

  function NextWatermark(events: seq<Record>, watermark: Option<int>): Option<int> {
    if events == [] then watermark
    else if watermark.None? || Newest(events) > watermark.value then Some(Newest(events))
    else watermark
  }

  /** How often the record at k has been seen up to and including k. */
  function Occurrence(events: seq<Record>, k: nat): nat
    requires k < |events|
  {
    multiset(events[..k + 1])[events[k]]
  }

  // The tables.

  datatype Row = Row(nodeId: Id, event: Record, occurrence: nat)
  datatype Checkpoint = Checkpoint(watermark: Option<int>, succeeded: bool, gap: Option<Gap>)
  datatype Tables = Tables(rows: set<Row>, checkpoints: map<Id, Checkpoint>)

  function Numbered(nodeId: Id, events: seq<Record>): seq<Row> {
    seq(|events|, k requires 0 <= k < |events| => Row(nodeId, events[k], Occurrence(events, k)))
  }

  function Watermark(t: Tables, nodeId: Id): Option<int> {
    if nodeId in t.checkpoints then t.checkpoints[nodeId].watermark else None
  }

  /** RecordQueryLogPoll: insert what is absent, overwrite the checkpoint. */
  function RecordPoll(t: Tables, nodeId: Id, rows: seq<Row>, checkpoint: Checkpoint): Tables {
    Tables(t.rows + (set r | r in rows), t.checkpoints[nodeId := checkpoint])
  }

  /** One poll of a node. It is ready unless maintenance, an unsupported version, credentials or a disabled log
      stop it before the first page; its checkpoint may fail to load, and its outcome may fail to be recorded. */
  datatype Poll = Poll(nodeId: Id, ready: bool, source: Source, overlap: int, loads: bool, records: bool)
  {
    predicate Kept() {
      loads && records
    }
  }

  function OutcomeOf(t: Tables, poll: Poll): Outcome {
    if poll.ready then Fetch(poll.source, Watermark(t, poll.nodeId), poll.overlap, 0, START) else Broken(None)
  }

  function PollNode(t: Tables, poll: Poll): Tables {
    if poll.Kept() then PollAndRecord(t, poll) else t
  }

  function PollAndRecord(t: Tables, poll: Poll): Tables {
    var watermark := Watermark(t, poll.nodeId);
    match OutcomeOf(t, poll)
    case Broken(gap) => RecordPoll(t, poll.nodeId, [], Checkpoint(watermark, false, gap))
    case Fetched(p) =>
      RecordPoll(t, poll.nodeId, Numbered(poll.nodeId, p.events),
                 Checkpoint(NextWatermark(p.events, watermark), true, GapOf(p, watermark, poll.overlap)))
  }
}
