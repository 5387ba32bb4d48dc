/**
 What a table keeps in bytes: pages on file, queued batches and the active batch, holding its rows one
 after the other.  Insertion and flushing keep it so.
 */
module TableContent {
  import opened Options
  import opened LittleEndian
  import opened ColumnBytes
  import opened Versions
  import opened Tables
  import opened PageFile
  import opened TableBytes

  /** The queued batches hold the rows from one to another, and have the bytes of their rows. */
  ghost predicate Waiting(kinds: seq<Kind>, queue: seq<Tables.Batch>, data: seq<seq<seq<byte>>>, rows: seq<Row>, from: nat, to: nat) {
    if queue == [] then data == [] && from == to
    else
      && data != [] && queue[0].start == from && queue[0].stamps != [] && Spans(kinds, data[0], rows, from, |queue[0].stamps|)
      && Waiting(kinds, queue[1..], data[1..], rows, from + |queue[0].stamps|, to)
  }

  /** The active batch takes the next rows. */
  function ActiveStart(active: Option<Tables.Batch>, n: nat): nat {
    if active.None? || active.value.stamps == [] then n else active.value.start
  }

  ghost predicate ActiveHolds(kinds: seq<Kind>, data: seq<seq<byte>>, active: Option<Tables.Batch>, rows: seq<Row>) {
    Spans(kinds, data, rows, ActiveStart(active, |rows|), if active.None? then 0 else |active.value.stamps|)
  }

  lemma {:induction false} WaitingMore(kinds: seq<Kind>, queue: seq<Tables.Batch>, data: seq<seq<seq<byte>>>, rows: seq<Row>, from: nat, to: nat, row: Row)
    requires Waiting(kinds, queue, data, rows, from, to) && RowOk(kinds, row)
    ensures Waiting(kinds, queue, data, rows + [row], from, to)
  {
    if queue != [] {
      SpansMore(kinds, data[0], rows, from, |queue[0].stamps|, row);
      WaitingMore(kinds, queue[1..], data[1..], rows, from + |queue[0].stamps|, to, row);
    }
  }

  /** One more batch in the queue. */
  lemma {:induction false} QueueJoins(kinds: seq<Kind>, queue: seq<Tables.Batch>, data: seq<seq<seq<byte>>>, rows: seq<Row>, from: nat,
                                      b: Tables.Batch, last: seq<seq<byte>>)
    requires Waiting(kinds, queue, data, rows, from, b.start) && Spans(kinds, last, rows, b.start, |b.stamps|) && b.stamps != []
    ensures Waiting(kinds, queue + [b], data + [last], rows, from, b.start + |b.stamps|)
  {
    var q, d := queue + [b], data + [last];
    if queue == [] {
      assert q[1..] == [] && d[1..] == [];
    } else {
      QueueJoins(kinds, queue[1..], data[1..], rows, from + |queue[0].stamps|, b, last);
      assert q[1..] == queue[1..] + [b] && d[1..] == data[1..] + [last];
    }
  }

  lemma {:induction false} FileMore(pages: seq<seq<byte>>, entries: seq<PageEntry>, kinds: seq<Kind>, rows: seq<Row>, row: Row)
    requires RowsOk(kinds, rows) && RowOk(kinds, row) && AllContain(pages, entries, kinds, Cols(kinds, rows))
    ensures RowsOk(kinds, rows + [row]) && AllContain(pages, entries, kinds, Cols(kinds, rows + [row]))
  {
    RowsMore(kinds, rows, row);
    MoreRows(pages, entries, kinds, Cols(kinds, rows), Cols(kinds, rows + [row]));
  }

  /** A fresh batch holds no rows. */
  lemma {:induction false} NothingActive(kinds: seq<Kind>, data: seq<seq<byte>>, rows: seq<Row>)
    requires RowsOk(kinds, rows) && |data| == |kinds| && forall ci :: 0 <= ci < |kinds| ==> data[ci] == []
    ensures Spans(kinds, data, rows, |rows|, 0)
  {
    forall ci | 0 <= ci < |kinds|
      ensures Col(kinds, rows, ci)[|rows|..|rows| + 0] == [] && CellsOk(kinds[ci], []) && ColumnBytes.Pending(kinds[ci], []) == []
    {
    }
  }

  // ── Everything a table keeps ──

  datatype Content = Content(
    file: seq<byte>, pages: seq<seq<byte>>, entries: seq<PageEntry>,
    queue: seq<Tables.Batch>, queueData: seq<seq<seq<byte>>>,
    active: Option<Tables.Batch>, activeData: seq<seq<byte>>,
    rows: seq<Row>)

  function ActiveCount(active: Option<Tables.Batch>): nat { if active.None? then 0 else |active.value.stamps| }

  /** Pages, queued batches and the active batch hold the rows of the table, one after the other. */
  ghost predicate ContentOk(kinds: seq<Kind>, sum: Sum, d: Content) {
    && RowsOk(kinds, d.rows) && ColsOk(kinds, d.rows)
    && OnFile(d.file, d.pages, d.entries, kinds, Cols(kinds, d.rows), sum)
    && Waiting(kinds, d.queue, d.queueData, d.rows, Flushed(d.entries), ActiveStart(d.active, |d.rows|))
    && ActiveHolds(kinds, d.activeData, d.active, d.rows)
  }

  /** The active batch ends where the table does. */
  predicate ActiveLast(active: Option<Tables.Batch>, n: nat) { ActiveStart(active, n) + ActiveCount(active) == n }

  function NoData(n: nat): (s: seq<seq<byte>>)
    ensures |s| == n
  {
    seq(n, _ => [])
  }

  /** The content with one more row, whose batch is b now and has this data. */
  function Grown(d: Content, kinds: seq<Kind>, b: Tables.Batch, data: seq<seq<byte>>, row: Row): Content {
    if |b.stamps| >= BATCH_SIZE
    then d.(rows := d.rows + [row], queue := d.queue + [b], queueData := d.queueData + [data], active := None, activeData := NoData(|kinds|))
    else d.(rows := d.rows + [row], active := Some(b), activeData := data)
  }

  lemma {:induction false} GrownFile(kinds: seq<Kind>, sum: Sum, d: Content, row: Row)
    requires ContentOk(kinds, sum, d) && RowOk(kinds, row)
    ensures RowsOk(kinds, d.rows + [row]) && OnFile(d.file, d.pages, d.entries, kinds, Cols(kinds, d.rows + [row]), sum)
    ensures Waiting(kinds, d.queue, d.queueData, d.rows + [row], Flushed(d.entries), ActiveStart(d.active, |d.rows|))
  {
    FileMore(d.pages, d.entries, kinds, d.rows, row);
    WaitingMore(kinds, d.queue, d.queueData, d.rows, Flushed(d.entries), ActiveStart(d.active, |d.rows|), row);
  }

  lemma {:induction false} GrownOk(kinds: seq<Kind>, sum: Sum, d: Content, b: Tables.Batch, data: seq<seq<byte>>, row: Row)
    requires ContentOk(kinds, sum, d) && RowOk(kinds, row) && ActiveLast(d.active, |d.rows|) && b.stamps != []
    requires RowsOk(kinds, d.rows + [row]) && ColsOk(kinds, d.rows + [row])
    requires b.start == ActiveStart(d.active, |d.rows|) && |b.stamps| == ActiveCount(d.active) + 1
    requires Spans(kinds, data, d.rows + [row], b.start, |b.stamps|)
    ensures ContentOk(kinds, sum, Grown(d, kinds, b, data, row))
  {
    GrownFile(kinds, sum, d, row);
    if |b.stamps| >= BATCH_SIZE {
      QueueJoins(kinds, d.queue, d.queueData, d.rows + [row], Flushed(d.entries), b, data);
      NothingActive(kinds, NoData(|kinds|), d.rows + [row]);
    }
  }

  // ── Flushing ──

  /** flush_pending first moves the active batch, if it has rows, to the queue. */
  function Handed(d: Content, kinds: seq<Kind>): Content {
    if ActiveCount(d.active) == 0 then d
    else d.(queue := d.queue + [d.active.value], queueData := d.queueData + [d.activeData], active := None, activeData := NoData(|kinds|))
  }

  lemma HandedQueue(kinds: seq<Kind>, d: Content, t: Table)
    requires t.queue == d.queue && t.active == d.active
    ensures Handed(d, kinds).queue == ToFlush(t)
  {
  }

  lemma AfterFlush(kinds: seq<Kind>, d: Content, t: Table, offsets: seq<nat>, u: Table)
    requires t.queue == d.queue && t.active == d.active && t.rows == d.rows && |offsets| == |ToFlush(t)| && u == Tables.Flush(t, offsets)
    ensures u.queue == [] && u.active == Handed(d, kinds).active && u.rows == d.rows && ActiveCount(u.active) == 0
  {
  }

  lemma {:induction false} HandedOk(kinds: seq<Kind>, sum: Sum, d: Content)
    requires ContentOk(kinds, sum, d) && ActiveLast(d.active, |d.rows|)
    ensures ContentOk(kinds, sum, Handed(d, kinds))
  {
    if ActiveCount(d.active) > 0 {
      QueueJoins(kinds, d.queue, d.queueData, d.rows, Flushed(d.entries), d.active.value, d.activeData);
      NothingActive(kinds, NoData(|kinds|), d.rows);
    }
  }

  /** The first queued batch is on file, as this page. */
  function Paged(d: Content, page: seq<byte>): Content
    requires d.queue != [] && d.queueData != []
  {
    var e := PageEntry(Flushed(d.entries), |d.queue[0].stamps|, |d.file|);
    d.(file := d.file + page, pages := d.pages + [page], entries := d.entries + [e], queue := d.queue[1..], queueData := d.queueData[1..])
  }

  /** The columns of the first queued batch. */
  ghost function First(kinds: seq<Kind>, d: Content): seq<seq<Cell>>
    requires d.queue != [] && RowsOk(kinds, d.rows) && d.queue[0].start + |d.queue[0].stamps| <= |d.rows|
  {
    Slices(Cols(kinds, d.rows), d.queue[0].start, d.queue[0].start + |d.queue[0].stamps|)
  }

  lemma {:induction false} PagedOk(kinds: seq<Kind>, sum: Sum, d: Content, page: seq<byte>)
    requires ContentOk(kinds, sum, d) && d.queue != [] && d.queue[0].start + |d.queue[0].stamps| <= |d.rows|
    requires Sound(page, sum) && HasColumns(page, kinds, First(kinds, d))
    ensures d.queueData != [] && ContentOk(kinds, sum, Paged(d, page))
  {
    Appended(d.file, d.pages, d.entries, kinds, Cols(kinds, d.rows), sum, page, |d.queue[0].stamps|);
  }

  /** Every pending batch makes a page below 4 GiB. */
  ghost predicate PagesFit(kinds: seq<Kind>, queue: seq<Tables.Batch>, rows: seq<Row>)
    requires RowsOk(kinds, rows)
  {
    queue == [] || (BatchFits(kinds, queue[0].start, |queue[0].stamps|, rows) && PagesFit(kinds, queue[1..], rows))
  }

  ghost predicate BatchFits(kinds: seq<Kind>, start: nat, count: nat, rows: seq<Row>)
    requires RowsOk(kinds, rows)
  {
    start + count <= |rows| && count < U32 && PageFits(kinds, Slices(Cols(kinds, rows), start, start + count), count)
  }

  /** Room for n more pages in the file. */
  predicate Room(size: nat, n: nat)
    decreases n
  {
    size < TOMB && (n > 0 ==> Room(size + PAGE_LIMIT, n - 1))
  }

  lemma {:induction false} RoomBelow(size: nat, more: nat, n: nat)
    requires Room(more, n) && size <= more
    ensures Room(size, n)
    decreases n
  {
    if n > 0 { RoomBelow(size + PAGE_LIMIT, more + PAGE_LIMIT, n - 1); }
  }

  method WriteFirst(kinds: seq<Kind>, types: seq<byte>, sum: Sum, lsn: nat, count: nat, data: seq<seq<byte>>, ghost d: Content)
    returns (page: seq<byte>)
    requires ContentOk(kinds, sum, d) && d.queue != [] && PagesFit(kinds, d.queue, d.rows) && Sums(sum) && |types| == |kinds|
    requires d.queueData != [] && count == |d.queue[0].stamps| && data == d.queueData[0]
    ensures |page| < PAGE_LIMIT && ContentOk(kinds, sum, Paged(d, page))
  {
    FirstPending(kinds, sum, d);
    page := WriteBatch(kinds, types, data, count, lsn, sum, First(kinds, d));
    PagedOk(kinds, sum, d, page);
  }

  lemma {:induction false} FirstPending(kinds: seq<Kind>, sum: Sum, d: Content)
    requires ContentOk(kinds, sum, d) && d.queue != [] && PagesFit(kinds, d.queue, d.rows)
    ensures d.queueData != [] && BatchFits(kinds, d.queue[0].start, |d.queue[0].stamps|, d.rows)
    ensures PendingOk(kinds, d.queueData[0], First(kinds, d), |d.queue[0].stamps|)
  {
  }

  /** What the flush loop changes. */
  datatype Progress = Progress(file: seq<byte>, entries: seq<PageEntry>, queue: seq<Tables.Batch>, data: seq<seq<seq<byte>>>)

  ghost function WithProgress(d: Content, p: Progress, pages: seq<seq<byte>>): Content {
    d.(file := p.file, entries := p.entries, queue := p.queue, queueData := p.data, pages := pages)
  }

  /** One round of the flush loop. */
  method FlushFirst(kinds: seq<Kind>, types: seq<byte>, sum: Sum, lsn: nat, p: Progress, ghost pages: seq<seq<byte>>, ghost d: Content)
    returns (next: Progress, ghost more: seq<seq<byte>>)
    requires ContentOk(kinds, sum, WithProgress(d, p, pages)) && p.queue != [] && p.data != []
    requires PagesFit(kinds, p.queue, d.rows) && Sums(sum) && |types| == |kinds| && Room(|p.file|, |p.queue|)
    ensures ContentOk(kinds, sum, WithProgress(d, next, more)) && PagesFit(kinds, next.queue, d.rows)
    ensures next.queue == p.queue[1..] && Room(|next.file|, |next.queue|) && |p.file| < TOMB
  {
    assert Room(|p.file| + PAGE_LIMIT, |p.queue| - 1);
    var page := WriteFirst(kinds, types, sum, lsn, |p.queue[0].stamps|, p.data[0], WithProgress(d, p, pages));
    var e := PageEntry(Flushed(p.entries), |p.queue[0].stamps|, |p.file|);
    RoomBelow(|p.file + page|, |p.file| + PAGE_LIMIT, |p.queue| - 1);
    next := Progress(p.file + page, p.entries + [e], p.queue[1..], p.data[1..]);
    more := pages + [page];
    assert WithProgress(d, next, more) == Paged(WithProgress(d, p, pages), page);
  }

  /** The flush loop. */
  method FlushAll(kinds: seq<Kind>, types: seq<byte>, sum: Sum, lsn: nat, start: Progress, ghost pages: seq<seq<byte>>, ghost d: Content)
    returns (p: Progress, offsets: seq<nat>, ghost more: seq<seq<byte>>)
    requires ContentOk(kinds, sum, WithProgress(d, start, pages))
    requires PagesFit(kinds, start.queue, d.rows) && Sums(sum) && |types| == |kinds| && Room(|start.file|, |start.queue|)
    ensures ContentOk(kinds, sum, WithProgress(d, p, more)) && p.queue == [] && p.data == []
    ensures |offsets| == |start.queue| && forall x :: x in offsets ==> x != TOMB
  {
    p, offsets, more := start, [], pages;
    while p.queue != []
      invariant |offsets| + |p.queue| == |start.queue| && forall x :: x in offsets ==> x != TOMB
      invariant ContentOk(kinds, sum, WithProgress(d, p, more)) && PagesFit(kinds, p.queue, d.rows) && Room(|p.file|, |p.queue|)
      decreases |p.queue|
    {
      var at: nat := |p.file|;
      p, more := FlushFirst(kinds, types, sum, lsn, p, more, d);
      offsets := offsets + [at];
    }
  }

  /** Everything is on these pages. */
  function Written(d: Content, kinds: seq<Kind>, file: seq<byte>, pages: seq<seq<byte>>, entries: seq<PageEntry>): Content {
    Content(file, pages, entries, [], [], Handed(d, kinds).active, Handed(d, kinds).activeData, d.rows)
  }

  /** flush_pending: the active batch joins the queue, and the queue is written. */
  method FlushQueue(kinds: seq<Kind>, types: seq<byte>, sum: Sum, lsn: nat, start: Progress, active: Option<Tables.Batch>, activeData: seq<seq<byte>>,
                    ghost d: Content) returns (p: Progress, offsets: seq<nat>, ghost more: seq<seq<byte>>)
    requires ContentOk(kinds, sum, d) && ActiveLast(d.active, |d.rows|) && active == d.active && activeData == d.activeData
    requires WithProgress(d, start, d.pages) == d
    requires PagesFit(kinds, Handed(d, kinds).queue, d.rows) && Sums(sum) && |types| == |kinds|
    requires Room(|d.file|, |Handed(d, kinds).queue|)
    ensures ContentOk(kinds, sum, Written(d, kinds, p.file, more, p.entries))
    ensures Flushed(p.entries) == |d.rows| && |offsets| == |Handed(d, kinds).queue| && forall x :: x in offsets ==> x != TOMB
  {
    p := start;
    if active.Some? && |active.value.stamps| > 0 {
      p := p.(queue := p.queue + [active.value], data := p.data + [activeData]);
    }
    HandedOk(kinds, sum, d);
    assert WithProgress(Handed(d, kinds), p, d.pages) == Handed(d, kinds);
    p, offsets, more := FlushAll(kinds, types, sum, lsn, p, d.pages, Handed(d, kinds));
    assert WithProgress(Handed(d, kinds), p, more) == Written(d, kinds, p.file, more, p.entries);
  }

  /** The bytes of the active batch with one more row. */
  method AppendRow(kinds: seq<Kind>, activeData: seq<seq<byte>>, row: Row, ghost rows: seq<Row>, ghost start: nat, ghost count: nat)
    returns (data: seq<seq<byte>>)
    requires Spans(kinds, activeData, rows, start, count) && start + count == |rows| && RowOk(kinds, row)
    requires RowsOk(kinds, rows + [row]) && ColsOk(kinds, rows + [row])
    ensures Spans(kinds, data, rows + [row], start, count + 1)
  {
    ghost var cols := Slices(Cols(kinds, rows), start, start + count);
    data := AppendCells(kinds, activeData, row, cols, count);
    SpansGrow(kinds, activeData, rows, start, count, row, data);
  }

  lemma {:induction false} ActiveIsLast(t: Table)
    requires BatchesOk(t)
    ensures ActiveLast(t.active, |t.rows|)
    ensures var b := Current(t); b.start == ActiveStart(t.active, |t.rows|) && |b.stamps| == ActiveCount(t.active)
  {
  }
}
