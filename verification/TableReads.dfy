/** Reading rows by id: every row of a table is on a page or in a pending batch. */
module TableReads {
  import opened Options
  import opened Sequences
  import opened LittleEndian
  import opened ColumnBytes
  import opened ColumnReads
  import opened Tables
  import opened PageFile
  import opened TableBytes
  import opened TableContent

  /** The rows of a batch, with their column ci. */
  function RangeOf(b: Tables.Batch, data: seq<seq<byte>>, ci: nat): Range {
    Range(b.start, |b.stamps|, if ci < |data| then data[ci] else [])
  }

  function QueueRanges(queue: seq<Tables.Batch>, data: seq<seq<seq<byte>>>, ci: nat): seq<Range> {
    if queue == [] || data == [] then [] else [RangeOf(queue[0], data[0], ci)] + QueueRanges(queue[1..], data[1..], ci)
  }

  function ActiveRanges(active: Option<Tables.Batch>, data: seq<seq<byte>>, ci: nat): seq<Range> {
    if ActiveCount(active) == 0 then [] else [RangeOf(active.value, data, ci)]
  }

  /** The pending batches in the order in which read_rows asks them. */
  function BatchRanges(active: Option<Tables.Batch>, activeData: seq<seq<byte>>, queue: seq<Tables.Batch>, data: seq<seq<seq<byte>>>, ci: nat): seq<Range> {
    ActiveRanges(active, activeData, ci) + QueueRanges(queue, data, ci)
  }

  lemma {:induction false} SpanHolds(kinds: seq<Kind>, data: seq<seq<byte>>, rows: seq<Row>, b: Tables.Batch, ci: nat)
    requires Spans(kinds, data, rows, b.start, |b.stamps|) && ci < |kinds|
    ensures BatchHolds(RangeOf(b, data, ci), kinds[ci], Col(kinds, rows, ci))
  {
    var cols := Slices(Cols(kinds, rows), b.start, b.start + |b.stamps|);
    assert data[ci] == ColumnBytes.Pending(kinds[ci], cols[ci]);
  }

  /** One of the ranges has the row. */
  lemma OnFirst(r: Range, rest: seq<Range>, rid: nat)
    ensures OnPage([r] + rest, rid) <==> Within(r, rid) || OnPage(rest, rid)
  {
    var all := [r] + rest;
    assert forall i :: 0 <= i < |rest| ==> all[i + 1] == rest[i];
    if Within(r, rid) { assert Within(all[0], rid); }
    if OnPage(rest, rid) {
      var i :| 0 <= i < |rest| && Within(rest[i], rid);
      assert Within(all[i + 1], rid);
    }
  }

  /** The queued batches hold the rows between the pages and the active batch. */
  lemma {:induction false} WaitingHolds(kinds: seq<Kind>, queue: seq<Tables.Batch>, data: seq<seq<seq<byte>>>, rows: seq<Row>, from: nat, to: nat, ci: nat)
    requires Waiting(kinds, queue, data, rows, from, to) && RowsOk(kinds, rows) && ci < |kinds|
    ensures BatchesHold(QueueRanges(queue, data, ci), kinds[ci], Col(kinds, rows, ci))
    ensures forall rid :: from <= rid < to ==> OnPage(QueueRanges(queue, data, ci), rid)
  {
    if queue != [] {
      var mid := from + |queue[0].stamps|;
      SpanHolds(kinds, data[0], rows, queue[0], ci);
      WaitingHolds(kinds, queue[1..], data[1..], rows, mid, to, ci);
      forall rid | from <= rid < to ensures OnPage(QueueRanges(queue, data, ci), rid) {
        OnFirst(RangeOf(queue[0], data[0], ci), QueueRanges(queue[1..], data[1..], ci), rid);
      }
    }
  }

  /** The active batch holds the last rows. */
  lemma {:induction false} ActiveAlso(kinds: seq<Kind>, d: Content, ci: nat)
    requires ActiveHolds(kinds, d.activeData, d.active, d.rows) && ActiveLast(d.active, |d.rows|) && ci < |kinds| && RowsOk(kinds, d.rows)
    ensures BatchesHold(ActiveRanges(d.active, d.activeData, ci), kinds[ci], Col(kinds, d.rows, ci))
    ensures forall rid :: ActiveStart(d.active, |d.rows|) <= rid < |d.rows| ==> OnPage(ActiveRanges(d.active, d.activeData, ci), rid)
  {
    if ActiveCount(d.active) > 0 {
      SpanHolds(kinds, d.activeData, d.rows, d.active.value, ci);
      forall rid | ActiveStart(d.active, |d.rows|) <= rid < |d.rows| ensures OnPage(ActiveRanges(d.active, d.activeData, ci), rid) {
        OnFirst(RangeOf(d.active.value, d.activeData, ci), [], rid);
      }
    }
  }

  lemma OnEither(a: seq<Range>, b: seq<Range>, rid: nat)
    requires OnPage(a, rid) || OnPage(b, rid)
    ensures OnPage(a + b, rid)
  {
    if OnPage(a, rid) {
      var i :| 0 <= i < |a| && Within(a[i], rid);
      assert Within((a + b)[i], rid);
    } else {
      var i :| 0 <= i < |b| && Within(b[i], rid);
      assert Within((a + b)[|a| + i], rid);
    }
  }

  /** Every row is on a page or in a pending batch. */
  lemma {:induction false} AllStored(kinds: seq<Kind>, sum: Sum, d: Content, ci: nat, rid: nat)
    requires ContentOk(kinds, sum, d) && ActiveLast(d.active, |d.rows|) && ci < |kinds| && rid < |d.rows|
    ensures Stored(RangesOf(d.entries, ColumnsOf(d.pages, ci)), BatchRanges(d.active, d.activeData, d.queue, d.queueData, ci), rid)
  {
    if rid < Flushed(d.entries) {
      RangesCover(RangesOf(d.entries, ColumnsOf(d.pages, ci)), d.entries, rid);
    } else {
      WaitingHolds(kinds, d.queue, d.queueData, d.rows, Flushed(d.entries), ActiveStart(d.active, |d.rows|), ci);
      ActiveAlso(kinds, d, ci);
      OnEither(ActiveRanges(d.active, d.activeData, ci), QueueRanges(d.queue, d.queueData, ci), rid);
    }
  }

  /** What read_rows finds for each id is the row's cell. */
  lemma {:induction false} ReadsAll(kinds: seq<Kind>, sum: Sum, d: Content, ids: seq<nat>, ci: nat)
    requires ContentOk(kinds, sum, d) && ActiveLast(d.active, |d.rows|) && ci < |kinds| && IdsBelow(ids, |d.rows|)
    ensures var ranges, batches := RangesOf(d.entries, ColumnsOf(d.pages, ci)), BatchRanges(d.active, d.activeData, d.queue, d.queueData, ci);
            && PagesHold(ranges, kinds[ci], Col(kinds, d.rows, ci)) && BatchesHold(batches, kinds[ci], Col(kinds, d.rows, ci))
            && Gathered(ranges, batches, kinds[ci], Col(kinds, d.rows, ci), ids) == Picked(Col(kinds, d.rows, ci), ids)
  {
    RangesHold(d.pages, d.entries, kinds, Cols(kinds, d.rows), ci);
    WaitingHolds(kinds, d.queue, d.queueData, d.rows, Flushed(d.entries), ActiveStart(d.active, |d.rows|), ci);
    ActiveAlso(kinds, d, ci);
    var ranges, batches := RangesOf(d.entries, ColumnsOf(d.pages, ci)), BatchRanges(d.active, d.activeData, d.queue, d.queueData, ci);
    forall i | 0 <= i < |ids| ensures Stored(ranges, batches, ids[i]) { AllStored(kinds, sum, d, ci, ids[i]); }
  }
}
