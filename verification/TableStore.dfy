/** One table as an object: pending batches, rows and the version index, changed in place. */
module TableStore {
  import opened Options
  import opened Versions
  import opened VersionIndex
  import opened Tables
  import opened TableFinish
  import Sequences

  /** The index is put in order, as s, and then the transaction ends. */
  ghost predicate EndsAs(t: Table, tx: nat, c: nat, s: seq<Ver>, u: Table) {
    Ordered(t.index, t.dirty, s) && u == Finish(Resort(t, s), tx, c)
  }

  class Store {
    const index: Index
    var queue: seq<Batch>
    var active: Option<Batch>
    var rowCount: nat
    /** The rows, by id: what pages and pending batches hold. */
    ghost var rows: seq<Row>

    ghost predicate Valid()
      reads this, index
    {
      index.Valid() && BatchesOk(State(map[])) && rowCount == |rows|
    }

    /** The table that the object holds, together with the write sets of the open transactions. */
    ghost function State(ws: map<nat, WriteSet>): Table
      reads this, index
    {
      Table(index.entries, index.dirty, queue, active, rows, ws)
    }

    constructor ()
      ensures Valid() && State(map[]) == EMPTY && fresh(index)
    {
      index := new Index();
      queue, active, rowCount, rows := [], None, 0, [];
    }

    /** insert_row; the batch goes to the flush queue when it is full. */
    method InsertRow(stamp: nat, ghost row: Row) returns (rid: nat)
      requires Valid()
      modifies this
      ensures Valid() && rid == |old(rows)|
      ensures forall ws :: State(ws) == PutRow(old(State(ws)), stamp, row)
    {
      var batch := if active.None? then Batch(0, []) else active.value;
      if |batch.stamps| == 0 { batch := batch.(start := rowCount); }
      rid := batch.start + |batch.stamps|;
      batch := batch.(stamps := batch.stamps + [stamp]);
      rows := rows + [row];
      rowCount := rowCount + 1;
      active := Some(batch);
      if |batch.stamps| >= BATCH_SIZE {
        active := None;
        queue := queue + [batch];
      }
    }

    /** insert_version_entries with one deletion mark per row. */
    method DeleteRows(targets: seq<nat>, stamp: nat)
      requires Valid()
      modifies index
      ensures Valid()
      ensures forall ws :: State(ws) == Delete(old(State(ws)), targets, stamp)
    {
      var marks: seq<Ver> := [];
      for i := 0 to |targets|
        invariant marks == TombVers(targets[..i], stamp)
      {
        marks := marks + [Ver(targets[i], stamp, TOMB)];
      }
      assert targets[..|targets|] == targets;
      index.InsertBulk(marks);
    }

    /** flush_pending: the active batch joins the queue, and every queued batch becomes a page. */
    method FlushPending(pages: seq<nat>)
      requires Valid() && |pages| == |ToFlush(State(map[]))|
      modifies this, index
      ensures Valid()
      ensures forall ws :: State(ws) == Flush(old(State(ws)), pages)
    {
      ghost var all := ToFlush(State(map[]));
      if active.Some? && |active.value.stamps| > 0 {
        queue := queue + [active.value];
        active := None;
      }
      assert queue == all;
      var k := 0;
      while queue != []
        invariant k <= |all| && queue == all[k..]
        invariant index.Valid() && active == (if old(active).Some? && old(active).value.stamps == [] then old(active) else None)
        invariant rows == old(rows) && rowCount == old(rowCount)
        invariant index.entries == old(index.entries) + QueueVers(all[..k], pages[..k])
        invariant index.dirty == (old(index.dirty) || k > 0)
        decreases |queue|
      {
        var batch := queue[0];
        queue := queue[1..];
        WriteBatch(batch, pages[k]);
        NextPage(all, pages, k, old(index.entries));
        k := k + 1;
      }
      assert all[..|all|] == all && pages[..|all|] == pages;
    }

    /** write_batch_to_page: the versions of the batch's rows go to the index, with the page. */
    method WriteBatch(batch: Batch, page: nat)
      requires index.Valid()
      modifies index
      ensures index.Valid() && index.dirty && index.entries == old(index.entries) + BatchVers(batch, page)
    {
      var vers: seq<Ver> := [];
      for i := 0 to |batch.stamps|
        invariant vers == BatchVers(batch, page)[..i]
      {
        vers := vers + [Ver(batch.start + i, batch.stamps[i], page)];
      }
      assert vers == BatchVers(batch, page);
      index.InsertBulk(vers);
    }

    /** The pending rows of a transaction get the stamp, in the active batch and in the queue. */
    method StampPending(targets: seq<nat>, target: nat, c: nat)
      modifies this
      ensures queue == StampQueue(old(queue), targets, target, c) && rows == old(rows) && rowCount == old(rowCount)
      ensures active == if old(active).None? then None else Some(StampBatch(old(active).value, targets, target, c))
    {
      if active.Some? {
        var b := Stamp(active.value, targets, target, c);
        active := Some(b);
      }
      for i := 0 to |queue|
        invariant queue == StampQueue(old(queue)[..i], targets, target, c) + old(queue)[i..]
        invariant rows == old(rows) && rowCount == old(rowCount)
        invariant active == if old(active).None? then None else Some(StampBatch(old(active).value, targets, target, c))
      {
        var b := Stamp(queue[i], targets, target, c);
        StampNext(old(queue), i, targets, target, c);
        queue := queue[i := b];
      }
      assert old(queue)[..|queue|] == old(queue);
    }

    /** commit_rows: active batch, flush queue and version index, in turn. */
    method CommitRows(targets: seq<nat>, tx: nat, c: nat, ghost ws: map<nat, WriteSet>)
      requires Valid() && tx in ws && ws[tx].rows == targets
      modifies this, index
      ensures Valid()
      ensures targets == [] ==> State(ws - {tx}) == Finish(old(State(ws)), tx, c)
      ensures targets != [] ==> exists s :: EndsAs(old(State(ws)), tx, c, s, State(ws - {tx}))
    {
      StampPending(targets, Flagged(tx), c);
      assert BatchesOk(State(map[])) by { FinishBatches(old(State(ws)), tx, c); }
      if targets != [] {
        index.CommitRows(targets, tx, c);
        ghost var s :| Ordered(old(index.entries), old(index.dirty), s) && index.entries == StampAll(s, targets, Flagged(tx), c);
        assert EndsAs(old(State(ws)), tx, c, s, State(ws - {tx}));
      }
    }

    /** Whether a reader at the snapshot sees the row, once the pending rows are flushed. */
    method IsVisible(row: nat, q: nat) returns (seen: bool)
      requires Valid() && index.Valid()
      modifies index
      ensures Valid() && !index.dirty && Ordered(old(index.entries), old(index.dirty), index.entries)
      ensures seen <==> Visible(index.entries, row, q)
    {
      var r := index.Search(row, q, 0);
      return r.Some? && r.value != TOMB;
    }
  }

  /** The loop over the committed rows for one batch. */
  method Stamp(b: Batch, targets: seq<nat>, target: nat, c: nat) returns (r: Batch)
    ensures r == StampBatch(b, targets, target, c)
  {
    r := b;
    for i := 0 to |targets|
      invariant r == StampBatch(b, targets[..i], target, c)
    {
      var rid := targets[i];
      StampOneMore(b, targets, i, target, c);
      if b.start <= rid < b.start + |b.stamps| {
        var offset := rid - b.start;
        if r.stamps[offset] == target { r := r.(stamps := r.stamps[offset := c]); }
      }
    }
    assert targets[..|targets|] == targets;
  }

  lemma {:induction false} StampOneMore(b: Batch, targets: seq<nat>, i: nat, target: nat, c: nat)
    requires i < |targets|
    ensures var r, rid := StampBatch(b, targets[..i], target, c), targets[i];
            StampBatch(b, targets[..i + 1], target, c) ==
            if b.start <= rid < b.start + |b.stamps| && r.stamps[rid - b.start] == target
            then r.(stamps := r.stamps[rid - b.start := c]) else r
  {
    assert targets[..i + 1] == targets[..i] + [targets[i]];
  }

  lemma {:induction false} StampNext(bs: seq<Batch>, i: nat, targets: seq<nat>, target: nat, c: nat)
    requires i < |bs|
    ensures var was := StampQueue(bs[..i], targets, target, c) + bs[i..];
            was[i] == bs[i] &&
            was[i := StampBatch(bs[i], targets, target, c)] == StampQueue(bs[..i + 1], targets, target, c) + bs[i + 1..]
  {
    assert bs[..i + 1] == bs[..i] + [bs[i]];
  }

  lemma {:induction false} NextPage(all: seq<Batch>, pages: seq<nat>, k: nat, es: seq<Ver>)
    requires k < |all| == |pages|
    ensures (es + QueueVers(all[..k], pages[..k])) + BatchVers(all[k], pages[k]) ==
            es + QueueVers(all[..k + 1], pages[..k + 1])
  {
    assert all[..k + 1] == all[..k] + [all[k]] && pages[..k + 1] == pages[..k] + [pages[k]];
    QueueVersConcat(all[..k], pages[..k], [all[k]], [pages[k]]);
    QueueVersOne(all[k], pages[k]);
    Sequences.ConcatAssoc(es, QueueVers(all[..k], pages[..k]), BatchVers(all[k], pages[k]));
  }
}
