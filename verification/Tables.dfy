/**
 One table under transactions: its version index, its rows still in pending batches, and the write
 sets of the open transactions.  Each operation is a function on the whole table.
 */
module Tables {
  import opened Options
  import opened LittleEndian
  import opened Versions
  import opened VersionEdits

  type Row = seq<Cell>

  const BATCH_SIZE := 8192

  /** Rows not yet on a page: consecutive ids from start, one stamp each. */
  datatype Batch = Batch(start: nat, stamps: seq<nat>)

  /** Row ids as a transaction listed them, and which of them it inserted or deleted. */
  datatype WriteSet = WriteSet(rows: seq<nat>, ins: set<nat>, del: set<nat>)

  datatype Table = Table(
    index: seq<Ver>,
    dirty: bool,
    queue: seq<Batch>,
    active: Option<Batch>,
    rows: seq<Row>,
    ws: map<nat, WriteSet>)

  const EMPTY: Table := Table([], false, [], None, [], map[])

  // ── All versions of a table, flushed or not ──

  function BatchVers(b: Batch, page: nat): seq<Ver> {
    seq(|b.stamps|, i requires 0 <= i < |b.stamps| => Ver(b.start + i, b.stamps[i], page))
  }

  /** Batch k becomes a page at pages[k]. */
  function QueueVers(bs: seq<Batch>, pages: seq<nat>): seq<Ver>
    requires |pages| == |bs|
  {
    if bs == [] then [] else BatchVers(bs[0], pages[0]) + QueueVers(bs[1..], pages[1..])
  }

  function Batches(t: Table): seq<Batch> {
    t.queue + if t.active.Some? then [t.active.value] else []
  }

  /** The pages of rows that have none yet; any offset but TOMB would do. */
  function NoPages(n: nat): seq<nat> { seq(n, _ => 0) }

  function Pending(t: Table): seq<Ver> { QueueVers(Batches(t), NoPages(|Batches(t)|)) }

  function All(t: Table): seq<Ver> { t.index + Pending(t) }

  /** Whether a reader at snapshot q sees the row, wherever its version is kept. */
  predicate Sees(t: Table, row: nat, q: nat) { Visible(All(t), row, q) }

  lemma {:induction false} QueueVersConcat(a: seq<Batch>, p: seq<nat>, b: seq<Batch>, q: seq<nat>)
    requires |a| == |p| && |b| == |q|
    ensures QueueVers(a + b, p + q) == QueueVers(a, p) + QueueVers(b, q)
  {
    if a == [] {
      assert a + b == b && p + q == q;
    } else {
      QueueVersConcat(a[1..], p[1..], b, q);
      assert (a + b)[1..] == a[1..] + b && (p + q)[1..] == p[1..] + q;
      var x, y, z := BatchVers(a[0], p[0]), QueueVers(a[1..], p[1..]), QueueVers(b, q);
      assert x + (y + z) == (x + y) + z;
    }
  }

  lemma {:induction false} QueueVersOne(b: Batch, page: nat)
    ensures QueueVers([b], [page]) == BatchVers(b, page)
  {
    assert [b][1..] == [] && [page][1..] == [];
  }

  /** The pending versions are those queued, then those of the active batch. */
  lemma {:induction false} PendingParts(t: Table)
    ensures Pending(t) == QueueVers(t.queue, NoPages(|t.queue|)) +
                          if t.active.Some? then BatchVers(t.active.value, 0) else []
  {
    if t.active.Some? {
      assert NoPages(|t.queue| + 1) == NoPages(|t.queue|) + [0];
      QueueVersConcat(t.queue, NoPages(|t.queue|), [t.active.value], [0]);
      QueueVersOne(t.active.value, 0);
    } else {
      assert Batches(t) == t.queue;
    }
  }

  lemma {:induction false} PendingNoTombs(bs: seq<Batch>, pages: seq<nat>)
    requires |pages| == |bs| && forall p :: p in pages ==> p != TOMB
    ensures forall e :: e in QueueVers(bs, pages) ==> !Tomb(e)
  {
    if bs != [] {
      assert pages[0] in pages;
      assert forall p :: p in pages[1..] ==> p in pages;
      PendingNoTombs(bs[1..], pages[1..]);
    }
  }

  // ── Operations ──

  /** The batch the next row goes to; an empty one starts at the row count. */
  function Current(t: Table): Batch {
    if t.active.None? || t.active.value.stamps == [] then Batch(|t.rows|, []) else t.active.value
  }

  /** insert_row: into the active batch, which goes to the flush queue when full. */
  function PutRow(t: Table, stamp: nat, row: Row): Table {
    var b := Current(t);
    var full := b.(stamps := b.stamps + [stamp]);
    var u := t.(rows := t.rows + [row]);
    if |full.stamps| >= BATCH_SIZE then u.(queue := t.queue + [full], active := None)
    else u.(active := Some(full))
  }

  function AddInsert(t: Table, tx: nat, rid: nat): Table {
    var w := if tx in t.ws then t.ws[tx] else WriteSet([], {}, {});
    t.(ws := t.ws[tx := WriteSet(w.rows + [rid], w.ins + {rid}, w.del)])
  }

  /** A row inserted by an open transaction carries its flagged id. */
  function InsertTx(t: Table, tx: nat, row: Row): Table {
    AddInsert(PutRow(t, Flagged(tx), row), tx, |t.rows|)
  }

  /** What flush_pending writes: the queue and, if it has rows, the active batch. */
  function ToFlush(t: Table): seq<Batch> {
    t.queue + if t.active.Some? && t.active.value.stamps != [] then [t.active.value] else []
  }

  function Flush(t: Table, pages: seq<nat>): Table
    requires |pages| == |ToFlush(t)|
  {
    if pages == [] then t
    else
      t.(index := t.index + QueueVers(ToFlush(t), pages), dirty := true, queue := [],
         active := if t.active.Some? && t.active.value.stamps == [] then t.active else None)
  }

  function TombVers(rows: seq<nat>, stamp: nat): seq<Ver> {
    seq(|rows|, i requires 0 <= i < |rows| => Ver(rows[i], stamp, TOMB))
  }

  function Delete(t: Table, rows: seq<nat>, stamp: nat): Table {
    t.(index := t.index + TombVers(rows, stamp), dirty := true)
  }

  function AddDelete(t: Table, tx: nat, rows: seq<nat>): Table {
    var w := if tx in t.ws then t.ws[tx] else WriteSet([], {}, {});
    t.(ws := t.ws[tx := WriteSet(w.rows + rows, w.ins, w.del + set r | r in rows)])
  }

  function DeleteTx(t: Table, tx: nat, rows: seq<nat>): Table {
    AddDelete(Delete(t, rows, Flagged(tx)), tx, rows)
  }

  function StampBatch(b: Batch, rows: seq<nat>, target: nat, c: nat): Batch {
    b.(stamps := seq(|b.stamps|, i requires 0 <= i < |b.stamps| =>
                   if b.start + i in rows && b.stamps[i] == target then c else b.stamps[i]))
  }

  function StampQueue(bs: seq<Batch>, rows: seq<nat>, target: nat, c: nat): seq<Batch> {
    seq(|bs|, i requires 0 <= i < |bs| => StampBatch(bs[i], rows, target, c))
  }

  /** commit_rows: active batch, flush queue and version index in turn; the write set is dropped. */
  function Finish(t: Table, tx: nat, c: nat): Table {
    if tx !in t.ws then t
    else
      var rows, target := t.ws[tx].rows, Flagged(tx);
      t.(index := StampAll(t.index, rows, target, c),
         queue := StampQueue(t.queue, rows, target, c),
         active := if t.active.None? then None else Some(StampBatch(t.active.value, rows, target, c)),
         ws := t.ws - {tx})
  }

  /** The sort inside search, commit_rows and prune: any ordered permutation. */
  function Resort(t: Table, s: seq<Ver>): Table { t.(index := s, dirty := false) }

  function Prune(t: Table, cutoff: nat): Table { t.(index := Pruned(t.index, cutoff)) }

  // ── The invariant ──

  ghost predicate Gone(all: seq<Ver>, r: nat) { forall e :: e in all ==> e.row != r }

  /** A write set lists each row as often as it was stamped, and knows what was done to it. */
  ghost predicate Tracks(all: seq<Ver>, tx: nat, w: WriteSet) {
    && (forall r :: Matches(all, r, Flagged(tx)) <= Count(w.rows, r))
    && (forall r :: r in w.ins <==> Stamped(all, r, Flagged(tx), false))
    && (forall r :: Stamped(all, r, Flagged(tx), true) ==> r in w.del)
    && (forall r :: r in w.del ==> Stamped(all, r, Flagged(tx), true) || Gone(all, r))
  }

  /** Stamps are issued timestamps, aborted, or ids of transactions with a write set here. */
  predicate Known(e: Ver, n: nat, ts: nat, txs: set<nat>) {
    && e.row < n
    && (e.ts <= ts || e.ts == ABORTED || (e.ts >= FLAG && e.ts - FLAG in txs))
  }

  ghost predicate BatchesOk(t: Table) {
    && (t.active.Some? ==>
          && |t.active.value.stamps| < BATCH_SIZE
          && (t.active.value.stamps != [] ==> t.active.value.start + |t.active.value.stamps| == |t.rows|))
    && (forall b :: b in t.queue ==> |b.stamps| <= BATCH_SIZE)
  }

  ghost predicate Inv(t: Table, ts: nat) {
    && ts < FLAG
    && Coherent(All(t))
    && TombsFollow(t.index)
    && (!t.dirty ==> RowSorted(t.index) && InsertLast(t.index))
    && (forall e :: e in All(t) ==> Known(e, |t.rows|, ts, t.ws.Keys))
    && BatchesOk(t)
    && (forall tx :: tx in t.ws ==>
          && tx < FLAG - 1
          && Tracks(All(t), tx, t.ws[tx])
          && forall r :: r in t.ws[tx].del ==> r < |t.rows|)
  }
}
