/** Vacuum: the visible rows are read, renumbered from zero and written again as full pages. */
module Vacuum {
  import opened Sequences
  import opened LittleEndian
  import opened ColumnBytes
  import opened Versions
  import opened VersionIndex
  import opened Tables
  import opened TableSteps
  import opened TableStore
  import opened PageFile
  import opened TableBytes
  import opened TableContent
  import opened DiskTable
  import opened VacuumColumns

  /** The rows among the first n that a snapshot sees, in order. */
  function Alive(es: seq<Ver>, n: nat, q: nat): (ids: seq<nat>)
    ensures |ids| <= n && IdsBelow(ids, n) && Ascending(ids)
  {
    if n == 0 then [] else Alive(es, n - 1, q) + if Visible(es, n - 1, q) then [n - 1] else []
  }

  /** The pages follow one another from row 0, none empty and none over the batch size. */
  ghost predicate Tile(pages: seq<PageEntry>, n: nat) {
    if pages == [] then n == 0
    else
      var last := pages[|pages| - 1];
      0 < last.count <= BATCH_SIZE && last.start + last.count == n && Tile(pages[..|pages| - 1], last.start)
  }

  /** One committed version per row, rows 0, 1, 2, ... in order. */
  ghost predicate Renumbered(es: seq<Ver>, n: nat, ts: nat) {
    |es| == n && ts < FLAG && forall i :: 0 <= i < n ==> es[i].row == i && es[i].ts <= ts && es[i].offset != TOMB
  }

  lemma {:induction false} RenumberedSeen(es: seq<Ver>, n: nat, ts: nat, r: nat, q: nat)
    requires Renumbered(es, n, ts) && ts <= q
    ensures Visible(es, r, q) <==> r < n
  {
    assert forall e :: e in es ==> !Tomb(e);
    VisibleMeans(es, r, q);
    if r < n { assert es[r] in es && Candidate(es[r], r, q); }
  }

  lemma {:induction false} RenumberedInv(t: Table, ts: nat)
    requires Renumbered(t.index, |t.rows|, ts) && ToFlush(t) == [] && t.ws == map[] && t.dirty
    ensures Inv(t, ts)
  {
    NothingPending(t);
    assert t.queue == [] && (t.active.Some? ==> t.active.value.stamps == []);
    assert forall e :: e in t.index ==> !Tomb(e);
    forall e | e in All(t) ensures Known(e, |t.rows|, ts, {}) {}
  }

  /** The loop that asks, for every row, whether it is visible. */
  method CollectAlive(s: Store, q: nat, n: nat) returns (ids: seq<nat>)
    requires s.Valid() && n > 0
    modifies s.index
    ensures s.Valid() && !s.index.dirty && Ordered(old(s.index.entries), old(s.index.dirty), s.index.entries)
    ensures ids == Alive(s.index.entries, n, q)
  {
    ids := [];
    for r := 0 to n
      invariant s.Valid()
      invariant r > 0 ==> !s.index.dirty && Ordered(old(s.index.entries), old(s.index.dirty), s.index.entries)
      invariant r == 0 ==> s.index.entries == old(s.index.entries) && s.index.dirty == old(s.index.dirty)
      invariant ids == Alive(s.index.entries, r, q)
    {
      var seen := s.IsVisible(r, q);
      if seen { ids := ids + [r]; }
    }
  }

  /** Beyond the last timestamp issued, all snapshots see the same, in whatever order the index is. */
  lemma {:induction false} SameBeyond(t: Table, ts: nat, es: seq<Ver>, dirty: bool, q: nat, r: nat)
    requires Inv(t, ts) && ToFlush(t) == [] && Ordered(t.index, dirty, es) && ts <= q
    ensures Visible(es, r, q) <==> Visible(t.index, r, ts)
  {
    NothingPending(t);
    if dirty { VisiblePermuted(t.index, es, r, q); }
    VisibleMeans(t.index, r, q);
    VisibleMeans(t.index, r, ts);
    forall e | e in t.index && Committed(e) ensures e.ts <= ts { assert Known(e, |t.rows|, ts, t.ws.Keys); }
    SameCandidates(t.index, ts, q, r);
  }

  lemma SameCandidates(es: seq<Ver>, ts: nat, q: nat, r: nat)
    requires ts <= q && forall e :: e in es && Committed(e) ==> e.ts <= ts
    ensures Inserted(es, r, q) <==> Inserted(es, r, ts)
    ensures Deleted(es, r, q) <==> Deleted(es, r, ts)
  {
    forall e | e in es ensures Candidate(e, r, q) <==> Candidate(e, r, ts) {}
  }

  lemma {:induction false} AliveSame(a: seq<Ver>, p: nat, b: seq<Ver>, q: nat, n: nat)
    requires forall r :: Visible(a, r, p) <==> Visible(b, r, q)
    ensures Alive(a, n, p) == Alive(b, n, q)
  {
    if n > 0 { AliveSame(a, p, b, q, n - 1); }
  }

  /** max_timestamp and the probe: at least every stamp in the index. */
  method LatestStamp(es: seq<Ver>, probe: nat) returns (m: nat)
    ensures m >= probe && forall e :: e in es ==> e.ts <= m
  {
    m := probe;
    for i := 0 to |es|
      invariant m >= probe && forall j :: 0 <= j < i ==> es[j].ts <= m
    {
      if es[i].ts > m { m := es[i].ts; }
    }
  }

  // ── The rewriting ──

  /** The first columns of the rows, in pending form. */
  ghost predicate Columns(kinds: seq<Kind>, cols: seq<seq<byte>>, rows: seq<Row>)
    requires RowsOk(kinds, rows)
  {
    |cols| <= |kinds| && (cols == [] || (
      var n := |cols| - 1;
      cols[n] == ColumnBytes.Pending(kinds[n], Col(kinds, rows, n)) && Columns(kinds, cols[..n], rows)))
  }

  lemma {:induction false} ColumnsMore(kinds: seq<Kind>, cols: seq<seq<byte>>, rows: seq<Row>, col: seq<byte>)
    requires RowsOk(kinds, rows) && Columns(kinds, cols, rows) && |cols| < |kinds|
    requires col == ColumnBytes.Pending(kinds[|cols|], Col(kinds, rows, |cols|))
    ensures Columns(kinds, cols + [col], rows)
  {
    assert (cols + [col])[..|cols|] == cols;
  }

  lemma {:induction false} ColumnOf(kinds: seq<Kind>, cols: seq<seq<byte>>, rows: seq<Row>, ci: nat)
    requires RowsOk(kinds, rows) && Columns(kinds, cols, rows) && ci < |cols|
    ensures cols[ci] == ColumnBytes.Pending(kinds[ci], Col(kinds, rows, ci))
  {
    if ci < |cols| - 1 { ColumnOf(kinds, cols[..|cols| - 1], rows, ci); }
  }

  /** A column of the surviving rows, as read_rows gives it, becomes a pending column again. */
  method PendingColumn(d: Disk, ids: seq<nat>, ci: nat, ghost rows: seq<Row>) returns (col: seq<byte>)
    requires d.Valid() && IdsBelow(ids, |d.store.rows|) && ci < |d.kinds| && RowsOk(d.kinds, rows) && ColsOk(d.kinds, rows)
    requires Col(d.kinds, rows, ci) == Picked(Col(d.kinds, d.store.rows, ci), ids)
    ensures col == ColumnBytes.Pending(d.kinds[ci], Col(d.kinds, rows, ci))
  {
    var data := d.PickColumn(ids, ci);
    assert CellsOk(d.kinds[ci], Col(d.kinds, rows, ci));
    if d.kinds[ci].VarChar? { col := PrefixStrings(data, |ids|, Col(d.kinds, rows, ci)); } else { col := data; }
  }

  method PendingColumns(d: Disk, ids: seq<nat>, ghost rows: seq<Row>) returns (cols: seq<seq<byte>>)
    requires d.Valid() && IdsBelow(ids, |d.store.rows|) && RowsOk(d.kinds, rows) && ColsOk(d.kinds, rows)
    requires forall ci :: 0 <= ci < |d.kinds| ==> Col(d.kinds, rows, ci) == Picked(Col(d.kinds, d.store.rows, ci), ids)
    ensures Columns(d.kinds, cols, rows) && |cols| == |d.kinds|
  {
    cols := [];
    for ci := 0 to |d.kinds|
      invariant |cols| == ci && Columns(d.kinds, cols, rows)
    {
      var col := PendingColumn(d, ids, ci, rows);
      ColumnsMore(d.kinds, cols, rows, col);
      cols := cols + [col];
    }
  }

  /** The part of a column that goes to one batch. */
  method CutColumn(k: Kind, col: seq<byte>, a: nat, batch: nat, ghost cells: seq<Cell>) returns (part: seq<byte>)
    requires a + batch <= |cells| && CellsOk(k, cells) && col == ColumnBytes.Pending(k, cells)
    ensures CellsOk(k, cells[a..a + batch]) && part == ColumnBytes.Pending(k, cells[a..a + batch])
  {
    SliceOk(k, cells, a, a + batch);
    part := CutBatch(k, col, a, batch, cells);
  }

  /** The batch's part of a column. */
  ghost predicate PartIs(kinds: seq<Kind>, parts: seq<seq<byte>>, rows: seq<Row>, a: nat, batch: nat, ci: nat)
    requires RowsOk(kinds, rows) && a + batch <= |rows| && ci < |kinds|
  {
    ci < |parts| && CellsOk(kinds[ci], Col(kinds, rows, ci)[a..a + batch])
    && parts[ci] == ColumnBytes.Pending(kinds[ci], Col(kinds, rows, ci)[a..a + batch])
  }

  lemma {:induction false} PartsSpan(kinds: seq<Kind>, parts: seq<seq<byte>>, rows: seq<Row>, a: nat, batch: nat)
    requires RowsOk(kinds, rows) && |parts| == |kinds| && a + batch <= |rows|
    requires forall ci {:trigger PartIs(kinds, parts, rows, a, batch, ci)} :: 0 <= ci < |kinds| ==> PartIs(kinds, parts, rows, a, batch, ci)
    ensures Spans(kinds, parts, rows, a, batch)
  {
    var cols := Slices(Cols(kinds, rows), a, a + batch);
    forall ci | 0 <= ci < |kinds|
      ensures |cols[ci]| == batch && CellsOk(kinds[ci], cols[ci]) && parts[ci] == ColumnBytes.Pending(kinds[ci], cols[ci])
    {
      assert PartIs(kinds, parts, rows, a, batch, ci);
    }
  }

  /** The parts of all columns that go to one batch. */
  method CutColumns(kinds: seq<Kind>, cols: seq<seq<byte>>, a: nat, batch: nat, ghost rows: seq<Row>) returns (parts: seq<seq<byte>>)
    requires RowsOk(kinds, rows) && ColsOk(kinds, rows) && |cols| == |kinds| && a + batch <= |rows| && Columns(kinds, cols, rows)
    ensures Spans(kinds, parts, rows, a, batch)
  {
    parts := [];
    for ci := 0 to |kinds|
      invariant |parts| == ci
      invariant forall j {:trigger PartIs(kinds, parts, rows, a, batch, j)} :: 0 <= j < ci ==> PartIs(kinds, parts, rows, a, batch, j)
    {
      ghost var before := parts;
      ColumnOf(kinds, cols, rows, ci);
      assert CellsOk(kinds[ci], Col(kinds, rows, ci));
      var part := CutColumn(kinds[ci], cols[ci], a, batch, Col(kinds, rows, ci));
      parts := parts + [part];
      forall j | 0 <= j < ci ensures PartIs(kinds, parts, rows, a, batch, j) { assert PartIs(kinds, before, rows, a, batch, j); }
    }
    PartsSpan(kinds, parts, rows, a, batch);
  }

  /** From ts on, every snapshot sees exactly the first n rows. */
  ghost predicate SeesFirst(t: Table, n: nat, ts: nat) {
    forall r: nat, q: nat :: ts <= q ==> (Sees(t, r, q) <==> r < n)
  }

  lemma {:induction false} AliveBeyond(t: Table, ts: nat, es: seq<Ver>, top: nat, n: nat)
    requires Inv(t, ts) && ToFlush(t) == [] && Ordered(t.index, t.dirty, es) && ts <= top
    ensures Alive(es, n, top) == Alive(t.index, n, ts)
  {
    forall r ensures Visible(es, r, top) <==> Visible(t.index, r, ts) { SameBeyond(t, ts, es, t.dirty, top, r); }
    AliveSame(es, top, t.index, ts, n);
  }

  /** The rows that remain: those visible after everything committed so far. */
  method Survivors(s: Store, ts: nat) returns (ids: seq<nat>)
    requires s.Valid() && Inv(s.State(map[]), ts) && ToFlush(s.State(map[])) == [] && |s.rows| > 0
    modifies s.index
    ensures s.Valid() && ids == old(Alive(s.index.entries, |s.rows|, ts))
  {
    ghost var t := s.State(map[]);
    var top := LatestStamp(s.index.entries, ts + 1);
    ids := CollectAlive(s, top, s.rowCount);
    AliveBeyond(t, ts, s.index.entries, top, |s.rows|);
  }

  /** The rows that every snapshot from ts on sees. */
  ghost function Living(t: Table, ts: nat): (ids: seq<nat>)
    ensures IdsBelow(ids, |t.rows|)
  {
    Alive(All(t), |t.rows|, ts)
  }

  function NextBatch(n: nat): (b: nat)
    ensures b <= n && b <= BATCH_SIZE && (n > 0 ==> b > 0)
  {
    if n < BATCH_SIZE then n else BATCH_SIZE
  }

  /** Room in the file for the pages of n more rows. */
  predicate RoomFor(size: nat, n: nat)
    decreases n
  {
    size < TOMB && (n > 0 ==> RoomFor(size + PAGE_LIMIT, n - NextBatch(n)))
  }

  lemma {:induction false} RoomForBelow(size: nat, more: nat, n: nat)
    requires RoomFor(more, n) && size <= more
    ensures RoomFor(size, n)
    decreases n
  {
    if n > 0 { RoomForBelow(size + PAGE_LIMIT, more + PAGE_LIMIT, n - NextBatch(n)); }
  }

  /** No batch of rows makes a page of 4 GiB. */
  ghost predicate BatchesFit(kinds: seq<Kind>, rows: seq<Row>)
    requires RowsOk(kinds, rows)
  {
    forall w: nat, b: nat {:trigger BatchFits(kinds, w, b, rows)} :: w + b <= |rows| && b <= BATCH_SIZE ==> BatchFits(kinds, w, b, rows)
  }

  lemma {:induction false} RowsFront(kinds: seq<Kind>, rows: seq<Row>, n: nat)
    requires RowsOk(kinds, rows) && ColsOk(kinds, rows) && n <= |rows|
    ensures RowsOk(kinds, rows[..n]) && ColsOk(kinds, rows[..n])
    ensures forall ci :: 0 <= ci < |kinds| ==> Col(kinds, rows[..n], ci) == Col(kinds, rows, ci)[..n]
  {
    forall i | 0 <= i < n ensures RowOk(kinds, rows[..n][i]) { assert RowOk(kinds, rows[i]); }
    forall ci | 0 <= ci < |kinds| ensures Col(kinds, rows[..n], ci) == Col(kinds, rows, ci)[..n] {}
    forall ci | 0 <= ci < |kinds| ensures CellsOk(kinds[ci], Col(kinds, rows[..n], ci)) {
      assert CellsOk(kinds[ci], Col(kinds, rows, ci));
      SliceOk(kinds[ci], Col(kinds, rows, ci), 0, n);
      assert Col(kinds, rows, ci)[0..n] == Col(kinds, rows, ci)[..n];
    }
  }

  lemma {:induction false} SlicesFront(kinds: seq<Kind>, rows: seq<Row>, a: nat, b: nat)
    requires RowsOk(kinds, rows) && ColsOk(kinds, rows) && a <= b <= |rows|
    ensures RowsOk(kinds, rows[..b]) && Slices(Cols(kinds, rows[..b]), a, b) == Slices(Cols(kinds, rows), a, b)
  {
    RowsFront(kinds, rows, b);
    forall ci | 0 <= ci < |kinds| ensures Col(kinds, rows[..b], ci)[a..b] == Col(kinds, rows, ci)[a..b] {
      SliceOfPrefix(Col(kinds, rows[..b], ci), Col(kinds, rows, ci), a, b);
    }
  }

  lemma {:induction false} FileExtended(kinds: seq<Kind>, pages: seq<seq<byte>>, entries: seq<PageEntry>, rows: seq<Row>, a: nat, b: nat)
    requires RowsOk(kinds, rows) && ColsOk(kinds, rows) && a <= b <= |rows|
    requires RowsOk(kinds, rows[..a]) && AllContain(pages, entries, kinds, Cols(kinds, rows[..a]))
    ensures RowsOk(kinds, rows[..b]) && AllContain(pages, entries, kinds, Cols(kinds, rows[..b]))
  {
    RowsFront(kinds, rows, a);
    RowsFront(kinds, rows, b);
    MoreRows(pages, entries, kinds, Cols(kinds, rows[..a]), Cols(kinds, rows[..b]));
  }

  /** No rows have no bytes, wherever they are. */
  lemma {:induction false} EmptySpans(kinds: seq<Kind>, data: seq<seq<byte>>, rows: seq<Row>, a: nat, more: seq<Row>, b: nat)
    requires Spans(kinds, data, rows, a, 0) && RowsOk(kinds, more) && b <= |more|
    ensures Spans(kinds, data, more, b, 0)
  {
    forall ci | 0 <= ci < |kinds|
      ensures CellsOk(kinds[ci], Col(kinds, more, ci)[b..b + 0]) && data[ci] == ColumnBytes.Pending(kinds[ci], Col(kinds, more, ci)[b..b + 0])
    {
      assert data[ci] == ColumnBytes.Pending(kinds[ci], Slices(Cols(kinds, rows), a, a + 0)[ci]);
      assert Col(kinds, more, ci)[b..b + 0] == [] && Slices(Cols(kinds, rows), a, a + 0)[ci] == [];
    }
  }

  /** Nothing is pending. */
  predicate Settled(d: Content) { d.queue == [] && ActiveCount(d.active) == 0 }

  /** The content with one more page, of count rows from row a on. */
  function Extended(d: Content, page: seq<byte>, rows: seq<Row>, a: nat, count: nat): Content
    requires a + count <= |rows|
  {
    d.(file := d.file + page, pages := d.pages + [page], entries := d.entries + [PageEntry(a, count, |d.file|)], rows := rows[..a + count])
  }

  lemma {:induction false} ExtendedOk(kinds: seq<Kind>, sum: Sum, d: Content, page: seq<byte>, rows: seq<Row>, a: nat, count: nat)
    requires ContentOk(kinds, sum, d) && Settled(d) && 0 < count && a + count <= |rows| && d.rows == rows[..a]
    requires RowsOk(kinds, rows) && ColsOk(kinds, rows) && Sound(page, sum) && HasColumns(page, kinds, Slices(Cols(kinds, rows), a, a + count))
    ensures ContentOk(kinds, sum, Extended(d, page, rows, a, count))
  {
    RowsFront(kinds, rows, a + count);
    FileOk(kinds, sum, d, page, rows, a, count);
    EmptySpans(kinds, d.activeData, d.rows, |d.rows|, rows[..a + count], a + count);
  }

  lemma {:induction false} FileOk(kinds: seq<Kind>, sum: Sum, d: Content, page: seq<byte>, rows: seq<Row>, a: nat, count: nat)
    requires 0 < count && a + count <= |rows| && d.rows == rows[..a] && Flushed(d.entries) == a && RowsOk(kinds, d.rows)
    requires OnFile(d.file, d.pages, d.entries, kinds, Cols(kinds, d.rows), sum)
    requires RowsOk(kinds, rows) && ColsOk(kinds, rows) && Sound(page, sum) && HasColumns(page, kinds, Slices(Cols(kinds, rows), a, a + count))
    ensures RowsOk(kinds, rows[..a + count])
    ensures var u := Extended(d, page, rows, a, count);
            OnFile(u.file, u.pages, u.entries, kinds, Cols(kinds, u.rows), sum) && Flushed(u.entries) == a + count
  {
    FileExtended(kinds, d.pages, d.entries, rows, a, a + count);
    SlicesFront(kinds, rows, a, a + count);
    Appended(d.file, d.pages, d.entries, kinds, Cols(kinds, rows[..a + count]), sum, page, count);
  }

  /** The page of count rows from row a on. */
  method PageOf(kinds: seq<Kind>, types: seq<byte>, sum: Sum, lsn: nat, parts: seq<seq<byte>>, count: nat, ghost rows: seq<Row>, ghost a: nat)
    returns (page: seq<byte>)
    requires RowsOk(kinds, rows) && Spans(kinds, parts, rows, a, count) && BatchFits(kinds, a, count, rows) && Sums(sum) && |types| == |kinds|
    ensures |page| < PAGE_LIMIT && Sound(page, sum) && HasColumns(page, kinds, Slices(Cols(kinds, rows), a, a + count))
  {
    page := WriteBatch(kinds, types, parts, count, lsn, sum, Slices(Cols(kinds, rows), a, a + count));
  }

  /** Everything is dropped: file, pages, versions and rows. */
  method Clear(d: Disk)
    requires d.Valid() && Settled(d.Held())
    modifies d, d.store, d.store.index
    ensures d.Valid() && Settled(d.Held()) && d.file == [] && d.entries == []
    ensures d.store.rows == [] && d.store.index.entries == []
  {
    EmptySpans(d.kinds, d.activeData, d.store.rows, |d.store.rows|, [], 0);
    d.file, d.entries, d.pages := [], [], [];
    d.store.rowCount, d.store.rows := 0, [];
    d.store.index.entries, d.store.index.dirty := [], false;
  }

  lemma {:induction false} RenumberedMore(es: seq<Ver>, n: nat, ts: nat, batch: nat, page: nat)
    requires Renumbered(es, n, ts) && ts + 1 < FLAG && page != TOMB
    ensures Renumbered(es + BatchVers(Tables.Batch(n, seq(batch, _ => ts + 1)), page), n + batch, ts + 1)
  {
  }

  /** The versions of one page: consecutive ids and one timestamp. */
  method WriteVersions(d: Disk, a: nat, batch: nat, ts: nat, at: nat)
    requires d.Valid() && Renumbered(d.store.index.entries, a, ts) && ts + 1 < FLAG && at != TOMB
    modifies d.store.index
    ensures d.Valid() && Renumbered(d.store.index.entries, a + batch, ts + 1) && d.store.index.dirty
  {
    RenumberedMore(d.store.index.entries, a, ts, batch, at);
    d.store.WriteBatch(Tables.Batch(a, seq(batch, _ => ts + 1)), at);
  }

  /** The bytes of one page. */
  method WriteBytes(d: Disk, parts: seq<seq<byte>>, batch: nat, ghost rows: seq<Row>)
    requires d.Valid() && Settled(d.Held()) && |d.store.rows| + batch <= |rows| && d.store.rows == rows[..|d.store.rows|]
    requires RowsOk(d.kinds, rows) && ColsOk(d.kinds, rows) && BatchFits(d.kinds, |d.store.rows|, batch, rows)
    requires 0 < batch && Spans(d.kinds, parts, rows, |d.store.rows|, batch)
    modifies d, d.store
    ensures d.Valid() && d.store.queue == [] && d.store.active == old(d.store.active)
    ensures d.store.rows == rows[..|old(d.store.rows)| + batch] && |d.file| < |old(d.file)| + PAGE_LIMIT
    ensures d.entries == old(d.entries) + [PageEntry(|old(d.store.rows)|, batch, |old(d.file)|)]
  {
    var page := NextPage(d.kinds, d.types, d.sum, d.lsn, parts, batch, rows, |d.store.rows|, d.Held());
    PutPage(d, page, batch, Extended(d.Held(), page, rows, |d.store.rows|, batch));
  }

  /** The page goes to the end of the file and into the page list. */
  method PutPage(d: Disk, page: seq<byte>, batch: nat, ghost next: Content)
    requires d.Valid() && ContentOk(d.kinds, d.sum, next) && |next.rows| == d.store.rowCount + batch
    requires var entry := PageEntry(d.store.rowCount, batch, |d.file|);
             next == d.Held().(file := d.file + page, pages := next.pages, entries := d.entries + [entry], rows := next.rows)
    modifies d, d.store
    ensures d.Valid() && d.Held() == next
  {
    d.entries := d.entries + [PageEntry(d.store.rowCount, batch, |d.file|)];
    d.file := d.file + page;
    d.pages := next.pages;
    d.store.rowCount := d.store.rowCount + batch;
    d.store.rows := next.rows;
  }

  method NextPage(kinds: seq<Kind>, types: seq<byte>, sum: Sum, lsn: nat, parts: seq<seq<byte>>, batch: nat, ghost rows: seq<Row>, ghost a: nat,
                  ghost d: Content) returns (page: seq<byte>)
    requires ContentOk(kinds, sum, d) && Sums(sum) && |types| == |kinds| && Settled(d) && a + batch <= |rows| && d.rows == rows[..a]
    requires RowsOk(kinds, rows) && ColsOk(kinds, rows) && BatchFits(kinds, a, batch, rows) && 0 < batch && Spans(kinds, parts, rows, a, batch)
    ensures |page| < PAGE_LIMIT && ContentOk(kinds, sum, Extended(d, page, rows, a, batch))
  {
    page := PageOf(kinds, types, sum, lsn, parts, batch, rows, a);
    ExtendedOk(kinds, sum, d, page, rows, a, batch);
  }

  /** The rewriting, with this many rows written. */
  ghost predicate Rewriting(d: Disk, rows: seq<Row>, written: nat, ts: nat)
    reads d, d.store, d.store.index
  {
    && d.Valid() && Settled(d.Held()) && written <= |rows| && d.store.rows == rows[..written] && Tile(d.entries, written)
    && Renumbered(d.store.index.entries, written, ts) && (written > 0 ==> d.store.index.dirty)
  }

  /** What is rewritten: these rows, as pending columns. */
  ghost predicate Source(kinds: seq<Kind>, cols: seq<seq<byte>>, rows: seq<Row>) {
    RowsOk(kinds, rows) && ColsOk(kinds, rows) && BatchesFit(kinds, rows) && |cols| == |kinds| && Columns(kinds, cols, rows)
  }

  /** One round of the rewriting. */
  method RewriteBatch(d: Disk, cols: seq<seq<byte>>, written: nat, batch: nat, ts: nat, ghost rows: seq<Row>, ghost left: nat)
    requires Rewriting(d, rows, written, ts) && Source(d.kinds, cols, rows) && 0 < batch <= BATCH_SIZE && written + batch <= |rows|
    requires ts + 1 < FLAG && RoomFor(|d.file|, left) && batch == NextBatch(left)
    modifies d, d.store, d.store.index
    ensures Rewriting(d, rows, written + batch, ts + 1) && RoomFor(|d.file|, left - batch)
  {
    ghost var before := d.entries;
    var at := |d.file|;
    var parts := CutColumns(d.kinds, cols, written, batch, rows);
    WriteBytes(d, parts, batch, rows);
    WriteVersions(d, written, batch, ts, at);
    RoomForBelow(|d.file|, at + PAGE_LIMIT, left - batch);
    assert d.entries[..|d.entries| - 1] == before;
  }

  /** The rewriting loop. */
  method Rewrite(d: Disk, n: nat, cols: seq<seq<byte>>, ts: nat, ghost rows: seq<Row>) returns (ts': nat)
    requires Rewriting(d, rows, 0, ts) && Source(d.kinds, cols, rows) && d.file == []
    requires |rows| == n > 0 && ts + n + 1 < FLAG && RoomFor(0, n)
    modifies d, d.store, d.store.index
    ensures Rewriting(d, rows, n, ts') && ts < ts'
  {
    ts' := ts;
    var written: nat := 0;
    ghost var left: nat := n;
    while written < n
      invariant written + left == n && ts <= ts' <= ts + written && (written > 0 ==> ts < ts')
      invariant Rewriting(d, rows, written, ts') && RoomFor(|d.file|, left)
    {
      var batch: nat := NextBatch(n - written);
      RewriteBatch(d, cols, written, batch, ts', rows, left);
      left := left - batch;
      ts' := ts' + 1;
      written := written + batch;
    }
    assert written == n;
  }

  /** Flushing changes nothing about which rows live. */
  lemma {:induction false} LivingFlushed(t: Table, pages: seq<nat>, ts: nat)
    requires |pages| == |ToFlush(t)| && forall p :: p in pages ==> p != TOMB
    ensures var u := Flush(t, pages); ToFlush(u) == [] && |u.rows| == |t.rows| && Alive(u.index, |t.rows|, ts) == Living(t, ts)
  {
    var u := Flush(t, pages);
    AllFlush(t, pages);
    NothingPending(u);
    forall r ensures Visible(All(t), r, ts) <==> Visible(u.index, r, ts) { FlushSees(t, pages, r, ts); }
    AliveSame(All(t), ts, u.index, ts, |t.rows|);
  }

  /** The surviving rows are read, everything is dropped, and they are written again. */
  method Replace(d: Disk, ids: seq<nat>, ts: nat) returns (ts': nat)
    requires d.Valid() && Settled(d.Held()) && ids != [] && IdsBelow(ids, |d.store.rows|) && Ascending(ids)
    requires RowsOk(d.kinds, RowsAt(d.store.rows, ids)) && BatchesFit(d.kinds, RowsAt(d.store.rows, ids))
    requires ts + |ids| + 1 < FLAG && RoomFor(0, |ids|)
    modifies d, d.store, d.store.index
    ensures Rewriting(d, RowsAt(old(d.store.rows), ids), |ids|, ts') && ts < ts'
  {
    ghost var kept := RowsAt(d.store.rows, ids);
    PickCols(d.kinds, d.store.rows, ids);
    PickColsOk(d.kinds, d.store.rows, ids);
    var cols := PendingColumns(d, ids, kept);
    Clear(d);
    ts' := Rewrite(d, |ids|, cols, ts, kept);
  }

  /** What vacuuming leaves: these rows, seen by every snapshot from ts on. */
  ghost predicate Vacuumed(d: Disk, rows: seq<Row>, ts: nat)
    reads d, d.store, d.store.index
  {
    && d.Valid() && Settled(d.Held()) && d.store.rows == rows && Tile(d.entries, |rows|)
    && Inv(d.store.State(map[]), ts) && SeesFirst(d.store.State(map[]), |rows|, ts)
  }

  /** The same on a flushed table. */
  method RunFlushed(d: Disk, ts: nat) returns (n: nat, ts': nat)
    requires d.Valid() && Settled(d.Held()) && Inv(d.store.State(map[]), ts) && ts + |d.store.rows| + 2 < FLAG
    requires var kept := RowsAt(d.store.rows, Alive(d.store.index.entries, |d.store.rows|, ts));
             RowsOk(d.kinds, kept) && BatchesFit(d.kinds, kept) && RoomFor(0, |kept|)
    modifies d, d.store, d.store.index
    ensures Vacuumed(d, RowsAt(old(d.store.rows), old(Alive(d.store.index.entries, |d.store.rows|, ts))), ts') && ts <= ts'
    ensures n == |d.store.rows|
  {
    ts', n := ts, 0;
    if d.store.rowCount == 0 {
      NoRows(d.store.State(map[]), ts);
      return;
    }
    var ids := Survivors(d.store, ts);
    n := |ids|;
    ts' := ts + 1;
    if n == 0 { Clear(d); } else { ts' := Replace(d, ids, ts'); }
    Afterwards(d.store.State(map[]), n, ts');
  }

  /**
   Table::vacuum with no open transaction: exactly the rows seen at the end remain, in their order and
   byte for byte, renumbered from zero on pages without gaps; every snapshot from then on sees all of them.
   */
  method Run(d: Disk, ts: nat) returns (n: nat, ts': nat)
    requires d.Valid() && Inv(d.store.State(map[]), ts) && ts + |d.store.rows| + 2 < FLAG
    requires PagesFit(d.kinds, ToFlush(d.store.State(map[])), d.store.rows) && Room(|d.file|, |ToFlush(d.store.State(map[]))|)
    requires var kept := RowsAt(d.store.rows, Living(d.store.State(map[]), ts));
             RowsOk(d.kinds, kept) && BatchesFit(d.kinds, kept) && RoomFor(0, |kept|)
    modifies d, d.store, d.store.index
    ensures Vacuumed(d, RowsAt(old(d.store.rows), old(Living(d.store.State(map[]), ts))), ts') && ts <= ts'
    ensures n == |d.store.rows|
  {
    ghost var t := d.store.State(map[]);
    var offsets := d.Flush();
    LivingFlushed(t, offsets, ts);
    FlushInv(t, ts, offsets);
    n, ts' := RunFlushed(d, ts);
  }

  lemma {:induction false} NoRows(t: Table, ts: nat)
    requires Inv(t, ts) && t.rows == []
    ensures SeesFirst(t, 0, ts)
  {
    forall r: nat, q: nat | ts <= q ensures !Sees(t, r, q) { UnknownRow(t, ts, r, q); }
  }

  lemma {:induction false} Afterwards(t: Table, n: nat, ts: nat)
    requires n == |t.rows| && Renumbered(t.index, n, ts) && ToFlush(t) == [] && t.ws == map[]
    requires n > 0 ==> t.dirty
    ensures Inv(t, ts) && SeesFirst(t, n, ts)
  {
    NothingPending(t);
    if n > 0 { RenumberedInv(t, ts); } else { assert All(t) == []; }
    forall r: nat, q: nat | ts <= q ensures Sees(t, r, q) <==> r < n { RenumberedSeen(t.index, n, ts, r, q); }
  }
}
