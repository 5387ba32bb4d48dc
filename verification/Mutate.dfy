/**
 The rows that DELETE and UPDATE work on: the columns are read from the file, the filter selects rows
 of them, and the version index says which of those the reader sees.
 */
module Mutate {
  import opened Options
  import opened Sequences
  import opened LittleEndian
  import opened ColumnBytes
  import opened Values
  import opened Versions
  import opened Tables
  import opened TableSteps
  import opened TableStore
  import opened PageFile
  import opened TableBytes
  import opened TableContent
  import opened DiskTable
  import opened Mvcc
  import opened History
  import opened Update
  import Filters

  ghost predicate SchemaOk(types: seq<ColumnType>, names: seq<string>, kinds: seq<Kind>) {
    |types| == |names| == |kinds| && forall ci {:trigger KindOf(types[ci])} :: 0 <= ci < |kinds| ==> kinds[ci] == KindOf(types[ci])
  }

  /** The table as the filter sees it: the values of its rows, column by column. */
  function ScanOf(types: seq<ColumnType>, names: seq<string>, kinds: seq<Kind>, rows: seq<Row>, doubles: Doubles): Filters.Scan
    requires |types| == |kinds| && RowsOk(kinds, rows)
  {
    Filters.Scan(names, seq(|types|, ci requires 0 <= ci < |types| => Filters.Column(Decode(types[ci], Col(kinds, rows, ci), doubles), None)), |rows|)
  }

  lemma {:induction false} DecodedOk(ct: ColumnType, cells: seq<Cell>, doubles: Doubles)
    requires CellsOk(KindOf(ct), cells)
    ensures Filters.ColumnOk(Filters.Column(Decode(ct, cells, doubles), None), |cells|)
  {
    if ct.Int32? {
      Widths();
      forall i | 0 <= i < |cells| ensures Filters.Fits(Signed(FromLe(cells[i]), HALF32)) { FromLeBound(cells[i]); }
    }
  }

  lemma {:induction false} ScanValid(types: seq<ColumnType>, names: seq<string>, kinds: seq<Kind>, rows: seq<Row>, doubles: Doubles)
    requires SchemaOk(types, names, kinds) && RowsOk(kinds, rows) && ColsOk(kinds, rows)
    ensures Filters.Valid(ScanOf(types, names, kinds, rows, doubles))
  {
    var s := ScanOf(types, names, kinds, rows, doubles);
    forall ci | 0 <= ci < |types| ensures Filters.ColumnOk(s.columns[ci], s.rows) {
      assert kinds[ci] == KindOf(types[ci]);
      assert CellsOk(kinds[ci], Col(kinds, rows, ci));
      DecodedOk(types[ci], Col(kinds, rows, ci), doubles);
    }
  }

  /** The values of a scanned column, one row after the other. */
  method ReadColumn(ct: ColumnType, data: seq<byte>, n: nat, doubles: Doubles, ghost cells: seq<Cell>) returns (c: Filters.Cells)
    requires |cells| == n && Gives(KindOf(ct), data, cells)
    ensures c == Decode(ct, cells, doubles)
  {
    var read: seq<Cell> := [];
    for i := 0 to n
      invariant read == cells[..i]
    {
      read := read + [CellAt(KindOf(ct), data, n, i)];
    }
    assert cells[..n] == cells;
    c := Decode(ct, read, doubles);
  }

  /** read_table_columns on a flushed table. */
  method ReadTable(d: Disk, types: seq<ColumnType>, names: seq<string>, doubles: Doubles) returns (s: Filters.Scan)
    requires d.Valid() && SchemaOk(types, names, d.kinds) && Flushed(d.entries) == |d.store.rows|
    ensures s == ScanOf(types, names, d.kinds, d.store.rows, doubles)
  {
    var columns: seq<Filters.Column> := [];
    ghost var all := ScanOf(types, names, d.kinds, d.store.rows, doubles).columns;
    for ci := 0 to |types|
      invariant columns == all[..ci]
    {
      assert d.kinds[ci] == KindOf(types[ci]);
      var column := ReadOne(d, types[ci], ci, doubles);
      columns := columns + [column];
    }
    assert all[..|types|] == all;
    s := Filters.Scan(names, columns, d.store.rowCount);
  }

  method ReadOne(d: Disk, ct: ColumnType, ci: nat, doubles: Doubles) returns (c: Filters.Column)
    requires d.Valid() && ci < |d.kinds| && d.kinds[ci] == KindOf(ct) && Flushed(d.entries) == |d.store.rows|
    ensures c == Filters.Column(Decode(ct, Col(d.kinds, d.store.rows, ci), doubles), None)
  {
    ghost var cells := Col(d.kinds, d.store.rows, ci);
    var data := d.ScanColumn(ci);
    assert cells[..|cells|] == cells;
    var values := ReadColumn(ct, data, d.store.rowCount, doubles, cells);
    c := Filters.Column(values, None);
  }

  // ── Which rows ──

  /** The rows that the WHERE clause selects and the reader sees. */
  ghost predicate Wanted(scan: Filters.Scan, where: Option<Filters.Expr>, t: Table, q: nat, i: nat)
    requires Filters.Valid(scan) && (where.Some? ==> Filters.Resolves(scan, where.value))
  {
    i < scan.rows && (where.Some? ==> Filters.Satisfies(scan, where.value, i, true)) && Sees(t, i, q)
  }

  ghost predicate Targeted(ids: seq<nat>, scan: Filters.Scan, where: Option<Filters.Expr>, t: Table, q: nat)
    requires Filters.Valid(scan) && (where.Some? ==> Filters.Resolves(scan, where.value))
  {
    Ascending(ids) && forall i: nat :: i in ids <==> Wanted(scan, where, t, q, i)
  }

  /** The listed rows that a snapshot sees. */
  function SeenOf(ids: seq<nat>, es: seq<Ver>, q: nat): seq<nat> {
    if ids == [] then []
    else
      var n := |ids| - 1;
      SeenOf(ids[..n], es, q) + if Visible(es, ids[n], q) then [ids[n]] else []
  }

  lemma {:induction false} SeenMembers(ids: seq<nat>, es: seq<Ver>, q: nat)
    requires Ascending(ids)
    ensures Ascending(SeenOf(ids, es, q)) && forall i: nat :: i in SeenOf(ids, es, q) <==> i in ids && Visible(es, i, q)
  {
    if ids != [] {
      var n := |ids| - 1;
      var front := SeenOf(ids[..n], es, q);
      SeenMembers(ids[..n], es, q);
      assert ids == ids[..n] + [ids[n]];
      forall k | 0 <= k < |front| ensures front[k] < ids[n] { assert front[k] in front && front[k] in ids[..n]; }
    }
  }

  /** The loop over the selected rows, through the version index. */
  method KeepSeen(s: Store, ids: seq<nat>, q: nat) returns (out: seq<nat>)
    requires s.Valid() && Coherent(s.index.entries)
    modifies s.index
    ensures s.Valid() && Permuted(old(s.index.entries), s.index.entries) && out == SeenOf(ids, old(s.index.entries), q)
  {
    out := [];
    ghost var es := s.index.entries;
    for k := 0 to |ids|
      invariant s.Valid() && Permuted(es, s.index.entries) && out == SeenOf(ids[..k], es, q)
    {
      assert ids[..k + 1][..k] == ids[..k];
      var seen := IsSeen(s, ids[k], q, es);
      if seen { out := out + [ids[k]]; }
    }
    assert ids[..|ids|] == ids;
  }

  method IsSeen(s: Store, r: nat, q: nat, ghost es: seq<Ver>) returns (seen: bool)
    requires s.Valid() && Coherent(es) && Permuted(es, s.index.entries)
    modifies s.index
    ensures s.Valid() && Permuted(es, s.index.entries) && (seen <==> Visible(es, r, q))
  {
    seen := s.IsVisible(r, q);
    VisiblePermuted(es, s.index.entries, r, q);
  }

  /** The target rows of DELETE and UPDATE on a flushed table, whatever transactions are open on it. */
  method TargetRows(s: Store, scan: Filters.Scan, where: Option<Filters.Expr>, q: nat, cpu: Filters.Cpu, ghost ts: nat,
                    ghost ws: map<nat, WriteSet>) returns (r: Filters.Result<seq<nat>>)
    requires s.Valid() && Filters.Valid(scan) && Inv(s.State(ws), ts) && ToFlush(s.State(ws)) == []
    modifies s.index
    ensures s.Valid() && Permuted(old(s.index.entries), s.index.entries)
    ensures r.Ok? <==> where.None? || Filters.Resolves(scan, where.value)
    ensures r.Ok? ==> Targeted(r.value, scan, where, old(s.State(ws)), q) && Targets(s.State(ws), r.value, q)
  {
    NothingPending(s.State(ws));
    ghost var es := s.index.entries;
    var selected := Filters.EvaluateWhere(scan, where, cpu);
    if selected.Err? { return selected; }
    var ids := KeepSeen(s, selected.value, q);
    SeenMembers(selected.value, es, q);
    forall r | r in ids ensures Visible(s.index.entries, r, q) { VisiblePermuted(es, s.index.entries, r, q); }
    return Filters.Ok(ids);
  }

  /** What the flush leaves the same for the WHERE clause and the reader. */
  lemma {:induction false} TargetedFlushed(ids: seq<nat>, scan: Filters.Scan, where: Option<Filters.Expr>, t: Table, offsets: seq<nat>, q: nat)
    requires Filters.Valid(scan) && (where.Some? ==> Filters.Resolves(scan, where.value))
    requires |offsets| == |ToFlush(t)| && (forall p :: p in offsets ==> p != TOMB)
    requires Targeted(ids, scan, where, Tables.Flush(t, offsets), q)
    ensures Targeted(ids, scan, where, t, q)
  {
    forall i: nat ensures Wanted(scan, where, Tables.Flush(t, offsets), q, i) <==> Wanted(scan, where, t, q, i) { FlushSees(t, offsets, i, q); }
  }

  /** The table is flushed and then read. */
  method FlushAndRead(d: Disk, types: seq<ColumnType>, names: seq<string>, doubles: Doubles, ghost ws: map<nat, WriteSet>)
    returns (scan: Filters.Scan, ghost offsets: seq<nat>)
    requires d.Valid() && SchemaOk(types, names, d.kinds)
    requires PagesFit(d.kinds, ToFlush(d.store.State(map[])), d.store.rows) && Room(|d.file|, |ToFlush(d.store.State(map[]))|)
    modifies d, d.store, d.store.index
    ensures d.Valid() && d.store.rows == old(d.store.rows) && Filters.Valid(scan)
    ensures scan == ScanOf(types, names, d.kinds, d.store.rows, doubles)
    ensures |offsets| == |old(ToFlush(d.store.State(ws)))| && forall p :: p in offsets ==> p != TOMB
    ensures Flushed(d.entries) == |d.store.rows|
    ensures d.store.State(ws) == Tables.Flush(old(d.store.State(ws)), offsets)
  {
    assert ToFlush(d.store.State(ws)) == ToFlush(d.store.State(map[]));
    ScanValid(types, names, d.kinds, d.store.rows, doubles);
    offsets := d.Flush();
    scan := ReadTable(d, types, names, doubles);
  }

  /**
   DELETE and UPDATE up to the point where they know their rows: flush, read, filter, ask the index.  Any
   transactions may be open on the table, with these write sets.
   */
  method FindTargets(d: Disk, types: seq<ColumnType>, names: seq<string>, doubles: Doubles, where: Option<Filters.Expr>, q: nat, cpu: Filters.Cpu,
                     ghost ts: nat, ghost ws: map<nat, WriteSet>) returns (r: Filters.Result<seq<nat>>)
    requires d.Valid() && SchemaOk(types, names, d.kinds) && Inv(d.store.State(ws), ts)
    requires PagesFit(d.kinds, ToFlush(d.store.State(map[])), d.store.rows) && Room(|d.file|, |ToFlush(d.store.State(map[]))|)
    modifies d, d.store, d.store.index
    ensures d.Valid() && d.store.rows == old(d.store.rows) && Flushed(d.entries) == |d.store.rows|
    ensures var scan := ScanOf(types, names, d.kinds, d.store.rows, doubles);
            && Filters.Valid(scan) && (r.Ok? <==> where.None? || Filters.Resolves(scan, where.value))
            && (r.Ok? ==> Targeted(r.value, scan, where, old(d.store.State(ws)), q) && Targets(d.store.State(ws), r.value, q))
  {
    ghost var t := d.store.State(ws);
    var scan;
    ghost var offsets;
    scan, offsets := FlushAndRead(d, types, names, doubles, ws);
    FlushInv(t, ts, offsets);
    AllFlush(t, offsets);
    r := TargetRows(d.store, scan, where, q, cpu, ts, ws);
    if r.Ok? { TargetedFlushed(r.value, scan, where, t, offsets, q); }
  }

  // ── The rows that UPDATE inserts ──

  /** Every cell is as the program writes them. */
  ghost predicate PlainRows(types: seq<ColumnType>, kinds: seq<Kind>, rows: seq<Row>, f: Formats, doubles: Doubles)
    requires |types| == |kinds| && RowsOk(kinds, rows)
  {
    forall ci, r :: 0 <= ci < |kinds| && 0 <= r < |rows| ==> Plain(types[ci], Col(kinds, rows, ci)[r], f, doubles)
  }

  /** The scanned columns. */
  ghost predicate ScansOf(kinds: seq<Kind>, rows: seq<Row>, scans: seq<seq<byte>>)
    requires RowsOk(kinds, rows)
  {
    |scans| == |kinds| && forall ci :: 0 <= ci < |kinds| ==> Gives(kinds[ci], scans[ci], Col(kinds, rows, ci))
  }

  method ScanAll(d: Disk) returns (scans: seq<seq<byte>>)
    requires d.Valid() && Flushed(d.entries) == |d.store.rows|
    ensures ScansOf(d.kinds, d.store.rows, scans)
  {
    scans := [];
    for ci := 0 to |d.kinds|
      invariant |scans| == ci
      invariant forall k :: 0 <= k < ci ==> Gives(d.kinds[k], scans[k], Col(d.kinds, d.store.rows, k))
    {
      ghost var cells := Col(d.kinds, d.store.rows, ci);
      var data := d.ScanColumn(ci);
      assert cells[..|cells|] == cells;
      scans := scans + [data];
    }
  }

  /** One target with the new value in the column, every other value read from its cell and written again. */
  method NewRow(types: seq<ColumnType>, kinds: seq<Kind>, ghost rows: seq<Row>, scans: seq<seq<byte>>, n: nat, r: nat, col: nat,
                v: Filters.Value, f: Formats, doubles: Doubles) returns (row: Row)
    requires |types| == |kinds| && (forall ci :: 0 <= ci < |kinds| ==> kinds[ci] == KindOf(types[ci]))
    requires RowsOk(kinds, rows) && ScansOf(kinds, rows, scans) && PlainRows(types, kinds, rows, f, doubles)
    requires r < n == |rows| && col < |kinds|
    ensures Changed(rows[r], row, col, Encode(types[col], v, f))
  {
    assert TableBytes.RowOk(kinds, rows[r]);
    row := [];
    for ci := 0 to |kinds|
      invariant |row| == ci
      invariant forall k :: 0 <= k < ci ==> row[k] == if k == col then Encode(types[col], v, f) else rows[r][k]
    {
      if ci == col {
        row := row + [Encode(types[ci], v, f)];
      } else {
        var cell := CellAt(kinds[ci], scans[ci], n, r);
        assert cell == Col(kinds, rows, ci)[r] == rows[r][ci];
        Copied(types[ci], cell, f, doubles);
        row := row + [Encode(types[ci], ValueOf(types[ci], cell, doubles), f)];
      }
    }
  }

  /** The rows that replace the targets. */
  method NewRows(d: Disk, types: seq<ColumnType>, names: seq<string>, col: nat, v: Filters.Value, targets: seq<nat>, f: Formats, doubles: Doubles)
    returns (news: seq<Row>)
    requires d.Valid() && SchemaOk(types, names, d.kinds) && Flushed(d.entries) == |d.store.rows| && col < |names|
    requires IdsBelow(targets, |d.store.rows|) && PlainRows(types, d.kinds, d.store.rows, f, doubles)
    ensures AllChanged(d.store.rows, targets, news, col, Encode(types[col], v, f))
  {
    assert forall ci :: 0 <= ci < |d.kinds| ==> d.kinds[ci] == KindOf(types[ci]);
    var scans := ScanAll(d);
    news := [];
    for i := 0 to |targets|
      invariant |news| == i
      invariant forall k :: 0 <= k < i ==> Changed(d.store.rows[targets[k]], news[k], col, Encode(types[col], v, f))
    {
      var row := NewRow(types, d.kinds, d.store.rows, scans, d.store.rowCount, targets[i], col, v, f, doubles);
      news := news + [row];
    }
  }

  /**
   UPDATE up to the point where it deletes and inserts: an error for an unknown column, in SET or in WHERE;
   otherwise the rows to delete and, for each, the row to insert in its place.
   */
  method PlanUpdate(d: Disk, types: seq<ColumnType>, names: seq<string>, name: string, v: Filters.Value, where: Option<Filters.Expr>, q: nat,
                    cpu: Filters.Cpu, f: Formats, doubles: Doubles, ghost ts: nat, ghost ws: map<nat, WriteSet>)
    returns (r: Filters.Result<(seq<nat>, seq<Row>)>, ghost col: nat)
    requires d.Valid() && SchemaOk(types, names, d.kinds) && Inv(d.store.State(ws), ts)
    requires PagesFit(d.kinds, ToFlush(d.store.State(map[])), d.store.rows) && Room(|d.file|, |ToFlush(d.store.State(map[]))|)
    requires PlainRows(types, d.kinds, d.store.rows, f, doubles)
    modifies d, d.store, d.store.index
    ensures d.Valid() && d.store.rows == old(d.store.rows)
    ensures var scan := ScanOf(types, names, d.kinds, d.store.rows, doubles);
            && Filters.Valid(scan) && (r.Ok? <==> name in names && (where.None? || Filters.Resolves(scan, where.value)))
            && (r.Ok? ==>
                  && Targeted(r.value.0, scan, where, old(d.store.State(ws)), q) && Targets(d.store.State(ws), r.value.0, q)
                  && col < |names| && names[col] == name && name !in names[..col]
                  && AllChanged(d.store.rows, r.value.0, r.value.1, col, Encode(types[col], v, f)))
  {
    ScanValid(types, names, d.kinds, d.store.rows, doubles);
    var k := Filters.Position(names, name);
    col := 0;
    if k.None? { return Filters.Err(Filters.NotFound), col; }
    col := k.value;
    var targets := FindTargets(d, types, names, doubles, where, q, cpu, ts, ws);
    if targets.Err? { return Filters.Err(targets.error), col; }
    forall i | 0 <= i < |targets.value| ensures targets.value[i] < |d.store.rows| { assert targets.value[i] in targets.value; }
    var news := NewRows(d, types, names, k.value, v, targets.value, f, doubles);
    return Filters.Ok((targets.value, news)), col;
  }

  /**
   UPDATE with a WHERE clause.  If the rows it works on are those found at its snapshot, then once it has
   committed, readers find the column replaced in exactly the rows whose stored values satisfy the clause
   and that the transaction saw, if and only if none of those has been deleted meanwhile, by others or
   before by the transaction itself.  In any case they find one row for each of those, with the value in
   the column and the old cell in every other, and the other rows as they were.
   */
  lemma {:induction false} UpdateWhere(db: Db, h: Hist, steps: seq<Step>, tx: nat, t: nat, targets: seq<nat>, col: nat, v: Cell, q: nat,
                                       scan: Filters.Scan, where: Option<Filters.Expr>)
    requires Base(db, h) && Updates(db, steps, tx, t, targets, col, v) && q > After(db, steps).ts
    requires Filters.Valid(scan) && scan.rows == |db.tables[t].rows| && (where.Some? ==> Filters.Resolves(scan, where.value))
    requires Targeted(targets, scan, where, db.tables[t], db.open[tx])
    ensures var d := After(db, steps);
            && t < |d.tables| && t < |Apply(d, Commit(tx)).tables|
            && var x, y, ids := d.tables[t], Apply(d, Commit(tx)).tables[t], WantedIds(scan, where, db.tables[t], db.open[tx]);
               var left := SeenIds(x, q) - SetOf(db.tables[t], tx).del;
               && (Bag(y, q) == Mine(db, tx, t) + Rewritten(x.rows, left, ids, col, v, |x.rows|) <==> ids <= left)
               && Bag(y, q) == Mine(db, tx, t) + BagOf(x.rows, left - ids, |x.rows|) + multiset(Put(steps, tx, t))
               && AllChanged(db.tables[t].rows, targets, Put(steps, tx, t), col, v)
  {
    UpdateCells(db, h, steps, tx, t, targets, col, v, Put(steps, tx, t), q);
    UpdateAtomic(db, h, steps, tx, t, targets, col, v, q);
    UpdateSets(db, h, steps, tx, t, targets, col, v);
    TargetsSeen(After(db, steps).tables[t], targets, SetOf(db.tables[t], tx).del, q);
    assert IdSet(targets) == WantedIds(scan, where, db.tables[t], db.open[tx]);
  }

  ghost function WantedIds(scan: Filters.Scan, where: Option<Filters.Expr>, t: Table, q: nat): set<nat>
    requires Filters.Valid(scan) && (where.Some? ==> Filters.Resolves(scan, where.value))
  {
    set i: nat | i < scan.rows && Wanted(scan, where, t, q, i)
  }
}
