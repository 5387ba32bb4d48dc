/** Rows and columns of a table: the cells of a column, and the pending bytes that insertion appends. */
module TableBytes {
  import opened Sequences
  import opened LittleEndian
  import opened ColumnBytes
  import opened Tables
  import opened PageFile

  /** A row has a cell per column, of the column's size. */
  predicate RowOk(kinds: seq<Kind>, row: Row) {
    |row| == |kinds| && forall ci :: 0 <= ci < |kinds| && kinds[ci].Fixed? ==> |row[ci]| == kinds[ci].size
  }

  predicate RowsOk(kinds: seq<Kind>, rows: seq<Row>) {
    forall i {:trigger RowOk(kinds, rows[i])} :: 0 <= i < |rows| ==> RowOk(kinds, rows[i])
  }

  /** Column ci of the rows. */
  function Col(kinds: seq<Kind>, rows: seq<Row>, ci: nat): (s: seq<Cell>)
    requires RowsOk(kinds, rows) && ci < |kinds|
    ensures |s| == |rows|
  {
    seq(|rows|, i requires 0 <= i < |rows| => assert RowOk(kinds, rows[i]); rows[i][ci])
  }

  function Cols(kinds: seq<Kind>, rows: seq<Row>): (s: seq<seq<Cell>>)
    requires RowsOk(kinds, rows)
    ensures |s| == |kinds| && Long(s, |rows|)
  {
    seq(|kinds|, ci requires 0 <= ci < |kinds| => Col(kinds, rows, ci))
  }

  /** The offsets of every string column fit 32 bits. */
  ghost predicate ColsOk(kinds: seq<Kind>, rows: seq<Row>)
    requires RowsOk(kinds, rows)
  {
    forall ci {:trigger CellsOk(kinds[ci], Col(kinds, rows, ci))} :: 0 <= ci < |kinds| ==> CellsOk(kinds[ci], Col(kinds, rows, ci))
  }

  lemma {:induction false} RowsMore(kinds: seq<Kind>, rows: seq<Row>, row: Row)
    requires RowsOk(kinds, rows) && RowOk(kinds, row)
    ensures RowsOk(kinds, rows + [row])
    ensures forall ci :: 0 <= ci < |kinds| ==> Col(kinds, rows + [row], ci) == Col(kinds, rows, ci) + [row[ci]]
  {
    assert RowsOk(kinds, rows + [row]);
    forall ci | 0 <= ci < |kinds| ensures Col(kinds, rows + [row], ci) == Col(kinds, rows, ci) + [row[ci]] {}
  }

  // ── Parts of a column ──

  lemma {:induction false} SliceOk(k: Kind, cells: seq<Cell>, a: nat, b: nat)
    requires CellsOk(k, cells) && a <= b <= |cells|
    ensures CellsOk(k, cells[a..b])
  {
    if k.VarChar? {
      FlatShorter(cells, b);
      FlatConcat(cells[..a], cells[a..b]);
      assert cells[..b] == cells[..a] + cells[a..b];
    }
  }

  /** Reading a column back, cell by cell. */
  ghost predicate Gives(k: Kind, data: seq<byte>, cells: seq<Cell>) {
    forall i :: 0 <= i < |cells| ==> CellAt(k, data, |cells|, i) == cells[i]
  }

  lemma {:induction false} ScannedGives(k: Kind, cells: seq<Cell>)
    requires CellsOk(k, cells)
    ensures Gives(k, Scanned(k, cells), cells)
  {
    forall i | 0 <= i < |cells| ensures CellAt(k, Scanned(k, cells), |cells|, i) == cells[i] { ReadsBack(k, cells, i); }
  }

  /** Picking rows does not make a column longer. */
  lemma {:induction false} PickShorter(cells: seq<Cell>, ids: seq<nat>)
    requires IdsBelow(ids, |cells|) && Ascending(ids)
    ensures |Flat(Picked(cells, ids))| <= |Flat(cells)|
  {
    if ids != [] {
      var n := |ids| - 1;
      var front, last := ids[..n], ids[n];
      assert IdsBelow(front, last);
      PickShorter(cells[..last], front);
      assert Picked(cells[..last], front) == Picked(cells, ids)[..n];
      FlatAt(cells, last);
    }
  }

  lemma {:induction false} PickOk(k: Kind, cells: seq<Cell>, ids: seq<nat>)
    requires CellsOk(k, cells) && IdsBelow(ids, |cells|) && Ascending(ids)
    ensures CellsOk(k, Picked(cells, ids))
  {
    PickShorter(cells, ids);
  }

  function RowsAt(rows: seq<Row>, ids: seq<nat>): (r: seq<Row>)
    requires IdsBelow(ids, |rows|)
    ensures |r| == |ids|
  {
    seq(|ids|, i requires 0 <= i < |ids| => rows[ids[i]])
  }

  /** Picking rows picks the cells of every column. */
  lemma {:induction false} PickCols(kinds: seq<Kind>, rows: seq<Row>, ids: seq<nat>)
    requires RowsOk(kinds, rows) && IdsBelow(ids, |rows|)
    ensures RowsOk(kinds, RowsAt(rows, ids))
    ensures forall ci :: 0 <= ci < |kinds| ==> Col(kinds, RowsAt(rows, ids), ci) == Picked(Col(kinds, rows, ci), ids)
  {
    forall i | 0 <= i < |ids| ensures RowOk(kinds, RowsAt(rows, ids)[i]) { assert RowOk(kinds, rows[ids[i]]); }
    forall ci | 0 <= ci < |kinds| ensures Col(kinds, RowsAt(rows, ids), ci) == Picked(Col(kinds, rows, ci), ids) {}
  }

  lemma {:induction false} PickColsOk(kinds: seq<Kind>, rows: seq<Row>, ids: seq<nat>)
    requires RowsOk(kinds, rows) && ColsOk(kinds, rows) && IdsBelow(ids, |rows|) && Ascending(ids)
    ensures RowsOk(kinds, RowsAt(rows, ids)) && ColsOk(kinds, RowsAt(rows, ids))
  {
    PickCols(kinds, rows, ids);
    forall ci | 0 <= ci < |kinds| ensures CellsOk(kinds[ci], Col(kinds, RowsAt(rows, ids), ci)) {
      PickOk(kinds[ci], Col(kinds, rows, ci), ids);
    }
  }

  // ── Pending bytes ──

  /** What one inserted cell adds to the pending bytes of its column. */
  function Piece(k: Kind, cell: Cell): seq<byte> { if k.Fixed? then cell else Le(|cell|, 4) + cell }

  lemma {:induction false} PendingMore(k: Kind, cells: seq<Cell>, cell: Cell)
    ensures ColumnBytes.Pending(k, cells + [cell]) == ColumnBytes.Pending(k, cells) + Piece(k, cell)
  {
    assert (cells + [cell])[..|cells|] == cells;
  }

  /** The loop over the columns of an inserted row. */
  method AppendCells(kinds: seq<Kind>, data: seq<seq<byte>>, row: Row, ghost cols: seq<seq<Cell>>, ghost rows: nat)
    returns (out: seq<seq<byte>>)
    requires RowOk(kinds, row) && |data| == |kinds| == |cols|
    requires forall ci :: 0 <= ci < |kinds| ==> data[ci] == ColumnBytes.Pending(kinds[ci], cols[ci])
    ensures |out| == |kinds| && forall ci :: 0 <= ci < |kinds| ==> out[ci] == ColumnBytes.Pending(kinds[ci], cols[ci] + [row[ci]])
  {
    out := [];
    for ci := 0 to |kinds|
      invariant |out| == ci && forall j :: 0 <= j < ci ==> out[j] == ColumnBytes.Pending(kinds[j], cols[j] + [row[j]])
    {
      PendingMore(kinds[ci], cols[ci], row[ci]);
      out := out + [data[ci] + Piece(kinds[ci], row[ci])];
    }
  }

  /** The bytes of a pending batch are those of its rows. */
  ghost predicate Spans(kinds: seq<Kind>, data: seq<seq<byte>>, rows: seq<Row>, start: nat, count: nat) {
    RowsOk(kinds, rows) && start + count <= |rows| && PendingOk(kinds, data, Slices(Cols(kinds, rows), start, start + count), count)
  }

  /** More rows in the table leave a batch alone. */
  lemma {:induction false} SpansMore(kinds: seq<Kind>, data: seq<seq<byte>>, rows: seq<Row>, start: nat, count: nat, row: Row)
    requires Spans(kinds, data, rows, start, count) && RowOk(kinds, row)
    ensures Spans(kinds, data, rows + [row], start, count)
  {
    RowsMore(kinds, rows, row);
    forall ci | 0 <= ci < |kinds|
      ensures Cols(kinds, rows + [row])[ci][start..start + count] == Cols(kinds, rows)[ci][start..start + count]
    {
      SliceOfPrefix(Col(kinds, rows, ci), Col(kinds, rows + [row], ci), start, start + count);
    }
    assert Slices(Cols(kinds, rows + [row]), start, start + count) == Slices(Cols(kinds, rows), start, start + count);
  }

  /** A row appended to the last batch. */
  lemma {:induction false} SpansGrow(kinds: seq<Kind>, data: seq<seq<byte>>, rows: seq<Row>, start: nat, count: nat, row: Row, out: seq<seq<byte>>)
    requires Spans(kinds, data, rows, start, count) && start + count == |rows| && RowOk(kinds, row) && |out| == |kinds|
    requires RowsOk(kinds, rows + [row]) && ColsOk(kinds, rows + [row])
    requires var cols := Slices(Cols(kinds, rows), start, start + count);
             forall ci :: 0 <= ci < |kinds| ==> out[ci] == ColumnBytes.Pending(kinds[ci], cols[ci] + [row[ci]])
    ensures Spans(kinds, out, rows + [row], start, count + 1)
  {
    RowsMore(kinds, rows, row);
    forall ci | 0 <= ci < |kinds|
      ensures var c := Col(kinds, rows + [row], ci)[start..start + count + 1];
              |c| == count + 1 && CellsOk(kinds[ci], c) && out[ci] == ColumnBytes.Pending(kinds[ci], c)
    {
      SliceOk(kinds[ci], Col(kinds, rows + [row], ci), start, start + count + 1);
      assert Col(kinds, rows + [row], ci)[start..start + count + 1] == Col(kinds, rows, ci)[start..start + count] + [row[ci]];
    }
  }
}
