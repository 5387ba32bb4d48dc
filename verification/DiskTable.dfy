/**
 A table with its bytes: rows are inserted into pending batches, batches are written as pages at the end
 of the file, and columns are read back from pages and batches.
 */
module DiskTable {
  import opened Options
  import opened Sequences
  import opened LittleEndian
  import opened ColumnBytes
  import opened Tables
  import opened TableStore
  import opened PageFile
  import opened TableBytes
  import opened TableContent
  import opened TableReads

  class Disk {
    const kinds: seq<Kind>
    const types: seq<byte>
    const sum: Sum
    const store: Store
    var file: seq<byte>
    var entries: seq<PageEntry>
    var queueData: seq<seq<seq<byte>>>
    var activeData: seq<seq<byte>>
    var lsn: nat
    ghost var pages: seq<seq<byte>>

    ghost function Held(): Content
      reads this, store
    {
      Content(file, pages, entries, store.queue, queueData, store.active, activeData, store.rows)
    }

    ghost predicate Valid()
      reads this, store, store.index
    {
      store.Valid() && Sums(sum) && |types| == |kinds| && ContentOk(kinds, sum, Held())
    }

    constructor (kinds: seq<Kind>, types: seq<byte>, sum: Sum)
      requires Sums(sum) && |types| == |kinds|
      ensures Valid() && store.State(map[]) == EMPTY && this.kinds == kinds && fresh(store) && fresh(store.index)
    {
      this.kinds, this.types, this.sum := kinds, types, sum;
      store := new Store();
      file, entries, queueData, activeData := [], [], [], NoData(|kinds|);
      lsn, pages := 0, [];
      new;
      NothingActive(kinds, activeData, []);
    }

    /** insert_row: a row with the wrong number of columns is refused. */
    method Insert(stamp: nat, row: Row) returns (rid: Option<nat>)
      requires Valid()
      requires |row| == |kinds| ==> RowOk(kinds, row) && RowsOk(kinds, store.rows + [row]) && ColsOk(kinds, store.rows + [row])
      modifies this, store
      ensures Valid() && (rid.Some? <==> |row| == |kinds|)
      ensures rid.Some? ==> rid.value == |old(store.rows)| && store.rows == old(store.rows) + [row]
      ensures rid.Some? ==> forall ws :: store.State(ws) == PutRow(old(store.State(ws)), stamp, row)
      ensures rid.None? ==> Held() == old(Held()) && forall ws :: store.State(ws) == old(store.State(ws))
    {
      if |row| != |kinds| { return None; }
      var r := InsertRow(stamp, row);
      return Some(r);
    }

    /** The bytes of a row that fits the schema. */
    method InsertRow(stamp: nat, row: Row) returns (rid: nat)
      requires Valid() && RowOk(kinds, row)
      requires RowsOk(kinds, store.rows + [row]) && ColsOk(kinds, store.rows + [row])
      modifies this, store
      ensures Valid() && rid == |old(store.rows)| && store.rows == old(store.rows) + [row]
      ensures forall ws :: store.State(ws) == PutRow(old(store.State(ws)), stamp, row)
    {
      ghost var d, t := Held(), store.State(map[]);
      ActiveIsLast(t);
      var data := AppendRow(kinds, activeData, row, store.rows, Current(t).start, |Current(t).stamps|);
      ghost var b := Current(t).(stamps := Current(t).stamps + [stamp]);
      GrownOk(kinds, sum, d, b, data, row);
      rid := store.InsertRow(stamp, row);
      assert store.State(map[]) == PutRow(t, stamp, row);
      if store.active.None? {
        queueData := queueData + [data];
        activeData := NoData(|kinds|);
      } else {
        activeData := data;
      }
      assert Held() == Grown(d, kinds, b, data, row);
    }

    /** The pages of the pending batches. */
    method WritePending() returns (offsets: seq<nat>)
      requires Valid() && PagesFit(kinds, ToFlush(store.State(map[])), store.rows)
      requires Room(|file|, |ToFlush(store.State(map[]))|)
      modifies this
      ensures ContentOk(kinds, sum, Written(old(Held()), kinds, file, pages, entries)) && Flushed(entries) == |store.rows|
      ensures |offsets| == |ToFlush(store.State(map[]))| && (forall x :: x in offsets ==> x != Versions.TOMB)
      ensures queueData == [] && activeData == Handed(old(Held()), kinds).activeData
    {
      ghost var d := Held();
      ActiveIsLast(store.State(map[]));
      HandedQueue(kinds, d, store.State(map[]));
      var p := Progress(file, entries, store.queue, queueData);
      ghost var more;
      p, offsets, more := FlushQueue(kinds, types, sum, lsn, p, store.active, activeData, d);
      if ActiveCount(store.active) > 0 { activeData := NoData(|kinds|); }
      file, entries, queueData, pages := p.file, p.entries, [], more;
    }

    /** flush_pending: every pending batch becomes a page at the end of the file. */
    method Flush() returns (offsets: seq<nat>)
      requires Valid() && PagesFit(kinds, ToFlush(store.State(map[])), store.rows)
      requires Room(|file|, |ToFlush(store.State(map[]))|)
      modifies this, store, store.index
      ensures Valid() && store.queue == [] && ActiveCount(store.active) == 0 && Flushed(entries) == |store.rows|
      ensures |offsets| == |old(ToFlush(store.State(map[])))| && (forall x :: x in offsets ==> x != Versions.TOMB)
      ensures store.rows == old(store.rows)
      ensures forall ws :: store.State(ws) == Tables.Flush(old(store.State(ws)), offsets)
    {
      offsets := WritePending();
      ghost var t := store.State(map[]);
      store.FlushPending(offsets);
      AfterFlush(kinds, old(Held()), t, offsets, store.State(map[]));
      assert Held() == Written(old(Held()), kinds, file, pages, entries);
    }

    /** read_table_columns for one column: the rows on pages. */
    method ScanColumn(ci: nat) returns (data: seq<byte>)
      requires Valid() && ci < |kinds|
      ensures Flushed(entries) <= |store.rows| && data == Scanned(kinds[ci], Col(kinds, store.rows, ci)[..Flushed(entries)])
      ensures Gives(kinds[ci], data, Col(kinds, store.rows, ci)[..Flushed(entries)])
    {
      data := PageFile.ScanColumn(file, ci, kinds[ci], sum, pages, entries, kinds, Cols(kinds, store.rows));
      SliceOk(kinds[ci], Col(kinds, store.rows, ci), 0, Flushed(entries));
      ScannedGives(kinds[ci], Col(kinds, store.rows, ci)[..Flushed(entries)]);
    }

    /** read_rows for one column: the cells with the given ids, from pages and pending batches. */
    method PickColumn(ids: seq<nat>, ci: nat) returns (data: seq<byte>)
      requires Valid() && ci < |kinds| && IdsBelow(ids, |store.rows|)
      ensures data == Scanned(kinds[ci], Picked(Col(kinds, store.rows, ci), ids))
      ensures CellsOk(kinds[ci], Picked(Col(kinds, store.rows, ci), ids)) ==> Gives(kinds[ci], data, Picked(Col(kinds, store.rows, ci), ids))
    {
      var ranges := ColumnRanges(file, entries, ci, sum, pages);
      ActiveIsLast(store.State(map[]));
      ReadsAll(kinds, sum, Held(), ids, ci);
      data := ColumnReads.ReadRows(ranges, BatchRanges(store.active, activeData, store.queue, queueData, ci), kinds[ci], ids, Col(kinds, store.rows, ci));
      if CellsOk(kinds[ci], Picked(Col(kinds, store.rows, ci), ids)) { ScannedGives(kinds[ci], Picked(Col(kinds, store.rows, ci), ids)); }
    }
  }
}
