/** Vacuum on the bytes of a column: strings get their lengths back and are cut into batches. */
module VacuumColumns {
  import opened LittleEndian
  import opened ColumnBytes

  /** A scanned string column, back in the form of pending rows. */
  method PrefixStrings(data: seq<byte>, n: nat, ghost cells: seq<Cell>) returns (out: seq<byte>)
    requires |cells| == n && CellsOk(VarChar, cells) && data == Scanned(VarChar, cells)
    ensures out == Prefixed(cells)
  {
    out := [];
    for i := 0 to n
      invariant out == Prefixed(cells[..i])
    {
      StringAt(cells, i);
      FlatAt(cells, i);
      StartAt(cells, Flat(cells), i);
      StartAt(cells, Flat(cells), i + 1);
      assert cells[..i + 1][..i] == cells[..i];
      var prev, end := Start(data, i), Start(data, i + 1);
      FlatShorter(cells, i + 1);
      out := out + (Le(end - prev, 4) + data[4 * n + prev..4 * n + end]);
    }
    assert cells[..n] == cells;
  }

  /** Where the string with number to begins, counting on from the one with number from. */
  method SkipTo(data: seq<byte>, from: nat, to: nat, start: nat, ghost cells: seq<Cell>) returns (pos: nat)
    requires from <= to <= |cells| && CellsOk(VarChar, cells) && data == Prefixed(cells)
    requires start == |Prefixed(cells[..from])|
    ensures pos == |Prefixed(cells[..to])|
  {
    pos := start;
    for i := from to to
      invariant pos == |Prefixed(cells[..i])|
    {
      PrefixedAt(cells, i);
      pos := pos + (4 + FromLe(data[pos..pos + 4]));
    }
  }

  lemma {:induction false} SliceIs(k: Kind, cells: seq<Cell>, i: nat, j: nat)
    requires i <= j <= |cells|
    ensures var p, q, all := |Pending(k, cells[..i])|, |Pending(k, cells[..j])|, Pending(k, cells);
            p <= q <= |all| && all[p..q] == Pending(k, cells[i..j])
  {
    var a, b, c := cells[..i], cells[i..j], cells[j..];
    assert cells == a + (b + c) && cells[..j] == a + b;
    if k.Fixed? {
      FlatConcat(a, b + c);
      FlatConcat(b, c);
      FlatConcat(a, b);
    } else {
      PrefixedConcat(a, b + c);
      PrefixedConcat(b, c);
      PrefixedConcat(a, b);
    }
    Middle(Pending(k, a), Pending(k, b), Pending(k, c));
  }

  lemma {:induction false} FixedBounds(size: nat, cells: seq<Cell>, written: nat, batch: nat)
    requires written + batch <= |cells| && CellsOk(Fixed(size), cells)
    ensures |Flat(cells[..written])| == written * size
    ensures |Flat(cells[..written + batch])| == written * size + batch * size
  {
    FlatLength(size, cells[..written]);
    FlatLength(size, cells[..written + batch]);
    assert (written + batch) * size == written * size + batch * size;
  }

  /** The part of a column that goes to one batch. */
  method CutBatch(k: Kind, data: seq<byte>, written: nat, batch: nat, ghost cells: seq<Cell>) returns (part: seq<byte>)
    requires written + batch <= |cells| && CellsOk(k, cells) && data == Pending(k, cells)
    ensures part == Pending(k, cells[written..written + batch])
  {
    SliceIs(k, cells, written, written + batch);
    if k.Fixed? {
      FixedBounds(k.size, cells, written, batch);
      part := data[written * k.size..written * k.size + batch * k.size];
    } else {
      var start := SkipTo(data, 0, written, 0, cells);
      var end := SkipTo(data, written, written + batch, start, cells);
      part := data[start..end];
    }
  }
}
