/** The payload of a data page: its header, and where it keeps columns and null bitmaps. */
module PageLayout {
  import opened LittleEndian

  /** sizeof(BatchHeader) and sizeof(ColMeta). */
  const BATCH_HEADER := 32
  const COLUMN_META := 32

  /** Rounded up to a multiple of eight. */
  function Padded(n: nat): (p: nat)
    ensures p % 8 == 0 && n <= p < n + 8
  {
    (n + 7) / 8 * 8
  }

  lemma AlignedSum(a: nat, b: nat)
    requires a % 8 == 0 && b % 8 == 0
    ensures (a + b) % 8 == 0
  {
  }

  function PaddedSum(sizes: seq<nat>): (n: nat)
    ensures n % 8 == 0
  {
    if sizes == [] then 0
    else
      var front, last := PaddedSum(sizes[..|sizes| - 1]), Padded(sizes[|sizes| - 1]);
      AlignedSum(front, last);
      front + last
  }

  function HeaderSize(columns: nat): nat { BATCH_HEADER + columns * COLUMN_META }

  function BitmapBytes(rows: nat): nat { (rows + 7) / 8 }

  function DataOff(sizes: seq<nat>, i: nat): nat
    requires i <= |sizes|
  {
    HeaderSize(|sizes|) + PaddedSum(sizes[..i])
  }

  /** n bitmaps of w bytes. */
  function Bitmaps(n: nat, w: nat): nat { if n == 0 then 0 else Bitmaps(n - 1, w) + w }

  function NullsStart(sizes: seq<nat>): nat { HeaderSize(|sizes|) + PaddedSum(sizes) }

  function NullsOff(sizes: seq<nat>, rows: nat, i: nat): nat {
    NullsStart(sizes) + Bitmaps(i, Padded(BitmapBytes(rows)))
  }

  function PayloadSize(sizes: seq<nat>, rows: nat): nat { Padded(NullsOff(sizes, rows, |sizes|)) }

  lemma {:induction false} SumMonotone(sizes: seq<nat>, i: nat, j: nat)
    requires i <= j <= |sizes|
    ensures PaddedSum(sizes[..i]) <= PaddedSum(sizes[..j])
    decreases j
  {
    if i < j {
      SumMonotone(sizes, i, j - 1);
      assert sizes[..j][..j - 1] == sizes[..j - 1];
    }
  }

  lemma {:induction false} NextOff(sizes: seq<nat>, i: nat)
    requires i < |sizes|
    ensures DataOff(sizes, i + 1) == DataOff(sizes, i) + Padded(sizes[i])
  {
    assert sizes[..i + 1][..i] == sizes[..i];
  }

  lemma {:induction false} Aligned(sizes: seq<nat>, i: nat)
    requires i <= |sizes|
    ensures HeaderSize(|sizes|) <= DataOff(sizes, i) && DataOff(sizes, i) % 8 == 0
  {
  }

  /** Columns lie after the header, in order and aligned, and before all bitmaps. */
  lemma {:induction false} DataApart(sizes: seq<nat>, i: nat, j: nat)
    requires i < j <= |sizes|
    ensures HeaderSize(|sizes|) <= DataOff(sizes, i) && DataOff(sizes, i) % 8 == 0
    ensures DataOff(sizes, i) + sizes[i] <= DataOff(sizes, j) <= NullsStart(sizes)
  {
    Aligned(sizes, i);
    NextOff(sizes, i);
    SumMonotone(sizes, i + 1, j);
    SumMonotone(sizes, j, |sizes|);
    assert sizes[..|sizes|] == sizes;
  }

  lemma {:induction false} BitmapsApart(i: nat, j: nat, w: nat)
    requires i <= j && w % 8 == 0
    ensures Bitmaps(i, w) % 8 == 0 && Bitmaps(i, w) <= Bitmaps(j, w) && (i < j ==> Bitmaps(i, w) + w <= Bitmaps(j, w))
    decreases j
  {
    if i < j { BitmapsApart(i, j - 1, w); } else if i > 0 { BitmapsApart(i - 1, i - 1, w); }
  }

  lemma {:induction false} BitmapsTimes(n: nat, w: nat)
    ensures Bitmaps(n, w) == n * w
  {
    if n > 0 { BitmapsTimes(n - 1, w); }
  }

  /** Bitmaps lie one after the other, aligned, up to the end of the payload. */
  lemma {:induction false} NullsApart(sizes: seq<nat>, rows: nat, i: nat, j: nat)
    requires i < j <= |sizes|
    ensures NullsOff(sizes, rows, i) % 8 == 0
    ensures NullsOff(sizes, rows, i) + BitmapBytes(rows) <= NullsOff(sizes, rows, j) <= PayloadSize(sizes, rows)
  {
    var w := Padded(BitmapBytes(rows));
    BitmapsApart(i, j, w);
    BitmapsApart(j, |sizes|, w);
  }

  // ── The bytes of the payload ──

  /** BatchHeader: table id, row count, column count, LSN; with the padding of the struct. */
  function BatchBytes(rows: nat, columns: nat, lsn: nat): (s: seq<byte>)
    ensures |s| == BATCH_HEADER
  {
    Zeros(8) + (Le(rows, 8) + (Le(columns, 8) + Le(lsn, 8)))
  }

  /** ColMeta: column type, where its data lies and how long it is, where its bitmap lies. */
  function MetaBytes(kind: byte, dataOff: nat, dataSize: nat, nullsOff: nat): (s: seq<byte>)
    ensures |s| == COLUMN_META
  {
    ([kind] + Zeros(7)) + (Le(dataOff, 8) + (Le(dataSize, 8) + Le(nullsOff, 8)))
  }

  function MetaOff(i: nat): nat { BATCH_HEADER + i * COLUMN_META }

  function Put(buffer: seq<byte>, off: nat, bytes: seq<byte>): (r: seq<byte>)
    requires off + |bytes| <= |buffer|
    ensures |r| == |buffer|
  {
    buffer[..off] + bytes + buffer[off + |bytes|..]
  }

  /** The buffer has these bytes there. */
  predicate Kept(buffer: seq<byte>, off: nat, bytes: seq<byte>) {
    off + |bytes| <= |buffer| && buffer[off..off + |bytes|] == bytes
  }

  lemma PutKeeps(buffer: seq<byte>, at: nat, put: seq<byte>, off: nat, bytes: seq<byte>)
    requires at + |put| <= |buffer| && Kept(buffer, off, bytes)
    requires off + |bytes| <= at || at + |put| <= off
    ensures Kept(Put(buffer, at, put), off, bytes)
  {
    var r := Put(buffer, at, put);
    forall i | off <= i < off + |bytes| ensures r[i] == buffer[i] {}
  }

  lemma PutPuts(buffer: seq<byte>, at: nat, put: seq<byte>)
    requires at + |put| <= |buffer|
    ensures Kept(Put(buffer, at, put), at, put)
  {
  }

  function SizesOf(columns: seq<seq<byte>>): (s: seq<nat>)
    ensures |s| == |columns|
  {
    seq(|columns|, i requires 0 <= i < |columns| => |columns[i]|)
  }

  function Zeros(n: nat): (z: seq<byte>)
    ensures |z| == n
  {
    seq(n, _ => 0)
  }

  /** The columns of a page with their types, its row count and LSN. */
  datatype Batch = Batch(kinds: seq<byte>, columns: seq<seq<byte>>, rows: nat, lsn: nat)

  predicate BatchOk(b: Batch) { |b.kinds| == |b.columns| }

  function SizeOf(b: Batch): nat { PayloadSize(SizesOf(b.columns), b.rows) }

  function Nulls(b: Batch): seq<byte> { Zeros(BitmapBytes(b.rows)) }

  function Meta(b: Batch, i: nat): (s: seq<byte>)
    requires BatchOk(b) && i < |b.columns|
    ensures |s| == COLUMN_META
  {
    var sizes := SizesOf(b.columns);
    MetaBytes(b.kinds[i], DataOff(sizes, i), |b.columns[i]|, NullsOff(sizes, b.rows, i))
  }

  /** Column i is in the payload: what its metadata says, its data there, and an empty null bitmap. */
  predicate ColumnKept(payload: seq<byte>, b: Batch, i: nat)
    requires BatchOk(b) && i < |b.columns|
  {
    var sizes := SizesOf(b.columns);
    && Kept(payload, MetaOff(i), Meta(b, i))
    && Kept(payload, DataOff(sizes, i), b.columns[i])
    && Kept(payload, NullsOff(sizes, b.rows, i), Nulls(b))
  }

  lemma {:induction false} MetasApart(i: nat, j: nat, n: nat)
    requires i < j <= n
    ensures BATCH_HEADER <= MetaOff(i) && MetaOff(i) + COLUMN_META <= MetaOff(j) <= HeaderSize(n)
  {
  }

  lemma {:induction false} Fits(sizes: seq<nat>, rows: nat, i: nat)
    requires i < |sizes|
    ensures MetaOff(i) + COLUMN_META <= HeaderSize(|sizes|) <= DataOff(sizes, i)
    ensures DataOff(sizes, i) + sizes[i] <= NullsStart(sizes) <= NullsOff(sizes, rows, i)
    ensures NullsOff(sizes, rows, i) + BitmapBytes(rows) <= PayloadSize(sizes, rows)
  {
    MetasApart(i, |sizes|, |sizes|);
    DataApart(sizes, i, |sizes|);
    NullsApart(sizes, rows, i, |sizes|);
  }

  /** The writes for one column. */
  function WithColumn(payload: seq<byte>, b: Batch, i: nat): (r: seq<byte>)
    requires BatchOk(b) && i < |b.columns| && |payload| == SizeOf(b)
    ensures |r| == |payload|
  {
    var sizes := SizesOf(b.columns);
    Fits(sizes, b.rows, i);
    Put(Put(Put(payload, MetaOff(i), Meta(b, i)), DataOff(sizes, i), b.columns[i]), NullsOff(sizes, b.rows, i), Nulls(b))
  }

  /** Bytes outside the three regions of a column stay. */
  lemma {:induction false} WithColumnKeeps(payload: seq<byte>, b: Batch, i: nat, off: nat, bytes: seq<byte>)
    requires BatchOk(b) && i < |b.columns| && |payload| == SizeOf(b) && Kept(payload, off, bytes)
    requires var sizes := SizesOf(b.columns);
             && (off + |bytes| <= MetaOff(i) || MetaOff(i) + COLUMN_META <= off)
             && (off + |bytes| <= DataOff(sizes, i) || DataOff(sizes, i) + sizes[i] <= off)
             && (off + |bytes| <= NullsOff(sizes, b.rows, i) || NullsOff(sizes, b.rows, i) + BitmapBytes(b.rows) <= off)
    ensures Kept(WithColumn(payload, b, i), off, bytes)
  {
    var sizes := SizesOf(b.columns);
    Fits(sizes, b.rows, i);
    var p := Put(payload, MetaOff(i), Meta(b, i));
    var q := Put(p, DataOff(sizes, i), b.columns[i]);
    PutKeeps(payload, MetaOff(i), Meta(b, i), off, bytes);
    PutKeeps(p, DataOff(sizes, i), b.columns[i], off, bytes);
    PutKeeps(q, NullsOff(sizes, b.rows, i), Nulls(b), off, bytes);
  }

  /** A column written earlier stays as it was when a later one is written. */
  lemma {:induction false} KeptLater(payload: seq<byte>, b: Batch, i: nat, j: nat)
    requires BatchOk(b) && i < j < |b.columns| && |payload| == SizeOf(b) && ColumnKept(payload, b, i)
    ensures ColumnKept(WithColumn(payload, b, j), b, i)
  {
    var sizes := SizesOf(b.columns);
    Fits(sizes, b.rows, i);
    Fits(sizes, b.rows, j);
    MetasApart(i, j, |sizes|);
    DataApart(sizes, i, j);
    NullsApart(sizes, b.rows, i, j);
    WithColumnKeeps(payload, b, j, MetaOff(i), Meta(b, i));
    WithColumnKeeps(payload, b, j, DataOff(sizes, i), b.columns[i]);
    WithColumnKeeps(payload, b, j, NullsOff(sizes, b.rows, i), Nulls(b));
  }

  lemma {:induction false} KeptNow(payload: seq<byte>, b: Batch, j: nat)
    requires BatchOk(b) && j < |b.columns| && |payload| == SizeOf(b)
    ensures ColumnKept(WithColumn(payload, b, j), b, j)
  {
    var sizes := SizesOf(b.columns);
    Fits(sizes, b.rows, j);
    var p := Put(payload, MetaOff(j), Meta(b, j));
    var q := Put(p, DataOff(sizes, j), b.columns[j]);
    PutPuts(payload, MetaOff(j), Meta(b, j));
    PutKeeps(p, DataOff(sizes, j), b.columns[j], MetaOff(j), Meta(b, j));
    PutKeeps(q, NullsOff(sizes, b.rows, j), Nulls(b), MetaOff(j), Meta(b, j));
    PutPuts(p, DataOff(sizes, j), b.columns[j]);
    PutKeeps(q, NullsOff(sizes, b.rows, j), Nulls(b), DataOff(sizes, j), b.columns[j]);
    PutPuts(q, NullsOff(sizes, b.rows, j), Nulls(b));
  }

  /** total_data_size. */
  method TotalSize(columns: seq<seq<byte>>) returns (total: nat)
    ensures total == PaddedSum(SizesOf(columns))
  {
    ghost var sizes := SizesOf(columns);
    total := 0;
    for i := 0 to |columns|
      invariant total == PaddedSum(sizes[..i])
    {
      assert sizes[..i + 1][..i] == sizes[..i];
      total := total + Padded(|columns[i]|);
    }
    assert sizes[..|columns|] == sizes;
  }

  /** The header and the first n columns are in the payload. */
  ghost predicate AllKept(payload: seq<byte>, b: Batch, n: nat) {
    && BatchOk(b) && n <= |b.columns| && |payload| == SizeOf(b)
    && Kept(payload, 0, BatchBytes(b.rows, |b.columns|, b.lsn))
    && forall i :: 0 <= i < n ==> ColumnKept(payload, b, i)
  }

  /** One more column written. */
  lemma {:induction false} KeptNext(payload: seq<byte>, b: Batch, n: nat)
    requires AllKept(payload, b, n) && n < |b.columns|
    ensures AllKept(WithColumn(payload, b, n), b, n + 1)
  {
    KeptNow(payload, b, n);
    Fits(SizesOf(b.columns), b.rows, n);
    WithColumnKeeps(payload, b, n, 0, BatchBytes(b.rows, |b.columns|, b.lsn));
    forall j | 0 <= j < n ensures ColumnKept(WithColumn(payload, b, n), b, j) { KeptLater(payload, b, j, n); }
  }

  lemma {:induction false} Starts(b: Batch)
    ensures BATCH_HEADER <= SizeOf(b)
  {
  }

  /** The payload of a page, as write_batch_to_page fills it: header, then metadata, data and bitmap of each column. */
  method WritePayload(b: Batch) returns (payload: seq<byte>)
    requires BatchOk(b)
    ensures AllKept(payload, b, |b.columns|) && |payload| % 8 == 0
  {
    ghost var sizes := SizesOf(b.columns);
    var n := |b.columns|;
    var total := TotalSize(b.columns);
    var header, bitmap := HeaderSize(n), Padded(BitmapBytes(b.rows));
    BitmapsTimes(n, bitmap);
    Starts(b);
    payload := Zeros(Padded(header + total + n * bitmap));
    payload := Put(payload, 0, BatchBytes(b.rows, n, b.lsn));
    PutPuts(Zeros(|payload|), 0, BatchBytes(b.rows, n, b.lsn));
    var off, nullOff := header, header + total;
    for i := 0 to n
      invariant off == DataOff(sizes, i) && nullOff == NullsOff(sizes, b.rows, i)
      invariant AllKept(payload, b, i)
    {
      KeptNext(payload, b, i);
      NextOff(sizes, i);
      Fits(sizes, b.rows, i);
      payload := Put(payload, MetaOff(i), MetaBytes(b.kinds[i], off, |b.columns[i]|, nullOff));
      payload := Put(payload, off, b.columns[i]);
      payload := Put(payload, nullOff, Nulls(b));
      off := off + Padded(|b.columns[i]|);
      nullOff := nullOff + bitmap;
    }
  }

  /** On a page as written no cell is null: each row has its bit in the column's own bitmap, and it is clear. */
  lemma {:induction false} NoneNull(payload: seq<byte>, b: Batch, i: nat, r: nat)
    requires AllKept(payload, b, |b.columns|) && i < |b.columns| && r < b.rows
    ensures var sizes := SizesOf(b.columns);
            var at := NullsOff(sizes, b.rows, i) + r / 8;
            && at < |payload| && payload[at] == 0
            && DataOff(sizes, i) + sizes[i] <= at
            && (i + 1 < |b.columns| ==> at < NullsOff(sizes, b.rows, i + 1))
  {
    var sizes := SizesOf(b.columns);
    var off := NullsOff(sizes, b.rows, i);
    assert ColumnKept(payload, b, i);
    Fits(sizes, b.rows, i);
    if i + 1 < |b.columns| { NullsApart(sizes, b.rows, i, i + 1); }
    assert payload[off + r / 8] == payload[off..off + BitmapBytes(b.rows)][r / 8];
  }
}
