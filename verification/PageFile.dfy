/**
 A table's file as bytes: pages one after the other, each sealed with a checksum.  Writing a batch and
 reading its columns back, through the scan and by row id.
 */
module PageFile {
  import opened Options
  import opened Sequences
  import opened LittleEndian
  import opened ColumnBytes
  import opened ColumnReads
  import opened PageLayout

  const PAGE_HEADER := 32
  /** No page is this long. */
  const PAGE_LIMIT: nat := 0x2_0000_0000
  const PAGE_MAGIC: nat := 0x52415744

  // ── One page ──

  /** Magic, version, type and reserved byte, checksum, row count, payload size, padding. */
  function PageHeaderBytes(check: nat, rows: nat, size: nat): (s: seq<byte>)
    ensures |s| == PAGE_HEADER
  {
    Le(PAGE_MAGIC, 4) + ([0, 0, 1, 0] + (Le(check, 4) + (Le(rows, 4) + (Le(size, 4) + Zeros(12)))))
  }

  /** set_page_checksum on header and payload. */
  function Seal(rows: nat, payload: seq<byte>, sum: Sum): seq<byte> {
    PageHeaderBytes(sum(PageHeaderBytes(0, rows, |payload|) + payload), rows, |payload|) + payload
  }

  /** The page with its checksum field zeroed, as validation sees it. */
  function Unsealed(page: seq<byte>): seq<byte>
    requires |page| >= PAGE_HEADER
  {
    page[..8] + (Le(0, 4) + page[12..])
  }

  predicate Accepts(page: seq<byte>, sum: Sum) {
    |page| >= PAGE_HEADER && Field(page, 0, 4) == PAGE_MAGIC && Field(page, 8, 4) == sum(Unsealed(page))
  }

  lemma {:induction false} HeaderSlices(check: nat, rows: nat, size: nat, payload: seq<byte>)
    ensures var h := PageHeaderBytes(check, rows, size); var p := h + payload;
            && p[0..4] == Le(PAGE_MAGIC, 4) && p[8..12] == Le(check, 4)
            && p[12..16] == Le(rows, 4) && p[16..20] == Le(size, 4)
            && p[..8] == PageHeaderBytes(0, rows, size)[..8] && p[12..] == PageHeaderBytes(0, rows, size)[12..] + payload
  {
  }

  lemma {:induction false} HeaderFields(check: nat, rows: nat, size: nat, payload: seq<byte>)
    requires check < U32 && rows < U32 && size < U32
    ensures var p := PageHeaderBytes(check, rows, size) + payload;
            Field(p, 0, 4) == PAGE_MAGIC && Field(p, 8, 4) == check && Field(p, 12, 4) == rows && Field(p, 16, 4) == size
  {
    HeaderSlices(check, rows, size, payload);
    Widths();
    LeRoundTrip(PAGE_MAGIC, 4);
    LeRoundTrip(check, 4);
    LeRoundTrip(rows, 4);
    LeRoundTrip(size, 4);
  }

  lemma {:induction false} SealAccepts(rows: nat, payload: seq<byte>, sum: Sum)
    requires Sums(sum) && rows < U32 && |payload| < U32
    ensures var p := Seal(rows, payload, sum);
            Accepts(p, sum) && Field(p, 12, 4) == rows && Field(p, 16, 4) == |payload|
  {
    var h := PageHeaderBytes(0, rows, |payload|);
    var check := sum(h + payload);
    HeaderFields(check, rows, |payload|, payload);
    HeaderSlices(check, rows, |payload|, payload);
    var p := Seal(rows, payload, sum);
    assert h[..8] + (Le(0, 4) + h[12..]) == h;
    assert Unsealed(p) == h + payload;
  }

  /** Column ci of the page: its metadata leads to these cells and to an empty null bitmap. */
  ghost predicate ColumnIs(page: seq<byte>, k: Kind, cells: seq<Cell>, rows: nat, ci: nat) {
    var m := PAGE_HEADER + MetaOff(ci);
    && |cells| == rows && CellsOk(k, cells) && m + COLUMN_META <= |page|
    && Field(page, m + 16, 8) == |Scanned(k, cells)|
    && Kept(page, PAGE_HEADER + Field(page, m + 8, 8), Scanned(k, cells))
    && Kept(page, PAGE_HEADER + Field(page, m + 24, 8), Zeros(BitmapBytes(rows)))
  }

  /** A sealed page of these columns. */
  ghost predicate IsPage(page: seq<byte>, kinds: seq<Kind>, cols: seq<seq<Cell>>, rows: nat, sum: Sum) {
    && Accepts(page, sum) && |page| >= PAGE_HEADER + BATCH_HEADER
    && Field(page, 12, 4) == rows && Field(page, 16, 4) == |page| - PAGE_HEADER
    && Field(page, PAGE_HEADER + 8, 8) == rows && Field(page, PAGE_HEADER + 16, 8) == |kinds|
    && |cols| == |kinds| && forall ci :: 0 <= ci < |kinds| ==> ColumnIs(page, kinds[ci], cols[ci], rows, ci)
  }

  lemma SliceOfSlice(s: seq<byte>, lo: nat, hi: nat, a: nat, w: nat)
    requires lo + a + w <= hi <= |s|
    ensures s[lo..hi][a..a + w] == s[lo + a..lo + a + w]
  {
    var x, y := s[lo..hi][a..a + w], s[lo + a..lo + a + w];
    forall i | 0 <= i < w ensures x[i] == y[i] {
      assert x[i] == s[lo..hi][a + i] == s[lo + (a + i)];
    }
    assert |x| == w && |y| == w;
  }

  lemma {:induction false} FieldKept(s: seq<byte>, off: nat, bytes: seq<byte>, a: nat, w: nat)
    requires Kept(s, off, bytes) && a + w <= |bytes|
    ensures off + a + w <= |s| && Field(s, off + a, w) == Field(bytes, a, w)
  {
    SliceOfSlice(s, off, off + |bytes|, a, w);
  }

  lemma {:induction false} KeptInside(h: seq<byte>, payload: seq<byte>, off: nat, bytes: seq<byte>)
    requires Kept(payload, off, bytes)
    ensures Kept(h + payload, |h| + off, bytes)
  {
    assert (h + payload)[|h| + off..|h| + off + |bytes|] == payload[off..off + |bytes|];
  }

  lemma {:induction false} MetaSlices(kind: byte, dataOff: nat, dataSize: nat, nullsOff: nat)
    ensures var s := MetaBytes(kind, dataOff, dataSize, nullsOff);
            s[8..16] == Le(dataOff, 8) && s[16..24] == Le(dataSize, 8) && s[24..32] == Le(nullsOff, 8)
  {
  }

  lemma {:induction false} MetaFields(kind: byte, dataOff: nat, dataSize: nat, nullsOff: nat)
    requires dataOff < U64 && dataSize < U64 && nullsOff < U64
    ensures var s := MetaBytes(kind, dataOff, dataSize, nullsOff);
            Field(s, 8, 8) == dataOff && Field(s, 16, 8) == dataSize && Field(s, 24, 8) == nullsOff
  {
    var s := MetaBytes(kind, dataOff, dataSize, nullsOff);
    Widths();
    LeRoundTrip(dataOff, 8);
    LeRoundTrip(dataSize, 8);
    LeRoundTrip(nullsOff, 8);
    MetaSlices(kind, dataOff, dataSize, nullsOff);
  }

  lemma {:induction false} BatchFields(rows: nat, columns: nat, lsn: nat)
    requires rows < U64 && columns < U64
    ensures var s := BatchBytes(rows, columns, lsn); Field(s, 8, 8) == rows && Field(s, 16, 8) == columns
  {
    var s := BatchBytes(rows, columns, lsn);
    Widths();
    LeRoundTrip(rows, 8);
    LeRoundTrip(columns, 8);
    assert s[8..16] == Le(rows, 8) && s[16..24] == Le(columns, 8);
  }

  lemma {:induction false} MetaField(h: seq<byte>, payload: seq<byte>, off: nat, meta: seq<byte>, a: nat)
    requires |h| == PAGE_HEADER && Kept(payload, off, meta) && |meta| == COLUMN_META && a + 8 <= COLUMN_META
    ensures PAGE_HEADER + off + COLUMN_META <= |h + payload|
    ensures Field(h + payload, PAGE_HEADER + off + a, 8) == Field(meta, a, 8)
  {
    KeptInside(h, payload, off, meta);
    FieldKept(h + payload, PAGE_HEADER + off, meta, a, 8);
  }

  /** What the metadata of a column says, in the sealed page. */
  lemma {:induction false} MetaSealed(h: seq<byte>, payload: seq<byte>, b: Batch, ci: nat)
    requires |h| == PAGE_HEADER && BatchOk(b) && ci < |b.columns| && |payload| == SizeOf(b) < U32
    requires Kept(payload, MetaOff(ci), Meta(b, ci))
    ensures var p, m, sizes := h + payload, PAGE_HEADER + MetaOff(ci), SizesOf(b.columns);
            && m + COLUMN_META <= |p| && Field(p, m + 8, 8) == DataOff(sizes, ci)
            && Field(p, m + 16, 8) == |b.columns[ci]| && Field(p, m + 24, 8) == NullsOff(sizes, b.rows, ci)
  {
    var sizes, meta := SizesOf(b.columns), Meta(b, ci);
    Fits(sizes, b.rows, ci);
    MetaFields(b.kinds[ci], DataOff(sizes, ci), |b.columns[ci]|, NullsOff(sizes, b.rows, ci));
    MetaField(h, payload, MetaOff(ci), meta, 8);
    MetaField(h, payload, MetaOff(ci), meta, 16);
    MetaField(h, payload, MetaOff(ci), meta, 24);
  }

  /** A column written to the payload is found in the sealed page. */
  lemma {:induction false} ColumnSealed(h: seq<byte>, payload: seq<byte>, b: Batch, k: Kind, cells: seq<Cell>, ci: nat)
    requires |h| == PAGE_HEADER && BatchOk(b) && ci < |b.columns| && |payload| == SizeOf(b) < U32 && ColumnKept(payload, b, ci)
    requires |cells| == b.rows && CellsOk(k, cells) && b.columns[ci] == Scanned(k, cells)
    ensures ColumnIs(h + payload, k, cells, b.rows, ci)
  {
    var sizes := SizesOf(b.columns);
    MetaSealed(h, payload, b, ci);
    KeptInside(h, payload, DataOff(sizes, ci), b.columns[ci]);
    KeptInside(h, payload, NullsOff(sizes, b.rows, ci), Nulls(b));
  }

  /** The columns, in the form a page has. */
  ghost predicate Encoded(b: Batch, kinds: seq<Kind>, cols: seq<seq<Cell>>) {
    && |b.columns| == |kinds| == |cols|
    && forall ci :: 0 <= ci < |kinds| ==>
         |cols[ci]| == b.rows && CellsOk(kinds[ci], cols[ci]) && b.columns[ci] == Scanned(kinds[ci], cols[ci])
  }

  /** The counts in the batch header, in the sealed page. */
  lemma {:induction false} CountsSealed(h: seq<byte>, payload: seq<byte>, b: Batch)
    requires |h| == PAGE_HEADER && Kept(payload, 0, BatchBytes(b.rows, |b.columns|, b.lsn)) && b.rows < U32
    requires |payload| == SizeOf(b) < U32
    ensures var p := h + payload;
            |p| >= PAGE_HEADER + BATCH_HEADER && Field(p, PAGE_HEADER + 8, 8) == b.rows && Field(p, PAGE_HEADER + 16, 8) == |b.columns|
  {
    var s := BatchBytes(b.rows, |b.columns|, b.lsn);
    ManyColumns(b);
    BatchFields(b.rows, |b.columns|, b.lsn);
    KeptInside(h, payload, 0, s);
    FieldKept(h + payload, PAGE_HEADER, s, 8, 8);
    FieldKept(h + payload, PAGE_HEADER, s, 16, 8);
  }

  lemma {:induction false} Sealed(b: Batch, payload: seq<byte>, kinds: seq<Kind>, cols: seq<seq<Cell>>, sum: Sum)
    requires AllKept(payload, b, |b.columns|) && Encoded(b, kinds, cols) && Sums(sum) && |payload| < U32 && b.rows < U32
    ensures IsPage(Seal(b.rows, payload, sum), kinds, cols, b.rows, sum)
  {
    var p := Seal(b.rows, payload, sum);
    var h := p[..PAGE_HEADER];
    SealAccepts(b.rows, payload, sum);
    assert p == h + payload;
    CountsSealed(h, payload, b);
    forall ci | 0 <= ci < |kinds| ensures ColumnIs(p, kinds[ci], cols[ci], b.rows, ci) {
      ColumnSealed(h, payload, b, kinds[ci], cols[ci], ci);
    }
  }

  lemma {:induction false} ManyColumns(b: Batch)
    ensures |b.columns| <= SizeOf(b)
  {
    BitmapsApart(0, |SizesOf(b.columns)|, Padded(BitmapBytes(b.rows)));
  }

  /** The pending columns of a batch, as insertion left them. */
  ghost predicate PendingOk(kinds: seq<Kind>, data: seq<seq<byte>>, cols: seq<seq<Cell>>, rows: nat) {
    && |data| == |kinds| == |cols|
    && forall ci {:trigger Pending(kinds[ci], cols[ci])} :: 0 <= ci < |kinds| ==>
         |cols[ci]| == rows && CellsOk(kinds[ci], cols[ci]) && data[ci] == Pending(kinds[ci], cols[ci])
  }

  /** The payload of a page of these columns stays below 4 GiB. */
  ghost predicate PageFits(kinds: seq<Kind>, cols: seq<seq<Cell>>, rows: nat) {
    |cols| == |kinds| && PayloadSize(seq(|kinds|, ci requires 0 <= ci < |kinds| => |Scanned(kinds[ci], cols[ci])|), rows) < U32
  }

  /** The columns in page form, one after the other. */
  method EncodeColumns(kinds: seq<Kind>, data: seq<seq<byte>>, rows: nat, ghost cols: seq<seq<Cell>>) returns (out: seq<seq<byte>>)
    requires PendingOk(kinds, data, cols, rows)
    ensures |out| == |kinds| && forall ci :: 0 <= ci < |kinds| ==> out[ci] == Scanned(kinds[ci], cols[ci])
  {
    out := [];
    for ci := 0 to |kinds|
      invariant |out| == ci && forall j :: 0 <= j < ci ==> out[j] == Scanned(kinds[j], cols[j])
    {
      var bytes := data[ci];
      assert bytes == Pending(kinds[ci], cols[ci]);
      if kinds[ci].VarChar? { bytes := EncodeStrings(data[ci], rows, cols[ci]); }
      out := out + [bytes];
    }
  }

  /** write_batch_to_page: the page of a batch. */
  method WritePage(kinds: seq<Kind>, types: seq<byte>, data: seq<seq<byte>>, rows: nat, lsn: nat, sum: Sum, ghost cols: seq<seq<Cell>>)
    returns (page: seq<byte>)
    requires PendingOk(kinds, data, cols, rows) && |types| == |kinds| && PageFits(kinds, cols, rows) && Sums(sum) && rows < U32
    ensures IsPage(page, kinds, cols, rows, sum) && |page| < PAGE_HEADER + U32
  {
    var columns := EncodeColumns(kinds, data, rows, cols);
    var b := Batch(types, columns, rows, lsn);
    var payload := WritePayload(b);
    assert SizesOf(columns) == seq(|kinds|, ci requires 0 <= ci < |kinds| => |Scanned(kinds[ci], cols[ci])|);
    forall ci | 0 <= ci < |kinds| ensures |cols[ci]| == rows && CellsOk(kinds[ci], cols[ci]) && columns[ci] == Scanned(kinds[ci], cols[ci]) {
      assert data[ci] == Pending(kinds[ci], cols[ci]);
    }
    Sealed(b, payload, kinds, cols, sum);
    page := Seal(rows, payload, sum);
  }

  // ── Reading one page ──

  /** read_page: the bytes of a whole valid page at the offset. */
  function ReadPage(file: seq<byte>, off: nat, sum: Sum): Option<seq<byte>> {
    if off + PAGE_HEADER > |file| then None
    else
      var total := PAGE_HEADER + Field(file, off + 16, 4);
      if off + total > |file| || !Accepts(file[off..off + total], sum) then None else Some(file[off..off + total])
  }

  /** Where the metadata of a page says column ci lies. */
  function PageColumnAt(page: seq<byte>, ci: nat): PageColumn {
    var m := PAGE_HEADER + MetaOff(ci);
    if m + COLUMN_META > |page| then PageColumn(0, [])
    else
      var off, size := PAGE_HEADER + Field(page, m + 8, 8), Field(page, m + 16, 8);
      PageColumn(Field(page, 12, 4), if off + size <= |page| then page[off..off + size] else [])
  }

  /** Writing a batch and slicing the page as its metadata says gives every column back. */
  lemma {:induction false} ColumnRead(page: seq<byte>, kinds: seq<Kind>, cols: seq<seq<Cell>>, rows: nat, sum: Sum, ci: nat)
    requires IsPage(page, kinds, cols, rows, sum) && ci < |kinds|
    ensures Holds(PageColumnAt(page, ci), kinds[ci], cols[ci])
  {
    assert ColumnIs(page, kinds[ci], cols[ci], rows, ci);
  }

  /** What reading the page relies on. */
  predicate Sound(page: seq<byte>, sum: Sum) {
    Accepts(page, sum) && |page| >= PAGE_HEADER + BATCH_HEADER && Field(page, 16, 4) == |page| - PAGE_HEADER
  }

  /** The columns that readers find in the page. */
  ghost predicate HasColumns(page: seq<byte>, kinds: seq<Kind>, cols: seq<seq<Cell>>) {
    |cols| == |kinds| &&
    forall ci {:trigger Holds(PageColumnAt(page, ci), kinds[ci], cols[ci])} ::
      0 <= ci < |kinds| ==> Holds(PageColumnAt(page, ci), kinds[ci], cols[ci])
  }

  lemma {:induction false} PageIs(page: seq<byte>, kinds: seq<Kind>, cols: seq<seq<Cell>>, rows: nat, sum: Sum)
    requires IsPage(page, kinds, cols, rows, sum)
    ensures Sound(page, sum) && HasColumns(page, kinds, cols)
  {
    forall ci | 0 <= ci < |kinds| ensures Holds(PageColumnAt(page, ci), kinds[ci], cols[ci]) {
      ColumnRead(page, kinds, cols, rows, sum, ci);
    }
  }

  lemma {:induction false} PageAt(a: seq<byte>, page: seq<byte>, b: seq<byte>, sum: Sum)
    requires Sound(page, sum)
    ensures ReadsAt(a + (page + b), |a|, page, sum)
  {
    var file := a + (page + b);
    Middle(a, page, b);
    FieldKept(file, |a|, page, 16, 4);
  }

  /** What reading at the offset of a page gives. */
  ghost predicate ReadsAt(file: seq<byte>, offset: nat, page: seq<byte>, sum: Sum) {
    && ReadPage(file, offset, sum) == Some(page) && |page| >= PAGE_HEADER && offset + |page| <= |file|
    && offset + 20 <= |file| && Field(file, offset + 16, 4) == |page| - PAGE_HEADER
    && file[offset..offset + |page|] == page
  }

  /** The page of a batch, as far as readers are concerned. */
  method WriteBatch(kinds: seq<Kind>, types: seq<byte>, data: seq<seq<byte>>, rows: nat, lsn: nat, sum: Sum, ghost cols: seq<seq<Cell>>)
    returns (page: seq<byte>)
    requires PendingOk(kinds, data, cols, rows) && |types| == |kinds| && PageFits(kinds, cols, rows) && Sums(sum) && rows < U32
    ensures Sound(page, sum) && HasColumns(page, kinds, cols) && |page| < PAGE_LIMIT
  {
    page := WritePage(kinds, types, data, rows, lsn, sum, cols);
    PageIs(page, kinds, cols, rows, sum);
  }

  // ── The file ──

  ghost predicate AllSound(pages: seq<seq<byte>>, sum: Sum) {
    pages == [] || (Sound(pages[|pages| - 1], sum) && AllSound(pages[..|pages| - 1], sum))
  }

  lemma {:induction false} SoundAt(pages: seq<seq<byte>>, i: nat, sum: Sum)
    requires AllSound(pages, sum) && i < |pages|
    ensures Sound(pages[i], sum)
  {
    if i < |pages| - 1 { SoundAt(pages[..|pages| - 1], i, sum); }
  }

  /** Page i of a file of pages. */
  lemma {:induction false} PageInFile(pages: seq<seq<byte>>, i: nat, sum: Sum)
    requires i < |pages| && AllSound(pages, sum)
    ensures ReadsAt(Flat(pages), |Flat(pages[..i])|, pages[i], sum)
    ensures |Flat(pages[..i])| + |pages[i]| == |Flat(pages[..i + 1])| <= |Flat(pages)|
  {
    FlatAt(pages, i);
    SplitAt(pages, i);
    SoundAt(pages, i, sum);
    PageAt(Flat(pages[..i]), pages[i], Flat(pages[i + 1..]), sum);
  }

  /** What Table keeps of a page. */
  datatype PageEntry = PageEntry(start: nat, count: nat, offset: nat)

  /** The entries lie at the pages' offsets. */
  ghost predicate Located(pages: seq<seq<byte>>, entries: seq<PageEntry>) {
    if pages == [] then entries == []
    else
      var n := |pages| - 1;
      |entries| == n + 1 && entries[n].offset == |Flat(pages[..n])| && Located(pages[..n], entries[..n])
  }

  /** The pages' rows follow one another from row 0, and no page is empty. */
  ghost predicate Gapless(entries: seq<PageEntry>) {
    entries == [] || (
      var n := |entries| - 1;
      entries[n].start == Flushed(entries[..n]) && entries[n].count > 0 && Gapless(entries[..n]))
  }

  lemma {:induction false} LocatedAt(pages: seq<seq<byte>>, entries: seq<PageEntry>, i: nat)
    requires Located(pages, entries) && i < |pages|
    ensures |entries| == |pages| && entries[i].offset == |Flat(pages[..i])|
  {
    var n := |pages| - 1;
    if i < n {
      LocatedAt(pages[..n], entries[..n], i);
      assert pages[..n][..i] == pages[..i];
    }
  }

  lemma {:induction false} InOrder(entries: seq<PageEntry>)
    requires Gapless(entries)
    ensures entries != [] ==> entries[0].start == 0
    ensures forall i, j :: 0 <= i < j < |entries| && j == i + 1 ==> entries[j].start == entries[i].start + entries[i].count
  {
    if entries != [] {
      var n := |entries| - 1;
      var front := entries[..n];
      InOrder(front);
      forall i, j | 0 <= i < j < |entries| && j == i + 1 ensures entries[j].start == entries[i].start + entries[i].count {
        if j < n { assert front[j].start == front[i].start + front[i].count; }
      }
    }
  }

  /** How many rows are on pages. */
  function Flushed(entries: seq<PageEntry>): nat {
    if entries == [] then 0 else entries[|entries| - 1].start + entries[|entries| - 1].count
  }

  /** Rows a to b of every column. */
  function Slices(cols: seq<seq<Cell>>, a: nat, b: nat): (s: seq<seq<Cell>>)
    requires a <= b && Long(cols, b)
    ensures |s| == |cols|
  {
    seq(|cols|, ci requires 0 <= ci < |cols| => cols[ci][a..b])
  }

  predicate Long(cols: seq<seq<Cell>>, n: nat) { forall ci :: 0 <= ci < |cols| ==> n <= |cols[ci]| }

  /** The page holds the rows of its entry. */
  ghost predicate Contains(page: seq<byte>, e: PageEntry, kinds: seq<Kind>, cols: seq<seq<Cell>>) {
    Long(cols, e.start + e.count) && HasColumns(page, kinds, Slices(cols, e.start, e.start + e.count))
  }

  ghost predicate AllContain(pages: seq<seq<byte>>, entries: seq<PageEntry>, kinds: seq<Kind>, cols: seq<seq<Cell>>) {
    |pages| == |entries| &&
    forall i {:trigger Contains(pages[i], entries[i], kinds, cols)} :: 0 <= i < |entries| ==> Contains(pages[i], entries[i], kinds, cols)
  }

  /** The file is these pages, and the entries say which rows of the table each holds. */
  ghost predicate OnFile(file: seq<byte>, pages: seq<seq<byte>>, entries: seq<PageEntry>, kinds: seq<Kind>, cols: seq<seq<Cell>>, sum: Sum) {
    && file == Flat(pages) && AllSound(pages, sum) && Located(pages, entries) && Gapless(entries)
    && AllContain(pages, entries, kinds, cols)
  }

  // ── Appending a page ──

  /** A page at the end of the file, holding the rows that come next. */
  lemma {:induction false} Appended(file: seq<byte>, pages: seq<seq<byte>>, entries: seq<PageEntry>, kinds: seq<Kind>, cols: seq<seq<Cell>>, sum: Sum,
                                    page: seq<byte>, count: nat)
    requires OnFile(file, pages, entries, kinds, cols, sum) && Sound(page, sum) && count > 0
    requires Contains(page, PageEntry(Flushed(entries), count, |file|), kinds, cols)
    ensures var e := PageEntry(Flushed(entries), count, |file|);
            && OnFile(file + page, pages + [page], entries + [e], kinds, cols, sum)
            && Flushed(entries + [e]) == Flushed(entries) + count
  {
    var e := PageEntry(Flushed(entries), count, |file|);
    FlatConcat(pages, [page]);
    FlatOne(page);
    assert (pages + [page])[..|pages|] == pages && (entries + [e])[..|entries|] == entries;
  }

  lemma {:induction false} ContainsMore(page: seq<byte>, e: PageEntry, kinds: seq<Kind>, cols: seq<seq<Cell>>, more: seq<seq<Cell>>)
    requires Contains(page, e, kinds, cols) && |more| == |cols| && forall ci :: 0 <= ci < |cols| ==> cols[ci] <= more[ci]
    ensures Contains(page, e, kinds, more)
  {
    forall ci | 0 <= ci < |cols| ensures cols[ci][e.start..e.start + e.count] == more[ci][e.start..e.start + e.count] {
      SliceOfPrefix(cols[ci], more[ci], e.start, e.start + e.count);
    }
    assert Slices(cols, e.start, e.start + e.count) == Slices(more, e.start, e.start + e.count);
  }

  lemma SliceOfPrefix(x: seq<Cell>, y: seq<Cell>, a: nat, b: nat)
    requires x <= y && a <= b <= |x|
    ensures x[a..b] == y[a..b]
  {
  }

  /** More rows in the table do not change what is on file. */
  lemma {:induction false} MoreRows(pages: seq<seq<byte>>, entries: seq<PageEntry>, kinds: seq<Kind>, cols: seq<seq<Cell>>, more: seq<seq<Cell>>)
    requires AllContain(pages, entries, kinds, cols) && |more| == |cols| && forall ci :: 0 <= ci < |cols| ==> cols[ci] <= more[ci]
    ensures AllContain(pages, entries, kinds, more)
  {
    forall i | 0 <= i < |entries| ensures Contains(pages[i], entries[i], kinds, more) {
      ContainsMore(pages[i], entries[i], kinds, cols, more);
    }
  }

  // ── The scan of a column ──

  /** The rows of each page. */
  function Groups(entries: seq<PageEntry>, col: seq<Cell>): (g: seq<seq<Cell>>)
    requires Inside(entries, |col|)
    ensures |g| == |entries|
  {
    seq(|entries|, i requires 0 <= i < |entries| => col[entries[i].start..entries[i].start + entries[i].count])
  }

  predicate Inside(entries: seq<PageEntry>, n: nat) { forall i :: 0 <= i < |entries| ==> entries[i].start + entries[i].count <= n }

  /** Pages in order and without gaps hold the first rows of the column. */
  lemma {:induction false} GroupsJoined(entries: seq<PageEntry>, col: seq<Cell>)
    requires Inside(entries, |col|) && Gapless(entries)
    ensures Flushed(entries) <= |col| && Joined(Groups(entries, col)) == col[..Flushed(entries)]
  {
    if entries != [] {
      var n := |entries| - 1;
      GroupsJoined(entries[..n], col);
      assert Groups(entries, col)[..n] == Groups(entries[..n], col);
    }
  }

  /** Column ci of each page. */
  function ColumnsOf(pages: seq<seq<byte>>, ci: nat): (s: seq<PageColumn>)
    ensures |s| == |pages|
  {
    if pages == [] then [] else ColumnsOf(pages[..|pages| - 1], ci) + [PageColumnAt(pages[|pages| - 1], ci)]
  }

  lemma {:induction false} ColumnsAt(pages: seq<seq<byte>>, ci: nat, i: nat)
    requires i < |pages|
    ensures ColumnsOf(pages, ci)[i] == PageColumnAt(pages[i], ci)
  {
    if i < |pages| - 1 { ColumnsAt(pages[..|pages| - 1], ci, i); }
  }

  lemma {:induction false} ColumnsNext(pages: seq<seq<byte>>, ci: nat, n: nat)
    requires n < |pages|
    ensures ColumnsOf(pages[..n + 1], ci) == ColumnsOf(pages[..n], ci) + [PageColumnAt(pages[n], ci)]
  {
    assert pages[..n + 1][..n] == pages[..n];
  }

  /** One step of the walk: the page at the offset, and where the next one begins. */
  method NextColumn(file: seq<byte>, off: nat, ci: nat, sum: Sum, ghost pages: seq<seq<byte>>, ghost n: nat)
    returns (column: Option<PageColumn>, next: nat)
    requires file == Flat(pages) && AllSound(pages, sum) && n < |pages| && off == |Flat(pages[..n])|
    ensures column == Some(PageColumnAt(pages[n], ci)) && next == |Flat(pages[..n + 1])|
  {
    PageInFile(pages, n, sum);
    var page := ReadPage(file, off, sum);
    if page.None? { return None, off; }
    return Some(PageColumnAt(page.value, ci)), off + PAGE_HEADER + Field(file, off + 16, 4);
  }

  /** read_table_columns walks the file page by page; this is its walk for column ci. */
  method CollectPages(file: seq<byte>, ci: nat, sum: Sum, ghost pages: seq<seq<byte>>) returns (columns: seq<PageColumn>)
    requires file == Flat(pages) && AllSound(pages, sum)
    ensures columns == ColumnsOf(pages, ci)
  {
    columns := [];
    var off := 0;
    ghost var n := 0;
    while off + PAGE_HEADER <= |file|
      invariant n <= |pages| && off == |Flat(pages[..n])| && columns == ColumnsOf(pages[..n], ci)
      decreases |pages| - n
    {
      NotDone(pages, n);
      var column, next := NextColumn(file, off, ci, sum, pages, n);
      if column.None? { break; }
      ColumnsNext(pages, ci, n);
      columns := columns + [column.value];
      off := next;
      n := n + 1;
    }
    AllRead(pages, n, sum);
    assert pages[..n] == pages;
  }

  lemma {:induction false} AllRead(pages: seq<seq<byte>>, n: nat, sum: Sum)
    requires n <= |pages| && AllSound(pages, sum) && |Flat(pages[..n])| + PAGE_HEADER > |Flat(pages)|
    ensures n == |pages|
  {
    if n < |pages| { PageInFile(pages, n, sum); }
  }

  /** Before the end of the file there is another page. */
  lemma {:induction false} NotDone(pages: seq<seq<byte>>, i: nat)
    requires i <= |pages| && |Flat(pages[..i])| < |Flat(pages)|
    ensures i < |pages|
  {
    assert pages[..|pages|] == pages;
  }

  lemma {:induction false} EntryColumn(page: seq<byte>, e: PageEntry, kinds: seq<Kind>, cols: seq<seq<Cell>>, ci: nat)
    requires Contains(page, e, kinds, cols) && ci < |kinds|
    ensures ci < |cols| && e.start + e.count <= |cols[ci]|
    ensures Holds(PageColumnAt(page, ci), kinds[ci], cols[ci][e.start..e.start + e.count])
  {
    assert Holds(PageColumnAt(page, ci), kinds[ci], Slices(cols, e.start, e.start + e.count)[ci]);
  }

  lemma {:induction false} AllHold(pages: seq<seq<byte>>, entries: seq<PageEntry>, kinds: seq<Kind>, cols: seq<seq<Cell>>, ci: nat)
    requires AllContain(pages, entries, kinds, cols) && ci < |kinds| == |cols|
    ensures Inside(entries, |cols[ci]|) && HoldAll(ColumnsOf(pages, ci), kinds[ci], Groups(entries, cols[ci]))
  {
    forall i | 0 <= i < |entries|
      ensures entries[i].start + entries[i].count <= |cols[ci]|
      ensures Holds(ColumnsOf(pages, ci)[i], kinds[ci], cols[ci][entries[i].start..entries[i].start + entries[i].count])
    {
      ColumnsAt(pages, ci, i);
      EntryColumn(pages[i], entries[i], kinds, cols, ci);
    }
  }

  /** read_table_columns for one column: the rows on pages, in the form of a scan. */
  method ScanColumn(file: seq<byte>, ci: nat, k: Kind, sum: Sum, ghost pages: seq<seq<byte>>, ghost entries: seq<PageEntry>, ghost kinds: seq<Kind>,
                    ghost cols: seq<seq<Cell>>) returns (data: seq<byte>)
    requires OnFile(file, pages, entries, kinds, cols, sum) && ci < |kinds| == |cols| && k == kinds[ci]
    ensures Flushed(entries) <= |cols[ci]| && data == Scanned(k, cols[ci][..Flushed(entries)])
  {
    var columns := CollectPages(file, ci, sum, pages);
    AllHold(pages, entries, kinds, cols, ci);
    ghost var groups := Groups(entries, cols[ci]);
    GroupsJoined(entries, cols[ci]);
    if k.VarChar? { data := ScanStrings(columns, groups); } else { data := ScanFixed(k.size, columns, groups); }
  }

  // ── Rows by id ──

  /** The rows of each page with its column ci. */
  function RangesOf(entries: seq<PageEntry>, columns: seq<PageColumn>): (s: seq<Range>)
    requires |columns| == |entries|
    ensures |s| == |entries|
  {
    seq(|entries|, i requires 0 <= i < |entries| => Range(entries[i].start, entries[i].count, columns[i].bytes))
  }

  /** read_rows goes to the page by its offset. */
  method ColumnAt(file: seq<byte>, off: nat, ci: nat, ghost sum: Sum, ghost pages: seq<seq<byte>>, ghost i: nat) returns (column: PageColumn)
    requires file == Flat(pages) && AllSound(pages, sum) && i < |pages| && off == |Flat(pages[..i])|
    ensures column == PageColumnAt(pages[i], ci)
  {
    PageInFile(pages, i, sum);
    column := PageColumnAt(file[off..off + PAGE_HEADER + Field(file, off + 16, 4)], ci);
  }

  /** The column of every page, reached through the page's entry. */
  method ColumnRanges(file: seq<byte>, entries: seq<PageEntry>, ci: nat, ghost sum: Sum, ghost pages: seq<seq<byte>>) returns (ranges: seq<Range>)
    requires file == Flat(pages) && AllSound(pages, sum) && Located(pages, entries)
    ensures ranges == RangesOf(entries, ColumnsOf(pages, ci))
  {
    var columns: seq<PageColumn> := [];
    for i := 0 to |entries|
      invariant columns == ColumnsOf(pages[..i], ci)
    {
      LocatedAt(pages, entries, i);
      var column := ColumnAt(file, entries[i].offset, ci, sum, pages, i);
      ColumnsNext(pages, ci, i);
      columns := columns + [column];
    }
    assert pages[..|entries|] == pages;
    ranges := RangesOf(entries, columns);
  }

  lemma {:induction false} RangesHold(pages: seq<seq<byte>>, entries: seq<PageEntry>, kinds: seq<Kind>, cols: seq<seq<Cell>>, ci: nat)
    requires AllContain(pages, entries, kinds, cols) && Gapless(entries) && ci < |kinds| == |cols|
    ensures PagesHold(RangesOf(entries, ColumnsOf(pages, ci)), kinds[ci], cols[ci])
  {
    var ranges := RangesOf(entries, ColumnsOf(pages, ci));
    InOrder(entries);
    forall i | 0 <= i < |ranges| ensures PageHolds(ranges[i], kinds[ci], cols[ci]) {
      ColumnsAt(pages, ci, i);
      EntryColumn(pages[i], entries[i], kinds, cols, ci);
    }
  }

  lemma {:induction false} RangesCover(ranges: seq<Range>, entries: seq<PageEntry>, rid: nat)
    requires |ranges| == |entries| && Gapless(entries) && rid < Flushed(entries)
    requires forall i :: 0 <= i < |entries| ==> ranges[i].start == entries[i].start && ranges[i].count == entries[i].count
    ensures OnPage(ranges, rid)
  {
    var n := |entries| - 1;
    if entries[n].start <= rid {
      assert Within(ranges[n], rid);
    } else {
      RangesCover(ranges[..n], entries[..n], rid);
      var i :| 0 <= i < n && Within(ranges[..n][i], rid);
      assert Within(ranges[i], rid);
    }
  }

  function Picked(col: seq<Cell>, ids: seq<nat>): (s: seq<Cell>)
    requires IdsBelow(ids, |col|)
    ensures |s| == |ids|
  {
    seq(|ids|, i requires 0 <= i < |ids| => col[ids[i]])
  }

  lemma {:induction false} AllGathered(ranges: seq<Range>, entries: seq<PageEntry>, k: Kind, col: seq<Cell>, ids: seq<nat>)
    requires |ranges| == |entries| && Gapless(entries) && Flushed(entries) <= |col| && IdsBelow(ids, Flushed(entries))
    requires forall i :: 0 <= i < |entries| ==> ranges[i].start == entries[i].start && ranges[i].count == entries[i].count
    ensures Gathered(ranges, [], k, col, ids) == Picked(col, ids)
  {
    forall i | 0 <= i < |ids| ensures CellOf(ranges, [], k, col, ids[i]) == col[ids[i]] { RangesCover(ranges, entries, ids[i]); }
  }

  /** read_rows for one column of a flushed table: the cells with the given ids, in the form of a scan. */
  method PickColumn(file: seq<byte>, entries: seq<PageEntry>, ci: nat, k: Kind, ids: seq<nat>, ghost sum: Sum, ghost pages: seq<seq<byte>>,
                    ghost kinds: seq<Kind>, ghost cols: seq<seq<Cell>>) returns (data: seq<byte>)
    requires OnFile(file, pages, entries, kinds, cols, sum) && ci < |kinds| == |cols| && k == kinds[ci]
    requires Flushed(entries) <= |cols[ci]| && IdsBelow(ids, Flushed(entries))
    ensures data == Scanned(k, Picked(cols[ci], ids))
  {
    var ranges := ColumnRanges(file, entries, ci, sum, pages);
    RangesHold(pages, entries, kinds, cols, ci);
    data := ReadRows(ranges, [], k, ids, cols[ci]);
    AllGathered(ranges, entries, k, cols[ci], ids);
  }
}
