/**
 The two readers of a column: the scan, which appends page after page, and read_rows, which gathers
 rows by id from pages and pending batches.  Both give the same form.
 */
module ColumnReads {
  import opened LittleEndian
  import opened ColumnBytes

  // ── Offsets as numbers ──

  function Ends(cells: seq<Cell>): (s: seq<nat>)
    ensures |s| == |cells|
  {
    if cells == [] then [] else Ends(cells[..|cells| - 1]) + [|Flat(cells)|]
  }

  function LeAll(ns: seq<nat>): seq<byte> {
    if ns == [] then [] else LeAll(ns[..|ns| - 1]) + Le(ns[|ns| - 1], 4)
  }

  lemma {:induction false} OffsetsAreEnds(cells: seq<Cell>)
    ensures LeAll(Ends(cells)) == Offsets(cells)
  {
    if cells != [] {
      var n := |cells| - 1;
      OffsetsAreEnds(cells[..n]);
      assert Ends(cells)[..n] == Ends(cells[..n]);
    }
  }

  function Shifted(ns: seq<nat>, delta: nat): (r: seq<nat>)
    ensures |r| == |ns|
  {
    seq(|ns|, i requires 0 <= i < |ns| => ns[i] + delta)
  }

  lemma {:induction false} EndsConcat(a: seq<Cell>, b: seq<Cell>)
    ensures Ends(a + b) == Ends(a) + Shifted(Ends(b), |Flat(a)|)
    decreases |b|
  {
    if b == [] {
      assert a + b == a;
    } else {
      var n := |b| - 1;
      assert (a + b)[..|a + b| - 1] == a + b[..n];
      EndsConcat(a, b[..n]);
      FlatConcat(a, b);
      assert Shifted(Ends(b), |Flat(a)|) == Shifted(Ends(b[..n]), |Flat(a)|) + [|Flat(b)| + |Flat(a)|];
    }
  }

  lemma {:induction false} LastEnd(cells: seq<Cell>)
    ensures (if cells == [] then 0 else Ends(cells)[|cells| - 1]) == |Flat(cells)|
  {
  }

  lemma {:induction false} EndAt(cells: seq<Cell>, i: nat)
    requires i < |cells|
    ensures Ends(cells)[i] == |Flat(cells[..i + 1])|
  {
    if i == |cells| - 1 {
      assert cells[..i + 1] == cells;
    } else {
      EndAt(cells[..|cells| - 1], i);
      assert cells[..|cells| - 1][..i + 1] == cells[..i + 1];
    }
  }

  // ── The scan ──

  /** What one page holds of the column. */
  datatype PageColumn = PageColumn(count: nat, bytes: seq<byte>)

  function Joined(groups: seq<seq<Cell>>): seq<Cell> {
    if groups == [] then [] else Joined(groups[..|groups| - 1]) + groups[|groups| - 1]
  }

  ghost predicate Holds(p: PageColumn, k: Kind, cells: seq<Cell>) {
    p.count == |cells| && CellsOk(k, cells) && p.bytes == Scanned(k, cells)
  }

  ghost predicate HoldAll(pages: seq<PageColumn>, k: Kind, groups: seq<seq<Cell>>) {
    |pages| == |groups| && forall i :: 0 <= i < |pages| ==> Holds(pages[i], k, groups[i])
  }

  /** A page of empty strings has no blob, and all its offsets are zero. */
  lemma {:induction false} EmptyEnds(cells: seq<Cell>)
    requires Flat(cells) == []
    ensures Ends(cells) == seq(|cells|, _ => 0)
  {
    if cells != [] { EmptyEnds(cells[..|cells| - 1]); }
  }

  /** The offsets of one page, moved past what came before. */
  method PageOffsets(p: PageColumn, adj: nat, ghost cells: seq<Cell>) returns (offs: seq<nat>)
    requires Holds(p, VarChar, cells)
    ensures offs == Shifted(Ends(cells), adj)
  {
    offs := [];
    if |p.bytes| <= 4 * p.count {
      assert Flat(cells) == [];
      EmptyEnds(cells);
      for r := 0 to p.count
        invariant offs == seq(r, _ => adj)
      {
        offs := offs + [adj];
      }
    } else {
      for r := 0 to p.count
        invariant offs == Shifted(Ends(cells), adj)[..r]
      {
        OffsetAt(cells, r);
        EndAt(cells, r);
        assert p.bytes[4 * r..4 * r + 4] == Offsets(cells)[4 * r..4 * r + 4];
        offs := offs + [FromLe(p.bytes[4 * r..4 * r + 4]) + adj];
      }
    }
  }

  /** read_table_columns, for a string column. */
  method ScanStrings(pages: seq<PageColumn>, ghost groups: seq<seq<Cell>>) returns (data: seq<byte>)
    requires HoldAll(pages, VarChar, groups)
    ensures data == Scanned(VarChar, Joined(groups))
  {
    var offs: seq<nat>, blob: seq<byte> := [], [];
    for i := 0 to |pages|
      invariant offs == Ends(Joined(groups[..i])) && blob == Flat(Joined(groups[..i]))
    {
      ghost var before := Joined(groups[..i]);
      assert Holds(pages[i], VarChar, groups[i]);
      assert groups[..i + 1][..i] == groups[..i];
      LastEnd(before);
      EndsConcat(before, groups[i]);
      FlatConcat(before, groups[i]);
      var more := PageOffsets(pages[i], if offs == [] then 0 else offs[|offs| - 1], groups[i]);
      offs := offs + more;
      assert pages[i].bytes[4 * pages[i].count..] == Flat(groups[i]);
      blob := blob + pages[i].bytes[4 * pages[i].count..];
    }
    assert groups[..|pages|] == groups;
    OffsetsAreEnds(Joined(groups));
    data := LeAll(offs) + blob;
  }

  /** read_table_columns, for a column of fixed-size values. */
  method ScanFixed(size: nat, pages: seq<PageColumn>, ghost groups: seq<seq<Cell>>) returns (data: seq<byte>)
    requires HoldAll(pages, Fixed(size), groups)
    ensures data == Scanned(Fixed(size), Joined(groups))
  {
    data := [];
    for i := 0 to |pages|
      invariant data == Flat(Joined(groups[..i]))
    {
      assert Holds(pages[i], Fixed(size), groups[i]);
      assert groups[..i + 1][..i] == groups[..i];
      FlatConcat(Joined(groups[..i]), groups[i]);
      data := data + pages[i].bytes;
    }
    assert groups[..|pages|] == groups;
  }

  // ── read_rows ──

  /** A run of consecutive rows: on a page, or in a pending batch. */
  datatype Range = Range(start: nat, count: nat, bytes: seq<byte>)

  predicate Within(r: Range, rid: nat) { r.start <= rid < r.start + r.count }

  /** The pages are in row order without gaps; all is the column by row id. */
  ghost predicate PagesHold(pages: seq<Range>, k: Kind, all: seq<Cell>) {
    && (pages != [] ==> pages[0].start == 0)
    && (forall i, j :: 0 <= i < j < |pages| && j == i + 1 ==> pages[j].start == pages[i].start + pages[i].count)
    && (forall i :: 0 <= i < |pages| ==> PageHolds(pages[i], k, all))
  }

  ghost predicate PageHolds(p: Range, k: Kind, all: seq<Cell>) {
    p.start + p.count <= |all| && CellsOk(k, all[p.start..p.start + p.count])
    && p.bytes == Scanned(k, all[p.start..p.start + p.count])
  }

  ghost predicate BatchHolds(b: Range, k: Kind, all: seq<Cell>) {
    b.start + b.count <= |all| && CellsOk(k, all[b.start..b.start + b.count])
    && b.bytes == Pending(k, all[b.start..b.start + b.count])
  }

  ghost predicate BatchesHold(batches: seq<Range>, k: Kind, all: seq<Cell>) {
    forall i :: 0 <= i < |batches| ==> BatchHolds(batches[i], k, all)
  }

  predicate OnPage(pages: seq<Range>, rid: nat) { exists i :: 0 <= i < |pages| && Within(pages[i], rid) }

  lemma {:induction false} StartsAscend(pages: seq<Range>, k: Kind, all: seq<Cell>, i: nat, j: nat)
    requires PagesHold(pages, k, all) && i < j < |pages|
    ensures pages[i].start + pages[i].count <= pages[j].start
  {
    if i + 1 < j { StartsAscend(pages, k, all, i, j - 1); }
  }

  ghost predicate Ascend(pages: seq<Range>) {
    forall i, j :: 0 <= i < j < |pages| ==> pages[i].start + pages[i].count <= pages[j].start
  }

  lemma {:induction false} PagesAscend(pages: seq<Range>, k: Kind, all: seq<Cell>)
    requires PagesHold(pages, k, all)
    ensures Ascend(pages)
  {
    forall i, j | 0 <= i < j < |pages| ensures pages[i].start + pages[i].count <= pages[j].start {
      StartsAscend(pages, k, all, i, j);
    }
  }

  /** The first page that starts after the row. */
  method UpperBound(pages: seq<Range>, rid: nat) returns (lo: nat)
    requires Ascend(pages)
    ensures lo <= |pages|
    ensures forall i :: 0 <= i < lo ==> pages[i].start <= rid
    ensures forall i :: lo <= i < |pages| ==> rid < pages[i].start
  {
    lo := 0;
    var hi := |pages|;
    while lo < hi
      invariant 0 <= lo <= hi <= |pages|
      invariant forall i :: 0 <= i < lo ==> pages[i].start <= rid
      invariant forall i :: hi <= i < |pages| ==> rid < pages[i].start
    {
      var mid := (lo + hi) / 2;
      if rid < pages[mid].start { hi := mid; } else { lo := mid + 1; }
    }
  }

  /** The page with the row: only the last one that starts at or before it can hold it. */
  method LookupPage(pages: seq<Range>, rid: nat, ghost k: Kind, ghost all: seq<Cell>) returns (at: int)
    requires PagesHold(pages, k, all)
    ensures -1 <= at < |pages|
    ensures at >= 0 ==> Within(pages[at], rid)
    ensures at < 0 ==> !OnPage(pages, rid)
  {
    PagesAscend(pages, k, all);
    var upper: int := UpperBound(pages, rid);
    at := upper - 1;
    if at < 0 || rid >= pages[at].start + pages[at].count {
      assert forall i :: 0 <= i < at ==> pages[i].start + pages[i].count <= pages[at].start;
      at := -1;
    }
  }

  /** The cell of a row on a page. */
  method FromPage(p: Range, rid: nat, k: Kind, ghost all: seq<Cell>) returns (cell: Cell)
    requires PageHolds(p, k, all) && Within(p, rid)
    ensures cell == all[rid]
  {
    ghost var cells := all[p.start..p.start + p.count];
    ReadsBack(k, cells, rid - p.start);
    cell := CellAt(k, p.bytes, p.count, rid - p.start);
  }

  /** Strings before the wanted one are skipped one by one. */
  method SkipStrings(bytes: seq<byte>, local: nat, ghost cells: seq<Cell>) returns (pos: nat)
    requires local < |cells| && CellsOk(VarChar, cells) && bytes == Prefixed(cells)
    ensures pos == |Prefixed(cells[..local])|
  {
    pos := 0;
    for r := 0 to local
      invariant pos == |Prefixed(cells[..r])|
    {
      PrefixedAt(cells, r);
      pos := pos + 4 + FromLe(bytes[pos..pos + 4]);
    }
  }

  /** The cell of a row in a pending batch. */
  method FromBatch(b: Range, rid: nat, k: Kind, ghost all: seq<Cell>) returns (cell: Cell)
    requires BatchHolds(b, k, all) && Within(b, rid)
    ensures cell == all[rid]
  {
    ghost var cells := all[b.start..b.start + b.count];
    var local := rid - b.start;
    assert cells[local] == all[rid];
    if k.Fixed? {
      ReadsBack(k, cells, local);
      cell := CellAt(k, b.bytes, b.count, local);
    } else {
      var pos := SkipStrings(b.bytes, local, cells);
      PrefixedAt(cells, local);
      var len := FromLe(b.bytes[pos..pos + 4]);
      cell := b.bytes[pos + 4..pos + 4 + len];
    }
  }

  /** A row found nowhere reads as zero bytes, or as an empty string. */
  function Zero(k: Kind): (z: Cell)
    ensures FromLe(z) == 0 && |z| == if k.Fixed? then k.size else 0
  {
    if k.Fixed? then ZeroBytes(k.size); seq(k.size, _ => 0) else []
  }

  lemma {:induction false} ZeroBytes(n: nat)
    ensures FromLe(seq(n, _ => 0)) == 0
  {
    if n > 0 {
      ZeroBytes(n - 1);
      assert seq(n, _ => 0)[1..] == seq(n - 1, _ => 0);
    }
  }

  predicate Stored(pages: seq<Range>, batches: seq<Range>, rid: nat) { OnPage(pages, rid) || OnPage(batches, rid) }

  function CellOf(pages: seq<Range>, batches: seq<Range>, k: Kind, all: seq<Cell>, rid: nat): Cell {
    if Stored(pages, batches, rid) && rid < |all| then all[rid] else Zero(k)
  }

  method FindCell(pages: seq<Range>, batches: seq<Range>, rid: nat, k: Kind, ghost all: seq<Cell>) returns (cell: Cell)
    requires PagesHold(pages, k, all) && BatchesHold(batches, k, all)
    ensures cell == CellOf(pages, batches, k, all, rid)
  {
    var at := LookupPage(pages, rid, k, all);
    if at >= 0 {
      assert PageHolds(pages[at], k, all);
      cell := FromPage(pages[at], rid, k, all);
      return;
    }
    for i := 0 to |batches|
      invariant forall j :: 0 <= j < i ==> !Within(batches[j], rid)
    {
      if batches[i].start <= rid < batches[i].start + batches[i].count {
        assert BatchHolds(batches[i], k, all) && Within(batches[i], rid);
        cell := FromBatch(batches[i], rid, k, all);
        return;
      }
    }
    cell := Zero(k);
  }

  function Gathered(pages: seq<Range>, batches: seq<Range>, k: Kind, all: seq<Cell>, ids: seq<nat>): seq<Cell> {
    seq(|ids|, i requires 0 <= i < |ids| => CellOf(pages, batches, k, all, ids[i]))
  }

  /** The offsets and the strings of these cells. */
  ghost predicate SoFar(offsets: seq<byte>, blob: seq<byte>, cells: seq<Cell>) {
    offsets == Offsets(cells) && blob == Flat(cells)
  }

  lemma {:induction false} OneMore(offsets: seq<byte>, blob: seq<byte>, cells: seq<Cell>, cell: Cell)
    requires SoFar(offsets, blob, cells)
    ensures SoFar(offsets + Le(|blob| + |cell|, 4), blob + cell, cells + [cell])
  {
    assert (cells + [cell])[..|cells|] == cells;
  }

  lemma {:induction false} AllSoFar(offsets: seq<byte>, blob: seq<byte>, cells: seq<Cell>, k: Kind)
    requires SoFar(offsets, blob, cells)
    ensures (if k.Fixed? then blob else offsets + blob) == Scanned(k, cells)
  {
  }

  /** read_rows: the rows with the given ids, in that order, in the form of a scan. */
  method ReadRows(pages: seq<Range>, batches: seq<Range>, k: Kind, ids: seq<nat>, ghost all: seq<Cell>) returns (data: seq<byte>)
    requires PagesHold(pages, k, all) && BatchesHold(batches, k, all)
    ensures data == Scanned(k, Gathered(pages, batches, k, all, ids))
  {
    var offsets: seq<byte>, blob: seq<byte>, cum := [], [], 0;
    ghost var got: seq<Cell> := [];
    for i := 0 to |ids|
      invariant SoFar(offsets, blob, got) && cum == |blob| && |got| == i
      invariant forall j :: 0 <= j < i ==> got[j] == CellOf(pages, batches, k, all, ids[j])
    {
      var cell := FindCell(pages, batches, ids[i], k, all);
      OneMore(offsets, blob, got, cell);
      got := got + [cell];
      cum := cum + |cell|;
      blob := blob + cell;
      offsets := offsets + Le(cum, 4);
    }
    assert got == Gathered(pages, batches, k, all, ids);
    AllSoFar(offsets, blob, got, k);
    data := if k.Fixed? then blob else offsets + blob;
  }

  /** Gathering by id agrees with scanning everything and picking the rows, wherever they are stored. */
  lemma {:induction false} GatherAgrees(pages: seq<Range>, batches: seq<Range>, k: Kind, all: seq<Cell>, ids: seq<nat>, i: nat)
    requires CellsOk(k, all) && i < |ids| && (forall j :: 0 <= j < |ids| ==> ids[j] < |all| && Stored(pages, batches, ids[j]))
    requires CellsOk(k, Gathered(pages, batches, k, all, ids))
    ensures CellAt(k, Scanned(k, Gathered(pages, batches, k, all, ids)), |ids|, i) == CellAt(k, Scanned(k, all), |all|, ids[i])
  {
    ReadsBack(k, Gathered(pages, batches, k, all, ids), i);
    ReadsBack(k, all, ids[i]);
  }
}
