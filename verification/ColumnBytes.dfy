/**
 One column of a table as bytes: pending rows (strings prefixed by their lengths), the form pages
 and scans have (cumulative end offsets, then the strings), and the ways from one to the other.
 */
module ColumnBytes {
  import opened Sequences
  import opened LittleEndian

  /** Fixed-size values take 1, 4 or 8 bytes. */
  datatype Kind = Fixed(size: nat) | VarChar

  function Flat(cells: seq<Cell>): seq<byte> {
    if cells == [] then [] else Flat(cells[..|cells| - 1]) + cells[|cells| - 1]
  }

  /** The cells a column may hold; string offsets are 32-bit. */
  ghost predicate CellsOk(k: Kind, cells: seq<Cell>) {
    && (k.Fixed? ==> forall i :: 0 <= i < |cells| ==> |cells[i]| == k.size)
    && (k.VarChar? ==> |Flat(cells)| < U32)
  }

  /** Each string after its length. */
  function Prefixed(cells: seq<Cell>): seq<byte> {
    if cells == [] then []
    else
      var n := |cells| - 1;
      Prefixed(cells[..n]) + (Le(|cells[n]|, 4) + cells[n])
  }

  /** Where each string ends among all of them. */
  function Offsets(cells: seq<Cell>): (s: seq<byte>)
    ensures |s| == 4 * |cells|
  {
    if cells == [] then [] else Offsets(cells[..|cells| - 1]) + Le(|Flat(cells)|, 4)
  }

  function Pending(k: Kind, cells: seq<Cell>): seq<byte> { if k.Fixed? then Flat(cells) else Prefixed(cells) }

  function Scanned(k: Kind, cells: seq<Cell>): seq<byte> {
    if k.Fixed? then Flat(cells) else Offsets(cells) + Flat(cells)
  }

  // ── Concatenation ──

  lemma {:induction false} FlatConcat(a: seq<Cell>, b: seq<Cell>)
    ensures Flat(a + b) == Flat(a) + Flat(b)
    decreases |b|
  {
    if b == [] {
      assert a + b == a;
    } else {
      var n := |b| - 1;
      assert (a + b)[..|a + b| - 1] == a + b[..n];
      FlatConcat(a, b[..n]);
      ConcatAssoc(Flat(a), Flat(b[..n]), b[n]);
    }
  }

  lemma {:induction false} PrefixedConcat(a: seq<Cell>, b: seq<Cell>)
    ensures Prefixed(a + b) == Prefixed(a) + Prefixed(b)
    decreases |b|
  {
    if b == [] {
      assert a + b == a;
    } else {
      var n := |b| - 1;
      assert (a + b)[..|a + b| - 1] == a + b[..n];
      PrefixedConcat(a, b[..n]);
      ConcatAssoc(Prefixed(a), Prefixed(b[..n]), Le(|b[n]|, 4) + b[n]);
    }
  }

  lemma {:induction false} FlatOne(c: Cell)
    ensures Flat([c]) == c && Prefixed([c]) == Le(|c|, 4) + c
  {
    assert [c][..0] == [];
  }

  lemma {:induction false} FlatLength(size: nat, cells: seq<Cell>)
    requires forall i :: 0 <= i < |cells| ==> |cells[i]| == size
    ensures |Flat(cells)| == |cells| * size
  {
    if cells != [] { FlatLength(size, cells[..|cells| - 1]); }
  }

  /** The cells before and after one cell. */
  lemma {:induction false} SplitAt(cells: seq<Cell>, i: nat)
    requires i < |cells|
    ensures cells == cells[..i] + ([cells[i]] + cells[i + 1..])
    ensures Flat(cells) == Flat(cells[..i]) + (cells[i] + Flat(cells[i + 1..]))
    ensures Prefixed(cells) == Prefixed(cells[..i]) + ((Le(|cells[i]|, 4) + cells[i]) + Prefixed(cells[i + 1..]))
  {
    var a, b := cells[..i], cells[i + 1..];
    FlatConcat(a, [cells[i]] + b);
    FlatConcat([cells[i]], b);
    PrefixedConcat(a, [cells[i]] + b);
    PrefixedConcat([cells[i]], b);
    FlatOne(cells[i]);
  }

  lemma Middle(a: seq<byte>, b: seq<byte>, c: seq<byte>)
    ensures (a + (b + c))[|a|..|a| + |b|] == b
  {
  }

  lemma {:induction false} FlatAt(cells: seq<Cell>, i: nat)
    requires i < |cells|
    ensures |Flat(cells[..i])| + |cells[i]| <= |Flat(cells)|
    ensures |Flat(cells[..i + 1])| == |Flat(cells[..i])| + |cells[i]|
    ensures Flat(cells)[|Flat(cells[..i])|..|Flat(cells[..i + 1])|] == cells[i]
  {
    SplitAt(cells, i);
    assert cells[..i + 1][..i] == cells[..i];
    Middle(Flat(cells[..i]), cells[i], Flat(cells[i + 1..]));
  }

  lemma {:induction false} FlatShorter(cells: seq<Cell>, i: nat)
    requires i <= |cells|
    ensures |Flat(cells[..i])| <= |Flat(cells)|
  {
    assert cells == cells[..i] + cells[i..];
    FlatConcat(cells[..i], cells[i..]);
  }

  /** A length prefix and its string, where they lie in the pending bytes. */
  lemma {:induction false} PrefixedAt(cells: seq<Cell>, i: nat)
    requires i < |cells| && |Flat(cells)| < U32
    ensures var p := |Prefixed(cells[..i])|;
            && p + 4 + |cells[i]| <= |Prefixed(cells)|
            && FromLe(Prefixed(cells)[p..p + 4]) == |cells[i]|
            && Prefixed(cells)[p + 4..p + 4 + |cells[i]|] == cells[i]
            && |Prefixed(cells[..i + 1])| == p + 4 + |cells[i]|
  {
    var p, x, y := |Prefixed(cells[..i])|, Le(|cells[i]|, 4), Prefixed(cells[i + 1..]);
    SplitAt(cells, i);
    FlatAt(cells, i);
    Widths();
    LeRoundTrip(|cells[i]|, 4);
    assert cells[..i + 1][..i] == cells[..i];
    ConcatAssoc(x, cells[i], y);
    Middle(Prefixed(cells[..i]), x, cells[i] + y);
    ConcatAssoc(Prefixed(cells[..i]), x, cells[i] + y);
    Middle(Prefixed(cells[..i]) + x, cells[i], y);
  }

  // ── Pages are written ──

  /** The loop of write_batch_to_page over the strings of a column. */
  method EncodeStrings(data: seq<byte>, n: nat, ghost cells: seq<Cell>) returns (page: seq<byte>)
    requires |cells| == n && |Flat(cells)| < U32 && data == Prefixed(cells)
    ensures page == Scanned(VarChar, cells)
  {
    var offsets: seq<byte>, blob: seq<byte>, pos, last := [], [], 0, 0;
    for r := 0 to n
      invariant pos == |Prefixed(cells[..r])| && pos <= |data|
      invariant last == |Flat(cells[..r])|
      invariant offsets == Offsets(cells[..r]) && blob == Flat(cells[..r])
    {
      PrefixedAt(cells, r);
      FlatAt(cells, r);
      assert cells[..r + 1][..r] == cells[..r];
      var len := FromLe(data[pos..pos + 4]);
      pos := pos + 4;
      last := last + len;
      offsets := offsets + Le(last, 4);
      blob := blob + data[pos..pos + len];
      pos := pos + len;
    }
    assert cells[..n] == cells;
    page := offsets + blob;
  }

  // ── Cells are read ──

  lemma {:induction false} OffsetAt(cells: seq<Cell>, i: nat)
    requires i < |cells| && |Flat(cells)| < U32
    ensures FromLe(Offsets(cells)[4 * i..4 * i + 4]) == |Flat(cells[..i + 1])|
  {
    var n := |cells| - 1;
    if i == n {
      assert cells[..i + 1] == cells;
      Widths();
      LeRoundTrip(|Flat(cells)|, 4);
      assert Offsets(cells)[4 * i..4 * i + 4] == Le(|Flat(cells)|, 4);
    } else {
      FlatShorter(cells, n);
      OffsetAt(cells[..n], i);
      assert cells[..n][..i + 1] == cells[..i + 1];
      assert Offsets(cells)[4 * i..4 * i + 4] == Offsets(cells[..n])[4 * i..4 * i + 4];
    }
  }

  /** Where string i begins and ends among n, by their offsets. */
  function Start(data: seq<byte>, i: nat): nat
    requires 4 * i <= |data|
  {
    if i == 0 then 0 else FromLe(data[4 * i - 4..4 * i])
  }

  /** bytes_to_value and value_to_string: the bytes of row i of n. */
  function CellAt(k: Kind, data: seq<byte>, n: nat, i: nat): Cell
    requires i < n
  {
    if k.Fixed? then
      if (i + 1) * k.size <= |data| && i * k.size <= (i + 1) * k.size then data[i * k.size..(i + 1) * k.size] else []
    else if |data| < 4 * n then []
    else
      var lo, hi := Start(data, i), Start(data, i + 1);
      if 4 * n + hi <= |data| && lo <= hi then data[4 * n + lo..4 * n + hi] else []
  }

  lemma {:induction false} FixedAt(size: nat, cells: seq<Cell>, i: nat)
    requires CellsOk(Fixed(size), cells) && i < |cells|
    ensures CellAt(Fixed(size), Flat(cells), |cells|, i) == cells[i]
  {
    FlatAt(cells, i);
    FlatLength(size, cells[..i]);
    assert |Flat(cells[..i])| == i * size;
    assert |Flat(cells[..i + 1])| == (i + 1) * size;
  }

  lemma {:induction false} StartAt(cells: seq<Cell>, rest: seq<byte>, i: nat)
    requires |Flat(cells)| < U32 && i <= |cells|
    ensures Start(Offsets(cells) + rest, i) == |Flat(cells[..i])|
  {
    if i > 0 {
      OffsetAt(cells, i - 1);
      assert (Offsets(cells) + rest)[4 * i - 4..4 * i] == Offsets(cells)[4 * (i - 1)..4 * (i - 1) + 4];
    }
  }

  lemma {:induction false} StringAt(cells: seq<Cell>, i: nat)
    requires |Flat(cells)| < U32 && i < |cells|
    ensures CellAt(VarChar, Scanned(VarChar, cells), |cells|, i) == cells[i]
  {
    var n, blob := |cells|, Flat(cells);
    var data := Offsets(cells) + blob;
    StartAt(cells, blob, i);
    StartAt(cells, blob, i + 1);
    FlatAt(cells, i);
    FlatShorter(cells, i + 1);
    var lo, hi := |Flat(cells[..i])|, |Flat(cells[..i + 1])|;
    assert data[4 * n + lo..4 * n + hi] == blob[lo..hi];
  }

  /** Every row reads back as it was inserted. */
  lemma {:induction false} ReadsBack(k: Kind, cells: seq<Cell>, i: nat)
    requires CellsOk(k, cells) && i < |cells|
    ensures CellAt(k, Scanned(k, cells), |cells|, i) == cells[i]
  {
    if k.Fixed? { FixedAt(k.size, cells, i); } else { StringAt(cells, i); }
  }
}
