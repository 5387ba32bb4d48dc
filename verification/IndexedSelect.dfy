/**
 SELECT with WHERE col = literal: through the index if the key is found there, otherwise by a full
 scan with the filter.  When the two give the same rows, at every snapshot.
 */
module IndexedSelect {
  import opened Versions
  import opened BPlusTree
  import opened IndexHistory
  import opened Options
  import opened Filters

  /** The types of indexed columns; BOOL values are 0 and 1, DOUBLE values whole multiples of 1 / unit. */
  datatype KeyType = Int32Key | Int64Key | BoolKey | RealKey(unit: nat)

  /** The key that index_lookup builds from the literal; one of another type gives the zero key. */
  function KeyOf(k: KeyType, lit: Value): int {
    match k
    case Int32Key => if lit.IntValue? then Cast32(lit.i) else 0
    case Int64Key => if lit.IntValue? then lit.i else 0
    case BoolKey => if lit.IntValue? && lit.i != 0 then 1 else 0
    case RealKey(unit) =>
      if lit.RealValue? then (lit.r * unit as real).Floor else if lit.IntValue? then lit.i * unit else 0
  }

  /** The column as the scan hands it to the filter; no value is null. */
  function Scanned(k: KeyType, col: seq<int>): Column
    requires k.RealKey? ==> k.unit > 0
  {
    match k
    case Int32Key => Column(Int32s(col), None)
    case Int64Key => Column(Int64s(col), None)
    case BoolKey => Column(Bools, None)
    case RealKey(unit) => Column(Reals(seq(|col|, i requires 0 <= i < |col| => col[i] as real / unit as real)), None)
  }

  /** Values of the column's type, and for a DOUBLE column a literal that is a DOUBLE as well. */
  predicate Typed(k: KeyType, col: seq<int>, lit: Value) {
    && (k.RealKey? ==> k.unit > 0 && (lit.RealValue? ==> lit.r * k.unit as real == KeyOf(k, lit) as real))
    && (k.Int32Key? ==> forall i :: 0 <= i < |col| ==> Fits(col[i]))
    && (k.BoolKey? ==> forall i :: 0 <= i < |col| ==> col[i] == 0 || col[i] == 1)
  }

  function Equals(lit: Value): Pred { Pred("", Is(Simd.Eq), lit, []) }

  /** The index of a column whose rows were inserted, or indexed, in row order. */
  function Hist(col: seq<int>): (h: seq<Entry>)
    ensures |h| == |col|
  {
    seq(|col|, i requires 0 <= i < |col| => Entry(col[i], i))
  }

  function Found(col: seq<int>, v: int): seq<nat> { Find(Build(Hist(col)).tree, v) }

  /** The listed rows that exist and are visible, in the order listed. */
  function Shown(ids: seq<nat>, rows: nat, es: seq<Ver>, q: nat): seq<nat> {
    if ids == [] then []
    else
      var n := |ids| - 1;
      Shown(ids[..n], rows, es, q) + if ids[n] < rows && Visible(es, ids[n], q) then [ids[n]] else []
  }

  /** The scan path: the rows the filter selects, then the visible ones among them. */
  function ByScan(k: KeyType, col: seq<int>, lit: Value, es: seq<Ver>, q: nat): seq<nat>
    requires Typed(k, col, lit)
  {
    Shown(RowsBelow(Scanned(k, col), |col|, Equals(lit), |col|), |col|, es, q)
  }

  /** The index path; a key not found falls back to the scan. */
  function ByIndex(k: KeyType, col: seq<int>, lit: Value, es: seq<Ver>, q: nat): seq<nat>
    requires Typed(k, col, lit)
  {
    var found := Found(col, KeyOf(k, lit));
    if found == [] then ByScan(k, col, lit, es, q) else Shown(found, |col|, es, q)
  }

  /** Whatever evaluates the filter on the scanned column selects those rows. */
  lemma {:induction false} FilterSelects(k: KeyType, col: seq<int>, lit: Value, out: seq<nat>)
    requires Typed(k, col, lit) && SelectsAtom(out, Scanned(k, col), |col|, Equals(lit))
    ensures out == RowsBelow(Scanned(k, col), |col|, Equals(lit), |col|)
  {
    RowsBelowMeans(Scanned(k, col), |col|, Equals(lit), |col|);
    SelectsUnique(out, RowsBelow(Scanned(k, col), |col|, Equals(lit), |col|));
  }

  lemma {:induction false} ShownMembers(ids: seq<nat>, rows: nat, es: seq<Ver>, q: nat)
    ensures forall r: nat :: r in Shown(ids, rows, es, q) <==> r in ids && r < rows && Visible(es, r, q)
  {
    if ids != [] {
      var n := |ids| - 1;
      ShownMembers(ids[..n], rows, es, q);
      assert ids == ids[..n] + [ids[n]];
    }
  }

  lemma {:induction false} HistMembers(col: seq<int>, v: int, r: nat)
    ensures Entry(v, r) in Hist(col) <==> r < |col| && col[r] == v
  {
    if r < |col| { assert Hist(col)[r] == Entry(col[r], r); }
  }

  /** Whether the filter compares such a column with such a literal at all. */
  predicate Comparable(k: KeyType, lit: Value) { if k.RealKey? then lit.RealValue? else !k.BoolKey? && lit.IntValue? }

  lemma {:induction false} FilterHolds(k: KeyType, col: seq<int>, lit: Value, r: nat)
    requires Typed(k, col, lit) && r < |col|
    ensures Holds(Scanned(k, col), |col|, Equals(lit), r, true) <==> Comparable(k, lit) && col[r] == KeyOf(k, lit)
  {
    if k.RealKey? && lit.RealValue? { RealCell(col[r], k.unit, lit.r, KeyOf(k, lit)); }
  }

  lemma RealCell(x: int, unit: nat, r: real, key: int)
    requires unit > 0 && r * unit as real == key as real
    ensures x as real / unit as real == r <==> x == key
  {
    var u := unit as real;
    assert (x as real / u) * u == x as real;
  }

  lemma {:induction false} ScanMembers(k: KeyType, col: seq<int>, lit: Value, es: seq<Ver>, q: nat, r: nat)
    requires Typed(k, col, lit)
    ensures r in ByScan(k, col, lit, es, q) <==>
            Comparable(k, lit) && r in Run(Hist(col), KeyOf(k, lit)) && Visible(es, r, q)
  {
    var v, c := KeyOf(k, lit), Scanned(k, col);
    RowsBelowMeans(c, |col|, Equals(lit), |col|);
    ShownMembers(RowsBelow(c, |col|, Equals(lit), |col|), |col|, es, q);
    RunHasKey(Hist(col), v);
    HistMembers(col, v, r);
    if r < |col| { FilterHolds(k, col, lit, r); }
  }

  // ── Distinct values ──

  /** No other row has the value that row i has. */
  ghost predicate Alone(col: seq<int>, i: nat) { i < |col| && forall j :: 0 <= j < |col| && j != i ==> col[j] != col[i] }

  lemma {:induction false} AloneSelected(k: KeyType, col: seq<int>, lit: Value, i: nat, n: nat)
    requires Typed(k, col, lit) && Comparable(k, lit) && Alone(col, i) && col[i] == KeyOf(k, lit) && n <= |col|
    ensures RowsBelow(Scanned(k, col), |col|, Equals(lit), n) == if i < n then [i] else []
  {
    if n > 0 {
      AloneSelected(k, col, lit, i, n - 1);
      FilterHolds(k, col, lit, n - 1);
    }
  }

  lemma {:induction false} AloneFound(col: seq<int>, i: nat)
    requires Alone(col, i)
    ensures Found(col, col[i]) == [i]
  {
    var h := Hist(col);
    assert h[i] == Entry(col[i], i);
    forall j | 0 <= j < |h| && j != i ensures h[j].key != h[i].key { assert h[j] == Entry(col[j], j); }
    SearchUnique(h, i);
  }

  lemma {:induction false} NotThere(col: seq<int>, v: int)
    requires forall i :: 0 <= i < |col| ==> col[i] != v
    ensures !HasKey(Hist(col), v)
  {
    forall e | e in Hist(col) ensures e.key != v { HistMembers(col, e.key, e.row); }
  }

  lemma {:induction false} DistinctList(k: KeyType, col: seq<int>, lit: Value, es: seq<Ver>, q: nat)
    requires Typed(k, col, lit) && (Comparable(k, lit) || KeyOf(k, lit) !in col)
    requires forall i :: 0 <= i < |col| && col[i] == KeyOf(k, lit) ==> Alone(col, i)
    ensures ByIndex(k, col, lit, es, q) == ByScan(k, col, lit, es, q)
  {
    var v := KeyOf(k, lit);
    if i :| 0 <= i < |col| && col[i] == v {
      AloneSelected(k, col, lit, i, |col|);
      AloneFound(col, i);
    } else {
      SearchMeaning(Hist(col), v);
      NotThere(col, v);
    }
  }

  /**
   If no two rows hold the key, the index path gives exactly the list of the scan path at every snapshot,
   if and only if the key does not occur or the filter compares such a literal with the column at all.
   */
  lemma {:induction false} DistinctAgrees(k: KeyType, col: seq<int>, lit: Value)
    requires Typed(k, col, lit) && forall i :: 0 <= i < |col| && col[i] == KeyOf(k, lit) ==> Alone(col, i)
    ensures (forall es, q :: ByIndex(k, col, lit, es, q) == ByScan(k, col, lit, es, q)) <==>
            KeyOf(k, lit) !in col || Comparable(k, lit)
  {
    if KeyOf(k, lit) !in col || Comparable(k, lit) {
      forall es, q ensures ByIndex(k, col, lit, es, q) == ByScan(k, col, lit, es, q) {
        DistinctList(k, col, lit, es, q);
      }
    } else {
      ExtraRow(k, col, lit);
    }
  }

  // ── Repeated values ──

  lemma {:induction false} RunCounts(es: seq<Entry>, k: int, r: nat)
    ensures multiset(Run(es, k))[r] == multiset(es)[Entry(k, r)]
  {
    if es != [] {
      RunCounts(es[1..], k, r);
      assert es == [es[0]] + es[1..];
    }
  }

  lemma {:induction false} RunPermuted(a: seq<Entry>, b: seq<Entry>, k: int)
    requires multiset(a) == multiset(b)
    ensures multiset(Run(a, k)) == multiset(Run(b, k)) && |Run(a, k)| == |Run(b, k)|
  {
    forall r ensures multiset(Run(a, k))[r] == multiset(Run(b, k))[r] {
      RunCounts(a, k, r);
      RunCounts(b, k, r);
    }
    assert multiset(Run(a, k)) == multiset(Run(b, k));
    assert |multiset(Run(a, k))| == |Run(a, k)| && |multiset(Run(b, k))| == |Run(b, k)|;
  }

  /** What the search finds, against all rows of the key. */
  lemma {:induction false} FoundSizes(col: seq<int>, v: int)
    ensures Answers(Found(col, v), Run(Hist(col), v))
    ensures |Found(col, v)| == |Run(Hist(col), v)| <==> !Straddles(Build(Hist(col)).tree, v)
  {
    var h := Hist(col);
    var t := Build(h).tree;
    BuildSound(h);
    SearchComplete(t, Height(t), v);
    RunPermuted(Ents(t), h, v);
    SearchAnswers(h, v);
  }

  lemma {:induction false} HistDistinct(col: seq<int>, n: nat)
    requires n <= |col|
    ensures forall e :: multiset(Hist(col)[..n])[e] <= 1
    ensures forall e :: e in Hist(col)[..n] ==> e.row < n
  {
    var h := Hist(col);
    if n > 0 {
      HistDistinct(col, n - 1);
      assert h[..n] == h[..n - 1] + [h[n - 1]];
      assert h[n - 1].row == n - 1;
      assert h[n - 1] !in h[..n - 1];
    }
  }

  /** Each row of the key once. */
  lemma {:induction false} RunDistinct(col: seq<int>, v: int, r: nat)
    ensures multiset(Run(Hist(col), v))[r] <= 1
  {
    HistDistinct(col, |col|);
    assert Hist(col)[..|col|] == Hist(col);
    RunCounts(Hist(col), v, r);
  }

  /** Every row of v is found. */
  ghost predicate FindsAll(col: seq<int>, v: int) { forall r :: r in Run(Hist(col), v) ==> r in Found(col, v) }

  lemma SubBag(a: multiset<nat>, b: multiset<nat>)
    requires a <= b && |a| == |b|
    ensures a == b
  {
    assert b == a + (b - a);
    assert |b - a| == 0;
  }

  lemma {:induction false} FindsAllSizes(col: seq<int>, v: int)
    ensures FindsAll(col, v) <==> |Found(col, v)| == |Run(Hist(col), v)|
  {
    var found, rows := Found(col, v), Run(Hist(col), v);
    SearchAnswers(Hist(col), v);
    assert |multiset(found)| == |found| && |multiset(rows)| == |rows|;
    if |found| == |rows| {
      SubBag(multiset(found), multiset(rows));
      forall r | r in rows ensures r in found { assert r in multiset(rows); assert r in multiset(found); }
    }
    if FindsAll(col, v) {
      forall r ensures multiset(rows)[r] <= multiset(found)[r] {
        RunDistinct(col, v, r);
        if r in rows { assert r in multiset(found); } else { assert r !in multiset(rows); }
      }
      assert multiset(rows) <= multiset(found);
      assert multiset(rows) == multiset(found);
    }
  }

  ghost predicate SameRows(k: KeyType, col: seq<int>, lit: Value, es: seq<Ver>, q: nat)
    requires Typed(k, col, lit)
  {
    forall r :: r in ByIndex(k, col, lit, es, q) <==> r in ByScan(k, col, lit, es, q)
  }

  lemma {:induction false} IndexMembers(k: KeyType, col: seq<int>, lit: Value, es: seq<Ver>, q: nat, r: nat)
    requires Typed(k, col, lit) && Found(col, KeyOf(k, lit)) != []
    ensures r in ByIndex(k, col, lit, es, q) <==> r in Found(col, KeyOf(k, lit)) && Visible(es, r, q)
  {
    var v := KeyOf(k, lit);
    ShownMembers(Found(col, v), |col|, es, q);
    SearchMeaning(Hist(col), v);
    HistMembers(col, v, r);
  }

  lemma {:induction false} SoundAt(k: KeyType, col: seq<int>, lit: Value, es: seq<Ver>, q: nat, r: nat)
    requires Typed(k, col, lit) && (Comparable(k, lit) || KeyOf(k, lit) !in col) && r in ByIndex(k, col, lit, es, q)
    ensures r in ByScan(k, col, lit, es, q)
  {
    Occurs(col, KeyOf(k, lit));
    ScanMembers(k, col, lit, es, q, r);
    if Found(col, KeyOf(k, lit)) != [] {
      IndexMembers(k, col, lit, es, q, r);
      SearchMeaning(Hist(col), KeyOf(k, lit));
      RunHasKey(Hist(col), KeyOf(k, lit));
    }
  }

  /** The index path only ever gives rows of the scan path, if and only if the same holds. */
  lemma {:induction false} IndexSound(k: KeyType, col: seq<int>, lit: Value)
    requires Typed(k, col, lit)
    ensures (forall es, q, r :: r in ByIndex(k, col, lit, es, q) ==> r in ByScan(k, col, lit, es, q)) <==>
            KeyOf(k, lit) !in col || Comparable(k, lit)
  {
    if KeyOf(k, lit) !in col || Comparable(k, lit) {
      forall es, q, r | r in ByIndex(k, col, lit, es, q) ensures r in ByScan(k, col, lit, es, q) {
        SoundAt(k, col, lit, es, q, r);
      }
    } else {
      ExtraRow(k, col, lit);
      var es := AllShow(|col|);
      forall r ensures r !in ByScan(k, col, lit, es, 0) { ScanMembers(k, col, lit, es, 0, r); }
      assert exists r :: r in ByIndex(k, col, lit, es, 0);
    }
  }

  /** A state of the version index in which all rows show. */
  function AllShow(n: nat): seq<Ver> { seq(n, i requires 0 <= i < n => Ver(i, 0, 0)) }

  lemma {:induction false} AllVisible(n: nat, r: nat)
    requires r < n
    ensures Visible(AllShow(n), r, 0)
  {
    var es := AllShow(n);
    assert forall e :: e in es ==> !Tomb(e);
    VisibleMeans(es, r, 0);
    assert es[r] in es && Candidate(es[r], r, 0);
  }

  /**
   The index path gives the rows of the scan path in every state of the version index and at every
   snapshot, if and only if the key does not occur, or it straddles no separator of the tree and the
   filter compares such a literal with the column at all.
   */
  lemma {:induction false} AgreesExactly(k: KeyType, col: seq<int>, lit: Value)
    requires Typed(k, col, lit)
    ensures (forall es, q :: SameRows(k, col, lit, es, q)) <==>
            KeyOf(k, lit) !in col ||
            (Comparable(k, lit) && !Straddles(Build(Hist(col)).tree, KeyOf(k, lit)))
  {
    var v := KeyOf(k, lit);
    FoundSizes(col, v);
    FindsAllSizes(col, v);
    Occurs(col, v);
    if v !in col || (Comparable(k, lit) && FindsAll(col, v)) {
      forall es, q ensures SameRows(k, col, lit, es, q) { AgreeAt(k, col, lit, es, q); }
    } else if Comparable(k, lit) {
      var r :| r in Run(Hist(col), v) && r !in Found(col, v);
      MissedRow(k, col, lit, r);
    } else {
      ExtraRow(k, col, lit);
    }
  }

  /** The search finds something exactly if the key occurs in the column. */
  lemma {:induction false} Occurs(col: seq<int>, v: int)
    ensures Found(col, v) != [] <==> v in col
  {
    SearchMeaning(Hist(col), v);
    if v in col {
      var i :| 0 <= i < |col| && col[i] == v;
      assert Hist(col)[i] == Entry(v, i) && Entry(v, i) in Hist(col);
    } else {
      NotThere(col, v);
    }
  }

  lemma {:induction false} AgreeAt(k: KeyType, col: seq<int>, lit: Value, es: seq<Ver>, q: nat)
    requires Typed(k, col, lit)
    requires KeyOf(k, lit) !in col || (Comparable(k, lit) && FindsAll(col, KeyOf(k, lit)))
    ensures SameRows(k, col, lit, es, q)
  {
    Occurs(col, KeyOf(k, lit));
    forall r ensures r in ByIndex(k, col, lit, es, q) <==> r in ByScan(k, col, lit, es, q) {
      ScanMembers(k, col, lit, es, q, r);
      if Found(col, KeyOf(k, lit)) != [] {
        IndexMembers(k, col, lit, es, q, r);
        if r in ByIndex(k, col, lit, es, q) { SoundAt(k, col, lit, es, q, r); }
      }
    }
  }

  lemma {:induction false} MissedRow(k: KeyType, col: seq<int>, lit: Value, r: nat)
    requires Typed(k, col, lit) && Comparable(k, lit)
    requires r in Run(Hist(col), KeyOf(k, lit)) && r !in Found(col, KeyOf(k, lit))
    ensures !SameRows(k, col, lit, AllShow(|col|), 0)
  {
    var v := KeyOf(k, lit);
    RunHasKey(Hist(col), v);
    HistMembers(col, v, r);
    AllVisible(|col|, r);
    SearchAnswers(Hist(col), v);
    ScanMembers(k, col, lit, AllShow(|col|), 0, r);
    IndexMembers(k, col, lit, AllShow(|col|), 0, r);
  }

  /** A key that occurs is found although the filter would select nothing. */
  lemma {:induction false} ExtraRow(k: KeyType, col: seq<int>, lit: Value)
    requires Typed(k, col, lit) && !Comparable(k, lit) && KeyOf(k, lit) in col
    ensures !SameRows(k, col, lit, AllShow(|col|), 0)
  {
    var v := KeyOf(k, lit);
    Occurs(col, v);
    var r := Found(col, v)[0];
    assert r in Found(col, v);
    SearchMeaning(Hist(col), v);
    HistMembers(col, v, r);
    AllVisible(|col|, r);
    ScanMembers(k, col, lit, AllShow(|col|), 0, r);
    IndexMembers(k, col, lit, AllShow(|col|), 0, r);
  }

  // ── The answer of the index path, by values ──

  /**
   The value that the index path looks for: a BOOL is true exactly for an integer other than zero; an integer
   column takes an integer literal, a 32-bit column its low 32 bits; a DOUBLE column takes numbers; and a
   literal that does not apply to the column stands for zero.
   */
  ghost predicate Asked(k: KeyType, x: int, lit: Value)
    requires k.RealKey? ==> k.unit > 0
  {
    match (k, lit)
    case (BoolKey, IntValue(i)) => x == 0 <==> i == 0
    case (Int32Key, IntValue(i)) => LowBits(x, i)
    case (Int64Key, IntValue(i)) => x == i
    case (RealKey(unit), IntValue(i)) => x as real / unit as real == i as real
    case (RealKey(unit), RealValue(r)) => x as real / unit as real == r
    case _ => x == 0
  }

  lemma AskedKey(k: KeyType, col: seq<int>, lit: Value, r: nat)
    requires Typed(k, col, lit) && r < |col|
    ensures Asked(k, col[r], lit) <==> col[r] == KeyOf(k, lit)
  {
    match (k, lit)
    case (Int32Key, IntValue(i)) => CastMeans(i, col[r]);
    case (RealKey(unit), IntValue(i)) => RealCell(col[r], unit, i as real, i * unit);
    case (RealKey(unit), RealValue(v)) => RealCell(col[r], unit, v, KeyOf(k, lit));
    case _ =>
  }

  /**
   Every row of the answer exists, is visible and holds the value asked for; and of the visible rows that hold
   it none is missing, unless that value straddles a separator of the tree.
   */
  lemma {:induction false} IndexAnswers(k: KeyType, col: seq<int>, lit: Value, es: seq<Ver>, q: nat, r: nat)
    requires Typed(k, col, lit)
    ensures r in ByIndex(k, col, lit, es, q) ==> r < |col| && Visible(es, r, q) && Asked(k, col[r], lit)
    ensures r < |col| && Visible(es, r, q) && Asked(k, col[r], lit) && !Straddles(Build(Hist(col)).tree, col[r]) ==>
              r in ByIndex(k, col, lit, es, q)
  {
    var v := KeyOf(k, lit);
    Occurs(col, v);
    SearchMeaning(Hist(col), v);
    RunHasKey(Hist(col), v);
    HistMembers(col, v, r);
    ScanMembers(k, col, lit, es, q, r);
    if Found(col, v) != [] { IndexMembers(k, col, lit, es, q, r); }
    if r < |col| {
      AskedKey(k, col, lit, r);
      if col[r] == v && !Straddles(Build(Hist(col)).tree, v) {
        FoundSizes(col, v);
        FindsAllSizes(col, v);
      }
    }
  }

  /**
   WHERE b = 1 on a BOOL column, WHERE n = 'x' on an integer column and WHERE d = 1 on a DOUBLE column:
   the index finds what a scan does not.
   */
  lemma {:induction false} TypesDisagree()
    ensures !SameRows(BoolKey, [1], IntValue(1), AllShow(1), 0)
    ensures !SameRows(Int64Key, [0], TextValue([120]), AllShow(1), 0)
    ensures !SameRows(RealKey(1), [1], IntValue(1), AllShow(1), 0)
  {
    ExtraRow(BoolKey, [1], IntValue(1));
    ExtraRow(Int64Key, [0], TextValue([120]));
    ExtraRow(RealKey(1), [1], IntValue(1));
  }
}
