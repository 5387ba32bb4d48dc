/**
 SELECT with WHERE col = literal as the executor runs it: the index is searched first, and only a key
 that it does not hold is left to the scan and the filter.
 */
module Select {
  import opened Options
  import opened Versions
  import opened TableStore
  import opened IndexHistory
  import PagedIndex
  import opened IndexedSelect
  import Mutate

  /** The loop over the rows found: those that exist and are visible. */
  method KeepExisting(s: Store, ids: seq<nat>, rows: nat, q: nat) returns (out: seq<nat>)
    requires s.Valid() && Coherent(s.index.entries)
    modifies s.index
    ensures s.Valid() && Permuted(old(s.index.entries), s.index.entries) && out == Shown(ids, rows, old(s.index.entries), q)
  {
    out := [];
    ghost var es := s.index.entries;
    for k := 0 to |ids|
      invariant s.Valid() && Permuted(es, s.index.entries) && out == Shown(ids[..k], rows, es, q)
    {
      assert ids[..k + 1][..k] == ids[..k];
      if ids[k] < rows {
        var seen := Mutate.IsSeen(s, ids[k], q, es);
        if seen { out := out + [ids[k]]; }
      }
    }
    assert ids[..|ids|] == ids;
  }

  /** Rows of the scan exist, so the loop over them does not ask. */
  lemma {:induction false} SeenShown(ids: seq<nat>, rows: nat, es: seq<Ver>, q: nat)
    requires forall r :: r in ids ==> r < rows
    ensures Mutate.SeenOf(ids, es, q) == Shown(ids, rows, es, q)
  {
    if ids != [] {
      var n := |ids| - 1;
      assert ids[n] in ids && forall r :: r in ids[..n] ==> r in ids;
      SeenShown(ids[..n], rows, es, q);
    }
  }

  /** The filter on the scanned column selects the rows that the scan path lists. */
  method Filtered(k: KeyType, col: seq<int>, lit: Filters.Value, cpu: Filters.Cpu) returns (out: seq<nat>)
    requires Typed(k, col, lit)
    ensures out == Filters.RowsBelow(Scanned(k, col), |col|, Equals(lit), |col|)
    ensures forall r :: r in out ==> r < |col|
  {
    var scan := Filters.Scan([""], [Scanned(k, col)], |col|);
    var where := Filters.Atom(Equals(lit));
    var r := Filters.EvaluateWhere(scan, Some(where), cpu);
    out := r.value;
    FilterSelects(k, col, lit, out);
  }

  /** The rows that the index holds for the key; none if it does not have the key. */
  method Lookup(tree: PagedIndex.BTree, ghost col: seq<int>, key: int) returns (found: seq<nat>)
    requires tree.Valid() && tree.hist == Hist(col)
    ensures found == Found(col, key)
  {
    SearchMeaning(Hist(col), key);
    var r := tree.Search(key);
    return if r.Some? then r.value else [];
  }

  /**
   The executor's choice between the two paths, on the pages of the index and the version index.  Every row of
   the answer is visible and holds the value asked for, and none is missing unless that value straddles a
   separator.
   */
  method SelectRows(tree: PagedIndex.BTree, s: Store, k: KeyType, col: seq<int>, lit: Filters.Value, q: nat, cpu: Filters.Cpu) returns (ids: seq<nat>)
    requires tree.Valid() && tree.hist == Hist(col) && s.Valid() && Coherent(s.index.entries) && Typed(k, col, lit)
    modifies s.index
    ensures s.Valid() && Permuted(old(s.index.entries), s.index.entries)
    ensures ids == ByIndex(k, col, lit, old(s.index.entries), q)
    ensures forall r :: r in ids ==> r < |col| && Visible(old(s.index.entries), r, q) && Asked(k, col[r], lit)
    ensures forall r: nat ::
              r < |col| && Visible(old(s.index.entries), r, q) && Asked(k, col[r], lit) && !Straddles(Build(Hist(col)).tree, col[r]) ==>
              r in ids
  {
    ghost var es := s.index.entries;
    var found := Lookup(tree, col, KeyOf(k, lit));
    if found != [] {
      ids := KeepExisting(s, found, |col|, q);
    } else {
      var matching := Filtered(k, col, lit, cpu);
      ids := Mutate.KeepSeen(s, matching, q);
      SeenShown(matching, |col|, old(s.index.entries), q);
    }
    forall r: nat
      ensures r in ids ==> r < |col| && Visible(es, r, q) && Asked(k, col[r], lit)
      ensures r < |col| && Visible(es, r, q) && Asked(k, col[r], lit) && !Straddles(Build(Hist(col)).tree, col[r]) ==> r in ids
    {
      IndexAnswers(k, col, lit, es, q, r);
    }
  }
}
