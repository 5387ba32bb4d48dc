/** The version index of a table: a vector of versions appended, sorted, stamped and compacted in place. */
module VersionIndex {
  import opened Options
  import opened Sequences
  import opened Versions

  // ── An ordered permutation exists, so sorting can be any of them ──

  predicate Before(a: Ver, b: Ver) { a.row < b.row || (a.row == b.row && a.ts >= b.ts) }

  function Place(e: Ver, s: seq<Ver>): seq<Ver> {
    if s == [] || Before(e, s[0]) then [e] + s
    else [s[0]] + Place(e, s[1..])
  }

  lemma {:induction false} HeadSorted(x: Ver, s: seq<Ver>)
    requires Sorted(s) && forall e :: e in s ==> Before(x, e)
    ensures Sorted([x] + s)
  {
    var t := [x] + s;
    forall i, j | 0 <= i < j < |t| ensures Before(t[i], t[j]) {
      assert t[j] == s[j - 1];
    }
  }

  lemma {:induction false} PlaceMembers(e: Ver, s: seq<Ver>)
    ensures multiset(Place(e, s)) == multiset(s) + multiset{e}
  {
    if s != [] && !Before(e, s[0]) {
      PlaceMembers(e, s[1..]);
      assert s == [s[0]] + s[1..];
    }
  }

  lemma {:induction false} PlaceSorted(e: Ver, s: seq<Ver>)
    requires Sorted(s)
    ensures Sorted(Place(e, s))
  {
    if s == [] || Before(e, s[0]) {
      forall x | x in s ensures Before(e, x) {
        var i :| 0 <= i < |s| && s[i] == x;
        assert i > 0 ==> Before(s[0], s[i]);
      }
      HeadSorted(e, s);
    } else {
      PlaceSorted(e, s[1..]);
      PlaceMembers(e, s[1..]);
      forall x | x in Place(e, s[1..]) ensures Before(s[0], x) {
        assert x in multiset(Place(e, s[1..]));
        assert x == e || x in s[1..];
        if x in s[1..] {
          var i :| 0 <= i < |s[1..]| && s[1..][i] == x;
          assert Before(s[0], s[i + 1]);
        }
      }
      HeadSorted(s[0], Place(e, s[1..]));
    }
  }

  lemma {:induction false} SortExists(es: seq<Ver>) returns (s: seq<Ver>)
    ensures Sorted(s) && Permuted(es, s)
  {
    if es == [] {
      s := [];
    } else {
      var t := SortExists(es[1..]);
      PlaceSorted(es[0], t);
      PlaceMembers(es[0], t);
      s := Place(es[0], t);
      assert es == [es[0]] + es[1..];
    }
  }

  lemma SortedRows(s: seq<Ver>)
    requires Sorted(s)
    ensures RowSorted(s)
  {
  }

  /** What ensure_sorted may leave behind. */
  ghost predicate Ordered(es: seq<Ver>, dirty: bool, s: seq<Ver>) {
    if dirty then Sorted(s) && Permuted(es, s) else s == es
  }

  // ── Lookups over part of the index ──

  lemma {:induction false} LookupSkip(a: seq<Ver>, b: seq<Ver>, row: nat, q: nat)
    requires forall e :: e in b ==> e.row != row
    ensures Lookup(a + b, row, q) == Lookup(a, row, q)
    decreases |b|
  {
    if b == [] {
      assert a + b == a;
    } else {
      var n := |b| - 1;
      assert (a + b)[..|a + b| - 1] == a + b[..n];
      LookupSkip(a, b[..n], row, q);
    }
  }

  lemma {:induction false} LookupNone(a: seq<Ver>, row: nat, q: nat)
    requires forall e :: e in a ==> e.row != row
    ensures Lookup(a, row, q) == None
  {
    assert a == [] + a;
    LookupSkip([], a, row, q);
  }

  /** The first version stamped by the reader's own transaction, if it has one. */
  function Own(es: seq<Ver>, row: nat, tx: nat): Option<Ver> {
    if es == [] || tx == 0 then None
    else if Match(es[0], row, Flagged(tx)) then Some(es[0]) else Own(es[1..], row, tx)
  }

  lemma {:induction false} OwnAt(es: seq<Ver>, row: nat, tx: nat, i: nat)
    requires tx != 0 && i < |es| && Match(es[i], row, Flagged(tx))
    requires forall j :: 0 <= j < i ==> !Match(es[j], row, Flagged(tx))
    ensures Own(es, row, tx) == Some(es[i])
  {
    if i > 0 { OwnAt(es[1..], row, tx, i - 1); }
  }

  lemma {:induction false} OwnNone(es: seq<Ver>, row: nat, tx: nat)
    requires forall e :: e in es ==> !Match(e, row, Flagged(tx))
    ensures Own(es, row, tx) == None
  {
    if es != [] && tx != 0 { OwnNone(es[1..], row, tx); }
  }

  lemma {:induction false} StampOneAt(es: seq<Ver>, row: nat, target: nat, c: nat, i: nat)
    requires i < |es| && Match(es[i], row, target)
    requires forall j :: 0 <= j < i ==> !Match(es[j], row, target)
    ensures StampOne(es, row, target, c) == es[i := es[i].(ts := c)]
  {
    if i > 0 {
      StampOneAt(es[1..], row, target, c, i - 1);
      assert es[1..][i - 1 := es[i].(ts := c)] == es[i := es[i].(ts := c)][1..];
    }
  }

  lemma {:induction false} StampOneNone(es: seq<Ver>, row: nat, target: nat, c: nat)
    requires forall e :: e in es ==> !Match(e, row, target)
    ensures StampOne(es, row, target, c) == es
  {
    if es != [] { StampOneNone(es[1..], row, target, c); }
  }

  lemma {:induction false} StampRows(es: seq<Ver>, rows: seq<nat>, target: nat, c: nat)
    requires RowSorted(es)
    ensures RowSorted(StampAll(es, rows, target, c))
  {
    if rows != [] {
      var n := |rows| - 1;
      StampRows(es, rows[..n], target, c);
      StampOneRows(StampAll(es, rows[..n], target, c), rows[n], target, c);
    }
  }

  lemma {:induction false} StampOneRows(es: seq<Ver>, row: nat, target: nat, c: nat)
    ensures forall i :: 0 <= i < |es| ==> StampOne(es, row, target, c)[i].row == es[i].row
  {
    if es != [] { StampOneRows(es[1..], row, target, c); }
  }

  lemma {:induction false} PrunedUnfold(es: seq<Ver>, cutoff: nat)
    requires es != []
    ensures var g := GroupEnd(es);
            Pruned(es, cutoff) == KeepGroup(es[..g], cutoff) + Pruned(es[g..], cutoff)
  {
  }

  lemma {:induction false} PrunedStep(a: seq<Ver>, b: seq<Ver>, cutoff: nat)
    requires a != [] ==> b != [] ==> a[|a| - 1].row != b[0].row
    ensures Pruned(a + b, cutoff) == Pruned(a, cutoff) + Pruned(b, cutoff)
    decreases |a|
  {
    if a == [] {
      assert a + b == b;
    } else {
      var g := GroupEnd(a);
      var ab := a + b;
      GroupEndConcat(a, b);
      assert ab[..g] == a[..g];
      assert ab[g..] == a[g..] + b;
      calc {
        Pruned(ab, cutoff);
        { PrunedUnfold(ab, cutoff); }
        KeepGroup(a[..g], cutoff) + Pruned(a[g..] + b, cutoff);
        { PrunedStep(a[g..], b, cutoff); }
        KeepGroup(a[..g], cutoff) + (Pruned(a[g..], cutoff) + Pruned(b, cutoff));
        { ConcatAssoc(KeepGroup(a[..g], cutoff), Pruned(a[g..], cutoff), Pruned(b, cutoff)); }
        (KeepGroup(a[..g], cutoff) + Pruned(a[g..], cutoff)) + Pruned(b, cutoff);
        { PrunedUnfold(a, cutoff); }
        Pruned(a, cutoff) + Pruned(b, cutoff);
      }
    }
  }

  lemma {:induction false} GroupEndConcat(a: seq<Ver>, b: seq<Ver>)
    requires a != [] && (b != [] ==> a[|a| - 1].row != b[0].row)
    ensures GroupEnd(a + b) == GroupEnd(a)
  {
    if |a| > 1 && a[1].row == a[0].row {
      assert (a + b)[1..] == a[1..] + b;
      GroupEndConcat(a[1..], b);
    }
  }

  lemma {:induction false} PrunedGroup(g: seq<Ver>, cutoff: nat)
    requires g != [] && forall i :: 0 <= i < |g| ==> g[i].row == g[0].row
    ensures Pruned(g, cutoff) == KeepGroup(g, cutoff)
  {
    GroupEndMeans(g);
    assert GroupEnd(g) == |g|;
    assert g[..|g|] == g && g[|g|..] == [];
  }

  lemma KeeperAt(g: seq<Ver>, cutoff: nat, k: nat)
    requires k <= |g| && (forall j :: 0 <= j < k ==> g[j].ts > cutoff)
    requires k < |g| ==> g[k].ts <= cutoff
    ensures Keeper(g, cutoff) == k
  {
    var m := Keeper(g, cutoff);
    KeeperMeans(g, cutoff);
    assert !(m < k) && !(k < m);
  }

  /** The page offset a search reports, None for not found. */
  function Answer(es: seq<Ver>, row: nat, maxTs: nat, tx: nat): Option<nat> {
    var own, best := Own(es, row, tx), Lookup(es, row, maxTs);
    if own.Some? then Some(own.value.offset) else if best.Some? then Some(best.value.offset) else None
  }

  lemma {:induction false} NoneAfter(es: seq<Ver>, row: nat, it: nat)
    requires it <= |es| && (it < |es| ==> row < es[it].row) && RowSorted(es)
    ensures forall e :: e in es[it..] ==> e.row != row
  {
    forall e | e in es[it..] ensures e.row != row {
      var j :| it <= j < |es| && es[j] == e;
      assert es[it].row <= es[j].row;
    }
  }

  lemma {:induction false} ScanEnd(es: seq<Ver>, row: nat, maxTs: nat, tx: nat, it: nat)
    requires it <= |es| && (it < |es| ==> es[it].row != row)
    requires forall j :: it <= j < |es| ==> row <= es[j].row
    requires RowSorted(es)
    requires forall j :: 0 <= j < it && tx != 0 ==> !Match(es[j], row, Flagged(tx))
    ensures Lookup(es, row, maxTs) == Lookup(es[..it], row, maxTs)
    ensures Own(es, row, tx) == None
  {
    assert es == es[..it] + es[it..];
    NoneAfter(es, row, it);
    LookupSkip(es[..it], es[it..], row, maxTs);
    if tx != 0 {
      forall e | e in es ensures !Match(e, row, Flagged(tx)) {
        assert e in es[..it] || e in es[it..];
      }
      OwnNone(es, row, tx);
    }
  }

  class Index {
    var entries: seq<Ver>
    var dirty: bool

    /** Unless new versions await sorting, the versions of a row lie together, in row order. */
    ghost predicate Valid()
      reads this
    {
      !dirty ==> RowSorted(entries)
    }

    constructor ()
      ensures Valid() && entries == [] && !dirty
    {
      entries, dirty := [], false;
    }

    method InsertBulk(new_: seq<Ver>)
      modifies this
      ensures Valid() && entries == old(entries) + new_ && dirty
    {
      var i := 0;
      while i < |new_|
        invariant i <= |new_| && entries == old(entries) + new_[..i]
      {
        entries := entries + [new_[i]];
        i := i + 1;
      }
      dirty := true;
    }

    method EnsureSorted()
      requires Valid()
      modifies this
      ensures Valid() && !dirty && Ordered(old(entries), old(dirty), entries)
    {
      if !dirty { return; }
      ghost var w := SortExists(entries);
      var s :| Sorted(s) && Permuted(entries, s);
      assert RowSorted(s) by { SortedRows(s); }
      entries, dirty := s, false;
    }

    /** std::lower_bound by row id. */
    method LowerBound(row: nat) returns (lo: nat)
      requires RowSorted(entries)
      ensures lo <= |entries|
      ensures forall i :: 0 <= i < lo ==> entries[i].row < row
      ensures forall i :: lo <= i < |entries| ==> row <= entries[i].row
    {
      lo := 0;
      var hi := |entries|;
      while lo < hi
        invariant lo <= hi <= |entries|
        invariant forall i :: 0 <= i < lo ==> entries[i].row < row
        invariant forall i :: hi <= i < |entries| ==> row <= entries[i].row
      {
        var mid := lo + (hi - lo) / 2;
        if entries[mid].row < row { lo := mid + 1; } else { hi := mid; }
      }
    }

    /** The scan over the versions of a row: its own uncommitted one at once, else the latest committed. */
    method Scan(row: nat, maxTs: nat, tx: nat) returns (r: Option<nat>)
      requires RowSorted(entries)
      ensures r == Answer(entries, row, maxTs, tx)
    {
      var it := LowerBound(row);
      LookupNone(entries[..it], row, maxTs);
      var best: Option<Ver> := None;
      while it < |entries| && entries[it].row == row
        invariant it <= |entries|
        invariant best == Lookup(entries[..it], row, maxTs)
        invariant forall j :: 0 <= j < it && tx != 0 ==> !Match(entries[j], row, Flagged(tx))
        invariant forall j :: it <= j < |entries| ==> row <= entries[j].row
      {
        var e := entries[it];
        assert entries[..it + 1][..it] == entries[..it];
        if Committed(e) {
          if e.ts <= maxTs && (best.None? || e.ts >= best.value.ts) { best := Some(e); }
        } else if e.ts - FLAG == tx && tx != 0 {
          OwnAt(entries, row, tx, it);
          return Some(e.offset);
        }
        it := it + 1;
      }
      ScanEnd(entries, row, maxTs, tx, it);
      r := if best.Some? then Some(best.value.offset) else None;
    }

    method Search(row: nat, maxTs: nat, tx: nat) returns (r: Option<nat>)
      requires Valid()
      modifies this
      ensures Valid() && !dirty && Ordered(old(entries), old(dirty), entries)
      ensures r == Answer(entries, row, maxTs, tx)
    {
      EnsureSorted();
      r := Scan(row, maxTs, tx);
    }

    method StampRow(row: nat, target: nat, c: nat)
      requires RowSorted(entries)
      modifies this`entries
      ensures entries == StampOne(old(entries), row, target, c)
    {
      var it := LowerBound(row);
      while it < |entries| && entries[it].row == row
        invariant it <= |entries| && entries == old(entries)
        invariant forall j :: 0 <= j < it ==> !Match(entries[j], row, target)
        invariant forall j :: it <= j < |entries| ==> row <= entries[j].row
      {
        if entries[it].ts == target {
          StampOneAt(entries, row, target, c, it);
          entries := entries[it := entries[it].(ts := c)];
          return;
        }
        it := it + 1;
      }
      StampOneNone(entries, row, target, c);
    }

    /** Each listed row id stamps one version of that row that still carries the transaction's stamp. */
    method CommitRows(rows: seq<nat>, tx: nat, commitTs: nat)
      requires Valid()
      modifies this
      ensures Valid() && !dirty
      ensures exists s :: Ordered(old(entries), old(dirty), s) && entries == StampAll(s, rows, Flagged(tx), commitTs)
    {
      EnsureSorted();
      ghost var s := entries;
      var i := 0;
      while i < |rows|
        invariant i <= |rows| && !dirty
        invariant entries == StampAll(s, rows[..i], Flagged(tx), commitTs)
      {
        StampRows(s, rows[..i], Flagged(tx), commitTs);
        assert rows[..i + 1][..i] == rows[..i];
        StampRow(rows[i], Flagged(tx), commitTs);
        i := i + 1;
      }
      StampRows(s, rows, Flagged(tx), commitTs);
      assert rows[..i] == rows;
    }

    method FindGroupEnd(i: nat) returns (end: nat)
      requires i < |entries|
      ensures i < end <= |entries|
      ensures forall j :: i <= j < end ==> entries[j].row == entries[i].row
      ensures end < |entries| ==> entries[end].row != entries[i].row
    {
      end := i;
      while end < |entries| && entries[end].row == entries[i].row
        invariant i <= end <= |entries|
        invariant forall j :: i <= j < end ==> entries[j].row == entries[i].row
      {
        end := end + 1;
      }
    }

    /** How many versions of the group from i to end survive the cutoff: all, none, or up to the keeper. */
    method KeepCount(i: nat, end: nat, cutoff: nat) returns (keep: nat)
      requires i < end <= |entries|
      ensures i + keep <= end && entries[i..i + keep] == KeepGroup(entries[i..end], cutoff)
    {
      var keeper := i;
      while keeper < end && entries[keeper].ts > cutoff
        invariant i <= keeper <= end
        invariant forall m :: i <= m < keeper ==> entries[m].ts > cutoff
      {
        keeper := keeper + 1;
      }
      GroupKept(entries, i, end, keeper, cutoff);
      if keeper == end {
        keep := end - i;
      } else if Tomb(entries[keeper]) {
        keep := 0;
      } else {
        keep := keeper - i + 1;
      }
    }

    method MoveGroup(write: nat, i: nat, keep: nat)
      requires write <= i && i + keep <= |entries|
      modifies this`entries
      ensures entries == MoveDown(old(entries), write, i, keep)
    {
      if write != i && keep > 0 {
        entries := entries[..write] + entries[i..i + keep] + entries[write + keep..];
      }
    }

    /** Compaction in place, group by group; equals dropping groups functionally. */
    method Compact(cutoff: nat) returns (removed: nat)
      modifies this`entries
      ensures entries == Pruned(old(entries), cutoff)
      ensures removed + |entries| == |old(entries)|
    {
      ghost var s := entries;
      var write: nat, i: nat := 0, 0;
      while i < |entries|
        invariant write <= i <= |entries| == |s|
        invariant entries[..write] == Pruned(s[..i], cutoff)
        invariant entries[i..] == s[i..]
        invariant 0 < i < |s| ==> s[i - 1].row != s[i].row
      {
        var end := FindGroupEnd(i);
        var keep := KeepCount(i, end, cutoff);
        PruneStep(entries, s, write, i, end, keep, cutoff);
        MoveGroup(write, i, keep);
        write, i := write + keep, end;
      }
      assert s[..i] == s;
      removed := |entries| - write;
      entries := entries[..write];
    }

    /** Returns how many versions were removed. */
    method Prune(cutoff: nat) returns (removed: nat)
      requires Valid()
      modifies this
      ensures !dirty
      ensures exists s :: Ordered(old(entries), old(dirty), s) && entries == Pruned(s, cutoff)
                          && removed + |entries| == |s|
    {
      EnsureSorted();
      removed := Compact(cutoff);
    }
  }

  /** One round of the compaction extends the pruned prefix by one group. */
  lemma {:induction false} PruneStep(was: seq<Ver>, s: seq<Ver>,
                                     write: nat, i: nat, end: nat, keep: nat, cutoff: nat)
    requires write <= i < end <= |was| == |s| && i + keep <= end
    requires was[..write] == Pruned(s[..i], cutoff) && was[i..] == s[i..]
    requires i > 0 ==> s[i - 1].row != s[i].row
    requires forall j :: i <= j < end ==> was[j].row == was[i].row
    requires end < |was| ==> was[end].row != was[i].row
    requires was[i..i + keep] == KeepGroup(was[i..end], cutoff)
    ensures var now := MoveDown(was, write, i, keep);
            |now| == |s| && now[..write + keep] == Pruned(s[..end], cutoff) && now[end..] == s[end..]
    ensures end < |s| ==> s[end - 1].row != s[end].row
  {
    SameFrom(was, s, i, end);
    assert was[end - 1] == s[end - 1] && was[i] == s[i];
    GroupAppend(s, i, end, cutoff);
    MoveDownSlices(was, write, i, keep, end);
  }

  /** The memmove of a kept group; nothing moves when it is already in place or empty. */
  function MoveDown(was: seq<Ver>, write: nat, i: nat, keep: nat): seq<Ver>
    requires write <= i && i + keep <= |was|
  {
    if write != i && keep > 0 then was[..write] + was[i..i + keep] + was[write + keep..] else was
  }

  lemma {:induction false} MoveDownSlices(was: seq<Ver>, write: nat, i: nat, keep: nat, end: nat)
    requires write <= i && i + keep <= end <= |was|
    ensures var now := MoveDown(was, write, i, keep);
            && |now| == |was|
            && now[..write + keep] == was[..write] + was[i..i + keep]
            && now[end..] == was[end..]
  {
  }

  lemma {:induction false} SameFrom(a: seq<Ver>, b: seq<Ver>, i: nat, end: nat)
    requires i <= end <= |a| == |b| && a[i..] == b[i..]
    ensures a[i..end] == b[i..end] && a[end..] == b[end..]
    ensures forall j :: i <= j < |a| ==> a[j] == b[j]
  {
    forall j | i <= j < |a| ensures a[j] == b[j] { assert a[i..][j - i] == b[i..][j - i]; }
  }

  lemma {:induction false} GroupKept(es: seq<Ver>, i: nat, end: nat, keeper: nat, cutoff: nat)
    requires i < end <= |es| && i <= keeper <= end
    requires forall m :: i <= m < keeper ==> es[m].ts > cutoff
    requires keeper < end ==> es[keeper].ts <= cutoff
    ensures KeepGroup(es[i..end], cutoff) ==
            if keeper == end then es[i..end] else if Tomb(es[keeper]) then [] else es[i..keeper + 1]
  {
    var g := es[i..end];
    KeeperAt(g, cutoff, keeper - i);
    if keeper < end { assert g[..keeper - i + 1] == es[i..keeper + 1]; }
  }

  lemma {:induction false} GroupAppend(s: seq<Ver>, i: nat, end: nat, cutoff: nat)
    requires i < end <= |s| && (i > 0 ==> s[i - 1].row != s[i].row)
    requires forall j :: i <= j < end ==> s[j].row == s[i].row
    ensures Pruned(s[..end], cutoff) == Pruned(s[..i], cutoff) + KeepGroup(s[i..end], cutoff)
  {
    var a, g := s[..i], s[i..end];
    assert s[..end] == a + g;
    assert forall j :: 0 <= j < |g| ==> g[j] == s[i + j];
    PrunedStep(a, g, cutoff);
    PrunedGroup(g, cutoff);
  }
}
