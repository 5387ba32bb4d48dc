/**
 Row versions as the version index stores them, in any order: what a lookup answers at a snapshot,
 what stamping and pruning do, and the conditions under which they agree with visibility.
 */
module Versions {
  import opened Options

  /** Raw stamps: a timestamp below FLAG, FLAG + tx id for an open transaction, or ABORTED. */
  const FLAG: nat := 0x8000_0000_0000_0000
  const ABORTED: nat := 0xFFFF_FFFF_FFFF_FFFF

  /** The page offset that marks a deletion. */
  const TOMB: nat := 0xFFFF_FFFF_FFFF_FFFF

  datatype Ver = Ver(row: nat, ts: nat, offset: nat)

  function Flagged(tx: nat): nat { FLAG + tx }

  predicate Committed(e: Ver) { e.ts < FLAG }

  predicate Tomb(e: Ver) { e.offset == TOMB }

  /** A committed version of the row, at or before the snapshot. */
  predicate Candidate(e: Ver, row: nat, q: nat) { e.row == row && Committed(e) && e.ts <= q }

  /** The scan of search over the versions of a row: the latest stamp wins, ties go to the last. */
  function Lookup(es: seq<Ver>, row: nat, q: nat): Option<Ver> {
    if es == [] then None
    else
      var n := |es| - 1;
      var best := Lookup(es[..n], row, q);
      if Candidate(es[n], row, q) && (best.None? || best.value.ts <= es[n].ts) then Some(es[n]) else best
  }

  /** The test the executor applies to a lookup. */
  predicate Visible(es: seq<Ver>, row: nat, q: nat) {
    var r := Lookup(es, row, q);
    r.Some? && !Tomb(r.value)
  }

  lemma {:induction false} LookupMeaning(es: seq<Ver>, row: nat, q: nat)
    ensures var r := Lookup(es, row, q);
            && (r.None? ==> forall e :: e in es ==> !Candidate(e, row, q))
            && (r.Some? ==> r.value in es && Candidate(r.value, row, q)
                            && forall e :: e in es && Candidate(e, row, q) ==> e.ts <= r.value.ts)
  {
    if es != [] {
      var n := |es| - 1;
      LookupMeaning(es[..n], row, q);
      assert es == es[..n] + [es[n]];
    }
  }

  // ── Coherence ──

  /** No row has two versions that are not deletions. */
  ghost predicate OneInsert(es: seq<Ver>) {
    forall i, j :: 0 <= i < j < |es| && es[i].row == es[j].row ==> Tomb(es[i]) || Tomb(es[j])
  }

  /** Every deletion follows a committed insertion of its row. */
  ghost predicate TombsFollow(es: seq<Ver>) {
    forall d :: d in es && Tomb(d) ==> exists e :: Follows(d, e, es)
  }

  ghost predicate Follows(d: Ver, e: Ver, es: seq<Ver>) {
    e in es && !Tomb(e) && e.row == d.row && Committed(e) && e.ts < d.ts
  }

  ghost predicate Coherent(es: seq<Ver>) { OneInsert(es) && TombsFollow(es) }

  ghost predicate Inserted(es: seq<Ver>, row: nat, q: nat) {
    exists e :: e in es && !Tomb(e) && Candidate(e, row, q)
  }

  ghost predicate Deleted(es: seq<Ver>, row: nat, q: nat) {
    exists d :: d in es && Tomb(d) && Candidate(d, row, q)
  }

  lemma SameInsert(es: seq<Ver>, a: Ver, b: Ver)
    requires OneInsert(es) && a in es && b in es && a.row == b.row && !Tomb(a) && !Tomb(b)
    ensures a == b
  {
    var i :| 0 <= i < |es| && es[i] == a;
    var j :| 0 <= j < |es| && es[j] == b;
    if i < j { assert false; } else if j < i { assert false; }
  }

  /** Visible at a snapshot: inserted by then and not deleted by then, whatever the order of versions. */
  lemma {:induction false} VisibleMeans(es: seq<Ver>, row: nat, q: nat)
    requires Coherent(es)
    ensures Visible(es, row, q) <==> Inserted(es, row, q) && !Deleted(es, row, q)
  {
    LookupMeaning(es, row, q);
    var r := Lookup(es, row, q);
    if r.Some? && !Tomb(r.value) {
      forall d | d in es && Tomb(d) && Candidate(d, row, q) ensures false {
        var e :| Follows(d, e, es);
        SameInsert(es, e, r.value);
      }
    }
  }

  // ── Order in the index ──

  predicate RowSorted(es: seq<Ver>) { forall i, j :: 0 <= i < j < |es| ==> es[i].row <= es[j].row }

  /** The comparator of ensure_sorted: by row, newest stamp first. */
  predicate Sorted(es: seq<Ver>) {
    forall i, j :: 0 <= i < j < |es| ==>
      es[i].row < es[j].row || (es[i].row == es[j].row && es[i].ts >= es[j].ts)
  }

  /** Within a row, only the last version may be an insertion. */
  predicate InsertLast(es: seq<Ver>) {
    forall i, j :: 0 <= i < j < |es| && es[i].row == es[j].row ==> Tomb(es[i])
  }

  lemma SortedInsertLast(es: seq<Ver>)
    requires Coherent(es) && Sorted(es)
    ensures RowSorted(es) && InsertLast(es)
  {
    forall i, j | 0 <= i < j < |es| && es[i].row == es[j].row ensures Tomb(es[i]) {
      var a, b := es[i], es[j];
      if Tomb(b) {
        var e :| Follows(b, e, es);
        if !Tomb(a) { SameInsert(es, e, a); }
      }
    }
  }

  predicate Permuted(a: seq<Ver>, b: seq<Ver>) { multiset(a) == multiset(b) }

  lemma PermutedMembers(a: seq<Ver>, b: seq<Ver>)
    requires Permuted(a, b)
    ensures forall e :: e in a <==> e in b
  {
    forall e ensures e in a <==> e in b {
      assert e in a <==> e in multiset(a);
      assert e in b <==> e in multiset(b);
    }
  }

  lemma CountTwo(es: seq<Ver>, i: nat, j: nat)
    requires i < j < |es| && es[i] == es[j]
    ensures multiset(es)[es[i]] >= 2
  {
    assert es == es[..j] + [es[j]] + es[j + 1..];
    assert es[i] in es[..j];
  }

  lemma CountOne(es: seq<Ver>, x: Ver)
    requires OneInsert(es) && x in es && !Tomb(x)
    ensures multiset(es)[x] == 1
  {
    var i :| 0 <= i < |es| && es[i] == x;
    assert es == es[..i] + [x] + es[i + 1..];
    assert x !in es[..i] && x !in es[i + 1..];
  }

  /** With no more copies of anything than a coherent sequence has, no row gets a second insertion. */
  lemma FewerOneInsert(a: seq<Ver>, b: seq<Ver>)
    requires OneInsert(a) && multiset(b) <= multiset(a)
    ensures OneInsert(b)
  {
    forall i, j | 0 <= i < j < |b| && b[i].row == b[j].row ensures Tomb(b[i]) || Tomb(b[j]) {
      if !Tomb(b[i]) && !Tomb(b[j]) {
        assert b[i] in multiset(b) && b[j] in multiset(b);
        assert b[i] in a && b[j] in a;
        SameInsert(a, b[i], b[j]);
        CountTwo(b, i, j);
        CountOne(a, b[i]);
      }
    }
  }

  lemma CoherentPermuted(a: seq<Ver>, b: seq<Ver>)
    requires Coherent(a) && Permuted(a, b)
    ensures Coherent(b)
  {
    PermutedMembers(a, b);
    FewerOneInsert(a, b);
    forall d | d in b && Tomb(d) ensures exists e :: Follows(d, e, b) {
      var e :| Follows(d, e, a);
      assert Follows(d, e, b);
    }
  }

  /** Sorting changes no row's visibility at any snapshot. */
  lemma VisiblePermuted(a: seq<Ver>, b: seq<Ver>, row: nat, q: nat)
    requires Coherent(a) && Permuted(a, b)
    ensures Visible(a, row, q) <==> Visible(b, row, q)
  {
    CoherentPermuted(a, b);
    PermutedMembers(a, b);
    VisibleMeans(a, row, q);
    VisibleMeans(b, row, q);
  }

  // ── Stamping ──

  predicate Match(e: Ver, row: nat, target: nat) { e.row == row && e.ts == target }

  /** commit_rows for one row id: the first version that carries the target stamp. */
  function StampOne(es: seq<Ver>, row: nat, target: nat, c: nat): (r: seq<Ver>)
    ensures |r| == |es|
  {
    if es == [] then []
    else if Match(es[0], row, target) then [es[0].(ts := c)] + es[1..]
    else [es[0]] + StampOne(es[1..], row, target, c)
  }

  function StampAll(es: seq<Ver>, rows: seq<nat>, target: nat, c: nat): (r: seq<Ver>)
    ensures |r| == |es|
  {
    if rows == [] then es
    else
      var n := |rows| - 1;
      StampOne(StampAll(es, rows[..n], target, c), rows[n], target, c)
  }

  /** Every version that carries the target stamp, restamped. */
  function Restamp(es: seq<Ver>, target: nat, c: nat): seq<Ver> {
    seq(|es|, i requires 0 <= i < |es| => if es[i].ts == target then es[i].(ts := c) else es[i])
  }

  function Matches(es: seq<Ver>, row: nat, target: nat): nat {
    if es == [] then 0 else Matches(es[1..], row, target) + if Match(es[0], row, target) then 1 else 0
  }

  function Count(rows: seq<nat>, row: nat): nat {
    if rows == [] then 0
    else Count(rows[..|rows| - 1], row) + if rows[|rows| - 1] == row then 1 else 0
  }

  lemma {:induction false} StampOneMatches(es: seq<Ver>, row: nat, target: nat, c: nat, r: nat)
    requires c != target
    ensures var m := Matches(es, r, target);
            Matches(StampOne(es, row, target, c), r, target) == if r == row && m > 0 then m - 1 else m
  {
    if es != [] {
      StampOneMatches(es[1..], row, target, c, r);
      var s := StampOne(es, row, target, c);
      if Match(es[0], row, target) {
        assert s[1..] == es[1..];
      } else {
        assert s[1..] == StampOne(es[1..], row, target, c);
      }
    }
  }

  lemma {:induction false} StampOneRestamp(es: seq<Ver>, row: nat, target: nat, c: nat)
    requires c != target
    ensures Restamp(StampOne(es, row, target, c), target, c) == Restamp(es, target, c)
  {
    if es != [] && !Match(es[0], row, target) {
      StampOneRestamp(es[1..], row, target, c);
      var a, b := StampOne(es[1..], row, target, c), StampOne(es, row, target, c);
      assert forall i :: 0 <= i < |a| ==> b[i + 1] == a[i] && es[1..][i] == es[i + 1];
      forall i | 0 <= i < |es| ensures Restamp(b, target, c)[i] == Restamp(es, target, c)[i] {
        if i > 0 {
          assert Restamp(a, target, c)[i - 1] == Restamp(es[1..], target, c)[i - 1];
        }
      }
    }
  }

  lemma {:induction false} StampAllLeaves(es: seq<Ver>, rows: seq<nat>, target: nat, c: nat, r: nat)
    requires c != target
    ensures Restamp(StampAll(es, rows, target, c), target, c) == Restamp(es, target, c)
    ensures var m, n := Matches(es, r, target), Count(rows, r);
            Matches(StampAll(es, rows, target, c), r, target) == if n < m then m - n else 0
  {
    if rows != [] {
      var n := |rows| - 1;
      StampAllLeaves(es, rows[..n], target, c, r);
      StampOneMatches(StampAll(es, rows[..n], target, c), rows[n], target, c, r);
      StampOneRestamp(StampAll(es, rows[..n], target, c), rows[n], target, c);
    }
  }

  lemma {:induction false} NoMatches(es: seq<Ver>, i: nat, target: nat)
    requires i < |es| && es[i].ts == target
    ensures Matches(es, es[i].row, target) > 0
  {
    if i > 0 { NoMatches(es[1..], i - 1, target); }
  }

  /** With each row id listed at least as often as it carries the stamp, none is missed. */
  lemma {:induction false} StampAllComplete(es: seq<Ver>, rows: seq<nat>, target: nat, c: nat)
    requires c != target
    requires forall r :: Matches(es, r, target) <= Count(rows, r)
    ensures StampAll(es, rows, target, c) == Restamp(es, target, c)
  {
    var s := StampAll(es, rows, target, c);
    StampAllLeaves(es, rows, target, c, 0);
    forall i | 0 <= i < |s| ensures s[i].ts != target {
      if s[i].ts == target {
        NoMatches(s, i, target);
        StampAllLeaves(es, rows, target, c, s[i].row);
      }
    }
    assert Restamp(s, target, c) == s;
  }

  // ── Pruning ──

  /** The end of the run of versions that share the first one's row. */
  function GroupEnd(es: seq<Ver>): (g: nat)
    requires es != []
    ensures 0 < g <= |es|
  {
    if |es| == 1 || es[1].row != es[0].row then 1 else 1 + GroupEnd(es[1..])
  }

  lemma {:induction false} GroupEndMeans(es: seq<Ver>)
    requires es != []
    ensures var g := GroupEnd(es);
            && (forall i :: 0 <= i < g ==> es[i].row == es[0].row)
            && (g < |es| ==> es[g].row != es[0].row)
  {
    if |es| > 1 && es[1].row == es[0].row {
      GroupEndMeans(es[1..]);
      var g := GroupEnd(es);
      forall i | 0 <= i < g ensures es[i].row == es[0].row {
        if i > 0 { assert es[i] == es[1..][i - 1]; }
      }
    }
  }

  /** The first version at or before the cutoff, or the length of the group. */
  function Keeper(g: seq<Ver>, cutoff: nat): (k: nat)
    ensures k <= |g|
  {
    if g == [] || g[0].ts <= cutoff then 0 else 1 + Keeper(g[1..], cutoff)
  }

  lemma {:induction false} KeeperMeans(g: seq<Ver>, cutoff: nat)
    ensures var k := Keeper(g, cutoff);
            && (k < |g| ==> g[k].ts <= cutoff)
            && (forall i :: 0 <= i < k ==> g[i].ts > cutoff)
  {
    if g != [] && g[0].ts > cutoff {
      KeeperMeans(g[1..], cutoff);
      forall i | 0 <= i < Keeper(g, cutoff) ensures g[i].ts > cutoff {
        if i > 0 { assert g[i] == g[1..][i - 1]; }
      }
    }
  }

  function KeepGroup(g: seq<Ver>, cutoff: nat): seq<Ver> {
    var k := Keeper(g, cutoff);
    if k == |g| then g else if Tomb(g[k]) then [] else g[..k + 1]
  }

  function Pruned(es: seq<Ver>, cutoff: nat): seq<Ver>
    decreases |es|
  {
    if es == [] then []
    else
      var g := GroupEnd(es);
      KeepGroup(es[..g], cutoff) + Pruned(es[g..], cutoff)
  }

  /** A row is dead at a cutoff when it was deleted at or before it. */
  ghost predicate Dead(es: seq<Ver>, row: nat, cutoff: nat) { Deleted(es, row, cutoff) }

  /** Pruning an index in order drops exactly the versions of the dead rows. */
  lemma {:induction false} PrunedMembers(es: seq<Ver>, cutoff: nat)
    requires RowSorted(es) && InsertLast(es) && cutoff < FLAG
    ensures forall e :: e in Pruned(es, cutoff) <==> e in es && !Dead(es, e.row, cutoff)
    decreases |es|
  {
    if es != [] {
      var g := GroupEnd(es);
      PrunedMembers(es[g..], cutoff);
      GroupApart(es);
      InsertLastPrefix(es, g);
      PrunedParts(es, cutoff);
      forall e ensures e in Pruned(es, cutoff) <==> e in es && !Dead(es, e.row, cutoff) {
        PrunedMember(es[..g], es[g..], es[0].row, cutoff, e);
      }
    }
  }

  lemma {:induction false} PartsMember(a: seq<Ver>, b: seq<Ver>, ka: seq<Ver>, pb: seq<Ver>, row: nat, cutoff: nat, e: Ver)
    requires (forall x :: x in a ==> x.row == row) && (forall x :: x in b ==> x.row > row)
    requires e in ka <==> e in a && !Dead(a, row, cutoff)
    requires e in pb <==> e in b && !Dead(b, e.row, cutoff)
    ensures e in ka + pb <==> e in a + b && !Dead(a + b, e.row, cutoff)
  {
    DeadConcat(a, b, e.row, cutoff);
    if e.row == row { NotDeadThere(b, e.row, cutoff); } else { NotDeadThere(a, e.row, cutoff); }
    EitherPart(ka, pb, e);
    EitherPart(a, b, e);
  }

  lemma {:induction false} InsertLastPrefix(es: seq<Ver>, g: nat)
    requires InsertLast(es) && g <= |es|
    ensures InsertLast(es[..g])
  {
  }

  lemma {:induction false} PrunedParts(es: seq<Ver>, cutoff: nat)
    requires es != []
    ensures Pruned(es, cutoff) == KeepGroup(es[..GroupEnd(es)], cutoff) + Pruned(es[GroupEnd(es)..], cutoff)
    ensures es == es[..GroupEnd(es)] + es[GroupEnd(es)..]
  {
  }

  lemma {:induction false} PrunedMember(a: seq<Ver>, b: seq<Ver>, row: nat, cutoff: nat, e: Ver)
    requires (forall x :: x in a ==> x.row == row) && (forall x :: x in b ==> x.row > row)
    requires InsertLast(a) && cutoff < FLAG
    requires e in Pruned(b, cutoff) <==> e in b && !Dead(b, e.row, cutoff)
    ensures e in KeepGroup(a, cutoff) + Pruned(b, cutoff) <==> e in a + b && !Dead(a + b, e.row, cutoff)
  {
    KeepMembers(a, cutoff, row, e);
    PartsMember(a, b, KeepGroup(a, cutoff), Pruned(b, cutoff), row, cutoff, e);
  }

  lemma EitherPart(a: seq<Ver>, b: seq<Ver>, e: Ver)
    ensures e in a + b <==> e in a || e in b
  {
  }

  /** A row with no versions is not dead. */
  lemma NotDeadThere(es: seq<Ver>, row: nat, cutoff: nat)
    requires forall x :: x in es ==> x.row != row
    ensures !Dead(es, row, cutoff)
  {
  }

  lemma GroupApart(es: seq<Ver>)
    requires RowSorted(es) && es != []
    ensures var g := GroupEnd(es);
            && (forall e :: e in es[..g] ==> e.row == es[0].row)
            && (forall e :: e in es[g..] ==> e.row > es[0].row)
  {
    var g := GroupEnd(es);
    GroupEndMeans(es);
    forall e | e in es[g..] ensures e.row > es[0].row {
      var i :| g <= i < |es| && es[i] == e;
      assert es[g].row > es[0].row;
    }
  }

  lemma DeadConcat(a: seq<Ver>, b: seq<Ver>, row: nat, cutoff: nat)
    ensures Dead(a + b, row, cutoff) <==> Dead(a, row, cutoff) || Dead(b, row, cutoff)
  {
    if Dead(a, row, cutoff) {
      var d :| d in a && Tomb(d) && Candidate(d, row, cutoff);
      assert d in a + b;
    }
    if Dead(b, row, cutoff) {
      var d :| d in b && Tomb(d) && Candidate(d, row, cutoff);
      assert d in a + b;
    }
  }

  lemma KeepMembers(g: seq<Ver>, cutoff: nat, row: nat, e: Ver)
    requires forall x :: x in g ==> x.row == row
    requires InsertLast(g) && cutoff < FLAG
    ensures e in KeepGroup(g, cutoff) <==> e in g && !Dead(g, row, cutoff)
  {
    var k := Keeper(g, cutoff);
    KeeperMeans(g, cutoff);
    if k == |g| {
      assert !Dead(g, row, cutoff);
    } else if Tomb(g[k]) {
      assert g[k] in g && Candidate(g[k], row, cutoff);
    } else {
      KeeperLast(g, k, row);
      assert g[..k + 1] == g;
      assert !Dead(g, row, cutoff);
    }
  }

  lemma KeeperLast(g: seq<Ver>, k: nat, row: nat)
    requires forall x :: x in g ==> x.row == row
    requires InsertLast(g) && k < |g| && !Tomb(g[k])
    ensures k == |g| - 1
  {
    var last := g[|g| - 1];
    assert last in g && g[k] in g;
  }

  /** Pruning removes a row from exactly the snapshots that see it although it is dead at the cutoff. */
  lemma {:induction false} PrunedVisible(es: seq<Ver>, rest: seq<Ver>, cutoff: nat, row: nat, q: nat)
    requires Coherent(es + rest) && RowSorted(es) && InsertLast(es) && cutoff < FLAG
    requires forall d :: d in rest ==> !Tomb(d)
    requires forall d :: d in es && Tomb(d) ==> exists e :: Follows(d, e, es)
    ensures Coherent(Pruned(es, cutoff) + rest)
    ensures Visible(Pruned(es, cutoff) + rest, row, q) <==>
            Visible(es + rest, row, q) && !Dead(es, row, cutoff)
  {
    PrunedMembers(es, cutoff);
    PrunedCoherent(es, rest, cutoff);
    VisibleMeans(es + rest, row, q);
    VisibleMeans(Pruned(es, cutoff) + rest, row, q);
    var p := Pruned(es, cutoff);
    if Dead(es, row, cutoff) {
      DeadNotPending(es, rest, row, cutoff);
      assert !Inserted(p + rest, row, q);
    } else {
      assert forall e: Ver :: e.row == row ==> (e in p + rest <==> e in es + rest);
    }
  }

  lemma DeadNotPending(es: seq<Ver>, rest: seq<Ver>, row: nat, cutoff: nat)
    requires Coherent(es + rest) && Dead(es, row, cutoff)
    requires forall d :: d in rest ==> !Tomb(d)
    requires forall d :: d in es && Tomb(d) ==> exists e :: Follows(d, e, es)
    ensures forall e :: e in rest ==> e.row != row
  {
    var d :| d in es && Tomb(d) && Candidate(d, row, cutoff);
    var e :| Follows(d, e, es);
    var i :| 0 <= i < |es| && es[i] == e;
    forall x | x in rest ensures x.row != row {
      var j :| 0 <= j < |rest| && rest[j] == x;
      assert (es + rest)[i] == e && (es + rest)[|es| + j] == x;
    }
  }

  lemma {:induction false} PrunedFewer(es: seq<Ver>, cutoff: nat)
    ensures multiset(Pruned(es, cutoff)) <= multiset(es)
    decreases |es|
  {
    if es != [] {
      var g := GroupEnd(es);
      var a, b := es[..g], es[g..];
      var k := Keeper(a, cutoff);
      assert es == a + b;
      PrunedFewer(b, cutoff);
      if k < |a| { assert a == a[..k + 1] + a[k + 1..]; }
      assert multiset(KeepGroup(a, cutoff)) <= multiset(a);
    }
  }

  lemma PrunedCoherent(es: seq<Ver>, rest: seq<Ver>, cutoff: nat)
    requires Coherent(es + rest) && RowSorted(es) && InsertLast(es) && cutoff < FLAG
    requires forall d :: d in rest ==> !Tomb(d)
    requires forall d :: d in es && Tomb(d) ==> exists e :: Follows(d, e, es)
    ensures Coherent(Pruned(es, cutoff) + rest)
    ensures forall d :: d in Pruned(es, cutoff) && Tomb(d) ==> exists e :: Follows(d, e, Pruned(es, cutoff))
  {
    var p := Pruned(es, cutoff);
    PrunedMembers(es, cutoff);
    PrunedFewer(es, cutoff);
    FewerOneInsert(es + rest, p + rest);
    forall d | d in p && Tomb(d) ensures exists e :: Follows(d, e, p) {
      var e :| Follows(d, e, es);
      assert Follows(d, e, p);
    }
    forall d | d in p + rest && Tomb(d) ensures exists e :: Follows(d, e, p + rest) {
      var e :| Follows(d, e, p);
      assert Follows(d, e, p + rest);
    }
  }
}
