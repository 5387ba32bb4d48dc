/** How each edit of a version sequence changes visibility, and why it stays coherent. */
module VersionEdits {
  import opened Versions

  // ── Appending an insertion of a new row ──

  lemma AppendInsert(all: seq<Ver>, e: Ver)
    requires Coherent(all) && !Tomb(e) && forall x :: x in all ==> x.row != e.row
    ensures Coherent(all + [e])
  {
    forall d | d in all + [e] && Tomb(d) ensures exists x :: Follows(d, x, all + [e]) {
      var x :| Follows(d, x, all);
      assert Follows(d, x, all + [e]);
    }
  }

  lemma AppendInsertVisible(all: seq<Ver>, e: Ver, r: nat, q: nat)
    requires Coherent(all) && !Tomb(e) && forall x :: x in all ==> x.row != e.row
    ensures Visible(all + [e], r, q) <==> if r == e.row then Committed(e) && e.ts <= q else Visible(all, r, q)
  {
    AppendInsert(all, e);
    VisibleMeans(all, r, q);
    VisibleMeans(all + [e], r, q);
    if r == e.row {
      if Committed(e) && e.ts <= q { assert e in all + [e] && Candidate(e, r, q); }
    } else {
      assert forall x :: x in all + [e] && x.row == r <==> x in all && x.row == r;
    }
  }

  // ── Giving rows their pages ──

  /** The same rows, stamps and deletions, perhaps at other offsets. */
  ghost predicate Similar(a: seq<Ver>, b: seq<Ver>) {
    |a| == |b| && forall i :: 0 <= i < |a| ==> a[i].row == b[i].row && a[i].ts == b[i].ts && (Tomb(a[i]) <==> Tomb(b[i]))
  }

  lemma SimilarFollows(a: seq<Ver>, b: seq<Ver>)
    requires Similar(a, b) && TombsFollow(a)
    ensures TombsFollow(b)
  {
    forall d | d in b && Tomb(d) ensures exists e :: Follows(d, e, b) {
      var i :| 0 <= i < |b| && b[i] == d;
      assert a[i] in a;
      var e :| Follows(a[i], e, a);
      var j :| 0 <= j < |a| && a[j] == e;
      assert Follows(d, b[j], b);
    }
  }

  lemma SimilarCoherent(a: seq<Ver>, b: seq<Ver>)
    requires Similar(a, b) && Coherent(a)
    ensures Coherent(b)
  {
    SimilarFollows(a, b);
  }

  lemma {:induction false} SimilarVisible(a: seq<Ver>, b: seq<Ver>, r: nat, q: nat)
    requires Similar(a, b)
    ensures var x, y := Lookup(a, r, q), Lookup(b, r, q);
            && (x.Some? <==> y.Some?)
            && (x.Some? ==> x.value.ts == y.value.ts && (Tomb(x.value) <==> Tomb(y.value)))
    ensures Visible(a, r, q) <==> Visible(b, r, q)
  {
    if a != [] {
      var n := |a| - 1;
      assert Similar(a[..n], b[..n]);
      SimilarVisible(a[..n], b[..n], r, q);
    }
  }

  lemma {:induction false} SimilarMatches(a: seq<Ver>, b: seq<Ver>, r: nat, s: nat)
    requires Similar(a, b)
    ensures Matches(a, r, s) == Matches(b, r, s)
  {
    if a != [] {
      assert Similar(a[1..], b[1..]) by {
        forall i | 0 <= i < |a[1..]|
          ensures a[1..][i].row == b[1..][i].row && a[1..][i].ts == b[1..][i].ts && (Tomb(a[1..][i]) <==> Tomb(b[1..][i]))
        {
          assert a[1..][i] == a[i + 1] && b[1..][i] == b[i + 1];
        }
      }
      SimilarMatches(a[1..], b[1..], r, s);
    }
  }

  // ── Counting ──

  lemma {:induction false} MatchesConcat(a: seq<Ver>, b: seq<Ver>, r: nat, s: nat)
    ensures Matches(a + b, r, s) == Matches(a, r, s) + Matches(b, r, s)
  {
    if a == [] {
      assert a + b == b;
    } else {
      assert (a + b)[1..] == a[1..] + b;
      MatchesConcat(a[1..], b, r, s);
    }
  }

  lemma {:induction false} MatchesZero(a: seq<Ver>, r: nat, s: nat)
    requires forall e :: e in a ==> !Match(e, r, s)
    ensures Matches(a, r, s) == 0
  {
    if a != [] { MatchesZero(a[1..], r, s); }
  }

  lemma {:induction false} MatchesFew(a: seq<Ver>, b: seq<Ver>, r: nat, s: nat)
    requires multiset(a) <= multiset(b)
    ensures Matches(a, r, s) <= Matches(b, r, s)
  {
    if a != [] {
      assert a[0] in multiset(a);
      assert a[0] in b;
      var k :| 0 <= k < |b| && b[k] == a[0];
      var rest := b[..k] + b[k + 1..];
      DropHead(a);
      DropAt(b, k);
      MatchesFew(a[1..], rest, r, s);
      MatchesDrop(b, k, r, s);
    }
  }

  lemma DropHead(a: seq<Ver>)
    requires a != []
    ensures multiset(a[1..]) == multiset(a) - multiset{a[0]}
  {
    assert a == [a[0]] + a[1..];
  }

  lemma DropAt(b: seq<Ver>, k: nat)
    requires k < |b|
    ensures multiset(b[..k] + b[k + 1..]) == multiset(b) - multiset{b[k]}
  {
    assert b == b[..k] + [b[k]] + b[k + 1..];
  }

  lemma {:induction false} MatchesDrop(b: seq<Ver>, k: nat, r: nat, s: nat)
    requires k < |b|
    ensures Matches(b, r, s) == Matches(b[..k] + b[k + 1..], r, s) + if Match(b[k], r, s) then 1 else 0
  {
    var tail := b[k..];
    assert b == b[..k] + tail && tail[1..] == b[k + 1..];
    MatchesConcat(b[..k], tail, r, s);
    MatchesConcat(b[..k], b[k + 1..], r, s);
  }

  lemma MatchesPermuted(a: seq<Ver>, b: seq<Ver>, r: nat, s: nat)
    requires Permuted(a, b)
    ensures Matches(a, r, s) == Matches(b, r, s)
  {
    MatchesFew(a, b, r, s);
    MatchesFew(b, a, r, s);
  }

  // ── Appending deletions ──

  /** Deletions of rows whose insertions are committed and older than the stamp. */
  ghost predicate Deletable(all: seq<Ver>, tombs: seq<Ver>) {
    forall d :: d in tombs ==> Tomb(d) && exists e :: Follows(d, e, all)
  }

  lemma AppendTombs(all: seq<Ver>, tombs: seq<Ver>)
    requires Coherent(all) && Deletable(all, tombs)
    ensures Coherent(all + tombs)
  {
    forall d | d in all + tombs && Tomb(d) ensures exists x :: Follows(d, x, all + tombs) {
      var x :| Follows(d, x, all);
      assert Follows(d, x, all + tombs);
    }
    forall i, j | 0 <= i < j < |all + tombs| && (all + tombs)[i].row == (all + tombs)[j].row
      ensures Tomb((all + tombs)[i]) || Tomb((all + tombs)[j])
    {
      if j >= |all| { assert (all + tombs)[j] in tombs; }
    }
  }

  lemma AppendTombsVisible(all: seq<Ver>, tombs: seq<Ver>, r: nat, q: nat)
    requires Coherent(all) && Deletable(all, tombs)
    ensures Visible(all + tombs, r, q) <==> Visible(all, r, q) && !Deleted(tombs, r, q)
  {
    AppendTombs(all, tombs);
    VisibleMeans(all, r, q);
    VisibleMeans(all + tombs, r, q);
    assert forall e :: e in all + tombs <==> e in all || e in tombs;
  }

  // ── Restamping ──

  /** A stamp that ends a transaction: aborted, or a timestamp later than everything committed. */
  ghost predicate Final(all: seq<Ver>, c: nat) {
    c == ABORTED || (c < FLAG && forall e :: e in all && Committed(e) ==> e.ts < c)
  }

  function Restamped(e: Ver, target: nat, c: nat): Ver { if e.ts == target then e.(ts := c) else e }

  lemma RestampMembers(all: seq<Ver>, target: nat, c: nat)
    ensures forall e :: e in all ==> Restamped(e, target, c) in Restamp(all, target, c)
    ensures forall x :: x in Restamp(all, target, c) ==> exists e :: e in all && x == Restamped(e, target, c)
  {
    var s := Restamp(all, target, c);
    forall e | e in all ensures Restamped(e, target, c) in s {
      var i :| 0 <= i < |all| && all[i] == e;
      assert s[i] == Restamped(e, target, c);
    }
    forall x | x in s ensures exists e :: e in all && x == Restamped(e, target, c) {
      var i :| 0 <= i < |s| && s[i] == x;
      assert x == Restamped(all[i], target, c);
    }
  }

  lemma RestampFollows(all: seq<Ver>, target: nat, c: nat)
    requires TombsFollow(all) && Final(all, c) && target >= FLAG
    ensures TombsFollow(Restamp(all, target, c))
  {
    RestampMembers(all, target, c);
    var s := Restamp(all, target, c);
    forall d | d in s && Tomb(d) ensures exists e :: Follows(d, e, s) {
      var d0 :| d0 in all && d == Restamped(d0, target, c);
      var e :| Follows(d0, e, all);
      assert Restamped(e, target, c) == e;
      assert Follows(d, e, s);
    }
  }

  lemma RestampCoherent(all: seq<Ver>, target: nat, c: nat)
    requires Coherent(all) && Final(all, c) && target >= FLAG
    ensures Coherent(Restamp(all, target, c))
  {
    RestampFollows(all, target, c);
  }

  /** Some version of the row carries the stamp. */
  ghost predicate Stamped(all: seq<Ver>, r: nat, target: nat, tomb: bool) {
    exists e :: e in all && e.row == r && e.ts == target && Tomb(e) == tomb
  }

  lemma RestampInserted(all: seq<Ver>, target: nat, c: nat, r: nat, q: nat)
    requires target >= FLAG && c != target
    ensures var s := Restamp(all, target, c);
            && (Inserted(s, r, q) <==> Inserted(all, r, q) || (Stamped(all, r, target, false) && c < FLAG && c <= q))
            && (Deleted(s, r, q) <==> Deleted(all, r, q) || (Stamped(all, r, target, true) && c < FLAG && c <= q))
  {
    RestampMembers(all, target, c);
    var s := Restamp(all, target, c);
    forall e | e in all && Candidate(e, r, q) ensures e in s { assert Restamped(e, target, c) == e; }
    forall x | x in s && Candidate(x, r, q)
      ensures (x in all) || (Stamped(all, r, target, Tomb(x)) && c < FLAG && c <= q)
    {
      var e :| e in all && x == Restamped(e, target, c);
    }
    if c < FLAG && c <= q {
      forall e | e in all && e.row == r && e.ts == target
        ensures e.(ts := c) in s && Candidate(e.(ts := c), r, q)
      {
        assert Restamped(e, target, c) == e.(ts := c);
      }
    }
  }

  /** Ending a transaction at c: what it inserted appears and what it deleted goes, exactly from c on. */
  lemma RestampVisible(all: seq<Ver>, target: nat, c: nat, r: nat, q: nat)
    requires Coherent(all) && Final(all, c) && target >= FLAG && c != target
    ensures Visible(Restamp(all, target, c), r, q) <==>
            if c < FLAG && c <= q
            then Stamped(all, r, target, false) || (Visible(all, r, q) && !Stamped(all, r, target, true))
            else Visible(all, r, q)
  {
    RestampCoherent(all, target, c);
    RestampInserted(all, target, c, r, q);
    VisibleMeans(all, r, q);
    VisibleMeans(Restamp(all, target, c), r, q);
    if Stamped(all, r, target, false) { NotDeletedYet(all, r, target, q); }
  }

  /** A row whose insertion is not committed has no deletions. */
  lemma NotDeletedYet(all: seq<Ver>, r: nat, target: nat, q: nat)
    requires Coherent(all) && target >= FLAG && Stamped(all, r, target, false)
    ensures !Deleted(all, r, q) && !Inserted(all, r, q)
    ensures forall s :: !Stamped(all, r, s, true)
  {
    var e :| e in all && e.row == r && e.ts == target && !Tomb(e);
    forall d | d in all && Tomb(d) && d.row == r ensures false {
      var x :| Follows(d, x, all);
      SameInsert(all, x, e);
    }
    forall x | x in all && !Tomb(x) && Candidate(x, r, q) ensures false { SameInsert(all, x, e); }
  }

  lemma {:induction false} RestampMatches(all: seq<Ver>, target: nat, c: nat, r: nat, s: nat)
    requires s != target && s != c
    ensures Matches(Restamp(all, target, c), r, s) == Matches(all, r, s)
  {
    if all != [] {
      assert Restamp(all, target, c)[1..] == Restamp(all[1..], target, c);
      RestampMatches(all[1..], target, c, r, s);
    }
  }
}
