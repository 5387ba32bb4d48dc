/**
 UPDATE outside a transaction: the targets are deleted under one timestamp, and then every replacement is
 inserted under a timestamp of its own.  What each snapshot finds.
 */
module AutoUpdate {
  import opened Sequences
  import opened LittleEndian
  import opened Versions
  import opened Tables
  import opened TableSteps
  import opened Mvcc
  import opened Update

  /** Rows inserted one after the other, each at the next timestamp after ts. */
  function Inserted(t: Table, ts: nat, rows: seq<Row>): Table
    decreases rows
  {
    if rows == [] then t else Inserted(PutRow(t, ts + 1, rows[0]), ts + 1, rows[1..])
  }

  function AutoUpdated(t: Table, ts: nat, targets: seq<nat>, rows: seq<Row>): Table {
    Inserted(Tables.Delete(t, targets, ts + 1), ts + 1, rows)
  }

  /** Those of the rows inserted after ts that a snapshot finds. */
  function Seen(rows: seq<Row>, ts: nat, q: nat): seq<Row> {
    if q <= ts then [] else if q - ts < |rows| then rows[..q - ts] else rows
  }

  // ── The bags ──

  lemma {:induction false} PutSees(t: Table, ts: nat, row: Row, u: Table, r: nat, q: nat)
    requires Inv(t, ts) && ts + 1 < FLAG && u == PutRow(t, ts + 1, row)
    ensures Inv(u, ts + 1) && u.rows == t.rows + [row]
    ensures Sees(u, r, q) <==> if r == |t.rows| then ts + 1 <= q else Sees(t, r, q)
  {
    PutAutoInv(t, ts, row);
    TableAuto(t, ts + 1, row, 0);
    PutAutoSees(t, ts, row, r, q);
  }

  /** Each inserted row is seen from its own timestamp on. */
  lemma {:induction false} InsertedSees(t: Table, ts: nat, rows: seq<Row>, r: nat, q: nat)
    requires Inv(t, ts) && ts + |rows| < FLAG
    ensures Inserted(t, ts, rows).rows == t.rows + rows
    ensures Sees(Inserted(t, ts, rows), r, q) <==>
            if |t.rows| <= r < |t.rows| + |rows| then ts + 1 + (r - |t.rows|) <= q else Sees(t, r, q)
    decreases rows
  {
    if rows == [] {
      assert t.rows + rows == t.rows;
    } else {
      var u := PutRow(t, ts + 1, rows[0]);
      PutSees(t, ts, rows[0], u, r, q);
      InsertedSees(u, ts + 1, rows[1..], r, q);
      assert t.rows + rows == t.rows + [rows[0]] + rows[1..];
    }
  }

  /** The rows with these ids, and of the rows behind them the first k. */
  lemma {:induction false} BagAppended(rows: seq<Row>, more: seq<Row>, a: set<nat>, b: set<nat>, k: nat, n: nat)
    requires k <= |more| && n <= |more|
    requires forall r: nat :: r in b <==> if r < |rows| then r in a else r < |rows| + k
    ensures BagOf(rows + more, b, |rows| + n) == BagOf(rows, a, |rows|) + multiset(more[..if n < k then n else k])
  {
    if n == 0 {
      BagMore(rows, more, b, |rows|);
      BagSame(rows, a, b, |rows|);
    } else {
      BagAppended(rows, more, a, b, k, n - 1);
      if n <= k { assert more[..n] == more[..n - 1] + [more[n - 1]]; }
    }
  }

  lemma {:induction false} DeletedInv(t: Table, ts: nat, targets: seq<nat>, q0: nat, d: Table, c: nat)
    requires Inv(t, ts) && c == ts + 1 < FLAG && Targets(t, targets, q0) && d == Tables.Delete(t, targets, c)
    ensures Inv(d, c) && d.rows == t.rows
  {
    DeleteAutoInv(t, ts, targets, q0);
  }

  /** The targets are seen until the statement, each replacement from its own timestamp on. */
  lemma {:induction false} AutoSees(t: Table, ts: nat, targets: seq<nat>, rows: seq<Row>, q0: nat, r: nat, q: nat)
    requires Inv(t, ts) && ts + 1 + |rows| < FLAG && Targets(t, targets, q0)
    ensures AutoUpdated(t, ts, targets, rows).rows == t.rows + rows
    ensures Sees(AutoUpdated(t, ts, targets, rows), r, q) <==>
            if |t.rows| <= r < |t.rows| + |rows| then ts + 2 + (r - |t.rows|) <= q
            else Sees(t, r, q) && (r in targets ==> q <= ts)
  {
    var d, c := Tables.Delete(t, targets, ts + 1), ts + 1;
    DeletedInv(t, ts, targets, q0, d, c);
    InsertedSees(d, c, rows, r, q);
    DeleteSees(t, ts, targets, q0, c, r, q);
  }

  /**
   Snapshots before the statement find what they found.  At its first timestamp the targets are gone and
   nothing has replaced them; every later one brings one replacement more.
   */
  lemma {:induction false} AutoBag(t: Table, ts: nat, targets: seq<nat>, rows: seq<Row>, q0: nat, q: nat)
    requires Inv(t, ts) && ts + 1 + |rows| < FLAG && Targets(t, targets, q0)
    ensures Bag(AutoUpdated(t, ts, targets, rows), q) ==
            if q <= ts then Bag(t, q)
            else BagOf(t.rows, SeenIds(t, q) - IdSet(targets), |t.rows|) + multiset(Seen(rows, ts + 1, q))
  {
    var w, k := AutoUpdated(t, ts, targets, rows), |Seen(rows, ts + 1, q)|;
    var left := if q <= ts then SeenIds(t, q) else SeenIds(t, q) - IdSet(targets);
    LeftBag(t, ts, targets, rows, q0, w, left, k, q);
    assert rows[..k] == Seen(rows, ts + 1, q);
  }

  lemma {:induction false} LeftBag(t: Table, ts: nat, targets: seq<nat>, rows: seq<Row>, q0: nat, w: Table, left: set<nat>, k: nat, q: nat)
    requires Inv(t, ts) && ts + 1 + |rows| < FLAG && Targets(t, targets, q0) && w == AutoUpdated(t, ts, targets, rows)
    requires k == |Seen(rows, ts + 1, q)| && left == if q <= ts then SeenIds(t, q) else SeenIds(t, q) - IdSet(targets)
    ensures Bag(w, q) == BagOf(t.rows, left, |t.rows|) + multiset(rows[..k])
  {
    AutoIds(t, ts, targets, rows, q0, w, left, k, q);
    BagAppended(t.rows, rows, left, SeenIds(w, q), k, |rows|);
  }

  lemma {:induction false} AutoIds(t: Table, ts: nat, targets: seq<nat>, rows: seq<Row>, q0: nat, w: Table, left: set<nat>, k: nat, q: nat)
    requires Inv(t, ts) && ts + 1 + |rows| < FLAG && Targets(t, targets, q0) && w == AutoUpdated(t, ts, targets, rows)
    requires k == |Seen(rows, ts + 1, q)| && left == if q <= ts then SeenIds(t, q) else SeenIds(t, q) - IdSet(targets)
    ensures w.rows == t.rows + rows
    ensures forall r: nat :: r in SeenIds(w, q) <==> if r < |t.rows| then r in left else r < |t.rows| + k
  {
    AutoSees(t, ts, targets, rows, q0, 0, q);
    forall r: nat ensures r in SeenIds(w, q) <==> if r < |t.rows| then r in left else r < |t.rows| + k {
      AutoSees(t, ts, targets, rows, q0, r, q);
    }
  }

  // ── Atomic or not ──

  /** The rewriting of the targets as it should be. */
  function Rewriting(t: Table, targets: seq<nat>, col: nat, v: Cell, q: nat): multiset<Row> {
    Rewritten(t.rows, SeenIds(t, q), IdSet(targets), col, v, |t.rows|)
  }

  /** Every snapshot finds the table as it was, or as it should be. */
  ghost predicate Atomic(t: Table, u: Table, targets: seq<nat>, col: nat, v: Cell) {
    forall q: nat :: Bag(u, q) == Bag(t, q) || Bag(u, q) == Rewriting(t, targets, col, v, q)
  }

  /** From its last timestamp on, snapshots find the table rewritten, if the targets were all there. */
  lemma {:induction false} AutoRewrites(t: Table, ts: nat, targets: seq<nat>, q0: nat, col: nat, v: Cell, news: seq<Row>, q: nat)
    requires Inv(t, ts) && Targets(t, targets, q0) && Ascending(targets) && AllChanged(t.rows, targets, news, col, v)
    requires ts + 1 + |targets| < FLAG && q > ts + |targets| && IdSet(targets) <= SeenIds(t, q)
    ensures Bag(AutoUpdated(t, ts, targets, news), q) == Rewriting(t, targets, col, v, q)
  {
    var seen, ids := SeenIds(t, q), IdSet(targets);
    TargetsBelow(t.rows, targets, news, col, v);
    ReplacementsOnly(t.rows, targets, news, col, v);
    AutoBag(t, ts, targets, news, q0, q);
    ReplacementsBag(t.rows, targets, col, v, |t.rows|);
    RewrittenParts(t.rows, seen, ids, col, v, |t.rows|);
    assert ids * seen == ids;
  }

  lemma TargetsBelow(rows: seq<Row>, targets: seq<nat>, news: seq<Row>, col: nat, v: Cell)
    requires AllChanged(rows, targets, news, col, v)
    ensures AllBelow(targets, |rows|)
  {
  }

  /**
   The cells that those snapshots find: the rows that are no targets as they were, and for each target one
   row with the value in the column and the old cell in every other.
   */
  lemma {:induction false} AutoCells(t: Table, ts: nat, targets: seq<nat>, q0: nat, col: nat, v: Cell, news: seq<Row>, q: nat)
    requires Inv(t, ts) && Targets(t, targets, q0) && Ascending(targets) && AllChanged(t.rows, targets, news, col, v)
    requires ts + 1 + |targets| < FLAG && q > ts + |targets|
    ensures AllBelow(targets, |t.rows|)
    ensures var others := BagOf(t.rows, SeenIds(t, q) - IdSet(targets), |t.rows|);
            && Bag(AutoUpdated(t, ts, targets, news), q) == others + multiset(news)
            && (Bag(t, q) == others + multiset(RowsOf(t.rows, targets)) <==> IdSet(targets) <= SeenIds(t, q))
  {
    TargetsBelow(t.rows, targets, news, col, v);
    AutoBag(t, ts, targets, news, q0, q);
    TargetsThere(t.rows, SeenIds(t, q), targets);
  }

  lemma MoreIsMore(a: multiset<Row>, b: multiset<Row>)
    requires b != multiset{}
    ensures a + b != a
  {
    var r :| r in b;
    assert (a + b)[r] > a[r];
  }

  /** At the first timestamp, with a target that was there: neither the old rows nor the new ones. */
  lemma {:induction false} GapSeen(t: Table, ts: nat, targets: seq<nat>, q0: nat, col: nat, v: Cell, r: nat)
    requires Inv(t, ts) && Targets(t, targets, q0) && AllBelow(targets, |t.rows|) && ts + 1 + |targets| < FLAG
    requires r in targets && Sees(t, r, ts + 1)
    ensures var u := AutoUpdated(t, ts, targets, Replacements(t.rows, targets, col, v));
            Bag(u, ts + 1) != Bag(t, ts + 1) && Bag(u, ts + 1) != Rewriting(t, targets, col, v, ts + 1)
  {
    var rows, seen, ids := Replacements(t.rows, targets, col, v), SeenIds(t, ts + 1), IdSet(targets);
    AutoBag(t, ts, targets, rows, q0, ts + 1);
    GapBags(t.rows, seen, ids, col, v, r);
  }

  lemma {:induction false} GapBags(rows: seq<Row>, seen: set<nat>, ids: set<nat>, col: nat, v: Cell, r: nat)
    requires r in seen && r in ids && r < |rows|
    ensures var left := BagOf(rows, seen - ids, |rows|);
            left != BagOf(rows, seen, |rows|) && left != Rewritten(rows, seen, ids, col, v, |rows|)
  {
    var n := |rows|;
    var left := BagOf(rows, seen - ids, n);
    BagUnion(rows, seen - ids, seen * ids, n);
    assert seen == (seen - ids) + seen * ids;
    BagNotEmpty(rows, seen * ids, n, r);
    MoreIsMore(left, BagOf(rows, seen * ids, n));
    RewrittenParts(rows, seen, ids, col, v, n);
    NewBagEmpty(rows, ids * seen, col, v, n);
    assert r in ids * seen;
    MoreIsMore(left, NewBag(rows, ids * seen, col, v, n));
  }

  /** With no target left, the replacements come out of nothing. */
  lemma {:induction false} GapUnseen(t: Table, ts: nat, targets: seq<nat>, q0: nat, col: nat, v: Cell)
    requires Inv(t, ts) && Targets(t, targets, q0) && AllBelow(targets, |t.rows|) && ts + 1 + |targets| < FLAG
    requires targets != [] && forall r :: r in targets ==> !Sees(t, r, ts + 2)
    ensures var u := AutoUpdated(t, ts, targets, Replacements(t.rows, targets, col, v));
            Bag(u, ts + 2) != Bag(t, ts + 2) && Bag(u, ts + 2) != Rewriting(t, targets, col, v, ts + 2)
  {
    var rows, seen, ids, n := Replacements(t.rows, targets, col, v), SeenIds(t, ts + 2), IdSet(targets), |t.rows|;
    AutoBag(t, ts, targets, rows, q0, ts + 2);
    assert seen - ids == seen && ids * seen == {};
    assert rows[..1] == [rows[0]] && rows[0] in multiset(rows[..1]);
    MoreIsMore(BagOf(t.rows, seen, n), multiset(rows[..1]));
    RewrittenParts(t.rows, seen, ids, col, v, n);
    NewBagEmpty(t.rows, {}, col, v, n);
  }

  /** Beyond the last timestamp issued, all snapshots see the same. */
  lemma {:induction false} SeesBeyond(t: Table, ts: nat, r: nat, p: nat, q: nat)
    requires Inv(t, ts) && ts <= p && ts <= q
    ensures Sees(t, r, p) <==> Sees(t, r, q)
  {
    VisibleMeans(All(t), r, p);
    VisibleMeans(All(t), r, q);
    forall e | e in All(t) && Committed(e) ensures e.ts <= ts { assert Known(e, |t.rows|, ts, t.ws.Keys); }
    forall e | e in All(t) ensures Candidate(e, r, p) <==> Candidate(e, r, q) {}
  }

  /** An UPDATE outside a transaction is atomic if and only if it has nothing to update. */
  lemma {:induction false} AutoAtomic(t: Table, ts: nat, targets: seq<nat>, q0: nat, col: nat, v: Cell, news: seq<Row>)
    requires Inv(t, ts) && Targets(t, targets, q0) && AllChanged(t.rows, targets, news, col, v) && ts + 1 + |targets| < FLAG
    ensures Atomic(t, AutoUpdated(t, ts, targets, news), targets, col, v) <==> targets == []
  {
    TargetsBelow(t.rows, targets, news, col, v);
    ReplacementsOnly(t.rows, targets, news, col, v);
    var u := AutoUpdated(t, ts, targets, news);
    if targets == [] {
      forall q: nat ensures Bag(u, q) == Bag(t, q) {
        AutoBag(t, ts, targets, news, q0, q);
        assert SeenIds(t, q) - IdSet(targets) == SeenIds(t, q);
      }
    } else if r :| r in targets && Sees(t, r, ts + 1) {
      GapSeen(t, ts, targets, q0, col, v, r);
    } else {
      forall r | r in targets ensures !Sees(t, r, ts + 2) { SeesBeyond(t, ts, r, ts + 1, ts + 2); }
      GapUnseen(t, ts, targets, q0, col, v);
    }
  }

  // ── As steps of the database ──

  function Inserts(t: nat, rows: seq<Row>): seq<Step> {
    seq(|rows|, i requires 0 <= i < |rows| => InsertAuto(t, rows[i]))
  }

  lemma {:induction false} InsertsRun(db: Db, t: nat, rows: seq<Row>)
    requires t < |db.tables| && db.ts + |rows| < FLAG && db.nextTx < FLAG - 1
    ensures Run(db, Inserts(t, rows))
    ensures var d := After(db, Inserts(t, rows));
            && d.ts == db.ts + |rows| && d.nextTx == db.nextTx && |d.tables| == |db.tables|
            && d.tables[t] == Inserted(db.tables[t], db.ts, rows)
    decreases rows
  {
    if rows == [] {
      assert Inserts(t, rows) == [];
    } else {
      var steps := Inserts(t, rows);
      assert steps[0] == InsertAuto(t, rows[0]) && steps[1..] == Inserts(t, rows[1..]);
      InsertsRun(Apply(db, InsertAuto(t, rows[0])), t, rows[1..]);
    }
  }

  /** The statement as a run: the deletion, then the insertions, nobody else in between. */
  lemma {:induction false} AutoRun(db: Db, t: nat, targets: seq<nat>, rows: seq<Row>)
    requires Enabled(db, DeleteAuto(t, targets)) && db.ts + 1 + |rows| < FLAG
    ensures var steps := [DeleteAuto(t, targets)] + Inserts(t, rows);
            && Run(db, steps) && After(db, steps).ts == db.ts + 1 + |rows| && |After(db, steps).tables| == |db.tables|
            && After(db, steps).tables[t] == AutoUpdated(db.tables[t], db.ts, targets, rows)
  {
    var d := Apply(db, DeleteAuto(t, targets));
    InsertsRun(d, t, rows);
    var steps := [DeleteAuto(t, targets)] + Inserts(t, rows);
    assert steps[0] == DeleteAuto(t, targets) && steps[1..] == Inserts(t, rows);
  }
}
