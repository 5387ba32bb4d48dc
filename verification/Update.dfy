/**
 What committing does to the bag of rows a reader finds, and UPDATE, which deletes its targets and
 inserts their replacements under one transaction, as an atomic rewrite.
 */
module Update {
  import opened Sequences
  import opened Options
  import opened LittleEndian
  import opened Versions
  import opened Tables
  import opened TableSteps
  import opened Mvcc
  import opened History

  function IdSet(ids: seq<nat>): set<nat> { set r | r in ids }

  /** The rows with the given ids below n, as a bag. */
  function BagOf(rows: seq<Row>, ids: set<nat>, n: nat): multiset<Row>
    requires n <= |rows|
  {
    if n == 0 then multiset{}
    else BagOf(rows, ids, n - 1) + if n - 1 in ids then multiset{rows[n - 1]} else multiset{}
  }

  function SeenIds(t: Table, q: nat): set<nat> { set j: nat | j < |t.rows| && Sees(t, j, q) }

  /** What a reader at q finds. */
  function Bag(t: Table, q: nat): multiset<Row> { BagOf(t.rows, SeenIds(t, q), |t.rows|) }

  lemma {:induction false} BagUnion(rows: seq<Row>, a: set<nat>, b: set<nat>, n: nat)
    requires n <= |rows| && a !! b
    ensures BagOf(rows, a + b, n) == BagOf(rows, a, n) + BagOf(rows, b, n)
  {
    if n > 0 { BagUnion(rows, a, b, n - 1); }
  }

  lemma {:induction false} BagSame(rows: seq<Row>, a: set<nat>, b: set<nat>, n: nat)
    requires n <= |rows| && forall j :: 0 <= j < n ==> (j in a <==> j in b)
    ensures BagOf(rows, a, n) == BagOf(rows, b, n)
  {
    if n > 0 { BagSame(rows, a, b, n - 1); }
  }

  lemma {:induction false} BagMore(rows: seq<Row>, more: seq<Row>, ids: set<nat>, n: nat)
    requires n <= |rows|
    ensures BagOf(rows + more, ids, n) == BagOf(rows, ids, n)
  {
    if n > 0 { BagMore(rows, more, ids, n - 1); }
  }

  // ── Commit, as bags ──

  lemma {:induction false} OwnUnseen(db: Db, h: Hist, tx: nat, t: nat, r: nat, q: nat)
    requires Base(db, h) && tx in db.open && t < |db.tables| && r in SetOf(db.tables[t], tx).ins
    ensures r < |db.tables[t].rows| && !Sees(db.tables[t], r, q)
  {
    assert InSet(SetOf(db.tables[t], tx), r, false);
    assert Act(Tx(tx), t, r, false) in h.acts;
    assert ActOk(db, Act(Tx(tx), t, r, false));
  }

  lemma {:induction false} SeenCommitted(db: Db, h: Hist, tx: nat, t: nat, q: nat)
    requires Base(db, h) && Enabled(db, Commit(tx)) && t < |db.tables| && db.ts + 1 <= q
    ensures var x, w := db.tables[t], SetOf(db.tables[t], tx);
            && w.ins !! SeenIds(x, q)
            && t < |Apply(db, Commit(tx)).tables|
            && Apply(db, Commit(tx)).tables[t].rows == x.rows
            && SeenIds(Apply(db, Commit(tx)).tables[t], q) == w.ins + (SeenIds(x, q) - w.del)
  {
    var x, w := db.tables[t], SetOf(db.tables[t], tx);
    var y := Apply(db, Commit(tx)).tables[t];
    forall r | r in w.ins ensures r < |x.rows| && r !in SeenIds(x, q) { OwnUnseen(db, h, tx, t, r, q); }
    forall r ensures r in SeenIds(y, q) <==> r in w.ins + (SeenIds(x, q) - w.del) {
      CommitAtomic(db, tx, t, r, q);
    }
  }

  /**
   Conservation: from its timestamp on, a commit adds exactly the rows its transaction inserted and
   takes away exactly those it deleted that were still there; before it, nothing changes.
   */
  lemma {:induction false} CommitBag(db: Db, h: Hist, tx: nat, t: nat, q: nat)
    requires Base(db, h) && Enabled(db, Commit(tx)) && t < |db.tables|
    ensures var x, w, n := db.tables[t], SetOf(db.tables[t], tx), |db.tables[t].rows|;
            && t < |Apply(db, Commit(tx)).tables|
            && var y := Apply(db, Commit(tx)).tables[t];
               if q <= db.ts then Bag(y, q) == Bag(x, q)
               else Bag(y, q) + BagOf(x.rows, SeenIds(x, q) * w.del, n) == Bag(x, q) + BagOf(x.rows, w.ins, n)
  {
    var x, w := db.tables[t], SetOf(db.tables[t], tx);
    var y, n, seen := Apply(db, Commit(tx)).tables[t], |x.rows|, SeenIds(x, q);
    if q <= db.ts {
      forall r ensures Sees(y, r, q) <==> Sees(x, r, q) { CommitAtomic(db, tx, t, r, q); }
      assert SeenIds(y, q) == seen;
    } else {
      SeenCommitted(db, h, tx, t, q);
      BagUnion(x.rows, w.ins, seen - w.del, n);
      BagUnion(x.rows, seen - w.del, seen * w.del, n);
      assert seen == (seen - w.del) + seen * w.del;
    }
  }

  // ── What a transaction did in a run, whoever else ran meanwhile ──

  /** The rows tx inserted into t, and the ids it deleted there. */
  function Put(steps: seq<Step>, tx: nat, t: nat): seq<Row> {
    if steps == [] then []
    else
      Puts(steps[0], tx, t) + Put(steps[1..], tx, t)
  }

  function Cut(steps: seq<Step>, tx: nat, t: nat): set<nat> {
    if steps == [] then {}
    else
      Cuts(steps[0], tx, t) + Cut(steps[1..], tx, t)
  }

  predicate StaysOpen(steps: seq<Step>, tx: nat) { Commit(tx) !in steps && Rollback(tx) !in steps }

  /** The rows an open transaction has inserted so far. */
  function Mine(db: Db, tx: nat, t: nat): multiset<Row>
    requires t < |db.tables|
  {
    BagOf(db.tables[t].rows, SetOf(db.tables[t], tx).ins, |db.tables[t].rows|)
  }

  lemma {:induction false} OwnRows(db: Db, h: Hist, tx: nat, t: nat)
    requires Base(db, h) && tx in db.open && t < |db.tables|
    ensures forall r :: r in SetOf(db.tables[t], tx).ins ==> r < |db.tables[t].rows|
  {
    forall r | r in SetOf(db.tables[t], tx).ins ensures r < |db.tables[t].rows| { OwnUnseen(db, h, tx, t, r, 0); }
  }

  lemma {:induction false} BagSnoc(rows: seq<Row>, row: Row, ids: set<nat>)
    requires forall r :: r in ids ==> r < |rows|
    ensures BagOf(rows + [row], ids, |rows| + 1) == BagOf(rows, ids, |rows|)
    ensures BagOf(rows + [row], ids + {|rows|}, |rows| + 1) == BagOf(rows, ids, |rows|) + multiset{row}
  {
    var n := |rows|;
    BagMore(rows, [row], ids, n);
    BagSame(rows + [row], ids, ids + {n}, n);
  }

  /** From db to d the write set of tx on t grew by these rows and deletions. */
  ghost predicate Grew(db: Db, d: Db, tx: nat, t: nat, put: multiset<Row>, cut: set<nat>) {
    && t < |db.tables| && t < |d.tables|
    && SetOf(d.tables[t], tx).del == SetOf(db.tables[t], tx).del + cut
    && Mine(d, tx, t) == Mine(db, tx, t) + put
  }

  lemma GrewTwice(a: Db, b: Db, c: Db, tx: nat, t: nat, put: multiset<Row>, cut: set<nat>, put': multiset<Row>, cut': set<nat>)
    requires Grew(a, b, tx, t, put, cut) && Grew(b, c, tx, t, put', cut')
    ensures Grew(a, c, tx, t, put + put', cut + cut')
  {
  }

  lemma {:induction false} TableInsert(x: Table, u: nat, row: Row, tx: nat)
    ensures InsertTx(x, u, row).rows == x.rows + [row]
    ensures var w, v := SetOf(x, tx), SetOf(InsertTx(x, u, row), tx);
            v.del == w.del && v.ins == w.ins + if u == tx then {|x.rows|} else {}
  {
  }

  lemma {:induction false} TableAuto(x: Table, stamp: nat, row: Row, tx: nat)
    ensures PutRow(x, stamp, row).rows == x.rows + [row]
    ensures SetOf(PutRow(x, stamp, row), tx) == SetOf(x, tx)
  {
  }

  lemma {:induction false} OwnInsertStep(db: Db, s: Step, tx: nat, t: nat)
    requires Enabled(db, s) && t < |db.tables| && s.Insert? && s.table == t
    requires forall r :: r in SetOf(db.tables[t], tx).ins ==> r < |db.tables[t].rows|
    ensures Grew(db, Apply(db, s), tx, t, if s.tx == tx then multiset{s.row} else multiset{}, {})
  {
    var x := db.tables[t];
    TableInsert(x, s.tx, s.row, tx);
    BagSnoc(x.rows, s.row, SetOf(x, tx).ins);
    assert Apply(db, s).tables[t] == InsertTx(x, s.tx, s.row);
  }

  lemma {:induction false} OwnAutoStep(db: Db, s: Step, tx: nat, t: nat)
    requires Enabled(db, s) && t < |db.tables| && s.InsertAuto? && s.table == t
    requires forall r :: r in SetOf(db.tables[t], tx).ins ==> r < |db.tables[t].rows|
    ensures Grew(db, Apply(db, s), tx, t, multiset{}, {})
  {
    var x := db.tables[t];
    TableAuto(x, db.ts + 1, s.row, tx);
    BagSnoc(x.rows, s.row, SetOf(x, tx).ins);
    assert Apply(db, s).tables[t] == PutRow(x, db.ts + 1, s.row);
  }

  lemma {:induction false} OtherStep(db: Db, s: Step, tx: nat, t: nat)
    requires Enabled(db, s) && tx in db.open && t < |db.tables| && s != Commit(tx) && s != Rollback(tx)
    requires !((s.Insert? || s.InsertAuto?) && s.table == t) && !(s.Delete? && s.table == t)
    ensures Grew(db, Apply(db, s), tx, t, multiset{}, {})
  {
    var x := db.tables[t];
    match s
    case Commit(u) => SetOfFinish(x, u, db.ts + 1, tx);
    case Rollback(u) => SetOfFinish(x, u, Versions.ABORTED, tx);
    case _ =>
  }

  lemma {:induction false} OwnDeleteStep(db: Db, s: Step, tx: nat, t: nat)
    requires Enabled(db, s) && s.Delete? && s.table == t
    ensures Grew(db, Apply(db, s), tx, t, multiset{}, if s.tx == tx then set r | r in s.rows else {})
  {
  }

  /** What one step puts and cuts. */
  function Puts(s: Step, tx: nat, t: nat): seq<Row> {
    match s case Insert(x, u, row) => if x == tx && u == t then [row] else [] case _ => []
  }

  function Cuts(s: Step, tx: nat, t: nat): set<nat> {
    match s case Delete(x, u, rows) => if x == tx && u == t then set r | r in rows else {} case _ => {}
  }

  lemma {:induction false} OwnStep(db: Db, h: Hist, s: Step, tx: nat, t: nat)
    requires Base(db, h) && Enabled(db, s) && tx in db.open && t < |db.tables| && s != Commit(tx) && s != Rollback(tx)
    ensures Grew(db, Apply(db, s), tx, t, multiset(Puts(s, tx, t)), Cuts(s, tx, t))
  {
    OwnRows(db, h, tx, t);
    if s.Insert? && s.table == t {
      OwnInsertStep(db, s, tx, t);
    } else if s.InsertAuto? && s.table == t {
      OwnAutoStep(db, s, tx, t);
    } else if s.Delete? && s.table == t {
      OwnDeleteStep(db, s, tx, t);
    } else {
      OtherStep(db, s, tx, t);
    }
  }

  lemma {:induction false} StillOpen(db: Db, s: Step, tx: nat)
    requires Enabled(db, s) && tx in db.open && s != Commit(tx) && s != Rollback(tx)
    ensures tx in Apply(db, s).open
  {
  }

  /** Over any run in which it stays open, a transaction's write set grows by just what it did. */
  lemma {:induction false} OwnRun(db: Db, h: Hist, steps: seq<Step>, tx: nat, t: nat)
    requires Base(db, h) && Run(db, steps) && tx in db.open && t < |db.tables| && StaysOpen(steps, tx)
    ensures tx in After(db, steps).open
    ensures Grew(db, After(db, steps), tx, t, multiset(Put(steps, tx, t)), Cut(steps, tx, t))
    decreases |steps|
  {
    if steps != [] {
      var s, rest := steps[0], steps[1..];
      assert s in steps && forall x :: x in rest ==> x in steps;
      OwnStep(db, h, s, tx, t);
      StillOpen(db, s, tx);
      BaseStep(db, h, s);
      OwnRun(Apply(db, s), Next(h, db, s), rest, tx, t);
      GrewTwice(db, Apply(db, s), After(db, steps), tx, t, multiset(Puts(s, tx, t)), Cuts(s, tx, t),
                multiset(Put(rest, tx, t)), Cut(rest, tx, t));
      assert multiset(Put(steps, tx, t)) == multiset(Puts(s, tx, t)) + multiset(Put(rest, tx, t));
    }
  }

  // ── UPDATE ──

  /** The row with one cell changed: as long as it was, the value in that column, every other cell as it was. */
  predicate Changed(was: Row, now: Row, col: nat, v: Cell) {
    |now| == |was| && forall k :: 0 <= k < |was| ==> now[k] == if k == col then v else was[k]
  }

  /** One changed row for each target, in their order. */
  predicate AllChanged(rows: seq<Row>, targets: seq<nat>, news: seq<Row>, col: nat, v: Cell) {
    |news| == |targets| && forall i :: 0 <= i < |targets| ==> targets[i] < |rows| && Changed(rows[targets[i]], news[i], col, v)
  }

  function Replaced(row: Row, col: nat, v: Cell): Row { if col < |row| then row[col := v] else row }

  function Replacements(rows: seq<Row>, targets: seq<nat>, col: nat, v: Cell): seq<Row>
    requires AllBelow(targets, |rows|)
  {
    seq(|targets|, i requires 0 <= i < |targets| => assert targets[i] in targets; Replaced(rows[targets[i]], col, v))
  }

  lemma ReplacedOnly(row: Row, now: Row, col: nat, v: Cell)
    ensures Changed(row, now, col, v) <==> now == Replaced(row, col, v)
  {
  }

  /** So the replacements are the changed rows and nothing else. */
  lemma {:induction false} ReplacementsOnly(rows: seq<Row>, targets: seq<nat>, news: seq<Row>, col: nat, v: Cell)
    requires AllBelow(targets, |rows|)
    ensures AllChanged(rows, targets, news, col, v) <==> news == Replacements(rows, targets, col, v)
  {
    forall i | 0 <= i < |targets| ensures targets[i] < |rows| { assert targets[i] in targets; }
    if |news| == |targets| {
      forall i | 0 <= i < |targets|
        ensures Changed(rows[targets[i]], news[i], col, v) <==> news[i] == Replacements(rows, targets, col, v)[i]
      {
        ReplacedOnly(rows[targets[i]], news[i], col, v);
      }
    }
  }

  /** The rows with the given ids, in that order. */
  function RowsOf(rows: seq<Row>, ids: seq<nat>): seq<Row>
    requires AllBelow(ids, |rows|)
  {
    seq(|ids|, i requires 0 <= i < |ids| => assert ids[i] in ids; rows[ids[i]])
  }

  lemma {:induction false} BagSingle(rows: seq<Row>, r: nat, n: nat)
    requires n <= |rows|
    ensures BagOf(rows, {r}, n) == if r < n then multiset{rows[r]} else multiset{}
  {
    if n > 0 { BagSingle(rows, r, n - 1); }
  }

  lemma {:induction false} RowsOfBag(rows: seq<Row>, ids: seq<nat>)
    requires Ascending(ids) && AllBelow(ids, |rows|)
    ensures multiset(RowsOf(rows, ids)) == BagOf(rows, IdSet(ids), |rows|)
  {
    if ids == [] {
      BagNone(rows, |rows|);
      assert RowsOf(rows, ids) == [] && IdSet(ids) == {};
    } else {
      var k := |ids| - 1;
      var front, last := ids[..k], ids[k];
      assert last in ids && ids == front + [last];
      RowsOfBag(rows, front);
      assert RowsOf(rows, ids) == RowsOf(rows, front) + [rows[last]];
      assert IdSet(ids) == IdSet(front) + {last};
      BagUnion(rows, IdSet(front), {last}, |rows|);
      BagSingle(rows, last, |rows|);
    }
  }

  lemma {:induction false} BagNone(rows: seq<Row>, n: nat)
    requires n <= |rows|
    ensures BagOf(rows, {}, n) == multiset{}
  {
    if n > 0 { BagNone(rows, n - 1); }
  }

  /** The rows with the given ids, those among the targets with their column replaced. */
  function Rewritten(rows: seq<Row>, ids: set<nat>, targets: set<nat>, col: nat, v: Cell, n: nat): multiset<Row>
    requires n <= |rows|
  {
    if n == 0 then multiset{}
    else
      Rewritten(rows, ids, targets, col, v, n - 1) +
      if n - 1 !in ids then multiset{}
      else multiset{if n - 1 in targets then Replaced(rows[n - 1], col, v) else rows[n - 1]}
  }

  /** The replacements of those targets among the first n rows, as a bag. */
  function NewBag(rows: seq<Row>, targets: set<nat>, col: nat, v: Cell, n: nat): multiset<Row>
    requires n <= |rows|
  {
    if n == 0 then multiset{}
    else
      NewBag(rows, targets, col, v, n - 1) +
      if n - 1 in targets then multiset{Replaced(rows[n - 1], col, v)} else multiset{}
  }

  /** Rewriting keeps the rows outside the targets and puts in a replacement for each seen target. */
  lemma {:induction false} RewrittenParts(rows: seq<Row>, ids: set<nat>, targets: set<nat>, col: nat, v: Cell, n: nat)
    requires n <= |rows|
    ensures Rewritten(rows, ids, targets, col, v, n) ==
            BagOf(rows, ids - targets, n) + NewBag(rows, targets * ids, col, v, n)
  {
    if n > 0 { RewrittenParts(rows, ids, targets, col, v, n - 1); }
  }

  lemma {:induction false} NewBagSame(rows: seq<Row>, more: seq<Row>, a: set<nat>, b: set<nat>, col: nat, v: Cell, n: nat)
    requires n <= |rows| && forall j :: 0 <= j < n ==> (j in a <==> j in b)
    ensures NewBag(rows + more, a, col, v, n) == NewBag(rows, b, col, v, n)
  {
    if n > 0 { NewBagSame(rows, more, a, b, col, v, n - 1); }
  }

  ghost predicate AllBelow(ids: seq<nat>, n: nat) { forall r :: r in ids ==> r < n }

  lemma {:induction false} LastTarget(targets: seq<nat>, n: nat, front: seq<nat>)
    requires Ascending(targets) && AllBelow(targets, n) && n > 0 && n - 1 in targets
    requires front == targets[..|targets| - 1]
    ensures targets == front + [n - 1] && Ascending(front) && AllBelow(front, n - 1)
  {
    var k := |targets| - 1;
    assert targets[k] in targets;
  }

  /** The replacements made are one for each target. */
  lemma {:induction false} ReplacementsBag(rows: seq<Row>, targets: seq<nat>, col: nat, v: Cell, n: nat)
    requires n <= |rows| && Ascending(targets) && AllBelow(targets, n)
    ensures AllBelow(targets, |rows|)
    ensures multiset(Replacements(rows, targets, col, v)) == NewBag(rows, IdSet(targets), col, v, n)
    decreases n, 1
  {
    if n == 0 {
      assert targets == [] by { if targets != [] { NoTarget(targets); } }
    } else if n - 1 in targets {
      ReplacementsOne(rows, targets, col, v, n);
    } else {
      assert AllBelow(targets, n - 1) && n - 1 !in IdSet(targets);
      ReplacementsBag(rows, targets, col, v, n - 1);
    }
  }

  lemma {:induction false} ReplacementsOne(rows: seq<Row>, targets: seq<nat>, col: nat, v: Cell, n: nat)
    requires 0 < n <= |rows| && Ascending(targets) && AllBelow(targets, n) && n - 1 in targets
    ensures AllBelow(targets, |rows|)
    ensures multiset(Replacements(rows, targets, col, v)) == NewBag(rows, IdSet(targets), col, v, n)
    decreases n, 0
  {
    var front := targets[..|targets| - 1];
    LastTarget(targets, n, front);
    ReplacementsBag(rows, front, col, v, n - 1);
    ReplacementsLast(rows, front, col, v, n);
  }

  lemma {:induction false} ReplacementsLast(rows: seq<Row>, front: seq<nat>, col: nat, v: Cell, n: nat)
    requires 0 < n <= |rows| && AllBelow(front, n - 1)
    requires multiset(Replacements(rows, front, col, v)) == NewBag(rows, IdSet(front), col, v, n - 1)
    ensures AllBelow(front + [n - 1], |rows|)
    ensures multiset(Replacements(rows, front + [n - 1], col, v)) == NewBag(rows, IdSet(front + [n - 1]), col, v, n)
  {
    var all, last := front + [n - 1], Replaced(rows[n - 1], col, v);
    assert rows + [] == rows;
    NewBagSame(rows, [], IdSet(all), IdSet(front), col, v, n - 1);
    ReplacementsSnoc(rows, front, n - 1, col, v);
    assert n - 1 in IdSet(all);
  }

  lemma NoTarget(targets: seq<nat>)
    requires targets != []
    ensures exists r :: r in targets
  {
    assert targets[0] in targets;
  }

  lemma {:induction false} ReplacementsSnoc(rows: seq<Row>, targets: seq<nat>, last: nat, col: nat, v: Cell)
    requires last < |rows| && AllBelow(targets, |rows|)
    ensures AllBelow(targets + [last], |rows|)
    ensures Replacements(rows, targets + [last], col, v) ==
            Replacements(rows, targets, col, v) + [Replaced(rows[last], col, v)]
  {
  }

  lemma {:induction false} NewBagSplit(rows: seq<Row>, a: set<nat>, b: set<nat>, col: nat, v: Cell, n: nat)
    requires n <= |rows|
    ensures NewBag(rows, a, col, v, n) == NewBag(rows, a * b, col, v, n) + NewBag(rows, a - b, col, v, n)
  {
    if n > 0 { NewBagSplit(rows, a, b, col, v, n - 1); }
  }

  lemma {:induction false} NewBagEmpty(rows: seq<Row>, a: set<nat>, col: nat, v: Cell, n: nat)
    requires n <= |rows|
    ensures NewBag(rows, a, col, v, n) == multiset{} <==> forall j :: 0 <= j < n ==> j !in a
  {
    if n > 0 {
      NewBagEmpty(rows, a, col, v, n - 1);
      if n - 1 in a { assert Replaced(rows[n - 1], col, v) in NewBag(rows, a, col, v, n); }
    }
  }

  lemma NewBagBeyond(rows: seq<Row>, more: seq<Row>, a: set<nat>, col: nat, v: Cell, k: nat)
    requires (forall r :: r in a ==> r < |rows|) && k <= |more|
    ensures NewBag(rows + more, a, col, v, |rows| + k) == NewBag(rows, a, col, v, |rows|)
  {
    if k == 0 {
      NewBagSame(rows, more, a, a, col, v, |rows|);
    } else {
      NewBagBeyond(rows, more, a, col, v, k - 1);
    }
  }

  lemma {:induction false} RowsExtend(db: Db, steps: seq<Step>, t: nat)
    requires Run(db, steps) && t < |db.tables|
    ensures t < |After(db, steps).tables| && db.tables[t].rows <= After(db, steps).tables[t].rows
    decreases |steps|
  {
    if steps != [] {
      RowsStepExtend(db, steps[0], t);
      RowsExtend(Apply(db, steps[0]), steps[1..], t);
    }
  }

  lemma {:induction false} RowsStepExtend(db: Db, s: Step, t: nat)
    requires Enabled(db, s) && t < |db.tables|
    ensures t < |Apply(db, s).tables| && db.tables[t].rows <= Apply(db, s).tables[t].rows
  {
  }

  /**
   A transaction is about to commit and has, since db, done nothing to t but delete the targets and insert
   a changed row for each.  What it did to t before is its write set in db.
   */
  ghost predicate Updates(db: Db, steps: seq<Step>, tx: nat, t: nat, targets: seq<nat>, col: nat, v: Cell) {
    && tx in db.open && t < |db.tables|
    && Run(db, steps) && StaysOpen(steps, tx) && Enabled(After(db, steps), Commit(tx))
    && Ascending(targets) && AllBelow(targets, |db.tables[t].rows|)
    && Cut(steps, tx, t) == IdSet(targets)
    && AllChanged(db.tables[t].rows, targets, Put(steps, tx, t), col, v)
  }

  lemma {:induction false} UpdateNew(rows: seq<Row>, all: seq<Row>, targets: seq<nat>, col: nat, v: Cell)
    requires rows <= all && Ascending(targets) && AllBelow(targets, |rows|)
    ensures AllBelow(targets, |all|)
    ensures multiset(Replacements(rows, targets, col, v)) == NewBag(all, IdSet(targets), col, v, |all|)
  {
    ReplacementsBag(rows, targets, col, v, |rows|);
    var more := all[|rows|..];
    assert all == rows + more;
    NewBagBeyond(rows, more, IdSet(targets), col, v, |more|);
  }

  lemma {:induction false} UpdateSets(db: Db, h: Hist, steps: seq<Step>, tx: nat, t: nat, targets: seq<nat>, col: nat, v: Cell)
    requires Base(db, h) && Updates(db, steps, tx, t, targets, col, v)
    ensures t < |After(db, steps).tables|
    ensures SetOf(After(db, steps).tables[t], tx).del == SetOf(db.tables[t], tx).del + IdSet(targets)
    ensures var x := After(db, steps).tables[t];
            && Mine(After(db, steps), tx, t) == Mine(db, tx, t) + NewBag(x.rows, IdSet(targets), col, v, |x.rows|)
            && AllBelow(targets, |x.rows|)
  {
    OwnRun(db, h, steps, tx, t);
    RowsExtend(db, steps, t);
    ReplacementsOnly(db.tables[t].rows, targets, Put(steps, tx, t), col, v);
    UpdateNew(db.tables[t].rows, After(db, steps).tables[t].rows, targets, col, v);
  }

  /** Rows gone before, and rows gone now. */
  lemma {:induction false} GoneParts(rows: seq<Row>, seen: set<nat>, gone: set<nat>, targets: set<nat>)
    ensures BagOf(rows, seen, |rows|) == BagOf(rows, seen * gone, |rows|) + BagOf(rows, seen - gone, |rows|)
    ensures BagOf(rows, seen * (gone + targets), |rows|) ==
            BagOf(rows, seen * gone, |rows|) + BagOf(rows, (seen - gone) * targets, |rows|)
  {
    BagUnion(rows, seen * gone, seen - gone, |rows|);
    BagUnion(rows, seen * gone, (seen - gone) * targets, |rows|);
    assert seen == seen * gone + (seen - gone);
    assert seen * (gone + targets) == seen * gone + (seen - gone) * targets;
  }

  /** The bag equations behind UPDATE. */
  lemma {:induction false} RewriteExactly(rows: seq<Row>, seen: set<nat>, targets: set<nat>, col: nat, v: Cell, own: multiset<Row>, bag: multiset<Row>)
    requires forall r :: r in targets ==> r < |rows|
    requires bag + BagOf(rows, seen * targets, |rows|) == BagOf(rows, seen, |rows|) + (own + NewBag(rows, targets, col, v, |rows|))
    ensures bag == own + Rewritten(rows, seen, targets, col, v, |rows|) <==> targets <= seen
  {
    var n := |rows|;
    BagUnion(rows, seen - targets, seen * targets, n);
    assert seen == (seen - targets) + seen * targets;
    RewrittenParts(rows, seen, targets, col, v, n);
    NewBagSplit(rows, targets, seen, col, v, n);
    NewBagEmpty(rows, targets - seen, col, v, n);
    var a, b, c := BagOf(rows, seen - targets, n), NewBag(rows, targets * seen, col, v, n), NewBag(rows, targets - seen, col, v, n);
    Cancel(bag, BagOf(rows, seen * targets, n), a, b, c, own);
    if targets <= seen {
      assert targets - seen == {};
    } else {
      var j :| j in targets && j !in seen;
      assert j in targets - seen && j < n;
    }
  }

  lemma Cancel(bag: multiset<Row>, gone: multiset<Row>, a: multiset<Row>, b: multiset<Row>, c: multiset<Row>, own: multiset<Row>)
    requires bag + gone == (a + gone) + (own + (b + c))
    ensures bag == own + (a + b) <==> c == multiset{}
  {
    forall r ensures bag[r] == own[r] + a[r] + b[r] + c[r] {
      assert (bag + gone)[r] == ((a + gone) + (own + (b + c)))[r];
    }
    if bag == own + (a + b) {
      forall r ensures c[r] == 0 { assert bag[r] == own[r] + a[r] + b[r]; }
    }
  }

  /** What is left when rows gone before do not count. */
  lemma CancelGone(bag: multiset<Row>, before: multiset<Row>, now: multiset<Row>, left: multiset<Row>, own: multiset<Row>)
    requires bag + (before + now) == (before + left) + own
    ensures bag + now == left + own
  {
    forall r ensures (bag + now)[r] == (left + own)[r] { assert (bag + (before + now))[r] == ((before + left) + own)[r]; }
  }

  lemma {:induction false} TargetsSeen(x: Table, targets: seq<nat>, gone: set<nat>, q: nat)
    requires AllBelow(targets, |x.rows|)
    ensures IdSet(targets) <= SeenIds(x, q) - gone <==> forall r :: r in targets ==> Sees(x, r, q) && r !in gone
  {
    forall r | r in targets ensures r in SeenIds(x, q) <==> Sees(x, r, q) {}
    if IdSet(targets) <= SeenIds(x, q) - gone {
      forall r | r in targets ensures Sees(x, r, q) && r !in gone { assert r in IdSet(targets); }
    }
  }

  /**
   UPDATE is an atomic rewrite.  Whatever others do until the commit: snapshots before it find the same
   bag as without it.  From it on, readers find the rows that the transaction inserted before, and the
   others less those it deleted before, with the column replaced in exactly the targets, if and only if no
   target has been deleted meanwhile, by others or before by the transaction itself.
   */
  lemma {:induction false} UpdateAtomic(db: Db, h: Hist, steps: seq<Step>, tx: nat, t: nat, targets: seq<nat>, col: nat, v: Cell, q: nat)
    requires Base(db, h) && Updates(db, steps, tx, t, targets, col, v)
    ensures var d := After(db, steps);
            && t < |d.tables| && t < |Apply(d, Commit(tx)).tables|
            && var x, y, gone := d.tables[t], Apply(d, Commit(tx)).tables[t], SetOf(db.tables[t], tx).del;
               if q <= d.ts then Bag(y, q) == Bag(x, q)
               else
                 Bag(y, q) == Mine(db, tx, t) + Rewritten(x.rows, SeenIds(x, q) - gone, IdSet(targets), col, v, |x.rows|) <==>
                 forall r :: r in targets ==> Sees(x, r, q) && r !in gone
  {
    var d := After(db, steps);
    UpdateSets(db, h, steps, tx, t, targets, col, v);
    var g := HistOf(h, db, steps);
    BaseRun(db, h, steps);
    CommitBag(d, g, tx, t, q);
    if q > d.ts {
      var x, y := d.tables[t], Apply(d, Commit(tx)).tables[t];
      CommittedRewrite(x, SetOf(db.tables[t], tx).del, targets, col, v, q, Mine(db, tx, t), Bag(y, q));
    }
  }

  lemma {:induction false} CommittedRewrite(x: Table, gone: set<nat>, targets: seq<nat>, col: nat, v: Cell, q: nat, own: multiset<Row>, bag: multiset<Row>)
    requires AllBelow(targets, |x.rows|)
    requires bag + BagOf(x.rows, SeenIds(x, q) * (gone + IdSet(targets)), |x.rows|) ==
             Bag(x, q) + (own + NewBag(x.rows, IdSet(targets), col, v, |x.rows|))
    ensures bag == own + Rewritten(x.rows, SeenIds(x, q) - gone, IdSet(targets), col, v, |x.rows|) <==>
            forall r :: r in targets ==> Sees(x, r, q) && r !in gone
  {
    var seen, ids, n := SeenIds(x, q), IdSet(targets), |x.rows|;
    GoneParts(x.rows, seen, gone, ids);
    CancelGone(bag, BagOf(x.rows, seen * gone, n), BagOf(x.rows, (seen - gone) * ids, n), BagOf(x.rows, seen - gone, n),
               own + NewBag(x.rows, ids, col, v, n));
    RewriteExactly(x.rows, seen - gone, ids, col, v, own, bag);
    TargetsSeen(x, targets, gone, q);
  }

  /**
   The cells that readers find.  From the commit on, the table holds the rows that the transaction inserted
   before, the other rows as they were, and for each target one row with the value in the column and the old
   cell in every other.  Those take the place of the targets, one for one, if and only if all targets were
   still there.
   */
  lemma {:induction false} UpdateCells(db: Db, h: Hist, steps: seq<Step>, tx: nat, t: nat, targets: seq<nat>, col: nat, v: Cell,
                                       news: seq<Row>, q: nat)
    requires Base(db, h) && Updates(db, steps, tx, t, targets, col, v) && q > After(db, steps).ts
    requires AllChanged(db.tables[t].rows, targets, news, col, v)
    ensures var d := After(db, steps);
            && t < |d.tables| && t < |Apply(d, Commit(tx)).tables|
            && var x, y := d.tables[t], Apply(d, Commit(tx)).tables[t];
               var left := SeenIds(x, q) - SetOf(db.tables[t], tx).del;
               var others := BagOf(x.rows, left - IdSet(targets), |x.rows|);
               && AllBelow(targets, |x.rows|)
               && Bag(y, q) == Mine(db, tx, t) + others + multiset(news)
               && (BagOf(x.rows, left, |x.rows|) == others + multiset(RowsOf(x.rows, targets)) <==>
                     forall r :: r in targets ==> Sees(x, r, q) && r !in SetOf(db.tables[t], tx).del)
  {
    var d, gone := After(db, steps), SetOf(db.tables[t], tx).del;
    UpdateSets(db, h, steps, tx, t, targets, col, v);
    RowsExtend(db, steps, t);
    BaseRun(db, h, steps);
    CommitBag(d, HistOf(h, db, steps), tx, t, q);
    var x, y := d.tables[t], Apply(d, Commit(tx)).tables[t];
    ReplacementsOnly(db.tables[t].rows, targets, news, col, v);
    UpdateNew(db.tables[t].rows, x.rows, targets, col, v);
    FoundCells(x, gone, targets, q, Mine(db, tx, t), multiset(news), Bag(y, q));
    TargetsThere(x.rows, SeenIds(x, q) - gone, targets);
    TargetsSeen(x, targets, gone, q);
  }

  lemma {:induction false} FoundCells(x: Table, gone: set<nat>, targets: seq<nat>, q: nat, own: multiset<Row>, news: multiset<Row>, bag: multiset<Row>)
    requires AllBelow(targets, |x.rows|)
    requires bag + BagOf(x.rows, SeenIds(x, q) * (gone + IdSet(targets)), |x.rows|) == Bag(x, q) + (own + news)
    ensures bag == own + BagOf(x.rows, SeenIds(x, q) - gone - IdSet(targets), |x.rows|) + news
  {
    var seen, ids, n := SeenIds(x, q), IdSet(targets), |x.rows|;
    var left := seen - gone;
    GoneParts(x.rows, seen, gone, ids);
    CancelGone(bag, BagOf(x.rows, seen * gone, n), BagOf(x.rows, left * ids, n), BagOf(x.rows, left, n), own + news);
    BagUnion(x.rows, left - ids, left * ids, n);
    assert left == (left - ids) + left * ids;
    CancelHidden(bag, BagOf(x.rows, left * ids, n), BagOf(x.rows, left - ids, n), own, news);
  }

  lemma CancelHidden(bag: multiset<Row>, hidden: multiset<Row>, others: multiset<Row>, own: multiset<Row>, news: multiset<Row>)
    requires bag + hidden == (others + hidden) + (own + news)
    ensures bag == own + others + news
  {
    forall r ensures bag[r] == (own + others + news)[r] { assert (bag + hidden)[r] == ((others + hidden) + (own + news))[r]; }
  }

  /** Ids make up the rest and the targets if and only if the targets are among them. */
  lemma {:induction false} TargetsThere(rows: seq<Row>, left: set<nat>, targets: seq<nat>)
    requires Ascending(targets) && AllBelow(targets, |rows|)
    ensures BagOf(rows, left, |rows|) == BagOf(rows, left - IdSet(targets), |rows|) + multiset(RowsOf(rows, targets)) <==>
            IdSet(targets) <= left
  {
    var ids, n := IdSet(targets), |rows|;
    RowsOfBag(rows, targets);
    BagUnion(rows, left - ids, left * ids, n);
    BagUnion(rows, ids * left, ids - left, n);
    assert left == (left - ids) + left * ids && ids == ids * left + (ids - left) && ids * left == left * ids;
    var missing := BagOf(rows, ids - left, n);
    if ids <= left {
      assert ids - left == {};
      BagNone(rows, n);
    } else {
      var j :| j in ids && j !in left;
      BagNotEmpty(rows, ids - left, n, j);
      TooMany(BagOf(rows, left - ids, n), BagOf(rows, left * ids, n), missing);
    }
  }

  lemma TooMany(a: multiset<Row>, b: multiset<Row>, missing: multiset<Row>)
    requires missing != multiset{}
    ensures a + b != a + (b + missing)
  {
    var r :| r in missing;
    assert (a + b)[r] < (a + (b + missing))[r];
  }

  lemma {:induction false} BagNotEmpty(rows: seq<Row>, ids: set<nat>, n: nat, j: nat)
    requires j < n <= |rows| && j in ids
    ensures BagOf(rows, ids, n) != multiset{}
  {
    if j == n - 1 { assert rows[j] in BagOf(rows, ids, n); } else { BagNotEmpty(rows, ids, n - 1, j); }
  }

  lemma {:induction false} BaseRun(db: Db, h: Hist, steps: seq<Step>)
    requires Base(db, h) && Run(db, steps)
    ensures Base(After(db, steps), HistOf(h, db, steps))
    decreases |steps|
  {
    if steps != [] {
      BaseStep(db, h, steps[0]);
      BaseRun(Apply(db, steps[0]), Next(h, db, steps[0]), steps[1..]);
    }
  }

  // ── A target deleted meanwhile ──

  const VAL_B: Cell := [9]
  const ROW_B: Row := [VAL_B]
  const F1: nat := FLAG + 1
  const F2: nat := FLAG + 2

  /** The table with one committed row, after the UPDATE of transaction 1, and after the deletion of transaction 2. */
  function Written(): Table { InsertTx(DeleteTx(Kept(), 1, [0]), 1, ROW_B) }
  function Both(): Table { DeleteTx(Written(), 2, [0]) }
  function InOrder3(): seq<Ver> { [Ver(0, F2, TOMB), Ver(0, F1, TOMB), Ver(0, 1, 0)] }

  lemma {:induction false} MarkedIs()
    ensures DeleteTx(Kept(), 1, [0]).index == [Ver(0, 1, 0), Ver(0, F1, TOMB)]
    ensures DeleteTx(Kept(), 1, [0]).rows == [ROW_A] && 2 !in DeleteTx(Kept(), 1, [0]).ws
  {
    KeptIs();
    assert TombVers([0], F1) == [Ver(0, F1, TOMB)];
    assert [Ver(0, 1, 0)] + [Ver(0, F1, TOMB)] == [Ver(0, 1, 0), Ver(0, F1, TOMB)];
  }

  lemma {:induction false} WrittenIs()
    ensures Written().index == [Ver(0, 1, 0), Ver(0, F1, TOMB)] && Written().rows == [ROW_A, ROW_B] && 2 !in Written().ws
  {
    MarkedIs();
    TableInsert(DeleteTx(Kept(), 1, [0]), 1, ROW_B, 1);
    assert [ROW_A] + [ROW_B] == [ROW_A, ROW_B];
  }

  lemma {:induction false} StillSeen(es: seq<Ver>)
    requires es == [Ver(0, 1, 0), Ver(0, F1, TOMB)]
    ensures Visible(es, 0, 1)
  {
    assert es[..1] == [Ver(0, 1, 0)] && es[..1][..0] == [];
    assert Lookup(es[..1], 0, 1) == Some(Ver(0, 1, 0));
    assert Lookup(es, 0, 1) == Some(Ver(0, 1, 0));
  }

  lemma {:induction false} BothIs()
    ensures Both().index == [Ver(0, 1, 0), Ver(0, F1, TOMB), Ver(0, F2, TOMB)]
  {
    WrittenIs();
    assert TombVers([0], F2) == [Ver(0, F2, TOMB)];
    assert [Ver(0, 1, 0), Ver(0, F1, TOMB)] + [Ver(0, F2, TOMB)] == [Ver(0, 1, 0), Ver(0, F1, TOMB), Ver(0, F2, TOMB)];
  }

  lemma {:induction false} BothDeletes()
    ensures 0 in SetOf(Both(), 2).del && 0 !in SetOf(Both(), 2).ins
  {
    WrittenIs();
    SetOfDelete(Written(), 2, [0], 2, 0, true);
    SetOfDelete(Written(), 2, [0], 2, 0, false);
  }

  lemma {:induction false} OrderSorted()
    ensures Sorted(InOrder3())
  {
  }

  lemma {:induction false} BothSorted()
    ensures Sorted(InOrder3()) && Permuted(Both().index, InOrder3())
  {
    BothIs();
    OrderSorted();
    Reversed3(Ver(0, 1, 0), Ver(0, F1, TOMB), Ver(0, F2, TOMB));
  }

  lemma Reversed3(a: Ver, b: Ver, c: Ver)
    ensures multiset([a, b, c]) == multiset([c, b, a])
  {
    assert multiset([a, b, c]) == multiset{a, b, c} && multiset([c, b, a]) == multiset{a, b, c};
  }

  /** One committed row, and two transactions with snapshot 1. */
  lemma {:induction false} TwoOpen() returns (db: Db, h: Hist)
    ensures Reachable(db) && Base(db, h) && At(db, Kept(), 1, OPEN)
  {
    db := ReachBefore();
    db := ReachStep(db, Begin);
    db := ReachStep(db, Begin);
    var steps :| Run(START, steps) && After(START, steps) == db;
    h := HistOf(NOTHING, START, steps);
    StartTied(0);
    BaseRun(START, NOTHING, steps);
  }

  /** Transaction 1 updates the row; transaction 2 deletes it and commits. */
  function Race1(): seq<Step> { [Step.Delete(1, 0, [0])] }
  function Race2(): seq<Step> { Race1() + [Insert(1, 0, ROW_B)] }
  function Race3(): seq<Step> { Race2() + [Step.Delete(2, 0, [0])] }
  function Race4(): seq<Step> { Race3() + [SortTable(0, InOrder3())] }
  function Race(): seq<Step> { Race4() + [Commit(2)] }

  /** A database with this one table and, of transactions 1 and 2 with snapshot 1, these open. */
  ghost predicate At(db: Db, x: Table, ts: nat, open: map<nat, nat>) {
    db.tables == [x] && db.ts == ts && db.nextTx == 3 && db.open == open
  }

  const OPEN: map<nat, nat> := map[1 := 1, 2 := 1]

  lemma {:induction false} DeleteAt(db: Db, x: Table, tx: nat)
    requires At(db, x, 1, OPEN) && (tx == 1 || tx == 2) && Targets(x, [0], 1)
    ensures Enabled(db, Step.Delete(tx, 0, [0])) && At(Apply(db, Step.Delete(tx, 0, [0])), DeleteTx(x, tx, [0]), 1, OPEN)
  {
  }

  lemma {:induction false} InsertAt(db: Db, x: Table)
    requires At(db, x, 1, OPEN)
    ensures Enabled(db, Insert(1, 0, ROW_B)) && At(Apply(db, Insert(1, 0, ROW_B)), InsertTx(x, 1, ROW_B), 1, OPEN)
  {
  }

  lemma {:induction false} SortAt(db: Db, x: Table, order: seq<Ver>)
    requires At(db, x, 1, OPEN) && Sorted(order) && Permuted(x.index, order)
    ensures Enabled(db, SortTable(0, order)) && At(Apply(db, SortTable(0, order)), Resort(x, order), 1, OPEN)
  {
  }

  lemma {:induction false} CommitAt(db: Db, x: Table)
    requires At(db, x, 1, OPEN) && !x.dirty
    ensures Enabled(db, Commit(2)) && At(Apply(db, Commit(2)), Finish(x, 2, 2), 2, OPEN - {2})
    ensures !Finish(x, 2, 2).dirty
  {
  }

  lemma {:induction false} RaceUpdates(db: Db)
    requires At(db, Kept(), 1, OPEN)
    ensures Run(db, Race2()) && At(After(db, Race2()), Written(), 1, OPEN)
  {
    DoomedIs();
    assert Run(db, []) && After(db, []) == db;
    DeleteAt(db, Kept(), 1);
    RunSnoc(db, [], Step.Delete(1, 0, [0]));
    assert [] + [Step.Delete(1, 0, [0])] == Race1();
    InsertAt(After(db, Race1()), DeleteTx(Kept(), 1, [0]));
    RunSnoc(db, Race1(), Insert(1, 0, ROW_B));
  }

  lemma {:induction false} WrittenTarget()
    ensures Targets(Written(), [0], 1)
  {
    WrittenIs();
    StillSeen(Written().index);
  }

  lemma {:induction false} RaceDeletes(db: Db)
    requires At(db, Kept(), 1, OPEN)
    ensures Run(db, Race4()) && At(After(db, Race4()), Resort(Both(), InOrder3()), 1, OPEN)
  {
    RaceUpdates(db);
    WrittenTarget();
    DeleteAt(After(db, Race2()), Written(), 2);
    RunSnoc(db, Race2(), Step.Delete(2, 0, [0]));
    BothSorted();
    SortAt(After(db, Race3()), Both(), InOrder3());
    RunSnoc(db, Race3(), SortTable(0, InOrder3()));
  }

  lemma {:induction false} RaceRuns(db: Db)
    requires At(db, Kept(), 1, OPEN)
    ensures Run(db, Race()) && At(After(db, Race()), Finish(Resort(Both(), InOrder3()), 2, 2), 2, OPEN - {2})
    ensures !Finish(Resort(Both(), InOrder3()), 2, 2).dirty
  {
    RaceDeletes(db);
    CommitAt(After(db, Race4()), Resort(Both(), InOrder3()));
    RunSnoc(db, Race4(), Commit(2));
  }

  lemma {:induction false} LastEnabled(db: Db, x: Table)
    requires At(db, x, 2, OPEN - {2}) && !x.dirty
    ensures Enabled(db, Commit(1))
  {
  }

  lemma {:induction false} DidSnoc(steps: seq<Step>, s: Step, tx: nat, t: nat)
    ensures Put(steps + [s], tx, t) == Put(steps, tx, t) + Puts(s, tx, t)
    ensures Cut(steps + [s], tx, t) == Cut(steps, tx, t) + Cuts(s, tx, t)
  {
    if steps == [] {
      assert [] + [s] == [s] && [s][1..] == [];
    } else {
      assert (steps + [s])[1..] == steps[1..] + [s];
      DidSnoc(steps[1..], s, tx, t);
    }
  }

  lemma {:induction false} RaceFirst()
    ensures Put(Race2(), 1, 0) == [ROW_B] && Cut(Race2(), 1, 0) == {0}
  {
    DidSnoc([], Step.Delete(1, 0, [0]), 1, 0);
    assert [] + [Step.Delete(1, 0, [0])] == Race1();
    DidSnoc(Race1(), Insert(1, 0, ROW_B), 1, 0);
  }

  lemma {:induction false} RaceDid()
    ensures Put(Race(), 1, 0) == [ROW_B] && Cut(Race(), 1, 0) == {0} && StaysOpen(Race(), 1)
  {
    RaceFirst();
    DidSnoc(Race2(), Step.Delete(2, 0, [0]), 1, 0);
    DidSnoc(Race3(), SortTable(0, InOrder3()), 1, 0);
    DidSnoc(Race4(), Commit(2), 1, 0);
  }

  lemma {:induction false} MakesUpdate(db: Db, x: Table, steps: seq<Step>)
    requires At(db, x, 1, OPEN) && x.rows == [ROW_A]
    requires Run(db, steps) && StaysOpen(steps, 1) && Enabled(After(db, steps), Commit(1))
    requires Put(steps, 1, 0) == [ROW_B] && Cut(steps, 1, 0) == {0}
    ensures Updates(db, steps, 1, 0, [0], 0, VAL_B)
  {
    NewRow();
    ReplacementsOnly([ROW_A], [0], [ROW_B], 0, VAL_B);
    assert IdSet([0]) == {0};
  }

  lemma {:induction false} NewRow()
    ensures Replacements([ROW_A], [0], 0, VAL_B) == [ROW_B]
  {
    assert Replaced(ROW_A, 0, VAL_B) == ROW_B;
  }

  lemma {:induction false} KeptFacts()
    ensures Kept().rows == [ROW_A] && SetOf(Kept(), 1) == WriteSet([], {}, {})
  {
    KeptIs();
  }

  lemma {:induction false} RaceIsUpdate(db: Db)
    requires At(db, Kept(), 1, OPEN)
    ensures Updates(db, Race(), 1, 0, [0], 0, VAL_B)
  {
    RaceRuns(db);
    RaceDid();
    KeptFacts();
    LastEnabled(After(db, Race()), Finish(Resort(Both(), InOrder3()), 2, 2));
    MakesUpdate(db, Kept(), Race());
  }

  lemma {:induction false} RaceUnseen(db: Db, h: Hist)
    requires Base(db, h) && At(db, Kept(), 1, OPEN)
    ensures Run(db, Race()) && |After(db, Race()).tables| == 1 && !Sees(After(db, Race()).tables[0], 0, 3)
  {
    RaceRuns(db);
    RaceDeletes(db);
    BaseRun(db, h, Race4());
    BothDeletes();
    CommitAt(After(db, Race4()), Resort(Both(), InOrder3()));
    CommitAtomic(After(db, Race4()), 2, 0, 0, 3);
    RunSnoc(db, Race4(), Commit(2));
    assert SetOf(Resort(Both(), InOrder3()), 2) == SetOf(Both(), 2);
  }

  /**
   A reachable state from which transaction 1 updates a row that transaction 2 deletes, and commits first:
   at its own commit the target is no longer there, so the replacement comes out of nothing.
   */
  lemma {:induction false} UpdateRaces() returns (db: Db, h: Hist)
    ensures Reachable(db) && Base(db, h) && Updates(db, Race(), 1, 0, [0], 0, VAL_B) && db.tables == [Kept()]
    ensures After(db, Race()).ts == 2 && |After(db, Race()).tables| == 1 && !Sees(After(db, Race()).tables[0], 0, 3)
    ensures var x, y := After(db, Race()).tables[0], Apply(After(db, Race()), Commit(1)).tables[0];
            Bag(y, 3) != Mine(db, 1, 0) + Rewritten(x.rows, SeenIds(x, 3) - SetOf(Kept(), 1).del, IdSet([0]), 0, VAL_B, |x.rows|)
  {
    db, h := TwoOpen();
    RaceIsUpdate(db);
    RaceRuns(db);
    RaceUnseen(db, h);
    UpdateAtomic(db, h, Race(), 1, 0, [0], 0, VAL_B, 3);
    assert 0 in [0];
  }

  // ── The same row updated twice by one transaction ──

  const VAL_C: Cell := [10]
  const ROW_C: Row := [VAL_C]

  /** The table of a transaction that has updated its row, and then deletes it again, inserts again and commits. */
  function Marked2(): Table { DeleteTx(Written(), 1, [0]) }
  function Twice(): Table { InsertTx(Marked2(), 1, ROW_C) }
  function InOrderTwice(): seq<Ver> { [Ver(0, F1, TOMB), Ver(0, F1, TOMB), Ver(0, 1, 0)] }

  lemma {:induction false} Marked2Is()
    ensures Marked2().index == [Ver(0, 1, 0), Ver(0, F1, TOMB), Ver(0, F1, TOMB)] && Marked2().rows == [ROW_A, ROW_B]
  {
    WrittenIs();
    assert TombVers([0], F1) == [Ver(0, F1, TOMB)];
    assert [Ver(0, 1, 0), Ver(0, F1, TOMB)] + [Ver(0, F1, TOMB)] == [Ver(0, 1, 0), Ver(0, F1, TOMB), Ver(0, F1, TOMB)];
  }

  lemma {:induction false} TwiceIs()
    ensures Twice().index == [Ver(0, 1, 0), Ver(0, F1, TOMB), Ver(0, F1, TOMB)] && Twice().rows == [ROW_A, ROW_B, ROW_C]
  {
    Marked2Is();
    TableInsert(Marked2(), 1, ROW_C, 1);
    assert [ROW_A, ROW_B] + [ROW_C] == [ROW_A, ROW_B, ROW_C];
  }

  lemma {:induction false} TwiceOrder()
    ensures Sorted(InOrderTwice())
  {
  }

  lemma {:induction false} TwicePermuted()
    ensures Permuted(Twice().index, InOrderTwice())
  {
    TwiceIs();
    Reversed3(Ver(0, 1, 0), Ver(0, F1, TOMB), Ver(0, F1, TOMB));
  }

  function Again1(): seq<Step> { [Step.Delete(1, 0, [0])] }
  function Again2(): seq<Step> { Again1() + [Insert(1, 0, ROW_C)] }
  function AgainSorted(): seq<Step> { Again2() + [SortTable(0, InOrderTwice())] }

  lemma {:induction false} InsertC(db: Db, x: Table)
    requires At(db, x, 1, OPEN)
    ensures Enabled(db, Insert(1, 0, ROW_C)) && At(Apply(db, Insert(1, 0, ROW_C)), InsertTx(x, 1, ROW_C), 1, OPEN)
  {
  }

  lemma {:induction false} AgainWrites(db: Db)
    requires At(db, Written(), 1, OPEN)
    ensures Run(db, Again2()) && At(After(db, Again2()), Twice(), 1, OPEN)
  {
    assert Run(db, []) && After(db, []) == db;
    WrittenTarget();
    DeleteAt(db, Written(), 1);
    RunSnoc(db, [], Step.Delete(1, 0, [0]));
    assert [] + [Step.Delete(1, 0, [0])] == Again1();
    InsertC(After(db, Again1()), Marked2());
    RunSnoc(db, Again1(), Insert(1, 0, ROW_C));
  }

  lemma {:induction false} FirstEnabled(db: Db, x: Table)
    requires At(db, x, 1, OPEN) && !x.dirty
    ensures Enabled(db, Commit(1))
  {
  }

  lemma {:induction false} AgainRuns(db: Db)
    requires At(db, Written(), 1, OPEN)
    ensures Run(db, AgainSorted()) && At(After(db, AgainSorted()), Resort(Twice(), InOrderTwice()), 1, OPEN)
    ensures Enabled(After(db, AgainSorted()), Commit(1))
  {
    AgainWrites(db);
    TwiceOrder();
    TwicePermuted();
    SortAt(After(db, Again2()), Twice(), InOrderTwice());
    RunSnoc(db, Again2(), SortTable(0, InOrderTwice()));
    FirstEnabled(After(db, AgainSorted()), Resort(Twice(), InOrderTwice()));
  }

  lemma {:induction false} AgainDid()
    ensures Put(AgainSorted(), 1, 0) == [ROW_C] && Cut(AgainSorted(), 1, 0) == {0} && StaysOpen(AgainSorted(), 1)
  {
    DidSnoc([], Step.Delete(1, 0, [0]), 1, 0);
    assert [] + [Step.Delete(1, 0, [0])] == Again1();
    DidSnoc(Again1(), Insert(1, 0, ROW_C), 1, 0);
    DidSnoc(Again2(), SortTable(0, InOrderTwice()), 1, 0);
  }

  lemma {:induction false} AgainUpdates(db: Db)
    requires At(db, Written(), 1, OPEN)
    ensures Updates(db, AgainSorted(), 1, 0, [0], 0, VAL_C)
  {
    AgainRuns(db);
    AgainDid();
    WrittenIs();
    NewRowC();
    ReplacementsOnly([ROW_A, ROW_B], [0], [ROW_C], 0, VAL_C);
  }

  lemma {:induction false} NewRowC()
    ensures Ascending([0]) && AllBelow([0], 2) && IdSet([0]) == {0} && Replacements([ROW_A, ROW_B], [0], 0, VAL_C) == [ROW_C]
  {
    assert Replaced(ROW_A, 0, VAL_C) == ROW_C;
  }

  /** What the first update left in the write set. */
  lemma {:induction false} FirstLeft(db: Db, h: Hist)
    requires Base(db, h) && At(db, Kept(), 1, OPEN)
    ensures Run(db, Race2()) && At(After(db, Race2()), Written(), 1, OPEN)
    ensures SetOf(Written(), 1).del == {0} && Mine(After(db, Race2()), 1, 0) == multiset{ROW_B}
  {
    RaceUpdates(db);
    RaceFirst();
    NothingOwn();
    OwnRun(db, h, Race2(), 1, 0);
    assert multiset([ROW_B]) == multiset{ROW_B};
  }

  lemma {:induction false} NothingOwn()
    ensures SetOf(Kept(), 1).del == {} && BagOf(Kept().rows, SetOf(Kept(), 1).ins, |Kept().rows|) == multiset{}
  {
    KeptIs();
    assert BagOf([ROW_A], {}, 0) == multiset{};
  }

  /** The bag of the table at the end: the row as seen, and both replacements. */
  lemma {:induction false} OneSeen(rows: seq<Row>, seen: set<nat>)
    requires rows == [ROW_A, ROW_B, ROW_C] && 1 !in seen && 2 !in seen
    ensures BagOf(rows, seen, 3) == if 0 in seen then multiset{ROW_A} else multiset{}
  {
    assert BagOf(rows, seen, 0) == multiset{};
    assert BagOf(rows, seen, 1) == if 0 in seen then multiset{ROW_A} else multiset{};
    assert BagOf(rows, seen, 2) == BagOf(rows, seen, 1);
  }

  /** The rows of the transaction are its insertions, which nobody sees. */
  lemma {:induction false} TwiceInserts()
    ensures 1 in SetOf(Twice(), 1).ins && 2 in SetOf(Twice(), 1).ins
  {
    MarkedIs();
    Marked2Is();
    TableInsert(DeleteTx(Kept(), 1, [0]), 1, ROW_B, 1);
    TableInsert(Marked2(), 1, ROW_C, 1);
    SetOfDelete(Written(), 1, [0], 1, 1, false);
  }

  lemma {:induction false} TwiceOwn(db: Db, h: Hist)
    requires Base(db, h) && At(db, Written(), 1, OPEN)
    ensures var x := Resort(Twice(), InOrderTwice());
            && Run(db, AgainSorted()) && At(After(db, AgainSorted()), x, 1, OPEN)
            && x.rows == [ROW_A, ROW_B, ROW_C] && 1 !in SeenIds(x, 2) && 2 !in SeenIds(x, 2)
  {
    AgainRuns(db);
    TwiceIs();
    BaseRun(db, h, AgainSorted());
    TwiceInserts();
    var d, g, x := After(db, AgainSorted()), HistOf(h, db, AgainSorted()), Resort(Twice(), InOrderTwice());
    assert SetOf(x, 1) == SetOf(Twice(), 1);
    OwnUnseen(d, g, 1, 0, 1, 2);
    OwnUnseen(d, g, 1, 0, 2, 2);
  }

  /**
   A reachable state in which transaction 1 has updated a row, and updates it again: the second statement
   finds the row at the snapshot once more, and readers then find both replacements.
   */
  lemma {:induction false} UpdatedTwice() returns (db: Db, h: Hist)
    ensures Reachable(db) && Base(db, h) && db.tables == [Written()] && Updates(db, AgainSorted(), 1, 0, [0], 0, VAL_C)
    ensures |Apply(After(db, AgainSorted()), Commit(1)).tables| == 1
    ensures Bag(Apply(After(db, AgainSorted()), Commit(1)).tables[0], 2) == multiset{ROW_B, ROW_C}
  {
    var start, g := TwoOpen();
    FirstLeft(start, g);
    BaseRun(start, g, Race2());
    db, h := After(start, Race2()), HistOf(g, start, Race2());
    RunReachable(start, Race2());
    AgainUpdates(db);
    TwiceOwn(db, h);
    TwiceBag(db, h, Resort(Twice(), InOrderTwice()));
  }

  /** The two replacements, and the one target, in the write set at the end. */
  lemma {:induction false} TwiceSets(db: Db, h: Hist, x: Table)
    requires Base(db, h) && At(db, Written(), 1, OPEN) && Updates(db, AgainSorted(), 1, 0, [0], 0, VAL_C)
    requires SetOf(Written(), 1).del == {0} && Mine(db, 1, 0) == multiset{ROW_B}
    requires At(After(db, AgainSorted()), x, 1, OPEN) && x.rows == [ROW_A, ROW_B, ROW_C]
    ensures SetOf(x, 1).del == {0} && BagOf(x.rows, SetOf(x, 1).ins, 3) == multiset{ROW_B} + multiset{ROW_C}
  {
    TwiceMine(db, h, x);
    OneNew(x.rows);
  }

  lemma {:induction false} TwiceMine(db: Db, h: Hist, x: Table)
    requires Base(db, h) && At(db, Written(), 1, OPEN) && Updates(db, AgainSorted(), 1, 0, [0], 0, VAL_C)
    requires At(After(db, AgainSorted()), x, 1, OPEN)
    ensures SetOf(x, 1).del == SetOf(Written(), 1).del + IdSet([0])
    ensures BagOf(x.rows, SetOf(x, 1).ins, |x.rows|) == Mine(db, 1, 0) + NewBag(x.rows, IdSet([0]), 0, VAL_C, |x.rows|)
  {
    UpdateSets(db, h, AgainSorted(), 1, 0, [0], 0, VAL_C);
  }

  lemma {:induction false} TwiceBag(db: Db, h: Hist, x: Table)
    requires Base(db, h) && At(db, Written(), 1, OPEN) && Updates(db, AgainSorted(), 1, 0, [0], 0, VAL_C)
    requires SetOf(Written(), 1).del == {0} && Mine(db, 1, 0) == multiset{ROW_B}
    requires At(After(db, AgainSorted()), x, 1, OPEN) && x.rows == [ROW_A, ROW_B, ROW_C]
    requires 1 !in SeenIds(x, 2) && 2 !in SeenIds(x, 2)
    ensures |Apply(After(db, AgainSorted()), Commit(1)).tables| == 1
    ensures Bag(Apply(After(db, AgainSorted()), Commit(1)).tables[0], 2) == multiset{ROW_B, ROW_C}
  {
    var d := After(db, AgainSorted());
    TwiceSets(db, h, x);
    BaseRun(db, h, AgainSorted());
    CommitBag(d, HistOf(h, db, AgainSorted()), 1, 0, 2);
    BothLeft(x, Bag(Apply(d, Commit(1)).tables[0], 2), BagOf(x.rows, SetOf(x, 1).ins, 3));
  }

  lemma {:induction false} BothLeft(x: Table, bag: multiset<Row>, own: multiset<Row>)
    requires x.rows == [ROW_A, ROW_B, ROW_C] && 1 !in SeenIds(x, 2) && 2 !in SeenIds(x, 2) && own == multiset{ROW_B} + multiset{ROW_C}
    requires bag + BagOf(x.rows, SeenIds(x, 2) * {0}, 3) == Bag(x, 2) + own
    ensures bag == multiset{ROW_B, ROW_C}
  {
    OneSeen(x.rows, SeenIds(x, 2));
    OneSeen(x.rows, SeenIds(x, 2) * {0});
    forall r ensures bag[r] == own[r] { assert (bag + BagOf(x.rows, SeenIds(x, 2) * {0}, 3))[r] == (Bag(x, 2) + own)[r]; }
  }

  lemma {:induction false} OneNew(rows: seq<Row>)
    requires rows == [ROW_A, ROW_B, ROW_C]
    ensures IdSet([0]) == {0} && NewBag(rows, IdSet([0]), 0, VAL_C, |rows|) == multiset{ROW_C}
  {
    assert IdSet([0]) == {0};
    assert Replaced(ROW_A, 0, VAL_C) == ROW_C;
    assert NewBag(rows, {0}, 0, VAL_C, 0) == multiset{};
    assert NewBag(rows, {0}, 0, VAL_C, 1) == multiset{ROW_C};
    assert NewBag(rows, {0}, 0, VAL_C, 2) == multiset{ROW_C};
  }

  lemma {:induction false} RunReachable(db: Db, steps: seq<Step>)
    requires Reachable(db) && Run(db, steps)
    ensures Reachable(After(db, steps))
    decreases |steps|
  {
    if steps != [] {
      var d := ReachStep(db, steps[0]);
      RunReachable(d, steps[1..]);
    }
  }
}
