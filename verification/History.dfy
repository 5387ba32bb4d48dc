/**
 The meaning of a run without versions, batches or write sets: who inserted and deleted which row,
 and when each transaction committed.  Readers of the database see exactly what this history shows.
 */
module History {
  import opened Versions
  import opened Tables
  import opened TableSteps
  import opened TableFinish
  import opened Mvcc

  datatype Who = Auto(ts: nat) | Tx(id: nat)
  datatype Act = Act(who: Who, table: nat, row: nat, del: bool)

  /** When each committed transaction committed, and everything that was ever inserted or deleted. */
  datatype Hist = Hist(when: map<nat, nat>, acts: set<Act>)

  const NOTHING: Hist := Hist(map[], {})

  predicate Done(h: Hist, w: Who, q: nat) {
    match w
    case Auto(ts) => ts <= q
    case Tx(id) => id in h.when && h.when[id] <= q
  }

  ghost predicate Has(h: Hist, t: nat, r: nat, del: bool, q: nat) {
    exists w :: Act(w, t, r, del) in h.acts && Done(h, w, q)
  }

  /** A snapshot shows a row inserted, and not deleted, by operations committed at or before it. */
  ghost predicate Shown(h: Hist, t: nat, r: nat, q: nat) { Has(h, t, r, false, q) && !Has(h, t, r, true, q) }

  function Deletions(w: Who, t: nat, rows: seq<nat>): set<Act> { set r | r in rows :: Act(w, t, r, true) }

  function Recorded(h: Hist, acts: set<Act>): Hist { h.(acts := h.acts + acts) }

  /** The history after a step of the database. */
  function Next(h: Hist, db: Db, s: Step): Hist {
    match s
    case Insert(tx, t, _) => if t < |db.tables| then Recorded(h, {Act(Tx(tx), t, |db.tables[t].rows|, false)}) else h
    case InsertAuto(t, _) =>
      if t < |db.tables| then Recorded(h, {Act(Auto(db.ts + 1), t, |db.tables[t].rows|, false)}) else h
    case Delete(tx, t, rows) => Recorded(h, Deletions(Tx(tx), t, rows))
    case DeleteAuto(t, rows) => Recorded(h, Deletions(Auto(db.ts + 1), t, rows))
    case Commit(tx) => h.(when := h.when[tx := db.ts + 1])
    case _ => h
  }

  ghost function HistOf(h: Hist, db: Db, steps: seq<Step>): Hist
    requires Run(db, steps)
    decreases |steps|
  {
    if steps == [] then h else HistOf(Next(h, db, steps[0]), Apply(db, steps[0]), steps[1..])
  }

  // ── How a history grows ──

  lemma HasRecorded(h: Hist, extra: set<Act>, who: Who, t: nat, r: nat, del: bool, q: nat)
    requires forall a :: a in extra ==> a.who == who
    ensures Has(Recorded(h, extra), t, r, del, q) <==>
            Has(h, t, r, del, q) || (Act(who, t, r, del) in extra && Done(h, who, q))
  {
    var g := Recorded(h, extra);
    if Has(h, t, r, del, q) {
      var w :| Act(w, t, r, del) in h.acts && Done(h, w, q);
      assert Act(w, t, r, del) in g.acts && Done(g, w, q);
    }
    if Act(who, t, r, del) in extra && Done(h, who, q) {
      assert Act(who, t, r, del) in g.acts && Done(g, who, q);
    }
    if Has(g, t, r, del, q) {
      var w :| Act(w, t, r, del) in g.acts && Done(g, w, q);
      assert Done(h, w, q);
    }
  }

  lemma HasCommitted(h: Hist, tx: nat, c: nat, t: nat, r: nat, del: bool, q: nat)
    requires tx !in h.when
    ensures Has(h.(when := h.when[tx := c]), t, r, del, q) <==>
            Has(h, t, r, del, q) || (Act(Tx(tx), t, r, del) in h.acts && c <= q)
  {
    var g := h.(when := h.when[tx := c]);
    if Has(h, t, r, del, q) {
      var w :| Act(w, t, r, del) in h.acts && Done(h, w, q);
      assert Act(w, t, r, del) in g.acts && Done(g, w, q);
    }
    if Act(Tx(tx), t, r, del) in h.acts && c <= q {
      assert Act(Tx(tx), t, r, del) in g.acts && Done(g, Tx(tx), q);
    }
    if Has(g, t, r, del, q) {
      var w :| Act(w, t, r, del) in g.acts && Done(g, w, q);
      assert w != Tx(tx) ==> Done(h, w, q);
    }
  }

  // ── What ties the database to its history ──

  predicate ActOk(db: Db, a: Act) {
    && a.table < |db.tables| && a.row < |db.tables[a.table].rows|
    && (a.who.Tx? ==> 0 < a.who.id < db.nextTx)
  }

  ghost predicate Shape(db: Db, h: Hist) {
    && (forall a :: a in h.acts ==> ActOk(db, a))
    && (forall tx :: tx in h.when ==> tx !in db.open && 0 < tx < db.nextTx)
  }

  /** A row is inserted once. */
  ghost predicate Single(h: Hist) {
    forall v, w, t, r :: Act(v, t, r, false) in h.acts && Act(w, t, r, false) in h.acts ==> v == w
  }

  /** Only rows whose insertion has committed are deleted. */
  ghost predicate DeletedAfter(h: Hist) {
    forall w, t, r :: Act(w, t, r, true) in h.acts ==> exists q :: Has(h, t, r, false, q)
  }

  predicate InSet(w: WriteSet, r: nat, del: bool) { if del then r in w.del else r in w.ins }

  /** The write sets hold what the open transactions did. */
  ghost predicate Listed(db: Db, h: Hist) {
    forall tx, t, r, del :: tx in db.open && 0 <= t < |db.tables| ==>
      (Act(Tx(tx), t, r, del) in h.acts <==> InSet(SetOf(db.tables[t], tx), r, del))
  }

  ghost predicate Sound(db: Db, h: Hist) {
    forall t, r, q :: 0 <= t < |db.tables| && Sees(db.tables[t], r, q) ==> Has(h, t, r, false, q)
  }

  ghost predicate Exact(db: Db, h: Hist, q: nat) {
    forall t, r :: 0 <= t < |db.tables| ==> (Sees(db.tables[t], r, q) <==> Shown(h, t, r, q))
  }

  ghost predicate Base(db: Db, h: Hist) { DbInv(db) && Shape(db, h) && Single(h) && DeletedAfter(h) && Listed(db, h) && Sound(db, h) }

  // ── What each step does to readers, at every snapshot ──

  predicate Quiet(s: Step) {
    s.Begin? || s.Tick? || s.Insert? || s.Delete? || s.FlushTable? || s.SortTable? || s.Rollback?
  }

  lemma {:induction false} QuietSees(db: Db, s: Step, t: nat, r: nat, q: nat)
    requires DbInv(db) && Enabled(db, s) && Quiet(s) && t < |db.tables|
    ensures |Apply(db, s).tables| == |db.tables|
    ensures Sees(Apply(db, s).tables[t], r, q) <==> Sees(db.tables[t], r, q)
  {
    var x := db.tables[t];
    assert TableOk(x, db.ts, db.open);
    match s
    case Begin =>
    case Tick =>
    case Rollback(tx) => RollbackUnseen(db, tx, t, r, q);
    case Insert(tx, u, row) => if u == t { InsertTxSees(x, db.ts, tx, row, r, q); }
    case Delete(tx, u, rows) =>
      if u == t {
        DeleteSees(x, db.ts, rows, db.open[tx], Flagged(tx), r, q);
        assert All(DeleteTx(x, tx, rows)) == All(Tables.Delete(x, rows, Flagged(tx)));
      }
    case FlushTable(u, pages) => if u == t { FlushSees(x, pages, r, q); }
    case SortTable(u, order) => if u == t { ResortSees(x, db.ts, order, r, q); }
  }

  lemma {:induction false} NewSees(ts: nat, r: nat, q: nat)
    requires ts < FLAG
    ensures !Sees(EMPTY, r, q)
  {
    EmptyOk(ts, map[]);
    UnknownRow(EMPTY, ts, r, q);
  }

  lemma {:induction false} AutoSees(db: Db, s: Step, t: nat, r: nat, q: nat)
    requires DbInv(db) && Enabled(db, s) && s.InsertAuto? && t < |db.tables|
    ensures |Apply(db, s).tables| == |db.tables|
    ensures Sees(Apply(db, s).tables[t], r, q) <==>
            if t == s.table && r == |db.tables[t].rows| then db.ts + 1 <= q else Sees(db.tables[t], r, q)
  {
    assert TableOk(db.tables[t], db.ts, db.open);
    if t == s.table { PutAutoSees(db.tables[t], db.ts, s.row, r, q); }
  }

  lemma {:induction false} DeleteTableSees(x: Table, ts: nat, rows: seq<nat>, r: nat, q: nat)
    ensures Inv(x, ts) && TargetsBy(x, rows, ts) && ts + 1 < FLAG ==>
              (Sees(Tables.Delete(x, rows, ts + 1), r, q) <==> Sees(x, r, q) && !(r in rows && ts + 1 <= q))
  {
    if Inv(x, ts) && TargetsBy(x, rows, ts) {
      var q0: nat :| q0 <= ts && Targets(x, rows, q0);
      DeleteSees(x, ts, rows, q0, ts + 1, r, q);
    }
  }

  lemma {:induction false} DeleteAutoSees(db: Db, s: Step, t: nat, r: nat, q: nat)
    requires DbInv(db) && Enabled(db, s) && s.DeleteAuto? && t < |db.tables|
    ensures |Apply(db, s).tables| == |db.tables|
    ensures Sees(Apply(db, s).tables[t], r, q) <==>
            Sees(db.tables[t], r, q) && !(t == s.table && r in s.rows && db.ts + 1 <= q)
  {
    assert TableOk(db.tables[t], db.ts, db.open);
    if t == s.table { DeleteTableSees(db.tables[t], db.ts, s.rows, r, q); }
  }

  lemma {:induction false} PruneStepSees(db: Db, s: Step, t: nat, r: nat, q: nat)
    requires DbInv(db) && Enabled(db, s) && s.PruneTable? && t < |db.tables|
    ensures |Apply(db, s).tables| == |db.tables|
    ensures Sees(Apply(db, s).tables[t], r, q) ==> Sees(db.tables[t], r, q)
    ensures s.cutoff <= q ==> (Sees(Apply(db, s).tables[t], r, q) <==> Sees(db.tables[t], r, q))
  {
    assert TableOk(db.tables[t], db.ts, db.open);
    if t == s.table { PruneSees(db.tables[t], db.ts, s.cutoff, r, q); }
  }

  // ── Each step keeps the tie, row by row ──

  /** Whether the database and the history agree about a row at a snapshot; sound agreement is one way. */
  ghost predicate AgreeAt(db: Db, h: Hist, t: nat, r: nat, q: nat) {
    t < |db.tables| ==> (Sees(db.tables[t], r, q) <==> Shown(h, t, r, q))
  }

  ghost predicate SoundAt(db: Db, h: Hist, t: nat, r: nat, q: nat) {
    t < |db.tables| && Sees(db.tables[t], r, q) ==> Has(h, t, r, false, q)
  }

  ghost predicate Keeps(db: Db, h: Hist, s: Step, t: nat, r: nat, q: nat)
    requires Enabled(db, s)
  {
    && (SoundAt(db, h, t, r, q) ==> SoundAt(Apply(db, s), Next(h, db, s), t, r, q))
    && (Spares(s, q) && AgreeAt(db, h, t, r, q) ==> AgreeAt(Apply(db, s), Next(h, db, s), t, r, q))
  }

  lemma {:induction false} KeepsPrune(db: Db, h: Hist, s: Step, t: nat, r: nat, q: nat)
    requires Base(db, h) && Enabled(db, s) && s.PruneTable?
    ensures Keeps(db, h, s, t, r, q)
  {
    if t < |db.tables| { PruneStepSees(db, s, t, r, q); }
  }

  lemma {:induction false} KeepsQuiet(db: Db, h: Hist, s: Step, t: nat, r: nat, q: nat)
    requires Base(db, h) && Enabled(db, s) && Quiet(s) && !Writes(s)
    ensures Keeps(db, h, s, t, r, q)
  {
    if t < |db.tables| { QuietSees(db, s, t, r, q); }
  }

  /** Steps that record nothing. */
  lemma {:induction false} KeepsPlain(db: Db, h: Hist, s: Step, t: nat, r: nat, q: nat)
    requires Base(db, h) && Enabled(db, s) && (s.PruneTable? || (Quiet(s) && !Writes(s)))
    ensures Keeps(db, h, s, t, r, q)
  {
    if s.PruneTable? { KeepsPrune(db, h, s, t, r, q); } else { KeepsQuiet(db, h, s, t, r, q); }
  }

  lemma {:induction false} KeepsCreate(db: Db, h: Hist, t: nat, r: nat, q: nat)
    requires Base(db, h) && Enabled(db, CreateTable)
    ensures Keeps(db, h, CreateTable, t, r, q)
  {
    NewSees(db.ts, r, q);
    if t == |db.tables| {
      assert forall w, del :: Act(w, t, r, del) !in h.acts by {
        assert forall w, del :: Act(w, t, r, del) in h.acts ==> ActOk(db, Act(w, t, r, del));
      }
    }
  }

  /** What an open transaction does shows at no snapshot yet. */
  lemma {:induction false} OpenUnseen(db: Db, h: Hist, extra: set<Act>, tx: nat, t: nat, r: nat, q: nat)
    requires Shape(db, h) && tx in db.open && forall a :: a in extra ==> a.who == Tx(tx)
    ensures forall del :: Has(Recorded(h, extra), t, r, del, q) <==> Has(h, t, r, del, q)
  {
    forall del ensures Has(Recorded(h, extra), t, r, del, q) <==> Has(h, t, r, del, q) {
      HasRecorded(h, extra, Tx(tx), t, r, del, q);
    }
  }

  lemma {:induction false} KeepsInsert(db: Db, h: Hist, s: Step, t: nat, r: nat, q: nat)
    requires Base(db, h) && Enabled(db, s) && s.Insert?
    ensures Keeps(db, h, s, t, r, q)
  {
    if t < |db.tables| {
      QuietSees(db, s, t, r, q);
      OpenUnseen(db, h, {Act(Tx(s.tx), s.table, |db.tables[s.table].rows|, false)}, s.tx, t, r, q);
    }
  }

  lemma {:induction false} KeepsDelete(db: Db, h: Hist, s: Step, t: nat, r: nat, q: nat)
    requires Base(db, h) && Enabled(db, s) && s.Delete?
    ensures Keeps(db, h, s, t, r, q)
  {
    if t < |db.tables| {
      QuietSees(db, s, t, r, q);
      OpenUnseen(db, h, Deletions(Tx(s.tx), s.table, s.rows), s.tx, t, r, q);
    }
  }

  lemma NoActs(db: Db, h: Hist, t: nat, r: nat, del: bool, q: nat)
    requires Shape(db, h) && t < |db.tables| && r >= |db.tables[t].rows|
    ensures !Has(h, t, r, del, q)
  {
    assert forall w :: Act(w, t, r, del) in h.acts ==> ActOk(db, Act(w, t, r, del));
  }

  /** An autocommitted insertion shows one new row, from its timestamp on. */
  lemma {:induction false} AutoShown(db: Db, h: Hist, u: nat, t: nat, r: nat, q: nat)
    requires Shape(db, h) && u < |db.tables| && t < |db.tables|
    ensures var n, c := |db.tables[u].rows|, db.ts + 1;
            var g := Recorded(h, {Act(Auto(c), u, n, false)});
            && (Has(g, t, r, false, q) <==> if t == u && r == n then c <= q else Has(h, t, r, false, q))
            && (Has(g, t, r, true, q) <==> if t == u && r == n then false else Has(h, t, r, true, q))
  {
    var n, c := |db.tables[u].rows|, db.ts + 1;
    HasRecorded(h, {Act(Auto(c), u, n, false)}, Auto(c), t, r, false, q);
    HasRecorded(h, {Act(Auto(c), u, n, false)}, Auto(c), t, r, true, q);
    if t == u && r == n { NoActs(db, h, t, r, true, q); NoActs(db, h, t, r, false, q); }
  }

  lemma {:induction false} KeepsAuto(db: Db, h: Hist, s: Step, t: nat, r: nat, q: nat)
    requires DbInv(db) && Shape(db, h) && Enabled(db, s) && s.InsertAuto?
    ensures Keeps(db, h, s, t, r, q)
  {
    if t < |db.tables| {
      var g := Next(h, db, s);
      assert g == Recorded(h, {Act(Auto(db.ts + 1), s.table, |db.tables[s.table].rows|, false)});
      AutoShown(db, h, s.table, t, r, q);
      AutoSees(db, s, t, r, q);
    }
  }

  lemma {:induction false} KeepsDeleteAuto(db: Db, h: Hist, s: Step, t: nat, r: nat, q: nat)
    requires DbInv(db) && Shape(db, h) && Enabled(db, s) && s.DeleteAuto?
    ensures Keeps(db, h, s, t, r, q)
  {
    if t < |db.tables| {
      var g := Next(h, db, s);
      assert g == Recorded(h, Deletions(Auto(db.ts + 1), s.table, s.rows));
      DeletionsShown(h, s.table, s.rows, db.ts + 1, t, r, q);
      DeleteAutoSees(db, s, t, r, q);
    }
  }

  /** An autocommitted deletion hides its rows from its timestamp on. */
  lemma {:induction false} DeletionsShown(h: Hist, u: nat, rows: seq<nat>, c: nat, t: nat, r: nat, q: nat)
    ensures var g := Recorded(h, Deletions(Auto(c), u, rows));
            && (Has(g, t, r, false, q) <==> Has(h, t, r, false, q))
            && (Has(g, t, r, true, q) <==> Has(h, t, r, true, q) || (t == u && r in rows && c <= q))
  {
    var extra := Deletions(Auto(c), u, rows);
    HasRecorded(h, extra, Auto(c), t, r, false, q);
    HasRecorded(h, extra, Auto(c), t, r, true, q);
  }

  /** A row whose insertion is still open has not been deleted by anyone. */
  lemma {:induction false} OpenNotDeleted(db: Db, h: Hist, tx: nat, t: nat, r: nat, w: Who)
    requires Base(db, h) && tx in db.open && Act(Tx(tx), t, r, false) in h.acts
    ensures Act(w, t, r, true) !in h.acts
  {
  }

  lemma {:induction false} KeepsCommit(db: Db, h: Hist, tx: nat, t: nat, r: nat, q: nat)
    requires Base(db, h) && Enabled(db, Commit(tx))
    ensures Keeps(db, h, Commit(tx), t, r, q)
  {
    if t < |db.tables| {
      var w, c := SetOf(db.tables[t], tx), db.ts + 1;
      CommitAtomic(db, tx, t, r, q);
      HasCommitted(h, tx, c, t, r, false, q);
      HasCommitted(h, tx, c, t, r, true, q);
      assert Act(Tx(tx), t, r, false) in h.acts <==> InSet(w, r, false);
      assert Act(Tx(tx), t, r, true) in h.acts <==> InSet(w, r, true);
      if r in w.ins {
        forall v ensures Act(v, t, r, true) !in h.acts { OpenNotDeleted(db, h, tx, t, r, v); }
      }
    }
  }

  lemma {:induction false} KeepsStep(db: Db, h: Hist, s: Step, t: nat, r: nat, q: nat)
    requires Base(db, h) && Enabled(db, s)
    ensures Keeps(db, h, s, t, r, q)
  {
    match s
    case CreateTable => KeepsCreate(db, h, t, r, q);
    case Insert(_, _, _) => KeepsInsert(db, h, s, t, r, q);
    case Delete(_, _, _) => KeepsDelete(db, h, s, t, r, q);
    case InsertAuto(_, _) => KeepsAuto(db, h, s, t, r, q);
    case DeleteAuto(_, _) => KeepsDeleteAuto(db, h, s, t, r, q);
    case Commit(tx) => KeepsCommit(db, h, tx, t, r, q);
    case _ => KeepsPlain(db, h, s, t, r, q);
  }

  // ── The rest of the tie ──

  lemma {:induction false} HasKept(db: Db, h: Hist, s: Step, t: nat, r: nat, del: bool, q: nat)
    requires Shape(db, h) && Enabled(db, s) && Has(h, t, r, del, q)
    ensures Has(Next(h, db, s), t, r, del, q)
  {
    var w :| Act(w, t, r, del) in h.acts && Done(h, w, q);
    var g := Next(h, db, s);
    assert Act(w, t, r, del) in g.acts && Done(g, w, q);
  }

  lemma {:induction false} RowsKept(db: Db, s: Step, t: nat)
    requires Enabled(db, s) && t < |db.tables|
    ensures t < |Apply(db, s).tables|
    ensures |Apply(db, s).tables[t].rows| ==
            |db.tables[t].rows| + if (s.Insert? || s.InsertAuto?) && s.table == t then 1 else 0
  {
  }

  lemma {:induction false} ActKept(db: Db, s: Step, a: Act)
    requires Enabled(db, s) && ActOk(db, a)
    ensures ActOk(Apply(db, s), a)
  {
    RowsKept(db, s, a.table);
  }

  lemma {:induction false} NewActsOk(db: Db, h: Hist, s: Step, a: Act)
    requires Base(db, h) && Enabled(db, s) && a in Next(h, db, s).acts && a !in h.acts
    ensures ActOk(Apply(db, s), a)
    ensures a.del ==> exists q :: Has(h, a.table, a.row, false, q)
    ensures !a.del ==> a.table < |db.tables| && a.row == |db.tables[a.table].rows| && (s.Insert? || s.InsertAuto?)
  {
    RowsKept(db, s, a.table);
    if s.Delete? || s.DeleteAuto? {
      var x := db.tables[s.table];
      var q: nat :| Targets(x, s.rows, q);
      assert TableOk(x, db.ts, db.open);
      TargetSeen(x, db.ts, s.rows, q, a.row);
      assert Sees(db.tables[a.table], a.row, q);
    }
  }

  lemma {:induction false} ShapeStep(db: Db, h: Hist, s: Step)
    requires Base(db, h) && Enabled(db, s)
    ensures Shape(Apply(db, s), Next(h, db, s))
  {
    var d, g := Apply(db, s), Next(h, db, s);
    forall a | a in g.acts ensures ActOk(d, a) {
      if a in h.acts { ActKept(db, s, a); } else { NewActsOk(db, h, s, a); }
    }
  }

  lemma {:induction false} SingleStep(db: Db, h: Hist, s: Step)
    requires Base(db, h) && Enabled(db, s)
    ensures Single(Next(h, db, s))
  {
    if s.Insert? || s.InsertAuto? {
      var n := |db.tables[s.table].rows|;
      assert forall w :: Act(w, s.table, n, false) in h.acts ==> ActOk(db, Act(w, s.table, n, false));
    }
  }

  lemma {:induction false} DeletedAfterStep(db: Db, h: Hist, s: Step)
    requires Base(db, h) && Enabled(db, s)
    ensures DeletedAfter(Next(h, db, s))
  {
    var g := Next(h, db, s);
    forall w, t, r | Act(w, t, r, true) in g.acts ensures exists q :: Has(g, t, r, false, q) {
      var a := Act(w, t, r, true);
      if a !in h.acts { NewActsOk(db, h, s, a); }
      var q :| Has(h, t, r, false, q);
      HasKept(db, h, s, t, r, false, q);
    }
  }

  lemma {:induction false} SetOfFinish(t: Table, tx: nat, c: nat, other: nat)
    requires other != tx
    ensures SetOf(Finish(t, tx, c), other) == SetOf(t, other)
  {
  }

  lemma {:induction false} SetOfDelete(t: Table, tx: nat, rows: seq<nat>, other: nat, r: nat, del: bool)
    ensures InSet(SetOf(DeleteTx(t, tx, rows), other), r, del) <==>
            InSet(SetOf(t, other), r, del) || (other == tx && del && r in rows)
  {
  }

  lemma {:induction false} SetOfInsert(t: Table, tx: nat, row: Row, other: nat, r: nat, del: bool)
    ensures InSet(SetOf(InsertTx(t, tx, row), other), r, del) <==>
            InSet(SetOf(t, other), r, del) || (other == tx && !del && r == |t.rows|)
  {
  }

  /** The write set of a transaction that stays open grows by what the step records. */
  lemma {:induction false} SetKept(db: Db, s: Step, tx: nat, t: nat, r: nat, del: bool)
    requires Enabled(db, s) && t < |db.tables| && tx in db.open && tx in Apply(db, s).open
    ensures t < |Apply(db, s).tables|
    ensures InSet(SetOf(Apply(db, s).tables[t], tx), r, del) <==>
            InSet(SetOf(db.tables[t], tx), r, del) || Act(Tx(tx), t, r, del) in Next(NOTHING, db, s).acts
  {
    var x := db.tables[t];
    match s
    case Insert(u, _, row) => SetOfInsert(x, u, row, tx, r, del);
    case Delete(u, _, rows) => SetOfDelete(x, u, rows, tx, r, del);
    case Commit(u) => SetOfFinish(x, u, db.ts + 1, tx);
    case Rollback(u) => SetOfFinish(x, u, ABORTED, tx);
    case _ =>
  }

  lemma NextActs(h: Hist, db: Db, s: Step, a: Act)
    ensures a in Next(h, db, s).acts <==> a in h.acts || a in Next(NOTHING, db, s).acts
  {
  }

  /** Nothing is recorded for a transaction or a table that does not exist yet. */
  lemma {:induction false} NoneNew(db: Db, s: Step, tx: nat, t: nat, r: nat, del: bool)
    requires Enabled(db, s) && (tx !in db.open || t >= |db.tables|)
    ensures Act(Tx(tx), t, r, del) !in Next(NOTHING, db, s).acts
  {
  }

  lemma {:induction false} ListedAt(db: Db, h: Hist, s: Step, tx: nat, t: nat, r: nat, del: bool)
    requires Base(db, h) && Enabled(db, s) && tx in Apply(db, s).open && t < |Apply(db, s).tables|
    ensures Act(Tx(tx), t, r, del) in Next(h, db, s).acts <==> InSet(SetOf(Apply(db, s).tables[t], tx), r, del)
  {
    var a := Act(Tx(tx), t, r, del);
    NextActs(h, db, s, a);
    assert a in h.acts ==> ActOk(db, a);
    if tx in db.open && t < |db.tables| {
      assert a in h.acts <==> InSet(SetOf(db.tables[t], tx), r, del);
      SetKept(db, s, tx, t, r, del);
    } else {
      NoneNew(db, s, tx, t, r, del);
      if t < |db.tables| { assert TableOk(db.tables[t], db.ts, db.open); }
    }
  }

  lemma {:induction false} ListedStep(db: Db, h: Hist, s: Step)
    requires Base(db, h) && Enabled(db, s)
    ensures Listed(Apply(db, s), Next(h, db, s))
  {
    var d, g := Apply(db, s), Next(h, db, s);
    forall tx, t, r, del | tx in d.open && 0 <= t < |d.tables|
      ensures Act(Tx(tx), t, r, del) in g.acts <==> InSet(SetOf(d.tables[t], tx), r, del)
    {
      ListedAt(db, h, s, tx, t, r, del);
    }
  }

  lemma {:induction false} BaseStep(db: Db, h: Hist, s: Step)
    requires Base(db, h) && Enabled(db, s)
    ensures Base(Apply(db, s), Next(h, db, s))
  {
    StepInv(db, s);
    ShapeStep(db, h, s);
    SingleStep(db, h, s);
    DeletedAfterStep(db, h, s);
    ListedStep(db, h, s);
    SoundStep(db, h, s);
  }

  lemma {:induction false} SoundStep(db: Db, h: Hist, s: Step)
    requires Base(db, h) && Enabled(db, s)
    ensures Sound(Apply(db, s), Next(h, db, s))
  {
    var d, g := Apply(db, s), Next(h, db, s);
    forall t, r, q | 0 <= t < |d.tables| && Sees(d.tables[t], r, q) ensures Has(g, t, r, false, q) {
      assert SoundAt(db, h, t, r, q);
      KeepsStep(db, h, s, t, r, q);
      assert SoundAt(d, g, t, r, q);
    }
  }

  lemma {:induction false} ExactStep(db: Db, h: Hist, s: Step, q: nat)
    requires Base(db, h) && Exact(db, h, q) && Enabled(db, s) && Spares(s, q)
    ensures Exact(Apply(db, s), Next(h, db, s), q)
  {
    var d, g := Apply(db, s), Next(h, db, s);
    forall t, r | 0 <= t < |d.tables| ensures Sees(d.tables[t], r, q) <==> Shown(g, t, r, q) {
      assert AgreeAt(db, h, t, r, q);
      KeepsStep(db, h, s, t, r, q);
      assert AgreeAt(d, g, t, r, q);
    }
  }

  lemma {:induction false} RunKeeps(db: Db, h: Hist, steps: seq<Step>, q: nat)
    requires Base(db, h) && Exact(db, h, q) && Run(db, steps)
    requires forall i :: 0 <= i < |steps| ==> Spares(steps[i], q)
    ensures Base(After(db, steps), HistOf(h, db, steps)) && Exact(After(db, steps), HistOf(h, db, steps), q)
    decreases |steps|
  {
    if steps != [] {
      BaseStep(db, h, steps[0]);
      ExactStep(db, h, steps[0], q);
      RunKeeps(Apply(db, steps[0]), Next(h, db, steps[0]), steps[1..], q);
    }
  }

  lemma StartTied(q: nat)
    ensures Base(START, NOTHING) && Exact(START, NOTHING, q)
  {
  }

  /**
   Snapshot reads: in every run from the start, a snapshot at or above every prune cutoff sees a row
   exactly when its insertion, and none of its deletions, was committed at or before the snapshot.
   */
  lemma {:induction false} ReadsFollowHistory(steps: seq<Step>, t: nat, r: nat, q: nat)
    requires Run(START, steps) && t < |After(START, steps).tables|
    requires forall i :: 0 <= i < |steps| ==> Spares(steps[i], q)
    ensures Sees(After(START, steps).tables[t], r, q) <==> Shown(HistOf(NOTHING, START, steps), t, r, q)
  {
    StartTied(q);
    RunKeeps(START, NOTHING, steps, q);
  }

  // ── The snapshot of a new transaction ──

  /** Somebody inserted, or deleted, the row and has committed; at whatever time. */
  ghost predicate Ever(h: Hist, t: nat, r: nat, del: bool) {
    exists w :: Act(w, t, r, del) in h.acts && (w.Auto? || w.id in h.when)
  }

  /** The row has been inserted and not deleted, by all that has committed. */
  ghost predicate Standing(h: Hist, t: nat, r: nat) { Ever(h, t, r, false) && !Ever(h, t, r, true) }

  /** Nothing has committed later than now. */
  ghost predicate Past(db: Db, h: Hist) {
    && (forall a :: a in h.acts && a.who.Auto? ==> a.who.ts <= db.ts)
    && (forall tx :: tx in h.when ==> h.when[tx] <= db.ts)
  }

  /** The tie, and that all snapshots from now on follow the history, whatever has been pruned. */
  ghost predicate Current(db: Db, h: Hist) {
    Base(db, h) && Past(db, h) && forall q :: q >= db.ts ==> Exact(db, h, q)
  }

  lemma {:induction false} PastStep(db: Db, h: Hist, s: Step)
    requires Past(db, h) && Enabled(db, s)
    ensures Past(Apply(db, s), Next(h, db, s))
  {
  }

  /** A row that is dead at some cutoff is seen by no snapshot from now on. */
  lemma {:induction false} DeadUnseen(x: Table, ts: nat, cutoff: nat, r: nat, q: nat)
    requires Inv(x, ts) && ts <= q && Dead(x.index, r, cutoff)
    ensures !Sees(x, r, q)
  {
    VisibleMeans(All(x), r, q);
    var d :| d in x.index && Tomb(d) && Candidate(d, r, cutoff);
    assert d in All(x) && Known(d, |x.rows|, ts, x.ws.Keys);
    assert Candidate(d, r, q);
  }

  /** So pruning, at whatever cutoff, changes nothing for those snapshots. */
  lemma {:induction false} PruneNow(db: Db, s: Step, t: nat, r: nat, q: nat)
    requires DbInv(db) && Enabled(db, s) && s.PruneTable? && t < |db.tables| && db.ts <= q
    ensures |Apply(db, s).tables| == |db.tables|
    ensures Sees(Apply(db, s).tables[t], r, q) <==> Sees(db.tables[t], r, q)
  {
    assert TableOk(db.tables[t], db.ts, db.open);
    if t == s.table {
      PruneSees(db.tables[t], db.ts, s.cutoff, r, q);
      if Dead(db.tables[t].index, r, s.cutoff) { DeadUnseen(db.tables[t], db.ts, s.cutoff, r, q); }
    }
  }

  lemma {:induction false} NowStep(db: Db, h: Hist, s: Step, q: nat)
    requires Current(db, h) && Enabled(db, s) && Apply(db, s).ts <= q
    ensures Exact(Apply(db, s), Next(h, db, s), q)
  {
    assert db.ts <= q && Exact(db, h, q);
    if s.PruneTable? {
      var d := Apply(db, s);
      forall t, r | 0 <= t < |d.tables| ensures Sees(d.tables[t], r, q) <==> Shown(h, t, r, q) { PruneNow(db, s, t, r, q); }
    } else {
      ExactStep(db, h, s, q);
    }
  }

  lemma {:induction false} CurrentStep(db: Db, h: Hist, s: Step)
    requires Current(db, h) && Enabled(db, s)
    ensures Current(Apply(db, s), Next(h, db, s))
  {
    BaseStep(db, h, s);
    PastStep(db, h, s);
    forall q | q >= Apply(db, s).ts ensures Exact(Apply(db, s), Next(h, db, s), q) { NowStep(db, h, s, q); }
  }

  lemma {:induction false} CurrentRun(db: Db, h: Hist, steps: seq<Step>)
    requires Current(db, h) && Run(db, steps)
    ensures Current(After(db, steps), HistOf(h, db, steps))
    decreases |steps|
  {
    if steps != [] {
      CurrentStep(db, h, steps[0]);
      CurrentRun(Apply(db, steps[0]), Next(h, db, steps[0]), steps[1..]);
    }
  }

  lemma {:induction false} StartCurrent()
    ensures Current(START, NOTHING)
  {
    forall q | q >= START.ts ensures Exact(START, NOTHING, q) { StartTied(q); }
    StartTied(0);
  }

  lemma {:induction false} ShownNow(db: Db, h: Hist, t: nat, r: nat)
    requires Past(db, h)
    ensures Shown(h, t, r, db.ts) <==> Standing(h, t, r)
  {
    forall del ensures Has(h, t, r, del, db.ts) <==> Ever(h, t, r, del) {
      if w :| Act(w, t, r, del) in h.acts && (w.Auto? || w.id in h.when) {
        assert Done(h, w, db.ts);
      }
      if Has(h, t, r, del, db.ts) {
        var w :| Act(w, t, r, del) in h.acts && Done(h, w, db.ts);
        assert w.Auto? || w.id in h.when;
      }
    }
  }

  /** A new transaction: nobody has used its id, and at its snapshot it sees just what has committed. */
  ghost predicate Opens(db: Db, h: Hist, tx: nat, d: Db) {
    && tx !in db.open && tx !in h.when && (forall a :: a in h.acts ==> a.who != Tx(tx))
    && d.open.Keys == db.open.Keys + {tx} && (forall u :: u in db.open ==> d.open[u] == db.open[u])
    && |d.tables| == |db.tables|
    && forall t, r :: 0 <= t < |d.tables| ==> (Sees(d.tables[t], r, d.open[tx]) <==> Standing(h, t, r))
  }

  lemma {:induction false} BeginOpens(db: Db, h: Hist)
    requires Current(db, h) && Enabled(db, Begin)
    ensures Opens(db, h, db.nextTx, Apply(db, Begin))
  {
    var d := Apply(db, Begin);
    forall t, r | 0 <= t < |d.tables| ensures Sees(d.tables[t], r, d.open[db.nextTx]) <==> Standing(h, t, r) {
      assert Exact(db, h, db.ts);
      ShownNow(db, h, t, r);
    }
    forall a | a in h.acts ensures a.who != Tx(db.nextTx) { assert ActOk(db, a); }
  }

  /**
   Snapshot isolation, over every run.  What a transaction reads is what had committed when it began: a row
   is visible to it exactly if some insertion of it, and no deletion, had committed then.  This stays so
   whatever others do until it ends, as long as pruning spares its snapshot.
   */
  lemma {:induction false} BeginReads(before: seq<Step>, later: seq<Step>, t: nat, r: nat)
    requires Run(START, before) && Enabled(After(START, before), Begin)
    requires Run(Apply(After(START, before), Begin), later)
    requires var db := After(START, before);
             && t < |db.tables|
             && db.nextTx in Apply(db, Begin).open
             && forall i :: 0 <= i < |later| ==> Spares(later[i], Apply(db, Begin).open[db.nextTx])
    ensures var db, h := After(START, before), HistOf(NOTHING, START, before);
            var d := Apply(db, Begin);
            && Opens(db, h, db.nextTx, d)
            && t < |After(d, later).tables|
            && (Sees(After(d, later).tables[t], r, d.open[db.nextTx]) <==> Standing(h, t, r))
  {
    var db, h := After(START, before), HistOf(NOTHING, START, before);
    StartCurrent();
    CurrentRun(START, NOTHING, before);
    BeginOpens(db, h);
    StepInv(db, Begin);
    TransactionReads(Apply(db, Begin), later, db.nextTx, t, r);
  }
}
