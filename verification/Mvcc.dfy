/**
 The database as a state machine: transactions, autocommit operations, flushing, sorting, pruning.
 Each step is atomic.  What every run keeps, and what commit, rollback and pruning do to readers.
 */
module Mvcc {
  import opened Options
  import opened Versions
  import opened Tables
  import opened TableSteps
  import opened TableFinish

  /** Log records, in the order their operations happened; transaction 0 stands for none. */
  datatype Rec =
    | BeginRec(tx: nat)
    | InsertRec(tx: nat, table: nat, row: Row)
    | DeleteRec(tx: nat, table: nat, rows: seq<nat>)
    | CommitRec(tx: nat, ts: nat)
    | RollbackRec(tx: nat)

  /** ts is the last timestamp issued; open maps each active transaction to its snapshot. */
  datatype Db = Db(tables: seq<Table>, ts: nat, nextTx: nat, open: map<nat, nat>, log: seq<Rec>)

  const START: Db := Db([], 0, 1, map[], [])

  datatype Step =
    | CreateTable
    | Begin
    | Insert(tx: nat, table: nat, row: Row)
    | InsertAuto(table: nat, row: Row)
    | Delete(tx: nat, table: nat, rows: seq<nat>)
    | DeleteAuto(table: nat, rows: seq<nat>)
    | FlushTable(table: nat, pages: seq<nat>)
    | SortTable(table: nat, order: seq<Ver>)
    | PruneTable(table: nat, cutoff: nat)
    | Commit(tx: nat)
    | Rollback(tx: nat)
    | Tick

  /** An index is sorted before versions in it are stamped. */
  predicate InOrder(t: Table, tx: nat) { tx in t.ws && t.ws[tx].rows != [] ==> !t.dirty }

  /** Timestamps and transaction ids stay below the flag; operations name what exists. */
  ghost predicate Enabled(db: Db, s: Step) {
    && db.ts + 1 < FLAG
    && db.nextTx < FLAG - 1
    && match s
       case CreateTable => true
       case Begin => true
       case Insert(tx, t, _) => tx in db.open && t < |db.tables|
       case InsertAuto(t, _) => t < |db.tables|
       case Delete(tx, t, rows) => tx in db.open && t < |db.tables| && Targets(db.tables[t], rows, db.open[tx])
       case DeleteAuto(t, rows) => t < |db.tables| && TargetsBy(db.tables[t], rows, db.ts)
       case FlushTable(t, pages) =>
         t < |db.tables| && |pages| == |ToFlush(db.tables[t])| && forall p :: p in pages ==> p != TOMB
       case SortTable(t, order) => t < |db.tables| && Sorted(order) && Permuted(db.tables[t].index, order)
       case PruneTable(t, cutoff) => t < |db.tables| && !db.tables[t].dirty && cutoff < FLAG
       case Commit(tx) => tx in db.open && forall t :: t in db.tables ==> InOrder(t, tx)
       case Rollback(tx) => tx in db.open && forall t :: t in db.tables ==> InOrder(t, tx)
       case Tick => true
  }

  function FinishAll(ts: seq<Table>, tx: nat, c: nat): seq<Table> {
    seq(|ts|, i requires 0 <= i < |ts| => Finish(ts[i], tx, c))
  }

  ghost function Apply(db: Db, s: Step): Db
    requires Enabled(db, s)
  {
    match s
    case CreateTable => db.(tables := db.tables + [EMPTY])
    case Begin =>
      db.(nextTx := db.nextTx + 1, open := db.open[db.nextTx := db.ts], log := db.log + [BeginRec(db.nextTx)])
    case Insert(tx, t, row) =>
      db.(tables := db.tables[t := InsertTx(db.tables[t], tx, row)], log := db.log + [InsertRec(tx, t, row)])
    case InsertAuto(t, row) =>
      db.(tables := db.tables[t := PutRow(db.tables[t], db.ts + 1, row)], ts := db.ts + 1,
          log := db.log + [InsertRec(0, t, row)])
    case Delete(tx, t, rows) =>
      db.(tables := db.tables[t := DeleteTx(db.tables[t], tx, rows)], log := db.log + [DeleteRec(tx, t, rows)])
    case DeleteAuto(t, rows) =>
      db.(tables := db.tables[t := Tables.Delete(db.tables[t], rows, db.ts + 1)], ts := db.ts + 1,
          log := db.log + [DeleteRec(0, t, rows)])
    case FlushTable(t, pages) => db.(tables := db.tables[t := Flush(db.tables[t], pages)])
    case SortTable(t, order) => db.(tables := db.tables[t := Resort(db.tables[t], order)])
    case PruneTable(t, cutoff) => db.(tables := db.tables[t := Prune(db.tables[t], cutoff)])
    case Commit(tx) =>
      db.(tables := FinishAll(db.tables, tx, db.ts + 1), ts := db.ts + 1, open := db.open - {tx},
          log := db.log + [CommitRec(tx, db.ts + 1)])
    case Rollback(tx) =>
      db.(tables := FinishAll(db.tables, tx, ABORTED), open := db.open - {tx},
          log := db.log + [RollbackRec(tx)])
    case Tick => db.(ts := db.ts + 1)
  }

  // ── The invariant over every run ──

  ghost predicate TableOk(t: Table, ts: nat, open: map<nat, nat>) { Inv(t, ts) && t.ws.Keys <= open.Keys }

  ghost predicate DbInv(db: Db) {
    && db.ts < FLAG && 0 < db.nextTx < FLAG
    && (forall i :: 0 <= i < |db.tables| ==> TableOk(db.tables[i], db.ts, db.open))
    && (forall tx :: tx in db.open ==> 0 < tx < db.nextTx && db.open[tx] <= db.ts)
  }

  lemma {:induction false} Later(t: Table, ts: nat, ts': nat)
    requires Inv(t, ts) && ts <= ts' < FLAG
    ensures Inv(t, ts')
  {
    KnownMore(t, ts, |t.rows|, ts', t.ws.Keys);
  }

  lemma {:induction false} OthersOk(db: Db, t: nat, now: seq<Table>, ts': nat, open': map<nat, nat>)
    requires DbInv(db) && t < |db.tables| == |now| && now == db.tables[t := now[t]]
    requires db.ts <= ts' < FLAG && db.open.Keys <= open'.Keys
    requires TableOk(now[t], ts', open')
    ensures forall i :: 0 <= i < |now| ==> TableOk(now[i], ts', open')
  {
    forall i | 0 <= i < |now| ensures TableOk(now[i], ts', open') {
      assert TableOk(db.tables[i], db.ts, db.open);
      if i != t { Later(db.tables[i], db.ts, ts'); }
    }
  }

  predicate OnTable(s: Step) { Writes(s) || Maintains(s) }
  predicate Writes(s: Step) { s.Insert? || s.InsertAuto? || s.Delete? || s.DeleteAuto? }
  predicate Maintains(s: Step) { s.FlushTable? || s.SortTable? || s.PruneTable? }

  /** One table's operation keeps that table in order. */
  lemma {:induction false} InsertStepOk(db: Db, s: Step)
    requires DbInv(db) && Enabled(db, s) && (s.Insert? || s.InsertAuto?)
    ensures var d := Apply(db, s);
            s.table < |db.tables| && TableOk(d.tables[s.table], d.ts, d.open)
  {
    var t := db.tables[s.table];
    assert TableOk(t, db.ts, db.open);
    if s.Insert? { InsertTxInv(t, db.ts, s.tx, s.row); } else { PutAutoInv(t, db.ts, s.row); }
  }

  lemma {:induction false} DeleteStepOk(db: Db, s: Step)
    requires DbInv(db) && Enabled(db, s) && s.Delete?
    ensures var d := Apply(db, s);
            s.table < |db.tables| && TableOk(d.tables[s.table], d.ts, d.open)
  {
    assert TableOk(db.tables[s.table], db.ts, db.open);
    DeleteTxInv(db.tables[s.table], db.ts, s.tx, s.rows, db.open[s.tx]);
  }

  lemma {:induction false} DeleteAutoIs(db: Db, s: Step)
    requires Enabled(db, s) && s.DeleteAuto?
    ensures var d := Apply(db, s);
            && s.table < |db.tables| == |d.tables| && d.ts == db.ts + 1 < FLAG && d.open == db.open
            && TargetsBy(db.tables[s.table], s.rows, db.ts)
            && d.tables[s.table] == Tables.Delete(db.tables[s.table], s.rows, db.ts + 1)
  {
  }

  lemma {:induction false} DeleteAutoStepOk(db: Db, s: Step)
    requires Enabled(db, s) && s.DeleteAuto? && s.table < |db.tables| && TableOk(db.tables[s.table], db.ts, db.open)
    ensures var d := Apply(db, s);
            s.table < |d.tables| && TableOk(d.tables[s.table], d.ts, d.open)
  {
    var d, t, x := Apply(db, s), db.tables[s.table], Tables.Delete(db.tables[s.table], s.rows, db.ts + 1);
    DeleteAutoIs(db, s);
    assert d.tables[s.table] == x && d.ts == db.ts + 1 && d.open == db.open;
    var q: nat :| q <= db.ts && Targets(t, s.rows, q);
    DeleteAutoTable(t, db.ts, db.open, s.rows, q);
    assert TableOk(x, d.ts, d.open);
  }

  lemma {:induction false} DeleteAutoOk(db: Db, s: Step)
    requires DbInv(db) && Enabled(db, s) && s.DeleteAuto?
    ensures var d := Apply(db, s);
            s.table < |db.tables| && s.table < |d.tables| && TableOk(d.tables[s.table], d.ts, d.open)
  {
    assert TableOk(db.tables[s.table], db.ts, db.open);
    DeleteAutoStepOk(db, s);
  }

  lemma {:induction false} DeleteAutoTable(t: Table, ts: nat, open: map<nat, nat>, rows: seq<nat>, q: nat)
    requires TableOk(t, ts, open) && Targets(t, rows, q) && ts + 1 < FLAG
    ensures TableOk(Tables.Delete(t, rows, ts + 1), ts + 1, open)
  {
    DeleteAutoInv(t, ts, rows, q);
  }

  lemma {:induction false} MaintainStepOk(db: Db, s: Step)
    requires DbInv(db) && Enabled(db, s) && Maintains(s)
    ensures var d := Apply(db, s);
            s.table < |db.tables| && TableOk(d.tables[s.table], d.ts, d.open)
  {
    var t := db.tables[s.table];
    assert TableOk(t, db.ts, db.open);
    match s
    case FlushTable(_, pages) => FlushInv(t, db.ts, pages);
    case SortTable(_, order) => ResortInv(t, db.ts, order);
    case PruneTable(_, cutoff) => PruneInv(t, db.ts, cutoff);
  }

  lemma {:induction false} TableStepInv(db: Db, s: Step)
    requires DbInv(db) && Enabled(db, s) && OnTable(s)
    requires var d := Apply(db, s);
             s.table < |db.tables| && TableOk(d.tables[s.table], d.ts, d.open)
    ensures DbInv(Apply(db, s))
  {
    var d := Apply(db, s);
    OthersOk(db, s.table, d.tables, d.ts, d.open);
  }

  lemma {:induction false} TickInv(db: Db)
    requires DbInv(db) && Enabled(db, Tick)
    ensures DbInv(Apply(db, Tick))
  {
    forall i | 0 <= i < |db.tables| ensures TableOk(db.tables[i], db.ts + 1, db.open) {
      assert TableOk(db.tables[i], db.ts, db.open);
      Later(db.tables[i], db.ts, db.ts + 1);
    }
  }

  lemma {:induction false} CreateInv(db: Db)
    requires DbInv(db) && Enabled(db, CreateTable)
    ensures DbInv(Apply(db, CreateTable))
  {
    EmptyOk(db.ts, db.open);
  }

  lemma {:induction false} BeginInv(db: Db)
    requires DbInv(db) && Enabled(db, Begin)
    ensures DbInv(Apply(db, Begin))
  {
    var d := Apply(db, Begin);
    forall i | 0 <= i < |d.tables| ensures TableOk(d.tables[i], d.ts, d.open) {
      assert TableOk(db.tables[i], db.ts, db.open);
    }
  }

  lemma {:induction false} EndInv(db: Db, s: Step)
    requires DbInv(db) && Enabled(db, s) && (s.Commit? || s.Rollback?)
    ensures DbInv(Apply(db, s))
  {
    if s.Commit? {
      FinishAllOk(db, s.tx, db.ts + 1, Apply(db, s));
    } else {
      FinishAllOk(db, s.tx, ABORTED, Apply(db, s));
    }
  }

  lemma {:induction false} FinishAllOk(db: Db, tx: nat, c: nat, d: Db)
    requires DbInv(db) && tx in db.open && Ends(c, db.ts) && db.ts + 1 < FLAG && db.nextTx < FLAG - 1
    requires d.tables == FinishAll(db.tables, tx, c) && d.open == db.open - {tx} && d.nextTx == db.nextTx
    requires d.ts == if c == ABORTED then db.ts else db.ts + 1
    ensures DbInv(d)
  {
    forall i | 0 <= i < |d.tables| ensures TableOk(d.tables[i], d.ts, d.open) {
      FinishOk(db.tables[i], db.ts, db.open, tx, c);
    }
  }

  lemma {:induction false} FinishOk(t: Table, ts: nat, open: map<nat, nat>, tx: nat, c: nat)
    requires TableOk(t, ts, open) && Ends(c, ts) && ts + 1 < FLAG && tx < FLAG - 1
    ensures TableOk(Finish(t, tx, c), if c == ABORTED then ts else ts + 1, open - {tx})
  {
    FinishInv(t, ts, tx, c);
  }

  lemma {:induction false} EmptyOk(ts: nat, open: map<nat, nat>)
    requires ts < FLAG
    ensures TableOk(EMPTY, ts, open)
  {
    assert Batches(EMPTY) == [] && All(EMPTY) == [];
  }

  lemma {:induction false} StepInv(db: Db, s: Step)
    requires DbInv(db) && Enabled(db, s)
    ensures DbInv(Apply(db, s))
  {
    match s {
      case CreateTable => CreateInv(db);
      case Begin => BeginInv(db);
      case Tick => TickInv(db);
      case Commit(_) => EndInv(db, s);
      case Rollback(_) => EndInv(db, s);
      case _ =>
        if s.Insert? || s.InsertAuto? { InsertStepOk(db, s); }
        else if s.Delete? { DeleteStepOk(db, s); }
        else if s.DeleteAuto? { DeleteAutoOk(db, s); }
        else { MaintainStepOk(db, s); }
        TableStepInv(db, s);
    }
  }

  /** A run: every step enabled where it happens. */
  ghost predicate Run(db: Db, steps: seq<Step>)
    decreases |steps|
  {
    steps == [] || (Enabled(db, steps[0]) && Run(Apply(db, steps[0]), steps[1..]))
  }

  ghost function After(db: Db, steps: seq<Step>): Db
    requires Run(db, steps)
    decreases |steps|
  {
    if steps == [] then db else After(Apply(db, steps[0]), steps[1..])
  }

  /** Every state of every run is in order. */
  lemma {:induction false} RunInv(db: Db, steps: seq<Step>)
    requires DbInv(db) && Run(db, steps)
    ensures DbInv(After(db, steps))
    decreases |steps|
  {
    if steps != [] {
      StepInv(db, steps[0]);
      RunInv(Apply(db, steps[0]), steps[1..]);
    }
  }

  /** The states that runs of the database from its start can reach. */
  ghost predicate Reachable(db: Db) { exists steps :: Run(START, steps) && After(START, steps) == db }

  lemma StartReachable()
    ensures Reachable(START)
  {
    assert Run(START, []) && After(START, []) == START;
  }

  lemma {:induction false} RunSnoc(db: Db, steps: seq<Step>, s: Step)
    requires Run(db, steps) && Enabled(After(db, steps), s)
    ensures Run(db, steps + [s]) && After(db, steps + [s]) == Apply(After(db, steps), s)
    decreases |steps|
  {
    if steps == [] {
      assert steps + [s] == [s] && [s][1..] == [];
    } else {
      RunSnoc(Apply(db, steps[0]), steps[1..], s);
      assert (steps + [s])[1..] == steps[1..] + [s];
    }
  }

  lemma {:induction false} ReachStep(db: Db, s: Step) returns (d: Db)
    requires Reachable(db) && Enabled(db, s)
    ensures Reachable(d) && d == Apply(db, s)
  {
    var steps :| Run(START, steps) && After(START, steps) == db;
    RunSnoc(START, steps, s);
    d := Apply(db, s);
  }

  // ── Commit and rollback ──

  /**
   Commit at timestamp c = ts + 1, in all tables at once: at snapshots before c nothing changes; from
   c on, exactly the transaction's insertions are added and its deletions removed.
   */
  lemma {:induction false} CommitAtomic(db: Db, tx: nat, t: nat, r: nat, q: nat)
    requires DbInv(db) && Enabled(db, Commit(tx)) && t < |db.tables|
    ensures var d, w, c := Apply(db, Commit(tx)), SetOf(db.tables[t], tx), db.ts + 1;
            && d.log == db.log + [CommitRec(tx, c)]
            && |d.tables| == |db.tables|
            && (Sees(d.tables[t], r, q) <==>
                  if c <= q then r in w.ins || (Sees(db.tables[t], r, q) && r !in w.del)
                  else Sees(db.tables[t], r, q))
  {
    assert TableOk(db.tables[t], db.ts, db.open);
    FinishSees(db.tables[t], db.ts, tx, db.ts + 1, r, q);
  }

  /** Rollback changes what no snapshot sees. */
  lemma {:induction false} RollbackUnseen(db: Db, tx: nat, t: nat, r: nat, q: nat)
    requires DbInv(db) && Enabled(db, Rollback(tx)) && t < |db.tables|
    ensures Sees(Apply(db, Rollback(tx)).tables[t], r, q) <==> Sees(db.tables[t], r, q)
  {
    assert TableOk(db.tables[t], db.ts, db.open);
    FinishSees(db.tables[t], db.ts, tx, ABORTED, r, q);
  }

  // ── Snapshots ──

  /** The pruning steps that a snapshot must be protected from. */
  predicate Spares(s: Step, q: nat) { s.PruneTable? ==> s.cutoff <= q }

  lemma {:induction false} StepStable(db: Db, s: Step, t: nat, r: nat, q: nat)
    requires DbInv(db) && Enabled(db, s) && Spares(s, q) && q <= db.ts && t < |db.tables|
    ensures t < |Apply(db, s).tables|
    ensures Sees(Apply(db, s).tables[t], r, q) <==> Sees(db.tables[t], r, q)
  {
    assert TableOk(db.tables[t], db.ts, db.open);
    var x := db.tables[t];
    match s
    case CreateTable =>
    case Begin =>
    case Tick =>
    case Commit(tx) => CommitAtomic(db, tx, t, r, q);
    case Rollback(tx) => RollbackUnseen(db, tx, t, r, q);
    case _ => if s.table == t { TableStepStable(db, s, r, q); }
  }

  lemma {:induction false} TableStepStable(db: Db, s: Step, r: nat, q: nat)
    requires DbInv(db) && Enabled(db, s) && Spares(s, q) && q <= db.ts
    requires OnTable(s)
    ensures s.table < |db.tables|
    ensures Sees(Apply(db, s).tables[s.table], r, q) <==> Sees(db.tables[s.table], r, q)
  {
    var x := db.tables[s.table];
    assert TableOk(x, db.ts, db.open);
    match s
    case Insert(tx, _, row) => InsertTxSees(x, db.ts, tx, row, r, q);
    case InsertAuto(_, row) =>
      PutAutoSees(x, db.ts, row, r, q);
      if r == |x.rows| { UnknownRow(x, db.ts, r, q); }
    case Delete(tx, _, rows) =>
      DeleteSees(x, db.ts, rows, db.open[tx], Flagged(tx), r, q);
      assert All(DeleteTx(x, tx, rows)) == All(Tables.Delete(x, rows, Flagged(tx)));
    case DeleteAuto(_, rows) =>
      var q0: nat :| q0 <= db.ts && Targets(x, rows, q0);
      DeleteSees(x, db.ts, rows, q0, db.ts + 1, r, q);
    case FlushTable(_, pages) => FlushSees(x, pages, r, q);
    case SortTable(_, order) => ResortSees(x, db.ts, order, r, q);
    case PruneTable(_, cutoff) => PruneSees(x, db.ts, cutoff, r, q);
  }

  /** What a snapshot already issued sees is never changed by later steps that prune at or below it. */
  lemma {:induction false} SnapshotStable(db: Db, steps: seq<Step>, t: nat, r: nat, q: nat)
    requires DbInv(db) && Run(db, steps) && q <= db.ts && t < |db.tables|
    requires forall i :: 0 <= i < |steps| ==> Spares(steps[i], q)
    ensures t < |After(db, steps).tables|
    ensures Sees(After(db, steps).tables[t], r, q) <==> Sees(db.tables[t], r, q)
    decreases |steps|
  {
    if steps != [] {
      var d := Apply(db, steps[0]);
      StepInv(db, steps[0]);
      StepStable(db, steps[0], t, r, q);
      SnapshotStable(d, steps[1..], t, r, q);
    }
  }

  /** In particular, an open transaction reads at its snapshot what it read when it began. */
  lemma {:induction false} TransactionReads(db: Db, steps: seq<Step>, tx: nat, t: nat, r: nat)
    requires DbInv(db) && Run(db, steps) && tx in db.open && t < |db.tables|
    requires forall i :: 0 <= i < |steps| ==> Spares(steps[i], db.open[tx])
    ensures t < |After(db, steps).tables|
    ensures Sees(After(db, steps).tables[t], r, db.open[tx]) <==> Sees(db.tables[t], r, db.open[tx])
  {
    SnapshotStable(db, steps, t, r, db.open[tx]);
  }

  // ── The collector's cutoff ──

  /** compute_cutoff, given the timestamp it drew and the low watermark of readers (0 if unset). */
  function Cutoff(alloc: nat, minRead: nat): nat {
    if alloc <= 1 then 0
    else if 0 < minRead < alloc - 1 then minRead
    else alloc - 1
  }

  /** The cutoff spares a snapshot exactly when the watermark is set at or below it, or it is current. */
  lemma CutoffSpares(alloc: nat, minRead: nat, q: nat)
    ensures Cutoff(alloc, minRead) <= q <==> alloc <= 1 || (0 < minRead <= q && minRead < alloc - 1) || alloc - 1 <= q
  {
  }

  /** A prune leaves a snapshot of a table alone if and only if no row it sees is dead at the cutoff. */
  lemma {:induction false} PruneExact(db: Db, t: nat, cutoff: nat, q: nat)
    requires DbInv(db) && Enabled(db, PruneTable(t, cutoff))
    ensures var x, y := db.tables[t], Apply(db, PruneTable(t, cutoff)).tables[t];
            (forall r :: Sees(x, r, q) <==> Sees(y, r, q)) <==>
            !exists r :: Sees(x, r, q) && Dead(x.index, r, cutoff)
  {
    var x := db.tables[t];
    assert TableOk(x, db.ts, db.open);
    forall r ensures Sees(Prune(x, cutoff), r, q) <==> Sees(x, r, q) && !Dead(x.index, r, cutoff) {
      PruneSees(x, db.ts, cutoff, r, q);
    }
  }

  // ── A snapshot lost to the collector ──

  const ROW_A: Row := [[7]]

  /** One row inserted at 1 and flushed to the page at 0; then deleted at 2; then sorted. */
  function Kept(): Table { Flush(PutRow(EMPTY, 1, ROW_A), [0]) }
  function Doomed(): Table { Resort(Tables.Delete(Kept(), [0], 2), [Ver(0, 2, TOMB), Ver(0, 1, 0)]) }

  lemma {:induction false} KeptIs()
    ensures ToFlush(PutRow(EMPTY, 1, ROW_A)) == [Batch(0, [1])]
    ensures Kept() == Table([Ver(0, 1, 0)], true, [], None, [ROW_A], map[])
    ensures ToFlush(Kept()) == []
  {
    var t := PutRow(EMPTY, 1, ROW_A);
    assert [] + [1] == [1] && [] + [ROW_A] == [ROW_A];
    assert ToFlush(t) == [Batch(0, [1])];
    QueueVersOne(Batch(0, [1]), 0);
    assert BatchVers(Batch(0, [1]), 0) == [Ver(0, 1, 0)];
  }

  lemma {:induction false} FirstRowOk()
    ensures Inv(PutRow(EMPTY, 1, ROW_A), 1) && Sees(PutRow(EMPTY, 1, ROW_A), 0, 1)
  {
    EmptyOk(0, map[]);
    PutAutoInv(EMPTY, 0, ROW_A);
    PutAutoSees(EMPTY, 0, ROW_A, 0, 1);
  }

  lemma {:induction false} KeptOk()
    ensures Inv(Kept(), 1) && Sees(Kept(), 0, 1)
  {
    var t := PutRow(EMPTY, 1, ROW_A);
    KeptIs();
    FirstRowOk();
    FlushInv(t, 1, [0]);
    FlushSees(t, [0], 0, 1);
  }

  lemma {:induction false} DoomedIs()
    ensures Targets(Kept(), [0], 1) && TargetsBy(Kept(), [0], 1)
    ensures Permuted(Tables.Delete(Kept(), [0], 2).index, [Ver(0, 2, TOMB), Ver(0, 1, 0)])
  {
    KeptIs();
    KeptOk();
    NothingPending(Kept());
    assert Tables.Delete(Kept(), [0], 2).index == [Ver(0, 1, 0)] + [Ver(0, 2, TOMB)];
  }

  lemma {:induction false} DeletedOk()
    ensures Inv(Tables.Delete(Kept(), [0], 2), 2) && Sees(Tables.Delete(Kept(), [0], 2), 0, 1)
  {
    DoomedIs();
    KeptOk();
    DeleteAutoInv(Kept(), 1, [0], 1);
    DeleteSees(Kept(), 1, [0], 1, 2, 0, 1);
  }

  lemma {:induction false} DoomedDead()
    ensures Dead(Doomed().index, 0, 2)
  {
    var order := [Ver(0, 2, TOMB), Ver(0, 1, 0)];
    assert Candidate(order[0], 0, 2) && order[0] in order;
  }

  lemma {:induction false} DoomedOk()
    ensures Inv(Doomed(), 2) && Sees(Doomed(), 0, 1) && Dead(Doomed().index, 0, 2)
  {
    var d, order := Tables.Delete(Kept(), [0], 2), [Ver(0, 2, TOMB), Ver(0, 1, 0)];
    DoomedIs();
    DeletedOk();
    DoomedDead();
    assert Sorted(order);
    ResortInv(d, 2, order);
    ResortSees(d, 2, order, 0, 1);
  }

  lemma {:induction false} ReachBefore() returns (db: Db)
    ensures Reachable(db) && db.tables == [Kept()] && db.ts == 1 && db.nextTx == 1 && db.open == map[]
  {
    KeptIs();
    StartReachable();
    db := ReachStep(START, CreateTable);
    assert db.tables == [EMPTY];
    db := ReachStep(db, InsertAuto(0, ROW_A));
    assert db.tables == [PutRow(EMPTY, 1, ROW_A)];
    db := ReachStep(db, FlushTable(0, [0]));
  }

  lemma {:induction false} ReachDeleted() returns (db: Db)
    ensures Reachable(db) && db.tables == [Tables.Delete(Kept(), [0], 2)]
    ensures db.ts == 2 && db.open == map[1 := 1] && db.nextTx == 2
  {
    DoomedIs();
    db := ReachBefore();
    db := ReachStep(db, Begin);
    db := ReachStep(db, DeleteAuto(0, [0]));
  }

  lemma {:induction false} ReachTicked() returns (db: Db)
    ensures Reachable(db) && db.tables == [Tables.Delete(Kept(), [0], 2)]
    ensures db.ts == 3 && db.open == map[1 := 1] && db.nextTx == 2
  {
    db := ReachDeleted();
    db := ReachStep(db, Tick);
  }

  lemma {:induction false} SortEnabled(db: Db, order: seq<Ver>)
    requires |db.tables| == 1 && db.ts == 3 && db.nextTx == 2
    requires db.tables[0] == Tables.Delete(Kept(), [0], 2) && order == [Ver(0, 2, TOMB), Ver(0, 1, 0)]
    ensures Enabled(db, SortTable(0, order))
  {
    DoomedIs();
  }

  lemma {:induction false} ReachDoomed() returns (db: Db)
    ensures Reachable(db) && db.tables == [Doomed()] && db.ts == 3 && db.open == map[1 := 1] && db.nextTx == 2
  {
    var order := [Ver(0, 2, TOMB), Ver(0, 1, 0)];
    db := ReachTicked();
    SortEnabled(db, order);
    db := ReachStep(db, SortTable(0, order));
  }

  /**
   The watermark is never raised from zero, so the collector ignores readers: in a reachable state
   where transaction 1, with snapshot 1, still sees row 0 and the collector has drawn timestamp 3,
   its prune hides the row.
   */
  lemma {:induction false} SnapshotLost() returns (db: Db)
    ensures Reachable(db) && db.open == map[1 := 1] && db.ts == 3 && |db.tables| == 1
    ensures Sees(db.tables[0], 0, 1)
    ensures Enabled(db, PruneTable(0, Cutoff(3, 0)))
    ensures !Sees(Apply(db, PruneTable(0, Cutoff(3, 0))).tables[0], 0, 1)
  {
    DoomedOk();
    db := ReachDoomed();
    PruneSees(Doomed(), 2, 2, 0, 1);
  }
}
