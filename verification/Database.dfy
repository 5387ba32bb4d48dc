/** The database object: its tables, the timestamp allocator, the open transactions and the log. */
module Database {
  import opened Options
  import opened Versions
  import opened VersionIndex
  import opened Tables
  import opened TableSteps
  import opened TableStore
  import opened Mvcc
  import History

  /** Writes to this table are to be stamped. */
  predicate Touches(t: Table, tx: nat) { tx in t.ws && t.ws[tx].rows != [] }

  /** How ending a transaction leaves one table; an index without versions of it is not touched. */
  ghost predicate Ended(t: Table, tx: nat, c: nat, s: seq<Ver>, u: Table) {
    if Touches(t, tx) then EndsAs(t, tx, c, s, u) else u == Finish(t, tx, c)
  }

  /** The first k tables put in order. */
  ghost function PreparedTo(ts: seq<Table>, tx: nat, orders: seq<seq<Ver>>, k: nat): (r: seq<Table>)
    requires |orders| == |ts| && k <= |ts|
  {
    seq(|ts|, i requires 0 <= i < |ts| => if i < k && Touches(ts[i], tx) then Resort(ts[i], orders[i]) else ts[i])
  }

  /** The tables a transaction wrote to, with their indexes put in order. */
  ghost function Prepared(ts: seq<Table>, tx: nat, orders: seq<seq<Ver>>): seq<Table>
    requires |orders| == |ts|
  {
    PreparedTo(ts, tx, orders, |ts|)
  }

  ghost predicate Sorts(ts: seq<Table>, orders: seq<seq<Ver>>, tx: nat) {
    |orders| == |ts| && forall i :: 0 <= i < |ts| && Touches(ts[i], tx) ==>
      Ordered(ts[i].index, ts[i].dirty, orders[i])
  }

  /** The step, taken once the indexes it stamps are in order. */
  ghost predicate Commits(db: Mvcc.Db, s: Step, orders: seq<seq<Ver>>, d: Mvcc.Db)
    requires s.Commit? || s.Rollback?
  {
    && Sorts(db.tables, orders, s.tx)
    && var p := db.(tables := Prepared(db.tables, s.tx, orders));
       Enabled(p, s) && d == Apply(p, s)
  }

  class Db {
    var tables: seq<Store>
    var ws: seq<map<nat, WriteSet>>
    var ts: nat
    var nextTx: nat
    var open: map<nat, nat>
    var log: seq<Rec>

    ghost predicate Valid()
      reads this, tables, set s | s in tables :: s.index
    {
      && |ws| == |tables|
      && (forall i :: 0 <= i < |tables| ==> tables[i].Valid())
      && (forall i, j :: 0 <= i < j < |tables| ==> tables[i] != tables[j] && tables[i].index != tables[j].index)
    }

    ghost function TableStates(): (s: seq<Table>)
      requires |ws| == |tables|
      reads this, tables, set s | s in tables :: s.index
      ensures |s| == |tables|
    {
      seq(|tables|, i requires 0 <= i < |tables| == |ws| reads this, tables, set s | s in tables :: s.index =>
        tables[i].State(ws[i]))
    }

    /** The state of the state machine that the object is in. */
    ghost function State(): Mvcc.Db
      requires |ws| == |tables|
      reads this, tables, set s | s in tables :: s.index
    {
      Mvcc.Db(TableStates(), ts, nextTx, open, log)
    }

    constructor ()
      ensures Valid() && State() == START
    {
      tables, ws, ts, nextTx, open, log := [], [], 0, 1, map[], [];
    }

    /** The new transaction sees at its snapshot just what has committed, in whatever history led here. */
    method Begin() returns (tx: nat)
      requires Valid() && Enabled(State(), Step.Begin)
      modifies this
      ensures Valid() && tx == old(nextTx) && State() == Apply(old(State()), Step.Begin)
      ensures forall h :: History.Current(old(State()), h) ==> History.Opens(old(State()), h, tx, State())
    {
      ghost var was := State();
      tx := nextTx;
      nextTx := nextTx + 1;
      log := log + [BeginRec(tx)];
      open := open[tx := ts];
      forall h | History.Current(was, h) ensures History.Opens(was, h, tx, State()) { History.BeginOpens(was, h); }
    }

    /** Database::insert for a transaction; None for an unknown table or a transaction not open. */
    method InsertTx(tx: nat, t: nat, row: Row) returns (rid: Option<nat>)
      requires Valid() && ts + 1 < FLAG && nextTx < FLAG - 1
      modifies this, if t < |tables| then {tables[t]} else {}
      ensures Valid() && (rid.Some? <==> old(tx in open && t < |tables|))
      ensures rid.Some? ==> State() == Apply(old(State()), Insert(tx, t, row))
      ensures rid.None? ==> State() == old(State())
    {
      if t >= |tables| || tx !in open { return None; }
      log := log + [InsertRec(tx, t, row)];
      var r := tables[t].InsertRow(Flagged(tx), row);
      var w := if tx in ws[t] then ws[t][tx] else WriteSet([], {}, {});
      ws := ws[t := ws[t][tx := WriteSet(w.rows + [r], w.ins + {r}, w.del)]];
      assert TableStates() == old(TableStates())[t := Tables.InsertTx(old(TableStates())[t], tx, row)];
      rid := Some(r);
    }

    method InsertAuto(t: nat, row: Row) returns (rid: Option<nat>)
      requires Valid() && ts + 1 < FLAG && nextTx < FLAG - 1
      modifies this, if t < |tables| then {tables[t]} else {}
      ensures Valid() && (rid.Some? <==> old(t < |tables|))
      ensures rid.Some? ==> State() == Apply(old(State()), Step.InsertAuto(t, row))
      ensures rid.None? ==> State() == old(State())
    {
      if t >= |tables| { return None; }
      log := log + [InsertRec(0, t, row)];
      ts := ts + 1;
      var r := tables[t].InsertRow(ts, row);
      assert TableStates() == old(TableStates())[t := PutRow(old(TableStates())[t], ts, row)];
      rid := Some(r);
    }

    /** Database::delete_rows for a transaction. */
    method DeleteTx(tx: nat, t: nat, rows: seq<nat>) returns (ok: bool)
      requires Valid() && ts + 1 < FLAG && nextTx < FLAG - 1
      requires t < |tables| && tx in open ==> Targets(TableStates()[t], rows, open[tx])
      modifies this, if t < |tables| then {tables[t].index} else {}
      ensures Valid() && (ok <==> old(tx in open && t < |tables|))
      ensures ok ==> State() == Apply(old(State()), Step.Delete(tx, t, rows))
      ensures !ok ==> State() == old(State())
    {
      if t >= |tables| || tx !in open { return false; }
      log := log + [DeleteRec(tx, t, rows)];
      tables[t].DeleteRows(rows, Flagged(tx));
      var w := if tx in ws[t] then ws[t][tx] else WriteSet([], {}, {});
      ws := ws[t := ws[t][tx := WriteSet(w.rows + rows, w.ins, w.del + set r | r in rows)]];
      assert TableStates() == old(TableStates())[t := Tables.DeleteTx(old(TableStates())[t], tx, rows)];
      ok := true;
    }

    method DeleteAuto(t: nat, rows: seq<nat>) returns (ok: bool)
      requires Valid() && ts + 1 < FLAG && nextTx < FLAG - 1
      requires t < |tables| ==> TargetsBy(TableStates()[t], rows, ts)
      modifies this, if t < |tables| then {tables[t].index} else {}
      ensures Valid() && (ok <==> old(t < |tables|))
      ensures ok ==> State() == Apply(old(State()), Step.DeleteAuto(t, rows))
      ensures !ok ==> State() == old(State())
    {
      if t >= |tables| { return false; }
      log := log + [DeleteRec(0, t, rows)];
      ts := ts + 1;
      tables[t].DeleteRows(rows, ts);
      assert TableStates() == old(TableStates())[t := Tables.Delete(old(TableStates())[t], rows, ts)];
      ok := true;
    }

    method StampTable(i: nat, tx: nat, c: nat) returns (ghost s: seq<Ver>)
      requires Valid() && i < |tables|
      modifies this`ws, tables[i], tables[i].index
      ensures Valid() && Ended(old(TableStates())[i], tx, c, s, TableStates()[i])
      ensures forall j :: 0 <= j < |tables| && j != i ==> TableStates()[j] == old(TableStates())[j]
    {
      s := [];
      if tx in ws[i] {
        var rows := ws[i][tx].rows;
        ghost var was := tables[i].State(ws[i]);
        tables[i].CommitRows(rows, tx, c, ws[i]);
        if rows != [] { s :| EndsAs(was, tx, c, s, tables[i].State(ws[i] - {tx})); }
        ws := ws[i := ws[i] - {tx}];
        assert tables[i].State(ws[i]).ws == was.ws - {tx};
        assert forall j :: 0 <= j < |tables| && j != i ==> tables[j].State(ws[j]) == old(tables[j].State(ws[j]));
      }
    }

    /** The loop over the tables in the write set. */
    method StampTables(tx: nat, c: nat) returns (ghost orders: seq<seq<Ver>>)
      requires Valid()
      modifies this`ws, tables, set s | s in tables :: s.index
      ensures Valid() && |orders| == |tables|
      ensures forall i :: 0 <= i < |tables| ==> Ended(old(TableStates())[i], tx, c, orders[i], TableStates()[i])
    {
      ghost var was := TableStates();
      orders := [];
      for i := 0 to |tables|
        invariant Valid() && |orders| == i
        invariant forall j :: 0 <= j < i ==> Ended(was[j], tx, c, orders[j], TableStates()[j])
        invariant forall j :: i <= j < |tables| ==> TableStates()[j] == was[j]
      {
        ghost var s := StampTable(i, tx, c);
        orders := orders + [s];
      }
    }

    /** TransactionManager::commit; false for a transaction that is not open. */
    method Commit(tx: nat) returns (ok: bool, ghost orders: seq<seq<Ver>>)
      requires Valid() && ts + 1 < FLAG && nextTx < FLAG - 1
      modifies this, tables, set s | s in tables :: s.index
      ensures Valid() && (ok <==> old(tx in open))
      ensures !ok ==> State() == old(State())
      ensures ok ==> Commits(old(State()), Step.Commit(tx), orders, State())
    {
      orders := [];
      if tx !in open { return false, orders; }
      ghost var was := State();
      var c := ts + 1;
      ts := c;
      log := log + [CommitRec(tx, c)];
      orders := StampTables(tx, c);
      open := open - {tx};
      EndedAll(was.tables, tx, c, orders, TableStates());
      return true, orders;
    }

    method Rollback(tx: nat) returns (ok: bool, ghost orders: seq<seq<Ver>>)
      requires Valid() && ts + 1 < FLAG && nextTx < FLAG - 1
      modifies this, tables, set s | s in tables :: s.index
      ensures Valid() && (ok <==> old(tx in open))
      ensures !ok ==> State() == old(State())
      ensures ok ==> Commits(old(State()), Step.Rollback(tx), orders, State())
    {
      orders := [];
      if tx !in open { return false, orders; }
      ghost var was := State();
      log := log + [RollbackRec(tx)];
      orders := StampTables(tx, ABORTED);
      open := open - {tx};
      EndedAll(was.tables, tx, ABORTED, orders, TableStates());
      return true, orders;
    }
  }

  /** Stamping table by table is one Commit or Rollback step from the tables put in order. */
  lemma {:induction false} EndedAll(was: seq<Table>, tx: nat, c: nat, orders: seq<seq<Ver>>, now: seq<Table>)
    requires |was| == |now| == |orders| && forall i :: 0 <= i < |was| ==> Ended(was[i], tx, c, orders[i], now[i])
    ensures Sorts(was, orders, tx) && now == FinishAll(Prepared(was, tx, orders), tx, c)
    ensures forall t :: t in Prepared(was, tx, orders) ==> InOrder(t, tx)
  {
    forall i | 0 <= i < |was| ensures now[i] == Finish(Prepared(was, tx, orders)[i], tx, c) {
      assert Ended(was[i], tx, c, orders[i], now[i]);
    }
    assert now == FinishAll(Prepared(was, tx, orders), tx, c);
  }

  lemma {:induction false} PreparedNext(ts: seq<Table>, tx: nat, orders: seq<seq<Ver>>, k: nat)
    requires |orders| == |ts| && k < |ts|
    ensures PreparedTo(ts, tx, orders, k)[k] == ts[k]
    ensures PreparedTo(ts, tx, orders, k + 1) ==
            if Touches(ts[k], tx) then PreparedTo(ts, tx, orders, k)[k := Resort(ts[k], orders[k])]
            else PreparedTo(ts, tx, orders, k)
  {
  }

  /** Putting indexes in order is a run of sorting steps, so the object's commit is a run too. */
  lemma {:induction false} PreparedRun(db: Mvcc.Db, tx: nat, orders: seq<seq<Ver>>, k: nat) returns (steps: seq<Step>)
    requires db.ts + 1 < FLAG && db.nextTx < FLAG - 1 && Sorts(db.tables, orders, tx) && k <= |db.tables|
    ensures Run(db, steps) && After(db, steps) == db.(tables := PreparedTo(db.tables, tx, orders, k))
    ensures forall i :: 0 <= i < |steps| ==> steps[i].SortTable?
  {
    steps := [];
    if k == 0 {
      assert PreparedTo(db.tables, tx, orders, 0) == db.tables;
    } else {
      steps := PreparedRun(db, tx, orders, k - 1);
      PreparedNext(db.tables, tx, orders, k - 1);
      var t, s := db.tables[k - 1], orders[k - 1];
      if Touches(t, tx) {
        if t.dirty {
          RunSnoc(db, steps, SortTable(k - 1, s));
          steps := steps + [SortTable(k - 1, s)];
        } else {
          assert Resort(t, s) == t;
          assert PreparedTo(db.tables, tx, orders, k) == PreparedTo(db.tables, tx, orders, k - 1);
        }
      }
    }
  }

  /** What Commit and Rollback of the object do is a run of the state machine. */
  lemma {:induction false} CommitsRun(db: Mvcc.Db, s: Step, orders: seq<seq<Ver>>, d: Mvcc.Db) returns (steps: seq<Step>)
    requires db.ts + 1 < FLAG && db.nextTx < FLAG - 1 && (s.Commit? || s.Rollback?) && Commits(db, s, orders, d)
    ensures Run(db, steps) && After(db, steps) == d
  {
    steps := PreparedRun(db, s.tx, orders, |db.tables|);
    RunSnoc(db, steps, s);
    steps := steps + [s];
  }
}
