/**
 The log of a run against the run itself: it is closed, so transactions are replayed all or none,
 and replaying it, whole or cut short, gives back what readers of the database saw at that point,
 except for autocommitted insertions and for deletions.
 */
module Recovery {
  import opened Options
  import opened Sequences
  import opened Versions
  import opened Tables
  import opened TableSteps
  import opened TableFinish
  import opened Mvcc
  import opened History
  import opened Replay
  import opened Reopened

  /** The log with LSNs from 1 and the times at which the records were written. */
  function Entries(log: seq<Rec>, times: seq<nat>): (es: seq<Entry>)
    requires |times| == |log|
  {
    seq(|log|, i requires 0 <= i < |log| => Entry(i + 1, times[i], log[i]))
  }

  function CommitTs(log: seq<Rec>): map<nat, nat> {
    if log == [] then map[]
    else
      var n := |log| - 1;
      var m := CommitTs(log[..n]);
      if log[n].CommitRec? then m[log[n].tx := log[n].ts] else m
  }

  /** The insert records of a table; the j-th is the one of row j. */
  function Inserts(log: seq<Rec>, t: nat): (ins: seq<Rec>)
    ensures forall r :: r in ins ==> r.InsertRec? && r.table == t
  {
    if log == [] then []
    else
      var n := |log| - 1;
      Inserts(log[..n], t) + if log[n].InsertRec? && log[n].table == t then [log[n]] else []
  }

  lemma InsertsSnoc(log: seq<Rec>, r: Rec, t: nat)
    ensures Inserts(log + [r], t) == Inserts(log, t) + if r.InsertRec? && r.table == t then [r] else []
  {
    assert (log + [r])[..|log|] == log;
  }

  lemma CommitTsSnoc(log: seq<Rec>, r: Rec)
    ensures CommitTs(log + [r]) == if r.CommitRec? then CommitTs(log)[r.tx := r.ts] else CommitTs(log)
  {
    assert (log + [r])[..|log|] == log;
  }

  // ── What every run keeps of its log ──

  predicate Finishes(r: Rec) { r.CommitRec? || r.RollbackRec? }

  ghost predicate Ordered(log: seq<Rec>) {
    forall i, j :: 0 <= i < j < |log| && Finishes(log[i]) ==> log[j].tx != log[i].tx
  }

  /** Nothing of a transaction precedes its begin. */
  ghost predicate BegunFirst(log: seq<Rec>) {
    forall i, j :: 0 <= i < j < |log| && log[j].BeginRec? ==> log[i].tx != log[j].tx
  }

  ghost predicate Ids(db: Db) {
    forall i :: 0 <= i < |db.log| ==>
      db.log[i].tx < db.nextTx && (Finishes(db.log[i]) ==> 0 < db.log[i].tx && db.log[i].tx !in db.open)
  }

  /** Row j of table t is what its insert record says, inserted by the transaction it names. */
  ghost predicate RowOk(db: Db, h: Hist, t: nat, j: nat)
    requires t < |db.tables| && j < |db.tables[t].rows| == |Inserts(db.log, t)|
  {
    var r := Inserts(db.log, t)[j];
    && r.row == db.tables[t].rows[j]
    && if r.tx != 0 then Act(Tx(r.tx), t, j, false) in h.acts else exists ts :: Act(Auto(ts), t, j, false) in h.acts
  }

  ghost predicate RowsOk(db: Db, h: Hist, t: nat)
    requires t < |db.tables|
  {
    && |db.tables[t].rows| == |Inserts(db.log, t)|
    && forall j :: 0 <= j < |db.tables[t].rows| ==> RowOk(db, h, t, j)
  }

  ghost predicate LogOk(db: Db, h: Hist) {
    && Ordered(db.log) && BegunFirst(db.log) && Ids(db)
    && h.when == CommitTs(db.log)
    && (forall t :: 0 <= t < |db.tables| ==> RowsOk(db, h, t))
    && TablesExist(db)
  }

  lemma {:induction false} InsertsNone(log: seq<Rec>, t: nat)
    requires forall i :: 0 <= i < |log| && log[i].InsertRec? ==> log[i].table < t
    ensures Inserts(log, t) == []
  {
    if log != [] { InsertsNone(log[..|log| - 1], t); }
  }

  /** The record a step appends to the log, if any. */
  function Note(db: Db, s: Step): seq<Rec> {
    match s
    case Begin => [BeginRec(db.nextTx)]
    case Insert(tx, t, row) => [InsertRec(tx, t, row)]
    case InsertAuto(t, row) => [InsertRec(0, t, row)]
    case Delete(tx, t, rows) => [DeleteRec(tx, t, rows)]
    case DeleteAuto(t, rows) => [DeleteRec(0, t, rows)]
    case Commit(tx) => [CommitRec(tx, db.ts + 1)]
    case Rollback(tx) => [RollbackRec(tx)]
    case _ => []
  }

  lemma {:induction false} LogGrows(db: Db, s: Step)
    requires Enabled(db, s)
    ensures Apply(db, s).log == db.log + Note(db, s)
    ensures |db.tables| <= |Apply(db, s).tables|
  {
  }

  lemma {:induction false} NoteIds(db: Db, s: Step)
    requires DbInv(db) && Enabled(db, s) && Note(db, s) != []
    ensures var r, d := Note(db, s)[0], Apply(db, s);
            && r.tx < d.nextTx && (Finishes(r) ==> 0 < r.tx && r.tx !in d.open)
            && (r.tx == 0 || r.tx in db.open || r.tx == db.nextTx)
            && (r.InsertRec? ==> r.table < |d.tables|)
  {
  }

  lemma {:induction false} OpenStep(db: Db, s: Step, tx: nat)
    requires Enabled(db, s) && tx < db.nextTx
    ensures tx < Apply(db, s).nextTx && (tx !in db.open ==> tx !in Apply(db, s).open)
  {
  }

  lemma {:induction false} OrderedStep(db: Db, h: Hist, s: Step)
    requires DbInv(db) && Ordered(db.log) && Ids(db) && Enabled(db, s)
    ensures Ordered(Apply(db, s).log)
  {
    LogGrows(db, s);
    if Note(db, s) != [] {
      NoteIds(db, s);
      assert forall i :: 0 <= i < |db.log| && Finishes(db.log[i]) ==> db.log[i].tx != Note(db, s)[0].tx;
    }
  }

  lemma {:induction false} BegunStep(db: Db, s: Step)
    requires BegunFirst(db.log) && Ids(db) && Enabled(db, s)
    ensures BegunFirst(Apply(db, s).log)
  {
    LogGrows(db, s);
    if s.Begin? {
      assert Note(db, s) == [BeginRec(db.nextTx)];
      assert forall i :: 0 <= i < |db.log| ==> db.log[i].tx < db.nextTx;
    }
  }

  lemma {:induction false} IdsStep(db: Db, h: Hist, s: Step)
    requires DbInv(db) && Ids(db) && Enabled(db, s)
    ensures Ids(Apply(db, s))
  {
    var d := Apply(db, s);
    LogGrows(db, s);
    forall i | 0 <= i < |d.log|
      ensures d.log[i].tx < d.nextTx && (Finishes(d.log[i]) ==> 0 < d.log[i].tx && d.log[i].tx !in d.open)
    {
      if i < |db.log| {
        assert d.log[i] == db.log[i];
        OpenStep(db, s, db.log[i].tx);
      } else {
        NoteIds(db, s);
      }
    }
  }

  lemma {:induction false} NextWhen(db: Db, h: Hist, s: Step)
    ensures Next(h, db, s).when == 
            if Note(db, s) != [] && Note(db, s)[0].CommitRec? then h.when[Note(db, s)[0].tx := Note(db, s)[0].ts]
            else h.when
  {
  }

  lemma {:induction false} WhenStep(db: Db, h: Hist, s: Step)
    requires h.when == CommitTs(db.log) && Enabled(db, s)
    ensures Next(h, db, s).when == CommitTs(Apply(db, s).log)
  {
    LogGrows(db, s);
    NextWhen(db, h, s);
    var n := Note(db, s);
    if n != [] {
      assert n == [n[0]];
      CommitTsSnoc(db.log, n[0]);
    } else {
      assert db.log + [] == db.log;
    }
  }

  ghost predicate TablesExist(db: Db) {
    forall i :: 0 <= i < |db.log| && db.log[i].InsertRec? ==> db.log[i].table < |db.tables|
  }

  lemma {:induction false} TablesStep(db: Db, s: Step)
    requires DbInv(db) && TablesExist(db) && Enabled(db, s)
    ensures TablesExist(Apply(db, s))
  {
    LogGrows(db, s);
    if Note(db, s) != [] { NoteIds(db, s); }
  }

  lemma {:induction false} InsertsStep(db: Db, s: Step, t: nat)
    requires Enabled(db, s)
    ensures Inserts(Apply(db, s).log, t) == Inserts(db.log, t) +
            if s.Insert? && s.table == t then [InsertRec(s.tx, t, s.row)]
            else if s.InsertAuto? && s.table == t then [InsertRec(0, t, s.row)] else []
  {
    LogGrows(db, s);
    if Note(db, s) != [] {
      assert Note(db, s) == [Note(db, s)[0]];
      InsertsSnoc(db.log, Note(db, s)[0], t);
    } else {
      assert db.log + [] == db.log;
    }
  }

  lemma {:induction false} RowValues(db: Db, s: Step, t: nat)
    requires Enabled(db, s) && t < |db.tables|
    ensures t < |Apply(db, s).tables|
    ensures Apply(db, s).tables[t].rows ==
            db.tables[t].rows + if (s.Insert? || s.InsertAuto?) && s.table == t then [s.row] else []
  {
  }

  lemma {:induction false} OldRow(db: Db, h: Hist, s: Step, t: nat, j: nat)
    requires Enabled(db, s) && t < |db.tables| && RowsOk(db, h, t) && j < |db.tables[t].rows|
    requires t < |Apply(db, s).tables| && j < |Apply(db, s).tables[t].rows| == |Inserts(Apply(db, s).log, t)|
    ensures RowOk(Apply(db, s), Next(h, db, s), t, j)
  {
    InsertsStep(db, s, t);
    RowValues(db, s, t);
    assert RowOk(db, h, t, j);
    ActsGrow(h, db, s);
    assert Inserts(Apply(db, s).log, t)[j] == Inserts(db.log, t)[j];
    assert Apply(db, s).tables[t].rows[j] == db.tables[t].rows[j];
  }

  lemma {:induction false} RowAt(db: Db, h: Hist, s: Step, t: nat, j: nat)
    requires DbInv(db) && Enabled(db, s) && t < |db.tables| && RowsOk(db, h, t)
    requires t < |Apply(db, s).tables| && j < |Apply(db, s).tables[t].rows| == |Inserts(Apply(db, s).log, t)|
    ensures RowOk(Apply(db, s), Next(h, db, s), t, j)
  {
    if j < |db.tables[t].rows| {
      OldRow(db, h, s, t, j);
    } else {
      RowValues(db, s, t);
      NewRow(db, h, s, t, j);
    }
  }

  lemma {:induction false} RowsStep(db: Db, h: Hist, s: Step, t: nat)
    requires DbInv(db) && LogOk(db, h) && Enabled(db, s) && t < |Apply(db, s).tables|
    ensures RowsOk(Apply(db, s), Next(h, db, s), t)
  {
    InsertsStep(db, s, t);
    if t < |db.tables| {
      RowValues(db, s, t);
      assert RowsOk(db, h, t);
      forall j | 0 <= j < |Apply(db, s).tables[t].rows| ensures RowOk(Apply(db, s), Next(h, db, s), t, j) {
        RowAt(db, h, s, t, j);
      }
    } else {
      NewTable(db, s, t);
    }
  }

  lemma {:induction false} NewTable(db: Db, s: Step, t: nat)
    requires Enabled(db, s) && |db.tables| <= t < |Apply(db, s).tables|
    requires TablesExist(db)
    ensures Apply(db, s).tables[t].rows == [] && Inserts(Apply(db, s).log, t) == []
  {
    InsertsNone(db.log, t);
  }

  lemma ActsGrow(h: Hist, db: Db, s: Step)
    ensures h.acts <= Next(h, db, s).acts
  {
  }

  lemma {:induction false} NewAct(db: Db, h: Hist, s: Step, t: nat)
    requires DbInv(db) && Enabled(db, s) && (s.Insert? || s.InsertAuto?) && s.table == t < |db.tables|
    ensures var n, g := |db.tables[t].rows|, Next(h, db, s);
            if s.Insert? then s.tx > 0 && Act(Tx(s.tx), t, n, false) in g.acts
            else Act(Auto(db.ts + 1), t, n, false) in g.acts
  {
  }

  lemma {:induction false} NewRow(db: Db, h: Hist, s: Step, t: nat, n: nat)
    requires DbInv(db) && Enabled(db, s) && (s.Insert? || s.InsertAuto?) && s.table == t < |db.tables|
    requires n == |db.tables[t].rows| == |Inserts(db.log, t)|
    requires t < |Apply(db, s).tables| && n < |Apply(db, s).tables[t].rows| == |Inserts(Apply(db, s).log, t)|
    ensures RowOk(Apply(db, s), Next(h, db, s), t, n)
  {
    var d, g := Apply(db, s), Next(h, db, s);
    InsertsStep(db, s, t);
    RowValues(db, s, t);
    NewAct(db, h, s, t);
    assert Inserts(d.log, t)[n] == InsertRec(if s.Insert? then s.tx else 0, t, s.row);
    assert d.tables[t].rows[n] == s.row;
  }

  lemma {:induction false} LogStep(db: Db, h: Hist, s: Step)
    requires DbInv(db) && LogOk(db, h) && Enabled(db, s)
    ensures LogOk(Apply(db, s), Next(h, db, s))
  {
    OrderedStep(db, h, s);
    BegunStep(db, s);
    IdsStep(db, h, s);
    WhenStep(db, h, s);
    TablesStep(db, s);
    forall t | 0 <= t < |Apply(db, s).tables| ensures RowsOk(Apply(db, s), Next(h, db, s), t) {
      RowsStep(db, h, s, t);
    }
  }

  lemma {:induction false} LogRun(db: Db, h: Hist, steps: seq<Step>)
    requires Base(db, h) && LogOk(db, h) && Run(db, steps)
    ensures Base(After(db, steps), HistOf(h, db, steps)) && LogOk(After(db, steps), HistOf(h, db, steps))
    decreases |steps|
  {
    if steps != [] {
      BaseStep(db, h, steps[0]);
      LogStep(db, h, steps[0]);
      LogRun(Apply(db, steps[0]), Next(h, db, steps[0]), steps[1..]);
    }
  }

  lemma {:induction false} StartLogged(steps: seq<Step>)
    requires Run(START, steps)
    ensures Base(After(START, steps), HistOf(NOTHING, START, steps))
    ensures LogOk(After(START, steps), HistOf(NOTHING, START, steps))
  {
    StartTied(0);
    LogRun(START, NOTHING, steps);
  }

  // ── All or none, for every run ──

  /** The transaction began at or after the checkpoint LSN, in a log numbered from 1. */
  ghost predicate BegunLate(log: seq<Rec>, tx: nat, ckpt: nat) {
    exists b :: 0 <= b < |log| && log[b] == BeginRec(tx) && ckpt <= b + 1
  }

  lemma {:induction false} RunClosed(steps: seq<Step>, times: seq<nat>, cut: nat, ckpt: nat, tx: nat)
    requires Run(START, steps) && cut <= |After(START, steps).log| == |times|
    ensures Closed(Entries(After(START, steps).log, times)[..cut])
    ensures BegunLate(After(START, steps).log, tx, ckpt) ==>
              AllLater(Entries(After(START, steps).log, times)[..cut], ckpt, tx)
  {
    StartLogged(steps);
    var log := After(START, steps).log;
    var es := Entries(log, times)[..cut];
    if b :| 0 <= b < |log| && log[b] == BeginRec(tx) && ckpt <= b + 1 {
      forall e | e in es && e.rec.tx == tx && !e.rec.BeginRec? ensures e.lsn > ckpt {
        var i :| 0 <= i < cut && es[i] == e;
        assert log[i].tx == log[b].tx;
        assert !(i < b);
      }
    }
  }

  /**
   For every run, every cut of its log and every target time: of a transaction that began at or after
   the checkpoint LSN, a reader opened afresh applies every insertion, with its commit timestamp, if the
   commit record is in the replayed part, and none otherwise.
   */
  lemma {:induction false} RunAllOrNone(steps: seq<Step>, times: seq<nat>, cut: nat, ckpt: nat, target: Option<nat>, tx: nat)
    requires Run(START, steps) && cut <= |After(START, steps).log| == |times|
    requires BegunLate(After(START, steps).log, tx, ckpt)
    ensures var db := After(START, steps);
            var es := Entries(db.log, times)[..cut];
            var p := Prefix(es, ckpt, target);
            var got := Pick(Recover(es, ckpt, target, |db.tables|), tx);
            && (forall i :: 0 <= i < |p| && IsCommit(p[i], tx) ==>
                  got == Own(es, tx, p[i].rec.ts, |db.tables|))
            && ((forall e :: e in p ==> !IsCommit(e, tx)) ==> got == [])
  {
    var db := After(START, steps);
    RunClosed(steps, times, cut, ckpt, tx);
    AllOrNone(Entries(db.log, times)[..cut], ckpt, target, |db.tables|, tx);
  }

  /** As coded, the same insertions are applied, some of them twice; none of others. */
  lemma {:induction false} RunAllOrNoneAsCoded(steps: seq<Step>, times: seq<nat>, cut: nat, segs: seq<Seg<Entry>>, ckpt: nat,
                                               target: Option<nat>, tx: nat, r: Redo)
    requires Run(START, steps) && cut <= |After(START, steps).log| == |times|
    requires BegunLate(After(START, steps).log, tx, ckpt) && r.tx == tx
    requires Read(segs) == Entries(After(START, steps).log, times)[..cut]
    ensures var tables, es := |After(START, steps).tables|, Read(segs);
            var p := Prefix(es, ckpt, target);
            && (forall i :: 0 <= i < |p| && IsCommit(p[i], tx) ==>
                  (r in RecoverAsCoded(segs, ckpt, target, tables) <==> r in Own(es, tx, p[i].rec.ts, tables)))
            && ((forall e :: e in p ==> !IsCommit(e, tx)) ==> r !in RecoverAsCoded(segs, ckpt, target, tables))
  {
    RunClosed(steps, times, cut, ckpt, tx);
    AllOrNoneAsCoded(segs, ckpt, target, |After(START, steps).tables|, tx, r);
  }

  // ── What recovery restores ──

  /** Whether the insertion of a record is committed at or before q, by the timestamps given. */
  predicate DoneBy(r: Rec, commits: map<nat, nat>, q: nat) { r.tx in commits && commits[r.tx] <= q }

  /** The rows, numbered in log order, whose insert records replay applies with a stamp up to q. */
  function Restored(ins: seq<Rec>, commits: map<nat, nat>, q: nat): (js: seq<nat>)
    ensures IdsBelow(js, |ins|)
  {
    if ins == [] then []
    else
      var n := |ins| - 1;
      Restored(ins[..n], commits, q) + if DoneBy(ins[n], commits, q) then [n] else []
  }

  /** The rows among the first n that readers at q see. */
  function Seen(t: Table, n: nat, q: nat): (js: seq<nat>)
    ensures IdsBelow(js, n)
  {
    if n == 0 then [] else Seen(t, n - 1, q) + if Sees(t, n - 1, q) then [n - 1] else []
  }

  function Values(rows: seq<Row>, js: seq<nat>): seq<Row>
    requires IdsBelow(js, |rows|)
  {
    seq(|js|, i requires 0 <= i < |js| => rows[js[i]])
  }

  /** What a reader at q finds in table t after the redos. */
  function Contents(rs: seq<Redo>, t: nat, q: nat): seq<Row> {
    if rs == [] then []
    else
      var n := |rs| - 1;
      Contents(rs[..n], t, q) + if rs[n].table == t && rs[n].ts <= q then [rs[n].row] else []
  }

  lemma ContentsSnoc(rs: seq<Redo>, r: Redo, t: nat, q: nat)
    ensures Contents(rs + [r], t, q) == Contents(rs, t, q) + if r.table == t && r.ts <= q then [r.row] else []
  {
    assert (rs + [r])[..|rs|] == rs;
  }

  lemma {:induction false} EntriesCommits(log: seq<Rec>, times: seq<nat>)
    requires |times| == |log|
    ensures Commits(Entries(log, times), 0) == CommitTs(log)
  {
    if log != [] {
      var n := |log| - 1;
      EntriesCommits(log[..n], times[..n]);
      assert Entries(log, times)[..n] == Entries(log[..n], times[..n]);
    }
  }

  function RowsOf(ins: seq<Rec>): (rows: seq<Row>)
    requires forall r :: r in ins ==> r.InsertRec?
  {
    seq(|ins|, i requires 0 <= i < |ins| => ins[i].row)
  }

  function RestoredRows(ins: seq<Rec>, commits: map<nat, nat>, q: nat): seq<Row>
    requires forall r :: r in ins ==> r.InsertRec?
  {
    Values(RowsOf(ins), Restored(ins, commits, q))
  }

  lemma {:induction false} RestoredSnoc(ins: seq<Rec>, r: Rec, commits: map<nat, nat>, q: nat)
    requires r.InsertRec? && forall x :: x in ins ==> x.InsertRec?
    ensures RestoredRows(ins + [r], commits, q) ==
            RestoredRows(ins, commits, q) + if DoneBy(r, commits, q) then [r.row] else []
  {
    assert (ins + [r])[..|ins|] == ins;
  }

  lemma {:induction false} RedosContents(log: seq<Rec>, times: seq<nat>, commits: map<nat, nat>, tables: nat, t: nat, q: nat)
    requires |times| == |log| && t < tables
    ensures Contents(Redos(Entries(log, times), 0, commits, tables), t, q) == RestoredRows(Inserts(log, t), commits, q)
  {
    if log != [] {
      var n, es := |log| - 1, Entries(log, times);
      var r, rest := log[n], Entries(log[..n], times[..n]);
      assert es[..n] == rest && es[n] == Entry(n + 1, times[n], r);
      RedosContents(log[..n], times[..n], commits, tables, t, q);
      if r.InsertRec? && r.table == t { RestoredSnoc(Inserts(log[..n], t), r, commits, q); }
      else { assert Inserts(log[..n], t) + [] == Inserts(log[..n], t); }
      if Redone(es[n], 0, commits, tables) {
        ContentsSnoc(Redos(rest, 0, commits, tables), Redo(r.tx, r.table, r.row, commits[r.tx]), t, q);
      }
    }
  }

  ghost predicate Alike(t: Table, ins: seq<Rec>, commits: map<nat, nat>, q: nat) {
    forall j :: 0 <= j < |ins| ==> (Sees(t, j, q) <==> DoneBy(ins[j], commits, q))
  }

  lemma {:induction false} AlikeLast(t: Table, ins: seq<Rec>, commits: map<nat, nat>, q: nat, n: nat)
    requires |ins| == n + 1
    ensures Alike(t, ins, commits, q) <==>
            Alike(t, ins[..n], commits, q) && (Sees(t, n, q) <==> DoneBy(ins[n], commits, q))
  {
    var front := ins[..n];
    assert forall j :: 0 <= j < n ==> front[j] == ins[j];
  }

  lemma {:induction false} SameRows(t: Table, ins: seq<Rec>, commits: map<nat, nat>, q: nat)
    ensures Seen(t, |ins|, q) == Restored(ins, commits, q) <==> Alike(t, ins, commits, q)
  {
    if ins != [] {
      var n := |ins| - 1;
      SameRows(t, ins[..n], commits, q);
      AlikeLast(t, ins, commits, q, n);
      LastApart(Seen(t, n, q), Sees(t, n, q), Restored(ins[..n], commits, q), DoneBy(ins[n], commits, q), n);
    }
  }

  lemma LastApart(a: seq<nat>, x: bool, b: seq<nat>, y: bool, n: nat)
    requires IdsBelow(a, n) && IdsBelow(b, n)
    ensures var c, d := a + (if x then [n] else []), b + (if y then [n] else []);
            c == d <==> a == b && x == y
  {
    if x && y {
      assert (a + [n])[..|a|] == a && (b + [n])[..|b|] == b;
    } else if x {
      assert (a + [n])[|a|] == n;
    } else if y {
      assert (b + [n])[|b|] == n;
    } else {
      assert a + [] == a && b + [] == b;
    }
  }

  /** Row j was inserted outside any transaction. */
  predicate Loose(log: seq<Rec>, t: nat, j: nat) { j < |Inserts(log, t)| && Inserts(log, t)[j].tx == 0 }

  lemma {:induction false} RowDone(db: Db, h: Hist, t: nat, j: nat, q: nat)
    requires Base(db, h) && LogOk(db, h) && t < |db.tables| && j < |db.tables[t].rows|
    ensures |Inserts(db.log, t)| == |db.tables[t].rows|
    ensures DoneBy(Inserts(db.log, t)[j], CommitTs(db.log), q) <==>
            Has(h, t, j, false, q) && !Loose(db.log, t, j)
  {
    assert RowsOk(db, h, t) && RowOk(db, h, t, j);
    var r := Inserts(db.log, t)[j];
    if r.tx != 0 {
      assert forall w :: Act(w, t, j, false) in h.acts ==> w == Tx(r.tx);
      if DoneBy(r, h.when, q) { assert Done(h, Tx(r.tx), q); }
    } else {
      assert 0 !in h.when;
    }
  }

  lemma {:induction false} RecoveredRows(db: Db, h: Hist, times: seq<nat>, t: nat, q: nat)
    requires LogOk(db, h) && t < |db.tables| && |times| == |db.log|
    ensures |Inserts(db.log, t)| == |db.tables[t].rows|
    ensures Contents(Recover(Entries(db.log, times), 0, None, |db.tables|), t, q) ==
            Values(db.tables[t].rows, Restored(Inserts(db.log, t), CommitTs(db.log), q))
  {
    var x, ins := db.tables[t], Inserts(db.log, t);
    assert RowsOk(db, h, t);
    PrefixPlain(Entries(db.log, times), 0);
    EntriesCommits(db.log, times);
    RedosContents(db.log, times, CommitTs(db.log), |db.tables|, t, q);
    forall j | 0 <= j < |x.rows| ensures RowsOf(ins)[j] == x.rows[j] {
      assert RowOk(db, h, t, j);
    }
    assert RowsOf(ins) == x.rows;
  }

  /** A row inserted by q is restored as read unless it was inserted loose, or deleted, but not both. */
  ghost predicate Faithful(db: Db, h: Hist, t: nat, j: nat, q: nat) {
    Has(h, t, j, false, q) ==> (Loose(db.log, t, j) <==> Has(h, t, j, true, q))
  }

  ghost predicate AllFaithful(db: Db, h: Hist, t: nat, q: nat) {
    t < |db.tables| && forall j :: 0 <= j < |db.tables[t].rows| ==> Faithful(db, h, t, j, q)
  }

  /** Recovery brings back exactly the rows that readers at q saw. */
  predicate RestoresSeen(db: Db, t: nat, q: nat) {
    && t < |db.tables|
    && Restored(Inserts(db.log, t), CommitTs(db.log), q) == Seen(db.tables[t], |db.tables[t].rows|, q)
  }

  lemma {:induction false} RecoveredExactly(db: Db, h: Hist, t: nat, q: nat)
    requires Base(db, h) && LogOk(db, h) && Exact(db, h, q) && t < |db.tables|
    ensures RestoresSeen(db, t, q) <==> AllFaithful(db, h, t, q)
  {
    var x, ins := db.tables[t], Inserts(db.log, t);
    assert RowsOk(db, h, t);
    SameRows(x, ins, CommitTs(db.log), q);
    forall j | 0 <= j < |x.rows|
      ensures (Sees(x, j, q) <==> DoneBy(ins[j], CommitTs(db.log), q)) <==> Faithful(db, h, t, j, q)
    {
      RowDone(db, h, t, j, q);
      assert Sees(x, j, q) <==> Shown(h, t, j, q);
    }
  }

  /**
   For every run, with the whole log replayed: what a reader at q then finds in a table is the rows
   of the insert records committed by q, in their order.
   */
  lemma {:induction false} RecoveryRestores(steps: seq<Step>, times: seq<nat>, t: nat, q: nat)
    requires Run(START, steps) && t < |After(START, steps).tables| && |times| == |After(START, steps).log|
    ensures var db := After(START, steps);
            && |Inserts(db.log, t)| == |db.tables[t].rows|
            && Contents(Recover(Entries(db.log, times), 0, None, |db.tables|), t, q) ==
               Values(db.tables[t].rows, Restored(Inserts(db.log, t), CommitTs(db.log), q))
  {
    StartLogged(steps);
    RecoveredRows(After(START, steps), HistOf(NOTHING, START, steps), times, t, q);
  }

  /**
   Those are exactly the rows that readers of the running database see at q if and only if, of the
   rows inserted by q, just those inserted outside a transaction have been deleted by q.
   */
  lemma {:induction false} RecoveryFaithful(steps: seq<Step>, t: nat, q: nat)
    requires Run(START, steps) && t < |After(START, steps).tables|
    requires forall i :: 0 <= i < |steps| ==> Spares(steps[i], q)
    ensures RestoresSeen(After(START, steps), t, q) <==>
            AllFaithful(After(START, steps), HistOf(NOTHING, START, steps), t, q)
  {
    StartLogged(steps);
    StartTied(q);
    RunKeeps(START, NOTHING, steps, q);
    RecoveredExactly(After(START, steps), HistOf(NOTHING, START, steps), t, q);
  }

  // ── Cutting the log short ──

  /** Every prefix of the log of a run is the whole log of an earlier state of that run. */
  lemma {:induction false} CutIsEarlier(db: Db, steps: seq<Step>, cut: nat) returns (m: nat)
    requires Run(db, steps) && |db.log| <= cut <= |After(db, steps).log|
    ensures m <= |steps| && Run(db, steps[..m]) && After(db, steps[..m]).log == After(db, steps).log[..cut]
    decreases |steps|
  {
    LogExtends(db, steps);
    if |db.log| == cut {
      m := 0;
      assert After(db, steps[..0]) == db;
    } else {
      LogGrows(db, steps[0]);
      var k := CutIsEarlier(Apply(db, steps[0]), steps[1..], cut);
      m := k + 1;
      assert steps[..m][1..] == steps[1..][..k];
    }
  }

  lemma {:induction false} LogExtends(db: Db, steps: seq<Step>)
    requires Run(db, steps)
    ensures db.log <= After(db, steps).log
    decreases |steps|
  {
    if steps != [] {
      LogGrows(db, steps[0]);
      LogExtends(Apply(db, steps[0]), steps[1..]);
    }
  }

  lemma {:induction false} EntriesCut(log: seq<Rec>, times: seq<nat>, cut: nat)
    requires |times| == |log| && cut <= |log|
    ensures Entries(log, times)[..cut] == Entries(log[..cut], times[..cut])
  {
  }

  /**
   Recovery to a target time, or from a log cut short, of any run is recovery of the whole log of
   an earlier state of the same run, so RecoveryRestores and RecoveryFaithful speak of it.  It is the
   last state whose records are all no later than the target and before the cut.
   */
  lemma {:induction false} RecoveryOfPast(steps: seq<Step>, times: seq<nat>, cut: nat, target: Option<nat>, tables: nat)
    returns (m: nat)
    requires Run(START, steps) && cut <= |After(START, steps).log| == |times|
    ensures m <= |steps| && Run(START, steps[..m])
    ensures var es := Entries(After(START, steps).log, times)[..cut];
            var past := After(START, steps[..m]).log;
            && |past| <= cut
            && (target.None? ==> |past| == cut)
            && (target.Some? ==> forall i :: 0 <= i < |past| ==> times[i] <= target.value)
            && (target.Some? && |past| < cut ==> times[|past|] > target.value)
            && Prefix(es, 0, target) == Entries(past, times[..|past|])
            && Recover(es, 0, target, tables) == Recover(Entries(past, times[..|past|]), 0, None, tables)
  {
    var log := After(START, steps).log;
    var es := Entries(log, times)[..cut];
    PrefixIs(es, 0, target);
    var k := |Prefix(es, 0, target)|;
    assert Prefix(es, 0, target) == Entries(log, times)[..k];
    m := CutIsEarlier(START, steps, k);
    EntriesCut(log, times, k);
    TargetIsPrefix(es, 0, target, tables);
    match target {
      case None => PrefixPlain(es, 0);
      case Some(time) => PrefixMeans(es, 0, time);
    }
    assert forall i :: 0 <= i < cut ==> es[i].lsn == i + 1 && es[i].time == times[i];
  }

  // ── As coded ──

  lemma {:induction false} ContentsConcat(a: seq<Redo>, b: seq<Redo>, t: nat, q: nat)
    ensures Contents(a + b, t, q) == Contents(a, t, q) + Contents(b, t, q)
    decreases |b|
  {
    if b == [] {
      assert a + b == a;
    } else {
      var n := |b| - 1;
      assert (a + b)[..|a + b| - 1] == a + b[..n];
      ContentsConcat(a, b[..n], t, q);
      var x := if b[n].table == t && b[n].ts <= q then [b[n].row] else [];
      ConcatAssoc(Contents(a, t, q), Contents(b[..n], t, q), x);
    }
  }

  lemma {:induction false} DoubledContents(segs: seq<Seg<Entry>>, ckpt: nat, commits: map<nat, nat>, tables: nat, t: nat, q: nat)
    ensures var once := Contents(Redos(Flat(segs), ckpt, commits, tables), t, q);
            multiset(Contents(Redos(Flat(Doubled(segs)), ckpt, commits, tables), t, q)) == multiset(once) + multiset(once)
  {
    if segs != [] {
      var s, tail := segs[0], segs[1..];
      assert segs == [s] + tail;
      var x, y := Redos(s.entries, ckpt, commits, tables), Redos(Flat(Doubled(tail)), ckpt, commits, tables);
      DoubledFlat(s, tail);
      DoubledContents(tail, ckpt, commits, tables, t, q);
      RedosConcat(s.entries, s.entries + Flat(Doubled(tail)), ckpt, commits, tables);
      RedosConcat(s.entries, Flat(Doubled(tail)), ckpt, commits, tables);
      RedosConcat(s.entries, Flat(tail), ckpt, commits, tables);
      ContentsConcat(x, x + y, t, q);
      ContentsConcat(x, y, t, q);
      ContentsConcat(x, Redos(Flat(tail), ckpt, commits, tables), t, q);
    }
  }

  /** What readers find after recovery as coded: what they should, and once more what passed segments gave. */
  lemma {:induction false} CodedContents(segs: seq<Seg<Entry>>, ckpt: nat, target: Option<nat>, tables: nat, t: nat, q: nat)
    ensures multiset(Contents(RecoverAsCoded(segs, ckpt, target, tables), t, q)) ==
            multiset(Contents(Recover(Read(segs), ckpt, target, tables), t, q)) +
            multiset(Contents(Again(segs, ckpt, target, tables), t, q))
    ensures Contents(Again(segs, ckpt, target, tables), t, q) <= Contents(Recover(Read(segs), ckpt, target, tables), t, q)
  {
    var p, r := Passed(segs, ckpt, target), Rest(segs, ckpt, target);
    var commits := Commits(Prefix(Read(segs), ckpt, target), ckpt);
    FirstPass(segs, ckpt, target);
    SecondPass(segs, ckpt, target);
    RedosConcat(Flat(p), r, ckpt, commits, tables);
    RedosConcat(Flat(Doubled(p)), r, ckpt, commits, tables);
    var rest := Redos(r, ckpt, commits, tables);
    ContentsConcat(Redos(Flat(p), ckpt, commits, tables), rest, t, q);
    ContentsConcat(Redos(Flat(Doubled(p)), ckpt, commits, tables), rest, t, q);
    DoubledContents(p, ckpt, commits, tables, t, q);
  }

  /**
   For every run, recovery as coded from the whole log gives every row of the insert records committed
   by q, and repeats those whose records lie in segments read to their end.
   */
  lemma {:induction false} RestoredAsCoded(steps: seq<Step>, times: seq<nat>, segs: seq<Seg<Entry>>, t: nat, q: nat)
    requires Run(START, steps) && t < |After(START, steps).tables| && |times| == |After(START, steps).log|
    requires Read(segs) == Entries(After(START, steps).log, times)
    ensures var db := After(START, steps);
            && |Inserts(db.log, t)| == |db.tables[t].rows|
            && var want := Values(db.tables[t].rows, Restored(Inserts(db.log, t), CommitTs(db.log), q));
               var again := Contents(Again(segs, 0, None, |db.tables|), t, q);
               && multiset(Contents(RecoverAsCoded(segs, 0, None, |db.tables|), t, q)) == multiset(want) + multiset(again)
               && again <= want
  {
    RecoveryRestores(steps, times, t, q);
    CodedContents(segs, 0, None, |After(START, steps).tables|, t, q);
  }

  // ── The two ways to fail ──

  /** One autocommitted insertion: seen at 1, and gone after recovery. */
  lemma {:induction false} AutocommitLost() returns (steps: seq<Step>)
    ensures Run(START, steps) && |After(START, steps).tables| == 1
    ensures Sees(After(START, steps).tables[0], 0, 1)
    ensures Restored(Inserts(After(START, steps).log, 0), CommitTs(After(START, steps).log), 1) == []
  {
    assert Run(START, []) && After(START, []) == START;
    RunSnoc(START, [], CreateTable);
    steps := [] + [CreateTable];
    assert After(START, steps) == Db([EMPTY], 0, 1, map[], []);
    RunSnoc(START, steps, InsertAuto(0, ROW_A));
    steps := steps + [InsertAuto(0, ROW_A)];
    EmptyOk(0, map[]);
    PutAutoSees(EMPTY, 0, ROW_A, 0, 1);
    LooseLog(InsertRec(0, 0, ROW_A));
  }

  lemma {:induction false} LooseLog(r: Rec)
    requires r.InsertRec? && r.tx == 0 && r.table == 0
    ensures Restored(Inserts([] + [r], 0), CommitTs([] + [r]), 1) == []
  {
    InsertsSnoc([], r, 0);
    CommitTsSnoc([], r);
    assert Inserts([] + [r], 0) == [r] && [r][..0] == [];
  }

  const FRESH: Ver := Ver(0, FLAG + 1, 0)

  /** A table with one row, inserted by transaction 1 and flushed, before and after the index is sorted. */
  lemma {:induction false} FlushedRow()
    ensures ToFlush(InsertTx(EMPTY, 1, ROW_A)) == [Batch(0, [FLAG + 1])]
    ensures Flush(InsertTx(EMPTY, 1, ROW_A), [0]) ==
            Table([FRESH], true, [], None, [ROW_A], map[1 := WriteSet([0], {0}, {})])
  {
    var t := InsertTx(EMPTY, 1, ROW_A);
    assert [] + [FLAG + 1] == [FLAG + 1] && [] + [ROW_A] == [ROW_A] && [] + [0] == [0];
    assert ToFlush(t) == [Batch(0, [FLAG + 1])];
    QueueVersOne(Batch(0, [FLAG + 1]), 0);
    assert BatchVers(Batch(0, [FLAG + 1]), 0) == [FRESH];
    assert t.ws == map[1 := WriteSet([0], {0}, {})] by { assert {} + {0} == {0}; }
    assert t.index + [FRESH] == [FRESH];
  }

  function Before(): seq<Step> { [CreateTable, Begin, Insert(1, 0, ROW_A), FlushTable(0, [0]), SortTable(0, [FRESH])] }

  lemma {:induction false} FirstRun()
    ensures Run(START, [CreateTable, Begin, Insert(1, 0, ROW_A)])
    ensures After(START, [CreateTable, Begin, Insert(1, 0, ROW_A)]) ==
            Db([InsertTx(EMPTY, 1, ROW_A)], 0, 2, map[1 := 0], [BeginRec(1), InsertRec(1, 0, ROW_A)])
  {
    assert Run(START, []) && After(START, []) == START;
    RunSnoc(START, [], CreateTable);
    RunSnoc(START, [CreateTable], Begin);
    RunSnoc(START, [CreateTable, Begin], Insert(1, 0, ROW_A));
    assert [] + [CreateTable] == [CreateTable];
    assert [CreateTable] + [Begin] == [CreateTable, Begin];
    assert [CreateTable, Begin] + [Insert(1, 0, ROW_A)] == [CreateTable, Begin, Insert(1, 0, ROW_A)];
  }

  lemma {:induction false} SortOne(db: Db)
    requires |db.tables| == 1 && db.tables[0].index == [FRESH] && db.ts == 0 && db.nextTx == 2
    ensures Enabled(db, SortTable(0, [FRESH]))
  {
    assert Sorted([FRESH]) && Permuted(db.tables[0].index, [FRESH]);
  }

  lemma {:induction false} FlushedRun()
    ensures var steps := [CreateTable, Begin, Insert(1, 0, ROW_A)] + [FlushTable(0, [0])];
            && Run(START, steps)
            && After(START, steps) == Db([Table([FRESH], true, [], None, [ROW_A], map[1 := WriteSet([0], {0}, {})])],
                                         0, 2, map[1 := 0], [BeginRec(1), InsertRec(1, 0, ROW_A)])
  {
    FirstRun();
    FlushedRow();
    RunSnoc(START, [CreateTable, Begin, Insert(1, 0, ROW_A)], FlushTable(0, [0]));
  }

  lemma {:induction false} BeforeRun()
    ensures Run(START, Before())
    ensures After(START, Before()) == Db([Table([FRESH], false, [], None, [ROW_A], map[1 := WriteSet([0], {0}, {})])],
                                         0, 2, map[1 := 0], [BeginRec(1), InsertRec(1, 0, ROW_A)])
  {
    var a, b, c := [CreateTable, Begin, Insert(1, 0, ROW_A)], FlushTable(0, [0]), SortTable(0, [FRESH]);
    FlushedRun();
    SortOne(After(START, a + [b]));
    RunSnoc(START, a + [b], c);
    assert a + [b] + [c] == Before();
  }

  lemma {:induction false} CommittedRow(t: Table)
    requires t == Table([FRESH], false, [], None, [ROW_A], map[1 := WriteSet([0], {0}, {})]) && Inv(t, 0)
    ensures Finish(t, 1, 1) == Table([Ver(0, 1, 0)], false, [], None, [ROW_A], map[])
  {
    AllFinish(t, 0, 1, 1);
    assert Restamp([FRESH], Flagged(1), 1) == [Ver(0, 1, 0)];
    assert StampQueue([], [0], Flagged(1), 1) == [];
    assert t.ws - {1} == map[];
  }

  lemma {:induction false} CommittedRun()
    ensures Run(START, Before() + [Commit(1)])
    ensures After(START, Before() + [Commit(1)]) ==
            Db([Table([Ver(0, 1, 0)], false, [], None, [ROW_A], map[])], 1, 2, map[],
               [BeginRec(1), InsertRec(1, 0, ROW_A), CommitRec(1, 1)])
  {
    BeforeRun();
    var db := After(START, Before());
    RunInv(START, Before());
    CommittedState(db);
    RunSnoc(START, Before(), Commit(1));
  }

  lemma {:induction false} CommittedState(db: Db)
    requires DbInv(db)
    requires db == Db([Table([FRESH], false, [], None, [ROW_A], map[1 := WriteSet([0], {0}, {})])],
                      0, 2, map[1 := 0], [BeginRec(1), InsertRec(1, 0, ROW_A)])
    ensures Enabled(db, Commit(1))
    ensures Apply(db, Commit(1)) == Db([Table([Ver(0, 1, 0)], false, [], None, [ROW_A], map[])], 1, 2, map[],
                                       [BeginRec(1), InsertRec(1, 0, ROW_A), CommitRec(1, 1)])
  {
    assert TableOk(db.tables[0], 0, db.open);
    CommittedRow(db.tables[0]);
    assert db.open - {1} == map[];
    assert FinishAll(db.tables, 1, 1) == [Table([Ver(0, 1, 0)], false, [], None, [ROW_A], map[])];
  }

  /** A row deleted at 2 and no longer seen at 2: recovery brings it back. */
  lemma {:induction false} DeletedComesBack() returns (steps: seq<Step>)
    ensures Run(START, steps) && |After(START, steps).tables| == 1
    ensures !Sees(After(START, steps).tables[0], 0, 2)
    ensures Restored(Inserts(After(START, steps).log, 0), CommitTs(After(START, steps).log), 2) == [0]
  {
    CommittedRun();
    steps := Before() + [Commit(1)];
    var db := After(START, steps);
    RunInv(START, steps);
    var x := db.tables[0];
    assert TableOk(x, 1, map[]);
    assert Lookup(x.index, 0, 1) == Some(Ver(0, 1, 0));
    DeleteSees(x, 1, [0], 1, 2, 0, 2);
    assert Targets(x, [0], 1) && TargetsBy(x, [0], db.ts);
    RunSnoc(START, steps, DeleteAuto(0, [0]));
    LogGrows(db, DeleteAuto(0, [0]));
    steps := steps + [DeleteAuto(0, [0])];
    LastLog();
  }

  lemma {:induction false} LastLog()
    ensures var log := [BeginRec(1), InsertRec(1, 0, ROW_A), CommitRec(1, 1)] + [DeleteRec(0, 0, [0])];
            Inserts(log, 0) == [InsertRec(1, 0, ROW_A)] && CommitTs(log) == map[1 := 1] &&
            Restored([InsertRec(1, 0, ROW_A)], map[1 := 1], 2) == [0]
  {
    var a, b, c, d := BeginRec(1), InsertRec(1, 0, ROW_A), CommitRec(1, 1), DeleteRec(0, 0, [0]);
    LastInserts(a, b, c);
    InsertsSnoc([a, b, c], d, 0);
    CommitTsSnoc([a, b, c], d);
    assert [b][..0] == [];
  }

  lemma {:induction false} LastInserts(a: Rec, b: Rec, c: Rec)
    requires a == BeginRec(1) && b == InsertRec(1, 0, ROW_A) && c == CommitRec(1, 1)
    ensures Inserts([a, b, c], 0) == [b] && CommitTs([a, b, c]) == map[1 := 1]
  {
    assert [] + [a] == [a] && [a] + [b] == [a, b] && [a, b] + [c] == [a, b, c];
    InsertsSnoc([], a, 0);
    InsertsSnoc([a], b, 0);
    InsertsSnoc([a, b], c, 0);
    LastCommits(a, b, c);
  }

  lemma {:induction false} LastCommits(a: Rec, b: Rec, c: Rec)
    requires a == BeginRec(1) && b == InsertRec(1, 0, ROW_A) && c == CommitRec(1, 1)
    ensures CommitTs([a, b, c]) == map[1 := 1]
  {
    assert [] + [a] == [a] && [a] + [b] == [a, b] && [a, b] + [c] == [a, b, c];
    CommitTsSnoc([], a);
    CommitTsSnoc([a], b);
    CommitTsSnoc([a, b], c);
  }
}
