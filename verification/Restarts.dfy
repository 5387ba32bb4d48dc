/**
 Logs that several runs of the database have written.  Every run counts its transactions from 1 again,
 and after a crash at a rotation its LSNs too; what replay then makes of the log.
 */
module Restarts {
  import opened Options
  import opened Mvcc
  import opened Replay
  import opened Reopened

  // ── Transaction ids ──

  lemma {:induction false} CommitsConcat(a: seq<Entry>, b: seq<Entry>, ckpt: nat)
    ensures Commits(a + b, ckpt) == Commits(a, ckpt) + Commits(b, ckpt)
    decreases |b|
  {
    if b == [] {
      assert a + b == a;
    } else {
      var n := |b| - 1;
      assert (a + b)[..|a + b| - 1] == a + b[..n];
      CommitsConcat(a, b[..n], ckpt);
    }
  }

  /** An insertion after the checkpoint into an existing table. */
  predicate Insertion(e: Entry, ckpt: nat, tables: nat) { e.lsn > ckpt && e.rec.InsertRec? && e.rec.table < tables }

  /** With more commits known, at least as much is applied, and the same exactly if no insertion is of another commit. */
  lemma {:induction false} RedosMore(es: seq<Entry>, ckpt: nat, m: map<nat, nat>, w: map<nat, nat>, tables: nat)
    requires w.Keys <= m.Keys
    ensures |Redos(es, ckpt, m, tables)| >= |Redos(es, ckpt, w, tables)|
    ensures Redos(es, ckpt, m, tables) == Redos(es, ckpt, w, tables) <==>
            forall e :: e in es && Insertion(e, ckpt, tables) && e.rec.tx in m ==> e.rec.tx in w && m[e.rec.tx] == w[e.rec.tx]
  {
    if es != [] {
      var n := |es| - 1;
      RedosMore(es[..n], ckpt, m, w, tables);
      assert es == es[..n] + [es[n]];
      assert Redone(es[n], ckpt, m, tables) <==> Insertion(es[n], ckpt, tables) && es[n].rec.tx in m;
      LastRedo(es, ckpt, m, w, tables);
    }
  }

  lemma {:induction false} LastRedo(es: seq<Entry>, ckpt: nat, m: map<nat, nat>, w: map<nat, nat>, tables: nat)
    requires es != [] && w.Keys <= m.Keys
    requires |Redos(es[..|es| - 1], ckpt, m, tables)| >= |Redos(es[..|es| - 1], ckpt, w, tables)|
    ensures var n := |es| - 1; var e := es[n];
            Redos(es, ckpt, m, tables) == Redos(es, ckpt, w, tables) <==>
            && Redos(es[..n], ckpt, m, tables) == Redos(es[..n], ckpt, w, tables)
            && (Insertion(e, ckpt, tables) && e.rec.tx in m ==> e.rec.tx in w && m[e.rec.tx] == w[e.rec.tx])
  {
    var n := |es| - 1;
    var x, y, e := Redos(es[..n], ckpt, m, tables), Redos(es[..n], ckpt, w, tables), es[n];
    if Redone(e, ckpt, w, tables) {
      SnocSame(x, y, Redo(e.rec.tx, e.rec.table, e.rec.row, m[e.rec.tx]), Redo(e.rec.tx, e.rec.table, e.rec.row, w[e.rec.tx]));
    }
  }

  lemma SnocSame<T>(x: seq<T>, y: seq<T>, a: T, b: T)
    ensures x + [a] == y + [b] <==> x == y && a == b
  {
    if x + [a] == y + [b] {
      assert (x + [a])[..|x|] == x && (y + [b])[..|y|] == y;
      assert (x + [a])[|x|] == a && (y + [b])[|y|] == b;
    }
  }

  lemma PartsSame<T>(x: seq<T>, y: seq<T>, u: seq<T>, v: seq<T>)
    requires |x| >= |u| && |y| >= |v|
    ensures x + y == u + v <==> x == u && y == v
  {
    if x + y == u + v {
      assert |x| == |u|;
      assert (x + y)[..|x|] == x && (u + v)[..|u|] == u;
      assert (x + y)[|x|..] == y && (u + v)[|u|..] == v;
    }
  }

  /** An insertion of the earlier runs whose id a later run commits, not at the same timestamp. */
  ghost predicate TakenUp(e: Entry, a: seq<Entry>, b: seq<Entry>, ckpt: nat, tables: nat) {
    && Insertion(e, ckpt, tables) && CommittedIn(b, ckpt, e.rec.tx)
    && !(e.rec.tx in Commits(a, ckpt) && e.rec.tx in Commits(b, ckpt) && Commits(a, ckpt)[e.rec.tx] == Commits(b, ckpt)[e.rec.tx])
  }

  /** An insertion of a later run that did not commit, whose id an earlier run has committed. */
  ghost predicate TakenOver(e: Entry, a: seq<Entry>, b: seq<Entry>, ckpt: nat, tables: nat) {
    Insertion(e, ckpt, tables) && CommittedIn(a, ckpt, e.rec.tx) && !CommittedIn(b, ckpt, e.rec.tx)
  }

  lemma {:induction false} EarlierSame(a: seq<Entry>, b: seq<Entry>, ckpt: nat, tables: nat)
    ensures var c := Commits(a, ckpt) + Commits(b, ckpt);
            && |Redos(a, ckpt, c, tables)| >= |Redos(a, ckpt, Commits(a, ckpt), tables)|
            && (Redos(a, ckpt, c, tables) == Redos(a, ckpt, Commits(a, ckpt), tables) <==> forall e :: e in a ==> !TakenUp(e, a, b, ckpt, tables))
  {
    RedosMore(a, ckpt, Commits(a, ckpt) + Commits(b, ckpt), Commits(a, ckpt), tables);
    forall e | e in a && Insertion(e, ckpt, tables)
      ensures e.rec.tx in Commits(b, ckpt) <==> CommittedIn(b, ckpt, e.rec.tx)
    {
      CommitsAre(b, ckpt, e.rec.tx);
    }
  }

  lemma {:induction false} LaterRunSame(a: seq<Entry>, b: seq<Entry>, ckpt: nat, tables: nat)
    ensures var c := Commits(a, ckpt) + Commits(b, ckpt);
            && |Redos(b, ckpt, c, tables)| >= |Redos(b, ckpt, Commits(b, ckpt), tables)|
            && (Redos(b, ckpt, c, tables) == Redos(b, ckpt, Commits(b, ckpt), tables) <==> forall e :: e in b ==> !TakenOver(e, a, b, ckpt, tables))
  {
    RedosMore(b, ckpt, Commits(a, ckpt) + Commits(b, ckpt), Commits(b, ckpt), tables);
    forall e | e in b && Insertion(e, ckpt, tables)
      ensures e.rec.tx in Commits(b, ckpt) <==> CommittedIn(b, ckpt, e.rec.tx)
      ensures e.rec.tx in Commits(a, ckpt) <==> CommittedIn(a, ckpt, e.rec.tx)
    {
      CommitsAre(a, ckpt, e.rec.tx);
      CommitsAre(b, ckpt, e.rec.tx);
    }
  }

  /**
   Replaying what several runs have written gives what each run committed if and only if no later run
   commits under the id of an earlier insertion, and no earlier run has committed under the id of a later
   insertion that was not committed itself.  A pass that stops in the earlier part never sees the rest.
   */
  lemma {:induction false} RunsExact(a: seq<Entry>, b: seq<Entry>, ckpt: nat, target: Option<nat>, tables: nat)
    ensures if exists e :: e in a && Stops(e, ckpt, target)
            then Recover(a + b, ckpt, target, tables) == Recover(a, ckpt, target, tables)
            else
              var p := Prefix(b, ckpt, target);
              Recover(a + b, ckpt, target, tables) == Recover(a, ckpt, target, tables) + Recover(b, ckpt, target, tables) <==>
              (forall e :: e in a ==> !TakenUp(e, a, p, ckpt, tables)) && forall e :: e in p ==> !TakenOver(e, a, p, ckpt, tables)
  {
    if exists e :: e in a && Stops(e, ckpt, target) {
      PrefixEnds(a, b, ckpt, target);
    } else {
      var p, c := Prefix(b, ckpt, target), Commits(a + Prefix(b, ckpt, target), ckpt);
      PrefixThrough(a, b, ckpt, target);
      PrefixThrough(a, [], ckpt, target);
      assert a + [] == a;
      CommitsConcat(a, p, ckpt);
      RedosConcat(a, p, ckpt, c, tables);
      EarlierSame(a, p, ckpt, tables);
      LaterRunSame(a, p, ckpt, tables);
      PartsSame(Redos(a, ckpt, c, tables), Redos(p, ckpt, c, tables), Recover(a, ckpt, target, tables), Recover(b, ckpt, target, tables));
    }
  }

  /** A run ends without committing; the next one commits an empty transaction of the same id. */
  function FirstRun(row: Tables.Row): seq<Entry> { [Entry(1, 0, BeginRec(1)), Entry(2, 0, InsertRec(1, 0, row))] }
  function SecondRun(): seq<Entry> { [Entry(3, 0, BeginRec(1)), Entry(4, 0, CommitRec(1, 1))] }

  /** Neither run by itself has anything to recover, but both together do. */
  lemma {:induction false} UncommittedRecovered(row: Tables.Row)
    ensures Recover(FirstRun(row), 0, None, 1) == [] && Recover(SecondRun(), 0, None, 1) == []
    ensures Recover(FirstRun(row) + SecondRun(), 0, None, 1) != []
  {
    var a, b := FirstRun(row), SecondRun();
    RunsExact(a, b, 0, None, 1);
    PrefixPlain(a, 0);
    PrefixPlain(b, 0);
    NoCommit(a, 0, 1);
    NoRedos(a, 0, Commits(a, 0), 1);
    NoRedos(b, 0, Commits(b, 0), 1);
    assert IsCommit(b[1], 1) && b[1] in b && CommittedIn(b, 0, 1);
    assert a[1] in a && TakenUp(a[1], a, b, 0, 1);
  }

  // ── LSNs ──

  /** Whatever is written with LSNs up to the checkpoint is not replayed, wherever in the log it lies. */
  lemma {:induction false} DroppedTail(es: seq<Entry>, tail: seq<Entry>, ckpt: nat, target: Option<nat>, tables: nat)
    requires forall e :: e in tail ==> e.lsn <= ckpt
    ensures Recover(es + tail, ckpt, target, tables) == Recover(es, ckpt, target, tables)
  {
    RunsExact(es, tail, ckpt, target, tables);
    if !(exists e :: e in es && Stops(e, ckpt, target)) {
      var p := Prefix(tail, ckpt, target);
      PrefixIs(tail, ckpt, target);
      assert forall e :: e in p ==> e in tail;
      NoRedos(p, ckpt, Commits(p, ckpt), tables);
    }
  }

  /** A transaction with one insertion, numbered from an LSN on. */
  function RowFrom(lsn: nat, tx: nat, row: Tables.Row): seq<Entry> {
    [Entry(lsn, 0, BeginRec(tx)), Entry(lsn + 1, 0, InsertRec(tx, 0, row)), Entry(lsn + 2, 0, CommitRec(tx, 2))]
  }

  /**
   Three records, a checkpoint that stores LSN 4, and a crash while the log is rotated.  With the right
   LSNs the transaction written next is recovered; with LSNs that start again from 1 it is not.
   */
  lemma {:induction false} RestartLost(row: Tables.Row)
    ensures Recover(OneRow(row) + RowFrom(4, 2, row), 4, None, 1) == [Redo(2, 0, row, 2)]
    ensures Recover(OneRow(row) + RowFrom(1, 2, row), 4, None, 1) == []
  {
    var a, good, bad := OneRow(row), RowFrom(4, 2, row), RowFrom(1, 2, row);
    DroppedHead(a, good, 4, None, 1);
    FromFour(row);
    DroppedHead(a + bad, [], 4, None, 1);
    assert a + bad + [] == a + bad;
  }

  lemma {:induction false} FromFour(row: Tables.Row)
    ensures Recover(RowFrom(4, 2, row), 4, None, 1) == [Redo(2, 0, row, 2)]
  {
    var es := RowFrom(4, 2, row);
    PrefixPlain(es, 4);
    assert es[..2][..1] == es[..1] && es[..1][..0] == [];
    assert Commits(es[..1], 4) == map[] && Commits(es[..2], 4) == map[] && Commits(es, 4) == map[2 := 2];
    var m := Commits(es, 4);
    var one, two := es[..1], es[..2];
    assert !Redone(one[0], 4, m, 1) && Redone(two[1], 4, m, 1) && !Redone(es[2], 4, m, 1);
    assert one[..0] == [] && two[..1] == one && es[..2] == two;
    assert Redos(one, 4, m, 1) == [];
    assert Redos(two, 4, m, 1) == Redos(one, 4, m, 1) + [Redo(2, 0, row, 2)];
    assert Redos(es, 4, m, 1) == Redos(two, 4, m, 1);
  }
}
