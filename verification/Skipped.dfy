/**
 A checkpoint stores the LSN that the next record will get, and replay skips records up to and
 including it.  When skipping that record loses something.
 */
module Skipped {
  import opened Options
  import opened Sequences
  import opened Replay
  import opened Reopened

  /** The log around the record with the checkpoint LSN. */
  ghost predicate Around(es: seq<Entry>, a: seq<Entry>, r: Entry, b: seq<Entry>, ckpt: nat) {
    && es == a + ([r] + b) && r.lsn == ckpt > 0
    && (forall e :: e in a ==> e.lsn < ckpt) && (forall e :: e in b ==> e.lsn > ckpt)
    && Closed([r] + b)
  }

  lemma {:induction false} SplitLog(es: seq<Entry>, k: nat)
    requires Closed(es) && k < |es| && es[k].lsn > 0
    ensures Around(es, es[..k], es[k], es[k + 1..], es[k].lsn)
  {
    var a, b := es[..k], es[k + 1..];
    SplitAround(es, k);
    forall e | e in a ensures e.lsn < es[k].lsn { var i :| 0 <= i < |a| && a[i] == e; }
    forall e | e in b ensures e.lsn > es[k].lsn {
      var i :| 0 <= i < |b| && b[i] == e;
      assert es[k + 1 + i] == e;
    }
    ClosedTail(es, k);
  }

  lemma {:induction false} ClosedTail(es: seq<Entry>, k: nat)
    requires Closed(es) && k <= |es|
    ensures Closed(es[k..])
  {
    var t := es[k..];
    forall i, j | 0 <= i < j < |t|
      ensures ((t[i].rec.CommitRec? || t[i].rec.RollbackRec?) ==> t[j].rec.tx != t[i].rec.tx) && t[i].lsn < t[j].lsn
    {
      assert t[i] == es[k + i] && t[j] == es[k + j];
    }
  }

  /** Where all records lie after the checkpoint, one LSN less makes no difference to a pass. */
  lemma {:induction false} LaterSame(b: seq<Entry>, ckpt: nat, target: Option<nat>)
    requires ckpt > 0 && forall e :: e in b ==> e.lsn > ckpt
    ensures Prefix(b, ckpt - 1, target) == Prefix(b, ckpt, target)
  {
    if b != [] {
      assert b[0] in b;
      if !Stops(b[0], ckpt, target) { LaterSame(b[1..], ckpt, target); }
    }
  }

  lemma {:induction false} LaterCommits(b: seq<Entry>, ckpt: nat)
    requires ckpt > 0 && forall e :: e in b ==> e.lsn > ckpt
    ensures Commits(b, ckpt - 1) == Commits(b, ckpt)
  {
    if b != [] {
      var n := |b| - 1;
      assert b[n] in b;
      LaterCommits(b[..n], ckpt);
    }
  }

  /** Commit timestamps of transactions without records do not matter. */
  lemma {:induction false} LaterRedos(b: seq<Entry>, ckpt: nat, m: map<nat, nat>, w: map<nat, nat>, tables: nat)
    requires ckpt > 0 && forall e :: e in b ==> e.lsn > ckpt
    requires forall e :: e in b ==> (e.rec.tx in m <==> e.rec.tx in w) && (e.rec.tx in m ==> m[e.rec.tx] == w[e.rec.tx])
    ensures Redos(b, ckpt - 1, m, tables) == Redos(b, ckpt, w, tables)
  {
    if b != [] {
      var n := |b| - 1;
      assert b[n] in b;
      LaterRedos(b[..n], ckpt, m, w, tables);
    }
  }

  function Contribution(r: Entry, p: seq<Entry>, ckpt: nat, tables: nat): seq<Redo> {
    if r.rec.InsertRec? && r.rec.table < tables && r.rec.tx in Commits(p, ckpt)
    then [Redo(r.rec.tx, r.rec.table, r.rec.row, Commits(p, ckpt)[r.rec.tx])] else []
  }

  /** What the skipped record would contribute: itself, if it inserts for a transaction that commits later. */
  lemma {:induction false} WithRecord(r: Entry, p: seq<Entry>, ckpt: nat, tables: nat)
    requires r.lsn == ckpt > 0 && Closed([r] + p) && forall e :: e in p ==> e.lsn > ckpt
    ensures var coded := Redos(p, ckpt, Commits(p, ckpt), tables);
            var meant := Redos([r] + p, ckpt - 1, Commits([r] + p, ckpt - 1), tables);
            meant == Contribution(r, p, ckpt, tables) + coded
  {
    var m, w := Commits([r] + p, ckpt - 1), Commits(p, ckpt);
    LaterCommits(p, ckpt);
    CommitsFirst(r, p, ckpt - 1);
    forall e | e in p && r.rec.CommitRec? ensures e.rec.tx != r.rec.tx {
      var j :| 0 <= j < |p| && p[j] == e;
      assert ([r] + p)[0] == r && ([r] + p)[j + 1] == e;
    }
    LaterRedos(p, ckpt, m, w, tables);
    RedosConcat([r], p, ckpt - 1, m, tables);
    assert [r][..0] == [] && Redos([r][..0], ckpt - 1, m, tables) == [];
  }

  /** A first record adds its own commit, and nothing else. */
  lemma {:induction false} CommitsFirst(r: Entry, p: seq<Entry>, ckpt: nat)
    requires r.lsn > ckpt
    ensures forall tx :: !IsCommit(r, tx) ==>
              (tx in Commits([r] + p, ckpt) <==> tx in Commits(p, ckpt)) &&
              (tx in Commits(p, ckpt) ==> Commits([r] + p, ckpt)[tx] == Commits(p, ckpt)[tx])
  {
    if p == [] {
      assert [r] + p == [r] && [r][..0] == [];
      assert Commits([r][..0], ckpt) == map[];
    } else {
      var n := |p| - 1;
      CommitsFirst(r, p[..n], ckpt);
      assert ([r] + p)[..n + 1] == [r] + p[..n];
    }
  }

  /** The pass as coded goes over everything but what follows a later stop. */
  lemma {:induction false} CodedPass(es: seq<Entry>, a: seq<Entry>, r: Entry, b: seq<Entry>, ckpt: nat, target: Option<nat>, tables: nat)
    requires Around(es, a, r, b, ckpt)
    ensures Prefix(es, ckpt, target) == a + ([r] + Prefix(b, ckpt, target))
    ensures Recover(es, ckpt, target, tables) == Redos(Prefix(b, ckpt, target), ckpt, Commits(Prefix(b, ckpt, target), ckpt), tables)
  {
    var head := a + [r];
    assert es == head + b;
    ConcatAssoc(a, [r], b);
    forall e | e in head ensures e.lsn <= ckpt { assert e in a || e == r; }
    PrefixHead(head, b, ckpt, target);
    ConcatAssoc(a, [r], Prefix(b, ckpt, target));
    DroppedHead(head, b, ckpt, target, tables);
  }

  /** The pass that would skip only records below the checkpoint LSN. */
  lemma {:induction false} MeantPass(es: seq<Entry>, a: seq<Entry>, r: Entry, b: seq<Entry>, ckpt: nat, target: Option<nat>, tables: nat)
    requires Around(es, a, r, b, ckpt)
    ensures var pb := Prefix(b, ckpt, target);
            Recover(es, ckpt - 1, target, tables) ==
            if Stops(r, ckpt - 1, target) then []
            else Redos([r] + pb, ckpt - 1, Commits([r] + pb, ckpt - 1), tables)
  {
    var tail := [r] + b;
    forall e | e in a ensures e.lsn <= ckpt - 1 {}
    DroppedHead(a, tail, ckpt - 1, target, tables);
    assert tail[0] == r && tail[1..] == b;
    LaterSame(b, ckpt, target);
  }

  lemma {:induction false} InsideTail(p: seq<Entry>, a: seq<Entry>, r: Entry, pb: seq<Entry>, ckpt: nat, tables: nat)
    requires p == a + ([r] + pb) && r.lsn == ckpt && forall e :: e in a ==> e.lsn < ckpt
    ensures forall tx :: CommittedIn(p, ckpt, tx) <==> CommittedIn(pb, ckpt, tx)
    ensures forall e :: e in p && Applies(e, p, ckpt, tables) <==> e in pb && Applies(e, pb, ckpt, tables)
  {
    assert forall e :: e in p && e.lsn > ckpt <==> e in pb && e.lsn > ckpt;
  }

  /**
   Skipping the record with the checkpoint LSN is the same as skipping only those below it, if and only
   if the record is not an insertion, into an existing table, of a transaction whose commit is replayed
   later; or, when the record is itself later than the target, if and only if nothing is replayed.
   */
  lemma {:induction false} SkipExact(es: seq<Entry>, k: nat, target: Option<nat>, tables: nat)
    requires Closed(es) && k < |es| && es[k].lsn > 0
    ensures var ckpt, r := es[k].lsn, es[k];
            var p := Prefix(es, ckpt, target);
            Recover(es, ckpt, target, tables) == Recover(es, ckpt - 1, target, tables) <==>
            if Stops(r, ckpt - 1, target) then forall e :: e in p ==> !Applies(e, p, ckpt, tables)
            else !(r.rec.InsertRec? && r.rec.table < tables && CommittedIn(p, ckpt, r.rec.tx))
  {
    SplitLog(es, k);
    if Stops(es[k], es[k].lsn - 1, target) {
      SkipStopped(es, es[..k], es[k], es[k + 1..], es[k].lsn, target, tables);
    } else {
      SkipReplayed(es, es[..k], es[k], es[k + 1..], es[k].lsn, target, tables);
    }
  }

  /** The record is later than the target. */
  lemma {:induction false} SkipStopped(es: seq<Entry>, a: seq<Entry>, r: Entry, b: seq<Entry>, ckpt: nat, target: Option<nat>, tables: nat)
    requires Around(es, a, r, b, ckpt) && Stops(r, ckpt - 1, target)
    ensures var p := Prefix(es, ckpt, target);
            Recover(es, ckpt, target, tables) == Recover(es, ckpt - 1, target, tables) <==> forall e :: e in p ==> !Applies(e, p, ckpt, tables)
  {
    CodedPass(es, a, r, b, ckpt, target, tables);
    MeantPass(es, a, r, b, ckpt, target, tables);
    NothingReplayed(Prefix(es, ckpt, target), a, r, Prefix(b, ckpt, target), ckpt, tables);
  }

  /** The record would have been replayed. */
  lemma {:induction false} SkipReplayed(es: seq<Entry>, a: seq<Entry>, r: Entry, b: seq<Entry>, ckpt: nat, target: Option<nat>, tables: nat)
    requires Around(es, a, r, b, ckpt) && !Stops(r, ckpt - 1, target)
    ensures Recover(es, ckpt, target, tables) == Recover(es, ckpt - 1, target, tables) <==>
            !(r.rec.InsertRec? && r.rec.table < tables && CommittedIn(Prefix(es, ckpt, target), ckpt, r.rec.tx))
  {
    var pb := Prefix(b, ckpt, target);
    CodedPass(es, a, r, b, ckpt, target, tables);
    MeantPass(es, a, r, b, ckpt, target, tables);
    InsideTail(Prefix(es, ckpt, target), a, r, pb, ckpt, tables);
    PrefixIs(b, ckpt, target);
    ClosedPrefix(r, b, pb);
    WithRecord(r, pb, ckpt, tables);
    CommitsAre(pb, ckpt, r.rec.tx);
  }

  lemma {:induction false} NothingReplayed(p: seq<Entry>, a: seq<Entry>, r: Entry, pb: seq<Entry>, ckpt: nat, tables: nat)
    requires p == a + ([r] + pb) && r.lsn == ckpt && forall e :: e in a ==> e.lsn < ckpt
    ensures Redos(pb, ckpt, Commits(pb, ckpt), tables) == [] <==> forall e :: e in p ==> !Applies(e, p, ckpt, tables)
  {
    InsideTail(p, a, r, pb, ckpt, tables);
    NoRedos(pb, ckpt, Commits(pb, ckpt), tables);
    forall e ensures Redone(e, ckpt, Commits(pb, ckpt), tables) <==> Applies(e, pb, ckpt, tables) {
      AppliesMeans(e, pb, ckpt, tables);
    }
  }

  lemma {:induction false} ClosedPrefix(r: Entry, b: seq<Entry>, pb: seq<Entry>)
    requires Closed([r] + b) && pb <= b
    ensures Closed([r] + pb) && forall e :: e in pb ==> e in b
  {
    assert pb == b[..|pb|];
    var s, t := [r] + b, [r] + pb;
    assert forall i :: 0 <= i < |t| ==> t[i] == s[i];
  }

  /** The log falls into what lies below the checkpoint LSN and what lies above it. */
  lemma {:induction false} CutAt(es: seq<Entry>, ckpt: nat, n: nat) returns (k: nat)
    requires Closed(es) && n <= |es| && forall i :: 0 <= i < |es| ==> es[i].lsn != ckpt
    ensures k <= n && (forall i :: 0 <= i < k ==> es[i].lsn < ckpt) && forall i :: k <= i < n ==> es[i].lsn > ckpt
  {
    k := 0;
    if n > 0 {
      k := CutAt(es, ckpt, n - 1);
      assert es[n - 1].lsn != ckpt;
      if k < n - 1 {
        assert es[k].lsn < es[n - 1].lsn;
      } else if es[k].lsn < ckpt {
        k := n;
      }
    }
  }

  lemma {:induction false} SkipParts(a: seq<Entry>, b: seq<Entry>, ckpt: nat, target: Option<nat>, tables: nat)
    requires ckpt > 0 && (forall e :: e in a ==> e.lsn < ckpt) && forall e :: e in b ==> e.lsn > ckpt
    ensures Recover(a + b, ckpt, target, tables) == Recover(a + b, ckpt - 1, target, tables)
  {
    DroppedHead(a, b, ckpt, target, tables);
    DroppedHead(a, b, ckpt - 1, target, tables);
    LaterRecover(b, ckpt, target, tables);
  }

  lemma {:induction false} LaterRecover(b: seq<Entry>, ckpt: nat, target: Option<nat>, tables: nat)
    requires ckpt > 0 && forall e :: e in b ==> e.lsn > ckpt
    ensures Recover(b, ckpt - 1, target, tables) == Recover(b, ckpt, target, tables)
  {
    var p := Prefix(b, ckpt, target);
    LaterSame(b, ckpt, target);
    PrefixIs(b, ckpt, target);
    assert forall e :: e in p ==> e in b;
    LaterCommits(p, ckpt);
    LaterRedos(p, ckpt, Commits(p, ckpt), Commits(p, ckpt), tables);
  }

  /** Without a record at the checkpoint LSN there is nothing to lose. */
  lemma {:induction false} SkipNone(es: seq<Entry>, ckpt: nat, target: Option<nat>, tables: nat)
    requires Closed(es) && ckpt > 0 && forall i :: 0 <= i < |es| ==> es[i].lsn != ckpt
    ensures Recover(es, ckpt, target, tables) == Recover(es, ckpt - 1, target, tables)
  {
    var k := CutAt(es, ckpt, |es|);
    assert es == es[..k] + es[k..];
    SkipParts(es[..k], es[k..], ckpt, target, tables);
  }

  /** A checkpoint between the begin of a transaction and its insertion: the committed row is lost. */
  lemma {:induction false} InsertionSkipped(row: Tables.Row)
    ensures Closed(OneRow(row))
    ensures Recover(OneRow(row), 2, None, 1) != Recover(OneRow(row), 1, None, 1)
  {
    var es := OneRow(row);
    assert Closed(es);
    PrefixPlain(es, 2);
    assert es[2] in es && es[2].lsn > 2 && IsCommit(es[2], 1);
    assert CommittedIn(es, 2, 1);
    SkipExact(es, 1, None, 1);
  }
}
