/**
 Recovery replays the log in two passes: the first collects commit timestamps, the second applies
 the insertions of committed transactions.  Both skip records up to the checkpoint LSN and stop at
 the first later record whose time lies after the recovery target.
 */
module Replay {
  import opened Options
  import opened Sequences
  import opened Tables
  import opened Mvcc

  datatype Entry = Entry(lsn: nat, time: nat, rec: Rec)

  /** An insertion that replay applied, stamped with the logged commit timestamp. */
  datatype Redo = Redo(tx: nat, table: nat, row: Row, ts: nat)

  predicate Stops(e: Entry, ckpt: nat, target: Option<nat>) {
    e.lsn > ckpt && target.Some? && e.time > target.value
  }

  /** The part of the log a pass looks at. */
  function Prefix(es: seq<Entry>, ckpt: nat, target: Option<nat>): seq<Entry> {
    if es == [] || Stops(es[0], ckpt, target) then [] else [es[0]] + Prefix(es[1..], ckpt, target)
  }

  /** Commit timestamps by transaction; a later commit record would win. */
  function Commits(es: seq<Entry>, ckpt: nat): map<nat, nat> {
    if es == [] then map[]
    else
      var n := |es| - 1;
      var m := Commits(es[..n], ckpt);
      if es[n].lsn > ckpt && es[n].rec.CommitRec? then m[es[n].rec.tx := es[n].rec.ts] else m
  }

  /** The LSN a reopened table starts with; replay compares with it and never raises it. */
  const TABLE_LSN: nat := 0

  predicate Redone(e: Entry, ckpt: nat, commits: map<nat, nat>, tables: nat) {
    e.lsn > ckpt && e.lsn > TABLE_LSN && e.rec.InsertRec? && e.rec.tx in commits && e.rec.table < tables
  }

  /** The insertions applied, in log order.  Delete records are not applied. */
  function Redos(es: seq<Entry>, ckpt: nat, commits: map<nat, nat>, tables: nat): seq<Redo> {
    if es == [] then []
    else
      var n := |es| - 1;
      var r := Redos(es[..n], ckpt, commits, tables);
      if Redone(es[n], ckpt, commits, tables)
      then r + [Redo(es[n].rec.tx, es[n].rec.table, es[n].rec.row, commits[es[n].rec.tx])] else r
  }

  /** Both passes over the same log. */
  function Recover(es: seq<Entry>, ckpt: nat, target: Option<nat>, tables: nat): seq<Redo> {
    var p := Prefix(es, ckpt, target);
    Redos(p, ckpt, Commits(p, ckpt), tables)
  }

  // ── The loops ──

  lemma {:induction false} PrefixStep(es: seq<Entry>, ckpt: nat, target: Option<nat>, i: nat)
    requires i <= |es| && forall j :: 0 <= j < i ==> !Stops(es[j], ckpt, target)
    requires i < |es| ==> Stops(es[i], ckpt, target)
    ensures Prefix(es, ckpt, target) == es[..i]
  {
    if i > 0 {
      PrefixStep(es[1..], ckpt, target, i - 1);
      assert es[..i] == [es[0]] + es[1..][..i - 1];
    }
  }

  method CollectCommits(es: seq<Entry>, ckpt: nat, target: Option<nat>) returns (commits: map<nat, nat>)
    ensures commits == Commits(Prefix(es, ckpt, target), ckpt)
  {
    commits := map[];
    var i := 0;
    while i < |es|
      invariant i <= |es| && forall j :: 0 <= j < i ==> !Stops(es[j], ckpt, target)
      invariant commits == Commits(es[..i], ckpt)
    {
      var e := es[i];
      if e.lsn > ckpt && target.Some? && e.time > target.value { break; }
      assert es[..i + 1][..i] == es[..i];
      if e.lsn > ckpt && e.rec.CommitRec? { commits := commits[e.rec.tx := e.rec.ts]; }
      i := i + 1;
    }
    PrefixStep(es, ckpt, target, i);
  }

  method ApplyInserts(es: seq<Entry>, ckpt: nat, target: Option<nat>, commits: map<nat, nat>, tables: nat)
    returns (redos: seq<Redo>)
    ensures redos == Redos(Prefix(es, ckpt, target), ckpt, commits, tables)
  {
    redos := [];
    var i := 0;
    while i < |es|
      invariant i <= |es| && forall j :: 0 <= j < i ==> !Stops(es[j], ckpt, target)
      invariant redos == Redos(es[..i], ckpt, commits, tables)
    {
      var e := es[i];
      assert es[..i + 1][..i] == es[..i];
      if e.lsn <= ckpt { i := i + 1; continue; }
      if target.Some? && e.time > target.value { break; }
      if e.rec.InsertRec? && e.rec.tx in commits && e.rec.table < tables && e.lsn > TABLE_LSN {
        redos := redos + [Redo(e.rec.tx, e.rec.table, e.rec.row, commits[e.rec.tx])];
      }
      i := i + 1;
    }
    PrefixStep(es, ckpt, target, i);
  }

  // ── Point in time ──

  lemma {:induction false} PrefixPlain(es: seq<Entry>, ckpt: nat)
    ensures Prefix(es, ckpt, None) == es
  {
    if es != [] { PrefixPlain(es[1..], ckpt); }
  }

  /** Recovery to a target time is recovery of the part of the log before the first later record. */
  lemma {:induction false} TargetIsPrefix(es: seq<Entry>, ckpt: nat, target: Option<nat>, tables: nat)
    ensures Recover(es, ckpt, target, tables) == Recover(Prefix(es, ckpt, target), ckpt, None, tables)
  {
    PrefixPlain(Prefix(es, ckpt, target), ckpt);
  }

  /**
   Where a pass to a target time ends: all it looks at behind the checkpoint LSN is no later than the
   target, and if it does not look at the whole log, the first record left out is behind the checkpoint
   LSN and later than the target.
   */
  lemma {:induction false} PrefixMeans(es: seq<Entry>, ckpt: nat, target: nat)
    ensures var n := |Prefix(es, ckpt, Some(target))|;
            && n <= |es| && Prefix(es, ckpt, Some(target)) == es[..n]
            && (forall i :: 0 <= i < n && es[i].lsn > ckpt ==> es[i].time <= target)
            && (n < |es| ==> es[n].lsn > ckpt && es[n].time > target)
  {
    if es != [] && !Stops(es[0], ckpt, Some(target)) {
      PrefixMeans(es[1..], ckpt, target);
      var n := |Prefix(es, ckpt, Some(target))|;
      assert es[..n] == [es[0]] + es[1..][..n - 1];
      forall i | 0 <= i < n && es[i].lsn > ckpt ensures es[i].time <= target {
        if i > 0 { assert es[i] == es[1..][i - 1]; }
      }
    }
  }

  /** Records are written one after the other. */
  ghost predicate TimesAscend(es: seq<Entry>) { forall i, j :: 0 <= i < j < |es| ==> es[i].time <= es[j].time }

  /** The record is after the checkpoint, and no later than the target if there is one. */
  predicate InTime(e: Entry, ckpt: nat, target: Option<nat>) {
    e.lsn > ckpt && (target.Some? ==> e.time <= target.value)
  }

  /** If times ascend, a pass looks at just the records in time, as far as it uses them. */
  lemma {:induction false} PrefixInTime(es: seq<Entry>, ckpt: nat, target: Option<nat>, i: nat)
    requires TimesAscend(es) && i < |es| && es[i].lsn > ckpt
    ensures var p := Prefix(es, ckpt, target); p <= es && (i < |p| <==> InTime(es[i], ckpt, target))
  {
    PrefixIs(es, ckpt, target);
    match target
    case None => PrefixPlain(es, ckpt);
    case Some(time) => PrefixMeans(es, ckpt, time);
  }

  lemma {:induction false} PrefixIs(es: seq<Entry>, ckpt: nat, target: Option<nat>)
    ensures Prefix(es, ckpt, target) <= es
  {
    if es != [] && !Stops(es[0], ckpt, target) {
      PrefixIs(es[1..], ckpt, target);
      assert es == [es[0]] + es[1..];
    }
  }

  /** Records dropped by truncation, all at or before the checkpoint LSN, change nothing. */
  lemma {:induction false} DroppedHead(head: seq<Entry>, es: seq<Entry>, ckpt: nat, target: Option<nat>, tables: nat)
    requires forall e :: e in head ==> e.lsn <= ckpt
    ensures Recover(head + es, ckpt, target, tables) == Recover(es, ckpt, target, tables)
  {
    PrefixHead(head, es, ckpt, target);
    var p := Prefix(es, ckpt, target);
    CommitsHead(head, p, ckpt);
    RedosHead(head, p, ckpt, Commits(p, ckpt), tables);
  }

  lemma {:induction false} PrefixHead(head: seq<Entry>, es: seq<Entry>, ckpt: nat, target: Option<nat>)
    requires forall e :: e in head ==> e.lsn <= ckpt
    ensures Prefix(head + es, ckpt, target) == head + Prefix(es, ckpt, target)
  {
    if head == [] {
      assert head + es == es;
    } else {
      assert (head + es)[1..] == head[1..] + es;
      assert head[0] in head;
      PrefixHead(head[1..], es, ckpt, target);
      ConcatAssoc([head[0]], head[1..], Prefix(es, ckpt, target));
      assert head == [head[0]] + head[1..];
    }
  }

  lemma {:induction false} CommitsHead(head: seq<Entry>, p: seq<Entry>, ckpt: nat)
    requires forall e :: e in head ==> e.lsn <= ckpt
    ensures Commits(head + p, ckpt) == Commits(p, ckpt)
    decreases |head| + |p|
  {
    if p != [] {
      var n := |p| - 1;
      assert (head + p)[..|head + p| - 1] == head + p[..n];
      CommitsHead(head, p[..n], ckpt);
    } else if head != [] {
      assert head + p == head;
      var n := |head| - 1;
      assert head[n] in head;
      CommitsHead(head[..n], [], ckpt);
      assert head[..n] + [] == head[..n];
    }
  }

  lemma {:induction false} RedosHead(head: seq<Entry>, p: seq<Entry>, ckpt: nat, commits: map<nat, nat>, tables: nat)
    requires forall e :: e in head ==> e.lsn <= ckpt
    ensures Redos(head + p, ckpt, commits, tables) == Redos(p, ckpt, commits, tables)
    decreases |head| + |p|
  {
    if p != [] {
      var n := |p| - 1;
      assert (head + p)[..|head + p| - 1] == head + p[..n];
      RedosHead(head, p[..n], ckpt, commits, tables);
    } else if head != [] {
      assert head + p == head;
      var n := |head| - 1;
      assert head[n] in head;
      RedosHead(head[..n], [], ckpt, commits, tables);
      assert head[..n] + [] == head[..n];
    }
  }

  // ── All or none ──

  /** A log as one run of the database writes it: a finished transaction appears no more. */
  ghost predicate Closed(es: seq<Entry>) {
    && (forall i, j :: 0 <= i < j < |es| && (es[i].rec.CommitRec? || es[i].rec.RollbackRec?) ==>
          es[j].rec.tx != es[i].rec.tx)
    && (forall i, j :: 0 <= i < j < |es| ==> es[i].lsn < es[j].lsn)
  }

  /** The insertions of one transaction in the log, stamped c. */
  function Own(es: seq<Entry>, tx: nat, c: nat, tables: nat): seq<Redo> {
    if es == [] then []
    else
      var n := |es| - 1;
      var e := es[n];
      Own(es[..n], tx, c, tables) +
      if e.rec.InsertRec? && e.rec.tx == tx && e.rec.table < tables then [Redo(tx, e.rec.table, e.rec.row, c)] else []
  }

  function Pick(rs: seq<Redo>, tx: nat): seq<Redo> {
    if rs == [] then []
    else
      var n := |rs| - 1;
      Pick(rs[..n], tx) + if rs[n].tx == tx then [rs[n]] else []
  }

  lemma {:induction false} PickSnoc(rs: seq<Redo>, r: Redo, tx: nat)
    ensures Pick(rs + [r], tx) == Pick(rs, tx) + if r.tx == tx then [r] else []
  {
    assert (rs + [r])[..|rs|] == rs;
  }

  /** All records of the transaction lie after the checkpoint LSN, its begin possibly at it. */
  ghost predicate AllLater(es: seq<Entry>, ckpt: nat, tx: nat) {
    forall e :: e in es && e.rec.tx == tx && !e.rec.BeginRec? ==> e.lsn > ckpt
  }

  /** Of the redone insertions, those of tx are all its insertions after the checkpoint, or none. */
  lemma {:induction false} PickRedos(es: seq<Entry>, ckpt: nat, commits: map<nat, nat>, tables: nat, tx: nat)
    requires AllLater(es, ckpt, tx)
    ensures Pick(Redos(es, ckpt, commits, tables), tx) ==
            if tx in commits then Own(es, tx, commits[tx], tables) else []
  {
    if es != [] {
      var n := |es| - 1;
      assert es[n] in es;
      PickRedos(es[..n], ckpt, commits, tables, tx);
      if Redone(es[n], ckpt, commits, tables) {
        var e := es[n].rec;
        PickSnoc(Redos(es[..n], ckpt, commits, tables), Redo(e.tx, e.table, e.row, commits[e.tx]), tx);
      }
    }
  }

  predicate IsCommit(e: Entry, tx: nat) { e.rec.CommitRec? && e.rec.tx == tx }

  lemma {:induction false} NoCommit(es: seq<Entry>, ckpt: nat, tx: nat)
    requires forall e :: e in es ==> !IsCommit(e, tx)
    ensures tx !in Commits(es, ckpt)
  {
    if es != [] {
      var n := |es| - 1;
      assert es[n] in es;
      NoCommit(es[..n], ckpt, tx);
    }
  }

  lemma {:induction false} OneCommit(es: seq<Entry>, ckpt: nat, i: nat)
    requires Closed(es) && i < |es| && es[i].lsn > ckpt && es[i].rec.CommitRec?
    ensures var tx := es[i].rec.tx; tx in Commits(es, ckpt) && Commits(es, ckpt)[tx] == es[i].rec.ts
  {
    var n := |es| - 1;
    if i < n { OneCommit(es[..n], ckpt, i); }
  }

  lemma {:induction false} OwnConcat(a: seq<Entry>, b: seq<Entry>, tx: nat, c: nat, tables: nat)
    ensures Own(a + b, tx, c, tables) == Own(a, tx, c, tables) + Own(b, tx, c, tables)
    decreases |b|
  {
    if b == [] {
      assert a + b == a;
    } else {
      var n := |b| - 1;
      assert (a + b)[..|a + b| - 1] == a + b[..n];
      OwnConcat(a, b[..n], tx, c, tables);
      var e := b[n];
      var x := if e.rec.InsertRec? && e.rec.tx == tx && e.rec.table < tables then [Redo(tx, e.rec.table, e.rec.row, c)] else [];
      ConcatAssoc(Own(a, tx, c, tables), Own(b[..n], tx, c, tables), x);
    }
  }

  lemma {:induction false} OwnNone(es: seq<Entry>, tx: nat, c: nat, tables: nat)
    requires forall e :: e in es ==> e.rec.tx != tx
    ensures Own(es, tx, c, tables) == []
  {
    if es != [] {
      var n := |es| - 1;
      assert es[n] in es;
      OwnNone(es[..n], tx, c, tables);
    }
  }

  /**
   A transaction with all its records but its begin after the checkpoint is replayed entirely, every
   insertion of the whole log stamped with its logged commit timestamp, if its commit record lies in
   the replayed part of the log; and not at all otherwise.
   */
  lemma {:induction false} AllOrNone(es: seq<Entry>, ckpt: nat, target: Option<nat>, tables: nat, tx: nat)
    requires Closed(es) && AllLater(es, ckpt, tx)
    ensures var p, got := Prefix(es, ckpt, target), Pick(Recover(es, ckpt, target, tables), tx);
            && (forall i :: 0 <= i < |p| && IsCommit(p[i], tx) ==> got == Own(es, tx, p[i].rec.ts, tables))
            && ((forall e :: e in p ==> !IsCommit(e, tx)) ==> got == [])
  {
    var p := Prefix(es, ckpt, target);
    PrefixIs(es, ckpt, target);
    PrefixOfClosed(es, p, ckpt, tx);
    PickRedos(p, ckpt, Commits(p, ckpt), tables, tx);
    if forall e :: e in p ==> !IsCommit(e, tx) { NoCommit(p, ckpt, tx); }
    forall i | 0 <= i < |p| && IsCommit(p[i], tx)
      ensures Pick(Recover(es, ckpt, target, tables), tx) == Own(es, tx, p[i].rec.ts, tables)
    {
      assert p[i] in p;
      OneCommit(p, ckpt, i);
      OwnPrefix(es, |p|, i, tx, tables);
    }
  }

  lemma {:induction false} PrefixOfClosed(es: seq<Entry>, p: seq<Entry>, ckpt: nat, tx: nat)
    requires Closed(es) && p <= es && AllLater(es, ckpt, tx)
    ensures Closed(p) && p == es[..|p|] && AllLater(p, ckpt, tx)
  {
    assert p == es[..|p|];
    assert forall e :: e in p ==> e in es;
  }

  /** Nothing of a transaction follows its commit record. */
  lemma {:induction false} OwnPrefix(es: seq<Entry>, n: nat, i: nat, tx: nat, tables: nat)
    requires Closed(es) && i < n <= |es| && IsCommit(es[i], tx)
    ensures Own(es, tx, es[i].rec.ts, tables) == Own(es[..n], tx, es[i].rec.ts, tables)
  {
    var rest, c := es[n..], es[i].rec.ts;
    assert es == es[..n] + rest;
    forall x | x in rest ensures x.rec.tx != tx {
      var j :| n <= j < |es| && es[j] == x;
    }
    OwnConcat(es[..n], rest, tx, c, tables);
    OwnNone(rest, tx, c, tables);
  }

  lemma {:induction false} RedosConcat(a: seq<Entry>, b: seq<Entry>, ckpt: nat, commits: map<nat, nat>, tables: nat)
    ensures Redos(a + b, ckpt, commits, tables) == Redos(a, ckpt, commits, tables) + Redos(b, ckpt, commits, tables)
    decreases |b|
  {
    if b == [] {
      assert a + b == a;
    } else {
      var n := |b| - 1;
      assert (a + b)[..|a + b| - 1] == a + b[..n];
      RedosConcat(a, b[..n], ckpt, commits, tables);
    }
  }

  // ── What replay applies, in terms of log records ──

  /** Some record of these commits the transaction. */
  ghost predicate CommittedIn(p: seq<Entry>, ckpt: nat, tx: nat) {
    exists c :: c in p && c.lsn > ckpt && IsCommit(c, tx)
  }

  /** An insertion that replay of p applies, in terms of log records only. */
  ghost predicate Applies(e: Entry, p: seq<Entry>, ckpt: nat, tables: nat) {
    e.lsn > ckpt && e.rec.InsertRec? && e.rec.table < tables && CommittedIn(p, ckpt, e.rec.tx)
  }

  lemma {:induction false} CommitsAre(p: seq<Entry>, ckpt: nat, tx: nat)
    ensures tx in Commits(p, ckpt) <==> CommittedIn(p, ckpt, tx)
  {
    if p != [] {
      var n := |p| - 1;
      CommitsAre(p[..n], ckpt, tx);
      assert p == p[..n] + [p[n]];
      if p[n].lsn > ckpt && IsCommit(p[n], tx) { assert p[n] in p; }
      if CommittedIn(p[..n], ckpt, tx) {
        var c :| c in p[..n] && c.lsn > ckpt && IsCommit(c, tx);
        assert c in p;
      }
    }
  }

  lemma {:induction false} NoRedos(es: seq<Entry>, ckpt: nat, commits: map<nat, nat>, tables: nat)
    ensures Redos(es, ckpt, commits, tables) == [] <==> forall e :: e in es ==> !Redone(e, ckpt, commits, tables)
  {
    if es != [] {
      var n := |es| - 1;
      NoRedos(es[..n], ckpt, commits, tables);
      assert es == es[..n] + [es[n]];
    }
  }

  lemma {:induction false} AppliesMeans(e: Entry, p: seq<Entry>, ckpt: nat, tables: nat)
    ensures Redone(e, ckpt, Commits(p, ckpt), tables) <==> Applies(e, p, ckpt, tables)
  {
    if e.rec.InsertRec? { CommitsAre(p, ckpt, e.rec.tx); }
  }

  lemma {:induction false} RedosMembers(es: seq<Entry>, ckpt: nat, commits: map<nat, nat>, tables: nat, r: Redo)
    ensures r in Redos(es, ckpt, commits, tables) <==>
            exists i :: 0 <= i < |es| && Redone(es[i], ckpt, commits, tables) && r == RedoOf(es[i], commits[es[i].rec.tx])
  {
    if es != [] {
      var n := |es| - 1;
      var front := es[..n];
      RedosMembers(front, ckpt, commits, tables, r);
      if i :| 0 <= i < n && Redone(front[i], ckpt, commits, tables) && r == RedoOf(front[i], commits[front[i].rec.tx]) {
        assert es[i] == front[i];
      }
      if i :| 0 <= i < |es| && Redone(es[i], ckpt, commits, tables) && r == RedoOf(es[i], commits[es[i].rec.tx]) {
        if i < n { assert front[i] == es[i]; }
      }
    }
  }

  function RedoOf(e: Entry, ts: nat): Redo
    requires e.rec.InsertRec?
  {
    Redo(e.rec.tx, e.rec.table, e.rec.row, ts)
  }

  /**
   Record i inserts into a known table, record j commits its transaction, both are behind the checkpoint
   LSN, and neither is later than the target.
   */
  ghost predicate Replays(es: seq<Entry>, ckpt: nat, target: Option<nat>, tables: nat, i: nat, j: nat, r: Redo) {
    && i < |es| && j < |es|
    && es[i].rec.InsertRec? && es[i].rec.table < tables && IsCommit(es[j], es[i].rec.tx)
    && InTime(es[i], ckpt, target) && InTime(es[j], ckpt, target)
    && r == Redo(es[i].rec.tx, es[i].rec.table, es[i].rec.row, es[j].rec.ts)
  }

  /**
   Recovery in terms of LSNs and times only: of a log whose times ascend, an insertion is replayed if and
   only if its record and the commit record of its transaction are behind the checkpoint LSN and no later
   than the target; and then stamped with the logged timestamp.
   */
  lemma {:induction false} RecoverInTime(es: seq<Entry>, ckpt: nat, target: Option<nat>, tables: nat, r: Redo)
    requires Closed(es) && TimesAscend(es)
    ensures r in Recover(es, ckpt, target, tables) <==> exists i, j :: Replays(es, ckpt, target, tables, i, j, r)
  {
    var p := Prefix(es, ckpt, target);
    var commits := Commits(p, ckpt);
    RedosMembers(p, ckpt, commits, tables, r);
    if i :| 0 <= i < |p| && Redone(p[i], ckpt, commits, tables) && r == RedoOf(p[i], commits[p[i].rec.tx]) {
      var j := RedoneInTime(es, ckpt, target, tables, p, i);
      assert Replays(es, ckpt, target, tables, i, j, r);
    }
    if i, j :| Replays(es, ckpt, target, tables, i, j, r) {
      InTimeRedone(es, ckpt, target, tables, p, i, j, r);
    }
  }

  /** What is replayed is in time, and so is the commit record it is stamped by. */
  lemma {:induction false} RedoneInTime(es: seq<Entry>, ckpt: nat, target: Option<nat>, tables: nat, p: seq<Entry>, i: nat) returns (j: nat)
    requires Closed(es) && TimesAscend(es) && p == Prefix(es, ckpt, target) && i < |p| && Redone(p[i], ckpt, Commits(p, ckpt), tables)
    ensures Replays(es, ckpt, target, tables, i, j, RedoOf(p[i], Commits(p, ckpt)[p[i].rec.tx]))
  {
    PrefixIs(es, ckpt, target);
    ClosedPrefix(es, p);
    CommitsAre(p, ckpt, p[i].rec.tx);
    var c :| c in p && c.lsn > ckpt && IsCommit(c, p[i].rec.tx);
    j :| 0 <= j < |p| && p[j] == c;
    OneCommit(p, ckpt, j);
    PrefixInTime(es, ckpt, target, i);
    PrefixInTime(es, ckpt, target, j);
  }

  lemma {:induction false} InTimeRedone(es: seq<Entry>, ckpt: nat, target: Option<nat>, tables: nat, p: seq<Entry>, i: nat, j: nat, r: Redo)
    requires Closed(es) && TimesAscend(es) && p == Prefix(es, ckpt, target) && Replays(es, ckpt, target, tables, i, j, r)
    ensures i < |p| && Redone(p[i], ckpt, Commits(p, ckpt), tables) && r == RedoOf(p[i], Commits(p, ckpt)[p[i].rec.tx])
  {
    PrefixInTime(es, ckpt, target, i);
    PrefixInTime(es, ckpt, target, j);
    ClosedPrefix(es, p);
    OneCommit(p, ckpt, j);
  }

  lemma ClosedPrefix(es: seq<Entry>, p: seq<Entry>)
    requires Closed(es) && p <= es
    ensures Closed(p)
  {
    assert forall i :: 0 <= i < |p| ==> p[i] == es[i];
  }
}
