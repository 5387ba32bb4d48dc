/** Ending a transaction, sorting and pruning: the invariant they keep and what readers then see. */
module TableFinish {
  import opened Versions
  import opened VersionEdits
  import opened Tables
  import opened TableSteps

  // ── Commit and rollback restamp everything of the transaction, wherever it is ──

  lemma {:induction false} CountIn(rows: seq<nat>, r: nat)
    requires Count(rows, r) > 0
    ensures r in rows
  {
    if rows[|rows| - 1] != r { CountIn(rows[..|rows| - 1], r); }
  }

  lemma RestampConcat(a: seq<Ver>, b: seq<Ver>, target: nat, c: nat)
    ensures Restamp(a + b, target, c) == Restamp(a, target, c) + Restamp(b, target, c)
  {
  }

  /** Every version with the stamp is of a listed row. */
  ghost predicate Listed(es: seq<Ver>, rows: seq<nat>, target: nat) {
    forall e :: e in es && e.ts == target ==> e.row in rows
  }

  lemma {:induction false} BatchRestamp(b: Batch, page: nat, rows: seq<nat>, target: nat, c: nat)
    requires Listed(BatchVers(b, page), rows, target)
    ensures BatchVers(StampBatch(b, rows, target, c), page) == Restamp(BatchVers(b, page), target, c)
  {
    var vs := BatchVers(b, page);
    forall i | 0 <= i < |vs|
      ensures BatchVers(StampBatch(b, rows, target, c), page)[i] == Restamp(vs, target, c)[i]
    {
      assert vs[i] in vs;
    }
  }

  lemma {:induction false} QueueRestamp(bs: seq<Batch>, pages: seq<nat>, rows: seq<nat>, target: nat, c: nat)
    requires |pages| == |bs| && Listed(QueueVers(bs, pages), rows, target)
    ensures QueueVers(StampQueue(bs, rows, target, c), pages) == Restamp(QueueVers(bs, pages), target, c)
  {
    if bs != [] {
      var x, y := BatchVers(bs[0], pages[0]), QueueVers(bs[1..], pages[1..]);
      assert Listed(x, rows, target) && Listed(y, rows, target) by {
        assert forall e :: e in x || e in y ==> e in x + y;
      }
      BatchRestamp(bs[0], pages[0], rows, target, c);
      QueueRestamp(bs[1..], pages[1..], rows, target, c);
      assert StampQueue(bs, rows, target, c)[1..] == StampQueue(bs[1..], rows, target, c);
      RestampConcat(x, y, target, c);
    }
  }

  lemma {:induction false} AllListed(t: Table, ts: nat, tx: nat)
    requires Inv(t, ts) && tx in t.ws
    ensures Listed(All(t), t.ws[tx].rows, Flagged(tx))
    ensures forall r :: Matches(t.index, r, Flagged(tx)) <= Count(t.ws[tx].rows, r)
  {
    var all, s, rows := All(t), Flagged(tx), t.ws[tx].rows;
    forall e | e in all && e.ts == s ensures e.row in rows {
      var i :| 0 <= i < |all| && all[i] == e;
      NoMatches(all, i, s);
      assert Matches(all, e.row, s) <= Count(rows, e.row);
      CountIn(rows, e.row);
    }
    forall r ensures Matches(t.index, r, s) <= Count(rows, r) {
      MatchesConcat(t.index, Pending(t), r, s);
      assert Matches(all, r, s) <= Count(rows, r);
    }
  }

  lemma {:induction false} AllFinish(t: Table, ts: nat, tx: nat, c: nat)
    requires Inv(t, ts) && tx in t.ws && c != Flagged(tx)
    ensures Finish(t, tx, c).index == Restamp(t.index, Flagged(tx), c)
    ensures All(Finish(t, tx, c)) == Restamp(All(t), Flagged(tx), c)
  {
    var u, s, rows := Finish(t, tx, c), Flagged(tx), t.ws[tx].rows;
    AllListed(t, ts, tx);
    StampAllComplete(t.index, rows, s, c);
    assert Listed(Pending(t), rows, s) by { assert forall e :: e in Pending(t) ==> e in All(t); }
    QueueRestamp(Batches(t), NoPages(|Batches(t)|), rows, s, c);
    assert Batches(u) == StampQueue(Batches(t), rows, s, c);
    RestampConcat(t.index, Pending(t), s, c);
  }

  lemma {:induction false} TracksRestamp(all: seq<Ver>, target: nat, c: nat, tx: nat, w: WriteSet)
    requires Tracks(all, tx, w) && Flagged(tx) != target && Flagged(tx) != c && target != c
    ensures Tracks(Restamp(all, target, c), tx, w)
  {
    var s, now := Flagged(tx), Restamp(all, target, c);
    forall r ensures Matches(now, r, s) == Matches(all, r, s) { RestampMatches(all, target, c, r, s); }
    RestampMembers(all, target, c);
    forall r, tomb ensures Stamped(now, r, s, tomb) <==> Stamped(all, r, s, tomb) {
      if Stamped(all, r, s, tomb) {
        var e :| e in all && e.row == r && e.ts == s && Tomb(e) == tomb;
        assert Restamped(e, target, c) == e;
      }
      if Stamped(now, r, s, tomb) {
        var x :| x in now && x.row == r && x.ts == s && Tomb(x) == tomb;
        var e :| e in all && x == Restamped(e, target, c);
      }
    }
    forall r | Gone(all, r) ensures Gone(now, r) {
      forall x | x in now ensures x.row != r {
        var e :| e in all && x == Restamped(e, target, c);
      }
    }
  }

  /** The stamps that end a transaction when ts was the last timestamp issued. */
  predicate Ends(c: nat, ts: nat) { c == ABORTED || (c == ts + 1 && c < FLAG) }

  lemma {:induction false} EndsFinal(t: Table, ts: nat, c: nat)
    requires Inv(t, ts) && Ends(c, ts)
    ensures Final(All(t), c) && Final(t.index, c)
  {
    forall e | e in All(t) && Committed(e) ensures e.ts <= ts {
      assert Known(e, |t.rows|, ts, t.ws.Keys);
    }
    assert forall e :: e in t.index ==> e in All(t);
  }

  lemma {:induction false} FinishKnown(t: Table, ts: nat, tx: nat, c: nat, ts': nat)
    requires Inv(t, ts) && tx in t.ws && tx < FLAG - 1 && Ends(c, ts)
    requires ts' == if c == ABORTED then ts else ts + 1
    ensures var u := Finish(t, tx, c);
            forall x :: x in All(u) ==> Known(x, |u.rows|, ts', u.ws.Keys)
  {
    var u, s := Finish(t, tx, c), Flagged(tx);
    AllFinish(t, ts, tx, c);
    RestampMembers(All(t), s, c);
    forall x | x in All(u) ensures Known(x, |u.rows|, ts', u.ws.Keys) {
      var e :| e in All(t) && x == Restamped(e, s, c);
      RestampKnown(e, |t.rows|, ts, t.ws.Keys, tx, c);
    }
  }

  lemma {:induction false} RestampKnown(e: Ver, n: nat, ts: nat, txs: set<nat>, tx: nat, c: nat)
    requires Known(e, n, ts, txs) && Ends(c, ts) && tx < FLAG - 1
    ensures Known(Restamped(e, Flagged(tx), c), n, if c == ABORTED then ts else ts + 1, txs - {tx})
  {
  }

  lemma {:induction false} FinishTracks(t: Table, ts: nat, tx: nat, c: nat, x: nat)
    requires Inv(t, ts) && tx in t.ws && x in t.ws && x != tx && Ends(c, ts)
    ensures Tracks(All(Finish(t, tx, c)), x, t.ws[x])
  {
    AllFinish(t, ts, tx, c);
    TracksRestamp(All(t), Flagged(tx), c, x, t.ws[x]);
  }

  lemma {:induction false} FinishOrder(t: Table, ts: nat, tx: nat, c: nat)
    requires Inv(t, ts) && tx in t.ws && tx < FLAG - 1 && Ends(c, ts)
    ensures var u := Finish(t, tx, c);
            && Coherent(All(u)) && TombsFollow(u.index)
            && (!u.dirty ==> RowSorted(u.index) && InsertLast(u.index))
  {
    AllFinish(t, ts, tx, c);
    EndsFinal(t, ts, c);
    RestampCoherent(All(t), Flagged(tx), c);
    RestampFollows(t.index, Flagged(tx), c);
  }

  lemma {:induction false} FinishInv(t: Table, ts: nat, tx: nat, c: nat)
    requires Inv(t, ts) && Ends(c, ts) && ts + 1 < FLAG && tx < FLAG - 1
    ensures Inv(Finish(t, tx, c), if c == ABORTED then ts else ts + 1)
    ensures tx !in Finish(t, tx, c).ws
  {
    var u, ts' := Finish(t, tx, c), if c == ABORTED then ts else ts + 1;
    if tx in t.ws {
      FinishOrder(t, ts, tx, c);
      FinishKnown(t, ts, tx, c, ts');
      FinishBatches(t, tx, c);
      forall x | x in u.ws ensures Tracks(All(u), x, u.ws[x]) { FinishTracks(t, ts, tx, c, x); }
    } else {
      KnownMore(t, ts, |t.rows|, ts', t.ws.Keys);
    }
  }

  lemma {:induction false} FinishBatches(t: Table, tx: nat, c: nat)
    requires BatchesOk(t)
    ensures BatchesOk(Finish(t, tx, c))
  {
    if tx in t.ws {
      var u := Finish(t, tx, c);
      forall b | b in u.queue ensures |b.stamps| <= BATCH_SIZE {
        var i :| 0 <= i < |u.queue| && u.queue[i] == b;
        assert t.queue[i] in t.queue;
      }
    }
  }

  /**
   Ending transaction tx in a table.  Committed at c, its insertions appear and its deletions take
   effect at exactly the snapshots from c on, wherever the rows are kept; aborted, nothing changes.
   */
  lemma {:induction false} FinishSees(t: Table, ts: nat, tx: nat, c: nat, r: nat, q: nat)
    requires Inv(t, ts) && Ends(c, ts) && tx < FLAG - 1
    ensures Sees(Finish(t, tx, c), r, q) <==>
            if c != ABORTED && c <= q
            then r in SetOf(t, tx).ins || (Sees(t, r, q) && r !in SetOf(t, tx).del)
            else Sees(t, r, q)
  {
    if tx in t.ws {
      var w, s := t.ws[tx], Flagged(tx);
      AllFinish(t, ts, tx, c);
      EndsFinal(t, ts, c);
      RestampVisible(All(t), s, c, r, q);
      if r in w.del && !Stamped(All(t), r, s, true) {
        assert Gone(All(t), r);
        VisibleMeans(All(t), r, q);
      }
    }
  }

  // ── Sorting ──

  lemma {:induction false} ResortInv(t: Table, ts: nat, s: seq<Ver>)
    requires Inv(t, ts) && Sorted(s) && Permuted(t.index, s)
    ensures Inv(Resort(t, s), ts)
  {
    var u := Resort(t, s);
    PermutedPrefix(t.index, s, Pending(t));
    PermutedMembers(All(t), All(u));
    PermutedMembers(t.index, s);
    CoherentPermuted(All(t), All(u));
    PartCoherent(t.index, Pending(t));
    CoherentPermuted(t.index, s);
    SortedInsertLast(s);
    forall tx | tx in u.ws ensures Tracks(All(u), tx, u.ws[tx]) {
      TracksPermuted(All(t), All(u), tx, t.ws[tx]);
    }
  }

  /** Sorting changes nothing any snapshot sees. */
  lemma {:induction false} ResortSees(t: Table, ts: nat, s: seq<Ver>, r: nat, q: nat)
    requires Inv(t, ts) && Permuted(t.index, s)
    ensures Sees(Resort(t, s), r, q) <==> Sees(t, r, q)
  {
    PermutedPrefix(t.index, s, Pending(t));
    VisiblePermuted(All(t), All(Resort(t, s)), r, q);
  }

  // ── Pruning ──

  lemma {:induction false} TracksPruned(t: Table, ts: nat, cutoff: nat, tx: nat)
    requires Inv(t, ts) && !t.dirty && cutoff < FLAG && tx in t.ws
    ensures Tracks(All(Prune(t, cutoff)), tx, t.ws[tx])
  {
    var all, now, s, w := All(t), All(Prune(t, cutoff)), Flagged(tx), t.ws[tx];
    PrunedMembers(t.index, cutoff);
    PendingPlain(t);
    forall r ensures Matches(now, r, s) <= Count(w.rows, r) {
      PrunedFewer(t.index, cutoff);
      MatchesFew(Pruned(t.index, cutoff), t.index, r, s);
      MatchesConcat(Pruned(t.index, cutoff), Pending(t), r, s);
      MatchesConcat(t.index, Pending(t), r, s);
      assert Matches(all, r, s) <= Count(w.rows, r);
    }
    assert forall e :: e in now ==> e in all;
    StampedMembers(now, all, s);
    forall r | r in w.ins ensures Stamped(now, r, s, false) {
      assert Stamped(all, r, s, false);
      NotDeletedYet(all, r, s, cutoff);
      var e :| e in all && e.row == r && e.ts == s && !Tomb(e);
      NotDead(t.index, Pending(t), r, cutoff);
      assert e in now;
    }
    forall r | r in w.del ensures Stamped(now, r, s, true) || Gone(now, r) {
      if Dead(t.index, r, cutoff) {
        DeadNotPending(t.index, Pending(t), r, cutoff);
        assert Gone(now, r);
      } else if Stamped(all, r, s, true) {
        var e :| e in all && e.row == r && e.ts == s && Tomb(e);
        assert e in now;
      }
    }
  }

  lemma NotDead(index: seq<Ver>, rest: seq<Ver>, r: nat, cutoff: nat)
    requires !Deleted(index + rest, r, cutoff)
    ensures !Dead(index, r, cutoff)
  {
    assert forall d :: d in index ==> d in index + rest;
  }

  lemma {:induction false} PruneInv(t: Table, ts: nat, cutoff: nat)
    requires Inv(t, ts) && !t.dirty && cutoff < FLAG
    ensures Inv(Prune(t, cutoff), ts)
  {
    var u := Prune(t, cutoff);
    PendingPlain(t);
    PrunedMembers(t.index, cutoff);
    PrunedCoherent(t.index, Pending(t), cutoff);
    PrunedOrder(t.index, cutoff);
    assert forall e :: e in All(u) ==> e in All(t);
    forall tx | tx in u.ws ensures Tracks(All(u), tx, u.ws[tx]) { TracksPruned(t, ts, cutoff, tx); }
  }

  lemma {:induction false} PrunedOrder(es: seq<Ver>, cutoff: nat)
    requires RowSorted(es) && InsertLast(es)
    ensures RowSorted(Pruned(es, cutoff)) && InsertLast(Pruned(es, cutoff))
    decreases |es|
  {
    if es != [] {
      var g := GroupEnd(es);
      PrunedOrder(es[g..], cutoff);
      GroupApart(es);
      PrunedAbove(es[g..], cutoff, es[0].row);
      KeepOrder(es[..g], cutoff, es[0].row);
      JoinOrder(KeepGroup(es[..g], cutoff), Pruned(es[g..], cutoff), es[0].row);
    }
  }

  lemma {:induction false} PrunedAbove(b: seq<Ver>, cutoff: nat, row: nat)
    requires forall e :: e in b ==> e.row > row
    ensures forall e :: e in Pruned(b, cutoff) ==> e.row > row
  {
    PrunedFewer(b, cutoff);
    forall e | e in Pruned(b, cutoff) ensures e.row > row {
      assert e in multiset(Pruned(b, cutoff));
      assert e in b;
    }
  }

  lemma KeepOrder(g: seq<Ver>, cutoff: nat, row: nat)
    requires InsertLast(g) && forall e :: e in g ==> e.row == row
    ensures InsertLast(KeepGroup(g, cutoff)) && forall e :: e in KeepGroup(g, cutoff) ==> e.row == row
  {
  }

  lemma JoinOrder(a: seq<Ver>, b: seq<Ver>, row: nat)
    requires InsertLast(a) && (forall e :: e in a ==> e.row == row)
    requires RowSorted(b) && InsertLast(b) && forall e :: e in b ==> e.row > row
    ensures RowSorted(a + b) && InsertLast(a + b)
  {
    var s := a + b;
    forall i, j | 0 <= i < j < |s|
      ensures s[i].row <= s[j].row && (s[i].row == s[j].row ==> Tomb(s[i]))
    {
      if i < |a| { assert s[i] in a; } else { assert s[i] in b; }
      if j < |a| { assert s[j] in a; } else { assert s[j] in b; }
    }
  }

  /**
   Pruning at a cutoff hides a row from exactly those snapshots that still see it although it was
   deleted at or before the cutoff; at snapshots from the cutoff on it changes nothing.
   */
  lemma {:induction false} PruneSees(t: Table, ts: nat, cutoff: nat, r: nat, q: nat)
    requires Inv(t, ts) && !t.dirty && cutoff < FLAG
    ensures Sees(Prune(t, cutoff), r, q) <==> Sees(t, r, q) && !Dead(t.index, r, cutoff)
    ensures q >= cutoff ==> (Sees(Prune(t, cutoff), r, q) <==> Sees(t, r, q))
  {
    PendingPlain(t);
    PrunedVisible(t.index, Pending(t), cutoff, r, q);
    VisibleMeans(All(t), r, q);
    if q >= cutoff && Dead(t.index, r, cutoff) {
      var d :| d in t.index && Tomb(d) && Candidate(d, r, cutoff);
      assert d in All(t) && Candidate(d, r, q);
    }
  }
}
