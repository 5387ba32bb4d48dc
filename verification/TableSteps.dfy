/** Every table operation keeps the table invariant, and its exact effect on what readers see. */
module TableSteps {
  import opened Sequences
  import opened Versions
  import opened VersionEdits
  import opened Tables

  // ── Insertion ──

  lemma {:induction false} PendingCurrent(t: Table)
    ensures Pending(t) == QueueVers(t.queue, NoPages(|t.queue|)) + BatchVers(Current(t), 0)
  {
    PendingParts(t);
    if t.active.None? || t.active.value.stamps == [] {
      assert BatchVers(Current(t), 0) == [];
    }
  }

  lemma {:induction false} PendingPut(t: Table, stamp: nat, row: Row)
    ensures var full := Current(t).(stamps := Current(t).stamps + [stamp]);
            Pending(PutRow(t, stamp, row)) == QueueVers(t.queue, NoPages(|t.queue|)) + BatchVers(full, 0)
  {
    var full := Current(t).(stamps := Current(t).stamps + [stamp]);
    PendingParts(PutRow(t, stamp, row));
    if |full.stamps| >= BATCH_SIZE {
      assert NoPages(|t.queue| + 1) == NoPages(|t.queue|) + [0];
      QueueVersConcat(t.queue, NoPages(|t.queue|), [full], [0]);
      QueueVersOne(full, 0);
    }
  }

  lemma {:induction false} AllPutRow(t: Table, stamp: nat, row: Row)
    requires BatchesOk(t)
    ensures All(PutRow(t, stamp, row)) == All(t) + [Ver(|t.rows|, stamp, 0)]
    ensures BatchesOk(PutRow(t, stamp, row))
  {
    var e := Ver(|t.rows|, stamp, 0);
    var b := Current(t);
    PendingCurrent(t);
    PendingPut(t, stamp, row);
    assert BatchVers(b.(stamps := b.stamps + [stamp]), 0) == BatchVers(b, 0) + [e];
    var queued := QueueVers(t.queue, NoPages(|t.queue|));
    ConcatAssoc(queued, BatchVers(b, 0), [e]);
    ConcatAssoc(t.index, Pending(t), [e]);
  }

  lemma {:induction false} KnownMore(t: Table, ts: nat, n: nat, ts': nat, txs: set<nat>)
    requires forall e :: e in All(t) ==> Known(e, |t.rows|, ts, t.ws.Keys)
    requires |t.rows| <= n && ts <= ts' && t.ws.Keys <= txs
    ensures forall e :: e in All(t) ==> Known(e, n, ts', txs)
  {
  }

  /** A new version with another stamp leaves a write set's account of its own stamp unchanged. */
  lemma {:induction false} TracksOther(all: seq<Ver>, e: Ver, tx: nat, w: WriteSet)
    requires Tracks(all, tx, w) && e.ts != Flagged(tx) && !Tomb(e)
    requires forall r :: r in w.del ==> r != e.row
    ensures Tracks(all + [e], tx, w)
  {
    forall r ensures Matches(all + [e], r, Flagged(tx)) == Matches(all, r, Flagged(tx)) {
      MatchesConcat(all, [e], r, Flagged(tx));
      MatchesZero([e], r, Flagged(tx));
    }
    StampedOther(all, [e], Flagged(tx));
    forall r | r in w.del ensures Stamped(all + [e], r, Flagged(tx), true) || Gone(all + [e], r) {
      assert Stamped(all, r, Flagged(tx), true) || Gone(all, r);
    }
  }

  lemma StampedOther(all: seq<Ver>, more: seq<Ver>, s: nat)
    requires forall e :: e in more ==> e.ts != s
    ensures forall r, tomb :: Stamped(all + more, r, s, tomb) <==> Stamped(all, r, s, tomb)
  {
    forall r, tomb | Stamped(all, r, s, tomb) ensures Stamped(all + more, r, s, tomb) {
      var e :| e in all && e.row == r && e.ts == s && Tomb(e) == tomb;
      assert e in all + more;
    }
  }

  lemma {:induction false} CountAppend(rows: seq<nat>, x: nat, r: nat)
    ensures Count(rows + [x], r) == Count(rows, r) + if x == r then 1 else 0
  {
    assert (rows + [x])[..|rows|] == rows;
  }

  lemma {:induction false} TracksInsert(all: seq<Ver>, e: Ver, tx: nat, w: WriteSet)
    requires Tracks(all, tx, w) && e.ts == Flagged(tx) && !Tomb(e)
    requires forall r :: r in w.del ==> r != e.row
    ensures Tracks(all + [e], tx, WriteSet(w.rows + [e.row], w.ins + {e.row}, w.del))
  {
    var s := Flagged(tx);
    forall r ensures Matches(all + [e], r, s) <= Count(w.rows + [e.row], r) {
      MatchesConcat(all, [e], r, s);
      assert [e][1..] == [];
      CountAppend(w.rows, e.row, r);
    }
    StampedAppend(all, e, s);
    forall r | r in w.del ensures Stamped(all + [e], r, s, true) || Gone(all + [e], r) {
      assert Stamped(all, r, s, true) || Gone(all, r);
    }
  }

  lemma StampedAppend(all: seq<Ver>, e: Ver, s: nat)
    requires e.ts == s
    ensures forall r, tomb :: Stamped(all + [e], r, s, tomb) <==>
                              Stamped(all, r, s, tomb) || (r == e.row && tomb == Tomb(e))
  {
    forall r, tomb | Stamped(all, r, s, tomb) ensures Stamped(all + [e], r, s, tomb) {
      var x :| x in all && x.row == r && x.ts == s && Tomb(x) == tomb;
      assert x in all + [e];
    }
    assert e in all + [e];
  }

  /** A transaction without a write set has stamped nothing. */
  lemma {:induction false} TracksNothing(t: Table, ts: nat, tx: nat)
    requires Inv(t, ts) && tx !in t.ws && tx < FLAG - 1
    ensures Tracks(All(t), tx, WriteSet([], {}, {}))
  {
    var all, s := All(t), Flagged(tx);
    forall e | e in all ensures e.ts != s { assert Known(e, |t.rows|, ts, t.ws.Keys); }
    forall r ensures Matches(all, r, s) == 0 { MatchesZero(all, r, s); }
  }

  function SetOf(t: Table, tx: nat): WriteSet { if tx in t.ws then t.ws[tx] else WriteSet([], {}, {}) }

  // ── Inserting keeps the invariant ──

  lemma {:induction false} PutRowInv(t: Table, ts: nat, stamp: nat, row: Row, tx: nat)
    requires Inv(t, ts) && ts + 1 < FLAG
    requires stamp == ts + 1 || (stamp == Flagged(tx) && tx < FLAG - 1)
    ensures var u, e := PutRow(t, stamp, row), Ver(|t.rows|, stamp, 0);
            && All(u) == All(t) + [e] && Coherent(All(u)) && BatchesOk(u)
            && (forall x :: x in All(t) ==> x.row != e.row)
            && (forall x :: x in All(u) ==> Known(x, |u.rows|, ts + 1, t.ws.Keys + {tx}))
            && (forall x :: x in t.ws && Flagged(x) != stamp ==> Tracks(All(u), x, t.ws[x]))
  {
    var u, e := PutRow(t, stamp, row), Ver(|t.rows|, stamp, 0);
    AllPutRow(t, stamp, row);
    forall x | x in All(t) ensures x.row != e.row { assert Known(x, |t.rows|, ts, t.ws.Keys); }
    AppendInsert(All(t), e);
    KnownMore(t, ts, |u.rows|, ts + 1, t.ws.Keys + {tx});
    forall x | x in t.ws && Flagged(x) != stamp ensures Tracks(All(u), x, t.ws[x]) {
      TracksOther(All(t), e, x, t.ws[x]);
    }
  }

  lemma {:induction false} PutAutoInv(t: Table, ts: nat, row: Row)
    requires Inv(t, ts) && ts + 1 < FLAG
    ensures Inv(PutRow(t, ts + 1, row), ts + 1)
  {
    PutRowInv(t, ts, ts + 1, row, 0);
    PutAutoKnown(t, ts, row);
  }

  lemma {:induction false} PutAutoKnown(t: Table, ts: nat, row: Row)
    requires Inv(t, ts) && ts + 1 < FLAG
    ensures var u := PutRow(t, ts + 1, row); forall x :: x in All(u) ==> Known(x, |u.rows|, ts + 1, u.ws.Keys)
  {
    var u := PutRow(t, ts + 1, row);
    AllPutRow(t, ts + 1, row);
    forall x | x in All(u) ensures Known(x, |u.rows|, ts + 1, u.ws.Keys) {
      if x in All(t) { assert Known(x, |t.rows|, ts, t.ws.Keys); }
    }
  }

  /** An autocommit insertion: visible from its own timestamp on, all else unchanged. */
  lemma {:induction false} PutAutoSees(t: Table, ts: nat, row: Row, r: nat, q: nat)
    requires Inv(t, ts) && ts + 1 < FLAG
    ensures Sees(PutRow(t, ts + 1, row), r, q) <==> if r == |t.rows| then ts + 1 <= q else Sees(t, r, q)
  {
    PutRowInv(t, ts, ts + 1, row, 0);
    AppendInsertVisible(All(t), Ver(|t.rows|, ts + 1, 0), r, q);
  }

  lemma {:induction false} InsertTxTracks(t: Table, ts: nat, tx: nat, row: Row)
    requires Inv(t, ts) && ts + 1 < FLAG && tx < FLAG - 1
    ensures var u := InsertTx(t, tx, row);
            forall x :: x in u.ws ==> Tracks(All(u), x, u.ws[x])
  {
    var u, e := InsertTx(t, tx, row), Ver(|t.rows|, Flagged(tx), 0);
    PutRowInv(t, ts, Flagged(tx), row, tx);
    if tx !in t.ws { TracksNothing(t, ts, tx); }
    TracksInsert(All(t), e, tx, SetOf(t, tx));
  }

  lemma {:induction false} InsertTxKnown(t: Table, ts: nat, tx: nat, row: Row)
    requires Inv(t, ts) && ts + 1 < FLAG && tx < FLAG - 1
    ensures var u := InsertTx(t, tx, row);
            forall x :: x in All(u) ==> Known(x, |u.rows|, ts, u.ws.Keys)
  {
    var u := InsertTx(t, tx, row);
    AllPutRow(t, Flagged(tx), row);
    assert All(u) == All(PutRow(t, Flagged(tx), row));
    forall x | x in All(u) ensures Known(x, |u.rows|, ts, u.ws.Keys) {
      if x in All(t) { assert Known(x, |t.rows|, ts, t.ws.Keys); }
    }
  }

  lemma {:induction false} InsertTxInv(t: Table, ts: nat, tx: nat, row: Row)
    requires Inv(t, ts) && ts + 1 < FLAG && tx < FLAG - 1
    ensures Inv(InsertTx(t, tx, row), ts)
  {
    InsertTxCoherent(t, ts, tx, row);
    InsertTxKnown(t, ts, tx, row);
    InsertTxTracks(t, ts, tx, row);
  }

  lemma {:induction false} InsertTxCoherent(t: Table, ts: nat, tx: nat, row: Row)
    requires Inv(t, ts) && ts + 1 < FLAG && tx < FLAG - 1
    ensures Coherent(All(InsertTx(t, tx, row))) && BatchesOk(InsertTx(t, tx, row))
  {
    PutRowInv(t, ts, Flagged(tx), row, tx);
    assert All(InsertTx(t, tx, row)) == All(PutRow(t, Flagged(tx), row));
  }

  /** An insertion inside a transaction is seen by no snapshot, and changes no other row. */
  lemma {:induction false} InsertTxSees(t: Table, ts: nat, tx: nat, row: Row, r: nat, q: nat)
    requires Inv(t, ts) && ts + 1 < FLAG && tx < FLAG - 1
    ensures Sees(InsertTx(t, tx, row), r, q) <==> Sees(t, r, q)
  {
    PutRowInv(t, ts, Flagged(tx), row, tx);
    assert All(InsertTx(t, tx, row)) == All(PutRow(t, Flagged(tx), row));
    AppendInsertVisible(All(t), Ver(|t.rows|, Flagged(tx), 0), r, q);
    if r >= |t.rows| { UnknownRow(t, ts, r, q); }
  }

  /** No snapshot sees a row that was never issued. */
  lemma UnknownRow(t: Table, ts: nat, r: nat, q: nat)
    requires Inv(t, ts) && r >= |t.rows|
    ensures !Sees(t, r, q)
  {
    VisibleMeans(All(t), r, q);
    forall e | e in All(t) ensures e.row != r { assert Known(e, |t.rows|, ts, t.ws.Keys); }
  }

  // ── Flushing ──

  lemma {:induction false} SimilarQueues(bs: seq<Batch>, p: seq<nat>, q: seq<nat>)
    requires |p| == |bs| == |q|
    requires forall x :: x in p || x in q ==> x != TOMB
    ensures Similar(QueueVers(bs, p), QueueVers(bs, q))
  {
    if bs != [] {
      assert p[0] in p && q[0] in q;
      assert forall x :: x in p[1..] || x in q[1..] ==> x in p || x in q;
      SimilarQueues(bs[1..], p[1..], q[1..]);
    }
  }

  lemma {:induction false} FlushPending(t: Table)
    ensures Pending(t) == QueueVers(ToFlush(t), NoPages(|ToFlush(t)|))
  {
    if t.active.Some? && t.active.value.stamps == [] {
      PendingParts(t);
      assert ToFlush(t) == t.queue;
      assert BatchVers(t.active.value, 0) == [];
    } else {
      assert ToFlush(t) == Batches(t);
    }
  }

  lemma {:induction false} NothingPending(t: Table)
    requires ToFlush(t) == []
    ensures Pending(t) == [] && All(t) == t.index
  {
    FlushPending(t);
  }

  lemma {:induction false} AllFlush(t: Table, pages: seq<nat>)
    requires |pages| == |ToFlush(t)| && forall p :: p in pages ==> p != TOMB
    ensures Similar(All(t), All(Flush(t, pages)))
    ensures ToFlush(Flush(t, pages)) == []
    ensures pages != [] ==> All(Flush(t, pages)) == Flush(t, pages).index
  {
    if pages == [] { return; }
    var u := Flush(t, pages);
    FlushPending(t);
    NothingPending(u);
    SimilarQueues(ToFlush(t), NoPages(|pages|), pages);
  }

  lemma {:induction false} TracksSimilar(a: seq<Ver>, b: seq<Ver>, tx: nat, w: WriteSet)
    requires Similar(a, b) && Tracks(a, tx, w)
    ensures Tracks(b, tx, w)
  {
    forall r ensures Matches(a, r, Flagged(tx)) == Matches(b, r, Flagged(tx)) {
      SimilarMatches(a, b, r, Flagged(tx));
    }
    SimilarStamped(a, b, Flagged(tx));
    SimilarStamped(b, a, Flagged(tx));
    forall r | Gone(a, r) ensures Gone(b, r) {
      forall e | e in b ensures e.row != r {
        var i :| 0 <= i < |b| && b[i] == e;
        assert a[i] in a;
      }
    }
  }

  lemma SimilarStamped(a: seq<Ver>, b: seq<Ver>, s: nat)
    requires Similar(a, b)
    ensures forall r, tomb :: Stamped(a, r, s, tomb) ==> Stamped(b, r, s, tomb)
  {
    forall r, tomb | Stamped(a, r, s, tomb) ensures Stamped(b, r, s, tomb) {
      var e :| e in a && e.row == r && e.ts == s && Tomb(e) == tomb;
      var i :| 0 <= i < |a| && a[i] == e;
      assert b[i] in b;
    }
  }

  lemma {:induction false} FlushInv(t: Table, ts: nat, pages: seq<nat>)
    requires Inv(t, ts) && |pages| == |ToFlush(t)| && forall p :: p in pages ==> p != TOMB
    ensures Inv(Flush(t, pages), ts)
  {
    var u := Flush(t, pages);
    if pages == [] { return; }
    AllFlush(t, pages);
    SimilarCoherent(All(t), All(u));
    forall e | e in All(u) ensures Known(e, |u.rows|, ts, u.ws.Keys) {
      var i :| 0 <= i < |All(u)| && All(u)[i] == e;
      assert Known(All(t)[i], |t.rows|, ts, t.ws.Keys);
    }
    forall tx | tx in u.ws ensures Tracks(All(u), tx, u.ws[tx]) {
      TracksSimilar(All(t), All(u), tx, t.ws[tx]);
    }
  }

  /** Flushing changes nothing any snapshot sees. */
  lemma {:induction false} FlushSees(t: Table, pages: seq<nat>, r: nat, q: nat)
    requires |pages| == |ToFlush(t)| && forall p :: p in pages ==> p != TOMB
    ensures Sees(Flush(t, pages), r, q) <==> Sees(t, r, q)
  {
    AllFlush(t, pages);
    SimilarVisible(All(t), All(Flush(t, pages)), r, q);
  }

  // ── Deleting ──

  /** Rows the deleter saw in the index at its snapshot, which lies before the stamp. */
  predicate Targets(t: Table, rows: seq<nat>, q: nat) { forall r :: r in rows ==> Visible(t.index, r, q) }

  /** Rows seen at some snapshot issued by ts. */
  ghost predicate TargetsBy(t: Table, rows: seq<nat>, ts: nat) { exists q: nat :: q <= ts && Targets(t, rows, q) }

  lemma {:induction false} PermutedPrefix(a: seq<Ver>, b: seq<Ver>, rest: seq<Ver>)
    requires Permuted(a, b)
    ensures Permuted(a + rest, b + rest)
  {
    assert multiset(a + rest) == multiset(a) + multiset(rest);
    assert multiset(b + rest) == multiset(b) + multiset(rest);
  }

  lemma {:induction false} TracksPermuted(a: seq<Ver>, b: seq<Ver>, tx: nat, w: WriteSet)
    requires Permuted(a, b) && Tracks(a, tx, w)
    ensures Tracks(b, tx, w)
  {
    PermutedMembers(a, b);
    forall r ensures Matches(a, r, Flagged(tx)) == Matches(b, r, Flagged(tx)) {
      MatchesPermuted(a, b, r, Flagged(tx));
    }
    StampedMembers(a, b, Flagged(tx));
    StampedMembers(b, a, Flagged(tx));
  }

  lemma StampedMembers(a: seq<Ver>, b: seq<Ver>, s: nat)
    requires forall e :: e in a ==> e in b
    ensures forall r, tomb :: Stamped(a, r, s, tomb) ==> Stamped(b, r, s, tomb)
  {
    forall r, tomb | Stamped(a, r, s, tomb) ensures Stamped(b, r, s, tomb) {
      var e :| e in a && e.row == r && e.ts == s && Tomb(e) == tomb;
      assert e in b;
    }
  }

  lemma PartCoherent(a: seq<Ver>, rest: seq<Ver>)
    requires Coherent(a + rest) && TombsFollow(a)
    ensures Coherent(a)
  {
    forall i, j | 0 <= i < j < |a| && a[i].row == a[j].row ensures Tomb(a[i]) || Tomb(a[j]) {
      assert (a + rest)[i] == a[i] && (a + rest)[j] == a[j];
    }
  }

  lemma {:induction false} PendingPlain(t: Table)
    ensures forall e :: e in Pending(t) ==> !Tomb(e)
  {
    PendingNoTombs(Batches(t), NoPages(|Batches(t)|));
  }

  /** The index of a table, without what is pending. */
  lemma {:induction false} IndexOk(t: Table, ts: nat)
    requires Inv(t, ts)
    ensures Coherent(t.index) && forall e :: e in t.index ==> e in All(t)
  {
    PartCoherent(t.index, Pending(t));
  }

  /** What is visible in the index is visible in the table. */
  lemma {:induction false} IndexSees(t: Table, ts: nat, r: nat, q: nat)
    requires Inv(t, ts) && Visible(t.index, r, q)
    ensures Sees(t, r, q)
  {
    IndexOk(t, ts);
    PendingPlain(t);
    VisibleMeans(t.index, r, q);
    VisibleMeans(All(t), r, q);
    forall d | d in All(t) && Tomb(d) ensures d in t.index {}
  }

  lemma {:induction false} TargetSeen(t: Table, ts: nat, rows: seq<nat>, q: nat, r: nat)
    requires Inv(t, ts) && Targets(t, rows, q) && r in rows
    ensures Sees(t, r, q)
  {
    IndexSees(t, ts, r, q);
  }

  lemma {:induction false} TargetsDeletable(t: Table, ts: nat, rows: seq<nat>, q: nat, stamp: nat)
    requires Inv(t, ts) && Targets(t, rows, q) && stamp > ts
    ensures Deletable(All(t), TombVers(rows, stamp)) && Deletable(t.index, TombVers(rows, stamp))
    ensures forall r :: r in rows ==> r < |t.rows| && !Gone(All(t), r)
  {
    IndexOk(t, ts);
    forall r | r in rows
      ensures exists e :: Follows(Ver(r, stamp, TOMB), e, t.index)
      ensures r < |t.rows| && !Gone(All(t), r)
    {
      LookupMeaning(t.index, r, q);
      var e := Lookup(t.index, r, q).value;
      assert Known(e, |t.rows|, ts, t.ws.Keys);
      assert Follows(Ver(r, stamp, TOMB), e, t.index);
    }
    forall d | d in TombVers(rows, stamp)
      ensures Tomb(d) && (exists e :: Follows(d, e, t.index)) && exists e :: Follows(d, e, All(t))
    {
      assert d.row in rows && d == Ver(d.row, stamp, TOMB);
      var e :| Follows(d, e, t.index);
      assert Follows(d, e, All(t));
    }
  }

  /** The marks go between the index and what is pending, which is the same up to order. */
  lemma {:induction false} AllDelete(t: Table, rows: seq<nat>, stamp: nat)
    ensures Permuted(All(t) + TombVers(rows, stamp), All(Delete(t, rows, stamp)))
  {
    var i, p, d := t.index, Pending(t), TombVers(rows, stamp);
    assert Pending(Delete(t, rows, stamp)) == p;
    assert multiset((i + p) + d) == multiset(i) + multiset(p) + multiset(d);
    assert multiset((i + d) + p) == multiset(i) + multiset(d) + multiset(p);
  }

  lemma {:induction false} TombMatches(rows: seq<nat>, stamp: nat, r: nat)
    ensures Matches(TombVers(rows, stamp), r, stamp) == Count(rows, r)
  {
    if rows != [] {
      var n := |rows| - 1;
      var last := Ver(rows[n], stamp, TOMB);
      TombMatches(rows[..n], stamp, r);
      assert TombVers(rows, stamp) == TombVers(rows[..n], stamp) + [last];
      MatchesConcat(TombVers(rows[..n], stamp), [last], r, stamp);
      assert [last][1..] == [];
    }
  }

  lemma {:induction false} CountConcat(a: seq<nat>, b: seq<nat>, r: nat)
    ensures Count(a + b, r) == Count(a, r) + Count(b, r)
    decreases |b|
  {
    if b == [] {
      assert a + b == a;
    } else {
      var n := |b| - 1;
      assert (a + b)[..|a + b| - 1] == a + b[..n];
      CountConcat(a, b[..n], r);
    }
  }

  lemma {:induction false} TracksDelete(all: seq<Ver>, rows: seq<nat>, tx: nat, w: WriteSet)
    requires Tracks(all, tx, w)
    requires forall r :: r in rows ==> !Gone(all, r)
    ensures Tracks(all + TombVers(rows, Flagged(tx)), tx, WriteSet(w.rows + rows, w.ins, w.del + set r | r in rows))
  {
    var s, tombs := Flagged(tx), TombVers(rows, Flagged(tx));
    var now := all + tombs;
    forall r ensures Matches(now, r, s) <= Count(w.rows + rows, r) {
      MatchesConcat(all, tombs, r, s);
      TombMatches(rows, s, r);
      CountConcat(w.rows, rows, r);
    }
    StampedTombs(all, rows, s);
    forall r | r in w.del + (set r | r in rows) ensures Stamped(now, r, s, true) || Gone(now, r) {
      if r in w.del && r !in rows { assert Stamped(all, r, s, true) || Gone(all, r); }
    }
  }

  lemma StampedTombs(all: seq<Ver>, rows: seq<nat>, s: nat)
    ensures var now := all + TombVers(rows, s);
            && (forall r :: Stamped(now, r, s, true) <==> Stamped(all, r, s, true) || r in rows)
            && (forall r :: Stamped(now, r, s, false) <==> Stamped(all, r, s, false))
  {
    var tombs := TombVers(rows, s);
    forall r, tomb | Stamped(all, r, s, tomb) ensures Stamped(all + tombs, r, s, tomb) {
      var e :| e in all && e.row == r && e.ts == s && Tomb(e) == tomb;
      assert e in all + tombs;
    }
    forall r | r in rows ensures Stamped(all + tombs, r, s, true) {
      var i :| 0 <= i < |rows| && rows[i] == r;
      assert tombs[i] in all + tombs;
    }
  }

  lemma {:induction false} TracksOtherTombs(all: seq<Ver>, tombs: seq<Ver>, tx: nat, w: WriteSet)
    requires Tracks(all, tx, w)
    requires forall d :: d in tombs ==> d.ts != Flagged(tx) && !Gone(all, d.row)
    ensures Tracks(all + tombs, tx, w)
  {
    var s := Flagged(tx);
    forall r ensures Matches(all + tombs, r, s) == Matches(all, r, s) {
      MatchesConcat(all, tombs, r, s);
      MatchesZero(tombs, r, s);
    }
    StampedOther(all, tombs, s);
    forall r | r in w.del ensures Stamped(all + tombs, r, s, true) || Gone(all + tombs, r) {
      assert Stamped(all, r, s, true) || Gone(all, r);
    }
  }

  /** What a deletion, by a transaction or on its own, keeps of the invariant. */
  lemma {:induction false} DeleteKeeps(t: Table, ts: nat, rows: seq<nat>, q: nat, stamp: nat)
    requires Inv(t, ts) && Targets(t, rows, q) && stamp > ts
    ensures var u := Delete(t, rows, stamp);
            && Permuted(All(t) + TombVers(rows, stamp), All(u))
            && Coherent(All(u)) && TombsFollow(u.index) && BatchesOk(u)
            && (forall r :: r in rows ==> r < |t.rows| && !Gone(All(t), r))
            && (forall tx :: tx in t.ws && Flagged(tx) != stamp ==> Tracks(All(u), tx, t.ws[tx]))
  {
    var u, tombs := Delete(t, rows, stamp), TombVers(rows, stamp);
    AllDelete(t, rows, stamp);
    TargetsDeletable(t, ts, rows, q, stamp);
    AppendTombs(All(t), tombs);
    CoherentPermuted(All(t) + tombs, All(u));
    IndexOk(t, ts);
    AppendTombs(t.index, tombs);
    forall tx | tx in t.ws && Flagged(tx) != stamp ensures Tracks(All(u), tx, t.ws[tx]) {
      forall d | d in tombs ensures d.ts != Flagged(tx) && !Gone(All(t), d.row) { assert d.row in rows; }
      TracksOtherTombs(All(t), tombs, tx, t.ws[tx]);
      TracksPermuted(All(t) + tombs, All(u), tx, t.ws[tx]);
    }
  }

  lemma {:induction false} DeleteKnown(t: Table, ts: nat, rows: seq<nat>, q: nat, stamp: nat, ts': nat, txs: set<nat>)
    requires Inv(t, ts) && Targets(t, rows, q) && stamp > ts && ts <= ts' && t.ws.Keys <= txs
    requires stamp <= ts' || (stamp >= FLAG && stamp - FLAG in txs)
    ensures forall e :: e in All(Delete(t, rows, stamp)) ==> Known(e, |t.rows|, ts', txs)
  {
    var tombs := TombVers(rows, stamp);
    DeleteKeeps(t, ts, rows, q, stamp);
    PermutedMembers(All(t) + tombs, All(Delete(t, rows, stamp)));
    forall e | e in All(Delete(t, rows, stamp)) ensures Known(e, |t.rows|, ts', txs) {
      if e in All(t) { assert Known(e, |t.rows|, ts, t.ws.Keys); } else { assert e in tombs && e.row in rows; }
    }
  }

  lemma {:induction false} DeleteAutoInv(t: Table, ts: nat, rows: seq<nat>, q: nat)
    requires Inv(t, ts) && Targets(t, rows, q) && ts + 1 < FLAG
    ensures Inv(Delete(t, rows, ts + 1), ts + 1)
  {
    DeleteKeeps(t, ts, rows, q, ts + 1);
    DeleteKnown(t, ts, rows, q, ts + 1, ts + 1, t.ws.Keys);
  }

  lemma {:induction false} DeleteTxKnown(t: Table, ts: nat, tx: nat, rows: seq<nat>, q: nat)
    requires Inv(t, ts) && Targets(t, rows, q) && tx < FLAG - 1
    ensures var u := DeleteTx(t, tx, rows);
            forall e :: e in All(u) ==> Known(e, |u.rows|, ts, u.ws.Keys)
  {
    DeleteKnown(t, ts, rows, q, Flagged(tx), ts, DeleteTx(t, tx, rows).ws.Keys);
    assert All(DeleteTx(t, tx, rows)) == All(Delete(t, rows, Flagged(tx)));
  }

  lemma {:induction false} DeleteOwnTracks(t: Table, ts: nat, tx: nat, rows: seq<nat>, q: nat)
    requires Inv(t, ts) && Targets(t, rows, q) && tx < FLAG - 1
    ensures var u := DeleteTx(t, tx, rows);
            Tracks(All(u), tx, u.ws[tx])
  {
    var u := DeleteTx(t, tx, rows);
    DeleteKeeps(t, ts, rows, q, Flagged(tx));
    assert All(u) == All(Delete(t, rows, Flagged(tx)));
    if tx !in t.ws { TracksNothing(t, ts, tx); }
    TracksDelete(All(t), rows, tx, SetOf(t, tx));
    TracksPermuted(All(t) + TombVers(rows, Flagged(tx)), All(u), tx, u.ws[tx]);
  }

  lemma {:induction false} DeleteTxTracks(t: Table, ts: nat, tx: nat, rows: seq<nat>, q: nat)
    requires Inv(t, ts) && Targets(t, rows, q) && tx < FLAG - 1
    ensures var u := DeleteTx(t, tx, rows);
            forall x :: x in u.ws ==> Tracks(All(u), x, u.ws[x])
  {
    var u := DeleteTx(t, tx, rows);
    DeleteKeeps(t, ts, rows, q, Flagged(tx));
    assert All(u) == All(Delete(t, rows, Flagged(tx)));
    DeleteOwnTracks(t, ts, tx, rows, q);
    forall x | x in u.ws && x != tx ensures Tracks(All(u), x, u.ws[x]) { assert x in t.ws && Flagged(x) != Flagged(tx); }
  }

  lemma {:induction false} DeleteTxInv(t: Table, ts: nat, tx: nat, rows: seq<nat>, q: nat)
    requires Inv(t, ts) && Targets(t, rows, q) && tx < FLAG - 1
    ensures Inv(DeleteTx(t, tx, rows), ts)
  {
    var u := DeleteTx(t, tx, rows);
    DeleteKeeps(t, ts, rows, q, Flagged(tx));
    assert All(u) == All(Delete(t, rows, Flagged(tx)));
    DeleteTxKnown(t, ts, tx, rows, q);
    DeleteTxTracks(t, ts, tx, rows, q);
  }

  /** A deletion hides its rows from its stamp on; under a flagged stamp, from no snapshot. */
  lemma {:induction false} DeleteSees(t: Table, ts: nat, rows: seq<nat>, q0: nat, stamp: nat, r: nat, q: nat)
    requires Inv(t, ts) && Targets(t, rows, q0) && stamp > ts
    ensures Sees(Delete(t, rows, stamp), r, q) <==>
            Sees(t, r, q) && !(r in rows && stamp < FLAG && stamp <= q)
  {
    var tombs := TombVers(rows, stamp);
    AllDelete(t, rows, stamp);
    TargetsDeletable(t, ts, rows, q0, stamp);
    AppendTombs(All(t), tombs);
    VisiblePermuted(All(t) + tombs, All(Delete(t, rows, stamp)), r, q);
    AppendTombsVisible(All(t), tombs, r, q);
    if r in rows && stamp < FLAG && stamp <= q {
      var i :| 0 <= i < |rows| && rows[i] == r;
      assert tombs[i] in tombs && Candidate(tombs[i], r, q);
    }
  }
}
