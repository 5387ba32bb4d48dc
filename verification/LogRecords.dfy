/**
 What the log records hold: the payloads that operations write, and what replay reads back from them.
 With the framing and the segments, the log of a run as bytes on disk, and recovery from those bytes.
 */
module LogRecords {
  import opened Options
  import opened Sequences
  import opened LittleEndian
  import opened ColumnBytes
  import opened Tables
  import opened Mvcc
  import W = WalFormat
  import L = WalWriter
  import opened Replay
  import opened Reopened
  import Recovery
  import Checkpoint

  /** The columns of a table: how their values look, and the type byte of each. */
  datatype Schema = Schema(kinds: seq<Kind>, types: seq<byte>)

  const BEGIN: byte := 1
  const COMMIT: byte := 2
  const ROLLBACK: byte := 3
  const INSERT: byte := 4
  const DELETE: byte := 5

  // ── Payloads ──

  /** One column after the other: type, size, data. */
  function PutColumns(types: seq<byte>, datas: seq<seq<byte>>): seq<byte>
    requires |types| == |datas|
  {
    if datas == [] then [] else [types[0]] + (Le(|datas[0]|, 4) + (datas[0] + PutColumns(types[1..], datas[1..])))
  }

  function PutIds(ids: seq<nat>): seq<byte> { if ids == [] then [] else Le(ids[0], 8) + PutIds(ids[1..]) }

  /** The data that an insertion hands over for a cell: strings come with their length in front. */
  function DataOf(k: Kind, cell: Cell): seq<byte> { if k.Fixed? then cell else Le(|cell|, 4) + cell }

  function RowData(s: Schema, row: Row): seq<seq<byte>>
    requires |s.kinds| == |row|
  {
    seq(|row|, i requires 0 <= i < |row| == |s.kinds| => DataOf(s.kinds[i], row[i]))
  }

  ghost predicate RowFits(s: Schema, row: Row) {
    && |s.kinds| == |s.types| == |row| < U32
    && forall i :: 0 <= i < |row| ==> |row[i]| + 4 < U32
  }

  /** What a record can name. */
  ghost predicate RecOk(r: Rec, schemas: seq<Schema>) {
    && |schemas| <= U32 && r.tx < U64
    && match r
       case InsertRec(_, t, row) => t < |schemas| && RowFits(schemas[t], row)
       case DeleteRec(_, t, rows) => t < |schemas| && |rows| < U32 && forall i :: 0 <= i < |rows| ==> rows[i] < U64
       case CommitRec(_, ts) => ts < U64
       case _ => true
  }

  function KindOf(r: Rec): byte {
    match r
    case BeginRec(_) => BEGIN
    case CommitRec(_, _) => COMMIT
    case RollbackRec(_) => ROLLBACK
    case InsertRec(_, _, _) => INSERT
    case DeleteRec(_, _, _) => DELETE
  }

  function Payload(r: Rec, schemas: seq<Schema>): seq<byte>
    requires r.InsertRec? ==> r.table < |schemas| && |schemas[r.table].kinds| == |schemas[r.table].types| == |r.row|
  {
    match r
    case InsertRec(_, t, row) => Le(t, 4) + (Le(|row|, 4) + PutColumns(schemas[t].types, RowData(schemas[t], row)))
    case DeleteRec(_, t, rows) => Le(t, 4) + (Le(|rows|, 4) + PutIds(rows))
    case CommitRec(_, ts) => Le(ts, 8)
    case _ => []
  }

  // ── Reading them ──

  /** The next n columns; None where the bytes end before. */
  function TakeColumns(s: seq<byte>, n: nat): Option<seq<seq<byte>>> {
    if n == 0 then Some([])
    else if |s| < 5 || |s| < 5 + Field(s, 1, 4) then None
    else
      var size := Field(s, 1, 4);
      var more := TakeColumns(s[5 + size..], n - 1);
      if more.None? then None else Some([s[5..5 + size]] + more.value)
  }

  function TakeIds(s: seq<byte>, n: nat): Option<seq<nat>> {
    if n == 0 then Some([])
    else if |s| < 8 then None
    else
      var more := TakeIds(s[8..], n - 1);
      if more.None? then None else Some([Field(s, 0, 8)] + more.value)
  }

  /** The cells of the columns read, if they are the table's. */
  function CellsOf(s: Schema, datas: seq<seq<byte>>): Option<Row> {
    if |datas| == |s.kinds| && forall i :: 0 <= i < |datas| && s.kinds[i].VarChar? ==> |datas[i]| >= 4
    then Some(seq(|datas|, i requires 0 <= i < |datas| == |s.kinds| && (s.kinds[i].VarChar? ==> |datas[i]| >= 4) =>
      if s.kinds[i].Fixed? then datas[i] else datas[i][4..]))
    else None
  }

  function ReadRec(r: W.Record, schemas: seq<Schema>): Option<Rec> {
    var p := r.payload;
    if r.kind == BEGIN then Some(BeginRec(r.tx))
    else if r.kind == ROLLBACK then Some(RollbackRec(r.tx))
    else if r.kind == COMMIT then if |p| >= 8 then Some(CommitRec(r.tx, Field(p, 0, 8))) else None
    else if |p| < 8 then None
    else
      var t, n := Field(p, 0, 4), Field(p, 4, 4);
      if r.kind == DELETE then
        var ids := TakeIds(p[8..], n);
        if ids.Some? then Some(DeleteRec(r.tx, t, ids.value)) else None
      else if r.kind == INSERT && t < |schemas| then
        var datas := TakeColumns(p[8..], n);
        var row := if datas.Some? then CellsOf(schemas[t], datas.value) else None;
        if row.Some? then Some(InsertRec(r.tx, t, row.value)) else None
      else None
  }

  // ── The loops ──

  /** append_insert: the payload, put together column by column. */
  method WriteInsert(t: nat, types: seq<byte>, datas: seq<seq<byte>>) returns (payload: seq<byte>)
    requires |types| == |datas|
    ensures payload == Le(t, 4) + (Le(|datas|, 4) + PutColumns(types, datas))
  {
    payload := Le(t, 4);
    payload := payload + Le(|datas|, 4);
    for i := 0 to |datas|
      invariant payload + PutColumns(types[i..], datas[i..]) == Le(t, 4) + (Le(|datas|, 4) + PutColumns(types, datas))
    {
      assert types[i..][1..] == types[i + 1..] && datas[i..][1..] == datas[i + 1..];
      Four(payload, [types[i]], Le(|datas[i]|, 4), datas[i], PutColumns(types[i + 1..], datas[i + 1..]));
      payload := payload + [types[i]];
      payload := payload + Le(|datas[i]|, 4);
      payload := payload + datas[i];
    }
    assert PutColumns(types[|datas|..], datas[|datas|..]) == [];
  }

  lemma Four(a: seq<byte>, b: seq<byte>, c: seq<byte>, d: seq<byte>, e: seq<byte>)
    ensures a + (b + (c + (d + e))) == a + b + c + d + e
  {
    ConcatAssoc(a, b, c + (d + e));
    ConcatAssoc(a + b, c, d + e);
    ConcatAssoc(a + b + c, d, e);
  }

  /** The columns read so far, and what is still to be read. */
  function Onward(got: seq<seq<byte>>, more: Option<seq<seq<byte>>>): Option<seq<seq<byte>>> {
    if more.None? then None else Some(got + more.value)
  }

  /** Replay of an insert record: a cursor through the payload. */
  method ReadColumns(s: seq<byte>, from: nat, n: nat) returns (r: Option<seq<seq<byte>>>)
    requires from <= |s|
    ensures r == TakeColumns(s[from..], n)
  {
    var pos: nat, got: seq<seq<byte>> := from, [];
    OnwardNone(TakeColumns(s[from..], n));
    for i := 0 to n
      invariant pos <= |s|
      invariant TakeColumns(s[from..], n) == Onward(got, TakeColumns(s[pos..], n - i))
    {
      ghost var rest := s[pos..];
      if |s| < pos + 5 { return None; }
      var size := Field(s, pos + 1, 4);
      assert rest[1..5] == s[pos + 1..pos + 5];
      if |s| < pos + 5 + size { return None; }
      assert rest[5..5 + size] == s[pos + 5..pos + 5 + size] && rest[5 + size..] == s[pos + 5 + size..];
      ghost var more := TakeColumns(s[pos + 5 + size..], n - i - 1);
      if more.Some? { ConcatAssoc(got, [s[pos + 5..pos + 5 + size]], more.value); }
      got := got + [s[pos + 5..pos + 5 + size]];
      pos := pos + 5 + size;
    }
    assert got + [] == got;
    return Some(got);
  }

  lemma OnwardNone(more: Option<seq<seq<byte>>>)
    ensures Onward([], more) == more
  {
    if more.Some? { assert [] + more.value == more.value; }
  }

  // ── What is written is read back ──

  lemma {:induction false} FieldFront(n: nat, w: nat, rest: seq<byte>)
    requires n < Pow256(w)
    ensures w <= |Le(n, w) + rest| && Field(Le(n, w) + rest, 0, w) == n && (Le(n, w) + rest)[w..] == rest
  {
    LeRoundTrip(n, w);
    assert (Le(n, w) + rest)[0..w] == Le(n, w);
  }

  lemma {:induction false} TakePut(types: seq<byte>, datas: seq<seq<byte>>)
    requires |types| == |datas| && forall i :: 0 <= i < |datas| ==> |datas[i]| < U32
    ensures TakeColumns(PutColumns(types, datas), |datas|) == Some(datas)
  {
    if datas != [] {
      var d, rest := datas[0], PutColumns(types[1..], datas[1..]);
      var s := PutColumns(types, datas);
      Widths();
      FieldFront(|d|, 4, d + rest);
      assert s[1..] == Le(|d|, 4) + (d + rest);
      assert s[1..5] == s[1..][0..4];
      assert Field(s, 1, 4) == |d|;
      assert s[5..] == d + rest;
      assert s[5..5 + |d|] == s[5..][..|d|] && s[5 + |d|..] == s[5..][|d|..];
      TakePut(types[1..], datas[1..]);
      assert datas == [d] + datas[1..];
    }
  }

  lemma {:induction false} TakePutIds(ids: seq<nat>)
    requires forall i :: 0 <= i < |ids| ==> ids[i] < U64
    ensures TakeIds(PutIds(ids), |ids|) == Some(ids)
  {
    if ids != [] {
      Widths();
      FieldFront(ids[0], 8, PutIds(ids[1..]));
      TakePutIds(ids[1..]);
      assert ids == [ids[0]] + ids[1..];
    }
  }

  lemma {:induction false} CellsBack(s: Schema, row: Row)
    requires |s.kinds| == |row|
    ensures CellsOf(s, RowData(s, row)) == Some(row)
  {
    var datas := RowData(s, row);
    forall i | 0 <= i < |row| && s.kinds[i].VarChar? ensures |datas[i]| >= 4 && datas[i][4..] == row[i] {
      assert datas[i] == Le(|row[i]|, 4) + row[i];
    }
    assert CellsOf(s, datas).value == row;
  }

  /** The record of an operation, written at this LSN and time. */
  function RecordOf(r: Rec, schemas: seq<Schema>, lsn: nat, time: nat): W.Record
    requires r.InsertRec? ==> r.table < |schemas| && |schemas[r.table].kinds| == |schemas[r.table].types| == |r.row|
  {
    W.Record(lsn, r.tx, KindOf(r), Payload(r, schemas), time)
  }

  /** Two numbers in front of a list. */
  lemma {:induction false} TwoFront(a: nat, b: nat, rest: seq<byte>)
    requires a < U32 && b < U32
    ensures var p := Le(a, 4) + (Le(b, 4) + rest);
            |p| >= 8 && Field(p, 0, 4) == a && Field(p, 4, 4) == b && p[8..] == rest
  {
    var p := Le(a, 4) + (Le(b, 4) + rest);
    Widths();
    FieldFront(a, 4, Le(b, 4) + rest);
    FieldFront(b, 4, rest);
    assert p[4..8] == p[4..][0..4] && p[8..] == p[4..][4..];
  }

  lemma {:induction false} InsertBack(t: nat, row: Row, schemas: seq<Schema>, r: W.Record)
    requires t < |schemas| <= U32 && RowFits(schemas[t], row) && r.kind == INSERT
    requires r.payload == Le(t, 4) + (Le(|row|, 4) + PutColumns(schemas[t].types, RowData(schemas[t], row)))
    ensures ReadRec(r, schemas) == Some(InsertRec(r.tx, t, row))
  {
    var datas := RowData(schemas[t], row);
    TwoFront(t, |row|, PutColumns(schemas[t].types, datas));
    DataFits(schemas[t], row);
    TakePut(schemas[t].types, datas);
    CellsBack(schemas[t], row);
  }

  lemma {:induction false} DataFits(s: Schema, row: Row)
    requires RowFits(s, row)
    ensures forall i :: 0 <= i < |row| ==> |RowData(s, row)[i]| < U32
  {
    forall i | 0 <= i < |row| ensures |RowData(s, row)[i]| < U32 { Widths(); LeRoundTrip(|row[i]|, 4); }
  }

  lemma {:induction false} DeleteBack(t: nat, rows: seq<nat>, schemas: seq<Schema>, r: W.Record)
    requires t < U32 && |rows| < U32 && r.kind == DELETE && forall i :: 0 <= i < |rows| ==> rows[i] < U64
    requires r.payload == Le(t, 4) + (Le(|rows|, 4) + PutIds(rows))
    ensures ReadRec(r, schemas) == Some(DeleteRec(r.tx, t, rows))
  {
    TwoFront(t, |rows|, PutIds(rows));
    TakePutIds(rows);
  }

  lemma {:induction false} CommitBack(ts: nat, schemas: seq<Schema>, r: W.Record)
    requires ts < U64 && r.kind == COMMIT && r.payload == Le(ts, 8)
    ensures ReadRec(r, schemas) == Some(CommitRec(r.tx, ts))
  {
    Widths();
    FieldFront(ts, 8, []);
    assert Le(ts, 8) + [] == Le(ts, 8);
  }

  /** Every record reads back as the operation that wrote it. */
  lemma {:induction false} ReadBackRec(r: Rec, schemas: seq<Schema>, lsn: nat, time: nat)
    requires RecOk(r, schemas)
    ensures ReadRec(RecordOf(r, schemas, lsn, time), schemas) == Some(r)
  {
    var rec := RecordOf(r, schemas, lsn, time);
    match r
    case InsertRec(_, t, row) => InsertBack(t, row, schemas, rec);
    case DeleteRec(_, t, rows) => DeleteBack(t, rows, schemas, rec);
    case CommitRec(_, ts) => CommitBack(ts, schemas, rec);
    case _ =>
  }

  // ── The log of a run on disk ──

  /** What replay makes of the records that the reader returns; one that does not read is passed over. */
  function EntriesOf(recs: seq<W.Record>, schemas: seq<Schema>): seq<Entry> {
    if recs == [] then []
    else
      var n := |recs| - 1;
      var r := ReadRec(recs[n], schemas);
      EntriesOf(recs[..n], schemas) + if r.Some? then [Entry(recs[n].lsn, recs[n].time, r.value)] else []
  }

  ghost predicate LogFits(log: seq<Rec>, schemas: seq<Schema>) { forall i :: 0 <= i < |log| ==> RecOk(log[i], schemas) }

  /** These records are those of the log from position at on. */
  ghost predicate Hold(recs: seq<W.Record>, log: seq<Rec>, times: seq<nat>, schemas: seq<Schema>, at: nat) {
    && LogFits(log, schemas) && |times| == |log| && at + |recs| <= |log|
    && forall i :: 0 <= i < |recs| ==> recs[i] == RecordOf(log[at + i], schemas, at + i + 1, times[at + i])
  }

  lemma HoldFront(recs: seq<W.Record>, log: seq<Rec>, times: seq<nat>, schemas: seq<Schema>, at: nat)
    requires Hold(recs, log, times, schemas, at) && recs != []
    ensures Hold(recs[..|recs| - 1], log, times, schemas, at)
  {
  }

  lemma EntryRead(rec: W.Record, r: Rec, schemas: seq<Schema>, lsn: nat, time: nat)
    requires RecOk(r, schemas) && rec == RecordOf(r, schemas, lsn, time)
    ensures ReadRec(rec, schemas) == Some(r) && rec.lsn == lsn && rec.time == time
  {
    ReadBackRec(r, schemas, lsn, time);
  }

  lemma TakeOneMore<T>(s: seq<T>, at: nat, n: nat)
    requires at + n < |s|
    ensures s[at..at + n + 1] == s[at..at + n] + [s[at + n]]
  {
  }

  lemma {:induction false} EntriesRead(recs: seq<W.Record>, log: seq<Rec>, times: seq<nat>, schemas: seq<Schema>, at: nat)
    requires Hold(recs, log, times, schemas, at)
    ensures EntriesOf(recs, schemas) == Recovery.Entries(log, times)[at..at + |recs|]
  {
    if recs != [] {
      var n := |recs| - 1;
      HoldFront(recs, log, times, schemas, at);
      EntriesRead(recs[..n], log, times, schemas, at);
      EntryRead(recs[n], log[at + n], schemas, at + n + 1, times[at + n]);
      TakeOneMore(Recovery.Entries(log, times), at, n);
    }
  }

  /** The segments on disk hold the log from the first one's start on, each record whole. */
  ghost predicate DiskHolds(segs: seq<L.Segment>, parts: seq<W.Written>, sum: Sum, log: seq<Rec>, times: seq<nat>, schemas: seq<Schema>) {
    && |segs| == |parts| > 0 && segs[0].start > 0
    && (forall i {:trigger L.SegmentOk(segs[i], parts[i], sum)} :: 0 <= i < |segs| ==> L.SegmentOk(segs[i], parts[i], sum))
    && Hold(W.Records(L.Join(parts)), log, times, schemas, segs[0].start - 1)
  }

  /** What is left of the segments when the last one is cut at byte k. */
  function Cut(segs: seq<L.Segment>, k: nat): seq<seq<byte>>
    requires segs != [] && k <= |segs[|segs| - 1].bytes|
  {
    L.Contents(segs[..|segs| - 1]) + [segs[|segs| - 1].bytes[..k]]
  }

  /** Reading them gives the log from the first LSN on disk up to the cut. */
  lemma {:induction false} DiskRead(segs: seq<L.Segment>, parts: seq<W.Written>, sum: Sum, log: seq<Rec>, times: seq<nat>, schemas: seq<Schema>,
                                    k: nat) returns (m: nat)
    requires DiskHolds(segs, parts, sum, log, times, schemas) && k <= |segs[|segs| - 1].bytes|
    ensures segs[0].start - 1 <= m <= |log|
    ensures k == |segs[|segs| - 1].bytes| ==> m == segs[0].start - 1 + |L.Join(parts)|
    ensures EntriesOf(W.ReadAll(Cut(segs, k), sum), schemas) == Recovery.Entries(log, times)[segs[0].start - 1..m]
  {
    var n, at := |segs| - 1, segs[0].start - 1;
    L.ReadTornTail(segs, parts, sum, k);
    var whole := W.Whole(parts[n], k, sum);
    var got := W.Records(L.Join(parts[..n]) + parts[n][..whole]);
    L.JoinLast(parts);
    assert L.Join(parts) == L.Join(parts[..n]) + parts[n];
    m := at + |got|;
    if k == |segs[n].bytes| { AllWhole(parts[n], sum); }
    assert Hold(got, log, times, schemas, at) by {
      forall i | 0 <= i < |got| ensures got[i] == W.Records(L.Join(parts))[i] {}
    }
    EntriesRead(got, log, times, schemas, at);
  }

  lemma {:induction false} AllWhole(w: W.Written, sum: Sum)
    requires W.Writable(w, sum)
    ensures W.Whole(w, |W.Bytes(w, sum)|, sum) == |w|
  {
    if w != [] { AllWhole(w[1..], sum); }
  }

  /**
   Recovery from the bytes on disk.  Whatever the run did, wherever the last segment is cut, and whatever old
   segments checkpoints have removed, as long as these held no record behind the checkpoint LSN: recovery is
   that of the log of the run up to the cut.
   */
  lemma {:induction false} DiskRecovers(segs: seq<L.Segment>, parts: seq<W.Written>, sum: Sum, log: seq<Rec>, times: seq<nat>, schemas: seq<Schema>,
                                        k: nat, ckpt: nat, target: Option<nat>, tables: nat) returns (m: nat)
    requires DiskHolds(segs, parts, sum, log, times, schemas) && k <= |segs[|segs| - 1].bytes|
    requires segs[0].start - 1 <= ckpt
    ensures m <= |log| && (k == |segs[|segs| - 1].bytes| ==> m == segs[0].start - 1 + |L.Join(parts)|)
    ensures Recover(EntriesOf(W.ReadAll(Cut(segs, k), sum), schemas), ckpt, target, tables) ==
            Recover(Recovery.Entries(log, times)[..m], ckpt, target, tables)
  {
    m := DiskRead(segs, parts, sum, log, times, schemas, k);
    var es, at := Recovery.Entries(log, times), segs[0].start - 1;
    assert es[..m] == es[..at] + es[at..m];
    forall e | e in es[..at] ensures e.lsn <= ckpt { var i :| 0 <= i < at && es[i] == e; }
    DroppedHead(es[..at], es[at..m], ckpt, target, tables);
  }

  // ── As coded ──

  /** The segments as the second pass of replay sees them. */
  function SegsOf(files: seq<seq<byte>>, sum: Sum, schemas: seq<Schema>): seq<Seg<Entry>> {
    if files == [] then []
    else
      var s := W.ReadSegment(files[0], sum);
      [Seg(EntriesOf(s.recs, schemas), !s.clean)] + SegsOf(files[1..], sum, schemas)
  }

  lemma {:induction false} EntriesConcat(a: seq<W.Record>, b: seq<W.Record>, schemas: seq<Schema>)
    ensures EntriesOf(a + b, schemas) == EntriesOf(a, schemas) + EntriesOf(b, schemas)
    decreases |b|
  {
    if b == [] {
      assert a + b == a;
    } else {
      var n := |b| - 1;
      assert (a + b)[..|a + b| - 1] == a + b[..n];
      EntriesConcat(a, b[..n], schemas);
      var r := ReadRec(b[n], schemas);
      ConcatAssoc(EntriesOf(a, schemas), EntriesOf(b[..n], schemas), if r.Some? then [Entry(b[n].lsn, b[n].time, r.value)] else []);
    }
  }

  lemma {:induction false} SegsRead(files: seq<seq<byte>>, sum: Sum, schemas: seq<Schema>)
    ensures Read(SegsOf(files, sum, schemas)) == EntriesOf(W.ReadAll(files, sum), schemas)
  {
    if files != [] {
      var s := W.ReadSegment(files[0], sum);
      SegsRead(files[1..], sum, schemas);
      assert SegsOf(files, sum, schemas)[1..] == SegsOf(files[1..], sum, schemas);
      if s.clean { EntriesConcat(s.recs, W.ReadAll(files[1..], sum), schemas); }
    }
  }

  /** As coded, recovery from the bytes on disk applies just the insertions that recovery of the log up to the cut does. */
  lemma {:induction false} DiskAsCoded(segs: seq<L.Segment>, parts: seq<W.Written>, sum: Sum, log: seq<Rec>, times: seq<nat>, schemas: seq<Schema>,
                                       k: nat, ckpt: nat, target: Option<nat>, tables: nat) returns (m: nat)
    requires DiskHolds(segs, parts, sum, log, times, schemas) && k <= |segs[|segs| - 1].bytes|
    requires segs[0].start - 1 <= ckpt
    ensures m <= |log| && (k == |segs[|segs| - 1].bytes| ==> m == segs[0].start - 1 + |L.Join(parts)|)
    ensures forall r :: r in RecoverAsCoded(SegsOf(Cut(segs, k), sum, schemas), ckpt, target, tables) <==>
                        r in Recover(Recovery.Entries(log, times)[..m], ckpt, target, tables)
  {
    m := DiskRecovers(segs, parts, sum, log, times, schemas, k, ckpt, target, tables);
    SegsRead(Cut(segs, k), sum, schemas);
    AppliedTwice(SegsOf(Cut(segs, k), sum, schemas), ckpt, target, tables);
  }

  // ── Writing it ──

  /** An operation's record is appended to the log on disk, which then holds the log with it. */
  method Append(w: L.WalWriter, r: Rec, schemas: seq<Schema>, time: nat, pad: seq<byte>, check: nat, ghost log: seq<Rec>, ghost times: seq<nat>)
    returns (lsn: nat)
    requires w.Valid() && DiskHolds(w.segments, w.parts, w.sum, log, times, schemas) && w.nextLsn == |log| + 1
    requires RecOk(r, schemas) && |Payload(r, schemas)| < U32 && w.nextLsn < U64 && time < U64
    requires W.Padding(pad) && check == w.sum(Payload(r, schemas))
    modifies w
    ensures w.Valid() && lsn == |log| + 1 && w.nextLsn == |log| + 2
    ensures DiskHolds(w.segments, w.parts, w.sum, log + [r], times + [time], schemas)
  {
    ghost var segs, parts, next := w.segments, w.parts, w.nextLsn;
    var payload := Payload(r, schemas);
    lsn := w.AppendRecord(r.tx, KindOf(r), payload, time, pad, check);
    AppendHolds(segs, parts, next, w.segments, w.parts, w.sum, log, times, schemas, r, time, pad);
  }

  lemma {:induction false} AppendHolds(segs: seq<L.Segment>, parts: seq<W.Written>, next: nat, segs': seq<L.Segment>, parts': seq<W.Written>, sum: Sum,
                                       log: seq<Rec>, times: seq<nat>, schemas: seq<Schema>, r: Rec, time: nat, pad: seq<byte>)
    requires L.OnDisk(segs, parts, next, sum) && L.OnDisk(segs', parts', next + 1, sum)
    requires DiskHolds(segs, parts, sum, log, times, schemas) && next == |log| + 1 && RecOk(r, schemas)
    requires L.Join(parts') == L.Join(parts) + [(RecordOf(r, schemas, next, time), pad)]
    ensures DiskHolds(segs', parts', sum, log + [r], times + [time], schemas)
  {
    L.ConsecutiveLsns(segs, parts, next, sum);
    L.ConsecutiveLsns(segs', parts', next + 1, sum);
    var was, one := L.Join(parts), [(RecordOf(r, schemas, next, time), pad)];
    L.RecordsConcat(was, one);
    assert W.Records(one) == [RecordOf(r, schemas, next, time)];
    HoldMore(W.Records(was), log, times, schemas, segs[0].start - 1, r, time);
  }

  lemma {:induction false} HoldMore(recs: seq<W.Record>, log: seq<Rec>, times: seq<nat>, schemas: seq<Schema>, at: nat, r: Rec, time: nat)
    requires Hold(recs, log, times, schemas, at) && at + |recs| == |log| && RecOk(r, schemas)
    ensures Hold(recs + [RecordOf(r, schemas, |log| + 1, time)], log + [r], times + [time], schemas, at)
  {
  }

  /** Removing old segments leaves the log on disk from a later LSN on, but from no later one than asked for. */
  method Truncate(w: L.WalWriter, safe: nat, schemas: seq<Schema>, ghost log: seq<Rec>, ghost times: seq<nat>)
    requires w.Valid() && DiskHolds(w.segments, w.parts, w.sum, log, times, schemas) && w.nextLsn == |log| + 1
    modifies w
    ensures w.Valid() && w.nextLsn == |log| + 1 && DiskHolds(w.segments, w.parts, w.sum, log, times, schemas)
    ensures old(w.segments)[0].start <= w.segments[0].start
    ensures w.segments[0].start == old(w.segments)[0].start || w.segments[0].start <= safe
  {
    ghost var segs, parts := w.segments, w.parts;
    Checkpoint.RemovedStarts(L.Shape(segs, parts), safe);
    w.RemoveSegmentsBefore(safe);
    assert L.Shape(w.segments, w.parts)[0] == L.Shape(segs, parts)[Checkpoint.Removed(L.Shape(segs, parts), safe)];
    TruncateHolds(segs, parts, w.nextLsn, w.segments, w.parts, w.sum, log, times, schemas);
  }

  lemma HoldTail(was: seq<W.Record>, now: seq<W.Record>, log: seq<Rec>, times: seq<nat>, schemas: seq<Schema>, at: nat, h: nat)
    requires Hold(was, log, times, schemas, at) && |was| == h + |now|
    requires forall i :: 0 <= i < |now| ==> now[i] == was[h + i]
    ensures Hold(now, log, times, schemas, at + h)
  {
    forall i | 0 <= i < |now| ensures now[i] == RecordOf(log[at + h + i], schemas, at + h + i + 1, times[at + h + i]) {
      assert now[i] == was[h + i];
    }
  }

  lemma TailRecords(whole: W.Written, head: W.Written, tail: W.Written)
    requires whole == head + tail
    ensures |W.Records(whole)| == |head| + |W.Records(tail)|
    ensures forall i :: 0 <= i < |W.Records(tail)| ==> W.Records(tail)[i] == W.Records(whole)[|head| + i]
  {
  }

  lemma {:induction false} TailStart(segs: seq<L.Segment>, parts: seq<W.Written>, next: nat, segs': seq<L.Segment>, parts': seq<W.Written>, sum: Sum,
                                     head: W.Written)
    requires L.OnDisk(segs, parts, next, sum) && L.OnDisk(segs', parts', next, sum)
    requires L.Join(parts) == head + L.Join(parts')
    ensures segs'[0].start == segs[0].start + |head|
  {
    L.ConsecutiveLsns(segs, parts, next, sum);
    L.ConsecutiveLsns(segs', parts', next, sum);
  }

  lemma {:induction false} TruncateHolds(segs: seq<L.Segment>, parts: seq<W.Written>, next: nat, segs': seq<L.Segment>, parts': seq<W.Written>, sum: Sum,
                                         log: seq<Rec>, times: seq<nat>, schemas: seq<Schema>)
    requires L.OnDisk(segs, parts, next, sum) && L.OnDisk(segs', parts', next, sum)
    requires DiskHolds(segs, parts, sum, log, times, schemas) && L.Suffix(L.Join(parts'), L.Join(parts))
    ensures segs[0].start <= segs'[0].start && DiskHolds(segs', parts', sum, log, times, schemas)
  {
    var head :| L.Join(parts) == head + L.Join(parts');
    TailStart(segs, parts, next, segs', parts', sum, head);
    TailRecords(L.Join(parts), head, L.Join(parts'));
    HoldTail(W.Records(L.Join(parts)), W.Records(L.Join(parts')), log, times, schemas, segs[0].start - 1, |head|);
  }

  /**
   For every run whose log is on disk from its start, cut at any byte, and every target time: recovery from the
   bytes is recovery of the whole log of an earlier state of that run, the last one before the cut and the target.
   */
  lemma {:induction false} DiskIsPast(steps: seq<Step>, segs: seq<L.Segment>, parts: seq<W.Written>, sum: Sum, times: seq<nat>, schemas: seq<Schema>,
                                      k: nat, target: Option<nat>, tables: nat) returns (m: nat, n: nat)
    requires Run(START, steps) && DiskHolds(segs, parts, sum, After(START, steps).log, times, schemas)
    requires segs[0].start == 1 && k <= |segs[|segs| - 1].bytes|
    ensures n <= |steps| && Run(START, steps[..n])
    ensures var past := After(START, steps[..n]).log;
            && |past| <= m <= |times|
            && (k == |segs[|segs| - 1].bytes| ==> m == |L.Join(parts)|)
            && (target.None? ==> |past| == m)
            && (target.Some? ==> forall i :: 0 <= i < |past| ==> times[i] <= target.value)
            && (target.Some? && |past| < m ==> times[|past|] > target.value)
            && Recover(EntriesOf(W.ReadAll(Cut(segs, k), sum), schemas), 0, target, tables) ==
               Recover(Recovery.Entries(past, times[..|past|]), 0, None, tables)
  {
    m := DiskRecovers(segs, parts, sum, After(START, steps).log, times, schemas, k, 0, target, tables);
    n := Recovery.RecoveryOfPast(steps, times, m, target, tables);
  }
}
