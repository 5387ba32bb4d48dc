/** The log writer: records appended to 64 MiB segments named by their first LSN, old segments removed. */
module WalWriter {
  import opened Sequences
  import opened WalFormat
  import opened LittleEndian
  import Checkpoint

  const MAX_SEGMENT: nat := 64 * 1024 * 1024

  datatype Segment = Segment(start: nat, bytes: seq<byte>)

  // ── What is on disk, as records ──

  function Join(parts: seq<Written>): Written {
    if parts == [] then [] else parts[0] + Join(parts[1..])
  }

  lemma {:induction false} JoinSnoc(parts: seq<Written>, p: Written)
    ensures Join(parts + [p]) == Join(parts) + p
  {
    if parts == [] {
      assert parts + [p] == [p] && [p][1..] == [];
    } else {
      assert (parts + [p])[1..] == parts[1..] + [p];
      JoinSnoc(parts[1..], p);
      ConcatAssoc(parts[0], Join(parts[1..]), p);
    }
  }

  lemma {:induction false} JoinLast(parts: seq<Written>)
    requires parts != []
    ensures var n := |parts| - 1; Join(parts) == Join(parts[..n]) + parts[n]
  {
    var n := |parts| - 1;
    assert parts == parts[..n] + [parts[n]];
    JoinSnoc(parts[..n], parts[n]);
  }

  lemma {:induction false} JoinSplit(parts: seq<Written>, k: nat)
    requires k <= |parts|
    ensures Join(parts) == Join(parts[..k]) + Join(parts[k..])
    decreases |parts| - k
  {
    if k == |parts| {
      assert parts[..k] == parts && parts[k..] == [];
    } else {
      JoinSplit(parts, k + 1);
      assert parts[..k + 1] == parts[..k] + [parts[k]];
      JoinSnoc(parts[..k], parts[k]);
      assert parts[k..][1..] == parts[k + 1..];
      ConcatAssoc(Join(parts[..k]), parts[k], Join(parts[k + 1..]));
    }
  }

  /** The header fields in order, with the padding of the struct, and the payload. */
  function RecordBytes(lsn: nat, tx: nat, kind: byte, payload: seq<byte>, time: nat, pad: seq<byte>, check: nat): seq<byte>
    requires Padding(pad)
  {
    Le(MAGIC, 4) + pad[..4] + Le(lsn, 8) + Le(tx, 8) + [kind] + pad[4..7] +
    Le(|payload|, 4) + Le(check, 4) + pad[7..] + Le(time, 8) + payload
  }

  /** One segment holds its records' bytes, numbered from its start. */
  ghost predicate SegmentOk(s: Segment, p: Written, sum: Sum) {
    && Writable(p, sum)
    && s.bytes == Bytes(p, sum)
    && forall j :: 0 <= j < |p| ==> p[j].0.lsn == s.start + j
  }

  /** Segments partition the LSNs from the first one's start up to next. */
  ghost predicate Partition(segs: seq<Segment>, parts: seq<Written>, next: nat) {
    && |segs| == |parts| > 0
    && (forall i :: 0 <= i < |segs| - 1 ==> segs[i + 1].start == segs[i].start + |parts[i]|)
    && next == segs[|segs| - 1].start + |parts[|segs| - 1]|
  }

  ghost predicate OnDisk(segs: seq<Segment>, parts: seq<Written>, next: nat, sum: Sum) {
    Partition(segs, parts, next) && forall i {:trigger SegmentOk(segs[i], parts[i], sum)} :: 0 <= i < |segs| ==> SegmentOk(segs[i], parts[i], sum)
  }

  lemma {:induction false} BytesSnoc(w: Written, r: (Record, seq<byte>), sum: Sum)
    requires (forall i :: 0 <= i < |w| ==> Padding(w[i].1)) && Padding(r.1)
    ensures Bytes(w + [r], sum) == Bytes(w, sum) + Encode(r.0, r.1, sum)
  {
    if w == [] {
      assert w + [r] == [r] && [r][1..] == [];
    } else {
      assert (w + [r])[1..] == w[1..] + [r];
      BytesSnoc(w[1..], r, sum);
      ConcatAssoc(Encode(w[0].0, w[0].1, sum), Bytes(w[1..], sum), Encode(r.0, r.1, sum));
    }
  }

  function Contents(segs: seq<Segment>): seq<seq<byte>> {
    seq(|segs|, i requires 0 <= i < |segs| => segs[i].bytes)
  }

  lemma RecordsConcat(a: Written, b: Written)
    ensures Records(a + b) == Records(a) + Records(b)
  {
  }

  /** A fresh reader returns every record on disk, in order, across all segments. */
  lemma {:induction false} ReadWhole(segs: seq<Segment>, parts: seq<Written>, sum: Sum)
    requires |segs| == |parts| && forall i :: 0 <= i < |segs| ==> SegmentOk(segs[i], parts[i], sum)
    ensures ReadAll(Contents(segs), sum) == Records(Join(parts))
  {
    if segs != [] {
      ReadBack(parts[0], sum);
      assert Contents(segs)[1..] == Contents(segs[1..]);
      ReadWhole(segs[1..], parts[1..], sum);
      RecordsConcat(parts[0], Join(parts[1..]));
    }
  }

  /** The k-th record from the first segment on has the k-th LSN from its start. */
  lemma {:induction false} ConsecutiveLsns(segs: seq<Segment>, parts: seq<Written>, next: nat, sum: Sum)
    requires Partition(segs, parts, next) && forall i :: 0 <= i < |segs| ==> SegmentOk(segs[i], parts[i], sum)
    ensures next == segs[0].start + |Join(parts)|
    ensures forall k :: 0 <= k < |Join(parts)| ==> Join(parts)[k].0.lsn == segs[0].start + k
    decreases |segs|
  {
    if |segs| == 1 {
      assert parts[1..] == [];
    } else {
      SuffixOk(segs, parts, next, 1);
      ConsecutiveLsns(segs[1..], parts[1..], next, sum);
    }
  }

  /** A tail torn at byte k of the last segment: the reader returns the whole records before the tear. */
  lemma {:induction false} ReadTornTail(segs: seq<Segment>, parts: seq<Written>, sum: Sum, k: nat)
    requires |segs| == |parts| > 0 && forall i :: 0 <= i < |segs| ==> SegmentOk(segs[i], parts[i], sum)
    requires k <= |segs[|segs| - 1].bytes|
    ensures var n := |segs| - 1;
            SegmentOk(segs[n], parts[n], sum) &&
            var m := Whole(parts[n], k, sum);
            ReadAll(Contents(segs[..n]) + [segs[n].bytes[..k]], sum) == Records(Join(parts[..n]) + parts[n][..m])
  {
    var n := |segs| - 1;
    var a, b := Contents(segs[..n]), [segs[n].bytes[..k]];
    forall i | 0 <= i < |a| ensures ReadSegment(a[i], sum).clean { ReadBack(parts[i], sum); }
    ReadAllConcat(a, b, sum);
    ReadWhole(segs[..n], parts[..n], sum);
    ReadTorn(parts[n], k, sum);
    assert b[1..] == [];
    var m := Whole(parts[n], k, sum);
    assert Records(parts[n])[..m] == Records(parts[n][..m]);
    RecordsConcat(Join(parts[..n]), parts[n][..m]);
  }

  // ── Removing old segments ──

  /** Every record from the safe LSN on is still there. */
  ghost predicate KeepsFrom(was: Written, now: Written, safe: nat) {
    forall r :: r in was && r.0.lsn >= safe ==> r in now
  }

  ghost predicate Suffix(a: Written, b: Written) { exists head :: b == head + a }

  lemma {:induction false} StartsAscend(segs: seq<Segment>, parts: seq<Written>, next: nat, i: nat, j: nat)
    requires Partition(segs, parts, next) && i <= j < |segs|
    ensures segs[i].start <= segs[j].start <= next
    decreases |segs| - i
  {
    if i < j {
      StartsAscend(segs, parts, next, i + 1, j);
    } else if i + 1 < |segs| {
      StartsAscend(segs, parts, next, i + 1, i + 1);
    }
  }

  predicate Ascend(segs: seq<Segment>) { forall i, j :: 0 <= i < j < |segs| ==> segs[i].start <= segs[j].start }

  lemma {:induction false} AllAscend(segs: seq<Segment>, parts: seq<Written>, next: nat)
    requires Partition(segs, parts, next)
    ensures Ascend(segs)
  {
    forall i, j | 0 <= i < j < |segs| ensures segs[i].start <= segs[j].start {
      StartsAscend(segs, parts, next, i, j);
    }
  }

  // ── The log as truncation sees it ──

  /** The segments by their first LSN and number of records. */
  function Shape(segs: seq<Segment>, parts: seq<Written>): (s: seq<Checkpoint.Seg>)
    requires |segs| == |parts|
    ensures |s| == |segs|
  {
    seq(|segs|, i requires 0 <= i < |segs| => Checkpoint.Seg(segs[i].start, |parts[i]|))
  }

  ghost predicate Shaped(l: Checkpoint.Log, segs: seq<Segment>, parts: seq<Written>, next: nat) {
    |segs| == |parts| && l.segs == Shape(segs, parts) && l.next == next
  }

  /** An LSN that a segment covers is the LSN of a record on disk. */
  lemma {:induction false} OnDiskRecord(l: Checkpoint.Log, segs: seq<Segment>, parts: seq<Written>, next: nat, sum: Sum, lsn: nat)
    requires OnDisk(segs, parts, next, sum) && Shaped(l, segs, parts, next)
    ensures Checkpoint.OnDisk(l, lsn) <==> exists r :: r in Join(parts) && r.0.lsn == lsn
  {
    var log := Join(parts);
    ConsecutiveLsns(segs, parts, next, sum);
    CoveredExactly(l, segs, parts, next, lsn);
    if segs[0].start <= lsn < next { assert log[lsn - segs[0].start] in log; }
    forall r | r in log ensures segs[0].start <= r.0.lsn < next { var k :| 0 <= k < |log| && log[k] == r; }
  }

  lemma {:induction false} CoveredExactly(l: Checkpoint.Log, segs: seq<Segment>, parts: seq<Written>, next: nat, lsn: nat)
    requires Partition(segs, parts, next) && Shaped(l, segs, parts, next)
    ensures Checkpoint.OnDisk(l, lsn) <==> segs[0].start <= lsn < next
  {
    if Checkpoint.OnDisk(l, lsn) {
      var i :| 0 <= i < |l.segs| && l.segs[i].start <= lsn < l.segs[i].start + l.segs[i].count;
      StartsAscend(segs, parts, next, 0, i);
      EndsBefore(segs, parts, next, i);
    }
    if segs[0].start <= lsn < next { Checkpoint.Covered(l, lsn); }
  }

  lemma {:induction false} EndsBefore(segs: seq<Segment>, parts: seq<Written>, next: nat, i: nat)
    requires Partition(segs, parts, next) && i < |segs|
    ensures segs[i].start + |parts[i]| <= next
  {
    if i + 1 < |segs| { StartsAscend(segs, parts, next, i + 1, |segs| - 1); }
  }

  /** What is removed is what a checkpoint removes. */
  lemma {:induction false} RemovedIs(segs: seq<Segment>, parts: seq<Written>, k: nat, safe: nat)
    requires |segs| == |parts| && k < |segs| && Ascend(segs)
    requires (k > 0 ==> segs[k].start <= safe) && (k + 1 < |segs| ==> segs[k + 1].start > safe)
    ensures Checkpoint.Removed(Shape(segs, parts), safe) == k
  {
    if k > 0 {
      assert segs[1].start <= segs[k].start;
      RemovedIs(segs[1..], parts[1..], k - 1, safe);
      assert Shape(segs, parts)[1..] == Shape(segs[1..], parts[1..]);
    }
  }

  /** One more record in the last segment. */
  lemma {:induction false} ShapeMore(segs: seq<Segment>, parts: seq<Written>, next: nat, bytes: seq<byte>, rec: (Record, seq<byte>))
    requires |segs| == |parts| > 0
    ensures var n := |segs| - 1;
            Shape(segs[n := Segment(segs[n].start, segs[n].bytes + bytes)], parts[n := parts[n] + [rec]]) ==
            Checkpoint.MoreSegs(Shape(segs, parts), next, false)
  {
  }

  lemma {:induction false} ShapeRotated(segs: seq<Segment>, parts: seq<Written>, next: nat)
    requires |segs| == |parts| > 0
    ensures var now := Shape(segs + [Segment(next, [])], parts + [[]]);
            now != [] && Checkpoint.MoreSegs(now, next, false) == Checkpoint.MoreSegs(Shape(segs, parts), next, true)
  {
  }

  lemma {:induction false} RemovedShape(segs: seq<Segment>, parts: seq<Written>, k: nat, safe: nat)
    requires |segs| == |parts| && k < |segs| && Ascend(segs)
    requires (k > 0 ==> segs[k].start <= safe) && (k + 1 < |segs| ==> segs[k + 1].start > safe)
    ensures var was := Shape(segs, parts); Shape(segs[k..], parts[k..]) == was[Checkpoint.Removed(was, safe)..]
  {
    RemovedIs(segs, parts, k, safe);
    assert Shape(segs[k..], parts[k..]) == Shape(segs, parts)[k..];
  }

  class WalWriter {
    var segments: seq<Segment>
    var nextLsn: nat
    var currentSize: nat
    ghost const sum: Sum
    ghost var parts: seq<Written>

    ghost predicate Valid()
      reads this
    {
      && OnDisk(segments, parts, nextLsn, sum)
      && currentSize == |segments[|segments| - 1].bytes|
    }

    /** The records on disk, oldest first. */
    ghost function Log(): Written
      reads this
    {
      Join(parts)
    }

    constructor (ghost checksum: Sum)
      requires Sums(checksum)
      ensures Valid() && Log() == [] && nextLsn == 1
    {
      segments, nextLsn, currentSize := [Segment(1, [])], 1, 0;
      sum, parts := checksum, [[]];
      new;
      assert parts[1..] == [];
    }

    method RotateIfNeeded()
      requires Valid()
      modifies this
      ensures Valid() && Log() == old(Log()) && nextLsn == old(nextLsn)
      ensures segments == if old(currentSize) >= MAX_SEGMENT then old(segments) + [Segment(nextLsn, [])] else old(segments)
      ensures parts == if old(currentSize) >= MAX_SEGMENT then old(parts) + [[]] else old(parts)
    {
      if currentSize >= MAX_SEGMENT {
        RotateOk(segments, parts, nextLsn, sum);
        segments, parts := segments + [Segment(nextLsn, [])], parts + [[]];
        currentSize := 0;
      }
    }

    /** The bytes of one record at the end of the last segment. */
    method Write(tx: nat, kind: byte, payload: seq<byte>, time: nat, pad: seq<byte>, check: nat)
      requires Valid() && Padding(pad) && check == sum(payload)
      requires nextLsn < U64 && tx < U64 && |payload| < U32 && time < U64
      modifies this
      ensures Valid() && nextLsn == old(nextLsn) + 1
      ensures Log() == old(Log()) + [(Record(old(nextLsn), tx, kind, payload, time), pad)]
      ensures Shape(segments, parts) == Checkpoint.MoreSegs(old(Shape(segments, parts)), old(nextLsn), false)
    {
      var n := |segments| - 1;
      ghost var rec := (Record(nextLsn, tx, kind, payload, time), pad);
      var bytes := RecordBytes(nextLsn, tx, kind, payload, time, pad, check);
      AppendOk(segments, parts, nextLsn, rec, sum);
      ShapeMore(segments, parts, nextLsn, bytes, rec);
      segments := segments[n := Segment(segments[n].start, segments[n].bytes + bytes)];
      parts := parts[n := parts[n] + [rec]];
      nextLsn := nextLsn + 1;
      currentSize := currentSize + HEADER + |payload|;
    }

    /** Appends one record, whose checksum the caller computes, and returns its LSN. */
    method AppendRecord(tx: nat, kind: byte, payload: seq<byte>, time: nat, pad: seq<byte>, check: nat)
      returns (lsn: nat)
      requires Valid() && Padding(pad) && check == sum(payload)
      requires nextLsn < U64 && tx < U64 && |payload| < U32 && time < U64
      modifies this
      ensures Valid() && lsn == old(nextLsn) && nextLsn == old(nextLsn) + 1
      ensures Log() == old(Log()) + [(Record(lsn, tx, kind, payload, time), pad)]
      ensures Shape(segments, parts) == Checkpoint.MoreSegs(old(Shape(segments, parts)), lsn, old(currentSize) >= MAX_SEGMENT)
    {
      ShapeRotated(segments, parts, nextLsn);
      RotateIfNeeded();
      lsn := nextLsn;
      Write(tx, kind, payload, time, pad, check);
    }

    /** What remains is a suffix of the log that holds every record from the safe LSN on; nothing more could go. */
    method RemoveSegmentsBefore(safe: nat)
      requires Valid()
      modifies this
      ensures Valid() && nextLsn == old(nextLsn)
      ensures Suffix(Log(), old(Log())) && KeepsFrom(old(Log()), Log(), safe)
      ensures |segments| > 1 ==> segments[1].start > safe
      ensures var was := old(Shape(segments, parts)); Shape(segments, parts) == was[Checkpoint.Removed(was, safe)..]
    {
      var kept := RemoveOld(segments, parts, nextLsn, safe, sum);
      parts := parts[|parts| - |kept|..];
      segments := kept;
    }
  }

  /** remove_segments_before on the list of segments. */
  method RemoveOld(segs: seq<Segment>, ghost parts: seq<Written>, ghost next: nat, safe: nat, ghost sum: Sum) returns (kept: seq<Segment>)
    requires OnDisk(segs, parts, next, sum)
    ensures |kept| <= |parts|
    ensures var p := parts[|parts| - |kept|..];
            && OnDisk(kept, p, next, sum) && kept[|kept| - 1] == segs[|segs| - 1]
            && Suffix(Join(p), Join(parts)) && KeepsFrom(Join(parts), Join(p), safe)
            && (|kept| > 1 ==> kept[1].start > safe)
            && Shape(kept, p) == Shape(segs, parts)[Checkpoint.Removed(Shape(segs, parts), safe)..]
  {
    AllAscend(segs, parts, next);
    ghost var k;
    kept, k := KeptSegments(segs, safe);
    RemoveOk(segs, parts, next, k, safe, sum);
    RemovedShape(segs, parts, k, safe);
    assert |parts| - |kept| == k;
  }

  /** The segments to keep: the last, and each whose successor starts after safe. */
  method KeptSegments(segs: seq<Segment>, safe: nat) returns (kept: seq<Segment>, ghost k: nat)
    requires segs != [] && Ascend(segs)
    ensures k < |segs| && kept == segs[k..]
    ensures k > 0 ==> segs[k].start <= safe
    ensures k + 1 < |segs| ==> segs[k + 1].start > safe
  {
    kept, k := [], 0;
    var i := 0;
    while i < |segs|
      invariant k <= i <= |segs| && k < |segs|
      invariant kept == segs[k..i]
      invariant k > 0 ==> segs[k].start <= safe
      invariant k < i < |segs| ==> segs[i].start > safe
      invariant k < i && k + 1 < |segs| ==> segs[k + 1].start > safe
    {
      if i + 1 < |segs| && segs[i + 1].start <= safe {
        assert segs[i].start <= segs[i + 1].start;
        k := i + 1;
      } else {
        SliceSnoc(segs, k, i);
        kept := kept + [segs[i]];
      }
      i := i + 1;
    }
    assert segs[k..|segs|] == segs[k..];
  }

  lemma SliceSnoc(segs: seq<Segment>, k: nat, i: nat)
    requires k <= i < |segs|
    ensures segs[k..i + 1] == segs[k..i] + [segs[i]]
  {
  }

  /** Dropping the first k segments, the k-th of which starts at or before safe, loses only older records. */
  lemma {:induction false} RemoveOk(segs: seq<Segment>, parts: seq<Written>, next: nat, k: nat, safe: nat, sum: Sum)
    requires OnDisk(segs, parts, next, sum)
    requires k < |segs| && (k > 0 ==> segs[k].start <= safe)
    ensures var s, p := segs[k..], parts[k..];
            && OnDisk(s, p, next, sum) && s[|s| - 1] == segs[|segs| - 1]
            && Suffix(Join(p), Join(parts))
            && KeepsFrom(Join(parts), Join(p), safe)
  {
    JoinSplit(parts, k);
    SuffixOk(segs, parts, next, k);
    LsnsFrom(segs, parts, next, k, sum);
    var s, p := segs[k..], parts[k..];
    forall i | 0 <= i < |s| ensures SegmentOk(s[i], p[i], sum) { assert SegmentOk(segs[k + i], parts[k + i], sum); }
    Younger(Join(parts[..k]), Join(p), segs[0].start, safe);
  }

  lemma {:induction false} Younger(a: Written, b: Written, first: nat, safe: nat)
    requires forall i :: 0 <= i < |a + b| ==> (a + b)[i].0.lsn == first + i
    requires a != [] ==> first + |a| <= safe
    ensures Suffix(b, a + b)
    ensures KeepsFrom(a + b, b, safe)
  {
    forall r | r in a ensures r.0.lsn < safe {
      var i :| 0 <= i < |a| && a[i] == r;
      assert (a + b)[i] == r;
    }
  }

  lemma {:induction false} LsnsFrom(segs: seq<Segment>, parts: seq<Written>, next: nat, k: nat, sum: Sum)
    requires Partition(segs, parts, next) && forall i :: 0 <= i < |segs| ==> SegmentOk(segs[i], parts[i], sum)
    requires k < |segs| && Join(parts) == Join(parts[..k]) + Join(parts[k..])
    ensures segs[k].start == segs[0].start + |Join(parts[..k])|
    ensures forall i :: 0 <= i < |Join(parts)| ==> Join(parts)[i].0.lsn == segs[0].start + i
    ensures k == 0 ==> Join(parts[..k]) == []
  {
    ConsecutiveLsns(segs, parts, next, sum);
    SuffixOk(segs, parts, next, k);
    ConsecutiveLsns(segs[k..], parts[k..], next, sum);
  }

  lemma {:induction false} RotateOk(segs: seq<Segment>, parts: seq<Written>, next: nat, sum: Sum)
    requires OnDisk(segs, parts, next, sum)
    ensures var s, p := segs + [Segment(next, [])], parts + [[]];
            && OnDisk(s, p, next, sum)
            && Join(p) == Join(parts)
  {
    var s, p := segs + [Segment(next, [])], parts + [[]];
    assert SegmentOk(segs[0], parts[0], sum);
    JoinSnoc(parts, []);
    forall i | 0 <= i < |s| ensures SegmentOk(s[i], p[i], sum) {
      if i < |segs| { assert SegmentOk(segs[i], parts[i], sum); }
    }
  }

  lemma {:induction false} AppendOk(segs: seq<Segment>, parts: seq<Written>, next: nat, rec: (Record, seq<byte>), sum: Sum)
    requires OnDisk(segs, parts, next, sum)
    requires Fits(rec.0) && Padding(rec.1) && rec.0.lsn == next
    ensures var n, r, pad := |segs| - 1, rec.0, rec.1;
            var bytes := RecordBytes(r.lsn, r.tx, r.kind, r.payload, r.time, pad, sum(r.payload));
            var s := segs[n := Segment(segs[n].start, segs[n].bytes + bytes)];
            var p := parts[n := parts[n] + [rec]];
            && |bytes| == HEADER + |r.payload|
            && OnDisk(s, p, next + 1, sum)
            && Join(p) == Join(parts) + [rec]
  {
    var n := |segs| - 1;
    assert SegmentOk(segs[n], parts[n], sum);
    BytesSnoc(parts[n], rec, sum);
    AppendLog(parts, rec);
  }

  lemma {:induction false} AppendLog(parts: seq<Written>, rec: (Record, seq<byte>))
    requires parts != []
    ensures var n := |parts| - 1; Join(parts[n := parts[n] + [rec]]) == Join(parts) + [rec]
  {
    var n := |parts| - 1;
    var now := parts[n := parts[n] + [rec]];
    JoinLast(parts);
    JoinLast(now);
    assert now[..n] == parts[..n];
    ConcatAssoc(Join(parts[..n]), parts[n], [rec]);
  }

  lemma {:induction false} SuffixOk(segs: seq<Segment>, parts: seq<Written>, next: nat, k: nat)
    requires Partition(segs, parts, next) && k < |segs|
    ensures Partition(segs[k..], parts[k..], next)
  {
    var s, p := segs[k..], parts[k..];
    forall i | 0 <= i < |s| - 1 ensures s[i + 1].start == s[i].start + |p[i]| {
      assert segs[k + i + 1].start == segs[k + i].start + |parts[k + i]|;
    }
  }
}
