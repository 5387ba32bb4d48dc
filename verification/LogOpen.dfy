/**
 Opening the log again: the next LSN is found by walking the headers of the last segment, and what is
 appended behind a torn record is out of a reader's reach.
 */
module LogOpen {
  import opened Sequences
  import opened LittleEndian
  import opened WalFormat
  import opened WalWriter

  /** The records whose header lies wholly within the first k bytes. */
  function Headers(w: Written, k: nat, sum: Sum): (h: nat)
    requires forall i :: 0 <= i < |w| ==> Padding(w[i].1)
    ensures h <= |w|
  {
    if w == [] || k < HEADER then 0
    else if k < Size(w[0].0) then 1
    else 1 + Headers(w[1..], k - Size(w[0].0), sum)
  }

  /** The walk over the headers, as a function of the bytes that are left. */
  function Walk(s: seq<byte>, next: nat): nat
    decreases |s|
  {
    if |s| < HEADER then next
    else
      var lsn, size := Field(s, 8, 8), HEADER + Field(s, 28, 4);
      var n := if Field(s, 0, 4) == MAGIC && lsn >= next then lsn + 1 else next;
      if size > |s| then n else Walk(s[size..], n)
  }

  lemma FieldsFrom(s: seq<byte>, at: nat)
    requires at + HEADER <= |s|
    ensures s[at..][0..4] == s[at..at + 4] && s[at..][8..16] == s[at + 8..at + 16] && s[at..][28..32] == s[at + 28..at + 32]
  {
  }

  /** WalWriter::open reads header after header and skips the payloads unread. */
  method FindNext(bytes: seq<byte>, start: nat) returns (next: nat)
    ensures next == Walk(bytes, start)
  {
    next := start;
    var at := 0;
    while at + HEADER <= |bytes|
      invariant at <= |bytes| ==> Walk(bytes[at..], next) == Walk(bytes, start)
      invariant at > |bytes| ==> next == Walk(bytes, start)
      decreases |bytes| - at
    {
      var lsn, size := Field(bytes, at + 8, 8), Field(bytes, at + 28, 4);
      FieldsFrom(bytes, at);
      if Field(bytes, at, 4) == MAGIC && lsn >= next { next := lsn + 1; }
      if at + HEADER + size <= |bytes| { assert bytes[at..][HEADER + size..] == bytes[at + HEADER + size..]; }
      at := at + HEADER + size;
    }
  }

  /** A segment cut anywhere, walked from a smaller LSN on, gives the LSN after its last header. */
  lemma {:induction false} WalkTorn(w: Written, k: nat, start: nat, next: nat, sum: Sum)
    requires Writable(w, sum) && k <= |Bytes(w, sum)| && next <= start && forall j :: 0 <= j < |w| ==> w[j].0.lsn == start + j
    ensures Walk(Bytes(w, sum)[..k], next) == if Headers(w, k, sum) == 0 then next else start + Headers(w, k, sum)
    decreases |w|
  {
    if w != [] && k >= HEADER {
      var r, pad, rest := w[0].0, w[0].1, Bytes(w[1..], sum);
      var h, e := Header(r, pad, sum), Encode(r, pad, sum);
      var s := Bytes(w, sum)[..k];
      FrontFields(r, pad, rest, k, sum);
      if k >= |e| {
        var n := k - |e|;
        assert s[|e|..] == rest[..n];
        WalkTorn(w[1..], n, start + 1, start + 1, sum);
      }
    }
  }

  lemma {:induction false} FrontFields(r: Record, pad: seq<byte>, rest: seq<byte>, k: nat, sum: Sum)
    requires Padding(pad) && Fits(r) && sum(r.payload) < U32 && HEADER <= k <= |Encode(r, pad, sum) + rest|
    ensures var s := (Encode(r, pad, sum) + rest)[..k];
            Field(s, 0, 4) == MAGIC && Field(s, 8, 8) == r.lsn && Field(s, 28, 4) == |r.payload|
  {
    var h, all := Header(r, pad, sum), Encode(r, pad, sum) + rest;
    var tail := all[HEADER..k];
    assert all[..k] == h + tail;
    HeaderFields(r, pad, sum, tail);
  }

  /**
   With the last segment cut at any byte, the log goes on with the LSN after its last whole header, if and
   only if there is a whole header or the segment is the first one; otherwise it starts again from 1.
   That LSN is past all whole records, and at most one past them.
   */
  lemma {:induction false} ReopenTorn(segs: seq<Segment>, parts: seq<Written>, next: nat, sum: Sum, k: nat)
    requires OnDisk(segs, parts, next, sum) && segs[|segs| - 1].start >= 1 && k <= |segs[|segs| - 1].bytes|
    ensures var n := |segs| - 1; var last := segs[n];
            && SegmentOk(last, parts[n], sum)
            && var h := Headers(parts[n], k, sum);
               && (Walk(last.bytes[..k], 1) == last.start + h <==> h > 0 || last.start == 1)
               && (h == 0 ==> Walk(last.bytes[..k], 1) == 1)
               && Whole(parts[n], k, sum) <= h <= Whole(parts[n], k, sum) + 1
  {
    var n := |segs| - 1;
    assert SegmentOk(segs[n], parts[n], sum);
    WalkTorn(parts[n], k, segs[n].start, 1, sum);
    HeadersWhole(parts[n], k, sum);
  }

  lemma {:induction false} HeadersWhole(w: Written, k: nat, sum: Sum)
    requires forall i :: 0 <= i < |w| ==> Padding(w[i].1)
    ensures Whole(w, k, sum) <= Headers(w, k, sum) <= Whole(w, k, sum) + 1
  {
    if w != [] && k >= Size(w[0].0) { HeadersWhole(w[1..], k - Size(w[0].0), sum); }
  }

  /**
   After a clean shutdown the log goes on with the LSN it would have used, if and only if the last
   segment has a record or is the first one.
   */
  lemma {:induction false} ReopenExact(segs: seq<Segment>, parts: seq<Written>, next: nat, sum: Sum)
    requires OnDisk(segs, parts, next, sum) && segs[|segs| - 1].start >= 1
    ensures var last := segs[|segs| - 1];
            Walk(last.bytes, 1) == next <==> parts[|segs| - 1] != [] || last.start == 1
  {
    var n := |segs| - 1;
    assert SegmentOk(segs[n], parts[n], sum);
    AllHeaders(parts[n], sum);
    ReopenTorn(segs, parts, next, sum, |segs[n].bytes|);
    assert segs[n].bytes[..|segs[n].bytes|] == segs[n].bytes;
  }

  /**
   A crash between the rotation and the first write to the new segment: whatever the log holds, if its
   first LSN is 1 or more, the LSNs start again from 1.
   */
  lemma {:induction false} RotationRestarts(segs: seq<Segment>, parts: seq<Written>, next: nat, sum: Sum)
    requires OnDisk(segs, parts, next, sum) && segs[0].start >= 1 && Join(parts) != []
    ensures OnDisk(segs + [Segment(next, [])], parts + [[]], next, sum)
    ensures Walk([], 1) == 1 < next
  {
    RotateOk(segs, parts, next, sum);
    ConsecutiveLsns(segs, parts, next, sum);
  }

  const NO_PAD: seq<byte> := [0, 0, 0, 0, 0, 0, 0, 0, 0, 0, 0]

  /** One begin record, and the new segment after it that the crash left empty. */
  function OneRecord(): Written { [(Record(1, 1, 0, [], 0), NO_PAD)] }

  function TwoSegments(sum: Sum): seq<Segment> { [Segment(1, Bytes(OneRecord(), sum)), Segment(2, [])] }

  /** What is appended then: a record with LSN 1 again, in the segment named 2. */
  function Again(): (Record, seq<byte>) { (Record(1, 1, 0, [], 5), NO_PAD) }

  lemma {:induction false} OneBytes(r: (Record, seq<byte>), sum: Sum)
    requires Padding(r.1)
    ensures Bytes([r], sum) == Encode(r.0, r.1, sum)
  {
    assert [r][1..] == [];
  }

  lemma {:induction false} TwoOnDisk(sum: Sum)
    requires Sums(sum)
    ensures OnDisk(TwoSegments(sum), [OneRecord(), []], 2, sum)
  {
    assert SegmentOk(TwoSegments(sum)[0], OneRecord(), sum) && SegmentOk(TwoSegments(sum)[1], [], sum);
  }

  lemma {:induction false} ReadOne(w: Written, sum: Sum)
    requires Writable(w, sum)
    ensures ReadAll([Bytes(w, sum)], sum) == Records(w)
  {
    ReadBack(w, sum);
    var segs: seq<seq<byte>> := [Bytes(w, sum)];
    assert segs[1..] == [];
    assert Records(w) + [] == Records(w);
  }

  /** Reading two whole segments. */
  lemma {:induction false} ReadBoth(a: Written, b: Written, sum: Sum)
    requires Writable(a, sum) && Writable(b, sum)
    ensures ReadAll([Bytes(a, sum), Bytes(b, sum)], sum) == Records(a) + Records(b)
  {
    ReadBack(a, sum);
    ReadBack(b, sum);
    var segs: seq<seq<byte>> := [Bytes(a, sum), Bytes(b, sum)];
    assert segs[1..] == [Bytes(b, sum)];
    ReadOne(b, sum);
  }

  /** This log is reopened with LSN 1 instead of 2, and its readers then find two records with LSN 1. */
  lemma {:induction false} RestartedLog(sum: Sum)
    requires Sums(sum)
    ensures OnDisk(TwoSegments(sum), [OneRecord(), []], 2, sum) && Walk(TwoSegments(sum)[1].bytes, 1) == 1
    ensures ReadAll([TwoSegments(sum)[0].bytes, Encode(Again().0, Again().1, sum)], sum) == [OneRecord()[0].0, Again().0]
    ensures OneRecord()[0].0.lsn == Again().0.lsn == 1
  {
    TwoOnDisk(sum);
    OneBytes(Again(), sum);
    ReadBoth(OneRecord(), [Again()], sum);
  }

  lemma {:induction false} AllHeaders(w: Written, sum: Sum)
    requires Writable(w, sum)
    ensures Headers(w, |Bytes(w, sum)|, sum) == |w|
  {
    if w != [] { AllHeaders(w[1..], sum); }
  }

  // ── Behind a torn record ──

  /** The bytes of the record that the cut at k falls into. */
  function TornPart(w: Written, k: nat, sum: Sum): seq<byte>
    requires (forall i :: 0 <= i < |w| ==> Padding(w[i].1)) && k <= |Bytes(w, sum)|
  {
    if w == [] then []
    else
      var e := Encode(w[0].0, w[0].1, sum);
      if k < |e| then e[..k] else TornPart(w[1..], k - |e|, sum)
  }

  /** Whatever is appended to a torn segment: the reader returns the whole records, then what it makes of the rest. */
  lemma {:induction false} ReadBehind(w: Written, k: nat, more: seq<byte>, sum: Sum)
    requires Writable(w, sum) && k <= |Bytes(w, sum)|
    ensures ReadSegment(Bytes(w, sum)[..k] + more, sum).recs ==
            Records(w)[..Whole(w, k, sum)] + ReadSegment(TornPart(w, k, sum) + more, sum).recs
    decreases |w|
  {
    var behind := ReadSegment(TornPart(w, k, sum) + more, sum).recs;
    if w == [] || k < Size(w[0].0) {
      TornFirst(w, k, sum);
      assert Records(w)[..0] + behind == behind;
    } else {
      var n := k - Size(w[0].0);
      ReadBehind(w[1..], n, more, sum);
      FirstRead(w, k, more, sum);
      RecordsFront(w, Whole(w[1..], n, sum), behind);
    }
  }

  lemma {:induction false} TornFirst(w: Written, k: nat, sum: Sum)
    requires Writable(w, sum) && k <= |Bytes(w, sum)| && (w == [] || k < Size(w[0].0))
    ensures Whole(w, k, sum) == 0 && Bytes(w, sum)[..k] == TornPart(w, k, sum)
  {
  }

  lemma {:induction false} FirstRead(w: Written, k: nat, more: seq<byte>, sum: Sum)
    requires Writable(w, sum) && w != [] && Size(w[0].0) <= k <= |Bytes(w, sum)|
    ensures var n := k - Size(w[0].0);
            ReadSegment(Bytes(w, sum)[..k] + more, sum).recs == [w[0].0] + ReadSegment(Bytes(w[1..], sum)[..n] + more, sum).recs
  {
    var e, rest := Encode(w[0].0, w[0].1, sum), Bytes(w[1..], sum);
    CutBehind(e, rest, k);
    ConcatAssoc(e, rest[..k - |e|], more);
    ReadNext(w[0], rest[..k - |e|] + more, sum);
  }

  lemma {:induction false} RecordsFront(w: Written, m: nat, rest: seq<Record>)
    requires w != [] && m < |w|
    ensures Records(w)[..m + 1] + rest == [w[0].0] + (Records(w[1..])[..m] + rest)
  {
    RecordsCut(w, m);
  }

  /** What is left of the torn record does not read as a record together with what follows. */
  ghost predicate Blocks(torn: seq<byte>, more: seq<byte>, sum: Sum) { torn != [] && !Parse(torn + more, sum).Got? }

  /** Then nothing that is appended after reopening is ever read. */
  lemma {:induction false} AppendedLost(w: Written, k: nat, more: seq<byte>, sum: Sum)
    requires Writable(w, sum) && k <= |Bytes(w, sum)| && Blocks(TornPart(w, k, sum), more, sum)
    ensures ReadSegment(Bytes(w, sum)[..k] + more, sum).recs == Records(w)[..Whole(w, k, sum)]
  {
    ReadBehind(w, k, more, sum);
  }

  /** One to three bytes of a record block whatever record is appended next. */
  lemma {:induction false} ShortTear(r: Record, pad: seq<byte>, k: nat, next: Record, pad2: seq<byte>, rest: seq<byte>, sum: Sum)
    requires Padding(pad) && Padding(pad2) && 0 < k < 4
    ensures Blocks(Encode(r, pad, sum)[..k], Encode(next, pad2, sum) + rest, sum)
  {
    var a, b := Encode(r, pad, sum), Encode(next, pad2, sum) + rest;
    FirstByte(r, pad, sum, []);
    FirstByte(next, pad2, sum, rest);
    assert a + [] == a;
    Shifted(a[..k] + b, k);
  }

  lemma {:induction false} FirstByte(r: Record, pad: seq<byte>, sum: Sum, rest: seq<byte>)
    requires Padding(pad)
    ensures |Encode(r, pad, sum)| >= HEADER && (Encode(r, pad, sum) + rest)[0] == 0x52
  {
    assert (Encode(r, pad, sum) + rest)[0] == Header(r, pad, sum)[0] == Le(MAGIC, 4)[0];
  }

  /** The magic has its first byte nowhere else. */
  lemma {:induction false} Shifted(s: seq<byte>, k: nat)
    requires 0 < k < 4 && |s| >= HEADER && s[0] == s[k] == 0x52
    ensures Field(s, 0, 4) != MAGIC
  {
    FromLeRoundTrip(s[0..4]);
    assert s[0..4][k] == s[k];
  }

  /** A header torn behind the magic goes on in what is appended. */
  lemma {:induction false} MixedHeader(e: seq<byte>, k: nat, more: seq<byte>, s: seq<byte>, at: nat)
    requires k <= |e| && at + 4 <= |e| && at + 4 <= |s| && s == e[..k] + more
    ensures at + 4 <= k ==> Field(s, at, 4) == Field(e, at, 4)
    ensures k <= at ==> Field(s, at, 4) == Field(more, at - k, 4)
  {
    if at + 4 <= k { assert s[at..at + 4] == e[at..at + 4]; }
    if k <= at { assert s[at..at + 4] == more[at - k..at - k + 4]; }
  }

  /**
   A header torn behind its magic blocks what is appended if and only if header and appended bytes are
   still too short, or the mixed header announces a payload that is cut off or has another checksum than
   the one announced.  The size is the torn record's if 32 bytes are left, its checksum if 36 are; with at
   most 28 bytes left, the size is read from the appended bytes.
   */
  lemma {:induction false} TornHeader(r: Record, pad: seq<byte>, k: nat, more: seq<byte>, sum: Sum)
    requires Padding(pad) && Fits(r) && Sums(sum) && 4 <= k < HEADER
    ensures var torn := Encode(r, pad, sum)[..k];
            var s := torn + more;
            && (Blocks(torn, more, sum) <==>
                  |s| < HEADER ||
                  var size := Field(s, 28, 4);
                  size > 0 && (|s| < HEADER + size || sum(s[HEADER..HEADER + size]) != Field(s, 32, 4)))
            && (|s| >= HEADER ==>
                  && (k >= 32 ==> Field(s, 28, 4) == |r.payload|) && (k >= 36 ==> Field(s, 32, 4) == sum(r.payload))
                  && (k <= 28 ==> Field(s, 28, 4) == Field(more, 28 - k, 4)) && (k <= 32 ==> Field(s, 32, 4) == Field(more, 32 - k, 4)))
  {
    var e := Encode(r, pad, sum);
    var s := e[..k] + more;
    HeaderFields(r, pad, sum, r.payload);
    if |s| >= HEADER {
      MixedHeader(e, k, more, s, 0);
      MixedHeader(e, k, more, s, 28);
      MixedHeader(e, k, more, s, 32);
    }
    GotExactly(s, sum);
  }

  /** Bytes that show the magic, as far as they go, are no record in just these cases. */
  lemma {:induction false} GotExactly(s: seq<byte>, sum: Sum)
    requires s != [] && (|s| >= HEADER ==> Field(s, 0, 4) == MAGIC)
    ensures !Parse(s, sum).Got? <==>
            |s| < HEADER ||
            var size := Field(s, 28, 4);
            size > 0 && (|s| < HEADER + size || sum(s[HEADER..HEADER + size]) != Field(s, 32, 4))
  {
  }

  /** A torn payload blocks what is appended unless the mixed payload happens to have the torn one's checksum. */
  lemma {:induction false} TornPayload(r: Record, pad: seq<byte>, k: nat, more: seq<byte>, sum: Sum)
    requires Padding(pad) && Fits(r) && Sums(sum) && HEADER <= k < |Encode(r, pad, sum)|
    ensures var torn := Encode(r, pad, sum)[..k];
            var mixed := torn[HEADER..] + more;
            Blocks(torn, more, sum) <==> |mixed| < |r.payload| || sum(mixed[..|r.payload|]) != sum(r.payload)
  {
    var torn := Encode(r, pad, sum)[..k];
    var mixed := torn[HEADER..] + more;
    assert torn + more == Header(r, pad, sum) + mixed;
    HeaderFields(r, pad, sum, mixed);
    if |mixed| >= |r.payload| { assert (Header(r, pad, sum) + mixed)[HEADER..HEADER + |r.payload|] == mixed[..|r.payload|]; }
  }
}
