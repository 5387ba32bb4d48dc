/** The byte format of the write-ahead log: record framing, reading back, and torn tails. */
module WalFormat {
  import opened Sequences
  import opened LittleEndian

  const MAGIC: nat := 0x57414C52
  const HEADER: nat := 48

  // ── Records ──

  datatype Record = Record(lsn: nat, tx: nat, kind: byte, payload: seq<byte>, time: nat)

  predicate Fits(r: Record) { r.lsn < U64 && r.tx < U64 && |r.payload| < U32 && r.time < U64 }

  /** The eleven bytes of struct padding, whatever they happen to hold. */
  predicate Padding(pad: seq<byte>) { |pad| == 11 }

  function Header(r: Record, pad: seq<byte>, sum: Sum): (h: seq<byte>)
    requires Padding(pad)
    ensures |h| == HEADER
  {
    Le(MAGIC, 4) + pad[..4] + Le(r.lsn, 8) + Le(r.tx, 8) + [r.kind] + pad[4..7] +
    Le(|r.payload|, 4) + Le(sum(r.payload), 4) + pad[7..] + Le(r.time, 8)
  }

  /** The bytes of a record. */
  function Size(r: Record): nat { HEADER + |r.payload| }

  function Encode(r: Record, pad: seq<byte>, sum: Sum): (e: seq<byte>)
    requires Padding(pad)
    ensures |e| == Size(r)
  {
    Header(r, pad, sum) + r.payload
  }

  // ── Reading one record ──

  datatype Parsed = EndOfSegment | Corrupt | Got(rec: Record, size: nat)

  /** WalReader::next on the bytes left in a segment. */
  function Parse(s: seq<byte>, sum: Sum): Parsed {
    if s == [] then EndOfSegment
    else if |s| < HEADER then Corrupt
    else if Field(s, 0, 4) != MAGIC then Corrupt
    else
      var size := Field(s, 28, 4);
      if size > 0 && |s| < HEADER + size then Corrupt
      else
        var payload := if size > 0 then s[HEADER..HEADER + size] else [];
        if size > 0 && sum(payload) != Field(s, 32, 4) then Corrupt
        else Got(Record(Field(s, 8, 8), Field(s, 16, 8), s[24], payload, Field(s, 40, 8)), HEADER + size)
  }

  lemma {:induction false} HeaderSlices(r: Record, pad: seq<byte>, sum: Sum)
    requires Padding(pad)
    ensures var h := Header(r, pad, sum);
            && h[0..4] == Le(MAGIC, 4) && h[8..16] == Le(r.lsn, 8) && h[16..24] == Le(r.tx, 8)
            && h[24] == r.kind && h[28..32] == Le(|r.payload|, 4) && h[32..36] == Le(sum(r.payload), 4)
            && h[40..48] == Le(r.time, 8)
  {
  }

  /** The fields read back from a header, whatever follows it. */
  lemma {:induction false} HeaderFields(r: Record, pad: seq<byte>, sum: Sum, rest: seq<byte>)
    requires Padding(pad) && Fits(r) && sum(r.payload) < U32
    ensures var s := Header(r, pad, sum) + rest;
            && Field(s, 0, 4) == MAGIC && Field(s, 8, 8) == r.lsn && Field(s, 16, 8) == r.tx
            && s[24] == r.kind && Field(s, 28, 4) == |r.payload| && Field(s, 32, 4) == sum(r.payload)
            && Field(s, 40, 8) == r.time
  {
    var h := Header(r, pad, sum);
    var s := h + rest;
    HeaderSlices(r, pad, sum);
    Widths();
    LeRoundTrip(MAGIC, 4);
    LeRoundTrip(r.lsn, 8);
    LeRoundTrip(r.tx, 8);
    LeRoundTrip(|r.payload|, 4);
    LeRoundTrip(sum(r.payload), 4);
    LeRoundTrip(r.time, 8);
    assert s[0..4] == h[0..4] && s[8..16] == h[8..16] && s[16..24] == h[16..24];
    assert s[28..32] == h[28..32] && s[32..36] == h[32..36] && s[40..48] == h[40..48];
  }

  /** A record read back from the front of a segment is the one written, with its exact size. */
  lemma {:induction false} ParseEncode(r: Record, pad: seq<byte>, sum: Sum, rest: seq<byte>)
    requires Padding(pad) && Fits(r) && sum(r.payload) < U32
    ensures Parse(Encode(r, pad, sum) + rest, sum) == Got(r, |Encode(r, pad, sum)|)
  {
    var h := Header(r, pad, sum);
    var s := Encode(r, pad, sum) + rest;
    assert s == h + (r.payload + rest);
    HeaderFields(r, pad, sum, r.payload + rest);
    assert s[HEADER..HEADER + |r.payload|] == r.payload;
  }

  /** A record cut short anywhere is never read as a record. */
  lemma {:induction false} ParseTorn(r: Record, pad: seq<byte>, sum: Sum, k: nat)
    requires Padding(pad) && Fits(r) && sum(r.payload) < U32 && k < |Encode(r, pad, sum)|
    ensures !Parse(Encode(r, pad, sum)[..k], sum).Got?
  {
    if k >= HEADER {
      var h := Header(r, pad, sum);
      var cut := r.payload[..k - HEADER];
      assert Encode(r, pad, sum)[..k] == h + cut;
      HeaderFields(r, pad, sum, cut);
    }
  }

  // ── A segment ──

  /** Each record of a segment with the padding it was written with. */
  type Written = seq<(Record, seq<byte>)>

  ghost predicate Writable(w: Written, sum: Sum) {
    Sums(sum) && forall i :: 0 <= i < |w| ==> Fits(w[i].0) && Padding(w[i].1)
  }

  function Bytes(w: Written, sum: Sum): seq<byte>
    requires forall i :: 0 <= i < |w| ==> Padding(w[i].1)
  {
    if w == [] then [] else Encode(w[0].0, w[0].1, sum) + Bytes(w[1..], sum)
  }

  function Records(w: Written): seq<Record> { seq(|w|, i requires 0 <= i < |w| => w[i].0) }

  /** All records of a segment, and whether it ended cleanly. */
  datatype Scan = Scan(recs: seq<Record>, clean: bool)

  function ReadSegment(s: seq<byte>, sum: Sum): Scan
    decreases |s|
  {
    match Parse(s, sum)
    case EndOfSegment => Scan([], true)
    case Corrupt => Scan([], false)
    case Got(rec, size) =>
      if 0 < size <= |s| then
        var rest := ReadSegment(s[size..], sum);
        Scan([rec] + rest.recs, rest.clean)
      else Scan([rec], false)
  }

  /** The number of records that lie wholly within the first k bytes. */
  function Whole(w: Written, k: nat, sum: Sum): (m: nat)
    requires forall i :: 0 <= i < |w| ==> Padding(w[i].1)
    ensures m <= |w|
  {
    if w == [] || k < Size(w[0].0) then 0
    else 1 + Whole(w[1..], k - Size(w[0].0), sum)
  }

  /** Reading the first k bytes of a segment yields exactly the records that are whole in them. */
  lemma {:induction false} ReadTorn(w: Written, k: nat, sum: Sum)
    requires Writable(w, sum) && k <= |Bytes(w, sum)|
    ensures ReadSegment(Bytes(w, sum)[..k], sum).recs == Records(w)[..Whole(w, k, sum)]
    decreases |w|
  {
    if w == [] || k < Size(w[0].0) {
      NothingRead(w, k, sum);
      assert Records(w)[..0] == [];
    } else {
      var n := k - Size(w[0].0);
      ReadTorn(w[1..], n, sum);
      ReadFirst(w, k, sum);
      RecordsCut(w, Whole(w[1..], n, sum));
      assert ReadSegment(Bytes(w, sum)[..k], sum).recs == [w[0].0] + Records(w[1..])[..Whole(w[1..], n, sum)];
    }
  }

  /** Not one record is whole, and none is read. */
  lemma {:induction false} NothingRead(w: Written, k: nat, sum: Sum)
    requires Writable(w, sum) && k <= |Bytes(w, sum)| && (w == [] || k < Size(w[0].0))
    ensures ReadSegment(Bytes(w, sum)[..k], sum).recs == [] && Whole(w, k, sum) == 0
  {
    if w != [] {
      assert Bytes(w, sum)[..k] == Encode(w[0].0, w[0].1, sum)[..k];
      ParseTorn(w[0].0, w[0].1, sum, k);
    }
  }

  /** The first record, then what the rest reads as. */
  lemma {:induction false} ReadFirst(w: Written, k: nat, sum: Sum)
    requires Writable(w, sum) && w != [] && Size(w[0].0) <= k <= |Bytes(w, sum)|
    ensures var n := k - Size(w[0].0);
            && ReadSegment(Bytes(w, sum)[..k], sum).recs == [w[0].0] + ReadSegment(Bytes(w[1..], sum)[..n], sum).recs
            && Whole(w, k, sum) == Whole(w[1..], n, sum) + 1
  {
    var e, rest := Encode(w[0].0, w[0].1, sum), Bytes(w[1..], sum);
    CutBehind(e, rest, k);
    ReadNext(w[0], rest[..k - |e|], sum);
  }

  lemma RecordsCut(w: Written, m: nat)
    requires w != [] && m < |w|
    ensures Records(w)[..m + 1] == [w[0].0] + Records(w[1..])[..m]
  {
  }

  lemma CutBehind(e: seq<byte>, rest: seq<byte>, k: nat)
    requires |e| <= k <= |e + rest|
    ensures (e + rest)[..k] == e + rest[..k - |e|]
  {
  }

  lemma {:induction false} ReadNext(r: (Record, seq<byte>), rest: seq<byte>, sum: Sum)
    requires Sums(sum) && Fits(r.0) && Padding(r.1)
    ensures var s := ReadSegment(rest, sum);
            ReadSegment(Encode(r.0, r.1, sum) + rest, sum) == Scan([r.0] + s.recs, s.clean)
  {
    var e := Encode(r.0, r.1, sum);
    ParseEncode(r.0, r.1, sum, rest);
    assert (e + rest)[|e|..] == rest;
  }

  /** An untorn segment reads back as it was written, to a clean end. */
  lemma {:induction false} ReadBack(w: Written, sum: Sum)
    requires Writable(w, sum)
    ensures ReadSegment(Bytes(w, sum), sum) == Scan(Records(w), true)
    decreases |w|
  {
    if w != [] {
      ReadNext(w[0], Bytes(w[1..], sum), sum);
      ReadBack(w[1..], sum);
      assert Records(w) == [w[0].0] + Records(w[1..]);
    }
  }

  // ── Many segments ──

  /** The reader goes through the segments in order and stops for good at the first corruption. */
  function ReadAll(segs: seq<seq<byte>>, sum: Sum): seq<Record> {
    if segs == [] then []
    else
      var first := ReadSegment(segs[0], sum);
      if first.clean then first.recs + ReadAll(segs[1..], sum) else first.recs
  }

  lemma {:induction false} ReadAllConcat(a: seq<seq<byte>>, b: seq<seq<byte>>, sum: Sum)
    requires forall i :: 0 <= i < |a| ==> ReadSegment(a[i], sum).clean
    ensures ReadAll(a + b, sum) == ReadAll(a, sum) + ReadAll(b, sum)
  {
    if a == [] {
      assert a + b == b;
    } else {
      assert (a + b)[1..] == a[1..] + b;
      ReadAllConcat(a[1..], b, sum);
      ConcatAssoc(ReadSegment(a[0], sum).recs, ReadAll(a[1..], sum), ReadAll(b, sum));
    }
  }

  // ── File names ──

  /** Decimal digits of n, zero padded to width w: the name of the segment that starts at LSN n. */
  function Name(n: nat, w: nat): (s: seq<byte>)
    ensures |s| == w
  {
    if w == 0 then [] else Name(n / 10, w - 1) + [n % 10]
  }

  function Pow10(w: nat): nat { if w == 0 then 1 else 10 * Pow10(w - 1) }

  /** The order std::sort uses on file names. */
  predicate Less(a: seq<byte>, b: seq<byte>) {
    if a == [] || b == [] then a == [] && b != []
    else a[0] < b[0] || (a[0] == b[0] && Less(a[1..], b[1..]))
  }

  lemma {:induction false} LessSnoc(a: seq<byte>, b: seq<byte>, x: byte, y: byte)
    requires |a| == |b|
    ensures Less(a + [x], b + [y]) <==> Less(a, b) || (a == b && x < y)
  {
    if a == [] {
      assert (a + [x])[1..] == [] && (b + [y])[1..] == [];
    } else {
      assert (a + [x])[1..] == a[1..] + [x] && (b + [y])[1..] == b[1..] + [y];
      LessSnoc(a[1..], b[1..], x, y);
      assert a == [a[0]] + a[1..] && b == [b[0]] + b[1..];
    }
  }

  lemma {:induction false} NameInjective(m: nat, n: nat, w: nat)
    requires m < Pow10(w) && n < Pow10(w) && Name(m, w) == Name(n, w)
    ensures m == n
  {
    if w > 0 {
      assert Name(m, w)[..w - 1] == Name(m / 10, w - 1) && Name(n, w)[..w - 1] == Name(n / 10, w - 1);
      assert Name(m, w)[w - 1] == m % 10 && Name(n, w)[w - 1] == n % 10;
      NameInjective(m / 10, n / 10, w - 1);
    }
  }

  /** Sorting segment names is sorting by the LSN they start at. */
  lemma {:induction false} NameOrder(m: nat, n: nat, w: nat)
    requires m < Pow10(w) && n < Pow10(w)
    ensures Less(Name(m, w), Name(n, w)) <==> m < n
  {
    if w > 0 {
      NameOrder(m / 10, n / 10, w - 1);
      LessSnoc(Name(m / 10, w - 1), Name(n / 10, w - 1), m % 10, n % 10);
      if Name(m / 10, w - 1) == Name(n / 10, w - 1) { NameInjective(m / 10, n / 10, w - 1); }
    }
  }

  /** Twenty digits hold every LSN. */
  lemma {:induction false} NameOrder20(m: nat, n: nat)
    requires m < U64 && n < U64
    ensures Less(Name(m, 20), Name(n, 20)) <==> m < n
  {
    assert Pow10(4) == 10000 && Pow10(8) == 10000 * Pow10(4) && Pow10(12) == 10000 * Pow10(8);
    assert Pow10(16) == 10000 * Pow10(12) && Pow10(20) == 10000 * Pow10(16);
    NameOrder(m, n, 20);
  }
}
