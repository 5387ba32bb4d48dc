/** Page headers: sealing a page with its checksum, and validating it. */
module PageSeal {
  import opened Crc32c

  const PAGE_MAGIC: bv32 := 0x52415744
  const HEADER_SIZE := 32

  datatype PageHeader = PageHeader(
    magic: bv32, version: seq<Byte>, kind: Byte, reserved: Byte,
    checksum: bv32, rowCount: bv32, dataSize: bv32, padding: seq<Byte>)

  /** The fields with fixed widths. */
  predicate Proper(h: PageHeader) { |h.version| == 2 && |h.padding| == 12 }

  function ByteOf(x: bv32, shift: bv6): Byte
    requires shift <= 24
  {
    ((x >> shift) & 0xFF) as bv8
  }

  function Le32(x: bv32): (bs: seq<Byte>)
    ensures |bs| == 4
  {
    [ByteOf(x, 0), ByteOf(x, 8), ByteOf(x, 16), ByteOf(x, 24)]
  }

  /** The four bytes give the number back, the first one its lowest. */
  lemma Le32Means(x: bv32)
    ensures var b := Le32(x);
            (b[0] as bv32) | ((b[1] as bv32) << 8) | ((b[2] as bv32) << 16) | ((b[3] as bv32) << 24) == x
  {
  }

  /** The header in memory, little-endian. */
  function HeaderBytes(h: PageHeader): (bs: seq<Byte>)
    requires Proper(h)
    ensures |bs| == HEADER_SIZE
  {
    Le32(h.magic) + h.version + [h.kind, h.reserved] + Le32(h.checksum) + Le32(h.rowCount) + Le32(h.dataSize) + h.padding
  }

  /** What the checksum covers: the header with a zero checksum field, then the payload. */
  function Covered(h: PageHeader, payload: seq<Byte>): seq<Byte>
    requires Proper(h)
  {
    HeaderBytes(h.(checksum := 0)) + payload
  }

  /** set_page_checksum */
  method SetPageChecksum(h: PageHeader, payload: seq<Byte>) returns (sealed: PageHeader)
    requires Proper(h)
    ensures sealed == h.(checksum := Crc(Covered(h, payload), ONES))
  {
    sealed := h.(checksum := 0);
    var crc := Compute(HeaderBytes(sealed), ONES);
    Chained(HeaderBytes(sealed), payload, ONES);
    crc := Compute(payload, Inverted(crc));
    sealed := sealed.(checksum := crc);
  }

  predicate Accepts(h: PageHeader, payload: seq<Byte>)
    requires Proper(h)
  {
    h.magic == PAGE_MAGIC && h.checksum == Crc(Covered(h, payload), ONES)
  }

  /** validate_page reads as much of the payload as the header says. */
  method ValidatePage(h: PageHeader, payload: seq<Byte>) returns (ok: bool)
    requires Proper(h) && h.dataSize as nat <= |payload|
    ensures ok <==> Accepts(h, payload[..h.dataSize as nat])
  {
    if h.magic != PAGE_MAGIC { return false; }
    var stored, tmp := h.checksum, h.(checksum := 0);
    var data := payload[..h.dataSize as nat];
    var crc := Compute(HeaderBytes(tmp), ONES);
    Chained(HeaderBytes(tmp), data, ONES);
    crc := Compute(data, Inverted(crc));
    return crc == stored;
  }

  function Sealed(h: PageHeader, payload: seq<Byte>): PageHeader
    requires Proper(h)
  {
    h.(checksum := Crc(Covered(h, payload), ONES))
  }

  /** A page is accepted just as it was sealed; with another stored checksum it is not. */
  lemma SealAccepted(h: PageHeader, payload: seq<Byte>, stored: bv32)
    requires Proper(h) && h.magic == PAGE_MAGIC
    ensures Accepts(Sealed(h, payload).(checksum := stored), payload) <==> stored == Sealed(h, payload).checksum
  {
    assert Sealed(h, payload).(checksum := stored).(checksum := 0) == h.(checksum := 0);
  }

  /** The two byte strings differ, and only within four bytes in a row. */
  ghost predicate Burst(a: seq<Byte>, b: seq<Byte>) {
    && a != b && |a| == |b|
    && exists i :: 0 <= i <= |a| && Outside(a, b, i)
  }

  ghost predicate Outside(a: seq<Byte>, b: seq<Byte>, i: int) {
    |a| == |b| && forall k :: 0 <= k < |a| && !(i <= k < i + 4) ==> a[k] == b[k]
  }

  lemma {:induction false} BurstChanges(a: seq<Byte>, b: seq<Byte>)
    requires Burst(a, b)
    ensures Crc(a, ONES) != Crc(b, ONES)
  {
    var i :| 0 <= i <= |a| && Outside(a, b, i);
    var j := if i + 4 <= |a| then i + 4 else |a|;
    assert a == a[..i] + a[i..j] + a[j..];
    assert b[..i] == a[..i] && b[j..] == a[j..];
    assert b == a[..i] + b[i..j] + a[j..];
    BurstDetected(a[..i], a[i..j], b[i..j], a[j..], ONES);
  }

  /**
   Damage within four bytes in a row of what the checksum covers, header or payload, is noticed:
   no such page is accepted with the stored checksum of the page that was sealed.
   */
  lemma {:induction false} DamageRejected(h: PageHeader, payload: seq<Byte>, h': PageHeader, payload': seq<Byte>)
    requires Proper(h) && Proper(h') && h'.checksum == Sealed(h, payload).checksum
    requires Burst(Covered(h, payload), Covered(h', payload'))
    ensures !Accepts(h', payload')
  {
    BurstChanges(Covered(h, payload), Covered(h', payload'));
  }

  /** In particular, any one changed payload byte. */
  lemma {:induction false} ByteRejected(h: PageHeader, payload: seq<Byte>, i: nat, b: Byte)
    requires Proper(h) && i < |payload| && b != payload[i]
    ensures !Accepts(Sealed(h, payload), payload[i := b])
  {
    var s, damaged := Sealed(h, payload), payload[i := b];
    assert s.(checksum := 0) == h.(checksum := 0);
    var x, y := Covered(h, payload), Covered(s, damaged);
    assert x[HEADER_SIZE + i] == payload[i] && y[HEADER_SIZE + i] == b;
    assert Outside(x, y, HEADER_SIZE + i);
    DamageRejected(h, payload, s, damaged);
  }
}
