/** Bytes, integers in little-endian order, and checksums of bytes. */
module LittleEndian {
  type byte = x: int | 0 <= x < 256

  const U32: nat := 0x1_0000_0000
  const U64: nat := 0x1_0000_0000_0000_0000

  function Pow256(w: nat): nat { if w == 0 then 1 else 256 * Pow256(w - 1) }

  function Le(n: nat, w: nat): (s: seq<byte>)
    ensures |s| == w
  {
    if w == 0 then [] else [n % 256] + Le(n / 256, w - 1)
  }

  function FromLe(s: seq<byte>): nat {
    if s == [] then 0 else s[0] + 256 * FromLe(s[1..])
  }

  lemma {:induction false} LeRoundTrip(n: nat, w: nat)
    requires n < Pow256(w)
    ensures FromLe(Le(n, w)) == n
  {
    if w > 0 {
      LeRoundTrip(n / 256, w - 1);
      assert Le(n, w)[1..] == Le(n / 256, w - 1);
    }
  }

  lemma {:induction false} FromLeRoundTrip(s: seq<byte>)
    ensures Le(FromLe(s), |s|) == s
  {
    if s != [] {
      FromLeRoundTrip(s[1..]);
      assert FromLe(s) % 256 == s[0] && FromLe(s) / 256 == FromLe(s[1..]);
    }
  }

  /** The byte at position k counts 256^k. */
  lemma {:induction false} ByteWeight(s: seq<byte>, k: nat)
    requires k < |s|
    ensures FromLe(s) == FromLe(s[..k]) + Pow256(k) * s[k] + Pow256(k + 1) * FromLe(s[k + 1..])
  {
    if k == 0 {
      assert Pow256(0) == 1 && Pow256(1) == 256 && s[..0] == [];
    } else {
      var t := s[1..];
      ByteWeight(t, k - 1);
      assert s[..k] == [s[0]] + t[..k - 1] && s[k + 1..] == t[k..];
      assert s[..k][1..] == t[..k - 1];
      Times256(Pow256(k - 1), t[k - 1], FromLe(t[..k - 1]), Pow256(k), FromLe(t[k..]));
    }
  }

  lemma Times256(p: nat, b: nat, low: nat, q: nat, high: nat)
    ensures 256 * (low + p * b + q * high) == 256 * low + (256 * p) * b + (256 * q) * high
  {
  }

  lemma Widths()
    ensures Pow256(4) == U32 && Pow256(8) == U64
  {
    assert Pow256(1) == 256 && Pow256(2) == 65536 && Pow256(3) == 16777216 && Pow256(4) == U32;
    assert Pow256(5) == 256 * U32 && Pow256(6) == 65536 * U32 && Pow256(7) == 16777216 * U32;
  }

  /** The w-byte integer at a position. */
  function Field(s: seq<byte>, at: nat, w: nat): nat
    requires at + w <= |s|
  {
    FromLe(s[at..at + w])
  }

  /** Any checksum with 32-bit values; the formats need no more of it than that it is a function. */
  type Sum = seq<byte> -> nat

  ghost predicate Sums(sum: Sum) { forall s :: sum(s) < U32 }

  /** The bytes of one column value. */
  type Cell = seq<byte>
}
