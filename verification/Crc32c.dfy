/** The page checksum: CRC32C, as section 12.1 of RFC 3720 uses it, computed a byte at a time from a table. */
module Crc32c {
  import opened CrcTable
  import opened Registers

  type Byte = bv8

  const ONES: bv32 := 0xFFFF_FFFF

  function Wide(b: Byte): bv32 { b as bv32 }

  /** The loop body: the low byte picks the entry, the rest moves down. */
  function Step(crc: bv32, b: Byte): bv32 { Entry((crc ^ Wide(b)) & 0xFF) ^ (crc >> 8) }

  /** The register after the data. */
  function Fold(crc: bv32, data: seq<Byte>): bv32 {
    if data == [] then crc else Step(Fold(crc, data[..|data| - 1]), data[|data| - 1])
  }

  function Inverted(c: bv32): bv32 { c ^ ONES }

  function Crc(data: seq<Byte>, start: bv32): bv32 { Inverted(Fold(start, data)) }

  method Compute(data: seq<Byte>, start: bv32) returns (crc: bv32)
    ensures crc == Crc(data, start)
  {
    crc := start;
    for i := 0 to |data|
      invariant crc == Fold(start, data[..i])
    {
      crc := Step(crc, data[i]);
      assert data[..i + 1][..i] == data[..i];
    }
    assert data[..|data|] == data;
    crc := Inverted(crc);
  }

  // ── The laws, bit by bit and then byte by byte ──

  function Xor(a: bv32, b: bv32): bv32 { a ^ b }
  function Up(w: bv32): bv32 { w << 8 }

  const BIT: Ops<bv32> := Ops(Xor, Bit, (w: bv32) => w << 1, (w: bv32) => w <= 0x7FFF_FFFF)
  const BYTE: Ops<bv32> := Ops(Xor, Bits, Up, (w: bv32) => w <= 0xFF_FFFF)

  lemma HalfAbsorbs(y: bv32, w: bv32)
    requires w <= 0x7FFF_FFFF
    ensures (y ^ (w << 1)) >> 1 == (y >> 1) ^ w
  {
  }

  lemma LowAbsorbs(y: bv32, w: bv32)
    ensures (y ^ (w << 1)) & 1 == y & 1
  {
  }

  lemma XorLast(a: bv32, w: bv32, p: bv32)
    ensures (a ^ w) ^ p == (a ^ p) ^ w
  {
  }

  lemma BitOdd(c: bv32, h: bv32)
    requires c & 1 == 1 && h == c >> 1
    ensures Bit(c) == h ^ 0x82F63B78
  {
  }

  lemma BitEven(c: bv32, h: bv32)
    requires c & 1 == 0 && h == c >> 1
    ensures Bit(c) == h
  {
  }

  lemma LowBit(c: bv32)
    ensures c & 1 == 0 || c & 1 == 1
  {
  }

  lemma BitAbsorbs(y: bv32, w: bv32, z: bv32)
    requires w <= 0x7FFF_FFFF && z == y ^ (w << 1)
    ensures Bit(z) == Bit(y) ^ w
  {
    HalfAbsorbs(y, w);
    LowAbsorbs(y, w);
    LowBit(y);
    XorLast(y >> 1, w, 0x82F63B78);
    if y & 1 == 1 {
      BitOdd(y, y >> 1);
      BitOdd(z, z >> 1);
    } else {
      BitEven(y, y >> 1);
      BitEven(z, z >> 1);
    }
  }

  lemma BitInjective(x: bv32, y: bv32)
    requires Bit(x) == Bit(y)
    ensures x == y
  {
  }

  lemma XorCancels(x: bv32, y: bv32, w: bv32)
    requires x ^ w == y ^ w
    ensures x == y
  {
  }

  lemma BitAbsorbsAt(y: bv32, w: bv32)
    ensures AbsorbsAt(BIT, y, w)
  {
    var z := y ^ (w << 1);
    BitOps(y);
    BitOps(z);
    BitMoves(w);
    if w <= 0x7FFF_FFFF { BitAbsorbs(y, w, z); }
  }

  lemma BitOps(y: bv32)
    ensures BIT.divide(y) == Bit(y)
  {
  }

  lemma BitMoves(w: bv32)
    ensures BIT.up(w) == w << 1 && BIT.low(w) == (w <= 0x7FFF_FFFF)
  {
  }

  lemma BitInjectiveAt(x: bv32, y: bv32)
    ensures InjectiveAt(BIT, x, y)
  {
    if Bit(x) == Bit(y) { BitInjective(x, y); }
  }

  lemma XorCancelsAt(x: bv32, y: bv32, w: bv32)
    ensures CancelsAt(BIT, x, y, w)
  {
    if x ^ w == y ^ w { XorCancels(x, y, w); }
  }

  lemma BitLaws()
    ensures Laws(BIT)
  {
    forall y, w ensures AbsorbsAt(BIT, y, w) { BitAbsorbsAt(y, w); }
    forall x, y ensures InjectiveAt(BIT, x, y) { BitInjectiveAt(x, y); }
    forall x, y, w ensures CancelsAt(BIT, x, y, w) { XorCancelsAt(x, y, w); }
  }

  lemma FourShifts(w: bv32)
    ensures (((w << 1) << 1) << 1) << 1 == w << 4 && (w << 4) << 4 == w << 8
  {
  }

  lemma UpIsFour(w: bv32)
    ensures Up4(BIT, w) == w << 4
  {
    FourShifts(w);
  }

  lemma LowShifts(w: bv32)
    requires w <= 0xFF_FFFF
    ensures Low4(BIT, w) && Low4(BIT, Up4(BIT, w))
  {
  }

  lemma UpIsEight(w: bv32, v: bv32, u: bv32)
    requires v == w << 4 && u == v << 4
    ensures Up4(BIT, Up4(BIT, w)) == u && BYTE.up(w) == u
  {
    UpIsFour(w);
    UpIsFour(v);
    FourShifts(w);
  }

  lemma DivideIsEight(w: bv32)
    ensures BYTE.divide(w) == Div8(BIT, w)
  {
  }

  lemma ByteIsEight(w: bv32)
    ensures EightAt(BIT, BYTE, w)
  {
    UpIsEight(w, w << 4, (w << 4) << 4);
    DivideIsEight(w);
    if w <= 0xFF_FFFF { LowShifts(w); }
  }

  lemma ByteLaws()
    ensures Laws(BYTE)
  {
    BitLaws();
    forall w ensures EightAt(BIT, BYTE, w) { ByteIsEight(w); }
    forall x, y ensures XorAt(BIT, BYTE, x, y) {}
    EightLaws(BIT, BYTE);
  }

  // ── The step ──

  lemma SplitLow(x: bv32, crc: bv32, b: Byte)
    requires x == crc ^ Wide(b)
    ensures x == (x & 0xFF) ^ ((crc >> 8) << 8)
  {
  }

  lemma LowRanges(x: bv32, crc: bv32)
    ensures crc >> 8 <= 0xFF_FFFF && x & 0xFF <= 0xFF
  {
  }

  lemma EntryDivides(i: bv32)
    requires i <= 0xFF
    ensures Entry(i) == BYTE.divide(i)
  {
    EntryIsBits(i);
  }

  lemma ByteXor(a: bv32, b: bv32, c: bv32)
    requires c == a ^ b
    ensures BYTE.xor(a, b) == c
  {
  }

  lemma ByteUp(w: bv32, u: bv32)
    requires u == w << 8
    ensures BYTE.up(w) == u
  {
  }

  lemma StepIs(crc: bv32, b: Byte, lo: bv32, hi: bv32, e: bv32, r: bv32)
    requires lo == (crc ^ Wide(b)) & 0xFF && hi == crc >> 8 && e == Entry(lo) && r == e ^ hi
    ensures Step(crc, b) == r
  {
  }

  lemma ByteSplit(x: bv32, lo: bv32, hi: bv32, up: bv32)
    requires x == lo ^ up && up == hi << 8
    ensures up == BYTE.up(hi) && x == BYTE.xor(lo, up)
  {
    ByteUp(hi, up);
    ByteXor(lo, up, x);
  }

  lemma ByteLow(w: bv32)
    requires w <= 0xFF_FFFF
    ensures BYTE.low(w)
  {
  }

  lemma EntrySum(x: bv32, lo: bv32, hi: bv32, up: bv32)
    requires x == lo ^ up && up == hi << 8 && hi <= 0xFF_FFFF && lo <= 0xFF
    ensures BYTE.xor(Entry(lo), hi) == BYTE.divide(x)
  {
    ByteSplit(x, lo, hi, up);
    ByteLow(hi);
    EntryDivides(lo);
    ByteLaws();
    TableDivides(BYTE, Entry, x, lo, hi);
  }

  lemma EntrySums(x: bv32, lo: bv32, hi: bv32, up: bv32, e: bv32, r: bv32)
    requires x == lo ^ up && up == hi << 8 && hi <= 0xFF_FFFF && lo <= 0xFF && e == Entry(lo) && r == e ^ hi
    ensures r == Bits(x)
  {
    EntrySum(x, lo, hi, up);
    ByteXor(e, hi, r);
  }

  /** The table-driven step is eight bit steps of division of the register with the byte mixed in. */
  lemma StepDivides(crc: bv32, b: Byte, x: bv32)
    requires x == crc ^ Wide(b)
    ensures Step(crc, b) == Bits(x)
  {
    var lo, hi := x & 0xFF, crc >> 8;
    var up, e := hi << 8, Entry(lo);
    var r := e ^ hi;
    SplitLow(x, crc, b);
    LowRanges(x, crc);
    EntrySums(x, lo, hi, up, e, r);
    StepIs(crc, b, lo, hi, e, r);
  }

  // ── Data, as words for the register ──

  function Words(data: seq<Byte>): (ws: seq<bv32>)
    ensures |ws| == |data|
  {
    if data == [] then [] else Words(data[..|data| - 1]) + [Wide(data[|data| - 1])]
  }

  lemma StepIsRun(c: bv32, b: Byte, w: bv32)
    requires w == Wide(b)
    ensures Step(c, b) == BYTE.divide(BYTE.xor(c, w))
  {
    StepDivides(c, b, c ^ w);
    ByteXor(c, w, c ^ w);
  }

  /** The checksum loop feeds the bytes to the register. */
  lemma {:induction false} FoldIsRun(c: bv32, data: seq<Byte>)
    ensures Fold(c, data) == Run(BYTE, c, Words(data))
  {
    if data != [] {
      var n := |data| - 1;
      FoldIsRun(c, data[..n]);
      var r, ws := Fold(c, data[..n]), Words(data);
      assert ws[..n] == Words(data[..n]);
      StepIsRun(r, data[n], ws[n]);
    }
  }

  lemma {:induction false} FoldConcat(c: bv32, a: seq<Byte>, b: seq<Byte>)
    ensures Fold(c, a + b) == Fold(Fold(c, a), b)
    decreases |b|
  {
    if b == [] {
      assert a + b == a;
    } else {
      var n := |b| - 1;
      assert (a + b)[..|a + b| - 1] == a + b[..n];
      FoldConcat(c, a, b[..n]);
    }
  }

  /** Checksumming a part and then the rest, from the inverted result, is checksumming the whole. */
  lemma {:induction false} Chained(a: seq<Byte>, b: seq<Byte>, start: bv32)
    ensures Crc(b, Inverted(Crc(a, start))) == Crc(a + b, start)
  {
    FoldConcat(start, a, b);
    Twice(Fold(start, a));
  }

  lemma Twice(c: bv32)
    ensures Inverted(Inverted(c)) == c
  {
  }

  // ── Bursts ──

  lemma {:induction false} FoldInjective(c: bv32, d: bv32, data: seq<Byte>)
    requires Fold(c, data) == Fold(d, data)
    ensures c == d
  {
    FoldIsRun(c, data);
    FoldIsRun(d, data);
    ByteLaws();
    RunInjective(BYTE, c, d, Words(data));
  }

  lemma FourLow(w: bv32)
    requires w <= 0xFF
    ensures BYTE.low(w) && BYTE.low(BYTE.up(w)) && BYTE.low(BYTE.up(BYTE.up(w)))
  {
  }

  function Packed(c: bv32, b0: Byte, b1: Byte, b2: Byte, b3: Byte): bv32 {
    Chain(c, Wide(b0), Up(Wide(b1)), Up(Up(Wide(b2))), Up(Up(Up(Wide(b3)))))
  }

  lemma XorIs(a: bv32, b: bv32, c: bv32)
    requires c == a ^ b
    ensures Xor(a, b) == c
  {
  }

  /** The register with four words mixed in, one after the other. */
  predicate Mixes(c: bv32, w0: bv32, w1: bv32, w2: bv32, w3: bv32, p0: bv32, p1: bv32, p2: bv32, r: bv32) {
    p0 == c ^ w0 && p1 == p0 ^ w1 && p2 == p1 ^ w2 && r == p2 ^ w3
  }

  function Chain(c: bv32, w0: bv32, w1: bv32, w2: bv32, w3: bv32): bv32 { Xor(Xor(Xor(Xor(c, w0), w1), w2), w3) }

  lemma ChainMixes(c: bv32, w0: bv32, w1: bv32, w2: bv32, w3: bv32, p0: bv32, p1: bv32, p2: bv32, r: bv32)
    requires Mixes(c, w0, w1, w2, w3, p0, p1, p2, r)
    ensures Chain(c, w0, w1, w2, w3) == r
  {
    XorIs(c, w0, p0);
    XorIs(p0, w1, p1);
    XorIs(p1, w2, p2);
    XorIs(p2, w3, r);
  }

  lemma ChainAs(c: bv32, w0: bv32, w1: bv32, w2: bv32, w3: bv32) returns (p0: bv32, p1: bv32, p2: bv32, r: bv32)
    ensures Mixes(c, w0, w1, w2, w3, p0, p1, p2, r)
    ensures Chain(c, w0, w1, w2, w3) == r
  {
    p0 := c ^ w0;
    p1 := p0 ^ w1;
    p2 := p1 ^ w2;
    r := p2 ^ w3;
    ChainMixes(c, w0, w1, w2, w3, p0, p1, p2, r);
  }

  lemma ChainInjective(c: bv32, a0: bv32, a1: bv32, a2: bv32, a3: bv32, b0: bv32, b1: bv32, b2: bv32, b3: bv32)
    requires Apart(a0, a1, a2, a3) && Apart(b0, b1, b2, b3)
    requires Chain(c, a0, a1, a2, a3) == Chain(c, b0, b1, b2, b3)
    ensures a0 == b0 && a1 == b1 && a2 == b2 && a3 == b3
  {
    var p0, p1, p2, r := ChainAs(c, a0, a1, a2, a3);
    var q0, q1, q2, s := ChainAs(c, b0, b1, b2, b3);
    MixesInjective(c, a0, a1, a2, a3, p0, p1, p2, b0, b1, b2, b3, q0, q1, q2, r);
  }

  predicate Apart(w0: bv32, w1: bv32, w2: bv32, w3: bv32) {
    w0 & 0xFF == w0 && w1 & 0xFF00 == w1 && w2 & 0xFF_0000 == w2 && w3 & 0xFF00_0000 == w3
  }

  lemma MixesInjective(c: bv32, a0: bv32, a1: bv32, a2: bv32, a3: bv32, p0: bv32, p1: bv32, p2: bv32,
                       b0: bv32, b1: bv32, b2: bv32, b3: bv32, q0: bv32, q1: bv32, q2: bv32, r: bv32)
    requires Apart(a0, a1, a2, a3) && Apart(b0, b1, b2, b3)
    requires Mixes(c, a0, a1, a2, a3, p0, p1, p2, r) && Mixes(c, b0, b1, b2, b3, q0, q1, q2, r)
    ensures a0 == b0 && a1 == b1 && a2 == b2 && a3 == b3
  {
  }

  lemma WidesApart(b0: Byte, b1: Byte, b2: Byte, b3: Byte)
    ensures Apart(Wide(b0), Up(Wide(b1)), Up(Up(Wide(b2))), Up(Up(Up(Wide(b3)))))
  {
  }

  lemma UpInjective(a: Byte, b: Byte)
    ensures Wide(a) == Wide(b) ==> a == b
    ensures Up(Wide(a)) == Up(Wide(b)) ==> a == b
    ensures Up(Up(Wide(a))) == Up(Up(Wide(b))) ==> a == b
    ensures Up(Up(Up(Wide(a)))) == Up(Up(Up(Wide(b)))) ==> a == b
  {
  }

  lemma PackedInjective(c: bv32, a0: Byte, a1: Byte, a2: Byte, a3: Byte, b0: Byte, b1: Byte, b2: Byte, b3: Byte)
    requires Packed(c, a0, a1, a2, a3) == Packed(c, b0, b1, b2, b3)
    ensures a0 == b0 && a1 == b1 && a2 == b2 && a3 == b3
  {
    WidesApart(a0, a1, a2, a3);
    WidesApart(b0, b1, b2, b3);
    ChainInjective(c, Wide(a0), Up(Wide(a1)), Up(Up(Wide(a2))), Up(Up(Up(Wide(a3)))),
                   Wide(b0), Up(Wide(b1)), Up(Up(Wide(b2))), Up(Up(Up(Wide(b3)))));
    UpInjective(a0, b0);
    UpInjective(a1, b1);
    UpInjective(a2, b2);
    UpInjective(a3, b3);
  }

  lemma MixedIsPacked(c: bv32, b0: Byte, b1: Byte, b2: Byte, b3: Byte)
    ensures Mixed(BYTE, c, Wide(b0), Wide(b1), Wide(b2), Wide(b3)) == Packed(c, b0, b1, b2, b3)
  {
  }

  lemma WideSmall(b: Byte)
    ensures Wide(b) <= 0xFF
  {
  }

  lemma {:induction false} RunPacked(c: bv32, b0: Byte, b1: Byte, b2: Byte, b3: Byte)
    ensures Run(BYTE, c, [Wide(b0), Wide(b1), Wide(b2), Wide(b3)]) == Four(BYTE, Packed(c, b0, b1, b2, b3))
  {
    WideSmall(b1);
    WideSmall(b2);
    WideSmall(b3);
    FourLow(Wide(b1));
    FourLow(Wide(b2));
    FourLow(Wide(b3));
    ByteLaws();
    RunFour(BYTE, c, Wide(b0), Wide(b1), Wide(b2), Wide(b3));
    MixedIsPacked(c, b0, b1, b2, b3);
  }

  lemma {:induction false} WordsFour(x: seq<Byte>)
    requires |x| == 4
    ensures Words(x) == [Wide(x[0]), Wide(x[1]), Wide(x[2]), Wide(x[3])]
  {
    forall i: nat | i < 4 ensures Words(x)[i] == Wide(x[i]) { WordAt(x, i); }
  }

  lemma {:induction false} WordAt(x: seq<Byte>, i: nat)
    requires i < |x|
    ensures Words(x)[i] == Wide(x[i])
  {
    if i < |x| - 1 { WordAt(x[..|x| - 1], i); }
  }

  lemma {:induction false} FourBytes(c: bv32, x: seq<Byte>, y: seq<Byte>)
    requires |x| == |y| == 4 && Fold(c, x) == Fold(c, y)
    ensures x == y
  {
    FoldIsRun(c, x);
    FoldIsRun(c, y);
    WordsFour(x);
    WordsFour(y);
    RunPacked(c, x[0], x[1], x[2], x[3]);
    RunPacked(c, y[0], y[1], y[2], y[3]);
    ByteLaws();
    FourInjective(BYTE, Packed(c, x[0], x[1], x[2], x[3]), Packed(c, y[0], y[1], y[2], y[3]));
    PackedInjective(c, x[0], x[1], x[2], x[3], y[0], y[1], y[2], y[3]);
  }

  /** Up to four bytes are told apart by the register. */
  lemma {:induction false} FewBytes(c: bv32, x: seq<Byte>, y: seq<Byte>)
    requires |x| == |y| <= 4 && Fold(c, x) == Fold(c, y)
    ensures x == y
    decreases 4 - |x|
  {
    if |x| == 4 {
      FourBytes(c, x, y);
    } else {
      FoldConcat(c, x, [0]);
      FoldConcat(c, y, [0]);
      FewBytes(c, x + [0], y + [0]);
      assert x == (x + [0])[..|x|] && y == (y + [0])[..|y|];
    }
  }

  /** A change confined to four bytes in a row, anywhere in data of any length, changes the checksum. */
  lemma {:induction false} BurstDetected(before: seq<Byte>, x: seq<Byte>, y: seq<Byte>, after: seq<Byte>, start: bv32)
    requires |x| == |y| <= 4 && x != y
    ensures Crc(before + x + after, start) != Crc(before + y + after, start)
  {
    if Crc(before + x + after, start) == Crc(before + y + after, start) {
      Uninverted(Fold(start, before + x + after), Fold(start, before + y + after));
      FoldConcat(start, before + x, after);
      FoldConcat(start, before + y, after);
      FoldInjective(Fold(start, before + x), Fold(start, before + y), after);
      FoldConcat(start, before, x);
      FoldConcat(start, before, y);
      FewBytes(Fold(start, before), x, y);
    }
  }

  lemma Uninverted(c: bv32, d: bv32)
    requires Inverted(c) == Inverted(d)
    ensures c == d
  {
  }

  lemma Next(c: bv32, a: seq<Byte>, b: Byte, m: bv32, d: bv32)
    requires Fold(c, a) == m && Step(m, b) == d
    ensures Fold(c, a + [b]) == d
  {
    assert (a + [b])[..|a|] == a;
  }

  lemma Three(c: bv32, a: Byte, b: Byte, d: Byte, c1: bv32, c2: bv32, c3: bv32)
    requires Step(c, a) == c1 && Step(c1, b) == c2 && Step(c2, d) == c3
    ensures Fold(c, [a, b, d]) == c3
  {
    var one, two := [] + [a], [a] + [b];
    Next(c, [], a, c, c1);
    Next(c, one, b, c1, c2);
    Next(c, two, d, c2, c3);
    assert [a, b, d] == two + [d];
  }

  lemma Digits123()
    ensures Fold(ONES, [0x31, 0x32, 0x33]) == 0xEF84_D04D
  {
    Three(ONES, 0x31, 0x32, 0x33, 0x6F0A_661C, 0x8CAA_3B9F, 0xEF84_D04D);
  }

  lemma Digits456()
    ensures Fold(0xEF84_D04D, [0x34, 0x35, 0x36]) == 0xBECA_8E79
  {
    Three(0xEF84_D04D, 0x34, 0x35, 0x36, 0x09C5_0B11, 0xE72E_DCCA, 0xBECA_8E79);
  }

  lemma Digits789()
    ensures Fold(0xBECA_8E79, [0x37, 0x38, 0x39]) == 0x1CF9_6D7C
  {
    Three(0xBECA_8E79, 0x37, 0x38, 0x39, 0xEDBD_6815, 0x9F78_7F65, 0x1CF9_6D7C);
  }

  /** The check value of CRC32C: the checksum of the nine digits "123456789". */
  lemma {:induction false} CheckValue()
    ensures Crc([0x31, 0x32, 0x33] + [0x34, 0x35, 0x36] + [0x37, 0x38, 0x39], ONES) == 0xE306_9283
  {
    Digits123();
    Digits456();
    Digits789();
    FoldConcat(ONES, [0x31, 0x32, 0x33], [0x34, 0x35, 0x36]);
    FoldConcat(ONES, [0x31, 0x32, 0x33] + [0x34, 0x35, 0x36], [0x37, 0x38, 0x39]);
  }
}
