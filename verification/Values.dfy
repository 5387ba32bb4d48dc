/**
 Values as statements write them and as cells hold them: the bytes that INSERT stores for a literal, and
 the values that the filter and UPDATE read back from them.
 */
module Values {
  import opened LittleEndian
  import opened ColumnBytes
  import Filters

  datatype ColumnType = Int32 | Int64 | Float64 | Bool | VarChar

  function KindOf(ct: ColumnType): Kind {
    match ct
    case Int32 => Fixed(4)
    case Int64 => Fixed(8)
    case Float64 => Fixed(8)
    case Bool => Fixed(1)
    case VarChar => Kind.VarChar
  }

  /** What a DOUBLE's eight bytes stand for. */
  type Doubles = Cell -> real

  /** The bytes of a DOUBLE and the digits of an integer. */
  datatype Formats = Formats(ofReal: real -> Cell, digits: int -> Cell)

  const HALF32: nat := 0x8000_0000
  const HALF64: nat := 0x8000_0000_0000_0000

  /** Two's complement, read and written. */
  function Signed(n: nat, half: nat): int { if n < half then n else n - 2 * half }

  function Unsigned(i: int, half: nat): nat
    requires half > 0
  {
    i % (2 * half)
  }

  /** The cell that INSERT stores for a literal; one that does not apply to the column is stored as zero. */
  function Encode(ct: ColumnType, v: Filters.Value, f: Formats): Cell {
    match ct
    case Int32 => Le(if v.IntValue? then Unsigned(Filters.Cast32(v.i), HALF32) else 0, 4)
    case Int64 => Le(if v.IntValue? then Unsigned(v.i, HALF64) else 0, 8)
    case Float64 => f.ofReal(if v.RealValue? then v.r else if v.IntValue? then v.i as real else 0.0)
    case Bool => if v.IntValue? && v.i != 0 then [1] else [0]
    case VarChar => if v.TextValue? then v.s else if v.IntValue? then f.digits(v.i) else []
  }

  /** bytes_to_value: the value that a cell holds. */
  function ValueOf(ct: ColumnType, cell: Cell, doubles: Doubles): Filters.Value {
    match ct
    case Int32 => Filters.IntValue(Signed(FromLe(cell), HALF32))
    case Int64 => Filters.IntValue(Signed(FromLe(cell), HALF64))
    case Float64 => Filters.RealValue(doubles(cell))
    case Bool => Filters.IntValue(if FromLe(cell) != 0 then 1 else 0)
    case VarChar => Filters.TextValue(cell)
  }

  /** The values that the filter sees in these cells. */
  function Decode(ct: ColumnType, cells: seq<Cell>, doubles: Doubles): Filters.Cells {
    match ct
    case Int32 => Filters.Int32s(seq(|cells|, i requires 0 <= i < |cells| => Signed(FromLe(cells[i]), HALF32)))
    case Int64 => Filters.Int64s(seq(|cells|, i requires 0 <= i < |cells| => Signed(FromLe(cells[i]), HALF64)))
    case Float64 => Filters.Reals(seq(|cells|, i requires 0 <= i < |cells| => doubles(cells[i])))
    case Bool => Filters.Bools
    case VarChar => Filters.Texts(cells)
  }

  lemma {:induction false} FromLeBound(s: seq<byte>)
    ensures FromLe(s) < Pow256(|s|)
  {
    if s != [] { FromLeBound(s[1..]); }
  }

  lemma Quotient(m: int, q: int)
    requires m > 0
    ensures (q <= -2 ==> m * q <= -2 * m) && (q >= 0 ==> m * q >= 0)
  {
  }

  lemma Residue(i: int, m: nat)
    requires m > 0 && 0 <= i < m
    ensures i % m == i && (i - m) % m == i
  {
    var q := (i - m) / m;
    assert i - m == m * q + (i - m) % m;
    Quotient(m, q);
  }

  /** Writing and reading a number of either width gives it back. */
  lemma SignedBack(i: int, half: nat)
    requires half > 0 && 0 - half <= i < half
    ensures Signed(Unsigned(i, half), half) == i
  {
    Residue(if i < 0 then i + 2 * half else i, 2 * half);
  }

  lemma UnsignedBack(n: nat, half: nat)
    requires half > 0 && n < 2 * half
    ensures Unsigned(Signed(n, half), half) == n && 0 - half <= Signed(n, half) < half
  {
    Residue(n, 2 * half);
  }

  lemma {:induction false} IntegerBack(i: int, half: nat, w: nat)
    requires half > 0 && 0 - half <= i < half && 2 * half == Pow256(w)
    ensures Signed(FromLe(Le(Unsigned(i, half), w)), half) == i
  {
    SignedBack(i, half);
    LeRoundTrip(Unsigned(i, half), w);
  }

  // ── What is stored is read back ──

  /** An integer stored in a 32-bit column: itself if it has 32 bits, otherwise what its low 32 bits stand for. */
  lemma {:induction false} StoredInt32(i: int, f: Formats, doubles: Doubles)
    ensures var v := ValueOf(Int32, Encode(Int32, Filters.IntValue(i), f), doubles);
            v.IntValue? && -0x8000_0000 <= v.i < 0x8000_0000 && (v.i - i) % 0x1_0000_0000 == 0
    ensures (FromLe(Encode(Int32, Filters.IntValue(i), f)) - i) % 0x1_0000_0000 == 0
    ensures -0x8000_0000 <= i < 0x8000_0000 ==> ValueOf(Int32, Encode(Int32, Filters.IntValue(i), f), doubles) == Filters.IntValue(i)
  {
    Widths();
    IntegerBack(Filters.Cast32(i), HALF32, 4);
    assert (i + 0x8000_0000) % 0x1_0000_0000 == (i + 0x8000_0000) - 0x1_0000_0000 * ((i + 0x8000_0000) / 0x1_0000_0000);
    assert Filters.Cast32(i) - i == -0x1_0000_0000 * ((i + 0x8000_0000) / 0x1_0000_0000);
    LeRoundTrip(Unsigned(Filters.Cast32(i), HALF32), 4);
  }

  lemma {:induction false} StoredInt64(i: int, f: Formats, doubles: Doubles)
    requires -0x8000_0000_0000_0000 <= i < 0x8000_0000_0000_0000
    ensures ValueOf(Int64, Encode(Int64, Filters.IntValue(i), f), doubles) == Filters.IntValue(i)
    ensures (FromLe(Encode(Int64, Filters.IntValue(i), f)) - i) % 0x1_0000_0000_0000_0000 == 0
  {
    Widths();
    IntegerBack(i, HALF64, 8);
    LeRoundTrip(Unsigned(i, HALF64), 8);
    Congruent(i, 0x1_0000_0000_0000_0000);
  }

  lemma Congruent(i: int, m: int)
    requires m > 0
    ensures (i % m - i) % m == 0
  {
    var q := i / m;
    assert i == m * q + i % m;
    Multiple(-q, m);
    assert i % m - i == m * -q;
  }

  lemma Multiple(q: int, m: int)
    requires m > 0
    ensures (m * q) % m == 0
  {
    var d, r := (m * q) / m, (m * q) % m;
    assert m * q == m * d + r;
    Distribute(m, q, d);
    assert m * (q - d) == r;
    Quotient(m, q - d);
    if q - d >= 1 { assert m * (q - d) == m + m * (q - d - 1); Quotient(m, q - d - 1); }
  }

  lemma Distribute(m: int, q: int, d: int)
    ensures m * (q - d) == m * q - m * d
  {
  }

  /**
   What INSERT stores, as UPDATE reads it: integers of the column's width, truth values, text and DOUBLE
   values come back; an integer in a DOUBLE column as that number; anything that does not apply as zero.
   */
  lemma {:induction false} Stored(ct: ColumnType, v: Filters.Value, f: Formats, doubles: Doubles)
    requires ct.Float64? ==> forall r :: doubles(f.ofReal(r)) == r
    ensures var got := ValueOf(ct, Encode(ct, v, f), doubles);
            && (ct.Int32? && v.IntValue? && -0x8000_0000 <= v.i < 0x8000_0000 ==> got == v)
            && (ct.Int64? && v.IntValue? && -0x8000_0000_0000_0000 <= v.i < 0x8000_0000_0000_0000 ==> got == v)
            && (ct.Bool? && v.IntValue? ==> got == Filters.IntValue(1) || got == Filters.IntValue(0))
            && (ct.Bool? && v.IntValue? ==> (got == Filters.IntValue(0) <==> v.i == 0))
            && (ct.Float64? && v.RealValue? ==> got == v)
            && (ct.Float64? && v.IntValue? ==> got == Filters.RealValue(v.i as real))
            && (ct.VarChar? && v.TextValue? ==> got == v)
            && ((ct.Int32? || ct.Int64? || ct.Bool?) && !v.IntValue? ==> got == Filters.IntValue(0))
            && (ct.Float64? && v.TextValue? ==> got == Filters.RealValue(0.0))
  {
    Widths();
    if ct.Int32? && v.IntValue? {
      StoredInt32(v.i, f, doubles);
    } else if ct.Int64? && v.IntValue? && -0x8000_0000_0000_0000 <= v.i < 0x8000_0000_0000_0000 {
      StoredInt64(v.i, f, doubles);
    } else if ct.Int32? {
      LeRoundTrip(0, 4);
    } else if ct.Int64? && !v.IntValue? {
      LeRoundTrip(0, 8);
    } else if ct.Bool? {
      assert FromLe([1]) == 1 && FromLe([0]) == 0;
    }
  }

  /** What is stored has the width of the column; only text has none. */
  lemma StoredWidth(ct: ColumnType, v: Filters.Value, f: Formats)
    requires forall r :: |f.ofReal(r)| == 8
    ensures KindOf(ct).VarChar? <==> ct.VarChar?
    ensures KindOf(ct).Fixed? ==> |Encode(ct, v, f)| == KindOf(ct).size
  {
  }

  /** A cell as the program writes them: a truth value is 0 or 1, and a DOUBLE survives being read and written. */
  predicate Plain(ct: ColumnType, cell: Cell, f: Formats, doubles: Doubles) {
    && (ct.Bool? ==> cell == [0] || cell == [1])
    && (ct.Float64? ==> f.ofReal(doubles(cell)) == cell)
  }

  /** Reading a cell and storing the value again, as UPDATE does with the other columns, gives the same bytes. */
  lemma {:induction false} Copied(ct: ColumnType, cell: Cell, f: Formats, doubles: Doubles)
    requires Plain(ct, cell, f, doubles) && (KindOf(ct).Fixed? ==> |cell| == KindOf(ct).size)
    ensures Encode(ct, ValueOf(ct, cell, doubles), f) == cell
  {
    Widths();
    match ct
    case Int32 => CopiedInt(cell, HALF32);
    case Int64 => CopiedInt(cell, HALF64);
    case Bool => assert FromLe([1]) == 1 && FromLe([0]) == 0;
    case _ =>
  }

  lemma {:induction false} CopiedInt(cell: Cell, half: nat)
    requires half > 0 && 2 * half == Pow256(|cell|)
    ensures Le(Unsigned(Signed(FromLe(cell), half), half), |cell|) == cell
    ensures 0 - half <= Signed(FromLe(cell), half) < half
  {
    FromLeBound(cell);
    UnsignedBack(FromLe(cell), half);
    FromLeRoundTrip(cell);
  }

  /** The filter sees the values that the cells hold; in a BOOL column it sees none. */
  lemma {:induction false} FilterSees(ct: ColumnType, cells: seq<Cell>, i: nat, doubles: Doubles)
    requires i < |cells|
    ensures match Decode(ct, cells, doubles)
            case Int32s(ints) => ct.Int32? && |ints| == |cells| && ValueOf(ct, cells[i], doubles) == Filters.IntValue(ints[i])
            case Int64s(longs) => ct.Int64? && |longs| == |cells| && ValueOf(ct, cells[i], doubles) == Filters.IntValue(longs[i])
            case Reals(reals) => ct.Float64? && |reals| == |cells| && ValueOf(ct, cells[i], doubles) == Filters.RealValue(reals[i])
            case Texts(texts) => ct.VarChar? && |texts| == |cells| && ValueOf(ct, cells[i], doubles) == Filters.TextValue(texts[i])
            case Bools => ct.Bool?
  {
  }
}
