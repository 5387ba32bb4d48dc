/** WHERE filtering: AND/OR trees of column predicates, evaluated column by column to lists of rows. */
module Filters {
  import opened Options
  import opened Sequences
  import opened Simd
  import LittleEndian

  datatype Status = NotFound
  datatype Result<+T> = Ok(value: T) | Err(error: Status)

  /** Text is bytes. */
  type Text = seq<LittleEndian.byte>

  datatype Value = IntValue(i: int) | RealValue(r: real) | TextValue(s: Text)

  /** BOOLEAN columns are Bools: no literal applies to them. */
  datatype Cells = Int32s(ints: seq<int>) | Int64s(longs: seq<int>) | Reals(reals: seq<real>) | Texts(texts: seq<Text>) | Bools

  /** The null bitmap has a bit per row, eight to a byte, when there is one. */
  datatype Column = Column(cells: Cells, nulls: Option<Text>)

  datatype CmpOp = Is(op: Op) | Ne | In
  datatype Pred = Pred(column: string, op: CmpOp, value: Value, values: seq<Value>)
  datatype Expr = Atom(pred: Pred) | And(left: Expr, right: Expr) | Or(left: Expr, right: Expr)

  datatype Scan = Scan(names: seq<string>, columns: seq<Column>, rows: nat)

  ghost predicate ColumnOk(c: Column, rows: nat) {
    && (c.cells.Int32s? ==> |c.cells.ints| == rows && forall i :: 0 <= i < rows ==> Fits(c.cells.ints[i]))
    && (c.cells.Int64s? ==> |c.cells.longs| == rows)
    && (c.cells.Reals? ==> |c.cells.reals| == rows)
    && (c.cells.Texts? ==> |c.cells.texts| == rows)
    && (c.nulls.Some? ==> rows <= 8 * |c.nulls.value|)
  }

  ghost predicate Valid(s: Scan) {
    |s.names| == |s.columns| && forall k :: 0 <= k < |s.columns| ==> ColumnOk(s.columns[k], s.rows)
  }

  // ── 32-bit literals ──

  const MIN32 := -0x8000_0000
  const MAX32 := 0x7FFF_FFFF

  predicate Fits(v: int) { MIN32 <= v <= MAX32 }

  /** The conversion of a literal to 32 bits. */
  function Cast32(v: int): (r: int)
    ensures Fits(r) && (Fits(v) ==> r == v)
  {
    (v - MIN32) % 0x1_0000_0000 + MIN32
  }

  /** Whether comparing with the cast literal is the comparison meant, whatever the column holds. */
  predicate CastSafe(op: Op, v: int) {
    || Fits(v)
    || (v > MAX32 && Cast32(v) == MAX32 && (op == Gt || op == Le))
    || (v < MIN32 && Cast32(v) == MIN32 && (op == Lt || op == Ge))
  }

  /** Comparing with the cast literal is right for every 32-bit value if and only if the literal is safe. */
  lemma CastExact(op: Op, v: int)
    ensures CastSafe(op, v) <==> forall x :: Fits(x) ==> (Matches(op, x, Cast32(v)) <==> Matches(op, x, v))
  {
    if !CastSafe(op, v) {
      var c := Cast32(v);
      var x := match op
        case Eq => c
        case Gt => if v > MAX32 then MAX32 else MIN32
        case Le => if v > MAX32 then MAX32 else MIN32
        case Lt => if v > MAX32 then MAX32 else MIN32
        case Ge => if v > MAX32 then MAX32 else MIN32;
      assert Fits(x) && Matches(op, x, c) != Matches(op, x, v);
    }
  }

  // ── What a row has to satisfy ──

  predicate IsNull(c: Column, i: nat)
    requires c.nulls.Some? ==> i < 8 * |c.nulls.value|
  {
    c.nulls.Some? && Bit(c.nulls.value[i / 8], i % 8)
  }

  /** Byte-wise lexicographic order. */
  predicate TextLess(a: Text, b: Text) {
    b != [] && (a == [] || a[0] < b[0] || (a[0] == b[0] && TextLess(a[1..], b[1..])))
  }

  predicate TextMatches(op: Op, a: Text, b: Text) {
    match op
    case Eq => a == b
    case Gt => TextLess(b, a)
    case Lt => TextLess(a, b)
    case Ge => !TextLess(a, b)
    case Le => !TextLess(b, a)
  }

  predicate RealMatches(op: Op, x: real, v: real) {
    match op
    case Eq => x == v
    case Gt => x > v
    case Lt => x < v
    case Ge => x >= v
    case Le => x <= v
  }

  predicate IntIn(x: int, vs: seq<Value>) { IntValue(x) in vs }
  predicate TextIn(x: Text, vs: seq<Value>) { TextValue(x) in vs }
  predicate CastIn(x: int, vs: seq<Value>) { exists v :: v in vs && v.IntValue? && Cast32(v.i) == x }

  /** The predicate on one integer; a literal of another type matches nothing. */
  predicate IntHolds(p: Pred, x: int) {
    match p.op
    case In => IntIn(x, p.values)
    case Ne => p.value.IntValue? && x != p.value.i
    case Is(op) => p.value.IntValue? && Matches(op, x, p.value.i)
  }

  /** As coded for 32-bit columns: the literals are cast, except for inequality. */
  predicate CastHolds(p: Pred, x: int) {
    match p.op
    case In => CastIn(x, p.values)
    case Ne => p.value.IntValue? && x != p.value.i
    case Is(op) => p.value.IntValue? && Matches(op, x, Cast32(p.value.i))
  }

  /** Inequality of DOUBLE values is coded with a tolerance, equality without one. */
  const TOLERANCE := 0.000000000001

  function Distance(x: real, y: real): real { if x < y then y - x else x - y }

  predicate RealHolds(p: Pred, x: real) {
    match p.op
    case In => RealValue(x) in p.values
    case Ne => p.value.RealValue? && Distance(x, p.value.r) >= TOLERANCE
    case Is(op) => p.value.RealValue? && RealMatches(op, x, p.value.r)
  }

  predicate TextHolds(p: Pred, x: Text) {
    match p.op
    case In => TextIn(x, p.values)
    case Ne => p.value.TextValue? && x != p.value.s
    case Is(op) => p.value.TextValue? && TextMatches(op, x, p.value.s)
  }

  /** A DOUBLE value very close to the literal, but not equal, is selected neither by = nor by <>. */
  lemma NeitherSelected(x: real, v: real, column: string)
    ensures !RealHolds(Pred(column, Is(Eq), RealValue(v), []), x) && !RealHolds(Pred(column, Ne, RealValue(v), []), x) <==>
            x != v && Distance(x, v) < TOLERANCE
  {
  }

  /** Row i satisfies the predicate; with the literals cast as coded, or as written. */
  predicate Holds(c: Column, rows: nat, p: Pred, i: nat, cast: bool)
    requires ColumnOk(c, rows) && i < rows
  {
    && !IsNull(c, i)
    && match c.cells
       case Int32s(ints) => if cast then CastHolds(p, ints[i]) else IntHolds(p, ints[i])
       case Int64s(longs) => IntHolds(p, longs[i])
       case Reals(reals) => RealHolds(p, reals[i])
       case Texts(texts) => TextHolds(p, texts[i])
       case Bools => false
  }

  /** The position of the first column of that name. */
  function Position(names: seq<string>, name: string): (k: Option<nat>)
    ensures k.Some? <==> name in names
    ensures k.Some? ==> k.value < |names| && names[k.value] == name && name !in names[..k.value]
  {
    if names == [] then None
    else if names[0] == name then Some(0)
    else
      var k := Position(names[1..], name);
      if k.Some? then Some(k.value + 1) else None
  }

  predicate Resolves(s: Scan, e: Expr) {
    match e
    case Atom(p) => p.column in s.names
    case And(l, r) => Resolves(s, l) && Resolves(s, r)
    case Or(l, r) => Resolves(s, l) && Resolves(s, r)
  }

  /** The pointwise meaning of a tree. */
  predicate Satisfies(s: Scan, e: Expr, i: nat, cast: bool)
    requires Valid(s) && Resolves(s, e) && i < s.rows
  {
    match e
    case Atom(p) => Holds(s.columns[Position(s.names, p.column).value], s.rows, p, i, cast)
    case And(l, r) => Satisfies(s, l, i, cast) && Satisfies(s, r, i, cast)
    case Or(l, r) => Satisfies(s, l, i, cast) || Satisfies(s, r, i, cast)
  }

  /** The list of exactly the satisfying rows, ascending. */
  ghost predicate Selects(out: seq<nat>, s: Scan, e: Expr)
    requires Valid(s) && Resolves(s, e)
  {
    Ascending(out) && forall i: nat :: i in out <==> i < s.rows && Satisfies(s, e, i, true)
  }

  // ── Lists of rows ──

  /** set_intersection and set_union over ascending lists. */
  function Intersection(a: seq<nat>, b: seq<nat>): seq<nat>
    decreases |a| + |b|
  {
    if a == [] || b == [] then []
    else if a[0] < b[0] then Intersection(a[1..], b)
    else if b[0] < a[0] then Intersection(a, b[1..])
    else [a[0]] + Intersection(a[1..], b[1..])
  }

  function Union(a: seq<nat>, b: seq<nat>): seq<nat>
    decreases |a| + |b|
  {
    if a == [] then b
    else if b == [] then a
    else if a[0] < b[0] then [a[0]] + Union(a[1..], b)
    else if b[0] < a[0] then [b[0]] + Union(a, b[1..])
    else [a[0]] + Union(a[1..], b[1..])
  }

  ghost predicate AllAbove(x: nat, s: seq<nat>) { forall y :: y in s ==> x < y }

  lemma {:induction false} AscendingHead(s: seq<nat>)
    requires Ascending(s) && s != []
    ensures Ascending(s[1..]) && AllAbove(s[0], s[1..])
    ensures forall x :: x in s <==> x == s[0] || x in s[1..]
  {
    assert s == [s[0]] + s[1..];
  }

  lemma {:induction false} AscendingCons(x: nat, s: seq<nat>)
    requires Ascending(s) && AllAbove(x, s)
    ensures Ascending([x] + s)
  {
    var t := [x] + s;
    forall i, j | 0 <= i < j < |t| ensures t[i] < t[j] {
      assert t[j] in s;
    }
  }

  ghost predicate Meets(out: seq<nat>, a: seq<nat>, b: seq<nat>) {
    Ascending(out) && forall x :: x in out <==> x in a && x in b
  }

  lemma {:induction false} MeetsSkip(out: seq<nat>, a: seq<nat>, b: seq<nat>)
    requires a != [] && b != [] && Ascending(a) && Ascending(b) && a[0] < b[0] && Meets(out, a[1..], b)
    ensures Meets(out, a, b) && Meets(out, b, a)
  {
    AscendingHead(a);
    AscendingHead(b);
  }

  lemma {:induction false} MeetsBoth(out: seq<nat>, a: seq<nat>, b: seq<nat>)
    requires a != [] && b != [] && Ascending(a) && Ascending(b) && a[0] == b[0] && Meets(out, a[1..], b[1..])
    ensures Meets([a[0]] + out, a, b)
  {
    AscendingHead(a);
    AscendingHead(b);
    AscendingCons(a[0], out);
  }

  lemma {:induction false} IntersectionMeans(a: seq<nat>, b: seq<nat>)
    requires Ascending(a) && Ascending(b)
    ensures Meets(Intersection(a, b), a, b)
    decreases |a| + |b|
  {
    if a != [] && b != [] {
      AscendingHead(a);
      AscendingHead(b);
      if a[0] < b[0] {
        IntersectionMeans(a[1..], b);
        MeetsSkip(Intersection(a[1..], b), a, b);
      } else if b[0] < a[0] {
        IntersectionMeans(a, b[1..]);
        assert Meets(Intersection(a, b[1..]), b[1..], a);
        MeetsSkip(Intersection(a, b[1..]), b, a);
      } else {
        IntersectionMeans(a[1..], b[1..]);
        MeetsBoth(Intersection(a[1..], b[1..]), a, b);
      }
    }
  }

  ghost predicate Joins(out: seq<nat>, a: seq<nat>, b: seq<nat>) {
    Ascending(out) && forall x :: x in out <==> x in a || x in b
  }

  lemma {:induction false} JoinsFirst(out: seq<nat>, a: seq<nat>, b: seq<nat>)
    requires a != [] && b != [] && Ascending(a) && Ascending(b) && a[0] < b[0] && Joins(out, a[1..], b)
    ensures Joins([a[0]] + out, a, b) && Joins([a[0]] + out, b, a)
  {
    AscendingHead(a);
    AscendingHead(b);
    AscendingCons(a[0], out);
  }

  lemma {:induction false} JoinsBoth(out: seq<nat>, a: seq<nat>, b: seq<nat>)
    requires a != [] && b != [] && Ascending(a) && Ascending(b) && a[0] == b[0] && Joins(out, a[1..], b[1..])
    ensures Joins([a[0]] + out, a, b)
  {
    AscendingHead(a);
    AscendingHead(b);
    AscendingCons(a[0], out);
  }

  lemma {:induction false} UnionMeans(a: seq<nat>, b: seq<nat>)
    requires Ascending(a) && Ascending(b)
    ensures Joins(Union(a, b), a, b)
    decreases |a| + |b|
  {
    if a != [] && b != [] {
      AscendingHead(a);
      AscendingHead(b);
      if a[0] < b[0] {
        UnionMeans(a[1..], b);
        JoinsFirst(Union(a[1..], b), a, b);
      } else if b[0] < a[0] {
        UnionMeans(a, b[1..]);
        assert Joins(Union(a, b[1..]), b[1..], a);
        JoinsFirst(Union(a, b[1..]), b, a);
      } else {
        UnionMeans(a[1..], b[1..]);
        JoinsBoth(Union(a[1..], b[1..]), a, b);
      }
    }
  }

  // ── Evaluation ──

  /** What the processor offers. */
  datatype Cpu = Avx512 | Avx2 | Plain

  /** The dispatcher: whichever kernel runs, the result is the same. */
  method FilterInts(data: seq<int>, v: int, op: Op, wide: bool, cpu: Cpu) returns (out: seq<nat>)
    ensures out == Matching(data, v, op, |data|)
  {
    match cpu
    case Avx512 => out := FilterAvx512(data, v, op, if wide then 8 else 16);
    case Avx2 => out := FilterAvx2(data, v, op, if wide then 4 else 8);
    case Plain => out := FilterScalar(data, v, op);
  }

  /** The listed rows that are not null. */
  function Kept(raw: seq<nat>, c: Column, rows: nat): (out: seq<nat>)
    requires ColumnOk(c, rows) && IdsBelow(raw, rows)
  {
    if raw == [] then []
    else
      var n := |raw| - 1;
      Kept(raw[..n], c, rows) + if IsNull(c, raw[n]) then [] else [raw[n]]
  }

  lemma {:induction false} KeptMembers(raw: seq<nat>, c: Column, rows: nat)
    requires ColumnOk(c, rows) && IdsBelow(raw, rows)
    ensures forall i: nat :: i in Kept(raw, c, rows) <==> i in raw && i < rows && !IsNull(c, i)
  {
    if raw != [] {
      var n := |raw| - 1;
      KeptMembers(raw[..n], c, rows);
      assert raw == raw[..n] + [raw[n]];
    }
  }

  lemma {:induction false} KeptAscending(raw: seq<nat>, c: Column, rows: nat)
    requires ColumnOk(c, rows) && Ascending(raw) && IdsBelow(raw, rows)
    ensures Ascending(Kept(raw, c, rows)) && IdsBelow(Kept(raw, c, rows), if raw == [] then 0 else raw[|raw| - 1] + 1)
  {
    if raw != [] { KeptAscending(raw[..|raw| - 1], c, rows); }
  }

  method DropNulls(raw: seq<nat>, c: Column, rows: nat) returns (out: seq<nat>)
    requires ColumnOk(c, rows) && IdsBelow(raw, rows)
    ensures out == Kept(raw, c, rows)
  {
    out := [];
    for k := 0 to |raw|
      invariant out == Kept(raw[..k], c, rows)
    {
      assert raw[..k + 1][..k] == raw[..k];
      if !IsNull(c, raw[k]) { out := out + [raw[k]]; }
    }
    assert raw[..|raw|] == raw;
  }

  /** The rows of one column that satisfy a predicate, by the loop over all rows. */
  function RowsBelow(c: Column, rows: nat, p: Pred, n: nat): seq<nat>
    requires ColumnOk(c, rows) && n <= rows
  {
    if n == 0 then [] else RowsBelow(c, rows, p, n - 1) + if Holds(c, rows, p, n - 1, true) then [n - 1] else []
  }

  lemma {:induction false} RowsBelowMeans(c: Column, rows: nat, p: Pred, n: nat)
    requires ColumnOk(c, rows) && n <= rows
    ensures Ascending(RowsBelow(c, rows, p, n))
    ensures forall i: nat :: i in RowsBelow(c, rows, p, n) <==> i < n && Holds(c, rows, p, i, true)
  {
    if n > 0 {
      RowsBelowMeans(c, rows, p, n - 1);
      var front := RowsBelow(c, rows, p, n - 1);
      assert forall k :: 0 <= k < |front| ==> front[k] in front;
    }
  }

  method EvaluateRows(c: Column, rows: nat, p: Pred) returns (out: seq<nat>)
    requires ColumnOk(c, rows)
    ensures out == RowsBelow(c, rows, p, rows)
  {
    out := [];
    for i := 0 to rows
      invariant out == RowsBelow(c, rows, p, i)
    {
      if IsNull(c, i) { continue; }
      var hit := match c.cells
        case Int32s(ints) => CastHolds(p, ints[i])
        case Int64s(longs) => IntHolds(p, longs[i])
        case Reals(reals) => RealHolds(p, reals[i])
        case Texts(texts) => TextHolds(p, texts[i])
        case Bools => false;
      if hit { out := out + [i]; }
    }
  }

  /** The kernels serve the orders on integer columns; everything else goes row by row. */
  predicate ByKernel(c: Column, p: Pred) { p.op.Is? && p.value.IntValue? && (c.cells.Int32s? || c.cells.Int64s?) }

  ghost predicate SelectsAtom(out: seq<nat>, c: Column, rows: nat, p: Pred)
    requires ColumnOk(c, rows)
  {
    Ascending(out) && forall i: nat :: i in out <==> i < rows && Holds(c, rows, p, i, true)
  }

  ghost predicate KernelRuns(c: Column, rows: nat, p: Pred, data: seq<int>, v: int) {
    && ColumnOk(c, rows) && ByKernel(c, p) && |data| == rows
    && if c.cells.Int32s? then data == c.cells.ints && v == Cast32(p.value.i) else data == c.cells.longs && v == p.value.i
  }

  lemma {:induction false} KernelHolds(c: Column, rows: nat, p: Pred, data: seq<int>, v: int, i: nat)
    requires KernelRuns(c, rows, p, data, v) && i < rows
    ensures Holds(c, rows, p, i, true) <==> !IsNull(c, i) && Matches(p.op.op, data[i], v)
  {
  }

  lemma {:induction false} KernelSelects(c: Column, rows: nat, p: Pred, data: seq<int>, v: int, raw: seq<nat>)
    requires KernelRuns(c, rows, p, data, v) && raw == Matching(data, v, p.op.op, rows)
    ensures IdsBelow(raw, rows) && SelectsAtom(Kept(raw, c, rows), c, rows, p)
  {
    MatchingMeans(data, v, p.op.op, rows);
    assert forall k :: 0 <= k < |raw| ==> raw[k] in raw;
    KeptMembers(raw, c, rows);
    KeptAscending(raw, c, rows);
    var out := Kept(raw, c, rows);
    forall i: nat ensures i in out <==> i < rows && Holds(c, rows, p, i, true) {
      if i < rows { KernelHolds(c, rows, p, data, v, i); }
    }
  }

  method EvaluateAtom(c: Column, rows: nat, p: Pred, cpu: Cpu) returns (out: seq<nat>)
    requires ColumnOk(c, rows)
    ensures SelectsAtom(out, c, rows, p)
  {
    if ByKernel(c, p) {
      var data, v, wide;
      if c.cells.Int64s? { data, v, wide := c.cells.longs, p.value.i, true; }
      else { data, v, wide := c.cells.ints, Cast32(p.value.i), false; }
      var raw := FilterInts(data, v, p.op.op, wide, cpu);
      KernelSelects(c, rows, p, data, v, raw);
      out := DropNulls(raw, c, rows);
    } else {
      out := EvaluateRows(c, rows, p);
      RowsBelowMeans(c, rows, p, rows);
    }
  }

  // ── What the predicates mean ──

  /** The first k bytes agree, and there the one ends and the other does not, or has the smaller byte. */
  ghost predicate LessAt(a: Text, b: Text, k: nat) {
    && k <= |a| && k < |b| && a[..k] == b[..k]
    && (k == |a| || a[k] < b[k])
  }

  ghost predicate Before(a: Text, b: Text) { exists k: nat :: LessAt(a, b, k) }

  lemma LessAtNext(a: Text, b: Text, k: nat)
    requires a != [] && b != [] && a[0] == b[0]
    ensures LessAt(a, b, k + 1) <==> LessAt(a[1..], b[1..], k)
  {
    if k < |a| && k < |b| {
      assert a[..k + 1] == [a[0]] + a[1..][..k] && b[..k + 1] == [b[0]] + b[1..][..k];
      assert a[1..][..k] == a[..k + 1][1..] && b[1..][..k] == b[..k + 1][1..];
    }
  }

  lemma {:induction false} TextLessMeans(a: Text, b: Text)
    ensures TextLess(a, b) <==> Before(a, b)
  {
    if b == [] {
    } else if a == [] || a[0] < b[0] {
      assert LessAt(a, b, 0);
    } else if a[0] == b[0] {
      TextLessMeans(a[1..], b[1..]);
      if k: nat :| LessAt(a[1..], b[1..], k) {
        LessAtNext(a, b, k);
        assert LessAt(a, b, k + 1);
      }
      if k: nat :| LessAt(a, b, k) {
        LessAtNext(a, b, k - 1);
        assert LessAt(a[1..], b[1..], k - 1);
      }
    } else {
      forall k: nat ensures !LessAt(a, b, k) { NoLess(a, b, k); }
    }
  }

  lemma NoLess(a: Text, b: Text, k: nat)
    requires a != [] && b != [] && a[0] > b[0]
    ensures !LessAt(a, b, k)
  {
    if 0 < k <= |a| && k <= |b| { assert a[..k][0] != b[..k][0]; }
  }

  /** Of two texts, one comes before the other or they are the same; only one of these. */
  lemma {:induction false} TextOrder(a: Text, b: Text)
    ensures TextLess(a, b) ==> a != b && !TextLess(b, a)
    ensures TextLess(a, b) || TextLess(b, a) || a == b
  {
    if a != [] && b != [] {
      TextOrder(a[1..], b[1..]);
      if a[0] == b[0] && a[1..] == b[1..] { assert a == [a[0]] + a[1..] && b == [b[0]] + b[1..]; }
    }
  }

  lemma {:induction false} LowBit(b: nat, r: nat, k: nat, j: nat)
    requires j < k
    ensures Bit(b + Pow2(k) * r, j) <==> Bit(b, j)
  {
    Halves(b, Pow2(k - 1) * r);
    assert Pow2(k) * r == 2 * (Pow2(k - 1) * r);
    if j > 0 { LowBit(b / 2, r, k - 1, j - 1); }
  }

  lemma {:induction false} HighBit(b: nat, r: nat, k: nat, j: nat)
    requires b < Pow2(k)
    ensures Bit(b + Pow2(k) * r, k + j) <==> Bit(r, j)
  {
    if k > 0 {
      Halves(b, Pow2(k - 1) * r);
      assert Pow2(k) * r == 2 * (Pow2(k - 1) * r);
      HighBit(b / 2, r, k - 1, j);
    }
  }

  function Pow2(k: nat): nat { if k == 0 then 1 else 2 * Pow2(k - 1) }

  lemma Halves(b: nat, x: nat)
    ensures (b + 2 * x) / 2 == b / 2 + x && (b + 2 * x) % 2 == b % 2
  {
  }

  lemma Pow2Byte()
    ensures Pow2(8) == 256
  {
    assert Pow2(2) == 4 && Pow2(4) == 16;
  }

  /** The null bitmap is one long number, and row i has its bit i, the lowest first. */
  lemma {:induction false} NullBit(bitmap: Text, i: nat)
    requires i < 8 * |bitmap|
    ensures Bit(bitmap[i / 8], i % 8) <==> Bit(LittleEndian.FromLe(bitmap), i)
  {
    var rest := LittleEndian.FromLe(bitmap[1..]);
    Pow2Byte();
    if i < 8 {
      LowBit(bitmap[0], rest, 8, i);
    } else {
      HighBit(bitmap[0], rest, 8, i - 8);
      NullBit(bitmap[1..], i - 8);
    }
  }

  lemma {:induction false} NullMeans(c: Column, rows: nat, i: nat)
    requires ColumnOk(c, rows) && i < rows
    ensures IsNull(c, i) <==> c.nulls.Some? && Bit(LittleEndian.FromLe(c.nulls.value), i)
  {
    if c.nulls.Some? { NullBit(c.nulls.value, i); }
  }

  /** The predicate of an order or equality, and of an IN list, on a column. */
  ghost predicate Selected(out: seq<nat>, c: Column, rows: nat, p: Pred, i: nat)
    requires ColumnOk(c, rows) && i < rows
  {
    SelectsAtom(out, c, rows, p) && !IsNull(c, i)
  }

  /** What is selected from a VARCHAR column, in bytes. */
  lemma {:induction false} TextSelected(out: seq<nat>, c: Column, rows: nat, p: Pred, i: nat)
    requires ColumnOk(c, rows) && c.cells.Texts? && i < rows && Selected(out, c, rows, p, i)
    ensures p.op == In ==> (i in out <==> TextValue(c.cells.texts[i]) in p.values)
    ensures p.op != In && !p.value.TextValue? ==> i !in out
    ensures p.op != In && p.value.TextValue? ==>
              var x, v := c.cells.texts[i], p.value.s;
              && (p.op == Is(Lt) ==> (i in out <==> Before(x, v)))
              && (p.op == Is(Gt) ==> (i in out <==> Before(v, x)))
              && (p.op == Is(Le) ==> (i in out <==> Before(x, v) || x == v))
              && (p.op == Is(Ge) ==> (i in out <==> Before(v, x) || x == v))
              && (p.op == Is(Eq) ==> (i in out <==> x == v))
              && (p.op == Ne ==> (i in out <==> x != v))
  {
    if p.op != In && p.value.TextValue? {
      var x, v := c.cells.texts[i], p.value.s;
      TextLessMeans(x, v);
      TextLessMeans(v, x);
      TextOrder(x, v);
      TextOrder(v, x);
    }
  }

  /** What is selected from a DOUBLE column. */
  lemma {:induction false} RealSelected(out: seq<nat>, c: Column, rows: nat, p: Pred, i: nat)
    requires ColumnOk(c, rows) && c.cells.Reals? && i < rows && Selected(out, c, rows, p, i)
    ensures p.op == In ==> (i in out <==> RealValue(c.cells.reals[i]) in p.values)
    ensures p.op != In && !p.value.RealValue? ==> i !in out
    ensures p.op != In && p.value.RealValue? ==>
              var x, v := c.cells.reals[i], p.value.r;
              && (p.op == Is(Lt) ==> (i in out <==> x < v))
              && (p.op == Is(Gt) ==> (i in out <==> v < x))
              && (p.op == Is(Le) ==> (i in out <==> !(v < x)))
              && (p.op == Is(Ge) ==> (i in out <==> !(x < v)))
              && (p.op == Is(Eq) ==> (i in out <==> x == v))
              && (p.op == Ne ==> (i in out <==> x <= v - TOLERANCE || v + TOLERANCE <= x))
  {
  }

  /** The 32 bits of an integer, read as a number. */
  ghost predicate LowBits(x: int, v: int) { Fits(x) && (x - v) % 0x1_0000_0000 == 0 }

  lemma CastMeans(v: int, x: int)
    ensures Cast32(v) == x <==> LowBits(x, v)
  {
    var c := Cast32(v);
    assert (v - MIN32) == 0x1_0000_0000 * ((v - MIN32) / 0x1_0000_0000) + (v - MIN32) % 0x1_0000_0000;
    assert (c - v) % 0x1_0000_0000 == 0;
  }

  /** What is selected from an integer column; x stands for the literal, or for its low 32 bits in a 32-bit column. */
  lemma {:induction false} IntSelected(out: seq<nat>, c: Column, rows: nat, p: Pred, i: nat, v: int)
    requires ColumnOk(c, rows) && (c.cells.Int32s? || c.cells.Int64s?) && i < rows && Selected(out, c, rows, p, i)
    requires p.op != In && p.value.IntValue? && if c.cells.Int32s? then LowBits(v, p.value.i) else v == p.value.i
    ensures var x := if c.cells.Int32s? then c.cells.ints[i] else c.cells.longs[i];
            && (p.op == Is(Lt) ==> (i in out <==> x < v))
            && (p.op == Is(Gt) ==> (i in out <==> v < x))
            && (p.op == Is(Le) ==> (i in out <==> !(v < x)))
            && (p.op == Is(Ge) ==> (i in out <==> !(x < v)))
            && (p.op == Is(Eq) ==> (i in out <==> x == v))
            && (p.op == Ne ==> (i in out <==> x != p.value.i))
  {
    CastMeans(p.value.i, v);
  }

  /** IN lists and literals of another type on an integer column. */
  lemma {:induction false} IntListed(out: seq<nat>, c: Column, rows: nat, p: Pred, i: nat)
    requires ColumnOk(c, rows) && (c.cells.Int32s? || c.cells.Int64s?) && i < rows && Selected(out, c, rows, p, i)
    ensures p.op != In && !p.value.IntValue? ==> i !in out
    ensures p.op == In && c.cells.Int64s? ==> (i in out <==> IntValue(c.cells.longs[i]) in p.values)
    ensures p.op == In && c.cells.Int32s? ==>
              (i in out <==> exists l :: l in p.values && l.IntValue? && LowBits(c.cells.ints[i], l.i))
  {
    if p.op == In && c.cells.Int32s? {
      var x := c.cells.ints[i];
      forall l | l in p.values && l.IntValue? ensures Cast32(l.i) == x <==> LowBits(x, l.i) { CastMeans(l.i, x); }
    }
  }

  /**
   Filter::evaluate: an error exactly when some column is unknown; otherwise the ascending list of
   exactly the rows that satisfy the tree.
   */
  method Evaluate(s: Scan, e: Expr, cpu: Cpu) returns (r: Result<seq<nat>>)
    requires Valid(s)
    ensures r.Ok? <==> Resolves(s, e)
    ensures r.Ok? ==> Selects(r.value, s, e)
    decreases e
  {
    match e
    case Atom(p) =>
      var k := Position(s.names, p.column);
      if k.None? { return Err(NotFound); }
      var out := EvaluateAtom(s.columns[k.value], s.rows, p, cpu);
      return Ok(out);
    case And(left, right) =>
      var a := Evaluate(s, left, cpu);
      if a.Err? { return a; }
      var b := Evaluate(s, right, cpu);
      if b.Err? { return b; }
      IntersectionMeans(a.value, b.value);
      return Ok(Intersection(a.value, b.value));
    case Or(left, right) =>
      var a := Evaluate(s, left, cpu);
      if a.Err? { return a; }
      var b := Evaluate(s, right, cpu);
      if b.Err? { return b; }
      UnionMeans(a.value, b.value);
      return Ok(Union(a.value, b.value));
  }

  /** Without a WHERE clause every row is selected. */
  method EvaluateWhere(s: Scan, where: Option<Expr>, cpu: Cpu) returns (r: Result<seq<nat>>)
    requires Valid(s)
    ensures r.Ok? <==> where.None? || Resolves(s, where.value)
    ensures r.Ok? && where.Some? ==> Selects(r.value, s, where.value)
    ensures where.None? ==> r.Ok? && Ascending(r.value) && forall i: nat :: i in r.value <==> i < s.rows
  {
    if where.Some? {
      r := Evaluate(s, where.value, cpu);
      return;
    }
    var all: seq<nat> := [];
    for i := 0 to s.rows
      invariant |all| == i && forall j :: 0 <= j < i ==> all[j] == j
    {
      all := all + [i];
    }
    forall i: nat ensures i in all <==> i < s.rows { if i < s.rows { assert all[i] == i; } }
    return Ok(all);
  }

  // ── Meant and coded ──

  /** Casting the literals of an IN list adds nothing to what it means. */
  predicate CastsListed(vs: seq<Value>) { forall v :: v in vs && v.IntValue? ==> IntValue(Cast32(v.i)) in vs }

  /** An IN list on a 32-bit column is right for every value if and only if each literal's cast is itself in the list. */
  lemma {:induction false} CastInExact(vs: seq<Value>)
    ensures CastsListed(vs) <==> forall x :: Fits(x) ==> (CastIn(x, vs) <==> IntIn(x, vs))
  {
    if CastsListed(vs) {
      forall x | Fits(x) ensures CastIn(x, vs) <==> IntIn(x, vs) {
        if IntIn(x, vs) { assert Cast32(IntValue(x).i) == x; }
      }
    } else {
      var v :| v in vs && v.IntValue? && IntValue(Cast32(v.i)) !in vs;
      assert Fits(Cast32(v.i)) && CastIn(Cast32(v.i), vs) && !IntIn(Cast32(v.i), vs);
    }
  }

  predicate LiteralsSafe(p: Pred) {
    match p.op
    case Ne => true
    case Is(op) => p.value.IntValue? ==> CastSafe(op, p.value.i)
    case In => CastsListed(p.values)
  }

  /** Casting the literals of a predicate is right for every 32-bit value if and only if they are safe. */
  lemma {:induction false} PredicateExact(p: Pred)
    ensures LiteralsSafe(p) <==> forall x :: Fits(x) ==> (CastHolds(p, x) <==> IntHolds(p, x))
  {
    match p.op
    case Ne =>
    case Is(op) => if p.value.IntValue? { OrderExact(p, op, p.value.i); }
    case In => ListExact(p);
  }

  lemma {:induction false} OrderExact(p: Pred, op: Op, v: int)
    requires p.op == Is(op) && p.value == IntValue(v)
    ensures CastSafe(op, v) <==> forall x :: Fits(x) ==> (CastHolds(p, x) <==> IntHolds(p, x))
  {
    CastExact(op, v);
    forall x ensures CastHolds(p, x) == Matches(op, x, Cast32(v)) && IntHolds(p, x) == Matches(op, x, v) {}
  }

  lemma {:induction false} ListExact(p: Pred)
    requires p.op.In?
    ensures CastsListed(p.values) <==> forall x :: Fits(x) ==> (CastHolds(p, x) <==> IntHolds(p, x))
  {
    CastInExact(p.values);
    forall x ensures CastHolds(p, x) == CastIn(x, p.values) && IntHolds(p, x) == IntIn(x, p.values) {}
  }

  predicate PredSafe(c: Column, p: Pred) { c.cells.Int32s? ==> LiteralsSafe(p) }

  predicate Safe(s: Scan, e: Expr) {
    match e
    case Atom(p) =>
      var k := Position(s.names, p.column);
      k.Some? && k.value < |s.columns| ==> PredSafe(s.columns[k.value], p)
    case And(l, r) => Safe(s, l) && Safe(s, r)
    case Or(l, r) => Safe(s, l) && Safe(s, r)
  }

  lemma HoldsSame(c: Column, rows: nat, p: Pred, i: nat)
    requires ColumnOk(c, rows) && i < rows && PredSafe(c, p)
    ensures Holds(c, rows, p, i, true) <==> Holds(c, rows, p, i, false)
  {
    if c.cells.Int32s? { PredicateExact(p); }
  }

  /** With safe literals, the rows selected are those the expression means. */
  lemma {:induction false} SafeSatisfies(s: Scan, e: Expr, i: nat)
    requires Valid(s) && Resolves(s, e) && Safe(s, e) && i < s.rows
    ensures Satisfies(s, e, i, true) <==> Satisfies(s, e, i, false)
  {
    match e
    case Atom(p) => HoldsSame(s.columns[Position(s.names, p.column).value], s.rows, p, i);
    case And(l, r) => SafeSatisfies(s, l, i); SafeSatisfies(s, r, i);
    case Or(l, r) => SafeSatisfies(s, l, i); SafeSatisfies(s, r, i);
  }

  lemma SameEmpty(a: seq<nat>, b: seq<nat>)
    requires forall x :: x in a <==> x in b
    ensures a == [] <==> b == []
  {
    if a != [] { assert a[0] in b; }
    if b != [] { assert b[0] in a; }
  }

  /** The list is determined: any two ways of evaluating agree. */
  lemma {:induction false} SelectsUnique(a: seq<nat>, b: seq<nat>)
    requires Ascending(a) && Ascending(b) && forall x :: x in a <==> x in b
    ensures a == b
  {
    SameEmpty(a, b);
    if a != [] {
      AscendingHead(a);
      AscendingHead(b);
      assert a[0] in a && b[0] in b;
      SelectsUnique(a[1..], b[1..]);
      assert a == [a[0]] + a[1..] && b == [b[0]] + b[1..];
    }
  }
}
