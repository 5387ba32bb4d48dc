/**
 A WHERE clause from its tokens to the rows it selects: parsed, handed to the filter, evaluated.  What is
 written is compared with the rows directly, without the tree, the operators and the lists in between.
 */
module Where {
  import opened Sequences
  import opened Grammar
  import opened WhereParser
  import Simd
  import Filters

  // ── What is handed to the filter ──

  /** The filter goes by the column's name alone. */
  function ColumnName(c: Column): string {
    match c
    case Plain(n) => n.name
    case Over(_, n) => n.name
    case OverStar(_) => "*"
  }

  function OpOf(cmp: Cmp): Filters.CmpOp {
    match cmp
    case Eq => Filters.Is(Simd.Eq)
    case Ne => Filters.Ne
    case Lt => Filters.Is(Simd.Lt)
    case Gt => Filters.Is(Simd.Gt)
    case Le => Filters.Is(Simd.Le)
    case Ge => Filters.Is(Simd.Ge)
  }

  function PredOf(p: Pred): Filters.Pred {
    match p
    case Compare(c, cmp, v) => Filters.Pred(ColumnName(c), OpOf(cmp), v, [])
    case Member(c, vs) => Filters.Pred(ColumnName(c), Filters.In, Filters.IntValue(0), vs)
  }

  function ExprOf(e: Expr): Filters.Expr {
    match e
    case Atom(p) => Filters.Atom(PredOf(p))
    case And(l, r) => Filters.And(ExprOf(l), ExprOf(r))
    case Or(l, r) => Filters.Or(ExprOf(l), ExprOf(r))
  }

  // ── What is written ──

  predicate Numbers(cmp: Cmp, x: int, v: int) {
    match cmp
    case Eq => x == v
    case Ne => x != v
    case Lt => x < v
    case Gt => v < x
    case Le => x <= v
    case Ge => v <= x
  }

  /** Inequality of DOUBLE values has a tolerance. */
  predicate Decimals(cmp: Cmp, x: real, v: real) {
    match cmp
    case Eq => x == v
    case Ne => x <= v - Filters.TOLERANCE || v + Filters.TOLERANCE <= x
    case Lt => x < v
    case Gt => v < x
    case Le => x <= v
    case Ge => v <= x
  }

  ghost predicate Strings(cmp: Cmp, x: Filters.Text, v: Filters.Text) {
    match cmp
    case Eq => x == v
    case Ne => x != v
    case Lt => Filters.Before(x, v)
    case Gt => Filters.Before(v, x)
    case Le => Filters.Before(x, v) || x == v
    case Ge => Filters.Before(v, x) || x == v
  }

  /** The comparison of row i with a literal; a 32-bit column takes the low 32 bits of it, except for <>. */
  ghost predicate Compares(c: Filters.Column, rows: nat, cmp: Cmp, v: Filters.Value, i: nat)
    requires Filters.ColumnOk(c, rows) && i < rows
  {
    match (c.cells, v)
    case (Int64s(xs), IntValue(n)) => Numbers(cmp, xs[i], n)
    case (Int32s(xs), IntValue(n)) => if cmp.Ne? then xs[i] != n else exists m :: Filters.LowBits(m, n) && Numbers(cmp, xs[i], m)
    case (Reals(xs), RealValue(r)) => Decimals(cmp, xs[i], r)
    case (Texts(xs), TextValue(t)) => Strings(cmp, xs[i], t)
    case _ => false
  }

  ghost predicate Listed(c: Filters.Column, rows: nat, vs: seq<Filters.Value>, i: nat)
    requires Filters.ColumnOk(c, rows) && i < rows
  {
    match c.cells
    case Int64s(xs) => Filters.IntValue(xs[i]) in vs
    case Int32s(xs) => exists v :: v in vs && v.IntValue? && Filters.LowBits(xs[i], v.i)
    case Reals(xs) => Filters.RealValue(xs[i]) in vs
    case Texts(xs) => Filters.TextValue(xs[i]) in vs
    case Bools => false
  }

  /** The first column of the name has a value there, and it compares as written. */
  ghost predicate Stands(s: Filters.Scan, p: Pred, i: nat)
    requires Filters.Valid(s) && i < s.rows
  {
    exists k: nat :: k < |s.names| && FirstNamed(s.names, k, ColumnName(p.column)) && !Filters.IsNull(s.columns[k], i) &&
      match p
      case Compare(_, cmp, v) => Compares(s.columns[k], s.rows, cmp, v, i)
      case Member(_, vs) => Listed(s.columns[k], s.rows, vs, i)
  }

  predicate FirstNamed(names: seq<string>, k: nat, name: string)
    requires k < |names|
  {
    names[k] == name && forall j :: 0 <= j < k ==> names[j] != name
  }

  /** Whether row i is as the clause says, by the clause as it is written. */
  ghost predicate True(s: Filters.Scan, w: Written, i: nat)
    requires Filters.Valid(s) && i < s.rows
  {
    match w
    case Leaf(p) => Stands(s, p, i)
    case Parens(x) => True(s, x, i)
    case AndOf(l, r) => True(s, l, i) && True(s, r, i)
    case OrOf(l, r) => True(s, l, i) || True(s, r, i)
  }

  /** Every column in it exists. */
  predicate Known(names: seq<string>, w: Written) {
    match w
    case Leaf(p) => ColumnName(p.column) in names
    case Parens(x) => Known(names, x)
    case AndOf(l, r) => Known(names, l) && Known(names, r)
    case OrOf(l, r) => Known(names, l) && Known(names, r)
  }

  // ── The two agree ──

  lemma {:induction false} IntegersHold(c: Filters.Column, rows: nat, cmp: Cmp, v: Filters.Value, i: nat, p: Filters.Pred)
    requires Filters.ColumnOk(c, rows) && i < rows && (c.cells.Int32s? || c.cells.Int64s?)
    requires p.op == OpOf(cmp) && p.value == v && !Filters.IsNull(c, i)
    ensures Compares(c, rows, cmp, v, i) <==> Filters.Holds(c, rows, p, i, true)
  {
    if c.cells.Int32s? && v.IntValue? {
      forall m ensures Filters.LowBits(m, v.i) <==> Filters.Cast32(v.i) == m { Filters.CastMeans(v.i, m); }
      assert Filters.LowBits(Filters.Cast32(v.i), v.i);
    }
  }

  lemma {:induction false} TextsHold(c: Filters.Column, rows: nat, cmp: Cmp, v: Filters.Value, i: nat, p: Filters.Pred)
    requires Filters.ColumnOk(c, rows) && i < rows && c.cells.Texts?
    requires p.op == OpOf(cmp) && p.value == v && !Filters.IsNull(c, i)
    ensures Compares(c, rows, cmp, v, i) <==> Filters.Holds(c, rows, p, i, true)
  {
    if v.TextValue? {
      var x := c.cells.texts[i];
      Filters.TextLessMeans(x, v.s);
      Filters.TextLessMeans(v.s, x);
      Filters.TextOrder(x, v.s);
      Filters.TextOrder(v.s, x);
    }
  }

  lemma {:induction false} ComparesHolds(c: Filters.Column, rows: nat, cmp: Cmp, v: Filters.Value, i: nat, p: Filters.Pred)
    requires Filters.ColumnOk(c, rows) && i < rows && p.op == OpOf(cmp) && p.value == v && !Filters.IsNull(c, i)
    ensures Compares(c, rows, cmp, v, i) <==> Filters.Holds(c, rows, p, i, true)
  {
    match c.cells
    case Int32s(_) => IntegersHold(c, rows, cmp, v, i, p);
    case Int64s(_) => IntegersHold(c, rows, cmp, v, i, p);
    case Texts(_) => TextsHold(c, rows, cmp, v, i, p);
    case _ =>
  }

  lemma {:induction false} ListedHolds(c: Filters.Column, rows: nat, vs: seq<Filters.Value>, i: nat, p: Filters.Pred)
    requires Filters.ColumnOk(c, rows) && i < rows && p.op == Filters.In && p.values == vs && !Filters.IsNull(c, i)
    ensures Listed(c, rows, vs, i) <==> Filters.Holds(c, rows, p, i, true)
  {
    if c.cells.Int32s? {
      var x := c.cells.ints[i];
      forall v | v in vs && v.IntValue? ensures Filters.Cast32(v.i) == x <==> Filters.LowBits(x, v.i) { Filters.CastMeans(v.i, x); }
    }
  }

  lemma {:induction false} StandsHolds(s: Filters.Scan, p: Pred, i: nat)
    requires Filters.Valid(s) && i < s.rows && ColumnName(p.column) in s.names
    ensures var k := Filters.Position(s.names, ColumnName(p.column)).value;
            Stands(s, p, i) <==> Filters.Holds(s.columns[k], s.rows, PredOf(p), i, true)
  {
    var name := ColumnName(p.column);
    var k := Filters.Position(s.names, name).value;
    forall j | 0 <= j < k ensures s.names[j] != name { assert s.names[..k][j] in s.names[..k]; }
    assert FirstNamed(s.names, k, name);
    if !Filters.IsNull(s.columns[k], i) {
      match p
      case Compare(_, cmp, v) => ComparesHolds(s.columns[k], s.rows, cmp, v, i, PredOf(p));
      case Member(_, vs) => ListedHolds(s.columns[k], s.rows, vs, i, PredOf(p));
    }
  }

  lemma {:induction false} KnownResolves(s: Filters.Scan, w: Written)
    ensures Known(s.names, w) <==> Filters.Resolves(s, ExprOf(Meaning(w)))
  {
    match w
    case Leaf(p) =>
    case Parens(x) => KnownResolves(s, x);
    case AndOf(l, r) => KnownResolves(s, l); KnownResolves(s, r);
    case OrOf(l, r) => KnownResolves(s, l); KnownResolves(s, r);
  }

  /** The tree that the parser makes means what is written. */
  lemma {:induction false} TrueSatisfies(s: Filters.Scan, w: Written, i: nat)
    requires Filters.Valid(s) && i < s.rows && Known(s.names, w)
    ensures Filters.Resolves(s, ExprOf(Meaning(w)))
    ensures True(s, w, i) <==> Filters.Satisfies(s, ExprOf(Meaning(w)), i, true)
  {
    KnownResolves(s, w);
    match w
    case Leaf(p) => StandsHolds(s, p, i);
    case Parens(x) => TrueSatisfies(s, x, i);
    case AndOf(l, r) => TrueSatisfies(s, l, i); TrueSatisfies(s, r, i);
    case OrOf(l, r) => TrueSatisfies(s, l, i); TrueSatisfies(s, r, i);
  }

  // ── The clause as the executor runs it ──

  datatype Answer = Rows(ids: seq<nat>) | NotFound | InvalidArgument

  /** The tokens begin with this clause, and it does not go on. */
  ghost predicate Begins(ts: seq<Token>, w: Written) {
    exists rest :: Ends(rest) && Grammatical(w) && ts == Tokens(w) + rest
  }

  /**
   Parse, then evaluate.  Tokens that begin with no clause are refused, a clause with an unknown column as well;
   otherwise the answer is the ascending list of exactly the rows that are as the clause says.
   */
  method SelectWhere(ts: seq<Token>, s: Filters.Scan, cpu: Filters.Cpu) returns (a: Answer)
    requires Filters.Valid(s)
    ensures a.InvalidArgument? <==> forall w :: !Begins(ts, w)
    ensures forall w :: Begins(ts, w) ==> (a.Rows? <==> Known(s.names, w))
    ensures forall w :: Begins(ts, w) && a.Rows? ==> Ascending(a.ids) && forall i: nat :: i in a.ids <==> i < s.rows && True(s, w, i)
  {
    var parser := new Parser(ts);
    var e := parser.ParseWhere();
    forall w | Begins(ts, w) ensures e == Value(Meaning(w)) { Parsed(ts, w); }
    if e.InvalidArgument? { return Answer.InvalidArgument; }
    ghost var clause := ExprRead(ts);
    assert Begins(ts, clause);
    var ids := Filters.Evaluate(s, ExprOf(e.value), cpu);
    forall w | Begins(ts, w) ensures Known(s.names, w) <==> ids.Ok? { KnownResolves(s, w); }
    if ids.Err? { return NotFound; }
    forall w, i: nat | Begins(ts, w) && i < s.rows ensures True(s, w, i) <==> Filters.Satisfies(s, ExprOf(e.value), i, true) {
      TrueSatisfies(s, w, i);
    }
    return Rows(ids.value);
  }

  lemma {:induction false} Parsed(ts: seq<Token>, w: Written)
    requires Begins(ts, w)
    ensures ParseExpr(ts).Ok? && ParseExpr(ts).value == Meaning(w)
  {
    var rest :| Ends(rest) && Grammatical(w) && ts == Tokens(w) + rest;
    WrittenParses(w, rest);
  }
}
