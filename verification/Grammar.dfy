/**
 WHERE expressions at the level of tokens: the recursive descent as functions on token lists, the
 grammar it implements, and the proof that parsing inverts printing.
 */
module Grammar {
  import Filters

  datatype Func = Count | Sum | Avg | Min | Max
  datatype Cmp = Eq | Ne | Lt | Gt | Le | Ge
  type Literal = Filters.Value

  datatype Token =
    | Word(name: string) | Lit(value: Literal) | Agg(func: Func) | Op(cmp: Cmp)
    | LParen | RParen | Comma | Dot | Star | InWord | AndWord | OrWord | End

  datatype Name = Name(table: string, name: string, qualified: bool)
  datatype Column = Plain(id: Name) | Over(func: Func, arg: Name) | OverStar(func: Func)
  datatype Pred = Compare(column: Column, cmp: Cmp, value: Literal) | Member(column: Column, values: seq<Literal>)
  datatype Expr = Atom(pred: Pred) | And(left: Expr, right: Expr) | Or(left: Expr, right: Expr)

  datatype Parse<+T> = Ok(value: T, rest: seq<Token>) | Fail

  /** The next token; after the last one there are only end marks. */
  function Peek(ts: seq<Token>): Token { if ts == [] then End else ts[0] }

  function Advance(ts: seq<Token>): seq<Token> { if ts == [] then [] else ts[1..] }

  // ── The descent ──

  function ParseName(ts: seq<Token>): (r: Parse<Name>)
    ensures r.Ok? ==> |r.rest| < |ts|
  {
    if !Peek(ts).Word? then Fail
    else if Peek(ts[1..]).Dot? then
      if Peek(ts[2..]).Word? then Ok(Name(ts[0].name, ts[2].name, true), ts[3..]) else Fail
    else Ok(Name("", ts[0].name, false), ts[1..])
  }

  function ParseColumn(ts: seq<Token>): (r: Parse<Column>)
    ensures r.Ok? ==> |r.rest| < |ts|
  {
    if Peek(ts).Agg? then
      if !Peek(ts[1..]).LParen? then Fail
      else if Peek(ts[2..]).Star? then
        if Peek(ts[3..]).RParen? then Ok(OverStar(ts[0].func), ts[4..]) else Fail
      else
        var n := ParseName(ts[2..]);
        if n.Fail? || !Peek(n.rest).RParen? then Fail else Ok(Over(ts[0].func, n.value), n.rest[1..])
    else
      var n := ParseName(ts);
      if n.Fail? then Fail else Ok(Plain(n.value), n.rest)
  }

  function ParseValues(ts: seq<Token>): (r: Parse<seq<Literal>>)
    ensures r.Ok? ==> |r.rest| < |ts| && r.value != []
  {
    if !Peek(ts).Lit? then Fail
    else if !Peek(ts[1..]).Comma? then Ok([ts[0].value], ts[1..])
    else
      var more := ParseValues(ts[2..]);
      if more.Fail? then Fail else Ok([ts[0].value] + more.value, more.rest)
  }

  function ParseIn(ts: seq<Token>): (r: Parse<seq<Literal>>)
    ensures r.Ok? ==> |r.rest| < |ts| && r.value != []
  {
    if !Peek(ts).LParen? then Fail
    else
      var vs := ParseValues(ts[1..]);
      if vs.Fail? || !Peek(vs.rest).RParen? then Fail else Ok(vs.value, vs.rest[1..])
  }

  function ParsePredicate(ts: seq<Token>): (r: Parse<Pred>)
    ensures r.Ok? ==> |r.rest| < |ts|
  {
    var c := ParseColumn(ts);
    if c.Fail? then Fail
    else if Peek(c.rest).Op? then
      if Peek(c.rest[1..]).Lit? then Ok(Compare(c.value, c.rest[0].cmp, c.rest[1].value), c.rest[2..]) else Fail
    else if Peek(c.rest).InWord? then
      var vs := ParseIn(c.rest[1..]);
      if vs.Fail? then Fail else Ok(Member(c.value, vs.value), vs.rest)
    else Fail
  }

  function ParsePrimary(ts: seq<Token>): (r: Parse<Expr>)
    ensures r.Ok? ==> |r.rest| < |ts|
    decreases |ts|, 0
  {
    if Peek(ts).LParen? then
      var e := ParseExpr(ts[1..]);
      if e.Fail? || !Peek(e.rest).RParen? then Fail else Ok(e.value, e.rest[1..])
    else
      var p := ParsePredicate(ts);
      if p.Fail? then Fail else Ok(Atom(p.value), p.rest)
  }

  /** The rest of a chain of ANDs whose first operands gave node. */
  function AndLoop(node: Expr, ts: seq<Token>): (r: Parse<Expr>)
    ensures r.Ok? ==> |r.rest| <= |ts|
    decreases |ts|, 1
  {
    if !Peek(ts).AndWord? then Ok(node, ts)
    else
      var right := ParsePrimary(ts[1..]);
      if right.Fail? then Fail else AndLoop(And(node, right.value), right.rest)
  }

  function ParseAnd(ts: seq<Token>): (r: Parse<Expr>)
    ensures r.Ok? ==> |r.rest| < |ts|
    decreases |ts|, 2
  {
    var left := ParsePrimary(ts);
    if left.Fail? then Fail else AndLoop(left.value, left.rest)
  }

  function OrLoop(node: Expr, ts: seq<Token>): (r: Parse<Expr>)
    ensures r.Ok? ==> |r.rest| <= |ts|
    decreases |ts|, 3
  {
    if !Peek(ts).OrWord? then Ok(node, ts)
    else
      var right := ParseAnd(ts[1..]);
      if right.Fail? then Fail else OrLoop(Or(node, right.value), right.rest)
  }

  function ParseExpr(ts: seq<Token>): (r: Parse<Expr>)
    ensures r.Ok? ==> |r.rest| < |ts|
    decreases |ts|, 4
  {
    var left := ParseAnd(ts);
    if left.Fail? then Fail else OrLoop(left.value, left.rest)
  }

  // ── Printing ──

  function NameTokens(n: Name): seq<Token> {
    if n.qualified then [Word(n.table), Dot, Word(n.name)] else [Word(n.name)]
  }

  function ColumnTokens(c: Column): seq<Token> {
    match c
    case Plain(n) => NameTokens(n)
    case Over(f, n) => [Token.Agg(f), LParen] + NameTokens(n) + [RParen]
    case OverStar(f) => [Token.Agg(f), LParen, Star, RParen]
  }

  function ValueTokens(vs: seq<Literal>): seq<Token>
    requires vs != []
  {
    if |vs| == 1 then [Lit(vs[0])] else [Lit(vs[0]), Comma] + ValueTokens(vs[1..])
  }

  /** An unqualified name has no table; an IN list is not empty. */
  predicate NameOk(n: Name) { !n.qualified ==> n.table == "" }
  predicate ColumnOk(c: Column) {
    match c
    case Plain(n) => NameOk(n)
    case Over(_, n) => NameOk(n)
    case OverStar(_) => true
  }
  predicate PredOk(p: Pred) { ColumnOk(p.column) && (p.Member? ==> p.values != []) }

  function PredTokens(p: Pred): seq<Token>
    requires PredOk(p)
  {
    match p
    case Compare(c, op, v) => ColumnTokens(c) + [Op(op), Lit(v)]
    case Member(c, vs) => ColumnTokens(c) + [InWord, LParen] + ValueTokens(vs) + [RParen]
  }

  /** Written expressions: trees with the parentheses they were written with. */
  datatype Written = Leaf(pred: Pred) | Parens(inner: Written) | AndOf(left: Written, right: Written) | OrOf(left: Written, right: Written)

  /** AND binds tighter than OR, and both associate to the left. */
  predicate Grammatical(w: Written) {
    match w
    case Leaf(p) => PredOk(p)
    case Parens(i) => Grammatical(i)
    case AndOf(l, r) => Grammatical(l) && Grammatical(r) && !l.OrOf? && (r.Leaf? || r.Parens?)
    case OrOf(l, r) => Grammatical(l) && Grammatical(r) && !r.OrOf?
  }

  function Tokens(w: Written): (ts: seq<Token>)
    requires Grammatical(w)
  {
    match w
    case Leaf(p) => PredTokens(p)
    case Parens(i) => [LParen] + Tokens(i) + [RParen]
    case AndOf(l, r) => Tokens(l) + [AndWord] + Tokens(r)
    case OrOf(l, r) => Tokens(l) + [OrWord] + Tokens(r)
  }

  /** What it means. */
  function Meaning(w: Written): Expr {
    match w
    case Leaf(p) => Atom(p)
    case Parens(i) => Meaning(i)
    case AndOf(l, r) => And(Meaning(l), Meaning(r))
    case OrOf(l, r) => Or(Meaning(l), Meaning(r))
  }

  // ── Parsing inverts writing ──

  lemma Assoc(a: seq<Token>, b: seq<Token>, c: seq<Token>)
    ensures a + (b + c) == (a + b) + c
  {
  }

  lemma Glue(a: seq<Token>, b: seq<Token>, c: seq<Token>, d: seq<Token>)
    ensures a + (b + (c + d)) == (a + b + c) + d
  {
    Assoc(b, c, d);
    Assoc(a, b + c, d);
    Assoc(a, b, c);
  }

  lemma GlueMore(a: seq<Token>, b: seq<Token>, c: seq<Token>, d: seq<Token>, e: seq<Token>)
    ensures a + (b + (c + (d + e))) == (a + b + c + d) + e
  {
    Glue(b, c, d, e);
    Assoc(a, b + c + d, e);
    Glue(a, b, c, d);
  }

  lemma Two(ts: seq<Token>, a: Token, b: Token)
    requires |ts| >= 2 && ts[0] == a && ts[1] == b
    ensures ts == [a, b] + ts[2..]
  {
  }

  lemma {:induction false} NameParses(n: Name, rest: seq<Token>)
    requires NameOk(n) && !Peek(rest).Dot?
    ensures ParseName(NameTokens(n) + rest) == Ok(n, rest)
  {
    var ts := NameTokens(n) + rest;
    if n.qualified {
      assert ts[1..][0] == Dot && ts[2..][0] == Word(n.name) && ts[3..] == rest;
    } else {
      assert ts[1..] == rest;
    }
  }

  lemma {:induction false} OverParses(f: Func, n: Name, rest: seq<Token>)
    requires NameOk(n)
    ensures ParseColumn(ColumnTokens(Over(f, n)) + rest) == Ok(Over(f, n), rest)
  {
    var ts := ColumnTokens(Over(f, n)) + rest;
    var tail := [RParen] + rest;
    assert ts[2..] == NameTokens(n) + tail;
    NameParses(n, tail);
    assert ts[1..][0] == LParen && ts[2..][0] == NameTokens(n)[0];
    assert tail[1..] == rest;
  }

  lemma {:induction false} ColumnParses(c: Column, rest: seq<Token>)
    requires ColumnOk(c) && !Peek(rest).Dot?
    ensures ParseColumn(ColumnTokens(c) + rest) == Ok(c, rest)
  {
    var ts := ColumnTokens(c) + rest;
    match c
    case Plain(n) =>
      NameParses(n, rest);
      assert ts[0] == NameTokens(n)[0];
    case Over(f, n) => OverParses(f, n, rest);
    case OverStar(f) => assert ts[1..][0] == LParen && ts[2..][0] == Star && ts[3..][0] == RParen && ts[4..] == rest;
  }

  lemma {:induction false} ValuesParse(vs: seq<Literal>, rest: seq<Token>)
    requires vs != [] && !Peek(rest).Comma?
    ensures ParseValues(ValueTokens(vs) + rest) == Ok(vs, rest)
  {
    var ts := ValueTokens(vs) + rest;
    if |vs| == 1 {
      assert ts[1..] == rest && [ts[0].value] == vs;
    } else {
      ValuesParse(vs[1..], rest);
      assert ts[1..][0] == Comma && ts[2..] == ValueTokens(vs[1..]) + rest;
      assert vs == [vs[0]] + vs[1..];
    }
  }

  lemma {:induction false} CompareParses(c: Column, op: Cmp, v: Literal, rest: seq<Token>)
    requires ColumnOk(c)
    ensures ParsePredicate(PredTokens(Compare(c, op, v)) + rest) == Ok(Compare(c, op, v), rest)
  {
    var tail := [Op(op), Lit(v)] + rest;
    assert PredTokens(Compare(c, op, v)) + rest == ColumnTokens(c) + tail;
    ColumnParses(c, tail);
    assert tail[1..][0] == Lit(v) && tail[2..] == rest;
  }

  lemma {:induction false} InParses(vs: seq<Literal>, rest: seq<Token>)
    requires vs != []
    ensures ParseIn([LParen] + (ValueTokens(vs) + ([RParen] + rest))) == Ok(vs, rest)
  {
    var close := [RParen] + rest;
    ValuesParse(vs, close);
    assert ([LParen] + (ValueTokens(vs) + close))[1..] == ValueTokens(vs) + close && close[1..] == rest;
  }

  lemma {:induction false} MemberParses(c: Column, vs: seq<Literal>, rest: seq<Token>)
    requires ColumnOk(c) && vs != []
    ensures ParsePredicate(PredTokens(Member(c, vs)) + rest) == Ok(Member(c, vs), rest)
  {
    var list := ValueTokens(vs) + ([RParen] + rest);
    var tail := [InWord, LParen] + list;
    GlueMore(ColumnTokens(c), [InWord, LParen], ValueTokens(vs), [RParen], rest);
    ColumnParses(c, tail);
    InParses(vs, rest);
    assert tail[1..] == [LParen] + list;
  }

  lemma {:induction false} PredParses(p: Pred, rest: seq<Token>)
    requires PredOk(p)
    ensures ParsePredicate(PredTokens(p) + rest) == Ok(p, rest)
    ensures PredTokens(p) != [] && !PredTokens(p)[0].LParen?
  {
    match p
    case Compare(c, op, v) => CompareParses(c, op, v, rest);
    case Member(c, vs) => MemberParses(c, vs, rest);
  }

  lemma {:induction false} LeafParses(p: Pred, rest: seq<Token>)
    requires PredOk(p)
    ensures ParsePrimary(PredTokens(p) + rest) == Ok(Atom(p), rest)
  {
    PredParses(p, rest);
    assert (PredTokens(p) + rest)[0] == PredTokens(p)[0];
  }

  lemma {:induction false} ParensParse(inner: seq<Token>, e: Expr, rest: seq<Token>, ts: seq<Token>)
    requires ParseExpr(inner + ([RParen] + rest)) == Ok(e, [RParen] + rest) && ts == [LParen] + inner + [RParen] + rest
    ensures ParsePrimary(ts) == Ok(e, rest)
  {
    assert ts[1..] == inner + ([RParen] + rest) && ([RParen] + rest)[1..] == rest;
  }

  lemma {:induction false} PrimaryParses(w: Written, rest: seq<Token>)
    requires Grammatical(w) && (w.Leaf? || w.Parens?)
    ensures ParsePrimary(Tokens(w) + rest) == Ok(Meaning(w), rest)
    decreases w, 0
  {
    if w.Leaf? {
      LeafParses(w.pred, rest);
    } else {
      ExprParses(w.inner, [RParen] + rest);
      ParensParse(Tokens(w.inner), Meaning(w), rest, Tokens(w) + rest);
    }
  }

  lemma {:induction false} AndParses(w: Written, rest: seq<Token>)
    requires Grammatical(w) && !w.OrOf?
    ensures ParseAnd(Tokens(w) + rest) == AndLoop(Meaning(w), rest)
    decreases w, 1
  {
    if w.AndOf? {
      var tail := [AndWord] + (Tokens(w.right) + rest);
      assert Tokens(w) + rest == Tokens(w.left) + tail;
      AndParses(w.left, tail);
      PrimaryParses(w.right, rest);
      assert tail[1..] == Tokens(w.right) + rest;
    } else {
      PrimaryParses(w, rest);
    }
  }

  lemma {:induction false} ExprParses(w: Written, rest: seq<Token>)
    requires Grammatical(w) && !Peek(rest).AndWord?
    ensures ParseExpr(Tokens(w) + rest) == OrLoop(Meaning(w), rest)
    decreases w, 2
  {
    if w.OrOf? {
      var tail := [OrWord] + (Tokens(w.right) + rest);
      assert Tokens(w) + rest == Tokens(w.left) + tail;
      ExprParses(w.left, tail);
      AndParses(w.right, rest);
      assert tail[1..] == Tokens(w.right) + rest;
    } else {
      AndParses(w, rest);
    }
  }

  predicate Ends(rest: seq<Token>) { !Peek(rest).AndWord? && !Peek(rest).OrWord? }

  /** Whatever is written in the grammar is read back with its meaning, consuming exactly its tokens. */
  lemma {:induction false} WrittenParses(w: Written, rest: seq<Token>)
    requires Grammatical(w) && Ends(rest)
    ensures ParseExpr(Tokens(w) + rest) == Ok(Meaning(w), rest)
  {
    ExprParses(w, rest);
  }

  // ── Every tree can be written, with few parentheses or with many ──

  predicate TreeOk(e: Expr) {
    match e
    case Atom(p) => PredOk(p)
    case And(l, r) => TreeOk(l) && TreeOk(r)
    case Or(l, r) => TreeOk(l) && TreeOk(r)
  }

  /** Parentheses around every compound operand. */
  function Bracketed(e: Expr): (w: Written)
    requires TreeOk(e)
    ensures Grammatical(w) && Meaning(w) == e
  {
    match e
    case Atom(p) => Leaf(p)
    case And(l, r) => AndOf(Operand(l), Operand(r))
    case Or(l, r) => OrOf(Operand(l), Operand(r))
  }

  function Operand(e: Expr): (w: Written)
    requires TreeOk(e)
    ensures Grammatical(w) && Meaning(w) == e && (w.Leaf? || w.Parens?)
  {
    match e
    case Atom(p) => Leaf(p)
    case And(l, r) => Parens(AndOf(Operand(l), Operand(r)))
    case Or(l, r) => Parens(OrOf(Operand(l), Operand(r)))
  }

  /** Only the parentheses that precedence and left association call for. */
  function Minimal(e: Expr): (w: Written)
    requires TreeOk(e)
    ensures Grammatical(w) && Meaning(w) == e && (w.OrOf? <==> e.Or?) && (w.AndOf? <==> e.And?)
  {
    match e
    case Atom(p) => Leaf(p)
    case And(l, r) =>
      var a, b := Minimal(l), Minimal(r);
      AndOf(if l.Or? then Parens(a) else a, if r.Atom? then b else Parens(b))
    case Or(l, r) =>
      var a, b := Minimal(l), Minimal(r);
      OrOf(a, if r.Or? then Parens(b) else b)
  }

  /** Parsing inverts printing, with all parentheses and with as few as possible. */
  lemma {:induction false} PrintedParses(e: Expr, rest: seq<Token>)
    requires TreeOk(e) && Ends(rest)
    ensures ParseExpr(Tokens(Bracketed(e)) + rest) == Ok(e, rest)
    ensures ParseExpr(Tokens(Minimal(e)) + rest) == Ok(e, rest)
  {
    WrittenParses(Bracketed(e), rest);
    WrittenParses(Minimal(e), rest);
  }

  // ── Nothing else is read ──

  lemma {:induction false} NameRead(ts: seq<Token>)
    requires ParseName(ts).Ok?
    ensures var r := ParseName(ts); NameOk(r.value) && ts == NameTokens(r.value) + r.rest
  {
    if Peek(ts[1..]).Dot? {
      assert ts[1] == ts[1..][0] && ts[2] == ts[2..][0];
    }
  }

  lemma {:induction false} OverRead(ts: seq<Token>)
    requires ParseColumn(ts).Ok? && Peek(ts).Agg? && Peek(ts[1..]).LParen? && !Peek(ts[2..]).Star?
    ensures var r := ParseColumn(ts); ColumnOk(r.value) && ts == ColumnTokens(r.value) + r.rest
  {
    var n := ParseName(ts[2..]);
    NameRead(ts[2..]);
    assert n.rest == [RParen] + n.rest[1..];
    assert ts[1] == ts[1..][0];
    Two(ts, ts[0], LParen);
    Glue([ts[0], LParen], NameTokens(n.value), [RParen], n.rest[1..]);
  }

  lemma {:induction false} ColumnRead(ts: seq<Token>)
    requires ParseColumn(ts).Ok?
    ensures var r := ParseColumn(ts); ColumnOk(r.value) && ts == ColumnTokens(r.value) + r.rest
  {
    if Peek(ts).Agg? {
      if Peek(ts[2..]).Star? {
        assert ts[1] == ts[1..][0] && ts[2] == ts[2..][0] && ts[3] == ts[3..][0];
      } else {
        OverRead(ts);
      }
    } else {
      NameRead(ts);
    }
  }

  lemma {:induction false} ValuesRead(ts: seq<Token>)
    requires ParseValues(ts).Ok?
    ensures var r := ParseValues(ts); r.value != [] && ts == ValueTokens(r.value) + r.rest
  {
    if Peek(ts[1..]).Comma? {
      ValuesRead(ts[2..]);
      var more := ParseValues(ts[2..]);
      var all := [ts[0].value] + more.value;
      assert ts[1] == ts[1..][0] && all[1..] == more.value;
      assert ts == [ts[0], ts[1]] + ts[2..];
    }
  }

  lemma {:induction false} CompareRead(ts: seq<Token>, c: Parse<Column>)
    requires c == ParseColumn(ts) && c.Ok? && Peek(c.rest).Op? && Peek(c.rest[1..]).Lit?
    ensures var r := ParsePredicate(ts); r.Ok? && PredOk(r.value) && ts == PredTokens(r.value) + r.rest
  {
    ColumnRead(ts);
    assert c.rest[1] == c.rest[1..][0];
    Two(c.rest, c.rest[0], c.rest[1]);
    Assoc(ColumnTokens(c.value), [c.rest[0], c.rest[1]], c.rest[2..]);
  }

  lemma {:induction false} InRead(ts: seq<Token>)
    requires ParseIn(ts).Ok?
    ensures var r := ParseIn(ts); r.value != [] && ts == [LParen] + (ValueTokens(r.value) + ([RParen] + r.rest))
  {
    var vs := ParseValues(ts[1..]);
    ValuesRead(ts[1..]);
    assert vs.rest == [RParen] + vs.rest[1..];
    assert ts == [LParen] + ts[1..];
  }

  lemma {:induction false} MemberRead(ts: seq<Token>, c: Parse<Column>, vs: Parse<seq<Literal>>)
    requires c == ParseColumn(ts) && c.Ok? && Peek(c.rest).InWord? && vs == ParseIn(c.rest[1..]) && vs.Ok?
    ensures var r := ParsePredicate(ts); r.Ok? && PredOk(r.value) && ts == PredTokens(r.value) + r.rest
  {
    ColumnRead(ts);
    InRead(c.rest[1..]);
    assert c.rest == [InWord] + c.rest[1..];
    var list := ValueTokens(vs.value) + ([RParen] + vs.rest);
    Assoc([InWord], [LParen], list);
    assert [InWord] + [LParen] == [InWord, LParen];
    GlueMore(ColumnTokens(c.value), [InWord, LParen], ValueTokens(vs.value), [RParen], vs.rest);
  }

  lemma {:induction false} PredRead(ts: seq<Token>)
    requires ParsePredicate(ts).Ok?
    ensures var r := ParsePredicate(ts); PredOk(r.value) && ts == PredTokens(r.value) + r.rest
  {
    var c := ParseColumn(ts);
    if Peek(c.rest).Op? {
      CompareRead(ts, c);
    } else {
      MemberRead(ts, c, ParseIn(c.rest[1..]));
    }
  }

  ghost predicate Wrote(w: Written, e: Expr, ts: seq<Token>, rest: seq<Token>) {
    Grammatical(w) && Meaning(w) == e && ts == Tokens(w) + rest
  }

  lemma {:induction false} PrimaryRead(ts: seq<Token>) returns (w: Written)
    requires ParsePrimary(ts).Ok?
    ensures Wrote(w, ParsePrimary(ts).value, ts, ParsePrimary(ts).rest) && (w.Leaf? || w.Parens?)
    decreases |ts|, 0
  {
    if Peek(ts).LParen? {
      var e := ParseExpr(ts[1..]);
      var i := ExprRead(ts[1..]);
      w := Parens(i);
      assert e.rest == [RParen] + e.rest[1..];
      assert ts == [LParen] + ts[1..];
      Glue([LParen], Tokens(i), [RParen], e.rest[1..]);
    } else {
      PredRead(ts);
      w := Leaf(ParsePredicate(ts).value);
    }
  }

  lemma {:induction false} AndLoopRead(v: Written, all: seq<Token>, ts: seq<Token>) returns (w: Written)
    requires Wrote(v, Meaning(v), all, ts) && !v.OrOf? && AndLoop(Meaning(v), ts).Ok?
    ensures Wrote(w, AndLoop(Meaning(v), ts).value, all, AndLoop(Meaning(v), ts).rest) && !w.OrOf?
    ensures !Peek(AndLoop(Meaning(v), ts).rest).AndWord?
    decreases |ts|, 1
  {
    w := v;
    if Peek(ts).AndWord? {
      var right := ParsePrimary(ts[1..]);
      var r := PrimaryRead(ts[1..]);
      var x := AndOf(v, r);
      assert ts == [AndWord] + ts[1..];
      Glue(Tokens(v), [AndWord], Tokens(r), right.rest);
      w := AndLoopRead(x, all, right.rest);
    }
  }

  lemma {:induction false} AndRead(ts: seq<Token>) returns (w: Written)
    requires ParseAnd(ts).Ok?
    ensures Wrote(w, ParseAnd(ts).value, ts, ParseAnd(ts).rest) && !w.OrOf? && !Peek(ParseAnd(ts).rest).AndWord?
    decreases |ts|, 2
  {
    var v := PrimaryRead(ts);
    w := AndLoopRead(v, ts, ParsePrimary(ts).rest);
  }

  lemma {:induction false} OrLoopRead(v: Written, all: seq<Token>, ts: seq<Token>) returns (w: Written)
    requires Wrote(v, Meaning(v), all, ts) && !Peek(ts).AndWord? && OrLoop(Meaning(v), ts).Ok?
    ensures Wrote(w, OrLoop(Meaning(v), ts).value, all, OrLoop(Meaning(v), ts).rest) && Ends(OrLoop(Meaning(v), ts).rest)
    decreases |ts|, 3
  {
    w := v;
    if Peek(ts).OrWord? {
      var right := ParseAnd(ts[1..]);
      var r := AndRead(ts[1..]);
      var x := OrOf(v, r);
      assert ts == [OrWord] + ts[1..];
      Glue(Tokens(v), [OrWord], Tokens(r), right.rest);
      w := OrLoopRead(x, all, right.rest);
    }
  }

  /** Whatever parses was written in the grammar, and the parse is its meaning. */
  lemma {:induction false} ExprRead(ts: seq<Token>) returns (w: Written)
    requires ParseExpr(ts).Ok?
    ensures Wrote(w, ParseExpr(ts).value, ts, ParseExpr(ts).rest) && Ends(ParseExpr(ts).rest)
    decreases |ts|, 4
  {
    var v := AndRead(ts);
    w := OrLoopRead(v, ts, ParseAnd(ts).rest);
  }

  /** The parser accepts exactly the grammar, and a token list has one meaning only. */
  lemma {:induction false} ParsesExactly(ts: seq<Token>, e: Expr, rest: seq<Token>)
    ensures ParseExpr(ts) == Ok(e, rest) <==> Ends(rest) && exists w :: Wrote(w, e, ts, rest)
  {
    if ParseExpr(ts) == Ok(e, rest) {
      var w := ExprRead(ts);
    }
    if w :| Ends(rest) && Wrote(w, e, ts, rest) {
      WrittenParses(w, rest);
    }
  }
}
