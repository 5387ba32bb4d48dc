/** The parser object for WHERE expressions: a token list and a position that only moves forward. */
module WhereParser {
  import opened Grammar

  datatype Result<+T> = Value(value: T) | InvalidArgument

  class Parser {
    const tokens: seq<Token>
    var pos: nat

    constructor (ts: seq<Token>)
      ensures Valid() && tokens == ts && Rest() == ts
    {
      tokens := ts;
      pos := 0;
    }

    ghost predicate Valid() reads this { pos <= |tokens| }

    /** The tokens still to be read. */
    ghost function Rest(): seq<Token> reads this requires Valid() { tokens[pos..] }

    /** What a method does to the parser, given what the grammar says of the tokens that were left. */
    ghost predicate Did<T>(p: Parse<T>, r: Result<T>) reads this {
      Valid() && match p case Ok(v, rest) => r == Value(v) && Rest() == rest case Fail => r == InvalidArgument
    }

    function Current(): (t: Token)
      reads this
      requires Valid()
      ensures t == Peek(Rest())
    {
      if pos < |tokens| then tokens[pos] else End
    }

    method NextToken()
      requires Valid()
      modifies this
      ensures Valid() && Rest() == Advance(old(Rest())) && pos >= old(pos)
    {
      if pos < |tokens| { pos := pos + 1; }
    }

    /** Moves past the expected token; on any other it stays. */
    method Consume(expected: Token) returns (ok: bool)
      requires Valid()
      modifies this
      ensures Valid() && ok == (Peek(old(Rest())) == expected)
      ensures Rest() == (if ok then Advance(old(Rest())) else old(Rest())) && pos >= old(pos)
    {
      ok := Current() == expected;
      if ok { NextToken(); }
    }

    method ParseNameTokens() returns (r: Result<Name>)
      requires Valid()
      modifies this
      ensures Did(ParseName(old(Rest())), r) && pos >= old(pos)
    {
      if !Current().Word? { return InvalidArgument; }
      var name := Current().name;
      NextToken();
      if Current().Dot? {
        NextToken();
        if !Current().Word? { return InvalidArgument; }
        var second := Current().name;
        NextToken();
        return Value(Name(name, second, true));
      }
      return Value(Name("", name, false));
    }

    method ParseColumnRef() returns (r: Result<Column>)
      requires Valid()
      modifies this
      ensures Did(ParseColumn(old(Rest())), r) && pos >= old(pos)
    {
      if Current().Agg? {
        var func := Current().func;
        NextToken();
        var open := Consume(LParen);
        if !open { return InvalidArgument; }
        var column: Column;
        if Current().Star? {
          NextToken();
          column := OverStar(func);
        } else {
          var n := ParseNameTokens();
          if n.InvalidArgument? { return InvalidArgument; }
          column := Over(func, n.value);
        }
        var close := Consume(RParen);
        if !close { return InvalidArgument; }
        return Value(column);
      }
      var n := ParseNameTokens();
      if n.InvalidArgument? { return InvalidArgument; }
      return Value(Plain(n.value));
    }

    /** The list of an IN, without its parentheses. */
    method ParseValueList() returns (r: Result<seq<Literal>>)
      requires Valid()
      modifies this
      ensures Did(ParseValues(old(Rest())), r) && pos >= old(pos)
    {
      if !Current().Lit? { return InvalidArgument; }
      var values := [Current().value];
      NextToken();
      ghost var start := old(Rest());
      while Current().Comma?
        invariant Valid() && pos >= old(pos) && Continues(start, values, Rest())
        decreases |tokens| - pos
      {
        ContinuesOn(start, values, Rest());
        NextToken();
        if !Current().Lit? { return InvalidArgument; }
        values := values + [Current().value];
        NextToken();
      }
      return Value(values);
    }

    /** After IN: the parenthesized list. */
    method ParseInList() returns (r: Result<seq<Literal>>)
      requires Valid()
      modifies this
      ensures Did(ParseIn(old(Rest())), r) && pos >= old(pos)
    {
      var open := Consume(LParen);
      if !open { return InvalidArgument; }
      var values := ParseValueList();
      if values.InvalidArgument? { return InvalidArgument; }
      var close := Consume(RParen);
      if !close { return InvalidArgument; }
      return values;
    }

    method ParsePredicateTokens() returns (r: Result<Pred>)
      requires Valid()
      modifies this
      ensures Did(ParsePredicate(old(Rest())), r) && pos >= old(pos)
    {
      var column := ParseColumnRef();
      if column.InvalidArgument? { return InvalidArgument; }
      ghost var rest := Rest();
      if Current().InWord? {
        NextToken();
        var values := ParseInList();
        assert ParsePredicate(old(Rest())) == match ParseIn(rest[1..]) case Fail => Fail case Ok(vs, more) => Ok(Member(column.value, vs), more);
        if values.InvalidArgument? { return InvalidArgument; }
        return Value(Member(column.value, values.value));
      }
      if !Current().Op? { return InvalidArgument; }
      var op := Current().cmp;
      NextToken();
      if !Current().Lit? { return InvalidArgument; }
      var v := Current().value;
      NextToken();
      assert Rest() == rest[2..];
      return Value(Compare(column.value, op, v));
    }

    method ParsePrimaryExpr() returns (r: Result<Expr>)
      requires Valid()
      modifies this
      ensures Did(ParsePrimary(old(Rest())), r) && pos >= old(pos)
      decreases |tokens| - pos, 0
    {
      if Current().LParen? {
        NextToken();
        var e := ParseWhere();
        if e.InvalidArgument? { return InvalidArgument; }
        var close := Consume(RParen);
        if !close { return InvalidArgument; }
        return e;
      }
      var p := ParsePredicateTokens();
      if p.InvalidArgument? { return InvalidArgument; }
      return Value(Atom(p.value));
    }

    method ParseAndChain() returns (r: Result<Expr>)
      requires Valid()
      modifies this
      ensures Did(ParseAnd(old(Rest())), r) && pos >= old(pos)
      decreases |tokens| - pos, 1
    {
      var left := ParsePrimaryExpr();
      if left.InvalidArgument? { return InvalidArgument; }
      var node := left.value;
      ghost var start := old(Rest());
      while Current().AndWord?
        invariant Valid() && pos >= old(pos) && ParseAnd(start) == AndLoop(node, Rest())
        invariant |Rest()| < |start|
        decreases |tokens| - pos
      {
        NextToken();
        var right := ParsePrimaryExpr();
        if right.InvalidArgument? { return InvalidArgument; }
        node := And(node, right.value);
      }
      return Value(node);
    }

    method ParseWhere() returns (r: Result<Expr>)
      requires Valid()
      modifies this
      ensures Did(ParseExpr(old(Rest())), r) && pos >= old(pos)
      decreases |tokens| - pos, 2
    {
      var left := ParseAndChain();
      if left.InvalidArgument? { return InvalidArgument; }
      var node := left.value;
      ghost var start := old(Rest());
      while Current().OrWord?
        invariant Valid() && pos >= old(pos) && ParseExpr(start) == OrLoop(node, Rest())
        invariant |Rest()| < |start|
        decreases |tokens| - pos
      {
        NextToken();
        var right := ParseAndChain();
        if right.InvalidArgument? { return InvalidArgument; }
        node := Or(node, right.value);
      }
      return Value(node);
    }
  }

  /** Having read these values, the list is what they and the list after the next comma make. */
  ghost predicate Continues(start: seq<Token>, values: seq<Literal>, rest: seq<Token>) {
    ParseValues(start) ==
      if !Peek(rest).Comma? then Ok(values, rest)
      else
        var more := ParseValues(rest[1..]);
        if more.Fail? then Fail else Ok(values + more.value, more.rest)
  }

  lemma ContinuesOn(start: seq<Token>, values: seq<Literal>, rest: seq<Token>)
    requires Continues(start, values, rest) && Peek(rest).Comma?
    ensures Peek(rest[1..]).Lit? ==> Continues(start, values + [rest[1].value], rest[2..])
    ensures !Peek(rest[1..]).Lit? ==> ParseValues(start) == Fail
  {
    if Peek(rest[1..]).Lit? {
      assert rest[1..][0] == rest[1] && rest[1..][1..] == rest[2..];
      if Peek(rest[2..]).Comma? {
        assert rest[1..][2..] == rest[2..][1..];
        var more := ParseValues(rest[3..]);
        assert rest[2..][1..] == rest[3..];
        if more.Ok? { assert values + ([rest[1].value] + more.value) == (values + [rest[1].value]) + more.value; }
      }
    }
  }
}
