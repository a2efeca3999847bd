/** Search conditions as section 8.12 of SQL-92 reads them: AND binds tighter than OR. */
module Parsing {
  import opened Conditions
  import opened Tokens
  import opened Printing

  datatype Expr =
    | Comparison(column: string, op: CompareOperator, right: Token)
    | Junction(logic: LogicOperator, args: seq<Expr>)

  datatype Parsed<T> = Parsed(value: T, rest: seq<Token>) | NoParse

  function Single(op: LogicOperator, args: seq<Expr>): Expr {
    if |args| == 1 then args[0] else Junction(op, args)
  }

  function ParseCondition(ts: seq<Token>): (r: Parsed<Expr>)
    ensures r.Parsed? ==> |r.rest| < |ts|
    decreases |ts|, 4
  {
    match ParseTerms(ts)
    case NoParse => NoParse
    case Parsed(terms, rest) => Parsed(Single(Or, terms), rest)
  }

  function ParseTerms(ts: seq<Token>): (r: Parsed<seq<Expr>>)
    ensures r.Parsed? ==> |r.rest| < |ts|
    decreases |ts|, 3
  {
    match ParseTerm(ts)
    case NoParse => NoParse
    case Parsed(t, rest) =>
      if rest != [] && rest[0] == Connective(Or) then
        match ParseTerms(rest[1..])
        case NoParse => NoParse
        case Parsed(more, rest') => Parsed([t] + more, rest')
      else Parsed([t], rest)
  }

  function ParseTerm(ts: seq<Token>): (r: Parsed<Expr>)
    ensures r.Parsed? ==> |r.rest| < |ts|
    decreases |ts|, 2
  {
    match ParseFactors(ts)
    case NoParse => NoParse
    case Parsed(factors, rest) => Parsed(Single(And, factors), rest)
  }

  function ParseFactors(ts: seq<Token>): (r: Parsed<seq<Expr>>)
    ensures r.Parsed? ==> |r.rest| < |ts|
    decreases |ts|, 1
  {
    match ParseFactor(ts)
    case NoParse => NoParse
    case Parsed(f, rest) =>
      if rest != [] && rest[0] == Connective(And) then
        match ParseFactors(rest[1..])
        case NoParse => NoParse
        case Parsed(more, rest') => Parsed([f] + more, rest')
      else Parsed([f], rest)
  }

  function ParseFactor(ts: seq<Token>): (r: Parsed<Expr>)
    ensures r.Parsed? ==> |r.rest| < |ts|
    decreases |ts|, 0
  {
    if |ts| >= 1 && ts[0] == LParen then
      match ParseCondition(ts[1..])
      case NoParse => NoParse
      case Parsed(e, rest) =>
        if rest != [] && rest[0] == RParen then Parsed(e, rest[1..]) else NoParse
    else if |ts| >= 3 && ts[0].Name? && ts[1].Compare? && Operand(ts[2]) then
      Parsed(Comparison(ts[0].text, ts[1].op, ts[2]), ts[3..])
    else NoParse
  }

  /** A complete search condition. */
  function Parse(ts: seq<Token>): Result<Expr> {
    match ParseCondition(ts)
    case NoParse => Failure
    case Parsed(e, rest) => if rest == [] then Success(e) else Failure
  }

  // ----- what printing means for the parser -----

  /** The condition tree with single-child nodes replaced by their child. */
  function Collapsed(c: Condition, k: nat): Expr
    decreases c, 1
  {
    if c.subs == [] then Comparison(c.column, c.compareOp, RightSide(c, k))
    else if |c.subs| == 1 then Collapsed(c.subs[0], k)
    else Junction(c.logicOp, CollapsedList(c.subs, k))
  }

  function CollapsedList(cs: seq<Condition>, k: nat): (es: seq<Expr>)
    ensures |es| == |cs|
    decreases cs, 0
  {
    if cs == [] then [] else [Collapsed(cs[0], k)] + CollapsedList(cs[1..], k + |Values(cs[0])|)
  }

  /** A printed condition is one factor, whatever follows it. */
  lemma {:induction false} ParsePrinted(c: Condition, k: nat, rest: seq<Token>)
    ensures ParseFactor(Printed(c, k) + rest) == Parsed(Collapsed(c, k), rest)
    decreases c, 1
  {
    var ts := Printed(c, k) + rest;
    if c.subs == [] {
      assert ts[3..] == rest;
    } else if |c.subs| == 1 {
      ParsePrinted(c.subs[0], k, rest);
    } else {
      var list := PrintedList(c.subs, c.logicOp, k);
      var closed := [RParen] + rest;
      assert ts == [LParen] + (list + closed);
      assert ts[1..] == list + closed;
      assert closed[1..] == rest;
      if c.logicOp == And {
        ParsePrintedFactors(c.subs, k, closed);
        assert ParseTerms(list + closed) == Parsed([Collapsed(c, k)], closed);
      } else {
        ParsePrintedTerms(c.subs, k, closed);
      }
    }
  }

  lemma {:induction false} ParsePrintedFactors(cs: seq<Condition>, k: nat, rest: seq<Token>)
    requires cs != [] && (rest != [] ==> rest[0] != Connective(And))
    ensures ParseFactors(PrintedList(cs, And, k) + rest) == Parsed(CollapsedList(cs, k), rest)
    decreases cs, 0
  {
    if |cs| == 1 {
      ParsePrinted(cs[0], k, rest);
      assert CollapsedList(cs, k) == [Collapsed(cs[0], k)];
    } else {
      var k' := k + |Values(cs[0])|;
      var more := PrintedList(cs[1..], And, k') + rest;
      assert PrintedList(cs, And, k) + rest == Printed(cs[0], k) + ([Connective(And)] + more);
      ParsePrinted(cs[0], k, [Connective(And)] + more);
      assert ([Connective(And)] + more)[1..] == more;
      ParsePrintedFactors(cs[1..], k', rest);
    }
  }

  lemma {:induction false} ParsePrintedTerms(cs: seq<Condition>, k: nat, rest: seq<Token>)
    requires cs != [] && (rest != [] ==> !rest[0].Connective?)
    ensures ParseTerms(PrintedList(cs, Or, k) + rest) == Parsed(CollapsedList(cs, k), rest)
    decreases cs, 0
  {
    if |cs| == 1 {
      ParsePrinted(cs[0], k, rest);
      assert ParseTerm(Printed(cs[0], k) + rest) == Parsed(Collapsed(cs[0], k), rest);
      assert CollapsedList(cs, k) == [Collapsed(cs[0], k)];
    } else {
      var k' := k + |Values(cs[0])|;
      var more := PrintedList(cs[1..], Or, k') + rest;
      var after := [Connective(Or)] + more;
      assert PrintedList(cs, Or, k) + rest == Printed(cs[0], k) + after;
      ParsePrinted(cs[0], k, after);
      assert ParseTerm(Printed(cs[0], k) + after) == Parsed(Collapsed(cs[0], k), after);
      assert after[1..] == more;
      ParsePrintedTerms(cs[1..], k', rest);
    }
  }

  /** Print then parse: the tree comes back with single-child nodes collapsed. */
  lemma PrintParse(c: Condition, k: nat)
    ensures Parse(Printed(c, k)) == Success(Collapsed(c, k))
  {
    assert Printed(c, k) + [] == Printed(c, k);
    ParsePrinted(c, k, []);
    var ts := Printed(c, k);
    assert ParseFactors(ts) == Parsed([Collapsed(c, k)], []);
    assert ParseTerm(ts) == Parsed(Collapsed(c, k), []);
    assert ParseTerms(ts) == Parsed([Collapsed(c, k)], []);
    assert ParseCondition(ts) == Parsed(Collapsed(c, k), []);
  }

  /** The same from the characters of the statement, for names the lexer can tell apart. */
  lemma TextRoundTrip(c: Condition, k: nat)
    requires LexableCondition(c)
    ensures Lex(Render(Printed(c, k))) == Success(Printed(c, k))
    ensures Parse(Printed(c, k)) == Success(Collapsed(c, k))
  {
    PrintedLexable(c, k);
    LexReadsBack(Printed(c, k));
    PrintParse(c, k);
  }
}
