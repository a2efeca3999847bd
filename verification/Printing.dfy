/** What the condition printer writes and which values it registers. */
module Printing {
  import opened Conditions
  import opened Digits
  import opened QtText
  import opened Tokens

  /** The placeholder of bind list index `k`. */
  function Placeholder(k: nat): string {
    ":" + Number(k, 10)
  }

  predicate NumericPlaceholder(p: string) {
    |p| >= 2 && p[0] == ':' && '0' <= p[1] <= '9'
  }

  lemma PlaceholderShape(k: nat)
    ensures NumericPlaceholder(Placeholder(k)) && Word(Placeholder(k))
  {
    NumberRoundTrip(k, 10);
  }

  lemma PlaceholderInjective(j: nat, k: nat)
    requires Placeholder(j) == Placeholder(k)
    ensures j == k
  {
    assert Placeholder(j)[1..] == Number(j, 10) && Placeholder(k)[1..] == Number(k, 10);
    NumberInjective(j, k, 10);
  }

  // ----- values -----

  /** A leaf whose value goes through the bind list. */
  predicate Binds(c: Condition) {
    c.comparedColumn == "" && c.value != Invalid && c.value != Now
  }

  /** The values a condition registers, in print order. */
  function Values(c: Condition): seq<Variant>
    decreases c, 1
  {
    if c.subs != [] then ValuesOf(c.subs)
    else if Binds(c) then [c.value] else []
  }

  function ValuesOf(cs: seq<Condition>): seq<Variant>
    decreases cs, 0
  {
    if cs == [] then [] else Values(cs[0]) + ValuesOf(cs[1..])
  }

  // ----- text -----

  function RightSide(c: Condition, k: nat): Token {
    if c.comparedColumn != "" then Name(c.comparedColumn)
    else if c.value == Now then NowCall
    else if c.value != Invalid then Param(Placeholder(k))
    else if c.placeholder != "" then Param(c.placeholder)
    else NullWord
  }

  /** The tokens of a condition whose first registered value gets bind list index `k`. */
  function Printed(c: Condition, k: nat): seq<Token>
    decreases c, 1
  {
    if c.subs == [] then [Name(c.column), Compare(c.compareOp), RightSide(c, k)]
    else if |c.subs| == 1 then Printed(c.subs[0], k)
    else [LParen] + PrintedList(c.subs, c.logicOp, k) + [RParen]
  }

  function PrintedList(cs: seq<Condition>, op: LogicOperator, k: nat): seq<Token>
    requires cs != []
    decreases cs, 0
  {
    if |cs| == 1 then Printed(cs[0], k)
    else Printed(cs[0], k) + [Connective(op)] + PrintedList(cs[1..], op, k + |Values(cs[0])|)
  }

  /** The rendered sub-conditions, before they are joined. */
  function RenderedList(cs: seq<Condition>, k: nat): seq<string> {
    if cs == [] then []
    else [Render(Printed(cs[0], k))] + RenderedList(cs[1..], k + |Values(cs[0])|)
  }

  lemma {:induction false} JoinRendered(cs: seq<Condition>, op: LogicOperator, k: nat)
    requires cs != []
    ensures Join(RenderedList(cs, k), SpellLogic(op)) == Render(PrintedList(cs, op, k))
  {
    if |cs| == 1 {
      assert RenderedList(cs[1..], k + |Values(cs[0])|) == [];
    } else {
      var k' := k + |Values(cs[0])|;
      JoinRendered(cs[1..], op, k');
      assert RenderedList(cs, k)[1..] == RenderedList(cs[1..], k');
      RenderConcat(Printed(cs[0], k), [Connective(op)]);
      RenderConcat(Printed(cs[0], k) + [Connective(op)], PrintedList(cs[1..], op, k'));
      assert Render([Connective(op)]) == SpellLogic(op);
    }
  }

  // ----- placeholders in the text -----

  /** The numeric placeholders among the tokens, in text order. */
  function Numerals(ts: seq<Token>): seq<string> {
    if ts == [] then []
    else (if ts[0].Param? && NumericPlaceholder(ts[0].text) then [ts[0].text] else []) + Numerals(ts[1..])
  }

  lemma {:induction false} NumeralsConcat(a: seq<Token>, b: seq<Token>)
    ensures Numerals(a + b) == Numerals(a) + Numerals(b)
  {
    if a == [] {
      assert a + b == b;
    } else {
      assert (a + b)[1..] == a[1..] + b;
      NumeralsConcat(a[1..], b);
    }
  }

  function Run(k: nat, n: nat): seq<string> {
    seq(n, i requires 0 <= i < n => Placeholder(k + i))
  }

  lemma RunConcat(k: nat, m: nat, n: nat)
    ensures Run(k, m) + Run(k + m, n) == Run(k, m + n)
  {
  }

  /** The numeric placeholders of a printed condition are exactly those of its values: consecutive, in text order,
      and none of them comes from a user placeholder. */
  lemma {:induction false} PrintedNumerals(c: Condition, k: nat)
    requires WellFormed(c)
    ensures Numerals(Printed(c, k)) == Run(k, |Values(c)|)
    decreases c, 1
  {
    if c.subs == [] {
      PlaceholderShape(k);
      var ts := Printed(c, k);
      NumeralsConcat([ts[0]], [ts[1], ts[2]]);
      NumeralsConcat([ts[1]], [ts[2]]);
      assert ts == [ts[0]] + [ts[1], ts[2]] && [ts[1], ts[2]] == [ts[1]] + [ts[2]];
      assert Numerals([ts[2]]) == Run(k, |Values(c)|);
    } else {
      PrintedListNumerals(c.subs, c.logicOp, k);
      if |c.subs| > 1 {
        var list := PrintedList(c.subs, c.logicOp, k);
        NumeralsConcat([LParen], list);
        NumeralsConcat([LParen] + list, [RParen]);
      }
    }
  }

  lemma {:induction false} PrintedListNumerals(cs: seq<Condition>, op: LogicOperator, k: nat)
    requires cs != [] && forall c <- cs :: WellFormed(c)
    ensures Numerals(PrintedList(cs, op, k)) == Run(k, |ValuesOf(cs)|)
    decreases cs, 0
  {
    PrintedNumerals(cs[0], k);
    if |cs| == 1 {
      assert ValuesOf(cs[1..]) == [];
    } else {
      var k' := k + |Values(cs[0])|;
      PrintedListNumerals(cs[1..], op, k');
      NumeralsConcat(Printed(cs[0], k), [Connective(op)]);
      NumeralsConcat(Printed(cs[0], k) + [Connective(op)], PrintedList(cs[1..], op, k'));
      RunConcat(k, |Values(cs[0])|, |ValuesOf(cs[1..])|);
    }
  }

  // ----- the printed text can be read back -----

  /** Conditions whose column texts and placeholders the lexer can tell apart from the rest. */
  ghost predicate LexableCondition(c: Condition) {
    if c.subs != [] then forall s <- c.subs :: LexableCondition(s)
    else
      && LexableName(c.column)
      && (c.comparedColumn != "" ==> LexableName(c.comparedColumn))
      && (c.placeholder != "" ==> Word(c.placeholder) && c.placeholder[0] == ':')
  }

  lemma LexableConcat(a: seq<Token>, b: seq<Token>)
    requires LexableSeq(a) && LexableSeq(b)
    requires a != [] && b != [] && Operand(a[|a| - 1]) ==> Separator(b[0])
    ensures LexableSeq(a + b)
  {
  }

  lemma {:induction false} PrintedLexable(c: Condition, k: nat)
    requires LexableCondition(c)
    ensures LexableSeq(Printed(c, k)) && Printed(c, k) != []
    decreases c, 1
  {
    if c.subs == [] {
      PlaceholderShape(k);
    } else if |c.subs| == 1 {
      PrintedLexable(c.subs[0], k);
    } else {
      PrintedListLexable(c.subs, c.logicOp, k);
      var list := PrintedList(c.subs, c.logicOp, k);
      LexableConcat([LParen], list);
      LexableConcat([LParen] + list, [RParen]);
    }
  }

  lemma {:induction false} PrintedListLexable(cs: seq<Condition>, op: LogicOperator, k: nat)
    requires cs != [] && forall c <- cs :: LexableCondition(c)
    ensures LexableSeq(PrintedList(cs, op, k))
    decreases cs, 0
  {
    PrintedLexable(cs[0], k);
    if |cs| > 1 {
      var k' := k + |Values(cs[0])|;
      PrintedListLexable(cs[1..], op, k');
      LexableConcat(Printed(cs[0], k), [Connective(op)]);
      LexableConcat(Printed(cs[0], k) + [Connective(op)], PrintedList(cs[1..], op, k'));
    }
  }
}
