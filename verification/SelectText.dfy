/** The segments of conditions and of the fixed text of a SELECT. */
module SelectText {
  import opened Conditions
  import opened Digits
  import opened QtText
  import opened Tokens
  import opened Printing
  import opened Statements
  import opened Builders
  import opened Segments

  // ----- conditions -----

  function SegmentOf(t: Token): Segment {
    match t
    case Name(s) => Given(s)
    case Param(s) => if NumericPlaceholder(s) then Generated(s) else Given(s)
    case Raw(s) => Given(s)
    case _ => Keyword(Spell(t))
  }

  function SegmentsOf(ts: seq<Token>): seq<Segment> {
    if ts == [] then [] else [SegmentOf(ts[0])] + SegmentsOf(ts[1..])
  }

  lemma {:induction false} SegmentsConcat(a: seq<Token>, b: seq<Token>)
    ensures SegmentsOf(a + b) == SegmentsOf(a) + SegmentsOf(b)
  {
    if a == [] {
      assert a + b == b;
    } else {
      assert (a + b)[1..] == a[1..] + b;
      SegmentsConcat(a[1..], b);
    }
  }

  lemma {:induction false} SegmentsSpelled(ts: seq<Token>)
    ensures Spelled(SegmentsOf(ts)) == Render(ts)
    ensures Generateds(SegmentsOf(ts)) == Numerals(ts)
  {
    if ts != [] {
      SegmentsSpelled(ts[1..]);
      var gs := SegmentsOf(ts);
      assert gs[0] == SegmentOf(ts[0]) && gs[1..] == SegmentsOf(ts[1..]);
    }
  }

  /** The texts a condition takes from its caller, in print order. */
  function ConditionTexts(c: Condition): seq<string>
    decreases c, 1
  {
    if c.subs != [] then ConditionsTexts(c.subs)
    else
      [c.column]
      + if c.comparedColumn != "" then [c.comparedColumn]
        else if c.value == Invalid && c.placeholder != "" then [c.placeholder]
        else []
  }

  function ConditionsTexts(cs: seq<Condition>): seq<string>
    decreases cs, 0
  {
    if cs == [] then [] else ConditionTexts(cs[0]) + ConditionsTexts(cs[1..])
  }

  ghost predicate Sound(gs: seq<Segment>) {
    Spaced(gs) && forall g <- gs :: Proper(g)
  }

  lemma SoundAppend(a: seq<Segment>, b: seq<Segment>)
    requires Sound(a) && Sound(b) && (Closes(a) || Opens(b))
    ensures Sound(a + b)
    ensures Givens(a + b) == Givens(a) + Givens(b) && Generateds(a + b) == Generateds(a) + Generateds(b)
    ensures Spelled(a + b) == Spelled(a) + Spelled(b)
  {
    SpacedAppend(a, b);
    GivensConcat(a, b);
    GeneratedsConcat(a, b);
    SpelledConcat(a, b);
  }

  lemma OneKeyword(s: string)
    requires Proper(Keyword(s))
    ensures var g := [Keyword(s)]; Sound(g) && Givens(g) == [] && Generateds(g) == [] && Spelled(g) == s
    ensures StartsAtEdge(s) ==> Opens([Keyword(s)])
    ensures EndsAtEdge(s) ==> Closes([Keyword(s)])
  {
    hide Proper;
    assert [Keyword(s)][1..] == [];
  }

  lemma OneGiven(s: string)
    ensures var g := [Given(s)]; Sound(g) && Givens(g) == [s] && Generateds(g) == [] && Spelled(g) == s
  {
    assert [Given(s)][1..] == [];
  }

  lemma TokenProper(t: Token, k: nat)
    requires t.Param? && NumericPlaceholder(t.text) ==> t == Param(Placeholder(k))
    ensures Proper(SegmentOf(t))
  {
    match t
    case Param(s) =>
      if NumericPlaceholder(s) {
        PlaceholderProper(k);
      }
    case Connective(op) =>
      match op {
        case And => WordProper(" AND ");
        case Or => WordProper(" OR ");
      }
    case Compare(op) => CompareProper(op);
    case LParen => WordProper("(");
    case RParen => WordProper(")");
    case NowCall => WordProper("now()");
    case NullWord => NoColon("NULL");
    case _ =>
  }

  lemma WordProper(s: string)
    requires ':' !in s && (forall i :: 0 <= i < |s| && s[i] == 'U' ==> !UnionAt(s, i))
    ensures Proper(Keyword(s))
  {
    NoColon(s);
  }

  lemma CompareProper(op: CompareOperator)
    ensures Proper(Keyword(SpellCompare(op)))
    ensures StartsAtEdge(SpellCompare(op)) && EndsAtEdge(SpellCompare(op))
  {
    match op
    case Equals => WordProper(" = ");
    case NotEquals => WordProper(" <> ");
    case Is => WordProper(" IS ");
    case IsNot => WordProper(" IS NOT ");
    case Less => WordProper(" < ");
    case LessOrEqual => WordProper(" <= ");
    case Greater => WordProper(" > ");
    case GreaterOrEqual => WordProper(" >= ");
    case Like => WordProper(" LIKE ");
  }

  lemma Three(a: Segment, word: string, c: Segment)
    requires Proper(a) && Proper(Keyword(word)) && Proper(c) && StartsAtEdge(word) && EndsAtEdge(word)
    ensures var gs := [a, Keyword(word), c]; Sound(gs) && Givens(gs) == Givens([a]) + Givens([c])
  {
    hide Proper;
    var gs := [a, Keyword(word), c];
    assert gs[1..] == [Keyword(word), c] && gs[1..][1..] == [c] && [a][1..] == [];
    assert Spaced(gs[1..]);
    assert Givens(gs[1..]) == Givens([c]);
  }

  lemma LeafSound(c: Condition, k: nat)
    requires c.subs == [] && WellFormed(c)
    ensures Sound(SegmentsOf(Printed(c, k))) && Givens(SegmentsOf(Printed(c, k))) == ConditionTexts(c)
  {
    hide Proper, Sound, NumericPlaceholder;
    var right := RightSide(c, k);
    var ts := [Name(c.column), Compare(c.compareOp), right];
    assert ts[1..] == [Compare(c.compareOp), right] && ts[1..][1..] == [right];
    OneToken(right);
    assert SegmentsOf(ts[1..]) == [SegmentOf(Compare(c.compareOp))] + [SegmentOf(right)];
    assert SegmentsOf(ts) == [Given(c.column), Keyword(SpellCompare(c.compareOp)), SegmentOf(right)];
    CompareProper(c.compareOp);
    PlaceholderShape(k);
    UserIsNotNumeric(c);
    TokenProper(Name(c.column), k);
    TokenProper(right, k);
    Three(Given(c.column), SpellCompare(c.compareOp), SegmentOf(right));
    OneGivens(SegmentOf(right));
    OneGivens(Given(c.column));
  }

  lemma OneGivens(g: Segment)
    ensures Givens([g]) == if g.Given? then [g.text] else []
  {
    assert [g][1..] == [];
  }

  lemma UserIsNotNumeric(c: Condition)
    requires c.subs == [] && WellFormed(c)
    ensures c.placeholder != "" ==> !NumericPlaceholder(c.placeholder)
  {
  }

  lemma {:induction false} ConditionSound(c: Condition, k: nat)
    requires WellFormed(c)
    ensures Sound(SegmentsOf(Printed(c, k))) && Givens(SegmentsOf(Printed(c, k))) == ConditionTexts(c)
    decreases c, 1
  {
    hide Sound, SegmentsOf, Givens;
    if c.subs == [] {
      LeafSound(c, k);
    } else {
      ConditionsSound(c.subs, c.logicOp, k);
      if |c.subs| > 1 {
        var list := PrintedList(c.subs, c.logicOp, k);
        Parenthesized(list);
      }
    }
  }

  lemma OneToken(t: Token)
    ensures SegmentsOf([t]) == [SegmentOf(t)]
  {
    assert [t][1..] == [];
  }

  lemma Parens()
    ensures Sound([Keyword("(")]) && Closes([Keyword("(")]) && Givens([Keyword("(")]) == []
    ensures Sound([Keyword(")")]) && Opens([Keyword(")")]) && Givens([Keyword(")")]) == []
  {
    hide Proper;
    TokenProper(LParen, 0);
    TokenProper(RParen, 0);
    OneKeyword("(");
    OneKeyword(")");
  }

  lemma Parenthesized(ts: seq<Token>)
    requires Sound(SegmentsOf(ts))
    ensures Sound(SegmentsOf([LParen] + ts + [RParen]))
    ensures Givens(SegmentsOf([LParen] + ts + [RParen])) == Givens(SegmentsOf(ts))
  {
    hide Sound, SegmentsOf, Givens, Generateds, Spelled, Proper, Opens, Closes, StartsAtEdge, EndsAtEdge;
    OneToken(LParen);
    OneToken(RParen);
    Parens();
    SegmentsConcat([LParen], ts);
    SegmentsConcat([LParen] + ts, [RParen]);
    SoundAppend([Keyword("(")], SegmentsOf(ts));
    SoundAppend([Keyword("(")] + SegmentsOf(ts), [Keyword(")")]);
  }

  lemma Connected(a: seq<Token>, op: LogicOperator, b: seq<Token>)
    requires Sound(SegmentsOf(a)) && Sound(SegmentsOf(b))
    ensures Sound(SegmentsOf(a + [Connective(op)] + b))
    ensures Givens(SegmentsOf(a + [Connective(op)] + b)) == Givens(SegmentsOf(a)) + Givens(SegmentsOf(b))
  {
    hide Sound, SegmentsOf, Givens, Proper;
    var word := SpellLogic(op);
    OneToken(Connective(op));
    TokenProper(Connective(op), 0);
    OneKeyword(word);
    SegmentsConcat(a, [Connective(op)]);
    SegmentsConcat(a + [Connective(op)], b);
    SoundAppend(SegmentsOf(a), [Keyword(word)]);
    ClosesEnd(SegmentsOf(a), word);
    SoundAppend(SegmentsOf(a) + [Keyword(word)], SegmentsOf(b));
  }

  lemma ClosesEnd(a: seq<Segment>, word: string)
    requires EndsAtEdge(word)
    ensures Closes(a + [Keyword(word)])
  {
  }

  lemma {:induction false} ConditionsSound(cs: seq<Condition>, op: LogicOperator, k: nat)
    requires cs != [] && forall c <- cs :: WellFormed(c)
    ensures Sound(SegmentsOf(PrintedList(cs, op, k))) && Givens(SegmentsOf(PrintedList(cs, op, k))) == ConditionsTexts(cs)
    decreases cs, 0
  {
    hide Sound, SegmentsOf, Givens;
    ConditionSound(cs[0], k);
    if |cs| == 1 {
      assert ConditionsTexts(cs[1..]) == [];
    } else {
      var k' := k + |Values(cs[0])|;
      ConditionsSound(cs[1..], op, k');
      Connected(Printed(cs[0], k), op, PrintedList(cs[1..], op, k'));
    }
  }

  // ----- statements -----

  /** Items with commas between them. */
  function Listed(items: seq<seq<Segment>>): seq<Segment> {
    if items == [] then []
    else if |items| == 1 then items[0]
    else items[0] + [Keyword(", ")] + Listed(items[1..])
  }

  function AllSpelled(items: seq<seq<Segment>>): seq<string> {
    if items == [] then [] else [Spelled(items[0])] + AllSpelled(items[1..])
  }

  function AllGivens(items: seq<seq<Segment>>): seq<string> {
    if items == [] then [] else Givens(items[0]) + AllGivens(items[1..])
  }

  /** The builder's own words do not mention a join. */
  predicate Mute(gs: seq<Segment>) {
    forall g <- gs :: g.Keyword? ==> 'J' !in g.text
  }

  /** Fixed text outside joins: sound, and nothing generated. */
  ghost predicate Plain(gs: seq<Segment>) {
    Sound(gs) && Generateds(gs) == [] && Mute(gs)
  }

  lemma {:induction false} ListedPlain(items: seq<seq<Segment>>)
    requires forall gs <- items :: Plain(gs)
    ensures Plain(Listed(items)) && Givens(Listed(items)) == AllGivens(items)
    ensures Spelled(Listed(items)) == Join(AllSpelled(items), ", ")
  {
    hide Sound, Spelled, Givens, Generateds, Proper;
    if items == [] {
      NothingPlain();
    } else {
      assert items[0] in items && forall gs <- items[1..] :: gs in items;
      if |items| == 1 {
        assert AllGivens(items[1..]) == [] && AllSpelled(items[1..]) == [];
      } else {
        ListedPlain(items[1..]);
        CommaPlain(items[0], Listed(items[1..]));
        assert AllSpelled(items)[1..] == AllSpelled(items[1..]) && AllSpelled(items[1..]) != [];
      }
    }
  }

  lemma NothingPlain()
    ensures Plain([]) && Givens([]) == [] && Spelled([]) == ""
  {
  }

  lemma PlainAppend(a: seq<Segment>, b: seq<Segment>)
    requires Plain(a) && Plain(b) && (Closes(a) || Opens(b))
    ensures Plain(a + b) && Givens(a + b) == Givens(a) + Givens(b) && Spelled(a + b) == Spelled(a) + Spelled(b)
  {
    SoundAppend(a, b);
  }

  lemma CommaPlain(a: seq<Segment>, b: seq<Segment>)
    requires Plain(a) && Plain(b)
    ensures var gs := a + [Keyword(", ")] + b;
      Plain(gs) && Givens(gs) == Givens(a) + Givens(b) && Spelled(gs) == Spelled(a) + ", " + Spelled(b)
  {
    hide Plain, Sound, Spelled, Givens, Generateds, Proper;
    KeywordPlain(", ");
    PlainAppend(a, [Keyword(", ")]);
    ClosesEnd(a, ", ");
    PlainAppend(a + [Keyword(", ")], b);
  }

  lemma KeywordPlain(s: string)
    requires ':' !in s && 'J' !in s && (forall i :: 0 <= i < |s| && s[i] == 'U' ==> !UnionAt(s, i))
    ensures var g := [Keyword(s)]; Plain(g) && Givens(g) == [] && Spelled(g) == s
    ensures StartsAtEdge(s) ==> Opens([Keyword(s)])
    ensures EndsAtEdge(s) ==> Closes([Keyword(s)])
  {
    hide Proper;
    WordProper(s);
    OneKeyword(s);
  }

  lemma GivenPlain(s: string)
    ensures var g := [Given(s)]; Plain(g) && Givens(g) == [s] && Spelled(g) == s
  {
    OneGiven(s);
  }

  // ----- names, columns, sort columns -----

  function NameItems(names: seq<string>): seq<seq<Segment>> {
    if names == [] then [] else [[Given(names[0])]] + NameItems(names[1..])
  }

  lemma {:induction false} NamesPlain(names: seq<string>)
    ensures forall gs <- NameItems(names) :: Plain(gs)
    ensures AllGivens(NameItems(names)) == names && AllSpelled(NameItems(names)) == names
  {
    hide Plain;
    if names != [] {
      GivenPlain(names[0]);
      NamesPlain(names[1..]);
      assert NameItems(names)[1..] == NameItems(names[1..]);
    }
  }

  function ColumnSegments(column: (string, string)): seq<Segment> {
    if column.1 == "" then [Given(column.0)]
    else [Given(column.0)] + [Keyword(" AS \"")] + [Given(EscapeQuotes(column.1))] + [Keyword("\"")]
  }

  function ColumnItems(columns: seq<(string, string)>): seq<seq<Segment>> {
    if columns == [] then [] else [ColumnSegments(columns[0])] + ColumnItems(columns[1..])
  }

  /** The texts of the columns: names, and aliases with their quotes escaped. */
  function ColumnGivens(columns: seq<(string, string)>): seq<string> {
    if columns == [] then []
    else
      (if columns[0].1 == "" then [columns[0].0] else [columns[0].0, EscapeQuotes(columns[0].1)])
      + ColumnGivens(columns[1..])
  }

  lemma ColumnPlain(column: (string, string))
    ensures var gs := ColumnSegments(column);
      && Plain(gs) && Spelled(gs) == ColumnText(column)
      && Givens(gs) == if column.1 == "" then [column.0] else [column.0, EscapeQuotes(column.1)]
  {
    hide Plain, Spelled, Givens, EscapeQuotes;
    GivenPlain(column.0);
    if column.1 != "" {
      var as_, alias := " AS \"", EscapeQuotes(column.1);
      KeywordPlain(as_);
      KeywordPlain("\"");
      GivenPlain(alias);
      PlainAppend([Given(column.0)], [Keyword(as_)]);
      ClosesEnd([Given(column.0)], as_);
      PlainAppend([Given(column.0)] + [Keyword(as_)], [Given(alias)]);
      PlainAppend([Given(column.0)] + [Keyword(as_)] + [Given(alias)], [Keyword("\"")]);
    }
  }

  lemma {:induction false} ColumnsPlain(columns: seq<(string, string)>)
    ensures forall gs <- ColumnItems(columns) :: Plain(gs)
    ensures AllGivens(ColumnItems(columns)) == ColumnGivens(columns)
    ensures AllSpelled(ColumnItems(columns)) == ColumnTexts(columns)
  {
    hide Plain, ColumnSegments, ColumnText, EscapeQuotes;
    if columns != [] {
      ColumnPlain(columns[0]);
      ColumnsPlain(columns[1..]);
      assert ColumnItems(columns)[1..] == ColumnItems(columns[1..]);
    }
  }

  function SortWord(order: SortOrder): string {
    if order == Ascending then " ASC" else " DESC"
  }

  function SortItems(columns: seq<(string, SortOrder)>): seq<seq<Segment>> {
    if columns == [] then []
    else [[Given(columns[0].0)] + [Keyword(SortWord(columns[0].1))]] + SortItems(columns[1..])
  }

  function SortNames(columns: seq<(string, SortOrder)>): seq<string> {
    if columns == [] then [] else [columns[0].0] + SortNames(columns[1..])
  }

  lemma {:induction false} SortsPlain(columns: seq<(string, SortOrder)>)
    ensures forall gs <- SortItems(columns) :: Plain(gs)
    ensures AllGivens(SortItems(columns)) == SortNames(columns) && AllSpelled(SortItems(columns)) == SortTexts(columns)
  {
    hide Plain;
    if columns != [] {
      var name, word := columns[0].0, SortWord(columns[0].1);
      GivenPlain(name);
      if columns[0].1 == Ascending {
        KeywordPlain(" ASC");
      } else {
        KeywordPlain(" DESC");
      }
      PlainAppend([Given(name)], [Keyword(word)]);
      SortsPlain(columns[1..]);
      assert SortItems(columns)[1..] == SortItems(columns[1..]);
    }
  }

  // ----- the fixed text of a SELECT -----

  function Optional(present: bool, word: string): seq<Segment> {
    if present then [Keyword(word)] else []
  }

  lemma OptionalPlain(present: bool, word: string)
    requires ':' !in word && 'J' !in word && (forall i :: 0 <= i < |word| && word[i] == 'U' ==> !UnionAt(word, i))
    ensures var gs := Optional(present, word);
      && Plain(gs) && Givens(gs) == [] && Spelled(gs) == (if present then word else "")
      && (EndsAtEdge(word) ==> gs == [] || Closes(gs)) && (StartsAtEdge(word) ==> Opens(gs))
  {
    hide Plain, Givens, Spelled;
    NothingPlain();
    KeywordPlain(word);
  }

  /** A word and a list behind it, or nothing if the list is empty. */
  function Clause(word: string, items: seq<seq<Segment>>): seq<Segment> {
    if items == [] then [] else [Keyword(word)] + Listed(items)
  }

  lemma ClausePlain(word: string, items: seq<seq<Segment>>)
    requires ':' !in word && 'J' !in word && (forall i :: 0 <= i < |word| && word[i] == 'U' ==> !UnionAt(word, i))
    requires StartsAtEdge(word) && EndsAtEdge(word) && forall gs <- items :: Plain(gs)
    ensures var gs := Clause(word, items);
      && Plain(gs) && Opens(gs) && Givens(gs) == AllGivens(items)
      && Spelled(gs) == if items == [] then "" else word + Join(AllSpelled(items), ", ")
  {
    hide Plain, Givens, Spelled, Listed;
    NothingPlain();
    if items != [] {
      KeywordPlain(word);
      ListedPlain(items);
      PlainAppend([Keyword(word)], Listed(items));
    }
  }

  function DistinctOnSegments(column: string): seq<Segment> {
    if column == "" then [] else [Keyword("DISTINCT ON(")] + [Given(column)] + [Keyword(") ")]
  }

  lemma DistinctOnPlain(column: string)
    ensures var gs := DistinctOnSegments(column);
      && Plain(gs) && (gs == [] || Closes(gs)) && Givens(gs) == (if column == "" then [] else [column])
      && Spelled(gs) == if column == "" then "" else "DISTINCT ON(" + column + ") "
  {
    hide Plain, Givens, Spelled;
    NothingPlain();
    if column != "" {
      KeywordPlain("DISTINCT ON(");
      KeywordPlain(") ");
      GivenPlain(column);
      PlainAppend([Keyword("DISTINCT ON(")], [Given(column)]);
      PlainAppend([Keyword("DISTINCT ON(")] + [Given(column)], [Keyword(") ")]);
    }
  }

  function NamedSegments(word: string, name: string): seq<Segment> {
    if name == "" then [] else [Keyword(word)] + [Given(name)]
  }

  lemma NamedPlain(word: string, name: string)
    requires ':' !in word && 'J' !in word && (forall i :: 0 <= i < |word| && word[i] == 'U' ==> !UnionAt(word, i))
    requires StartsAtEdge(word) && EndsAtEdge(word)
    ensures var gs := NamedSegments(word, name);
      && Plain(gs) && Opens(gs) && Givens(gs) == (if name == "" then [] else [name])
      && Spelled(gs) == if name == "" then "" else word + name
  {
    hide Plain, Givens, Spelled;
    NothingPlain();
    if name != "" {
      KeywordPlain(word);
      GivenPlain(name);
      PlainAppend([Keyword(word)], [Given(name)]);
    }
  }

  lemma ClosesAppend(a: seq<Segment>, b: seq<Segment>)
    requires Closes(a) && (b == [] || Closes(b))
    ensures Closes(a + b)
  {
    if b == [] {
      assert a + b == a;
    }
  }

  function HeadStart(parts: Parts): seq<Segment>
    requires parts.Select?
  {
    [Keyword("SELECT ")] + Optional(parts.distinct, "DISTINCT ") + DistinctOnSegments(parts.distinctOn)
  }

  function HeadSegments(parts: Parts, table: string): seq<Segment>
    requires parts.Select?
  {
    HeadStart(parts) + Listed(ColumnItems(parts.columns)) + NamedSegments(" FROM ", table)
  }

  function NameIf(name: string): seq<string> {
    if name == "" then [] else [name]
  }

  lemma HeadStartPlain(parts: Parts)
    requires parts.Select?
    ensures var gs := HeadStart(parts);
      && Plain(gs) && Closes(gs) && Givens(gs) == NameIf(parts.distinctOn)
      && Spelled(gs) == "SELECT " + (if parts.distinct then "DISTINCT " else "")
                        + (if parts.distinctOn == "" then "" else "DISTINCT ON(" + parts.distinctOn + ") ")
  {
    hide Plain, Givens, Spelled, Optional, DistinctOnSegments;
    var a, b, c := [Keyword("SELECT ")], Optional(parts.distinct, "DISTINCT "), DistinctOnSegments(parts.distinctOn);
    KeywordPlain("SELECT ");
    OptionalPlain(parts.distinct, "DISTINCT ");
    DistinctOnPlain(parts.distinctOn);
    PlainAppend(a, b);
    ClosesAppend(a, b);
    PlainAppend(a + b, c);
    ClosesAppend(a + b, c);
  }

  lemma HeadPlain(parts: Parts, table: string)
    requires parts.Select?
    ensures var gs := HeadSegments(parts, table);
      && Plain(gs) && Spelled(gs) == SelectHead(parts, table)
      && Givens(gs) == NameIf(parts.distinctOn) + ColumnGivens(parts.columns) + NameIf(table)
  {
    hide Plain, Givens, Spelled, HeadStart, Listed, NamedSegments, ColumnGivens, Join, ColumnTexts;
    var a, b, c := HeadStart(parts), Listed(ColumnItems(parts.columns)), NamedSegments(" FROM ", table);
    HeadStartPlain(parts);
    ColumnsPlain(parts.columns);
    ListedPlain(ColumnItems(parts.columns));
    NamedPlain(" FROM ", table);
    PlainAppend(a, b);
    PlainAppend(a + b, c);
    HeadText(parts, table);
  }

  lemma HeadText(parts: Parts, table: string)
    requires parts.Select?
    ensures SelectHead(parts, table)
      == "SELECT " + (if parts.distinct then "DISTINCT " else "")
       + (if parts.distinctOn == "" then "" else "DISTINCT ON(" + parts.distinctOn + ") ")
       + Join(ColumnTexts(parts.columns), ", ") + if table == "" then "" else " FROM " + table
  {
    hide Join, ColumnTexts;
  }

  function LimitSegments(parts: Parts): seq<Segment>
    requires parts.Select?
  {
    if parts.limitOffset == UNSET then []
    else
      [Keyword(" OFFSET ")] + [Keyword(Number(parts.limitOffset, 10))]
      + ([Keyword(" LIMIT ")] + [Keyword(Number(parts.limitLength, 10))])
  }

  lemma NumberPlain(n: nat)
    ensures var g := [Keyword(Number(n, 10))]; Plain(g) && Givens(g) == [] && Spelled(g) == Number(n, 10)
  {
    hide Proper;
    NumberProper(n);
    OneKeyword(Number(n, 10));
  }

  lemma LimitPlain(parts: Parts)
    requires parts.Select?
    ensures var gs := LimitSegments(parts);
      && Plain(gs) && Opens(gs) && Givens(gs) == []
      && Spelled(gs) == if parts.limitOffset == UNSET then ""
                        else " OFFSET " + Number(parts.limitOffset, 10) + (" LIMIT " + Number(parts.limitLength, 10))
  {
    hide Plain, Givens, Spelled, Number;
    NothingPlain();
    if parts.limitOffset != UNSET {
      var a, b := [Keyword(" OFFSET ")], [Keyword(Number(parts.limitOffset, 10))];
      var c, d := [Keyword(" LIMIT ")], [Keyword(Number(parts.limitLength, 10))];
      KeywordPlain(" OFFSET ");
      KeywordPlain(" LIMIT ");
      NumberPlain(parts.limitOffset);
      NumberPlain(parts.limitLength);
      PlainAppend(a, b);
      PlainAppend(c, d);
      PlainAppend(a + b, c + d);
    }
  }

  function LockSegments(parts: Parts): seq<Segment>
    requires parts.Select?
  {
    Clause(" FOR UPDATE OF ", NameItems(parts.lockTables)) + Optional(parts.lockTables != [] && parts.lockNoWait, " NOWAIT")
  }

  function TailSegments(parts: Parts): seq<Segment>
    requires parts.Select?
  {
    Clause(" GROUP BY ", NameItems(parts.groupColumns)) + Clause(" ORDER BY ", SortItems(parts.sortColumns))
    + (LockSegments(parts) + LimitSegments(parts))
  }

  lemma LockPlain(parts: Parts)
    requires parts.Select?
    ensures var gs := LockSegments(parts);
      && Plain(gs) && Opens(gs) && Givens(gs) == parts.lockTables
      && Spelled(gs) == (if parts.lockTables == [] then "" else " FOR UPDATE OF " + Join(parts.lockTables, ", "))
                        + if parts.lockTables != [] && parts.lockNoWait then " NOWAIT" else ""
  {
    hide Plain, Givens, Spelled, Clause, Optional, Join;
    NamesPlain(parts.lockTables);
    ClausePlain(" FOR UPDATE OF ", NameItems(parts.lockTables));
    OptionalPlain(parts.lockTables != [] && parts.lockNoWait, " NOWAIT");
    PlainAppend(Clause(" FOR UPDATE OF ", NameItems(parts.lockTables)),
                Optional(parts.lockTables != [] && parts.lockNoWait, " NOWAIT"));
  }

  lemma TailPlain(parts: Parts)
    requires parts.Select?
    ensures var gs := TailSegments(parts);
      && Plain(gs) && Opens(gs) && Spelled(gs) == SelectTail(parts)
      && Givens(gs) == parts.groupColumns + SortNames(parts.sortColumns) + parts.lockTables
  {
    hide Plain, Givens, Spelled, Clause, LockSegments, LimitSegments, Join, SortNames, SortTexts, SelectTail, Opens, Number;
    var a, b := Clause(" GROUP BY ", NameItems(parts.groupColumns)), Clause(" ORDER BY ", SortItems(parts.sortColumns));
    var c, d := LockSegments(parts), LimitSegments(parts);
    NamesPlain(parts.groupColumns);
    SortsPlain(parts.sortColumns);
    ClausePlain(" GROUP BY ", NameItems(parts.groupColumns));
    ClausePlain(" ORDER BY ", SortItems(parts.sortColumns));
    LockPlain(parts);
    LimitPlain(parts);
    FourPlain(a, b, c, d);
    TailText(parts);
  }

  lemma FourPlain(a: seq<Segment>, b: seq<Segment>, c: seq<Segment>, d: seq<Segment>)
    requires Plain(a) && Plain(b) && Plain(c) && Plain(d) && Opens(a) && Opens(b) && Opens(c) && Opens(d)
    ensures var gs := a + b + (c + d);
      && Plain(gs) && Opens(gs) && Givens(gs) == Givens(a) + Givens(b) + (Givens(c) + Givens(d))
      && Spelled(gs) == Spelled(a) + Spelled(b) + (Spelled(c) + Spelled(d))
  {
    hide Plain, Givens, Spelled;
    PlainAppend(a, b);
    PlainAppend(c, d);
    PlainAppend(a + b, c + d);
  }

  lemma TailText(parts: Parts)
    requires parts.Select?
    ensures SelectTail(parts)
      == (if parts.groupColumns == [] then "" else " GROUP BY " + Join(parts.groupColumns, ", "))
       + (if parts.sortColumns == [] then "" else " ORDER BY " + Join(SortTexts(parts.sortColumns), ", "))
       + ((if parts.lockTables == [] then "" else " FOR UPDATE OF " + Join(parts.lockTables, ", "))
          + (if parts.lockTables != [] && parts.lockNoWait then " NOWAIT" else "")
          + if parts.limitOffset == UNSET then ""
            else " OFFSET " + Number(parts.limitOffset, 10) + (" LIMIT " + Number(parts.limitLength, 10)))
  {
    hide Join, SortTexts, Number;
    Chained(parts.groupColumns != [], " GROUP BY ", Join(parts.groupColumns, ", "),
            parts.sortColumns != [], " ORDER BY ", Join(SortTexts(parts.sortColumns), ", "),
            parts.lockTables != [], " FOR UPDATE OF ", Join(parts.lockTables, ", "),
            parts.lockTables != [] && parts.lockNoWait, " NOWAIT",
            parts.limitOffset != UNSET, " OFFSET ", Number(parts.limitOffset, 10), " LIMIT ", Number(parts.limitLength, 10));
  }

  lemma Behind(s: string, present: bool, word: string, list: string)
    ensures (if present then s + word + list else s) == s + if present then word + list else ""
  {
  }

  lemma BehindFour(s: string, a: string, b: string, c: string, d: string)
    ensures s + a + b + c + d == s + (a + b + (c + d))
  {
    Assoc(s + a, b, c + d);
    Assoc(s, a, b);
    Assoc(s, a + b, c + d);
    Assoc(s + a + b, c, d);
  }

  lemma Unit(s: string)
    ensures s + "" == s && "" + s == s
  {
  }

  /** Clauses appended one by one, each only if present. */
  lemma Chained(p1: bool, w1: string, t1: string, p2: bool, w2: string, t2: string, p3: bool, w3: string, t3: string,
                p4: bool, w4: string, p5: bool, w5: string, t5: string, w6: string, t6: string)
    ensures
      var s := "";
      var s := if p1 then s + w1 + t1 else s;
      var s := if p2 then s + w2 + t2 else s;
      var s := if p3 then s + w3 + t3 else s;
      var s := if p4 then s + w4 else s;
      (if p5 then s + w5 + t5 + w6 + t6 else s)
      == (if p1 then w1 + t1 else "") + (if p2 then w2 + t2 else "")
       + ((if p3 then w3 + t3 else "") + (if p4 then w4 else "") + if p5 then w5 + t5 + (w6 + t6) else "")
  {
    var a := if p1 then w1 + t1 else "";
    var b := if p2 then w2 + t2 else "";
    var c := if p3 then w3 + t3 else "";
    var d := if p4 then w4 else "";
    var e := if p5 then w5 + t5 + (w6 + t6) else "";
    Behind("", p1, w1, t1);
    Unit(a);
    Behind(a, p2, w2, t2);
    Behind(a + b, p3, w3, t3);
    Unit(a + b + c);
    Unit(a + b + c + d);
    BehindFour(a + b + c + d, w5, t5, w6, t6);
    Assoc(a + b, c, d);
    Assoc(a + b, c + d, e);
  }
}
