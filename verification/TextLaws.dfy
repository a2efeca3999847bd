/** The text of whole statements read character by character: where its placeholders come from, and whether it can
    spell a union. */
module TextLaws {
  import opened Conditions
  import opened Digits
  import opened QtText
  import opened Tokens
  import opened Printing
  import opened Statements
  import opened Builders
  import opened Segments
  import opened SelectText
  import opened StatementText

  // ----- what the text says -----

  /** No text of the caller holds a numeric placeholder of its own. */
  ghost predicate NoOwnNumerals(st: Statement) {
    forall t <- CallerTexts(st) :: Scan(t) == []
  }

  /** Read character by character, the placeholders of a statement are those of the values it registers, consecutive
      from its first index, exactly if no text of the caller holds a numeric placeholder of its own. */
  lemma TextNumeralsExact(st: Statement, k: nat)
    requires WellFormedStatement(st)
    ensures Scan(TextOf(Pieces(st, k))) == Run(k, |Registered(st)|) <==> NoOwnNumerals(st)
  {
    hide Spelled, Spaced, Proper, Scan, Givens, Generateds, StatementSegments, TextOf, Pieces, CallerTexts;
    StatementReads(st, k);
    SpelledScanExact(StatementSegments(st, k));
  }

  /** The same for a union: the placeholders of the first statement, then those of the second. */
  lemma UnionTextNumeralsExact(st1: Statement, k1: nat, all: bool, st2: Statement, k2: nat)
    requires WellFormedStatement(st1) && WellFormedStatement(st2)
    ensures Scan(TextOf(UnionPieces(st1, k1, all, st2, k2))) == Run(k1, |Registered(st1)|) + Run(k2, |Registered(st2)|)
      <==> NoOwnNumerals(st1) && NoOwnNumerals(st2)
  {
    hide Reads, Scan, StatementSegments, TextOf, Pieces, UnionPieces, CallerTexts, Registered, Sound, Givens, WellFormedStatement;
    var a, b := StatementSegments(st1, k1), StatementSegments(st2, k2);
    var c := [Given(UnionWord(all))];
    var n1, n2 := Run(k1, |Registered(st1)|), Run(k2, |Registered(st2)|);
    StatementReads(st1, k1);
    StatementReads(st2, k2);
    GivenReads(UnionWord(all));
    UnionWordEdges(all);
    ReadsAppend(a, TextOf(Pieces(st1, k1)), CallerTexts(st1), n1, c, UnionWord(all), [UnionWord(all)], []);
    assert n1 + [] == n1;
    assert Closes(a + c);
    ReadsAppend(a + c, TextOf(Pieces(st1, k1)) + UnionWord(all), CallerTexts(st1) + [UnionWord(all)], n1,
                b, TextOf(Pieces(st2, k2)), CallerTexts(st2), n2);
    TextOfUnion(st1, k1, all, st2, k2);
    ReadsScan(a + c + b, TextOf(UnionPieces(st1, k1, all, st2, k2)),
              CallerTexts(st1) + [UnionWord(all)] + CallerTexts(st2), n1 + n2);
    InThree(CallerTexts(st1), UnionWord(all), CallerTexts(st2));
  }

  lemma InThree(a: seq<string>, s: string, b: seq<string>)
    ensures forall t :: (t in a + [s] + b <==> t in a || t == s || t in b)
  {
  }

  lemma ReadsScan(gs: seq<Segment>, text: string, givens: seq<string>, generated: seq<string>)
    requires Reads(gs, text, givens, generated)
    ensures Scan(text) == generated <==> forall t <- givens :: Scan(t) == []
  {
    SpelledScanExact(gs);
  }

  lemma UnionWordEdges(all: bool)
    ensures StartsAtEdge(UnionWord(all)) && EndsAtEdge(UnionWord(all)) && Scan(UnionWord(all)) == []
  {
    NoColon(" UNION ");
    NoColon(" UNION ALL ");
  }

  // ----- a statement that cannot spell a union -----

  /** No text of the caller holds the word UNION. */
  ghost predicate WithoutUnion(st: Statement) {
    forall t <- CallerTexts(st) :: UnionFree(t)
  }

  lemma TextUnionFree(st: Statement, k: nat)
    requires WellFormedStatement(st) && WithoutUnion(st)
    ensures UnionFree(TextOf(Pieces(st, k)))
  {
    hide Spelled, Spaced, Proper, UnionFree, Givens, Generateds, StatementSegments, TextOf, Pieces, CallerTexts;
    StatementReads(st, k);
    SpelledUnionFree(StatementSegments(st, k));
  }

  /** A statement whose callers' texts do not hold the word UNION never has the text of a union. */
  lemma NeverUnion(st: Statement, k: nat, st1: Statement, k1: nat, all: bool, st2: Statement, k2: nat)
    requires WellFormedStatement(st) && WithoutUnion(st)
    ensures TextOf(Pieces(st, k)) != TextOf(UnionPieces(st1, k1, all, st2, k2))
  {
    hide UnionFree, TextOf, Pieces, UnionPieces, WithoutUnion, WellFormedStatement;
    var a, b := TextOf(Pieces(st1, k1)), TextOf(Pieces(st2, k2));
    TextUnionFree(st, k);
    TextOfUnion(st1, k1, all, st2, k2);
    UnionShown(a, all, b);
  }

  lemma UnionShown(a: string, all: bool, b: string)
    ensures !UnionFree(a + UnionWord(all) + b)
  {
    var s, w := a + UnionWord(all) + b, UnionWord(all);
    assert UnionAt(w, 1);
    assert forall i :: 0 <= i < |w| ==> s[|a| + i] == w[i];
    assert UnionAt(s, |a| + 1);
  }

  // ----- a statement that trimming leaves alone -----

  /** A text of the caller that is not empty and has no blanks around it. */
  ghost predicate Trim(t: string) {
    t != "" && Neat(t)
  }

  /** The last segment ends in something else than a blank. */
  ghost predicate EndsNeat(gs: seq<Segment>) {
    gs != [] && gs[|gs| - 1].text != "" && !Blanks([gs[|gs| - 1].text[|gs[|gs| - 1].text| - 1]])
  }

  lemma EndsBehind(a: seq<Segment>, b: seq<Segment>)
    requires EndsNeat(b)
    ensures EndsNeat(a + b)
  {
    assert (a + b)[|a + b| - 1] == b[|b| - 1];
  }

  lemma {:induction false} SpelledEnd(gs: seq<Segment>)
    requires EndsNeat(gs)
    ensures Spelled(gs) != "" && !Blanks([Spelled(gs)[|Spelled(gs)| - 1]])
  {
    hide Blanks;
    if |gs| == 1 {
      assert Spelled(gs[1..]) == "" && gs[0].text + "" == gs[0].text;
    } else {
      assert gs[1..][|gs| - 2] == gs[|gs| - 1];
      SpelledEnd(gs[1..]);
      var rest := Spelled(gs[1..]);
      assert Spelled(gs)[|Spelled(gs)| - 1] == rest[|rest| - 1];
    }
  }

  lemma LastToken(ts: seq<Token>, t: Token)
    ensures SegmentsOf(ts + [t]) == SegmentsOf(ts) + [SegmentOf(t)]
  {
    SegmentsConcat(ts, [t]);
    assert [t][1..] == [];
  }

  lemma NumeralEnds(k: nat)
    ensures Trim(Placeholder(k))
  {
    NumberRoundTrip(k, 10);
    var s, d := Placeholder(k), Number(k, 10);
    assert s[|s| - 1] == d[|d| - 1] && 0 <= DigitValue(d[|d| - 1]) < 10;
    NoBlank(s[0]);
    NoBlank(s[|s| - 1]);
  }

  lemma NoBlank(c: char)
    requires c > ' '
    ensures !Blanks([c])
  {
    assert c in [c];
  }

  lemma RightEnds(c: Condition, k: nat)
    requires c.subs == [] && WellFormed(c) && forall t <- ConditionTexts(c) :: Trim(t)
    ensures EndsNeat([SegmentOf(RightSide(c, k))])
  {
    NumeralEnds(k);
    NoBlank(')');
    NoBlank('L');
    var right := RightSide(c, k);
    assert SegmentOf(right).text == Spell(right);
    if c.comparedColumn != "" {
      assert c.comparedColumn in ConditionTexts(c);
    } else if c.value == Invalid && c.placeholder != "" {
      assert c.placeholder in ConditionTexts(c);
    }
  }

  lemma {:induction false} ConditionEnds(c: Condition, k: nat)
    requires WellFormed(c) && forall t <- ConditionTexts(c) :: Trim(t)
    ensures EndsNeat(SegmentsOf(Printed(c, k)))
    decreases c
  {
    hide EndsNeat, Trim, SegmentsOf;
    if c.subs == [] {
      var right := RightSide(c, k);
      assert Printed(c, k) == [Name(c.column), Compare(c.compareOp)] + [right];
      RightEnds(c, k);
      LastToken([Name(c.column), Compare(c.compareOp)], right);
      EndsBehind(SegmentsOf([Name(c.column), Compare(c.compareOp)]), [SegmentOf(right)]);
    } else if |c.subs| == 1 {
      assert ConditionsTexts(c.subs[1..]) == [];
      assert ConditionTexts(c) == ConditionTexts(c.subs[0]) + [];
      ConditionEnds(c.subs[0], k);
    } else {
      var inner := [LParen] + PrintedList(c.subs, c.logicOp, k);
      LastToken(inner, RParen);
      ParenEnds();
      EndsBehind(SegmentsOf(inner), [Keyword(")")]);
    }
  }

  lemma ParenEnds()
    ensures EndsNeat([Keyword(")")])
  {
    NoBlank(')');
  }

  lemma SetItemEnds(column: string, value: Variant, k: nat)
    ensures EndsNeat(SetItem(column, value, k))
  {
    NumeralEnds(k);
    NoBlank(')');
  }

  lemma {:induction false} SetsEnd(sets: seq<(string, Variant)>, k: nat)
    requires sets != []
    ensures EndsNeat(SetSegments(sets, k))
  {
    hide EndsNeat, SetItem;
    var (column, value) := sets[0];
    var own := SetItem(column, value, k);
    if |sets| == 1 {
      SetItemEnds(column, value, k);
      assert SetSegments(sets[1..], k + |PieceValues(Assign(value, k))|) == [];
      assert own + [] + [] == own;
    } else {
      SetsEnd(sets[1..], k + |PieceValues(Assign(value, k))|);
      EndsBehind(own + Optional(true, ", "), SetSegments(sets[1..], k + |PieceValues(Assign(value, k))|));
    }
  }

  lemma GivenEnds(t: string)
    requires Trim(t)
    ensures EndsNeat([Given(t)])
  {
  }

  /** An UPDATE with something to set or a condition, and a DELETE, whose callers' texts are not empty and have no
      blanks around them: trimming leaves their text as it is. */
  lemma TrimKeepsText(st: Statement, k: nat)
    requires WellFormedStatement(st) && !st.parts.Select?
    requires st.parts.Update? ==> st.parts.assignments != [] || st.where.subs != []
    requires forall t <- CallerTexts(st) :: Trim(t)
    ensures Trimmed(TextOf(Pieces(st, k))) == TextOf(Pieces(st, k))
  {
    hide EndsNeat, Trim, Blanks, TextOf, Pieces, Sound, Givens, Generateds, StatementSegments, WellFormed, Spelled, CallerTexts, Trimmed;
    var text, gs := TextOf(Pieces(st, k)), StatementSegments(st, k);
    StatementReads(st, k);
    match st.parts {
      case Update(_, _) => UpdateEnds(st, k);
      case Delete(_) => DeleteEnds(st, k);
    }
    SpelledEnd(gs);
    StatementStarts(st, k);
    NoBlank('U');
    NoBlank('D');
    assert Neat(text);
    TrimmedExact("", text, "") by {
      assert Blanks("") by { NothingBlank(); }
    }
    assert "" + text + "" == text;
  }

  lemma NothingBlank()
    ensures Blanks("")
  {
  }

  lemma StatementStarts(st: Statement, k: nat)
    requires !st.parts.Select?
    ensures var s := Spelled(StatementSegments(st, k)); s != "" && s[0] == if st.parts.Update? then 'U' else 'D'
  {
    hide SetSegments, WhereSegments;
    var gs := StatementSegments(st, k);
    assert gs[0].text != "";
  }

  lemma WhereEnds(where: Condition, k: nat)
    requires where.subs != [] && WellFormed(where) && forall t <- WhereTexts(where) :: Trim(t)
    ensures EndsNeat(WhereSegments(where, k))
  {
    hide EndsNeat, Trim, SegmentsOf, WellFormed, ConditionTexts;
    ConditionEnds(where, k);
    EndsBehind([Keyword(" WHERE ")], SegmentsOf(Printed(where, k)));
  }

  lemma TextsBehind(a: seq<string>, b: seq<string>)
    requires forall t <- a + b :: Trim(t)
    ensures (forall t <- a :: Trim(t)) && forall t <- b :: Trim(t)
  {
    assert forall t <- a :: t in a + b;
    assert forall t <- b :: t in a + b;
  }

  lemma UpdateEnds(st: Statement, k: nat)
    requires WellFormedStatement(st) && st.parts.Update? && (st.parts.assignments != [] || st.where.subs != [])
    requires forall t <- CallerTexts(st) :: Trim(t)
    ensures EndsNeat(StatementSegments(st, k))
  {
    hide EndsNeat, Trim, SetSegments, UpdateHead, WhereSegments, WhereTexts, WellFormed, SetColumns, SetValues;
    var sets, head := st.parts.assignments, UpdateHead(st.table, st.parts.updateSubTables);
    var where := WhereSegments(st.where, k + |SetValues(sets)|);
    TextsBehind([st.table] + SetColumns(sets), WhereTexts(st.where));
    if st.where.subs == [] {
      SetsEnd(sets, k);
      EndsBehind(head, SetSegments(sets, k));
      assert where == [] by { NoWhere(st.where, k + |SetValues(sets)|); }
      assert head + SetSegments(sets, k) + [] == head + SetSegments(sets, k);
    } else {
      WhereEnds(st.where, k + |SetValues(sets)|);
      EndsBehind(head + SetSegments(sets, k), where);
    }
  }

  lemma NoWhere(where: Condition, k: nat)
    requires where.subs == []
    ensures WhereSegments(where, k) == []
  {
  }

  lemma DeleteEnds(st: Statement, k: nat)
    requires WellFormedStatement(st) && st.parts.Delete?
    requires forall t <- CallerTexts(st) :: Trim(t)
    ensures EndsNeat(StatementSegments(st, k))
  {
    hide EndsNeat, Trim, WhereSegments, WhereTexts, WellFormed;
    var head := DeleteHead(st.table, st.parts.deleteSubTables);
    TextsBehind([st.table], WhereTexts(st.where));
    if st.where.subs == [] {
      assert st.table in [st.table];
      GivenEnds(st.table);
      EndsBehind([Keyword("DELETE FROM " + if st.parts.deleteSubTables then "" else "ONLY ")], [Given(st.table)]);
      NoWhere(st.where, k);
      assert head + [] == head;
    } else {
      WhereEnds(st.where, k);
      EndsBehind(head, WhereSegments(st.where, k));
    }
  }
}
