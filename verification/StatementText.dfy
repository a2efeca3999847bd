/** The segments of whole statements. */
module StatementText {
  import opened Conditions
  import opened Digits
  import opened QtText
  import opened Tokens
  import opened Printing
  import opened Statements
  import opened Builders
  import opened Segments
  import opened SelectText

  // ----- whole statements -----

  /** What the segments spell, what the caller gave in them, and what was generated. */
  ghost predicate Reads(gs: seq<Segment>, text: string, givens: seq<string>, generated: seq<string>) {
    Sound(gs) && Spelled(gs) == text && Givens(gs) == givens && Generateds(gs) == generated
  }

  lemma ReadsAppend(a: seq<Segment>, ta: string, ga: seq<string>, na: seq<string>,
                    b: seq<Segment>, tb: string, gb: seq<string>, nb: seq<string>)
    requires Reads(a, ta, ga, na) && Reads(b, tb, gb, nb) && (Closes(a) || Opens(b))
    ensures Reads(a + b, ta + tb, ga + gb, na + nb)
  {
    SoundAppend(a, b);
  }

  lemma WordReads(s: string)
    requires ':' !in s && 'J' !in s && (forall i :: 0 <= i < |s| && s[i] == 'U' ==> !UnionAt(s, i))
    ensures Reads([Keyword(s)], s, [], [])
  {
    KeywordPlain(s);
  }

  lemma ConditionReads(c: Condition, k: nat)
    requires WellFormed(c)
    ensures Reads(SegmentsOf(Printed(c, k)), Render(Printed(c, k)), ConditionTexts(c), Run(k, |Values(c)|))
  {
    ConditionSound(c, k);
    SegmentsSpelled(Printed(c, k));
    PrintedNumerals(c, k);
  }

  function JoinHeadSegments(j: JoinInfo): seq<Segment> {
    [Keyword(JoinWord(j.kind))] + [Given(j.table)] + [Keyword(" ON ")]
  }

  lemma JoinHeadReads(j: JoinInfo)
    ensures Reads(JoinHeadSegments(j), JoinHead(j), [j.table], [])
    ensures Opens(JoinHeadSegments(j)) && Closes(JoinHeadSegments(j))
  {
    hide Reads;
    var word := JoinWord(j.kind);
    JoinWordReads(j.kind);
    GivenReads(j.table);
    WordReads(" ON ");
    ReadsAppend([Keyword(word)], word, [], [], [Given(j.table)], j.table, [j.table], []);
    ReadsAppend([Keyword(word)] + [Given(j.table)], word + j.table, [] + [j.table], [] + [], [Keyword(" ON ")], " ON ", [], []);
    assert [] + [j.table] + [] == [j.table];
  }

  lemma PlainReads(gs: seq<Segment>)
    requires Plain(gs)
    ensures Reads(gs, Spelled(gs), Givens(gs), [])
  {
  }

  lemma SpacedWordReads(s: string)
    requires |s| > 1 && s[0] == ' ' && s[|s| - 1] == ' '
    requires ':' !in s && (forall i :: 0 <= i < |s| && s[i] == 'U' ==> !UnionAt(s, i))
    ensures StartsAtEdge(s) && EndsAtEdge(s) && Reads([Keyword(s)], s, [], [])
  {
    hide Proper;
    WordProper(s);
    OneKeyword(s);
  }

  lemma JoinWordReads(kind: JoinType)
    ensures var s := JoinWord(kind); StartsAtEdge(s) && EndsAtEdge(s) && Reads([Keyword(s)], s, [], [])
  {
    hide Reads, StartsAtEdge, EndsAtEdge;
    match kind
    case InnerJoin => SpacedWordReads(" INNER JOIN ");
    case LeftOuterJoin => SpacedWordReads(" LEFT OUTER JOIN ");
    case RightOuterJoin => SpacedWordReads(" RIGHT OUTER JOIN ");
    case FullOuterJoin => SpacedWordReads(" FULL OUTER JOIN ");
    case CrossJoin => SpacedWordReads(" CROSS JOIN ");
  }

  function JoinsSegments(joins: seq<JoinInfo>, k: nat): seq<Segment> {
    if joins == [] then []
    else
      var j := joins[0];
      JoinHeadSegments(j) + SegmentsOf(Printed(j.condition, k)) + JoinsSegments(joins[1..], k + |Values(j.condition)|)
  }

  function JoinsTexts(joins: seq<JoinInfo>): seq<string> {
    if joins == [] then [] else [joins[0].table] + ConditionTexts(joins[0].condition) + JoinsTexts(joins[1..])
  }

  lemma NothingReads()
    ensures Reads([], "", [], []) && Opens([])
  {
  }

  lemma {:induction false} JoinsReads(joins: seq<JoinInfo>, k: nat)
    requires forall j <- joins :: WellFormed(j.condition)
    ensures Opens(JoinsSegments(joins, k))
    ensures Reads(JoinsSegments(joins, k), TextOf(JoinPieces(joins, k)), JoinsTexts(joins), Run(k, |JoinValues(joins)|))
  {
    hide Reads, Values, Printed, Render, TextOf, JoinPieces, ConditionTexts, JoinHead, JoinHeadSegments, Opens, Closes,
         WellFormed, SegmentsOf;
    if joins == [] {
      NothingReads();
      NoJoins(k);
      assert Run(k, 0) == [];
    } else {
      var j, rest := joins[0], joins[1..];
      var n := |Values(j.condition)|;
      JoinHeadReads(j);
      ConditionReads(j.condition, k);
      JoinsReads(rest, k + n);
      assert joins == [j] + rest;
      TextOfJoin(j, rest, k);
      RunConcat(k, n, |JoinValues(rest)|);
      var a, b, c := JoinHeadSegments(j), SegmentsOf(Printed(j.condition, k)), JoinsSegments(rest, k + n);
      ReadsAppend(a, JoinHead(j), [j.table], [], b, Render(Printed(j.condition, k)), ConditionTexts(j.condition), Run(k, n));
      ReadsAppend(a + b, JoinHead(j) + Render(Printed(j.condition, k)), [j.table] + ConditionTexts(j.condition), [] + Run(k, n),
                  c, TextOf(JoinPieces(rest, k + n)), JoinsTexts(rest), Run(k + n, |JoinValues(rest)|));
      assert [] + Run(k, n) == Run(k, n);
      OpensFirst(a, b, c);
    }
  }

  lemma OpensFirst(a: seq<Segment>, b: seq<Segment>, c: seq<Segment>)
    requires Opens(a) && Closes(a)
    ensures Opens(a + b + c)
  {
  }

  function WhereSegments(where: Condition, k: nat): seq<Segment> {
    if where.subs == [] then [] else [Keyword(" WHERE ")] + SegmentsOf(Printed(where, k))
  }

  function WhereTexts(where: Condition): seq<string> {
    if where.subs == [] then [] else ConditionTexts(where)
  }

  lemma WhereReads(where: Condition, k: nat)
    requires where.subs != [] ==> WellFormed(where)
    ensures Opens(WhereSegments(where, k))
    ensures Reads(WhereSegments(where, k), TextOf(WherePieces(where, k)), WhereTexts(where), Run(k, |WhereValues(where)|))
  {
    hide Reads, Printed, Render, TextOf, WherePieces, ConditionTexts, WellFormed, SegmentsOf;
    TextOfWhere(where, k);
    NothingReads();
    if where.subs != [] {
      WordReads(" WHERE ");
      ConditionReads(where, k);
      ReadsAppend([Keyword(" WHERE ")], " WHERE ", [], [], SegmentsOf(Printed(where, k)), Render(Printed(where, k)),
                  ConditionTexts(where), Run(k, |Values(where)|));
      assert [] + ConditionTexts(where) == ConditionTexts(where);
      assert [] + Run(k, |Values(where)|) == Run(k, |Values(where)|);
    } else {
      assert Run(k, 0) == [];
    }
  }

  function SetSegments(sets: seq<(string, Variant)>, k: nat): seq<Segment> {
    if sets == [] then []
    else
      var (column, value) := sets[0];
      SetItem(column, value, k) + Optional(|sets| > 1, ", ")
      + SetSegments(sets[1..], k + |PieceValues(Assign(value, k))|)
  }

  function SetItem(column: string, value: Variant, k: nat): seq<Segment> {
    [Given(column), Keyword(" = "), if value == Now then Keyword("now()") else Generated(Placeholder(k))]
  }

  function SetColumns(sets: seq<(string, Variant)>): seq<string> {
    if sets == [] then [] else [sets[0].0] + SetColumns(sets[1..])
  }

  lemma SetItemReads(column: string, value: Variant, k: nat)
    ensures Reads(SetItem(column, value, k), SetText((column, value), k), [column], Run(k, |PieceValues(Assign(value, k))|))
  {
    hide Proper, Reads, Opens, Closes;
    var last := if value == Now then Keyword("now()") else Generated(Placeholder(k));
    var generated := Run(k, |PieceValues(Assign(value, k))|);
    GivenReads(column);
    WordReads(" = ");
    AssignedReads(value, k);
    assert Closes([Given(column)] + [Keyword(" = ")]) && Opens([Keyword(" = ")]) by { EqualsEdges(column); }
    ReadsAppend([Given(column)], column, [column], [], [Keyword(" = ")], " = ", [], []);
    ReadsAppend([Given(column)] + [Keyword(" = ")], column + " = ", [column] + [], [] + [], [last], last.text, [], generated);
    assert SetItem(column, value, k) == [Given(column)] + [Keyword(" = ")] + [last];
    assert [column] + [] + [] == [column] && [] + [] + generated == generated;
  }

  lemma EqualsEdges(column: string)
    ensures Opens([Keyword(" = ")]) && Closes([Given(column)] + [Keyword(" = ")])
  {
  }

  lemma AssignedReads(value: Variant, k: nat)
    ensures var last := if value == Now then Keyword("now()") else Generated(Placeholder(k));
      Reads([last], last.text, [], Run(k, |PieceValues(Assign(value, k))|))
  {
    hide Proper, Placeholder;
    if value == Now {
      WordReads("now()");
      assert Run(k, 0) == [];
    } else {
      PlaceholderProper(k);
      OneGenerated(Placeholder(k));
      assert Run(k, 1) == [Placeholder(k)];
    }
  }

  lemma OneGenerated(s: string)
    requires Proper(Generated(s))
    ensures Reads([Generated(s)], s, [], [s])
  {
    hide Proper;
    var gs := [Generated(s)];
    assert gs[1..] == [] && s + "" == s;
    assert Sound(gs) && Spelled(gs) == s;
    assert Givens(gs) == [] + Givens(gs[1..]) && Generateds(gs) == [s] + Generateds(gs[1..]);
    assert Givens(gs[1..]) == [] && Generateds(gs[1..]) == [];
  }

  lemma {:induction false} SetsReads(sets: seq<(string, Variant)>, k: nat)
    ensures Reads(SetSegments(sets, k), TextOf(SetPieces(sets, k)), SetColumns(sets), Run(k, |SetValues(sets)|))
  {
    hide Reads, TextOf, SetPieces, SetItem, SetText, Optional, Closes, Opens;
    if sets == [] {
      NothingReads();
      NothingSet(k);
      assert Run(k, 0) == [];
    } else {
      var (column, value) := sets[0];
      var n := |PieceValues(Assign(value, k))|;
      var rest := SetSegments(sets[1..], k + n);
      var comma := if |sets| > 1 then ", " else "";
      SetItemReads(column, value, k);
      SetsReads(sets[1..], k + n);
      TextOfSet(sets, k);
      SetValuesFirst(sets);
      RunConcat(k, n, |SetValues(sets[1..])|);
      OptionalReads(|sets| > 1);
      var a, b := SetItem(column, value, k), Optional(|sets| > 1, ", ");
      ReadsAppend(a, SetText((column, value), k), [column], Run(k, n), b, comma, [], []);
      assert [column] + [] == [column] && Run(k, n) + [] == Run(k, n);
      SetSeam(a, |sets| > 1, rest);
      ReadsAppend(a + b, SetText((column, value), k) + comma, [column], Run(k, n),
                  rest, TextOf(SetPieces(sets[1..], k + n)), SetColumns(sets[1..]), Run(k + n, |SetValues(sets[1..])|));
    }
  }

  lemma OptionalReads(present: bool)
    ensures Reads(Optional(present, ", "), if present then ", " else "", [], []) && Opens(Optional(present, ", "))
  {
    OptionalPlain(present, ", ");
  }

  lemma SetSeam(a: seq<Segment>, comma: bool, rest: seq<Segment>)
    requires comma || rest == []
    ensures Closes(a + Optional(comma, ", ")) || Opens(rest)
  {
  }

  function StatementSegments(st: Statement, k: nat): seq<Segment> {
    match st.parts
    case Select(_, joins, _, _, _, _, _, _, _, _) =>
      HeadSegments(st.parts, st.table) + JoinsSegments(joins, k)
      + WhereSegments(st.where, k + |JoinValues(joins)|) + TailSegments(st.parts)
    case Update(sets, subTables) =>
      UpdateHead(st.table, subTables) + SetSegments(sets, k) + WhereSegments(st.where, k + |SetValues(sets)|)
    case Delete(subTables) =>
      DeleteHead(st.table, subTables) + WhereSegments(st.where, k)
  }

  function UpdateHead(table: string, subTables: bool): seq<Segment> {
    [Keyword("UPDATE " + if subTables then "" else "ONLY ")] + [Given(table)] + [Keyword(" SET ")]
  }

  function DeleteHead(table: string, subTables: bool): seq<Segment> {
    [Keyword("DELETE FROM " + if subTables then "" else "ONLY ")] + [Given(table)]
  }

  /** The texts a statement takes from its caller, in text order. */
  function CallerTexts(st: Statement): seq<string> {
    match st.parts
    case Select(columns, joins, sorts, groups, locks, distinctOn, _, _, _, _) =>
      NameIf(distinctOn) + ColumnGivens(columns) + NameIf(st.table) + JoinsTexts(joins) + WhereTexts(st.where)
      + (groups + SortNames(sorts) + locks)
    case Update(sets, _) => [st.table] + SetColumns(sets) + WhereTexts(st.where)
    case Delete(_) => [st.table] + WhereTexts(st.where)
  }

  lemma UpdateHeadReads(table: string, subTables: bool)
    ensures Reads(UpdateHead(table, subTables), "UPDATE " + (if subTables then "" else "ONLY ") + table + " SET ", [table], [])
    ensures Closes(UpdateHead(table, subTables))
  {
    hide Reads, Closes;
    var word := "UPDATE " + if subTables then "" else "ONLY ";
    if subTables {
      WordReads("UPDATE ");
      assert word == "UPDATE ";
    } else {
      WordReads("UPDATE ONLY ");
      assert word == "UPDATE ONLY ";
    }
    assert Closes([Keyword(word)]) && Closes(UpdateHead(table, subTables)) by { HeadCloses(word, table); }
    GivenReads(table);
    WordReads(" SET ");
    ReadsAppend([Keyword(word)], word, [], [], [Given(table)], table, [table], []);
    assert Opens([Keyword(" SET ")]);
    ReadsAppend([Keyword(word)] + [Given(table)], word + table, [] + [table], [] + [], [Keyword(" SET ")], " SET ", [], []);
    assert [] + [table] + [] == [table];
  }

  lemma HeadCloses(word: string, table: string)
    requires EndsAtEdge(word)
    ensures Closes([Keyword(word)]) && Closes([Keyword(word)] + [Given(table)] + [Keyword(" SET ")])
  {
  }

  lemma GivenReads(s: string)
    ensures Reads([Given(s)], s, [s], [])
  {
    OneGiven(s);
  }

  lemma DeleteHeadReads(table: string, subTables: bool)
    ensures Reads(DeleteHead(table, subTables), "DELETE FROM " + (if subTables then "" else "ONLY ") + table, [table], [])
  {
    hide Reads;
    var word := "DELETE FROM " + if subTables then "" else "ONLY ";
    if subTables {
      WordReads("DELETE FROM ");
      assert word == "DELETE FROM ";
    } else {
      WordReads("DELETE FROM ONLY ");
      assert word == "DELETE FROM ONLY ";
    }
    GivenReads(table);
    ReadsAppend([Keyword(word)], word, [], [], [Given(table)], table, [table], []);
    assert [] + [table] == [table];
  }

  lemma SelectReads(st: Statement, k: nat)
    requires st.parts.Select? && WellFormedStatement(st)
    ensures Reads(StatementSegments(st, k), TextOf(Pieces(st, k)), CallerTexts(st), Run(k, |Registered(st)|))
  {
    hide Reads, TextOf, Pieces, JoinPieces, WherePieces, JoinValues, WhereValues, HeadSegments, TailSegments,
         JoinsSegments, WhereSegments, SelectHead, SelectTail, NameIf, ColumnGivens, JoinsTexts, WhereTexts, SortNames, Opens,
         WellFormed;
    var parts, joins, n := st.parts, st.parts.joins, |JoinValues(st.parts.joins)|;
    var a, b := HeadSegments(parts, st.table), JoinsSegments(joins, k);
    var c, d := WhereSegments(st.where, k + n), TailSegments(parts);
    var ga := NameIf(parts.distinctOn) + ColumnGivens(parts.columns) + NameIf(st.table);
    var gd := parts.groupColumns + SortNames(parts.sortColumns) + parts.lockTables;
    var ta, tb, tc := SelectHead(parts, st.table), TextOf(JoinPieces(joins, k)), TextOf(WherePieces(st.where, k + n));
    HeadPlain(parts, st.table);
    PlainReads(a);
    TailPlain(parts);
    PlainReads(d);
    JoinsReads(joins, k);
    WhereReads(st.where, k + n);
    ReadsAppend(a, ta, ga, [], b, tb, JoinsTexts(joins), Run(k, n));
    assert [] + Run(k, n) == Run(k, n);
    ReadsAppend(a + b, ta + tb, ga + JoinsTexts(joins), Run(k, n), c, tc, WhereTexts(st.where), Run(k + n, |WhereValues(st.where)|));
    RunConcat(k, n, |WhereValues(st.where)|);
    ReadsAppend(a + b + c, ta + tb + tc, ga + JoinsTexts(joins) + WhereTexts(st.where), Run(k, |Registered(st)|),
                d, SelectTail(parts), gd, []);
    assert Run(k, |Registered(st)|) + [] == Run(k, |Registered(st)|);
    TextOfSelect(st, k, ta + tb, ta + tb + tc);
  }

  lemma UpdateReads(st: Statement, k: nat)
    requires st.parts.Update? && WellFormedStatement(st)
    ensures Reads(StatementSegments(st, k), TextOf(Pieces(st, k)), CallerTexts(st), Run(k, |Registered(st)|))
  {
    hide Reads, TextOf, Pieces, SetPieces, WherePieces, SetValues, WhereValues, UpdateHead, SetSegments, WhereSegments,
         SetColumns, WhereTexts, Opens, Closes, WellFormed;
    var sets, sub, n := st.parts.assignments, st.parts.updateSubTables, |SetValues(st.parts.assignments)|;
    var head := "UPDATE " + (if sub then "" else "ONLY ") + st.table + " SET ";
    var a, b, c := UpdateHead(st.table, sub), SetSegments(sets, k), WhereSegments(st.where, k + n);
    UpdateHeadReads(st.table, sub);
    SetsReads(sets, k);
    WhereReads(st.where, k + n);
    TextOfUpdate(st, k, head);
    ReadsAppend(a, head, [st.table], [], b, TextOf(SetPieces(sets, k)), SetColumns(sets), Run(k, n));
    assert [] + Run(k, n) == Run(k, n);
    ReadsAppend(a + b, head + TextOf(SetPieces(sets, k)), [st.table] + SetColumns(sets), Run(k, n),
                c, TextOf(WherePieces(st.where, k + n)), WhereTexts(st.where), Run(k + n, |WhereValues(st.where)|));
    RunConcat(k, n, |WhereValues(st.where)|);
  }

  lemma DeleteReads(st: Statement, k: nat)
    requires st.parts.Delete? && WellFormedStatement(st)
    ensures Reads(StatementSegments(st, k), TextOf(Pieces(st, k)), CallerTexts(st), Run(k, |Registered(st)|))
  {
    hide Reads, TextOf, Pieces, WherePieces, WhereValues, DeleteHead, WhereSegments, WhereTexts, Opens, WellFormed;
    var sub := st.parts.deleteSubTables;
    var head := "DELETE FROM " + (if sub then "" else "ONLY ") + st.table;
    DeleteHeadReads(st.table, sub);
    WhereReads(st.where, k);
    TextOfDelete(st, k, head);
    ReadsAppend(DeleteHead(st.table, sub), head, [st.table], [], WhereSegments(st.where, k), TextOf(WherePieces(st.where, k)),
                WhereTexts(st.where), Run(k, |WhereValues(st.where)|));
    assert [] + Run(k, |WhereValues(st.where)|) == Run(k, |WhereValues(st.where)|);
  }

  lemma StatementReads(st: Statement, k: nat)
    requires WellFormedStatement(st)
    ensures Reads(StatementSegments(st, k), TextOf(Pieces(st, k)), CallerTexts(st), Run(k, |Registered(st)|))
  {
    hide Reads, TextOf, Pieces, StatementSegments, CallerTexts, Registered, WellFormedStatement;
    match st.parts
    case Select(_, _, _, _, _, _, _, _, _, _) => SelectReads(st, k);
    case Update(_, _) => UpdateReads(st, k);
    case Delete(_) => DeleteReads(st, k);
  }
}
