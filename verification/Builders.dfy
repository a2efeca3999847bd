/** The SELECT, UPDATE and DELETE builders. One class holds their common fields; `parts` holds those of a subclass. */
module Builders {
  import opened Conditions
  import opened Digits
  import opened QtText
  import opened Tokens
  import opened Printing
  import opened Semantics
  import opened Statements
  import opened QueryCache

  lemma RenderLeaf(c: Condition, k: nat)
    requires c.subs == []
    ensures Render(Printed(c, k)) == c.column + SpellCompare(c.compareOp) + Spell(RightSide(c, k))
  {
    var ts := Printed(c, k);
    assert Render([ts[2]]) == Spell(ts[2]);
    assert ts[1..] == [ts[1], ts[2]] && [ts[1], ts[2]][1..] == [ts[2]];
    assert Render(ts[1..]) == Spell(ts[1]) + Spell(ts[2]);
  }

  lemma TextOfPair(s: string, p: Piece)
    ensures TextOf([Fixed(s), p]) == s + Render(PieceTokens(p))
    ensures TextOf([Fixed(s)]) == s
  {
    assert Render([Raw(s)]) == s;
    assert [Fixed(s), p][1..] == [p] && [p][1..] == [] && [Fixed(s)][1..] == [];
    assert TextOf([p]) == Render(PieceTokens(p));
  }

  lemma Assoc<T>(a: seq<T>, b: seq<T>, c: seq<T>)
    ensures a + b + c == a + (b + c)
  {
  }

  function JoinText(j: JoinInfo, k: nat): string {
    JoinHead(j) + Render(Printed(j.condition, k))
  }

  lemma TextOfJoin(j: JoinInfo, rest: seq<JoinInfo>, k: nat)
    ensures TextOf(JoinPieces([j] + rest, k)) == JoinText(j, k) + TextOf(JoinPieces(rest, k + |Values(j.condition)|))
    ensures JoinValues([j] + rest) == Values(j.condition) + JoinValues(rest)
  {
    hide TextOf, Render, Printed, Values, JoinHead;
    var two := [Fixed(JoinHead(j)), Search(j.condition, k)];
    assert ([j] + rest)[1..] == rest;
    TextConcat(two, JoinPieces(rest, k + |Values(j.condition)|));
    TextOfPair(JoinHead(j), Search(j.condition, k));
  }

  lemma NoJoins(k: nat)
    ensures TextOf(JoinPieces([], k)) == ""
  {
  }

  lemma JoinStep(joins: seq<JoinInfo>, i: nat, binds: seq<Variant>, s: string, k: nat)
    requires i < |joins|
    ensures binds + Values(joins[i].condition) + JoinValues(joins[i + 1..]) == binds + JoinValues(joins[i..])
    ensures s + JoinText(joins[i], k) + TextOf(JoinPieces(joins[i + 1..], k + |Values(joins[i].condition)|))
         == s + TextOf(JoinPieces(joins[i..], k))
  {
    hide TextOf, JoinPieces, JoinText, Values, JoinValues;
    var j, rest := joins[i], joins[i + 1..];
    assert joins[i..] == [j] + rest;
    TextOfJoin(j, rest, k);
    Assoc(binds, Values(j.condition), JoinValues(rest));
    Assoc(s, JoinText(j, k), TextOf(JoinPieces(rest, k + |Values(j.condition)|)));
  }

  lemma TextOfWhere(where: Condition, k: nat)
    ensures TextOf(WherePieces(where, k))
      == if where.subs == [] then "" else " WHERE " + Render(Printed(where, k))
  {
    TextOfPair(" WHERE ", Search(where, k));
  }

  lemma TextOfSelect(st: Statement, k: nat, joined: string, filtered: string)
    requires st.parts.Select?
    requires joined == SelectHead(st.parts, st.table) + TextOf(JoinPieces(st.parts.joins, k))
    requires filtered == joined + TextOf(WherePieces(st.where, k + |JoinValues(st.parts.joins)|))
    ensures filtered + SelectTail(st.parts) == TextOf(Pieces(st, k))
  {
    hide TextOf, SelectHead, SelectTail, JoinPieces, WherePieces, JoinValues;
    TextOfFour(SelectHead(st.parts, st.table), JoinPieces(st.parts.joins, k),
               WherePieces(st.where, k + |JoinValues(st.parts.joins)|), SelectTail(st.parts));
  }

  lemma TextOfFour(head: string, a: seq<Piece>, b: seq<Piece>, tail: string)
    ensures TextOf([Fixed(head)] + a + b + [Fixed(tail)]) == head + TextOf(a) + TextOf(b) + tail
  {
    TextOfPair(head, Fixed(tail));
    TextOfPair(tail, Fixed(head));
    TextConcat([Fixed(head)], a);
    TextConcat([Fixed(head)] + a, b);
    TextConcat([Fixed(head)] + a + b, [Fixed(tail)]);
  }

  lemma TextOfUnion(st1: Statement, k1: nat, all: bool, st2: Statement, k2: nat)
    ensures TextOf(UnionPieces(st1, k1, all, st2, k2))
      == TextOf(Pieces(st1, k1)) + UnionWord(all) + TextOf(Pieces(st2, k2))
  {
    var name := UnionWord(all);
    TextOfPair(name, Fixed(""));
    TextConcat(Pieces(st1, k1), [Fixed(name)]);
    TextConcat(Pieces(st1, k1) + [Fixed(name)], Pieces(st2, k2));
  }

  /** The union of two texts: ALL keeps duplicates. */
  predicate SpelledAsUnion(s: string, first: string, all: bool, second: string) {
    s == first + (if all then " UNION ALL " else " UNION ") + second
  }

  lemma UnionSpelled(first: string, all: bool, second: string)
    ensures UnionWord(all) == if all then " UNION ALL " else " UNION "
    ensures SpelledAsUnion(first + UnionWord(all) + second, first, all, second)
  {
  }

  lemma WordOfUnion(all: bool)
    ensures UnionWord(all) == if all then " UNION ALL " else " UNION "
  {
  }

  predicate EndsWithComma(s: string) {
    |s| >= 2 && s[|s| - 2..] == ", "
  }

  function SetText(assignment: (string, Variant), k: nat): string {
    SetHead(assignment.0) + (if assignment.1 == Now then "now()" else Placeholder(k))
  }

  /** The SET list as the loop writes it, every assignment followed by a comma. */
  function SetWithCommas(sets: seq<(string, Variant)>, k: nat): string {
    if sets == [] then ""
    else SetText(sets[0], k) + ", " + SetWithCommas(sets[1..], k + |PieceValues(Assign(sets[0].1, k))|)
  }

  lemma NothingSet(k: nat)
    ensures SetWithCommas([], k) == "" && SetValues([]) == []
    ensures TextOf(SetPieces([], k)) == ""
  {
  }

  lemma DropComma(head: string, text: string, none: bool)
    ensures none || (EndsWithComma(head + (text + ", ")) && (head + (text + ", "))[..|head| + |text|] == head + text)
    ensures head + (text + "") == head + text && head + "" == head
  {
    var s := head + (text + ", ");
    assert s == head + text + ", ";
    assert s[|s| - 2..] == ", ";
  }

  lemma SetStep(sets: seq<(string, Variant)>, i: nat, binds: seq<Variant>, s: string, k: nat)
    requires i < |sets|
    ensures var vals := PieceValues(Assign(sets[i].1, 0));
      && vals == PieceValues(Assign(sets[i].1, k))
      && binds + vals + SetValues(sets[i + 1..]) == binds + SetValues(sets[i..])
      && s + SetText(sets[i], k) + ", " + SetWithCommas(sets[i + 1..], k + |vals|) == s + SetWithCommas(sets[i..], k)
  {
    hide SetText, SetWithCommas, SetValues, PieceValues;
    var v := PieceValues(Assign(sets[i].1, 0));
    SetUnfold(sets, i, k);
    Assoc(binds, v, SetValues(sets[i + 1..]));
    Assoc(s, SetText(sets[i], k), ", ");
    Assoc(s, SetText(sets[i], k) + ", ", SetWithCommas(sets[i + 1..], k + |v|));
  }

  lemma SetUnfold(sets: seq<(string, Variant)>, i: nat, k: nat)
    requires i < |sets|
    ensures var vals := PieceValues(Assign(sets[i].1, 0));
      && vals == PieceValues(Assign(sets[i].1, k))
      && SetValues(sets[i..]) == vals + SetValues(sets[i + 1..])
      && SetWithCommas(sets[i..], k) == SetText(sets[i], k) + ", " + SetWithCommas(sets[i + 1..], k + |vals|)
  {
    hide SetText;
    var rest := sets[i..];
    assert rest[0] == sets[i] && rest[1..] == sets[i + 1..];
  }

  lemma TextOfSet(sets: seq<(string, Variant)>, k: nat)
    requires sets != []
    ensures TextOf(SetPieces(sets, k)) == SetText(sets[0], k) + (if |sets| == 1 then "" else ", ")
      + TextOf(SetPieces(sets[1..], k + |PieceValues(Assign(sets[0].1, k))|))
  {
    hide TextOf, SetText, SetHead;
    var a := Assign(sets[0].1, k);
    var rest := SetPieces(sets[1..], k + |PieceValues(a)|);
    SetValuesFirst(sets);
    SetTextOf(sets[0], k);
    NothingSet(k + |PieceValues(a)|);
    if |sets| == 1 {
      TextConcat([Fixed(SetHead(sets[0].0)), a], rest);
    } else {
      TextConcat([Fixed(SetHead(sets[0].0)), a] + [Fixed(", ")], rest);
    }
  }

  lemma SetTextOf(assignment: (string, Variant), k: nat)
    ensures var two := [Fixed(SetHead(assignment.0)), Assign(assignment.1, k)];
      && TextOf(two) == SetText(assignment, k)
      && TextOf(two + [Fixed(", ")]) == SetText(assignment, k) + ", "
      && two + [] == two
  {
    var two := [Fixed(SetHead(assignment.0)), Assign(assignment.1, k)];
    TextConcat(two, [Fixed(", ")]);
    TextOfPair(SetHead(assignment.0), Assign(assignment.1, k));
    TextOfPair(", ", Fixed(""));
    var t := PieceTokens(Assign(assignment.1, k))[0];
    assert Render([t]) == Spell(t);
  }

  lemma {:induction false} CommasTrail(sets: seq<(string, Variant)>, k: nat)
    ensures SetWithCommas(sets, k) == TextOf(SetPieces(sets, k)) + if sets == [] then "" else ", "
  {
    if sets != [] {
      var k' := k + |PieceValues(Assign(sets[0].1, k))|;
      TextOfSet(sets, k);
      CommasTrail(sets[1..], k');
    }
  }

  lemma TextOfUpdate(st: Statement, k: nat, head: string)
    requires st.parts.Update?
    requires head == "UPDATE " + (if st.parts.updateSubTables then "" else "ONLY ") + st.table + " SET "
    ensures TextOf(Pieces(st, k)) == head + TextOf(SetPieces(st.parts.assignments, k))
      + TextOf(WherePieces(st.where, k + |SetValues(st.parts.assignments)|))
  {
    hide TextOf, SetPieces, WherePieces, SetValues;
    TextOfPair(head, Fixed(""));
    TextConcat([Fixed(head)], SetPieces(st.parts.assignments, k));
    TextConcat([Fixed(head)] + SetPieces(st.parts.assignments, k),
                  WherePieces(st.where, k + |SetValues(st.parts.assignments)|));
  }

  lemma TextOfDelete(st: Statement, k: nat, head: string)
    requires st.parts.Delete?
    requires head == "DELETE FROM " + (if st.parts.deleteSubTables then "" else "ONLY ") + st.table
    ensures TextOf(Pieces(st, k)) == head + TextOf(WherePieces(st.where, k))
  {
    TextOfPair(head, Fixed(""));
    TextConcat([Fixed(head)], WherePieces(st.where, k));
  }

  lemma NothingRendered(k: nat)
    ensures RenderedList([], k) == [] && ValuesOf([]) == []
  {
  }

  lemma RenderedStep(cs: seq<Condition>, i: nat, binds: seq<Variant>, conds: seq<string>, k: nat)
    requires i < |cs|
    ensures binds + Values(cs[i]) + ValuesOf(cs[i + 1..]) == binds + ValuesOf(cs[i..])
    ensures conds + [Render(Printed(cs[i], k))] + RenderedList(cs[i + 1..], k + |Values(cs[i])|)
         == conds + RenderedList(cs[i..], k)
  {
    hide Render, Printed, Values;
    var rest := cs[i..];
    assert rest[0] == cs[i] && rest[1..] == cs[i + 1..];
    Assoc(binds, Values(cs[i]), ValuesOf(cs[i + 1..]));
    Assoc(conds, [Render(Printed(cs[i], k))], RenderedList(cs[i + 1..], k + |Values(cs[i])|));
  }

  /** A node is its only child, or its joined children in parentheses. */
  lemma RenderJunction(c: Condition, k: nat)
    requires c.subs != []
    ensures var conds := RenderedList(c.subs, k);
      && |conds| == |c.subs|
      && Render(Printed(c, k)) == if |conds| == 1 then conds[0] else "(" + Join(conds, SpellLogic(c.logicOp)) + ")"
  {
    RenderedLength(c.subs, k);
    if |c.subs| > 1 {
      var list := PrintedList(c.subs, c.logicOp, k);
      JoinRendered(c.subs, c.logicOp, k);
      RenderParens(list);
    }
  }

  lemma {:induction false} RenderedLength(cs: seq<Condition>, k: nat)
    ensures |RenderedList(cs, k)| == |cs|
    decreases |cs|
  {
    if cs != [] {
      RenderedLength(cs[1..], k + |Values(cs[0])|);
    }
  }

  lemma RenderParens(list: seq<Token>)
    ensures Render([LParen] + list + [RParen]) == "(" + Render(list) + ")"
  {
    RenderConcat([LParen] + list, [RParen]);
    RenderConcat([LParen], list);
    assert [LParen][1..] == [] && [RParen][1..] == [];
    assert Render([LParen]) == "(" && Render([RParen]) == ")";
  }

  class SqlConditionalQueryBuilder {
    const connection: string
    var parts: Parts
    var table: string
    var where: Condition
    var bindValues: seq<Variant>
    var bindedValuesOffset: nat
    var queryString: string
    var assembled: bool
    var query: Handle

    function Built(): Statement
      reads this
    {
      Statement(parts, table, where)
    }

    /** The index the next registered value will be printed with. */
    function NextIndex(): nat
      reads this
    {
      bindedValuesOffset + |bindValues|
    }

    constructor (connection: string, parts: Parts)
      ensures this.connection == connection && Built() == Statement(parts, "", Leaf("", Equals))
      ensures bindValues == [] && bindedValuesOffset == 0 && queryString == "" && !assembled
      ensures query == Handle(connection, "", map[])
    {
      this.connection, this.parts, table, where := connection, parts, "", Leaf("", Equals);
      bindValues, bindedValuesOffset, queryString, assembled := [], 0, "", false;
      query := Handle(connection, "", map[]);
    }

    method InvalidateQuery()
      modifies this`assembled
      ensures !assembled
    {
      assembled := false;
    }

    // ----- printing conditions -----

    method RegisterBindValue(value: Variant) returns (s: string)
      modifies this`bindValues
      ensures bindValues == old(bindValues) + [value]
      ensures s == Placeholder(old(NextIndex()))
    {
      bindValues := bindValues + [value];
      s := ":" + Number(bindedValuesOffset + |bindValues| - 1, 10);
    }

    method ConditionToString(c: Condition) returns (s: string)
      modifies this`bindValues
      ensures bindValues == old(bindValues) + Values(c)
      ensures s == Render(Printed(c, old(NextIndex())))
      decreases c, 1
    {
      if c.subs != [] {
        RenderJunction(c, NextIndex());
        var conds := SubConditionsToStrings(c.subs);
        if |conds| == 1 {
          return conds[0];
        }
        s := "(" + Join(conds, SpellLogic(c.logicOp)) + ")";
      } else {
        s := LeafToString(c);
      }
    }

    method SubConditionsToStrings(cs: seq<Condition>) returns (conds: seq<string>)
      modifies this`bindValues
      ensures bindValues == old(bindValues) + ValuesOf(cs)
      ensures conds == RenderedList(cs, old(NextIndex()))
      decreases cs, 0
    {
      hide Render, Printed, Values, ValuesOf, RenderedList;
      ghost var k := NextIndex();
      conds := [];
      NothingRendered(k);
      assert cs[0..] == cs;
      for i := 0 to |cs|
        invariant k == NextIndex()
        invariant bindValues + ValuesOf(cs[i..]) == old(bindValues) + ValuesOf(cs)
        invariant conds + RenderedList(cs[i..], k) == RenderedList(cs, old(NextIndex()))
      {
        RenderedStep(cs, i, bindValues, conds, k);
        var cond := ConditionToString(cs[i]);
        conds := conds + [cond];
        k := k + |Values(cs[i])|;
      }
      NothingRendered(k);
      assert cs[|cs|..] == [];
      assert conds + [] == conds && bindValues + [] == bindValues;
    }

    method LeafToString(c: Condition) returns (s: string)
      requires c.subs == []
      modifies this`bindValues
      ensures bindValues == old(bindValues) + Values(c)
      ensures s == Render(Printed(c, old(NextIndex())))
    {
      RenderLeaf(c, NextIndex());
      s := c.column;
      s := s + SpellCompare(c.compareOp);
      if c.comparedColumn == "" {
        if c.value != Invalid {
          if c.value == Now {
            s := s + "now()";
          } else {
            var p := RegisterBindValue(c.value);
            s := s + p;
          }
        } else if c.placeholder != "" {
          s := s + c.placeholder;
        } else {
          s := s + "NULL";
        }
      } else {
        s := s + c.comparedColumn;
      }
    }

    // ----- preparing and binding -----

    method BindValue(index: nat, value: Variant)
      modifies this`query
      ensures query == old(query).(bound := if value == Now then old(query).bound
                                            else old(query).bound[Placeholder(index) := DriverForm(value)])
      ensures value.Uuid? ==> Placeholder(index) in query.bound && query.bound[Placeholder(index)] == Text(value.id)
      ensures !value.Uuid? && value != Now ==> Placeholder(index) in query.bound && query.bound[Placeholder(index)] == value
    {
      var placeholder := ":" + Number(index, 10);
      if value.Uuid? {
        query := query.(bound := query.bound[placeholder := Text(value.id)]);
      } else if value != Now {
        query := query.(bound := query.bound[placeholder := value]);
      }
    }

    /** Binds the whole list, index by index. */
    method BindAll()
      modifies this`query
      ensures query == old(query).(bound := Bound(old(query).bound, bindValues))
    {
      for i := 0 to |bindValues|
        invariant query == old(query).(bound := BoundUpTo(old(query).bound, bindValues, i))
      {
        BindValue(i, bindValues[i]);
      }
    }

    /** Prepares the assembled text and binds the list over whatever `before` was bound. */
    method PrepareAndBind(cache: SqlQueryCache, driver: Driver) returns (ok: bool, ghost before: Bindings)
      requires Honest(cache.State())
      modifies cache, driver, this`query
      ensures Honest(cache.State())
      ensures PreparedOnce(old(cache.State()), old(driver.prepared), driver.prepared, connection, queryString, ok)
      ensures ok && !Hit(old(cache.State()), connection, queryString) ==> before == map[]
      ensures query == if ok then Handle(connection, queryString, Bound(before, bindValues)) else old(query)
    {
      var q;
      ok, q := PrepareQuery(cache, driver, connection, queryString);
      before := q.bound;
      if ok {
        query := q;
        BindAll();
      }
    }

    // ----- SELECT -----

    method ColumnsToStrings() returns (cols: seq<string>)
      requires parts.Select?
      ensures cols == ColumnTexts(parts.columns)
    {
      hide ColumnText;
      cols := [];
      for i := 0 to |parts.columns|
        invariant cols + ColumnTexts(parts.columns[i..]) == ColumnTexts(parts.columns)
      {
        assert parts.columns[i..][1..] == parts.columns[i + 1..];
        var column := ColumnToString(parts.columns[i]);
        cols := cols + [column];
      }
      assert parts.columns[|parts.columns|..] == [];
    }

    method ColumnToString(column: (string, string)) returns (s: string)
      ensures s == ColumnText(column)
    {
      s := column.0;
      if column.1 != "" {
        var quotedAs := EscapeQuotes(column.1);
        s := s + " AS \"" + quotedAs + "\"";
      }
    }

    method SelectColumns() returns (s: string)
      requires parts.Select?
      ensures s == SelectHead(parts, table)
    {
      hide Join, ColumnTexts;
      var cols := ColumnsToStrings();
      s := "SELECT ";
      if parts.distinct {
        s := s + "DISTINCT ";
      }
      if parts.distinctOn != "" {
        s := s + "DISTINCT ON(" + parts.distinctOn + ") ";
      }
      s := s + Join(cols, ", ");
      if table != "" {
        s := s + " FROM ";
        s := s + table;
      }
    }

    method SelectEnd() returns (s: string)
      requires parts.Select?
      ensures s == SelectTail(parts)
    {
      s := "";
      if parts.groupColumns != [] {
        s := s + " GROUP BY " + Join(parts.groupColumns, ", ");
      }
      if parts.sortColumns != [] {
        var sortCols: seq<string> := [];
        for i := 0 to |parts.sortColumns|
          invariant sortCols + SortTexts(parts.sortColumns[i..]) == SortTexts(parts.sortColumns)
        {
          assert parts.sortColumns[i..][1..] == parts.sortColumns[i + 1..];
          sortCols := sortCols + [SortText(parts.sortColumns[i])];
        }
        assert parts.sortColumns[|parts.sortColumns|..] == [];
        assert sortCols == SortTexts(parts.sortColumns);
        s := s + " ORDER BY " + Join(sortCols, ", ");
      }
      if parts.lockTables != [] {
        s := s + " FOR UPDATE OF " + Join(parts.lockTables, ", ");
        if parts.lockNoWait {
          s := s + " NOWAIT";
        }
      }
      if parts.limitOffset != UNSET {
        s := s + " OFFSET " + Number(parts.limitOffset, 10) + " LIMIT " + Number(parts.limitLength, 10);
      }
    }

    method JoinsToString(head: string) returns (s: string)
      requires parts.Select?
      modifies this`bindValues
      ensures bindValues == old(bindValues) + JoinValues(parts.joins)
      ensures s == head + TextOf(JoinPieces(parts.joins, old(NextIndex())))
    {
      hide TextOf, JoinPieces;
      ghost var joins, k := parts.joins, NextIndex();
      ghost var text := head + TextOf(JoinPieces(joins, k));
      s := head;
      assert joins[0..] == joins;
      for i := 0 to |parts.joins|
        invariant k == NextIndex()
        invariant bindValues + JoinValues(joins[i..]) == old(bindValues) + JoinValues(joins)
        invariant s + TextOf(JoinPieces(joins[i..], k)) == text
      {
        JoinStep(joins, i, bindValues, s, k);
        var clause := JoinToString(parts.joins[i]);
        s := s + clause;
        k := k + |Values(joins[i].condition)|;
      }
      assert joins[|joins|..] == [];
      NoJoins(k);
      assert s + "" == s && bindValues + [] == bindValues;
    }

    method JoinToString(j: JoinInfo) returns (s: string)
      modifies this`bindValues
      ensures bindValues == old(bindValues) + Values(j.condition)
      ensures s == JoinText(j, old(NextIndex()))
    {
      s := JoinWord(j.kind);
      s := s + j.table;
      s := s + " ON ";
      var on := ConditionToString(j.condition);
      s := s + on;
    }

    method WhereToString(head: string) returns (s: string)
      modifies this`bindValues
      ensures bindValues == old(bindValues) + WhereValues(where)
      ensures s == head + TextOf(WherePieces(where, old(NextIndex())))
    {
      hide TextOf, Render, Printed, Values, WherePieces;
      TextOfWhere(where, NextIndex());
      s := head;
      if where.subs != [] {
        s := s + " WHERE ";
        var cond := ConditionToString(where);
        s := s + cond;
      }
    }

    method SelectToString() returns (s: string)
      requires parts.Select?
      modifies this`bindValues
      ensures bindValues == old(bindValues) + Registered(Built())
      ensures s == TextOf(Pieces(Built(), old(NextIndex())))
    {
      hide TextOf, Pieces, JoinPieces, WherePieces, JoinValues, WhereValues, SelectHead, SelectTail;
      ghost var k := NextIndex();
      s := SelectColumns();
      s := JoinsToString(s);
      ghost var joined := s;
      s := WhereToString(s);
      TextOfSelect(Built(), k, joined, s);
      Assoc(old(bindValues), JoinValues(parts.joins), WhereValues(where));
      var end := SelectEnd();
      s := s + end;
    }

    method SelectQuery(cache: SqlQueryCache, driver: Driver) returns (ok: bool, ghost before: Bindings)
      requires parts.Select? && Honest(cache.State())
      modifies cache, driver, this`bindValues, this`queryString, this`assembled, this`query
      ensures Honest(cache.State()) && assembled
      ensures old(assembled) ==> ok && unchanged(this) && unchanged(cache) && unchanged(driver)
      ensures !old(assembled) ==>
        && bindValues == old(bindValues) + Registered(Built())
        && queryString == TextOf(Pieces(Built(), old(NextIndex())))
        && PreparedOnce(old(cache.State()), old(driver.prepared), driver.prepared, connection, queryString, ok)
        && (ok && !Hit(old(cache.State()), connection, queryString) ==> before == map[])
        && query == if ok then Handle(connection, queryString, Bound(before, bindValues)) else old(query)
    {
      hide PreparedOnce, Hit, Honest, TextOf, Pieces, Bound, Registered;
      ok, before := true, map[];
      if !assembled {
        queryString := SelectToString();
        assembled := true;
        ok, before := PrepareAndBind(cache, driver);
      }
    }

    /** Combines two SELECTs, unless this builder is already in use. */
    method CombineQueries(query1: SqlConditionalQueryBuilder, query2: SqlConditionalQueryBuilder, all: bool,
                          cache: SqlQueryCache, driver: Driver)
      returns (combined: bool, ok: bool, ghost before: Bindings)
      requires query1.parts.Select? && query2.parts.Select? && Honest(cache.State())
      modifies cache, driver, query1`bindValues, query2`bindValues, query2`bindedValuesOffset
      modifies this`bindValues, this`queryString, this`assembled, this`query
      ensures Honest(cache.State())
      ensures combined <==> !old(assembled) && old(bindValues) == [] && old(queryString) == ""
      ensures !combined ==> unchanged(this) && unchanged(query1) && unchanged(query2) && unchanged(cache) && unchanged(driver)
      ensures combined ==> assembled && old(query1.Built()) == query1.Built() && old(query2.Built()) == query2.Built()
      ensures combined ==>
        var list1 := old(query1.bindValues) + Registered(query1.Built());
        var before2 := if query1 == query2 then list1 else old(query2.bindValues);
        var list2 := before2 + Registered(query2.Built());
        && query2.bindedValuesOffset == |list1|
        && (query2 != this ==> query2.bindValues == list2)
        && (query1 != this && query1 != query2 ==> query1.bindValues == list1)
        && queryString == TextOf(UnionPieces(query1.Built(), old(query1.NextIndex()), all,
                                             query2.Built(), |list1| + |before2|))
        && SpelledAsUnion(queryString, TextOf(Pieces(query1.Built(), old(query1.NextIndex()))), all,
                          TextOf(Pieces(query2.Built(), |list1| + |before2|)))
        && bindValues == (if query1 == query2 then list2 else list1) + list2
        && PreparedOnce(old(cache.State()), old(driver.prepared), driver.prepared, connection, queryString, ok)
        && (ok && !Hit(old(cache.State()), connection, queryString) ==> before == map[])
        && query == if ok then Handle(connection, queryString, Bound(before, bindValues)) else old(query)
    {
      hide TextOf, Pieces, UnionPieces, Registered, Bound, PreparedOnce, Hit, Honest, UnionWord, SpelledAsUnion;
      combined, ok, before := false, true, map[];
      if !assembled && bindValues == [] && queryString == "" {
        var unionName := if all then " UNION ALL " else " UNION ";
        ghost var k1 := query1.NextIndex();
        var query1String := query1.SelectToString();
        query2.bindedValuesOffset := |query1.bindValues|;
        ghost var k2 := query2.NextIndex();
        var query2String := query2.SelectToString();
        TextOfUnion(query1.Built(), k1, all, query2.Built(), k2);
        UnionSpelled(query1String, all, query2String);
        queryString := query1String + unionName + query2String;
        assembled := true;
        bindValues := query1.bindValues + query2.bindValues;
        combined := true;
        ok, before := PrepareAndBind(cache, driver);
      }
    }

    // ----- UPDATE and DELETE -----

    method SetToString(head: string) returns (s: string)
      requires parts.Update? && !EndsWithComma(head)
      modifies this`bindValues
      ensures bindValues == old(bindValues) + SetValues(parts.assignments)
      ensures s == head + TextOf(SetPieces(parts.assignments, old(NextIndex())))
    {
      hide TextOf, SetPieces, SetWithCommas, SetText, SetValues;
      ghost var sets, k := parts.assignments, NextIndex();
      ghost var text := head + SetWithCommas(sets, k);
      s := head;
      assert sets[0..] == sets;
      for i := 0 to |parts.assignments|
        invariant k == NextIndex()
        invariant bindValues + SetValues(sets[i..]) == old(bindValues) + SetValues(sets)
        invariant s + SetWithCommas(sets[i..], k) == text
      {
        SetStep(sets, i, bindValues, s, k);
        var assignment := AssignmentToString(parts.assignments[i]);
        s := s + assignment;
        s := s + ", ";
        k := k + |PieceValues(Assign(sets[i].1, k))|;
      }
      assert sets[|sets|..] == [];
      NothingSet(k);
      assert s + "" == s && bindValues + [] == bindValues;
      CommasTrail(sets, old(NextIndex()));
      DropComma(head, TextOf(SetPieces(sets, old(NextIndex()))), sets == []);
      if EndsWithComma(s) {
        s := s[..|s| - 2];
      }
    }

    method AssignmentToString(assignment: (string, Variant)) returns (s: string)
      modifies this`bindValues
      ensures bindValues == old(bindValues) + PieceValues(Assign(assignment.1, 0))
      ensures s == SetText(assignment, old(NextIndex()))
    {
      s := assignment.0;
      s := s + " = ";
      if assignment.1 == Now {
        s := s + "now()";
      } else {
        var p := RegisterBindValue(assignment.1);
        s := s + p;
      }
    }

    method UpdateQuery(cache: SqlQueryCache, driver: Driver) returns (ok: bool, ghost before: Bindings)
      requires parts.Update? && Honest(cache.State())
      modifies cache, driver, this`bindValues, this`queryString, this`assembled, this`query
      ensures Honest(cache.State()) && assembled
      ensures old(assembled) ==> ok && unchanged(this) && unchanged(cache) && unchanged(driver)
      ensures !old(assembled) ==>
        && bindValues == Registered(Built())
        && queryString == Trimmed(TextOf(Pieces(Built(), bindedValuesOffset)))
        && PreparedOnce(old(cache.State()), old(driver.prepared), driver.prepared, connection, queryString, ok)
        && (ok && !Hit(old(cache.State()), connection, queryString) ==> before == map[])
        && query == if ok then Handle(connection, queryString, Bound(before, bindValues)) else old(query)
    {
      hide PreparedOnce, Hit, Honest, TextOf, Pieces, Bound, Registered;
      ok, before := true, map[];
      if !assembled {
        var s := UpdateToString();
        queryString := Trimmed(s);
        assembled := true;
        ok, before := PrepareAndBind(cache, driver);
      }
    }

    method UpdateToString() returns (s: string)
      requires parts.Update?
      modifies this`bindValues
      ensures bindValues == Registered(Built())
      ensures s == TextOf(Pieces(Built(), bindedValuesOffset))
    {
      hide TextOf, Pieces, SetPieces, WherePieces, SetValues, WhereValues;
      s := "UPDATE ";
      if !parts.updateSubTables {
        s := s + "ONLY ";
      }
      s := s + table;
      s := s + " SET ";
      assert s[|s| - 2..][0] == 'T';
      bindValues := [];
      ghost var head := s;
      s := SetToString(s);
      assert bindValues == SetValues(parts.assignments);
      s := WhereToString(s);
      TextOfUpdate(Built(), bindedValuesOffset, head);
    }

    method DeleteQuery(cache: SqlQueryCache, driver: Driver) returns (ok: bool, ghost before: Bindings)
      requires parts.Delete? && Honest(cache.State())
      modifies cache, driver, this`bindValues, this`queryString, this`assembled, this`query
      ensures Honest(cache.State()) && assembled
      ensures old(assembled) ==> ok && unchanged(this) && unchanged(cache) && unchanged(driver)
      ensures !old(assembled) ==>
        && bindValues == Registered(Built())
        && queryString == Trimmed(TextOf(Pieces(Built(), bindedValuesOffset)))
        && PreparedOnce(old(cache.State()), old(driver.prepared), driver.prepared, connection, queryString, ok)
        && (ok && !Hit(old(cache.State()), connection, queryString) ==> before == map[])
        && query == if ok then Handle(connection, queryString, Bound(before, bindValues)) else old(query)
    {
      hide PreparedOnce, Hit, Honest, TextOf, Pieces, Bound, Registered;
      ok, before := true, map[];
      if !assembled {
        var s := DeleteToString();
        queryString := Trimmed(s);
        assembled := true;
        var q;
        ok, q := PrepareQuery(cache, driver, connection, queryString);
        before := q.bound;
        if ok {
          query := q;
          NoNowValues(where);
          BindAllForDelete();
        }
      }
    }

    method DeleteToString() returns (s: string)
      requires parts.Delete?
      modifies this`bindValues
      ensures bindValues == Registered(Built()) == WhereValues(where)
      ensures s == TextOf(Pieces(Built(), bindedValuesOffset))
    {
      hide TextOf, Pieces;
      s := "DELETE FROM ";
      if !parts.deleteSubTables {
        s := s + "ONLY ";
      }
      s := s + table;
      bindValues := [];
      ghost var head := s;
      s := WhereToString(s);
      TextOfDelete(Built(), bindedValuesOffset, head);
    }

    method BindAllForDelete()
      requires Now !in bindValues
      modifies this`query
      ensures query == old(query).(bound := Bound(old(query).bound, bindValues))
    {
      for i := 0 to |bindValues|
        invariant query == old(query).(bound := BoundUpTo(old(query).bound, bindValues, i))
      {
        BindDeleteValue(i, bindValues[i]);
      }
    }

    /** The DELETE builder's own binding step: it does not know the server-side time. */
    method BindDeleteValue(index: nat, value: Variant)
      modifies this`query
      ensures query == old(query).(bound := old(query).bound[Placeholder(index) := DriverForm(value)])
    {
      var placeholder := ":" + Number(index, 10);
      if value.Uuid? {
        query := query.(bound := query.bound[placeholder := Text(value.id)]);
      } else {
        query := query.(bound := query.bound[placeholder := value]);
      }
    }
  }
}
