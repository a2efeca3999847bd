/** Statement texts the repository's own tests expect. */
module TestCases {
  import opened Conditions
  import opened Digits
  import opened QtText
  import opened Tokens
  import opened Printing
  import opened Semantics
  import opened Statements
  import opened Builders
  import opened InsertBuilder
  import opened SelectText
  import opened Parsing

  lemma OneDigit(d: nat)
    requires d < 10
    ensures Placeholder(d) == [':', '0' + d as char]
  {
  }

  lemma RenderedPair(a: Condition, b: Condition, k: nat)
    ensures RenderedList([a, b], k) == [Render(Printed(a, k)), Render(Printed(b, k + |Values(a)|))]
    ensures ValuesOf([a, b]) == Values(a) + Values(b)
  {
    assert [a, b][1..] == [b] && [b][1..] == [];
    assert RenderedList([b], k + |Values(a)|) == [Render(Printed(b, k + |Values(a)|))];
    assert ValuesOf([b]) == Values(b);
  }

  lemma JoinPair(a: string, b: string, separator: string)
    ensures Join([a, b], separator) == a + separator + b
  {
    assert [a, b][1..] == [b];
  }

  /** A junction of two leaves, printed from index `k`. */
  lemma RenderedJunction(op: LogicOperator, a: Condition, b: Condition, k: nat)
    requires a.subs == [] && b.subs == []
    ensures
      var c := Leaf("", Equals).(logicOp := op, subs := [a, b]);
      Render(Printed(c, k))
        == "(" + (a.column + SpellCompare(a.compareOp) + Spell(RightSide(a, k)) + SpellLogic(op)
                  + (b.column + SpellCompare(b.compareOp) + Spell(RightSide(b, k + |Values(a)|)))) + ")"
  {
    RenderJunction(Leaf("", Equals).(logicOp := op, subs := [a, b]), k);
    RenderedPair(a, b, k);
    JoinPair(Render(Printed(a, k)), Render(Printed(b, k + |Values(a)|)), SpellLogic(op));
    RenderLeaf(a, k);
    RenderLeaf(b, k + |Values(a)|);
  }

  /** "two and where conds" and "two or where conds", for any column names. */
  lemma WhereTexts(column: string, tel: string, fax: string)
    requires fax != ""
    ensures
      var number := ValueLeaf(column, Equals, Other(42), true);
      var phones := ColumnLeaf(tel, Greater, fax);
      && Render(Printed(Leaf("", Equals).(logicOp := And, subs := [number, phones]), 0))
         == "(" + (column + " = " + ":0" + " AND " + (tel + " > " + fax)) + ")"
      && Render(Printed(Leaf("", Equals).(logicOp := Or, subs := [number, phones]), 0))
         == "(" + (column + " = " + ":0" + " OR " + (tel + " > " + fax)) + ")"
  {
    hide Render, Printed;
    OneDigit(0);
    RenderedJunction(And, ValueLeaf(column, Equals, Other(42), true), ColumnLeaf(tel, Greater, fax), 0);
    RenderedJunction(Or, ValueLeaf(column, Equals, Other(42), true), ColumnLeaf(tel, Greater, fax), 0);
  }

  /** "server side time". */
  lemma TimeTexts(ts: string, txt: string)
    ensures Render(Printed(Leaf("", Equals).(logicOp := And,
        subs := [ValueLeaf(ts, LessOrEqual, Now, true), ValueLeaf(txt, Is, Invalid, true)]), 0))
      == "(" + (ts + " <= " + "now()" + " AND " + (txt + " IS " + "NULL")) + ")"
  {
    hide Render, Printed;
    RenderedJunction(And, ValueLeaf(ts, LessOrEqual, Now, true), ValueLeaf(txt, Is, Invalid, true), 0);
  }

  /** "3 columns with 1 alias". */
  lemma ColumnListTexts()
    ensures ColumnTexts([("col1", ""), ("col2", ""), ("col3", "foo")]) == ["col1", "col2", "col3 AS \"foo\""]
  {
    var cols := [("col1", ""), ("col2", ""), ("col3", "foo")];
    assert EscapeQuotes("foo") == "foo";
    assert cols[1..][1..][1..] == [] && cols[1..] == [cols[1], cols[2]] && cols[1..][1..] == [cols[2]];
    assert "col3" + " AS \"" + "foo" + "\"" == "col3 AS \"foo\"";
    assert ColumnTexts([cols[2]]) == ["col3 AS \"foo\""];
    assert ColumnTexts(cols[1..]) == ["col2", "col3 AS \"foo\""];
  }

  /** "sort 2 cols". */
  lemma SortTextsOfTwo()
    ensures Join(SortTexts([("col1", Ascending), ("col2", Descending)]), ", ") == "col1 ASC, col2 DESC"
  {
    var sorts := [("col1", Ascending), ("col2", Descending)];
    assert sorts[1..] == [sorts[1]] && sorts[1..][1..] == [];
    assert "col1" + " ASC" == "col1 ASC" && "col2" + " DESC" == "col2 DESC";
    assert SortTexts([sorts[1]]) == ["col2 DESC"];
    assert SortTexts(sorts) == ["col1 ASC", "col2 DESC"];
    JoinPair("col1 ASC", "col2 DESC", ", ");
    assert "col1 ASC" + ", " + "col2 DESC" == "col1 ASC, col2 DESC";
  }

  /** "1 inner join". */
  lemma JoinTexts(table: string, column1: string, column2: string)
    requires column2 != ""
    ensures
      var on := Leaf("", Equals).(subs := [ColumnLeaf(column1, Equals, column2)]);
      JoinText(JoinInfo(InnerJoin, table, on), 0) == " INNER JOIN " + table + " ON " + (column1 + " = " + column2)
  {
    hide Render;
    RenderLeaf(ColumnLeaf(column1, Equals, column2), 0);
  }

  /** The SET list of "server-side now" in the update tests, and a column set to a value. */
  lemma SetTexts()
    ensures SetText(("ts", Now), 0) == "ts = now()" && SetText(("txt", Invalid), 0) == "txt = :0"
    ensures SetValues([("ts", Now), ("txt", Invalid)]) == [Invalid]
  {
    OneDigit(0);
    var sets := [("ts", Now), ("txt", Invalid)];
    assert sets[1..] == [("txt", Invalid)] && sets[1..][1..] == [];
  }

  /** "server-side now" in the insert tests. */
  lemma InsertTexts(id: Variant)
    requires id != Now
    ensures
      var values := Put(Put(Put([], "id", id), "ts", Now), "txt", Invalid);
      Slots(["id", "ts", "txt"], values) == [":0", "now()", ":2"]
  {
    var m := [("id", id), ("ts", Now), ("txt", Invalid)];
    assert Put(Put(Put([], "id", id), "ts", Now), "txt", Invalid) == m by {
      PutsInOrder(id);
    }
    OneDigit(0);
    OneDigit(2);
    assert m[1..] == [("ts", Now), ("txt", Invalid)] && m[1..][1..] == [("txt", Invalid)];
    var columns := ["id", "ts", "txt"];
    assert Get(m, "id") == Success(id);
    assert Get(m[1..], "ts") == Success(Now) && Get(m[1..][1..], "txt") == Success(Invalid);
    assert Get(m, "ts") == Get(m[1..], "ts");
    assert Get(m[1..], "txt") == Get(m[1..][1..], "txt");
    assert Get(m, "txt") == Get(m[1..], "txt");
    assert Slot(columns, m, 0) == ":0" && Slot(columns, m, 1) == "now()" && Slot(columns, m, 2) == ":2";
    assert Slots(columns, m) == [":0", "now()", ":2"];
  }

  lemma PutsInOrder(id: Variant)
    ensures Put(Put(Put([], "id", id), "ts", Now), "txt", Invalid) == [("id", id), ("ts", Now), ("txt", Invalid)]
  {
    assert !KeyLess("ts", "id") && !KeyLess("txt", "id");
    assert "txt"[1..][0] == 'x' && "ts"[1..][0] == 's';
    assert !KeyLess("txt", "ts");
    assert Put([("id", id)], "ts", Now) == [("id", id), ("ts", Now)];
    var m := [("id", id), ("ts", Now)];
    assert m[1..] == [("ts", Now)] && m[1..][1..] == [];
    assert Put(m[1..], "txt", Invalid) == [("ts", Now), ("txt", Invalid)];
  }

  // ----- whole statements with every clause, for any names -----

  /** A condition of one comparison of two columns. */
  function Compares(column1: string, column2: string): Condition {
    Leaf("", Equals).(subs := [ColumnLeaf(column1, Equals, column2)])
  }

  lemma ComparesText(column1: string, column2: string, k: nat)
    requires column2 != ""
    ensures Render(Printed(Compares(column1, column2), k)) == column1 + " = " + column2 && Values(Compares(column1, column2)) == []
  {
    var c := Compares(column1, column2);
    RenderLeaf(c.subs[0], k);
    assert c.subs[1..] == [];
    assert Values(c.subs[0]) == [] && ValuesOf(c.subs[1..]) == [];
    assert ValuesOf(c.subs) == [] + [];
  }

  lemma SortPair(a: string, b: string)
    ensures Join(SortTexts([(a, Ascending), (b, Descending)]), ", ") == a + " ASC" + ", " + (b + " DESC")
  {
    var sorts := [(a, Ascending), (b, Descending)];
    assert sorts[1..] == [sorts[1]] && sorts[1..][1..] == [];
    assert SortTexts([sorts[1]]) == [b + " DESC"];
    assert SortTexts(sorts) == [a + " ASC", b + " DESC"];
    JoinPair(a + " ASC", b + " DESC", ", ");
  }

  lemma AliasedPair(a: string, b: string)
    ensures Join(ColumnTexts([(a, ""), (b, "c\"d")]), ", ") == a + ", " + (b + " AS \"" + "c\\\"d" + "\"")
  {
    var cols := [(a, ""), (b, "c\"d")];
    assert cols[1..] == [cols[1]] && cols[1..][1..] == [];
    assert "c\"d"[1..] == "\"d" && "\"d"[1..] == "d" && "d"[1..] == "";
    assert EscapeQuotes("d") == "d" && EscapeQuotes("\"d") == "\\\"d" && EscapeQuotes("c\"d") == "c\\\"d";
    assert ColumnTexts([cols[1]]) == [b + " AS \"" + "c\\\"d" + "\""];
    assert ColumnTexts(cols) == [a, b + " AS \"" + "c\\\"d" + "\""];
    JoinPair(a, b + " AS \"" + "c\\\"d" + "\"", ", ");
  }

  /** The end of a SELECT with every clause. */
  lemma TailTexts(g: string, h: string, i: string, j: string, l: string, m: string)
    ensures SelectTail(EMPTY_SELECT.(groupColumns := [g, h], sortColumns := [(i, Ascending), (j, Descending)],
                                     lockTables := [l, m], lockNoWait := true, limitOffset := 5, limitLength := 9))
      == " GROUP BY " + (g + ", " + h) + (" ORDER BY " + (i + " ASC" + ", " + (j + " DESC")))
       + (" FOR UPDATE OF " + (l + ", " + m) + " NOWAIT" + (" OFFSET " + "5" + (" LIMIT " + "9")))
  {
    hide SelectTail, Join, SortTexts;
    JoinPair(g, h, ", ");
    JoinPair(l, m, ", ");
    SortPair(i, j);
    TailText(EMPTY_SELECT.(groupColumns := [g, h], sortColumns := [(i, Ascending), (j, Descending)],
                           lockTables := [l, m], lockNoWait := true, limitOffset := 5, limitLength := 9));
  }

  /** The start of a SELECT, its columns, a join and a condition. */
  lemma SelectTexts(a: string, b: string, t: string, u: string, v: string, w: string, x: string, y: string)
    requires t != "" && w != "" && y != ""
    ensures
      var parts := EMPTY_SELECT.(columns := [(a, ""), (b, "c\"d")], distinct := true,
                                 joins := [JoinInfo(LeftOuterJoin, u, Compares(v, w))]);
      TextOf(Pieces(Statement(parts, t, Compares(x, y)), 0))
      == "SELECT " + "DISTINCT " + (a + ", " + (b + " AS \"" + "c\\\"d" + "\"")) + " FROM " + t
       + (" LEFT OUTER JOIN " + u + " ON " + (v + " = " + w)) + (" WHERE " + (x + " = " + y))
  {
    hide TextOf, JoinPieces, WherePieces, JoinValues, Join, ColumnTexts, Render, Printed, Values;
    var parts := EMPTY_SELECT.(columns := [(a, ""), (b, "c\"d")], distinct := true,
                               joins := [JoinInfo(LeftOuterJoin, u, Compares(v, w))]);
    var st := Statement(parts, t, Compares(x, y));
    AliasedPair(a, b);
    ComparesText(v, w, 0);
    ComparesText(x, y, 0);
    var j := parts.joins[0];
    assert parts.joins == [j] + [];
    TextOfJoin(j, [], 0);
    NoJoins(0);
    assert JoinText(j, 0) + "" == JoinText(j, 0);
    TextOfWhere(st.where, 0);
    assert |JoinValues(parts.joins)| == 0 by { NoJoinValues(); }
    assert SelectTail(parts) == "";
    var head := SelectHead(parts, t);
    assert head == "SELECT " + "DISTINCT " + Join(ColumnTexts(parts.columns), ", ") + " FROM " + t;
    TextOfSelect(st, 0, head + JoinText(j, 0), head + JoinText(j, 0) + (" WHERE " + (x + " = " + y)));
    assert head + JoinText(j, 0) + (" WHERE " + (x + " = " + y)) + "" == head + JoinText(j, 0) + (" WHERE " + (x + " = " + y));
  }

  lemma NoJoinValues()
    ensures JoinValues([]) == []
  {
  }

  /** An UPDATE of two columns and a DELETE, with and without sub-tables. */
  lemma UpdateTexts(t: string, a: string, b: string, x: string, y: string, v: Variant, sub: bool)
    requires v != Now && y != ""
    ensures TextOf(Pieces(Statement(Update([(a, v), (b, Now)], sub), t, Compares(x, y)), 0))
      == "UPDATE " + (if sub then "" else "ONLY ") + t + " SET "
       + (a + " = " + ":0" + ", " + (b + " = " + "now()")) + (" WHERE " + (x + " = " + y))
    ensures TextOf(Pieces(Statement(Delete(sub), t, Compares(x, y)), 0))
      == "DELETE FROM " + (if sub then "" else "ONLY ") + t + (" WHERE " + (x + " = " + y))
  {
    hide TextOf, SetPieces, WherePieces, SetValues, Render, Printed, Values;
    var st := Statement(Update([(a, v), (b, Now)], sub), t, Compares(x, y));
    SetPairText(a, b, v);
    ComparesText(x, y, 0);
    ComparesText(x, y, |SetValues(st.parts.assignments)|);
    TextOfWhere(st.where, |SetValues(st.parts.assignments)|);
    TextOfWhere(st.where, 0);
    TextOfUpdate(st, 0, "UPDATE " + (if sub then "" else "ONLY ") + t + " SET ");
    TextOfDelete(Statement(Delete(sub), t, Compares(x, y)), 0, "DELETE FROM " + (if sub then "" else "ONLY ") + t);
  }

  lemma SetPairText(a: string, b: string, v: Variant)
    requires v != Now
    ensures TextOf(SetPieces([(a, v), (b, Now)], 0)) == a + " = " + ":0" + ", " + (b + " = " + "now()")
  {
    hide TextOf, SetPieces;
    var sets := [(a, v), (b, Now)];
    assert sets[1..] == [(b, Now)] && sets[1..][1..] == [];
    OneDigit(0);
    TextOfSet(sets, 0);
    TextOfSet([(b, Now)], 1);
    NothingSet(1);
    assert PieceValues(Assign(v, 0)) == [v] && PieceValues(Assign(Now, 1)) == [];
    assert SetText((b, Now), 1) + "" + "" == SetText((b, Now), 1);
  }

  /** An INSERT of two columns, one left to its default, and one without columns. */
  lemma InsertStatements(t: string, a: string, b: string, v: Variant)
    requires a != b && v != Now
    ensures InsertText(t, [a, b], [(a, v)]) == "INSERT INTO " + t + (" (" + (a + "," + b) + ") VALUES (" + (":0" + "," + "DEFAULT") + ")")
    ensures InsertText(t, [], []) == "INSERT INTO " + t + " DEFAULT VALUES"
  {
    var m := [(a, v)];
    assert m[1..] == [];
    assert Get(m, a) == Success(v) && Get(m, b) == Failure;
    OneDigit(0);
    assert Slots([a, b], m) == [Slot([a, b], m, 0), Slot([a, b], m, 1)] == [":0", "DEFAULT"];
    JoinPair(a, b, ",");
    JoinPair(":0", "DEFAULT", ",");
  }

  /** What reaches the driver, and the digits of a hash. */
  lemma SmallTables(id: string)
    ensures DriverForm(Uuid(id)) == Text(id) && DriverForm(Text(id)) == Text(id) && DriverForm(Invalid) == Invalid
    ensures Number(255, 16) == "ff" && Number(10, 10) == "10"
  {
    assert Number(15, 16) == "f";
    assert Number(1, 10) == "1";
  }
}
