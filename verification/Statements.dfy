/** SELECT, UPDATE and DELETE statements as pieces of text, search conditions and assigned values. */
module Statements {
  import opened Conditions
  import opened Digits
  import opened QtText
  import opened Tokens
  import opened Printing
  import opened Parsing
  import opened Semantics

  datatype JoinType = InnerJoin | LeftOuterJoin | RightOuterJoin | FullOuterJoin | CrossJoin

  datatype JoinInfo = JoinInfo(kind: JoinType, table: string, condition: Condition)

  datatype SortOrder = Ascending | Descending

  /** An unsigned 32-bit number; its greatest value, -1 in the source, means "not set". */
  type uint = n: nat | n < 0x1_0000_0000

  const UNSET: uint := 0xFFFF_FFFF

  /** The fields that differ between the three builders. */
  datatype Parts =
    | Select(
        columns: seq<(string, string)>,
        joins: seq<JoinInfo>,
        sortColumns: seq<(string, SortOrder)>,
        groupColumns: seq<string>,
        lockTables: seq<string>,
        distinctOn: string,
        lockNoWait: bool,
        distinct: bool,
        limitOffset: uint,
        limitLength: uint)
    | Update(assignments: seq<(string, Variant)>, updateSubTables: bool)
    | Delete(deleteSubTables: bool)

  const EMPTY_SELECT := Select([], [], [], [], [], "", false, false, UNSET, UNSET)

  datatype Statement = Statement(parts: Parts, table: string, where: Condition)

  /** A stretch of statement text: fixed, a search condition, or the right side of an assignment.
      `at` is the bind list index of the first value the piece registers. */
  datatype Piece =
    | Fixed(text: string)
    | Search(condition: Condition, at: nat)
    | Assign(value: Variant, at: nat)

  function PieceTokens(p: Piece): seq<Token> {
    match p
    case Fixed(s) => [Raw(s)]
    case Search(c, at) => Printed(c, at)
    case Assign(v, at) => [if v == Now then NowCall else Param(Placeholder(at))]
  }

  function PieceValues(p: Piece): seq<Variant> {
    match p
    case Fixed(_) => []
    case Search(c, _) => Values(c)
    case Assign(v, _) => if v == Now then [] else [v]
  }

  function Flatten(ps: seq<Piece>): seq<Token> {
    if ps == [] then [] else PieceTokens(ps[0]) + Flatten(ps[1..])
  }

  function AllValues(ps: seq<Piece>): seq<Variant> {
    if ps == [] then [] else PieceValues(ps[0]) + AllValues(ps[1..])
  }

  function TextOf(ps: seq<Piece>): string {
    if ps == [] then "" else Render(PieceTokens(ps[0])) + TextOf(ps[1..])
  }

  // ----- the fixed text -----

  function EscapeQuotes(s: string): string {
    if s == "" then "" else (if s[0] == '"' then "\\\"" else [s[0]]) + EscapeQuotes(s[1..])
  }

  function ColumnText(column: (string, string)): string {
    if column.1 == "" then column.0 else column.0 + " AS \"" + EscapeQuotes(column.1) + "\""
  }

  function ColumnTexts(columns: seq<(string, string)>): seq<string> {
    if columns == [] then [] else [ColumnText(columns[0])] + ColumnTexts(columns[1..])
  }

  function SortText(column: (string, SortOrder)): string {
    column.0 + (if column.1 == Ascending then " ASC" else " DESC")
  }

  function SortTexts(columns: seq<(string, SortOrder)>): seq<string> {
    if columns == [] then [] else [SortText(columns[0])] + SortTexts(columns[1..])
  }

  function JoinWord(kind: JoinType): string {
    match kind
    case InnerJoin => " INNER JOIN "
    case LeftOuterJoin => " LEFT OUTER JOIN "
    case RightOuterJoin => " RIGHT OUTER JOIN "
    case FullOuterJoin => " FULL OUTER JOIN "
    case CrossJoin => " CROSS JOIN "
  }

  function SelectHead(parts: Parts, table: string): string
    requires parts.Select?
  {
    var s := "SELECT ";
    var s := if parts.distinct then s + "DISTINCT " else s;
    var s := if parts.distinctOn != "" then s + "DISTINCT ON(" + parts.distinctOn + ") " else s;
    var s := s + Join(ColumnTexts(parts.columns), ", ");
    if table != "" then s + " FROM " + table else s
  }

  function SelectTail(parts: Parts): string
    requires parts.Select?
  {
    var s := "";
    var s := if parts.groupColumns != [] then s + " GROUP BY " + Join(parts.groupColumns, ", ") else s;
    var s := if parts.sortColumns != [] then s + " ORDER BY " + Join(SortTexts(parts.sortColumns), ", ") else s;
    var s := if parts.lockTables != [] then s + " FOR UPDATE OF " + Join(parts.lockTables, ", ") else s;
    var s := if parts.lockTables != [] && parts.lockNoWait then s + " NOWAIT" else s;
    if parts.limitOffset != UNSET
    then s + " OFFSET " + Number(parts.limitOffset, 10) + " LIMIT " + Number(parts.limitLength, 10)
    else s
  }

  // ----- the pieces of a statement whose first value gets index k -----

  function JoinHead(j: JoinInfo): string {
    JoinWord(j.kind) + j.table + " ON "
  }

  function JoinPieces(joins: seq<JoinInfo>, k: nat): seq<Piece> {
    if joins == [] then []
    else
      [Fixed(JoinHead(joins[0])), Search(joins[0].condition, k)]
      + JoinPieces(joins[1..], k + |Values(joins[0].condition)|)
  }

  function JoinValues(joins: seq<JoinInfo>): seq<Variant> {
    if joins == [] then [] else Values(joins[0].condition) + JoinValues(joins[1..])
  }

  function WherePieces(where: Condition, k: nat): seq<Piece> {
    if where.subs == [] then [] else [Fixed(" WHERE "), Search(where, k)]
  }

  function WhereValues(where: Condition): seq<Variant> {
    if where.subs == [] then [] else Values(where)
  }

  function SetHead(column: string): string {
    column + " = "
  }

  function SetPieces(assignments: seq<(string, Variant)>, k: nat): seq<Piece> {
    if assignments == [] then []
    else
      var (column, value) := assignments[0];
      [Fixed(SetHead(column)), Assign(value, k)]
      + (if |assignments| == 1 then [] else [Fixed(", ")])
      + SetPieces(assignments[1..], k + |SetValues(assignments[..1])|)
  }

  function SetValues(assignments: seq<(string, Variant)>): seq<Variant> {
    if assignments == [] then []
    else (if assignments[0].1 == Now then [] else [assignments[0].1]) + SetValues(assignments[1..])
  }

  function Pieces(st: Statement, k: nat): seq<Piece> {
    match st.parts
    case Select(_, joins, _, _, _, _, _, _, _, _) =>
      [Fixed(SelectHead(st.parts, st.table))]
      + JoinPieces(joins, k)
      + WherePieces(st.where, k + |JoinValues(joins)|)
      + [Fixed(SelectTail(st.parts))]
    case Update(assignments, subTables) =>
      [Fixed("UPDATE " + (if subTables then "" else "ONLY ") + st.table + " SET ")]
      + SetPieces(assignments, k)
      + WherePieces(st.where, k + |SetValues(assignments)|)
    case Delete(subTables) =>
      [Fixed("DELETE FROM " + (if subTables then "" else "ONLY ") + st.table)]
      + WherePieces(st.where, k)
  }

  function UnionWord(all: bool): string {
    if all then " UNION ALL " else " UNION "
  }

  function UnionPieces(st1: Statement, k1: nat, all: bool, st2: Statement, k2: nat): seq<Piece> {
    Pieces(st1, k1) + [Fixed(UnionWord(all))] + Pieces(st2, k2)
  }

  /** The values a statement registers: joins (or assignments) in order, then WHERE. */
  function Registered(st: Statement): seq<Variant> {
    match st.parts
    case Select(_, joins, _, _, _, _, _, _, _, _) => JoinValues(joins) + WhereValues(st.where)
    case Update(assignments, _) => SetValues(assignments) + WhereValues(st.where)
    case Delete(_) => WhereValues(st.where)
  }

  predicate WellFormedStatement(st: Statement) {
    && (st.where.subs != [] ==> WellFormed(st.where))
    && (st.parts.Select? ==> forall j <- st.parts.joins :: WellFormed(j.condition))
  }

  // ----- lists of pieces -----

  lemma {:induction false} FlattenConcat(a: seq<Piece>, b: seq<Piece>)
    ensures Flatten(a + b) == Flatten(a) + Flatten(b)
  {
    hide PieceTokens;
    if a == [] {
      assert a + b == b;
    } else {
      assert (a + b)[1..] == a[1..] + b;
      FlattenConcat(a[1..], b);
    }
  }

  lemma {:induction false} ValuesConcat(a: seq<Piece>, b: seq<Piece>)
    ensures AllValues(a + b) == AllValues(a) + AllValues(b)
  {
    hide PieceValues;
    if a == [] {
      assert a + b == b;
    } else {
      assert (a + b)[1..] == a[1..] + b;
      ValuesConcat(a[1..], b);
    }
  }

  lemma {:induction false} TextConcat(a: seq<Piece>, b: seq<Piece>)
    ensures TextOf(a + b) == TextOf(a) + TextOf(b)
  {
    hide PieceTokens, Render;
    if a == [] {
      assert a + b == b;
    } else {
      assert (a + b)[1..] == a[1..] + b;
      TextConcat(a[1..], b);
    }
  }

  /** Every piece sits at the index its values get when the list starts at `k`. */
  predicate Numbered(ps: seq<Piece>, k: nat) {
    ps != [] ==>
      && (!ps[0].Fixed? ==> ps[0].at == k)
      && (ps[0].Search? ==> WellFormed(ps[0].condition))
      && Numbered(ps[1..], k + |PieceValues(ps[0])|)
  }

  lemma {:induction false} NumberedConcat(a: seq<Piece>, b: seq<Piece>, k: nat)
    requires Numbered(a, k) && Numbered(b, k + |AllValues(a)|)
    ensures Numbered(a + b, k)
  {
    if a == [] {
      assert a + b == b;
    } else {
      assert (a + b)[1..] == a[1..] + b;
      NumberedConcat(a[1..], b, k + |PieceValues(a[0])|);
    }
  }

  lemma NothingNumbered(k: nat)
    ensures Numbered([], k) && AllValues([]) == []
  {
  }

  lemma {:induction false} JoinPiecesNumbered(joins: seq<JoinInfo>, k: nat)
    requires forall j <- joins :: WellFormed(j.condition)
    ensures Numbered(JoinPieces(joins, k), k) && AllValues(JoinPieces(joins, k)) == JoinValues(joins)
  {
    hide Numbered, AllValues, WellFormed, JoinHead, Values;
    NothingNumbered(k);
    if joins != [] {
      var j := joins[0];
      var two := [Fixed(JoinHead(j)), Search(j.condition, k)];
      JoinPiecesNumbered(joins[1..], k + |Values(j.condition)|);
      PairNumbered(two[0], two[1], k);
      NumberedConcat(two, JoinPieces(joins[1..], k + |Values(j.condition)|), k);
      ValuesConcat(two, JoinPieces(joins[1..], k + |Values(j.condition)|));
    }
  }

  lemma PairNumbered(a: Piece, b: Piece, k: nat)
    requires a.Fixed? && !b.Fixed? && b.at == k && (b.Search? ==> WellFormed(b.condition))
    ensures Numbered([a, b], k) && AllValues([a, b]) == PieceValues(b)
  {
    assert [a, b][1..] == [b] && [b][1..] == [];
    assert AllValues([b]) == PieceValues(b);
    assert Numbered([b], k);
  }

  lemma WherePiecesNumbered(where: Condition, k: nat)
    requires where.subs != [] ==> WellFormed(where)
    ensures Numbered(WherePieces(where, k), k) && AllValues(WherePieces(where, k)) == WhereValues(where)
  {
    if where.subs != [] {
      PairNumbered(Fixed(" WHERE "), Search(where, k), k);
    }
  }

  lemma SetValuesFirst(assignments: seq<(string, Variant)>)
    requires assignments != []
    ensures SetValues(assignments) == SetValues(assignments[..1]) + SetValues(assignments[1..])
    ensures SetValues(assignments[..1]) == PieceValues(Assign(assignments[0].1, 0))
  {
    assert assignments[..1][1..] == [];
  }

  lemma {:induction false} SetPiecesNumbered(assignments: seq<(string, Variant)>, k: nat)
    ensures Numbered(SetPieces(assignments, k), k) && AllValues(SetPieces(assignments, k)) == SetValues(assignments)
  {
    if assignments != [] {
      var (column, value) := assignments[0];
      var two := [Fixed(SetHead(column)), Assign(value, k)];
      var comma := if |assignments| == 1 then [] else [Fixed(", ")];
      var k' := k + |SetValues(assignments[..1])|;
      var rest := SetPieces(assignments[1..], k');
      SetValuesFirst(assignments);
      SetPiecesNumbered(assignments[1..], k');
      PairNumbered(two[0], two[1], k);
      FixedNumbered(", ", k');
      NumberedConcat(two, comma, k);
      ValuesConcat(two, comma);
      NumberedConcat(two + comma, rest, k);
      ValuesConcat(two + comma, rest);
    }
  }

  lemma FixedNumbered(s: string, k: nat)
    ensures Numbered([Fixed(s)], k) && AllValues([Fixed(s)]) == []
  {
    assert [Fixed(s)][1..] == [];
  }

  lemma NumberedAppend(a: seq<Piece>, b: seq<Piece>, k: nat, vals: seq<Variant>)
    requires Numbered(a, k) && AllValues(a) == vals && Numbered(b, k + |vals|)
    ensures Numbered(a + b, k) && AllValues(a + b) == vals + AllValues(b)
  {
    NumberedConcat(a, b, k);
    ValuesConcat(a, b);
  }

  lemma HeadBodyWhere(head: string, body: seq<Piece>, vals: seq<Variant>, where: Condition, k: nat)
    requires where.subs != [] ==> WellFormed(where)
    requires Numbered(body, k) && AllValues(body) == vals
    ensures
      var ps := [Fixed(head)] + body + WherePieces(where, k + |vals|);
      Numbered(ps, k) && AllValues(ps) == vals + WhereValues(where)
  {
    FixedNumbered(head, k);
    NumberedAppend([Fixed(head)], body, k, []);
    WherePiecesNumbered(where, k + |vals|);
    NumberedAppend([Fixed(head)] + body, WherePieces(where, k + |vals|), k, vals);
  }

  lemma SelectNumbered(st: Statement, k: nat)
    requires WellFormedStatement(st) && st.parts.Select?
    ensures Numbered(Pieces(st, k), k) && AllValues(Pieces(st, k)) == Registered(st)
  {
    hide Numbered, AllValues, JoinPieces, WherePieces, JoinValues, WhereValues, SelectHead, SelectTail, WellFormed;
    var joins, head, tail := st.parts.joins, SelectHead(st.parts, st.table), SelectTail(st.parts);
    var vals := JoinValues(joins);
    JoinPiecesNumbered(joins, k);
    HeadBodyWhere(head, JoinPieces(joins, k), vals, st.where, k);
    FixedNumbered(tail, k + |Registered(st)|);
    NumberedAppend([Fixed(head)] + JoinPieces(joins, k) + WherePieces(st.where, k + |vals|), [Fixed(tail)], k, Registered(st));
  }

  lemma PiecesNumbered(st: Statement, k: nat)
    requires WellFormedStatement(st)
    ensures Numbered(Pieces(st, k), k) && AllValues(Pieces(st, k)) == Registered(st)
  {
    match st.parts
    case Select(_, _, _, _, _, _, _, _, _, _) => SelectNumbered(st, k);
    case Update(assignments, sub) =>
      SetPiecesNumbered(assignments, k);
      HeadBodyWhere("UPDATE " + (if sub then "" else "ONLY ") + st.table + " SET ",
                    SetPieces(assignments, k), SetValues(assignments), st.where, k);
    case Delete(sub) =>
      var head := "DELETE FROM " + (if sub then "" else "ONLY ") + st.table;
      HeadBodyWhere(head, [], [], st.where, k);
      assert [Fixed(head)] + [] == [Fixed(head)];
  }

  // ----- bind list discipline -----

  lemma OnePieceNumerals(p: Piece)
    requires p.Search? ==> WellFormed(p.condition)
    ensures Numerals(PieceTokens(p)) == Run(if p.Fixed? then 0 else p.at, |PieceValues(p)|)
  {
    match p
    case Fixed(s) => assert [Raw(s)][1..] == [];
    case Search(c, at) => PrintedNumerals(c, at);
    case Assign(v, at) =>
      PlaceholderShape(at);
      assert PieceTokens(p)[1..] == [];
  }

  lemma FixedRegistersNothing(p: Piece, k: nat)
    ensures p.Fixed? ==> Run(0, |PieceValues(p)|) == Run(k, |PieceValues(p)|)
  {
  }

  lemma {:induction false} PieceNumerals(ps: seq<Piece>, k: nat)
    requires Numbered(ps, k)
    ensures Numerals(Flatten(ps)) == Run(k, |AllValues(ps)|)
  {
    hide PieceTokens, PieceValues, NumericPlaceholder, WellFormed;
    if ps != [] {
      var p := ps[0];
      OnePieceNumerals(p);
      FixedRegistersNothing(p, k);
      PieceNumerals(ps[1..], k + |PieceValues(p)|);
      NumeralsConcat(PieceTokens(p), Flatten(ps[1..]));
      RunConcat(k, |PieceValues(p)|, |AllValues(ps[1..])|);
    }
  }

  /** The numeric placeholders of a statement are, in text order, those of the values it registers, starting at `k`. */
  lemma StatementNumerals(st: Statement, k: nat)
    requires WellFormedStatement(st)
    ensures Numerals(Flatten(Pieces(st, k))) == Run(k, |Registered(st)|)
  {
    PiecesNumbered(st, k);
    PieceNumerals(Pieces(st, k), k);
  }

  // ----- meaning -----

  lemma {:induction false} NoNowValues(c: Condition)
    ensures Now !in Values(c) && Invalid !in Values(c)
    decreases c, 1
  {
    if c.subs != [] {
      NoNowValuesOf(c.subs);
    }
  }

  lemma {:induction false} NoNowValuesOf(cs: seq<Condition>)
    ensures Now !in ValuesOf(cs) && Invalid !in ValuesOf(cs)
    decreases cs, 0
  {
    if cs != [] {
      NoNowValues(cs[0]);
      NoNowValuesOf(cs[1..]);
    }
  }

  /** A piece means under the bindings what it was built to mean. */
  ghost predicate Faithful(p: Piece, env: Env, b: Bindings, user: Bindings) {
    match p
    case Fixed(_) => true
    case Search(c, at) =>
      && Parse(PieceTokens(p)) == Success(Collapsed(c, at))
      && Eval(Collapsed(c, at), env, b) == Meaning(c, env, user)
    case Assign(v, at) =>
      OperandValue(PieceTokens(p)[0], env, b) == if v == Now then env.now else DriverForm(v)
  }

  lemma PieceFaithful(p: Piece, k: nat, env: Env, b: Bindings, user: Bindings)
    requires !p.Fixed? ==> p.at == k
    requires p.Search? ==> WellFormed(p.condition)
    requires Resolves(PieceValues(p), k, b) && SameForUser(b, user)
    ensures Faithful(p, env, b, user)
  {
    hide Eval, Meaning, Printed, Collapsed, Parse;
    match p
    case Fixed(_) =>
    case Search(c, at) =>
      PrintParse(c, at);
      MeaningPreserved(c, at, env, b, user);
    case Assign(v, at) =>
      if v != Now {
        assert BoundTo(b, k + 0, PieceValues(p)[0]);
      }
  }

  /** If the placeholders of every piece resolve to its values, every piece is faithful. */
  lemma {:induction false} PiecesFaithful(ps: seq<Piece>, k: nat, env: Env, b: Bindings, user: Bindings)
    requires Numbered(ps, k) && Resolves(AllValues(ps), k, b) && SameForUser(b, user)
    ensures forall p <- ps :: Faithful(p, env, b, user)
  {
    hide Faithful, PieceValues, Resolves, SameForUser;
    if ps != [] {
      ResolvesSplit(PieceValues(ps[0]), AllValues(ps[1..]), k, b);
      PieceFaithful(ps[0], k, env, b, user);
      PiecesFaithful(ps[1..], k + |PieceValues(ps[0])|, env, b, user);
      forall p <- ps
        ensures Faithful(p, env, b, user)
      {
        assert p == ps[0] || p in ps[1..];
      }
    }
  }

  /** A statement printed from index `k` means what it was built to mean under bindings that give its placeholders
      the values it registers. */
  lemma StatementMeans(st: Statement, k: nat, env: Env, b: Bindings, user: Bindings)
    requires WellFormedStatement(st) && Resolves(Registered(st), k, b) && SameForUser(b, user)
    ensures forall p <- Pieces(st, k) :: Faithful(p, env, b, user)
  {
    hide Pieces, Registered, Faithful, Resolves, SameForUser, Numbered, AllValues, WellFormedStatement;
    PiecesNumbered(st, k);
    PiecesFaithful(Pieces(st, k), k, env, b, user);
  }

  /** The server-side time is never registered. */
  lemma NowNotRegistered(st: Statement)
    ensures Now !in Registered(st)
  {
    NoNowValues(st.where);
    match st.parts
    case Select(_, joins, _, _, _, _, _, _, _, _) => NoNowInJoins(joins);
    case Update(assignments, _) => NoNowInSets(assignments);
    case Delete(_) =>
  }

  lemma {:induction false} NoNowInJoins(joins: seq<JoinInfo>)
    ensures Now !in JoinValues(joins)
  {
    if joins != [] {
      NoNowValues(joins[0].condition);
      NoNowInJoins(joins[1..]);
    }
  }

  lemma {:induction false} NoNowInSets(assignments: seq<(string, Variant)>)
    ensures Now !in SetValues(assignments)
  {
    if assignments != [] {
      NoNowInSets(assignments[1..]);
    }
  }
}
