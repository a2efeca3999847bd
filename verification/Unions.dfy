/** Unions of two SELECTs: whose placeholders reach whose values. */
module Unions {
  import opened Conditions
  import opened Tokens
  import opened Printing
  import opened Semantics
  import opened Statements
  import opened Builders
  import opened BuilderLaws
  import opened Segments
  import opened TextLaws

  // ----- faithful unions -----

  lemma HalvesFaithful(st1: Statement, k1: nat, all: bool, st2: Statement, k2: nat, env: Env, b: Bindings, user: Bindings)
    requires forall p <- Pieces(st1, k1) :: Faithful(p, env, b, user)
    requires forall p <- Pieces(st2, k2) :: Faithful(p, env, b, user)
    ensures forall p <- UnionPieces(st1, k1, all, st2, k2) :: Faithful(p, env, b, user)
  {
    hide Pieces;
    forall p <- UnionPieces(st1, k1, all, st2, k2)
      ensures Faithful(p, env, b, user)
    {
      assert p in Pieces(st1, k1) || p == Fixed(UnionWord(all)) || p in Pieces(st2, k2);
    }
  }

  /** The second half of a union always finds its values: it is printed from the index they get. */
  lemma SecondHalfResolves(first: seq<Variant>, list2: seq<Variant>, st2: Statement, before: Bindings)
    ensures var b := Bound(before, first + (list2 + Registered(st2)));
      Resolves(Registered(st2), |first| + |list2|, b) && SameForUser(b, before)
  {
    hide Registered, Resolves, SameForUser, Bound;
    NowNotRegistered(st2);
    SliceResolves(before, first + list2, Registered(st2), []);
    assert first + (list2 + Registered(st2)) == first + list2 + Registered(st2) + [];
  }

  lemma FirstHalfResolves(list1: seq<Variant>, st1: Statement, second: seq<Variant>, before: Bindings)
    ensures var b := Bound(before, list1 + Registered(st1) + second);
      Resolves(Registered(st1), |list1|, b) && SameForUser(b, before)
  {
    hide Registered, Resolves, SameForUser, Bound;
    NowNotRegistered(st1);
    SliceResolves(before, list1, Registered(st1), second);
  }

  /** The union of two distinct builders, the first with offset 0: whatever the two lists already hold, every piece
      of the combined text is faithful under the combined list. */
  lemma UnionFaithful(st1: Statement, list1: seq<Variant>, all: bool, st2: Statement, list2: seq<Variant>,
                      before: Bindings, env: Env)
    requires WellFormedStatement(st1) && WellFormedStatement(st2)
    ensures
      var first := list1 + Registered(st1);
      var combined := first + (list2 + Registered(st2));
      forall p <- UnionPieces(st1, |list1|, all, st2, |first| + |list2|) :: Faithful(p, env, Bound(before, combined), before)
  {
    hide Pieces, UnionPieces, Registered, Faithful, Bound, WellFormedStatement, Resolves, SameForUser;
    var first := list1 + Registered(st1);
    var b := Bound(before, first + (list2 + Registered(st2)));
    FirstHalfResolves(list1, st1, list2 + Registered(st2), before);
    SecondHalfResolves(first, list2, st2, before);
    StatementMeans(st1, |list1|, env, b, before);
    StatementMeans(st2, |first| + |list2|, env, b, before);
    HalvesFaithful(st1, |list1|, all, st2, |first| + |list2|, env, b, before);
  }

  /** The numeric placeholders of a union text: those of the first statement, then those of the second. */
  lemma UnionNumerals(st1: Statement, k1: nat, all: bool, st2: Statement, k2: nat)
    requires WellFormedStatement(st1) && WellFormedStatement(st2)
    ensures Numerals(Flatten(UnionPieces(st1, k1, all, st2, k2))) == Run(k1, |Registered(st1)|) + Run(k2, |Registered(st2)|)
  {
    StatementNumerals(st1, k1);
    StatementNumerals(st2, k2);
    NumeralsAround(Pieces(st1, k1), UnionWord(all), Pieces(st2, k2));
  }

  lemma NumeralsAround(a: seq<Piece>, text: string, b: seq<Piece>)
    ensures Numerals(Flatten(a + [Fixed(text)] + b)) == Numerals(Flatten(a)) + Numerals(Flatten(b))
  {
    FlattenConcat(a + [Fixed(text)], b);
    NumeralsConcat(Flatten(a + [Fixed(text)]), Flatten(b));
    FixedNumerals(a, text);
  }

  lemma FixedNumerals(a: seq<Piece>, text: string)
    ensures Numerals(Flatten(a + [Fixed(text)])) == Numerals(Flatten(a))
  {
    FlattenConcat(a, [Fixed(text)]);
    assert [Fixed(text)][1..] == [] && Flatten([Fixed(text)]) == [Raw(text)];
    assert [Raw(text)][1..] == [] && Numerals([Raw(text)]) == [];
    NumeralsConcat(Flatten(a), [Raw(text)]);
  }

  // ----- a builder combined with itself -----

  /** The combined list of a builder combined with itself: both halves are its list after both printings. */
  function SelfList(st: Statement, list: seq<Variant>): seq<Variant> {
    var second := list + Registered(st) + Registered(st);
    second + second
  }

  /** The second text is printed from twice the list after the first printing, and finds the values one list into the
      second half, whatever the offset was. */
  lemma SelfSecondResolves(st: Statement, list: seq<Variant>, before: Bindings)
    ensures var k2 := 2 * |list + Registered(st)|;
      var b := Bound(before, SelfList(st, list));
      Resolves(Registered(st), k2, b) && SameForUser(b, before)
  {
    hide Registered, Resolves, SameForUser, Bound;
    var vals := Registered(st);
    var second := list + vals + vals;
    NowNotRegistered(st);
    SliceResolves(before, second + list, vals, vals);
    assert second + list + vals + vals == SelfList(st, list);
  }

  /** A builder with offset 0 combined with itself: every piece of both copies is faithful. */
  lemma SelfUnionFaithful(st: Statement, list: seq<Variant>, all: bool, before: Bindings, env: Env)
    requires WellFormedStatement(st)
    ensures
      forall p <- UnionPieces(st, |list|, all, st, 2 * |list + Registered(st)|) ::
        Faithful(p, env, Bound(before, SelfList(st, list)), before)
  {
    hide Pieces, UnionPieces, Registered, Faithful, Bound, WellFormedStatement, Resolves, SameForUser, SelfList;
    var k2, b := 2 * |list + Registered(st)|, Bound(before, SelfList(st, list));
    SelfSecondResolves(st, list, before);
    SelfFirstResolves(st, list, before);
    StatementMeans(st, |list|, env, b, before);
    StatementMeans(st, k2, env, b, before);
    HalvesFaithful(st, |list|, all, st, k2, env, b, before);
  }

  lemma SelfFirstResolves(st: Statement, list: seq<Variant>, before: Bindings)
    ensures Resolves(Registered(st), |list|, Bound(before, SelfList(st, list)))
  {
    hide Registered, Resolves, SameForUser, Bound;
    var vals := Registered(st);
    var second := list + vals + vals;
    FirstHalfResolves(list, st, vals + second, before);
    assert list + vals + (vals + second) == SelfList(st, list);
  }

  // ----- the same statement with other values -----

  /** Proper values: neither NULL nor the server-side time, which are printed as words. */
  ghost predicate Plain(f: nat -> Variant) {
    forall i :: f(i) != Now && f(i) != Invalid
  }

  function FirstOf(f: nat -> Variant, k: nat, n: nat): seq<Variant> {
    seq(n, i requires 0 <= i < n => f(k + i))
  }

  function RevaluedCondition(c: Condition, k: nat, f: nat -> Variant): Condition
    decreases c, 1
  {
    if c.subs != [] then c.(subs := RevaluedConditions(c.subs, k, f))
    else if Binds(c) then c.(value := f(k)) else c
  }

  function RevaluedConditions(cs: seq<Condition>, k: nat, f: nat -> Variant): (r: seq<Condition>)
    ensures |r| == |cs|
    decreases cs, 0
  {
    if cs == [] then []
    else [RevaluedCondition(cs[0], k, f)] + RevaluedConditions(cs[1..], k + |Values(cs[0])|, f)
  }

  function RevaluedJoins(joins: seq<JoinInfo>, k: nat, f: nat -> Variant): (r: seq<JoinInfo>)
    ensures |r| == |joins|
  {
    if joins == [] then []
    else
      var j := joins[0];
      [j.(condition := RevaluedCondition(j.condition, k, f))] + RevaluedJoins(joins[1..], k + |Values(j.condition)|, f)
  }

  /** A SELECT with the i-th value it registers replaced by f(i). */
  function Revalued(st: Statement, f: nat -> Variant): Statement
    requires st.parts.Select?
  {
    Statement(st.parts.(joins := RevaluedJoins(st.parts.joins, 0, f)), st.table,
              RevaluedCondition(st.where, |JoinValues(st.parts.joins)|, f))
  }

  lemma FirstOfSplit(f: nat -> Variant, k: nat, m: nat, n: nat)
    ensures FirstOf(f, k, m) + FirstOf(f, k + m, n) == FirstOf(f, k, m + n)
  {
  }

  lemma {:induction false} ConditionRevalued(c: Condition, k: nat, at: nat, f: nat -> Variant)
    requires Plain(f)
    ensures Values(RevaluedCondition(c, k, f)) == FirstOf(f, k, |Values(c)|)
    ensures Printed(RevaluedCondition(c, k, f), at) == Printed(c, at)
    decreases c, 1
  {
    if c.subs != [] {
      ConditionsRevalued(c.subs, k, c.logicOp, at, f);
      var cs := RevaluedConditions(c.subs, k, f);
      if |c.subs| == 1 {
        ConditionRevalued(c.subs[0], k, at, f);
        assert cs[0] == RevaluedCondition(c.subs[0], k, f);
      }
    } else if Binds(c) {
      assert FirstOf(f, k, 1) == [f(k)];
    } else {
      assert FirstOf(f, k, 0) == [];
    }
  }

  lemma {:induction false} ConditionsRevalued(cs: seq<Condition>, k: nat, op: LogicOperator, at: nat, f: nat -> Variant)
    requires Plain(f)
    ensures cs != [] ==> PrintedList(RevaluedConditions(cs, k, f), op, at) == PrintedList(cs, op, at)
    ensures ValuesOf(RevaluedConditions(cs, k, f)) == FirstOf(f, k, |ValuesOf(cs)|)
    decreases cs, 0
  {
    if cs == [] {
      assert FirstOf(f, k, 0) == [];
    } else {
      var n := |Values(cs[0])|;
      var r := RevaluedConditions(cs, k, f);
      ConditionRevalued(cs[0], k, at, f);
      ConditionsRevalued(cs[1..], k + n, op, at + n, f);
      FirstOfSplit(f, k, n, |ValuesOf(cs[1..])|);
      assert r[0] == RevaluedCondition(cs[0], k, f) && r[1..] == RevaluedConditions(cs[1..], k + n, f);
    }
  }

  lemma {:induction false} JoinsRevalued(joins: seq<JoinInfo>, k: nat, at: nat, f: nat -> Variant)
    requires Plain(f)
    ensures JoinValues(RevaluedJoins(joins, k, f)) == FirstOf(f, k, |JoinValues(joins)|)
    ensures Flatten(JoinPieces(RevaluedJoins(joins, k, f), at)) == Flatten(JoinPieces(joins, at))
  {
    hide Values, Printed, RevaluedCondition, JoinHead;
    if joins == [] {
      assert FirstOf(f, k, 0) == [];
    } else {
      var j, n := joins[0], |Values(joins[0].condition)|;
      var r := j.(condition := RevaluedCondition(j.condition, k, f));
      var rest := RevaluedJoins(joins[1..], k + n, f);
      ConditionRevalued(j.condition, k, at, f);
      JoinsRevalued(joins[1..], k + n, at + n, f);
      FirstOfSplit(f, k, n, |JoinValues(joins[1..])|);
      SameHead(j, r.condition);
      assert [r] + rest == RevaluedJoins(joins, k, f) && ([r] + rest)[1..] == rest;
      FlattenPair(JoinHead(r), Search(r.condition, at), JoinPieces(rest, at + n));
      FlattenPair(JoinHead(j), Search(j.condition, at), JoinPieces(joins[1..], at + n));
    }
  }

  lemma SameHead(j: JoinInfo, c: Condition)
    ensures JoinHead(j.(condition := c)) == JoinHead(j)
  {
  }

  lemma FlattenPair(head: string, p: Piece, rest: seq<Piece>)
    ensures Flatten([Fixed(head), p] + rest) == [Raw(head)] + PieceTokens(p) + Flatten(rest)
  {
    var all := [Fixed(head), p] + rest;
    assert all[1..] == [p] + rest && all[1..][1..] == rest;
    assert Flatten(all[1..]) == PieceTokens(p) + Flatten(rest);
  }

  lemma WhereRevalued(where: Condition, k: nat, at: nat, f: nat -> Variant)
    requires Plain(f)
    ensures WhereValues(RevaluedCondition(where, k, f)) == FirstOf(f, k, |WhereValues(where)|)
    ensures Flatten(WherePieces(RevaluedCondition(where, k, f), at)) == Flatten(WherePieces(where, at))
  {
    hide Values, Printed;
    ConditionRevalued(where, k, at, f);
    if where.subs == [] {
      assert FirstOf(f, k, 0) == [];
    } else {
      FlattenPair(" WHERE ", Search(where, at), []);
      FlattenPair(" WHERE ", Search(RevaluedCondition(where, k, f), at), []);
      assert [Fixed(" WHERE "), Search(where, at)] + [] == WherePieces(where, at);
      assert [Fixed(" WHERE "), Search(RevaluedCondition(where, k, f), at)] + []
          == WherePieces(RevaluedCondition(where, k, f), at);
    }
  }

  /** It registers the new values, and its text is the same. */
  lemma StatementRevalued(st: Statement, at: nat, f: nat -> Variant)
    requires st.parts.Select? && Plain(f)
    ensures Registered(Revalued(st, f)) == FirstOf(f, 0, |Registered(st)|)
    ensures Flatten(Pieces(Revalued(st, f), at)) == Flatten(Pieces(st, at))
  {
    hide JoinPieces, WherePieces, JoinValues, WhereValues, RevaluedCondition, RevaluedJoins, SelectHead, SelectTail;
    hide Flatten, FirstOf, Pieces, Registered, Revalued;
    var n := |JoinValues(st.parts.joins)|;
    var r := Revalued(st, f);
    JoinsRevalued(st.parts.joins, 0, at, f);
    WhereRevalued(st.where, n, at + n, f);
    FirstOfSplit(f, 0, n, |WhereValues(st.where)|);
    RevaluedParts(st, f);
    assert |FirstOf(f, 0, n)| == n by { FirstOfLength(f, n); }
    SelectFlattened(st, at);
    SelectFlattened(r, at);
  }

  lemma FirstOfLength(f: nat -> Variant, n: nat)
    ensures |FirstOf(f, 0, n)| == n
  {
  }

  lemma RevaluedParts(st: Statement, f: nat -> Variant)
    requires st.parts.Select?
    ensures var r := Revalued(st, f);
      && r.parts.Select? && r.parts.joins == RevaluedJoins(st.parts.joins, 0, f)
      && r.where == RevaluedCondition(st.where, |JoinValues(st.parts.joins)|, f)
      && SelectHead(r.parts, r.table) == SelectHead(st.parts, st.table) && SelectTail(r.parts) == SelectTail(st.parts)
      && Registered(r) == JoinValues(r.parts.joins) + WhereValues(r.where)
    ensures Registered(st) == JoinValues(st.parts.joins) + WhereValues(st.where)
  {
    hide RevaluedCondition, RevaluedJoins, JoinValues, WhereValues, ColumnTexts, SortTexts;
  }

  lemma SelectFlattened(st: Statement, at: nat)
    requires st.parts.Select?
    ensures Flatten(Pieces(st, at))
      == Flatten([Fixed(SelectHead(st.parts, st.table))]) + Flatten(JoinPieces(st.parts.joins, at))
       + Flatten(WherePieces(st.where, at + |JoinValues(st.parts.joins)|)) + Flatten([Fixed(SelectTail(st.parts))])
  {
    hide JoinPieces, WherePieces, SelectHead, SelectTail, Flatten;
    var a, b := [Fixed(SelectHead(st.parts, st.table))], JoinPieces(st.parts.joins, at);
    var c, d := WherePieces(st.where, at + |JoinValues(st.parts.joins)|), [Fixed(SelectTail(st.parts))];
    FlattenConcat(a, b);
    FlattenConcat(a + b, c);
    FlattenConcat(a + b + c, d);
  }

  // ----- a first half with an offset -----

  /** A first builder that still carries an offset: the second half is right all the same, and the first is right for
      the values at hand exactly if the combined list happens to hold them where its placeholders point. */
  lemma UnionOffsetResolves(st1: Statement, offset: nat, list1: seq<Variant>, st2: Statement, list2: seq<Variant>,
                            before: Bindings)
    requires CallersOnly(before)
    ensures
      var first := list1 + Registered(st1);
      var combined := first + (list2 + Registered(st2));
      && Resolves(Registered(st2), |first| + |list2|, Bound(before, combined))
      && (Resolves(Registered(st1), offset + |list1|, Bound(before, combined))
          <==> HoldsAll(combined, offset + |list1|, Registered(st1)))
  {
    hide Registered, Resolves, SameForUser, Bound, HoldsAll;
    var first := list1 + Registered(st1);
    SecondHalfResolves(first, list2, st2, before);
    ResolvesExact(before, first + (list2 + Registered(st2)), offset + |list1|, Registered(st1));
  }

  /** The first half's placeholders reach its values when the two statements carry the values f1 and f2. */
  ghost predicate FirstHalfRight(st1: Statement, offset: nat, list1: seq<Variant>, st2: Statement, list2: seq<Variant>,
                                 before: Bindings, f1: nat -> Variant, f2: nat -> Variant)
    requires st1.parts.Select? && st2.parts.Select?
  {
    var vals1, vals2 := Registered(Revalued(st1, f1)), Registered(Revalued(st2, f2));
    Resolves(vals1, offset + |list1|, Bound(before, list1 + vals1 + (list2 + vals2)))
  }

  /** A list with one number that occurs nowhere else: the others are all 0 or from lists without it. */
  function OneOf(a: int): nat -> Variant {
    i => if i == 0 then Other(a) else Other(0)
  }

  lemma {:induction false} Unused(list: seq<Variant>) returns (a: int)
    ensures a > 0 && forall v <- list :: v.Other? ==> v.code < a
  {
    a := 1;
    if list != [] {
      a := Unused(list[1..]);
      if list[0].Other? && list[0].code >= a {
        a := list[0].code + 1;
      }
      assert list == [list[0]] + list[1..];
    }
  }

  /** Whatever values the two statements carry, the union is right exactly if the first builder's offset is 0 or it
      registers nothing. */
  lemma UnionOffsetExact(st1: Statement, offset: nat, list1: seq<Variant>, st2: Statement, list2: seq<Variant>,
                         before: Bindings)
    requires st1.parts.Select? && st2.parts.Select? && CallersOnly(before)
    ensures (forall f1, f2 :: Plain(f1) && Plain(f2) ==> FirstHalfRight(st1, offset, list1, st2, list2, before, f1, f2))
      <==> offset == 0 || Registered(st1) == []
  {
    hide Registered, Bound, Resolves, Revalued, FirstHalfRight, HoldsAll, CallersOnly;
    if offset == 0 || Registered(st1) == [] {
      forall f1, f2 | Plain(f1) && Plain(f2)
        ensures FirstHalfRight(st1, offset, list1, st2, list2, before, f1, f2)
      {
        FirstHalfHolds(st1, offset, list1, st2, list2, before, f1, f2);
        NowNotRegistered(Revalued(st1, f1));
        InFront(offset, list1, Registered(Revalued(st1, f1)), list2 + Registered(Revalued(st2, f2)));
      }
    } else {
      var a := Unused(list2);
      var f1, f2 := OneOf(a), OneOf(0);
      FirstHalfHolds(st1, offset, list1, st2, list2, before, f1, f2);
      OnlyOnce(list1, Registered(Revalued(st1, f1)), list2, Registered(Revalued(st2, f2)), offset, a);
      assert Plain(f1) && Plain(f2) && !FirstHalfRight(st1, offset, list1, st2, list2, before, f1, f2);
    }
  }

  lemma FirstHalfHolds(st1: Statement, offset: nat, list1: seq<Variant>, st2: Statement, list2: seq<Variant>,
                       before: Bindings, f1: nat -> Variant, f2: nat -> Variant)
    requires st1.parts.Select? && st2.parts.Select? && CallersOnly(before) && Plain(f1) && Plain(f2)
    ensures var vals1, vals2 := Registered(Revalued(st1, f1)), Registered(Revalued(st2, f2));
      && vals1 == FirstOf(f1, 0, |Registered(st1)|) && vals2 == FirstOf(f2, 0, |Registered(st2)|)
      && (FirstHalfRight(st1, offset, list1, st2, list2, before, f1, f2)
          <==> HoldsAll(list1 + vals1 + (list2 + vals2), offset + |list1|, vals1))
  {
    hide Registered, Bound, Resolves, Revalued, HoldsAll;
    StatementRevalued(st1, 0, f1);
    StatementRevalued(st2, 0, f2);
    var vals1, vals2 := Registered(Revalued(st1, f1)), Registered(Revalued(st2, f2));
    ResolvesExact(before, list1 + vals1 + (list2 + vals2), offset + |list1|, vals1);
  }

  lemma InFront(offset: nat, a: seq<Variant>, vals: seq<Variant>, b: seq<Variant>)
    requires Now !in vals && (offset == 0 || vals == [])
    ensures HoldsAll(a + vals + b, offset + |a|, vals)
  {
    assert forall i :: 0 <= i < |vals| ==> (a + vals + b)[|a| + i] == vals[i];
  }

  lemma OnlyOnce(list1: seq<Variant>, vals1: seq<Variant>, list2: seq<Variant>, vals2: seq<Variant>, offset: nat, a: int)
    requires a != 0 && Other(a) !in list2 && offset > 0 && vals1 != [] && vals1[0] == Other(a)
    requires forall i :: 0 < i < |vals1| ==> vals1[i] == Other(0)
    requires forall v <- vals2 :: v == Other(0)
    ensures !HoldsAll(list1 + vals1 + (list2 + vals2), offset + |list1|, vals1)
  {
    var all, p := list1 + vals1 + (list2 + vals2), offset + |list1|;
    if p < |all| {
      var q := p - |list1| - |vals1|;
      assert all[p] == if q < 0 then vals1[offset] else if q < |list2| then list2[q] else vals2[q - |list2|];
      assert 0 <= q < |list2| ==> list2[q] in list2;
      assert q >= |list2| ==> vals2[q - |list2|] in vals2;
    }
    assert !Holds(all, p + 0, vals1[0]);
  }

  // ----- a builder with an offset combined with itself -----

  ghost predicate SelfFirstRight(st: Statement, offset: nat, list: seq<Variant>, before: Bindings, f: nat -> Variant)
    requires st.parts.Select?
  {
    var st' := Revalued(st, f);
    Resolves(Registered(st'), offset + |list|, Bound(before, SelfList(st', list)))
  }

  /** A builder that carries an offset, combined with itself: whatever its values, the first copy is right exactly if
      the offset leads to one of the four copies of the values in the combined list. */
  lemma SelfUnionOffsetExact(st: Statement, offset: nat, list: seq<Variant>, before: Bindings)
    requires st.parts.Select? && CallersOnly(before)
    ensures var n := |Registered(st)|;
      (forall f :: Plain(f) ==> SelfFirstRight(st, offset, list, before, f))
      <==> n == 0 || offset == 0 || offset == n || offset == |list| + 2 * n || offset == |list| + 3 * n
  {
    hide Registered, Bound, Resolves, Revalued, SelfList, SelfFirstRight, HoldsAll, CallersOnly;
    var n := |Registered(st)|;
    if n == 0 || offset == 0 || offset == n || offset == |list| + 2 * n || offset == |list| + 3 * n {
      forall f | Plain(f)
        ensures SelfFirstRight(st, offset, list, before, f)
      {
        SelfFirstHolds(st, offset, list, before, f);
        NowNotRegistered(Revalued(st, f));
        FourCopies(Revalued(st, f), offset, list);
      }
    } else {
      var a := Unused(list);
      var f := OneOf(a);
      SelfFirstHolds(st, offset, list, before, f);
      OnlyFourTimes(Revalued(st, f), offset, list, a);
      assert Plain(f) && !SelfFirstRight(st, offset, list, before, f);
    }
  }

  lemma SelfFirstHolds(st: Statement, offset: nat, list: seq<Variant>, before: Bindings, f: nat -> Variant)
    requires st.parts.Select? && CallersOnly(before) && Plain(f)
    ensures var st' := Revalued(st, f);
      && Registered(st') == FirstOf(f, 0, |Registered(st)|)
      && (SelfFirstRight(st, offset, list, before, f) <==> HoldsAll(SelfList(st', list), offset + |list|, Registered(st')))
  {
    hide Registered, Bound, Resolves, Revalued, SelfList, HoldsAll;
    StatementRevalued(st, 0, f);
    ResolvesExact(before, SelfList(Revalued(st, f), list), offset + |list|, Registered(Revalued(st, f)));
  }

  lemma FourCopies(st: Statement, offset: nat, list: seq<Variant>)
    requires Now !in Registered(st)
    requires var n := |Registered(st)|;
      n == 0 || offset == 0 || offset == n || offset == |list| + 2 * n || offset == |list| + 3 * n
    ensures HoldsAll(SelfList(st, list), offset + |list|, Registered(st))
  {
    hide Registered, SelfList;
    var vals, all := Registered(st), SelfList(st, list);
    forall i | 0 <= i < |vals|
      ensures Holds(all, offset + |list| + i, vals[i])
    {
      CopyAt(st, offset, list, i);
      assert vals[i] in vals;
    }
  }

  lemma CopyAt(st: Statement, offset: nat, list: seq<Variant>, i: nat)
    requires i < |Registered(st)|
    requires var n := |Registered(st)|; offset == 0 || offset == n || offset == |list| + 2 * n || offset == |list| + 3 * n
    ensures var all := SelfList(st, list);
      offset + |list| + i < |all| && all[offset + |list| + i] == Registered(st)[i]
  {
    hide Registered;
  }

  lemma OnlyFourTimes(st: Statement, offset: nat, list: seq<Variant>, a: int)
    requires a != 0 && Other(a) !in list && Registered(st) != [] && Registered(st)[0] == Other(a)
    requires forall i :: 0 < i < |Registered(st)| ==> Registered(st)[i] == Other(0)
    requires var n := |Registered(st)|;
      offset != 0 && offset != n && offset != |list| + 2 * n && offset != |list| + 3 * n
    ensures !HoldsAll(SelfList(st, list), offset + |list|, Registered(st))
  {
    hide Registered;
    var vals, all, p := Registered(st), SelfList(st, list), offset + |list|;
    var n, half := |vals|, |list| + 2 * |vals|;
    if p < |all| {
      var q := if p < half then p else p - half;
      assert all[p] == if q < |list| then list[q] else if q < |list| + n then vals[q - |list|] else vals[q - |list| - n];
      assert q < |list| ==> list[q] in list;
    }
    assert !Holds(all, p + 0, vals[0]);
  }

  // ----- a combined builder rendered again -----

  lemma SelectSpelled(st: Statement, k: nat) returns (rest: string)
    requires st.parts.Select?
    ensures TextOf(Pieces(st, k)) == "SELECT " + rest
  {
    hide TextOf, JoinPieces, WherePieces, JoinValues, SelectTail;
    var joins := TextOf(JoinPieces(st.parts.joins, k));
    var where := TextOf(WherePieces(st.where, k + |JoinValues(st.parts.joins)|));
    var head := SelectHead(st.parts, st.table);
    TextOfSelect(st, k, head + joins, head + joins + where);
    rest := (head + joins + where + SelectTail(st.parts))[7..];
    assert "SELECT " <= head by { HeadSpelled(st); }
  }

  lemma HeadSpelled(st: Statement)
    requires st.parts.Select?
    ensures "SELECT " <= SelectHead(st.parts, st.table)
  {
  }

  /** A SELECT with nothing but one column of any text. */
  function OneColumn(text: string): Statement {
    Statement(EMPTY_SELECT.(columns := [(text, "")]), "", Leaf("", Equals))
  }

  lemma OneColumnText(text: string, k: nat)
    ensures TextOf(Pieces(OneColumn(text), k)) == "SELECT " + text
  {
    var st := OneColumn(text);
    assert ColumnTexts([(text, "")]) == [text];
    assert SelectHead(st.parts, "") == "SELECT " + text;
    TextOfSelect(st, k, "SELECT " + text + "", "SELECT " + text + "" + "");
    assert "SELECT " + text + "" + "" + "" == "SELECT " + text;
  }

  /** A combined builder that has a column with the right text does give the combined text back. */
  lemma OneColumnSpellsUnion(st1: Statement, k1: nat, all: bool, st2: Statement, k2: nat, k: nat) returns (text: string)
    requires st1.parts.Select? && st2.parts.Select?
    ensures TextOf(Pieces(OneColumn(text), k)) == TextOf(UnionPieces(st1, k1, all, st2, k2))
    ensures !UnionFree(text)
  {
    hide TextOf, Pieces, UnionPieces, UnionWord, UnionFree;
    var x := SelectSpelled(st1, k1);
    var y := TextOf(Pieces(st2, k2));
    text := x + UnionWord(all) + y;
    TextOfUnion(st1, k1, all, st2, k2);
    OneColumnText(text, k);
    Regroup(x, UnionWord(all), y);
    UnionShown(x, all, y);
  }

  lemma Regroup(x: string, word: string, y: string)
    ensures "SELECT " + (x + word + y) == "SELECT " + x + word + y
  {
    Assoc("SELECT ", x + word, y);
    Assoc("SELECT ", x, word);
  }
}
