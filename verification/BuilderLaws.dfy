/** What the builders' contracts add up to: every placeholder finds the value its leaf registered. */
module BuilderLaws {
  import opened Conditions
  import opened Tokens
  import opened Printing
  import opened Parsing
  import opened Semantics
  import opened Statements

  // ----- one condition, from its characters -----

  /** Lexing and parsing the text of a printed condition and evaluating it under the builder's bindings gives the
      three-valued truth of the tree, on every row. */
  lemma TextMeansTree(c: Condition, list: seq<Variant>, k: nat, before: Bindings, env: Env)
    requires WellFormed(c) && LexableCondition(c)
    requires k + |Values(c)| <= |list| && list[k..k + |Values(c)|] == Values(c)
    ensures
      var lexed := Lex(Render(Printed(c, k)));
      lexed.Success? &&
      var parsed := Parse(lexed.value);
      parsed.Success? && Eval(parsed.value, env, Bound(before, list)) == Meaning(c, env, before)
  {
    hide Bound, Eval, Meaning, Printed, Collapsed, Parse, Lex, Render, Values;
    TextRoundTrip(c, k);
    NoNowValues(c);
    BoundResolves(before, list, k, |Values(c)|);
    MeaningPreserved(c, k, env, Bound(before, list), before);
  }

  // ----- one statement -----

  lemma SliceBetween<T>(a: seq<T>, b: seq<T>, c: seq<T>)
    ensures (a + b + c)[|a|..|a| + |b|] == b
  {
  }

  /** Values inside a bound list resolve at the index they start at. */
  lemma SliceResolves(before: Bindings, a: seq<Variant>, vals: seq<Variant>, c: seq<Variant>)
    requires Now !in vals
    ensures Resolves(vals, |a|, Bound(before, a + vals + c)) && SameForUser(Bound(before, a + vals + c), before)
  {
    hide Resolves, SameForUser, Bound;
    SliceBetween(a, vals, c);
    BoundResolves(before, a + vals + c, |a|, |vals|);
  }

  /** With offset 0, whatever the list already holds, every piece of a statement means what it was built to mean.
      UPDATE and DELETE start from an empty list; SELECT may not. */
  lemma StatementFaithful(st: Statement, list: seq<Variant>, before: Bindings, env: Env)
    requires WellFormedStatement(st)
    ensures forall p <- Pieces(st, |list|) :: Faithful(p, env, Bound(before, list + Registered(st)), before)
  {
    hide Pieces, Registered, Bound, WellFormedStatement, Faithful, Resolves, SameForUser;
    NowNotRegistered(st);
    SliceResolves(before, list, Registered(st), []);
    assert list + Registered(st) + [] == list + Registered(st);
    StatementMeans(st, |list|, env, Bound(before, list + Registered(st)), before);
  }

  /** A builder that still carries the offset of an earlier union prints placeholders past the end of its own list:
      run by itself it is right exactly if its offset is 0 or it registers nothing; else its last placeholder is
      bound to nothing. */
  lemma OffsetExact(st: Statement, offset: nat, list: seq<Variant>, before: Bindings)
    requires WellFormedStatement(st) && CallersOnly(before)
    ensures Resolves(Registered(st), offset + |list|, Bound(before, list + Registered(st)))
      <==> offset == 0 || Registered(st) == []
    ensures offset > 0 && Registered(st) != [] ==>
      var all := list + Registered(st);
      var last := Placeholder(offset + |all| - 1);
      last in Numerals(Flatten(Pieces(st, offset + |list|))) && last !in Bound(before, all)
  {
    hide Registered, Pieces, Flatten, Numerals, Placeholder, WellFormedStatement, CallersOnly, Bound, Resolves;
    var vals := Registered(st);
    ResolvesExact(before, list + vals, offset + |list|, vals);
    if vals != [] && offset > 0 {
      assert !Holds(list + vals, offset + |list| + (|vals| - 1), vals[|vals| - 1]);
      StatementNumerals(st, offset + |list|);
      RunLast(offset + |list|, |vals|);
      NotBoundPast(before, list + vals, offset + |list + vals| - 1);
    } else {
      NowNotRegistered(st);
      assert forall i :: 0 <= i < |vals| ==> (list + vals)[|list| + i] == vals[i];
    }
  }

  lemma NotBoundPast(before: Bindings, list: seq<Variant>, k: nat)
    requires CallersOnly(before) && k >= |list|
    ensures Placeholder(k) !in Bound(before, list)
  {
    BoundUpToHas(before, list, |list|, k);
  }

  lemma RunLast(k: nat, n: nat)
    requires n > 0
    ensures Placeholder(k + n - 1) in Run(k, n)
  {
    assert Run(k, n)[n - 1] == Placeholder(k + (n - 1));
  }

  // ----- re-assembly -----

  function Shift(p: Piece, d: nat): Piece {
    if p.Fixed? then p else p.(at := p.at + d)
  }

  lemma {:induction false} JoinPiecesShift(joins: seq<JoinInfo>, k: nat, d: nat)
    ensures JoinPieces(joins, k + d) == Shifted(JoinPieces(joins, k), d)
  {
    hide Values, JoinHead;
    if joins != [] {
      var n := |Values(joins[0].condition)|;
      JoinPiecesShift(joins[1..], k + n, d);
      assert k + d + n == k + n + d;
    }
  }

  function Shifted(ps: seq<Piece>, d: nat): seq<Piece> {
    seq(|ps|, i requires 0 <= i < |ps| => Shift(ps[i], d))
  }

  lemma {:induction false} SetPiecesShift(sets: seq<(string, Variant)>, k: nat, d: nat)
    ensures SetPieces(sets, k + d) == Shifted(SetPieces(sets, k), d)
  {
    if sets != [] {
      SetPiecesShift(sets[1..], k + |SetValues(sets[..1])|, d);
    }
  }

  /** Printing at another index changes the numbers of the placeholders and nothing else. */
  lemma PiecesShift(st: Statement, k: nat, d: nat)
    ensures Pieces(st, k + d) == Shifted(Pieces(st, k), d)
  {
    hide JoinPieces, SetPieces, SelectHead, SelectTail, JoinValues, SetValues;
    match st.parts
    case Select(_, joins, _, _, _, _, _, _, _, _) => JoinPiecesShift(joins, k, d);
    case Update(sets, _) => SetPiecesShift(sets, k, d);
    case Delete(_) =>
  }

  /** The list of a SELECT builder after `n` rounds of invalidating and assembling it. */
  function ListAfter(st: Statement, list: seq<Variant>, n: nat): seq<Variant> {
    if n == 0 then list else ListAfter(st, list, n - 1) + Registered(st)
  }

  lemma {:induction false} ListAfterLength(st: Statement, list: seq<Variant>, n: nat)
    ensures |ListAfter(st, list, n)| == |list| + n * |Registered(st)|
  {
    if n > 0 {
      ListAfterLength(st, list, n - 1);
      assert n * |Registered(st)| == (n - 1) * |Registered(st)| + |Registered(st)|;
    }
  }

  /** After any number of rounds a SELECT (offset 0) is its first text with all placeholders moved by the values
      registered since, and it still means the same. */
  lemma RoundsPreserveMeaning(st: Statement, list: seq<Variant>, n: nat, before: Bindings, env: Env)
    requires WellFormedStatement(st)
    ensures
      var start := ListAfter(st, list, n);
      && Pieces(st, |start|) == Shifted(Pieces(st, |list|), n * |Registered(st)|)
      && forall p <- Pieces(st, |start|) :: Faithful(p, env, Bound(before, ListAfter(st, list, n + 1)), before)
  {
    ListAfterLength(st, list, n);
    PiecesShift(st, |list|, n * |Registered(st)|);
    StatementFaithful(st, ListAfter(st, list, n), before, env);
  }

  // ----- condition expressions -----

  /** `leaf1 && leaf2` and `leaf1 || leaf2`. */
  function LeafExpression(op: LogicOperator, leaf1: Condition, leaf2: Condition): Condition {
    Leaf("", Equals).(logicOp := op, subs := [leaf1, leaf2])
  }

  /** An expression extended by a leaf with its own operator; the other operator does not compile. */
  function ExtendExpression(expression: Condition, leaf: Condition): Condition {
    expression.(subs := expression.subs + [leaf])
  }

  function Apply(op: LogicOperator, a: Truth, b: Truth): Truth {
    if op == And then Conj(a, b) else Disj(a, b)
  }

  lemma {:induction false} CombineSnoc(op: LogicOperator, ts: seq<Truth>, t: Truth)
    requires ts != []
    ensures Combine(op, ts + [t]) == Apply(op, Combine(op, ts), t)
  {
    assert (ts + [t])[1..] == ts[1..] + [t];
    if |ts| > 1 {
      CombineSnoc(op, ts[1..], t);
    } else {
      assert ts[1..] == [] && [t][1..] == [];
      assert Combine(op, [t]) == t;
      assert Combine(op, ts) == ts[0];
    }
  }

  lemma {:induction false} MeaningsConcat(a: seq<Condition>, b: seq<Condition>, env: Env, user: Bindings)
    ensures Meanings(a + b, env, user) == Meanings(a, env, user) + Meanings(b, env, user)
  {
    if a == [] {
      assert a + b == b;
    } else {
      assert (a + b)[1..] == a[1..] + b;
      MeaningsConcat(a[1..], b, env, user);
    }
  }

  /** The C++ operators on leaves mean the SQL operators. */
  lemma LeafExpressionMeaning(op: LogicOperator, leaf1: Condition, leaf2: Condition, env: Env, user: Bindings)
    ensures Meaning(LeafExpression(op, leaf1, leaf2), env, user) == Apply(op, Meaning(leaf1, env, user), Meaning(leaf2, env, user))
  {
    var a, b := Meaning(leaf1, env, user), Meaning(leaf2, env, user);
    assert [leaf1, leaf2][1..] == [leaf2] && [leaf2][1..] == [];
    assert Meanings([leaf2], env, user) == [b];
    assert Meanings([leaf1, leaf2], env, user) == [a, b];
    assert [a, b][1..] == [b] && [b][1..] == [];
    assert Combine(op, [b]) == b;
  }

  lemma ExtendExpressionMeaning(e: Condition, leaf: Condition, env: Env, user: Bindings)
    requires e.subs != []
    ensures Meaning(ExtendExpression(e, leaf), env, user) == Apply(e.logicOp, Meaning(e, env, user), Meaning(leaf, env, user))
  {
    MeaningsConcat(e.subs, [leaf], env, user);
    CombineSnoc(e.logicOp, Meanings(e.subs, env, user), Meaning(leaf, env, user));
    assert Meanings([leaf], env, user) == [Meaning(leaf, env, user)];
  }

  // ----- removeSortColumn -----

  /** The state of the search loop: the list, the iterator, and whether it has left the loop. */
  datatype SortSearch = SortSearch(columns: seq<(string, SortOrder)>, at: nat, done: bool)

  /** One turn of the loop, which never advances its iterator. */
  function SearchTurn(s: SortSearch, column: string): SortSearch {
    if s.done || s.at >= |s.columns| then s.(done := true)
    else if s.columns[s.at].0 == column then SortSearch(s.columns[..s.at] + s.columns[s.at + 1..], s.at, true)
    else s
  }

  function SearchTurns(s: SortSearch, column: string, n: nat): SortSearch {
    if n == 0 then s else SearchTurn(SearchTurns(s, column, n - 1), column)
  }

  /** The loop ends exactly if there is no sort column or the first one is the one to remove; else it turns forever. */
  lemma {:induction false} RemoveSortColumnExact(columns: seq<(string, SortOrder)>, column: string, n: nat)
    requires n > 0
    ensures var s := SearchTurns(SortSearch(columns, 0, false), column, n);
      && (s.done <==> columns == [] || columns[0].0 == column)
      && s.columns == (if columns != [] && columns[0].0 == column then columns[1..] else columns)
      && s.at == 0
  {
    if n > 1 {
      RemoveSortColumnExact(columns, column, n - 1);
    }
  }
}
