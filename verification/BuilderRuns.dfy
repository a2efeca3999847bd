/** The builders at work: what the prepared query means after whole rounds of assembling, binding and combining. */
module BuilderRuns {
  import opened Conditions
  import opened QtText
  import opened Printing
  import opened Semantics
  import opened Statements
  import opened QueryCache
  import opened Builders
  import opened BuilderLaws
  import opened Unions
  import opened TextLaws

  /** One round of a SELECT that was never the second half of a union. */
  method SelectMeans(b: SqlConditionalQueryBuilder, cache: SqlQueryCache, driver: Driver, ghost env: Env)
    returns (ok: bool, ghost k: nat, ghost before: Bindings)
    requires b.parts.Select? && b.bindedValuesOffset == 0 && WellFormedStatement(b.Built()) && Honest(cache.State())
    modifies b, cache, driver
    ensures Honest(cache.State()) && b.Built() == old(b.Built()) && b.bindedValuesOffset == 0
    ensures b.bindValues == old(b.bindValues) + Registered(b.Built())
    ensures ok ==> b.query.connection == b.connection && b.query.text == TextOf(Pieces(b.Built(), k))
    ensures ok ==> forall p <- Pieces(b.Built(), k) :: Faithful(p, env, b.query.bound, before)
  {
    hide Pieces, TextOf, Faithful, Bound, WellFormedStatement, PreparedOnce, Hit, Honest, SpelledAsUnion;
    b.InvalidateQuery();
    k := |b.bindValues|;
    ok, before := b.SelectQuery(cache, driver);
    StatementFaithful(b.Built(), old(b.bindValues), before, env);
  }

  /** Any number of rounds: the query is prepared with the statement's pieces, and with what is bound every piece
      means what it was built to mean, whatever the bind list held before. */
  method SelectRounds(b: SqlConditionalQueryBuilder, cache: SqlQueryCache, driver: Driver, n: nat, ghost env: Env)
    returns (ok: bool, ghost k: nat, ghost before: Bindings)
    requires b.parts.Select? && b.bindedValuesOffset == 0 && WellFormedStatement(b.Built()) && Honest(cache.State())
    modifies b, cache, driver
    ensures b.Built() == old(b.Built()) && b.bindValues == ListAfter(b.Built(), old(b.bindValues), n)
    ensures ok ==> b.query.connection == b.connection && b.query.text == TextOf(Pieces(b.Built(), k))
    ensures ok ==> forall p <- Pieces(b.Built(), k) :: Faithful(p, env, b.query.bound, before)
  {
    hide Pieces, TextOf, Faithful, Registered, WellFormedStatement, PreparedOnce, Hit, Honest, SpelledAsUnion;
    ok, k, before := false, 0, map[];
    for i := 0 to n
      invariant b.Built() == old(b.Built()) && b.bindedValuesOffset == 0 && Honest(cache.State())
      invariant b.bindValues == ListAfter(b.Built(), old(b.bindValues), i)
      invariant ok ==> b.query.connection == b.connection && b.query.text == TextOf(Pieces(b.Built(), k))
      invariant ok ==> forall p <- Pieces(b.Built(), k) :: Faithful(p, env, b.query.bound, before)
    {
      ok, k, before := SelectMeans(b, cache, driver, env);
    }
  }

  /** UPDATE: whatever the builder assembled before, the text is the same, and every condition and every assigned
      value of the prepared query means what it was built to mean. */
  method UpdateMeans(b: SqlConditionalQueryBuilder, cache: SqlQueryCache, driver: Driver, ghost env: Env)
    returns (ok: bool, ghost before: Bindings)
    requires b.parts.Update? && b.bindedValuesOffset == 0 && WellFormedStatement(b.Built()) && Honest(cache.State())
    modifies b, cache, driver
    ensures b.Built() == old(b.Built()) && b.queryString == Trimmed(TextOf(Pieces(b.Built(), 0)))
    ensures ok ==> b.query.text == b.queryString
    ensures ok ==> forall p <- Pieces(b.Built(), 0) :: Faithful(p, env, b.query.bound, before)
  {
    hide Pieces, TextOf, Faithful, Bound, WellFormedStatement, Trimmed, PreparedOnce, Hit, Honest, SpelledAsUnion;
    b.InvalidateQuery();
    ok, before := b.UpdateQuery(cache, driver);
    StatementFaithful(b.Built(), [], before, env);
    assert [] + Registered(b.Built()) == Registered(b.Built());
  }

  /** DELETE likewise. */
  method DeleteMeans(b: SqlConditionalQueryBuilder, cache: SqlQueryCache, driver: Driver, ghost env: Env)
    returns (ok: bool, ghost before: Bindings)
    requires b.parts.Delete? && b.bindedValuesOffset == 0 && WellFormedStatement(b.Built()) && Honest(cache.State())
    modifies b, cache, driver
    ensures b.Built() == old(b.Built()) && b.queryString == Trimmed(TextOf(Pieces(b.Built(), 0)))
    ensures ok ==> b.query.text == b.queryString
    ensures ok ==> forall p <- Pieces(b.Built(), 0) :: Faithful(p, env, b.query.bound, before)
  {
    hide Pieces, TextOf, Faithful, Bound, WellFormedStatement, Trimmed, PreparedOnce, Hit, Honest, SpelledAsUnion;
    b.InvalidateQuery();
    ok, before := b.DeleteQuery(cache, driver);
    StatementFaithful(b.Built(), [], before, env);
    assert [] + Registered(b.Built()) == Registered(b.Built());
  }

  /** A fresh builder combining two others, the first with offset 0, or one builder with itself: whatever they have
      accumulated, every piece of both statements means in the combined query what it was built to mean. */
  method UnionMeans(target: SqlConditionalQueryBuilder, b1: SqlConditionalQueryBuilder, b2: SqlConditionalQueryBuilder,
                    all: bool, cache: SqlQueryCache, driver: Driver, ghost env: Env)
    returns (ok: bool, ghost k1: nat, ghost k2: nat, ghost before: Bindings)
    requires !target.assembled && target.bindValues == [] && target.queryString == ""
    requires b1.bindedValuesOffset == 0 && b1.parts.Select? && b2.parts.Select?
    requires WellFormedStatement(b1.Built()) && WellFormedStatement(b2.Built()) && Honest(cache.State())
    modifies target, b1, b2, cache, driver
    ensures target.queryString == TextOf(UnionPieces(b1.Built(), k1, all, b2.Built(), k2))
    ensures b1.Built() == old(b1.Built()) && b2.Built() == old(b2.Built())
    ensures ok ==> target.query.text == target.queryString
    ensures ok ==>
      forall p <- UnionPieces(b1.Built(), k1, all, b2.Built(), k2) :: Faithful(p, env, target.query.bound, before)
  {
    hide UnionPieces, TextOf, Faithful, Bound, WellFormedStatement, Registered, PreparedOnce, Hit, Honest, SpelledAsUnion;
    ghost var list1, list2 := b1.bindValues, b2.bindValues;
    ghost var first := list1 + Registered(b1.Built());
    ghost var st1, st2, same := b1.Built(), b2.Built(), b1 == b2;
    k1 := |list1|;
    k2 := |first| + |if same then first else list2|;
    var combined;
    combined, ok, before := target.CombineQueries(b1, b2, all, cache, driver);
    HalvesMean(st1, list1, all, st2, list2, same, before, env);
  }

  /** Both cases of a union: of two builders, and of one with itself. */
  lemma HalvesMean(st1: Statement, list1: seq<Variant>, all: bool, st2: Statement, list2: seq<Variant>, same: bool,
                   before: Bindings, env: Env)
    requires WellFormedStatement(st1) && WellFormedStatement(st2) && (same ==> st1 == st2 && list1 == list2)
    ensures
      var first := list1 + Registered(st1);
      var before2 := if same then first else list2;
      var second := before2 + Registered(st2);
      var combined := (if same then second else first) + second;
      forall p <- UnionPieces(st1, |list1|, all, st2, |first| + |before2|) :: Faithful(p, env, Bound(before, combined), before)
  {
    hide UnionPieces, Faithful, Bound, WellFormedStatement, Registered;
    if same {
      var first := list1 + Registered(st1);
      assert |first| + |first| == 2 * |first| && SelfList(st1, list1) == first + Registered(st1) + (first + Registered(st1));
      SelfUnionFaithful(st1, list1, all, before, env);
    } else {
      UnionFaithful(st1, list1, all, st2, list2, before, env);
    }
  }

  /** A builder that was the second half of one union and is the first half of the next: its placeholder names the
      value of the other half. */
  method StaleOffsetMisbinds(cache: SqlQueryCache, driver: Driver, connection: string, v: Variant, w: Variant)
    returns (b: SqlConditionalQueryBuilder, target: SqlConditionalQueryBuilder, ok: bool)
    requires Honest(cache.State())
    requires v !in {Now, Invalid} && w !in {Now, Invalid} && DriverForm(v) != DriverForm(w)
    modifies cache, driver
    ensures fresh(b) && fresh(target) && b.parts.Select? && Registered(b.Built()) == [v]
    ensures exists other: Statement :: target.queryString == TextOf(UnionPieces(b.Built(), 2, false, other, 2))
    ensures ok ==> target.query.text == target.queryString && !Resolves([v], 2, target.query.bound)
  {
    hide TextOf, UnionPieces, Pieces, Bound, Registered, Resolves, DriverForm, PreparedOnce, Hit, Honest, SpelledAsUnion;
    var earlier := FilteredBy(connection, w);
    var other := FilteredBy(connection, w);
    b := FilteredBy(connection, v);
    var union := new SqlConditionalQueryBuilder(connection, EMPTY_SELECT);
    target := new SqlConditionalQueryBuilder(connection, EMPTY_SELECT);
    var combined;
    ghost var before;
    combined, ok, before := union.CombineQueries(earlier, b, false, cache, driver);
    assert [] + [v] == [v] && [] + [w] == [w];
    assert b.bindValues == [v] && b.bindedValuesOffset == 1;
    combined, ok, before := target.CombineQueries(b, other, false, cache, driver);
    assert [v] + [v] + ([] + [w]) == [v, v, w];
    assert target.bindValues == [v, v, w];
    if ok {
      FirstMisbound(before, target.bindValues, 2, [v]);
    }
  }

  /** The same builder asked again by itself: its placeholder is bound to nothing. */
  method StaleOffsetAlone(cache: SqlQueryCache, driver: Driver, connection: string, v: Variant, w: Variant)
    returns (b: SqlConditionalQueryBuilder, ok: bool, ghost before: Bindings)
    requires Honest(cache.State()) && v !in {Now, Invalid} && w !in {Now, Invalid}
    modifies cache, driver
    ensures fresh(b) && b.parts.Select? && Registered(b.Built()) == [v]
    ensures b.queryString == TextOf(Pieces(b.Built(), 2))
    ensures ok && CallersOnly(before) ==> b.query.text == b.queryString && Placeholder(2) !in b.query.bound
  {
    hide TextOf, UnionPieces, Pieces, Bound, Registered, CallersOnly, Placeholder, PreparedOnce, Hit, Honest, SpelledAsUnion;
    var earlier := FilteredBy(connection, w);
    b := FilteredBy(connection, v);
    var union := new SqlConditionalQueryBuilder(connection, EMPTY_SELECT);
    var combined;
    combined, ok, before := union.CombineQueries(earlier, b, false, cache, driver);
    assert [] + [v] == [v] && [] + [w] == [w];
    assert b.bindValues == [v] && b.bindedValuesOffset == 1;
    b.InvalidateQuery();
    ok, before := b.SelectQuery(cache, driver);
    assert b.bindValues == [v] + [v];
    BoundIsUpTo(before, b.bindValues);
    if CallersOnly(before) {
      BoundUpToHas(before, b.bindValues, 2, 2);
    }
  }

  /** A builder of two values with an offset of one, combined with itself: its first copy finds them swapped. */
  method SelfStaleMisbinds(cache: SqlQueryCache, driver: Driver, connection: string, u: Variant, v: Variant, w: Variant)
    returns (b: SqlConditionalQueryBuilder, target: SqlConditionalQueryBuilder, ok: bool)
    requires Honest(cache.State())
    requires u !in {Now, Invalid} && v !in {Now, Invalid} && w !in {Now, Invalid} && DriverForm(v) != DriverForm(w)
    modifies cache, driver
    ensures fresh(b) && fresh(target) && b.parts.Select? && Registered(b.Built()) == [v, w]
    ensures target.queryString == TextOf(UnionPieces(b.Built(), 3, false, b.Built(), 8))
    ensures ok ==> target.query.text == target.queryString && !Resolves([v, w], 3, target.query.bound)
  {
    hide TextOf, UnionPieces, Pieces, Bound, Registered, Resolves, DriverForm, PreparedOnce, Hit, Honest, SpelledAsUnion;
    var earlier := FilteredBy(connection, u);
    b := FilteredByTwo(connection, v, w);
    var union := new SqlConditionalQueryBuilder(connection, EMPTY_SELECT);
    target := new SqlConditionalQueryBuilder(connection, EMPTY_SELECT);
    var combined;
    ghost var before;
    combined, ok, before := union.CombineQueries(earlier, b, false, cache, driver);
    assert [] + [u] == [u] && [] + [v, w] == [v, w];
    assert b.bindValues == [v, w] && b.bindedValuesOffset == 1;
    combined, ok, before := target.CombineQueries(b, b, false, cache, driver);
    assert [v, w] + [v, w] == [v, w, v, w] && [v, w, v, w] + [v, w] == [v, w, v, w, v, w];
    assert target.bindValues == [v, w, v, w, v, w] + [v, w, v, w, v, w];
    if ok {
      FirstMisbound(before, target.bindValues, 3, [v, w]);
    }
  }

  /** A SELECT whose WHERE compares one column with `v` and with `w`. */
  method FilteredByTwo(connection: string, v: Variant, w: Variant) returns (b: SqlConditionalQueryBuilder)
    requires v !in {Now, Invalid} && w !in {Now, Invalid}
    ensures fresh(b) && b.parts == EMPTY_SELECT && Registered(b.Built()) == [v, w]
    ensures b.bindValues == [] && b.bindedValuesOffset == 0 && b.queryString == "" && !b.assembled
  {
    b := new SqlConditionalQueryBuilder(connection, EMPTY_SELECT);
    var where := new SqlCondition(And);
    where.AddValueCondition("id", GreaterOrEqual, v);
    where.AddValueCondition("id", LessOrEqual, w);
    b.where := where.Snapshot();
    TwoValues(b.where, v, w);
  }

  lemma TwoValues(c: Condition, v: Variant, w: Variant)
    requires v !in {Now, Invalid} && w !in {Now, Invalid}
    requires c.subs == [ValueLeaf("id", GreaterOrEqual, v, true)] + [ValueLeaf("id", LessOrEqual, w, true)]
    ensures WhereValues(c) == [v, w]
  {
    assert c.subs[1..] == [c.subs[1]] && c.subs[1..][1..] == [];
    assert Values(c.subs[0]) == [v] && Values(c.subs[1]) == [w];
    assert ValuesOf(c.subs[1..]) == [w] + [];
    assert ValuesOf(c.subs) == [v] + [w];
  }

  lemma FirstMisbound(before: Bindings, list: seq<Variant>, k: nat, vals: seq<Variant>)
    requires vals != [] && k < |list| && list[k] != Now && DriverForm(list[k]) != DriverForm(vals[0])
    ensures !Resolves(vals, k, Bound(before, list))
  {
    BoundUpToGets(before, list, |list|, k);
    assert !BoundTo(Bound(before, list), k + 0, vals[0]);
  }

  lemma BoundIsUpTo(before: Bindings, list: seq<Variant>)
    ensures Bound(before, list) == BoundUpTo(before, list, |list|)
  {
  }

  /** A SELECT whose WHERE compares one column with `v`. */
  method FilteredBy(connection: string, v: Variant) returns (b: SqlConditionalQueryBuilder)
    requires v !in {Now, Invalid}
    ensures fresh(b) && b.parts == EMPTY_SELECT && Registered(b.Built()) == [v]
    ensures b.bindValues == [] && b.bindedValuesOffset == 0 && b.queryString == "" && !b.assembled
  {
    b := new SqlConditionalQueryBuilder(connection, EMPTY_SELECT);
    var where := new SqlCondition(And);
    where.AddValueCondition("id", Equals, v);
    b.where := where.Snapshot();
    assert b.where.subs == [ValueLeaf("id", Equals, v, true)];
    OneValue(b.where, v);
  }

  lemma OneValue(c: Condition, v: Variant)
    requires v !in {Now, Invalid} && c.subs == [ValueLeaf("id", Equals, v, true)]
    ensures WhereValues(c) == [v]
  {
    assert c.subs[1..] == [];
    assert ValuesOf(c.subs[1..]) == [] && Values(c.subs[0]) == [v];
    assert ValuesOf(c.subs) == [v] + [];
  }

  /** What a combined builder renders is the text of its own fields, whatever it combined: the combined text is never
      among it if those fields do not hold the word UNION. */
  lemma OwnFieldsOnly(own: Statement, st1: Statement, k1: nat, all: bool, st2: Statement, k2: nat)
    requires WellFormedStatement(own)
    ensures WithoutUnion(own) ==>
      forall k: nat :: TextOf(Pieces(own, k)) != TextOf(UnionPieces(st1, k1, all, st2, k2))
  {
    if WithoutUnion(own) {
      forall k: nat
        ensures TextOf(Pieces(own, k)) != TextOf(UnionPieces(st1, k1, all, st2, k2))
      {
        NeverUnion(own, k, st1, k1, all, st2, k2);
      }
    }
  }

  /** Combines, and keeps the combined text for comparison. */
  method Combine(target: SqlConditionalQueryBuilder, b1: SqlConditionalQueryBuilder, b2: SqlConditionalQueryBuilder,
                 all: bool, cache: SqlQueryCache, driver: Driver)
    returns (combined: string)
    requires !target.assembled && target.bindValues == [] && target.queryString == "" && WellFormedStatement(target.Built())
    requires b1.parts.Select? && b2.parts.Select? && Honest(cache.State())
    modifies target, b1, b2, cache, driver
    ensures Honest(cache.State())
    ensures target.Built() == old(target.Built()) && b1.Built() == old(b1.Built()) && b2.Built() == old(b2.Built())
    ensures exists k1: nat, k2: nat :: combined == TextOf(UnionPieces(b1.Built(), k1, all, b2.Built(), k2))
    ensures target.queryString == combined
    ensures WithoutUnion(target.Built()) ==> forall k: nat :: TextOf(Pieces(target.Built(), k)) != combined
  {
    hide UnionPieces, TextOf, Pieces, Bound, Registered, WithoutUnion, WellFormedStatement, PreparedOnce, Hit, Honest, SpelledAsUnion;
    ghost var k1, first := b1.NextIndex(), b1.bindValues + Registered(b1.Built());
    ghost var k2 := |first| + |if b1 == b2 then first else b2.bindValues|;
    var done, ok;
    ghost var before;
    done, ok, before := target.CombineQueries(b1, b2, all, cache, driver);
    combined := target.queryString;
    OwnFieldsOnly(target.Built(), b1.Built(), k1, all, b2.Built(), k2);
  }

  /** A combined builder that is invalidated and asked again has the text of its own fields. If those do not hold the
      word UNION, that is not the combined text. */
  method CombinedThenRequeried(target: SqlConditionalQueryBuilder, b1: SqlConditionalQueryBuilder,
                               b2: SqlConditionalQueryBuilder, all: bool, cache: SqlQueryCache, driver: Driver)
    returns (combined: string, ghost k: nat)
    requires !target.assembled && target.bindValues == [] && target.queryString == "" && target.parts.Select?
    requires b1.parts.Select? && b2.parts.Select? && Honest(cache.State()) && WellFormedStatement(target.Built())
    modifies target, b1, b2, cache, driver
    ensures target.Built() == old(target.Built())
    ensures exists k1: nat, k2: nat :: combined == TextOf(UnionPieces(b1.Built(), k1, all, b2.Built(), k2))
    ensures target.queryString == TextOf(Pieces(target.Built(), k))
    ensures WithoutUnion(target.Built()) ==> target.queryString != combined
  {
    hide UnionPieces, TextOf, Pieces, Bound, Registered, WithoutUnion, WellFormedStatement, PreparedOnce, Hit, Honest, SpelledAsUnion;
    combined := Combine(target, b1, b2, all, cache, driver);
    ghost var k1: nat, k2: nat :| combined == TextOf(UnionPieces(b1.Built(), k1, all, b2.Built(), k2));
    k := target.NextIndex();
    target.InvalidateQuery();
    var ok;
    ghost var before;
    ok, before := target.SelectQuery(cache, driver);
    assert combined == TextOf(UnionPieces(b1.Built(), k1, all, b2.Built(), k2));
  }

  /** A combined builder used in another union, as its first half, its second half or both: its share of the text is
      that of its own fields, again never the combined text if those do not hold the word UNION. */
  method CombinedThenCombined(outer: SqlConditionalQueryBuilder, target: SqlConditionalQueryBuilder,
                              b1: SqlConditionalQueryBuilder, b2: SqlConditionalQueryBuilder,
                              x: SqlConditionalQueryBuilder, y: SqlConditionalQueryBuilder, all: bool, cache: SqlQueryCache, driver: Driver)
    returns (combined: string, ghost kx: nat, ghost ky: nat)
    requires x == target || y == target
    requires outer !in {target, b1, b2, x, y} && !outer.assembled && outer.bindValues == [] && outer.queryString == ""
    requires !target.assembled && target.bindValues == [] && target.queryString == ""
    requires target.parts.Select? && WellFormedStatement(target.Built())
    requires b1.parts.Select? && b2.parts.Select? && x.parts.Select? && y.parts.Select? && Honest(cache.State())
    modifies outer, target, b1, b2, x, y, cache, driver
    ensures target.Built() == old(target.Built())
    ensures exists k1: nat, k2: nat :: combined == TextOf(UnionPieces(old(b1.Built()), k1, all, old(b2.Built()), k2))
    ensures outer.queryString == TextOf(Pieces(old(x.Built()), kx)) + UnionWord(all) + TextOf(Pieces(old(y.Built()), ky))
    ensures WithoutUnion(target.Built()) ==> forall k: nat :: TextOf(Pieces(target.Built(), k)) != combined
  {
    hide UnionPieces, TextOf, Pieces, Bound, Registered, UnionWord, WithoutUnion, WellFormedStatement, PreparedOnce, Hit, Honest, SpelledAsUnion;
    combined := Combine(target, b1, b2, all, cache, driver);
    ghost var k1: nat, k2: nat :| combined == TextOf(UnionPieces(b1.Built(), k1, all, b2.Built(), k2));
    kx := x.NextIndex();
    ghost var first := x.bindValues + Registered(x.Built());
    ky := |first| + |if x == y then first else y.bindValues|;
    var done, ok;
    ghost var before;
    done, ok, before := outer.CombineQueries(x, y, all, cache, driver);
    TextOfUnion(x.Built(), kx, all, y.Built(), ky);
    assert combined == TextOf(UnionPieces(old(b1.Built()), k1, all, old(b2.Built()), k2));
  }
}
